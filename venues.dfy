/**
 * The client-side itinerary entry (`Restaurant` in app/data/venues.ts), with
 * the `placeId` field the itinerary builder reads. `time` is the start time in
 * minutes since midnight, `duration` the stay in minutes.
 */
module Venues {
  import opened CoordinatesCache
  import opened PlaceData

  datatype Restaurant = Restaurant(
    id: int,
    placeId: string,
    name: string,
    kind: PlaceType,
    vibes: seq<string>,
    time: int,
    duration: int,
    price: string,
    address: string,
    imageUrl: string,
    coordinates: Coordinates,
    cuisine: string)
}
