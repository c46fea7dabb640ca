/**
 * The stored place record (the `Place` model the routes and components read
 * and write). Field names follow the record's columns in Dafny's casing.
 */
module PlaceData {
  import opened Common
  import opened CoordinatesCache

  /** `PlaceType`: every place is a restaurant or a bar. */
  datatype PlaceType = Restaurant | Bar

  /** The JSON address column: formatted text and `geometry.location`. */
  datatype Address = Address(formattedAddress: string, location: Coordinates)

  /**
   * A place. `placeId` is the provider's unique id (the store's key),
   * `priceLevel` the nullable price tier, `photoUpdated` the millisecond time
   * of the last photo refresh. The store-generated internal id is not modelled.
   */
  datatype Place = Place(
    placeId: string,
    name: string,
    kind: PlaceType,
    vibes: seq<string>,
    priceLevel: Option<int>,
    address: Address,
    cuisine: seq<string>,
    photoUrl: Option<string>,
    photoRef: Option<string>,
    photoUpdated: Option<int>)
}
