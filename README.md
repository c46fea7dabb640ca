# romantic-dinings, modelled in Dafny

romantic-dinings is a web application for planning an evening out. The user
builds an itinerary of restaurants and bars by dragging recommendations into
a list. Each stop's start time follows from the previous stop's stay and the
travel time between them. Places come from a provider search and are cached
in a database, and an itinerary can be shared under a short code.

This project models the logic behind that, one Dafny module per source file:

- `Itinerary` (itinerary_builder.dfy) is the itinerary list engine. It covers
  the travel-time fallback, the adjacent-pair duration map and its string
  keys, reordering with JavaScript `splice`/`findIndex` semantics, replacing a
  stop with a dropped venue, removal by id, and start times propagated from
  19:00. It ends with an `ItineraryBuilder` class whose fields are the
  component's state.
- `VibeSelector` covers filtering by vibe, the Fisher-Yates shuffle loop on an
  array, and the cut to five results.
- `PlaceSearch` covers the search endpoint: the query check, the relevance
  short-circuit, and the per-result refresh-or-create rules over a store keyed
  by provider id.
- `ShareRoute` covers the comma-joined id string, reuse of a live share, code
  generation, the 30-day expiry and the retry-on-conflict loop, over a share
  table.
- `DistanceRoute` covers the duration-or-900 decision.
- `CoordinatesCache` covers the memo map, which only grows, and the fallback
  point.
- `PhotoCache` covers the seven-day staleness rule.
- `PlaceCard` covers the price symbol and the duration label.
- `Common`, `PlaceData` and `Venues` hold shared values: optional values,
  JavaScript truthiness, ASCII lower-casing, the stored place record and the
  itinerary stop.

Everything outside the program is a parameter: the travel lookup, provider
fetches, `Math.random`, the share-code generator, the clock and
`encodeURIComponent`. Times are integers. Calendar times become minutes since
midnight, taken modulo a day. Timestamps are milliseconds.

Where the code and its description differ, the model follows the code.
Reordering neither rejects duplicates nor shifts the insertion point after the
removal. The duration map is not cleared when fewer than two stops remain. A
photo refresh without a photo reference leaves the stored reference as it was.

## Model

| member | source | states |
|---|---|---|
| Itinerary.TravelSeconds | app/components/ItineraryBuilder.tsx:24-45 | the travel time is the route's duration, or 900 seconds when the lookup fails |
| Itinerary.CeilMinutes | app/components/ItineraryBuilder.tsx:56 | the minutes are the least whole number m with seconds <= 60*m |
| Itinerary.TravelMinutes | app/components/ItineraryBuilder.tsx:52-56 | the travel between two stops in whole minutes: CeilMinutes of TravelSeconds; a failure gives 15 (FailedTravelIsFifteenMinutes) |
| Itinerary.PairKey | app/components/ItineraryBuilder.tsx:51 | the `${a}-${b}` key of a pair of ids; PairKeyInjective proves that distinct pairs get distinct keys |
| Itinerary.FailedTravelIsFifteenMinutes | app/components/ItineraryBuilder.tsx:41-44 | a failed lookup is stored and scheduled as exactly 15 minutes |
| Itinerary.PairKeyInjective | app/components/ItineraryBuilder.tsx:51 | two pairs of integer ids share a `${a}-${b}` key only if both ids are equal |
| Itinerary.Durations | app/components/ItineraryBuilder.tsx:48-58 | the map the effect builds, each adjacent pair written in turn; DurationKeys, DurationOfLastPair and EachPairHasItsMinutes characterise it, and ComputeDurations is proved to build it |
| Itinerary.DurationKeys | app/components/ItineraryBuilder.tsx:48-58 | the map's keys are exactly the keys of the adjacent pairs |
| Itinerary.DurationOfLastPair | app/components/ItineraryBuilder.tsx:50-57 | a key holds the minutes of the last adjacent pair written under it |
| Itinerary.EachPairHasItsMinutes | app/components/ItineraryBuilder.tsx:48-58 | with distinct ids, every adjacent pair's key holds that pair's travel minutes, and no other key exists |
| Itinerary.ShownTravelIsPairMinutes | app/components/ItineraryBuilder.tsx:221-223 | with distinct ids, after a recomputation, the text between two adjacent stops shows their travel minutes |
| Itinerary.ShownTravel | app/components/ItineraryBuilder.tsx:221-223 | the lookup with a default of 0: a missing key or a zero value shows 0; ShownTravelIsPairMinutes gives its value after a recomputation |
| Itinerary.ComputeDurations | app/components/ItineraryBuilder.tsx:48-58 | the loop builds exactly the pair-by-pair map, later pairs overwriting earlier ones |
| Itinerary.ItineraryBuilder.UpdateDurations | app/components/ItineraryBuilder.tsx:47-64 | with at least two stops the map is recomputed; otherwise the previous map is kept; the list and the dragged item are unchanged |
| Itinerary.FindIndex | app/components/ItineraryBuilder.tsx:153-158 | the first position holding the id, or -1 exactly when no stop has it |
| Itinerary.SpliceStart | app/components/ItineraryBuilder.tsx:160-161 | splice's start position: in range it is kept, negative counts from the end, and out of range it is clamped |
| Itinerary.SpliceRemove | app/components/ItineraryBuilder.tsx:160 | `splice(start, 1)`: one element shorter when the normalised start is inside the list, with the elements before it kept and those after it shifted down one; the same list when the start is at the end; MissingIndexRemovesLast gives the effect for -1 |
| Itinerary.SpliceInsert | app/components/ItineraryBuilder.tsx:161 | inserts at the normalised start; removing that element again gives back the list |
| Itinerary.Reorder | app/components/ItineraryBuilder.tsx:152-161 | the findIndex-splice-splice reorder of `handleDrop`; ReorderMovesDragged states where every stop ends up |
| Itinerary.ReorderMovesDragged | app/components/ItineraryBuilder.tsx:152-161 | with both stops present: same length, the dragged stop at the target's original index, and the list without the first stop carrying the dragged id kept in order; a permutation when the dragged stop is the first with its id |
| Itinerary.MissingIndexRemovesLast | app/components/ItineraryBuilder.tsx:153-160 | a findIndex of -1 makes the removal take the last stop |
| Itinerary.ReplaceTarget | app/components/ItineraryBuilder.tsx:100-104 | same length and ids; each stop with the target's id becomes the venue with that id; the others are unchanged |
| Itinerary.ReplaceTargetFacts | app/components/ItineraryBuilder.tsx:100-104 | no-op when the id is absent, idempotent, keeps ids distinct |
| Itinerary.Without | app/components/ItineraryBuilder.tsx:188-190 | `filter(a => a.id !== id)`, never longer than the list; WithoutMembers, WithoutOfConcat and WithoutIsIdempotent characterise it |
| Itinerary.WithoutMembers | app/components/ItineraryBuilder.tsx:188-190 | removal takes exactly the stops with the id and keeps all others |
| Itinerary.WithoutOfConcat | app/components/ItineraryBuilder.tsx:188-190 | removal is piecewise over concatenation, so the kept stops keep their order |
| Itinerary.WithoutIsIdempotent | app/components/ItineraryBuilder.tsx:188-190 | removing an absent id changes nothing, and removing twice is removing once |
| Itinerary.Schedule | app/components/ItineraryBuilder.tsx:107-126 | the list after the time loop, of the same length; ScheduleTimes gives every start time and ScheduleKeepsAllButTimes the other fields |
| Itinerary.NextStart | app/components/ItineraryBuilder.tsx:112-124 | the computed next start is a time of day in [0, 1440) |
| Itinerary.ScheduleTimes | app/components/ItineraryBuilder.tsx:107-126 | the first stop starts at 19:00; each later one at the previous start plus stay plus travel minutes, modulo a day |
| Itinerary.ScheduleKeepsAllButTimes | app/components/ItineraryBuilder.tsx:107-126 | the time loop changes only the start times |
| Itinerary.ScheduleIsIdempotent | app/components/ItineraryBuilder.tsx:164-183 | the result does not depend on the old times, so running the loop twice equals running it once |
| Itinerary.UpdateTimes | app/components/ItineraryBuilder.tsx:164-183 | the in-place loop leaves the array equal to the schedule of its old contents |
| Itinerary.Rescheduled | app/components/ItineraryBuilder.tsx:152 | the loop run on a copy of the list returns the schedule |
| Itinerary.ItineraryBuilder.constructor | app/components/ItineraryBuilder.tsx:17-21 | starts with the given list, nothing dragged and an empty map |
| Itinerary.ItineraryBuilder.DragStart | app/components/ItineraryBuilder.tsx:67-73 | the dragged item becomes the activity, and nothing else changes |
| Itinerary.ItineraryBuilder.DragEnd | app/components/ItineraryBuilder.tsx:75-78 | the dragged item is cleared, and nothing else changes |
| Itinerary.ItineraryBuilder.HandleActivityDrop | app/components/ItineraryBuilder.tsx:90-132 | a parsed venue replaces the target and the list is rescheduled; missing or unparseable data changes nothing |
| Itinerary.ItineraryBuilder.HandleDrop | app/components/ItineraryBuilder.tsx:135-186 | venue data takes precedence; with nothing dragged, or the target itself dragged, nothing changes; otherwise the list is reordered and rescheduled |
| Itinerary.ItineraryBuilder.RemoveActivity | app/components/ItineraryBuilder.tsx:188-190 | the list becomes the list without that id, and nothing else changes |
| VibeSelector.SelectVibe | app/components/itinerary/VibeSelector.tsx:84 | the selection a button click stores; UncategorizedButtonSelectsEmptyVibes and SelectionIsLowerCase state what it yields |
| VibeSelector.UncategorizedButtonSelectsEmptyVibes | app/components/itinerary/VibeSelector.tsx:41-45 | the "Uncategorized" button stores exactly the value the empty-vibes branch tests |
| VibeSelector.SelectionIsLowerCase | app/components/itinerary/VibeSelector.tsx:84 | a stored selection is lower-case, so lower-casing it again in the filter changes nothing |
| VibeSelector.Matches | app/components/itinerary/VibeSelector.tsx:45-52 | the filter test: no vibes for "uncategorized", otherwise the lower-cased vibe among the place's vibes; FilterByVibe keeps exactly the places that pass it |
| VibeSelector.FilterByVibe | app/components/itinerary/VibeSelector.tsx:45-52 | a place is kept exactly when it matches, and is never invented or duplicated |
| VibeSelector.FilterByVibeCounts | app/components/itinerary/VibeSelector.tsx:45-52 | a matching place occurs in the result as often as in the input, and a non-matching one not at all |
| VibeSelector.Draw | app/components/itinerary/VibeSelector.tsx:59 | with a draw in [0, 1), the partner index lies in [0, i] |
| VibeSelector.Partners | app/components/itinerary/VibeSelector.tsx:58-59 | every swap partner is in bounds for its step |
| VibeSelector.Swap | app/components/itinerary/VibeSelector.tsx:60 | the destructuring swap: positions i and j exchange their elements and every other position is unchanged |
| VibeSelector.SwapPermutes | app/components/itinerary/VibeSelector.tsx:60 | a swap keeps the multiset |
| VibeSelector.ShuffleFrom | app/components/itinerary/VibeSelector.tsx:58-61 | the swaps of the descending loop from index i down to 1, keeping the length; ShufflePermutes proves it a permutation and ShuffleArray is proved to compute it |
| VibeSelector.ShufflePermutes | app/components/itinerary/VibeSelector.tsx:56-63 | the shuffle returns a permutation of its input |
| VibeSelector.ShuffleArray | app/components/itinerary/VibeSelector.tsx:56-63 | the descending swap loop on a copied array gives the specified shuffle |
| VibeSelector.GetFilteredPlaces | app/components/itinerary/VibeSelector.tsx:44-54 | at most five shuffled matches: with no vibes for "uncategorized", otherwise containing the lower-cased vibe; all drawn from the input |
| PlaceCard.PriceToSymbol | app/components/itinerary/PlaceCard.tsx:14-16 | null or 0 gives "$$", k >= 1 gives k '$', and a negative level has no symbol; the recommendation list applies the same rule at app/components/itinerary/VibeSelector.tsx:72-74 |
| PlaceCard.DurationLabel | app/components/itinerary/PlaceCard.tsx:62 | "90 min" exactly for restaurants, "60 min" for every other type |
| PlaceCard.DefaultLooksLikeLevelTwo | app/components/itinerary/PlaceCard.tsx:15 | the default symbol and level 2 coincide |
| PlaceCard.PositiveLevelsAreDistinct | app/components/itinerary/PlaceCard.tsx:15 | different positive levels show differently, and only level 2 matches the default |
| PlaceSearch.KindOf | app/api/places/search/route.ts:116 | a new place is a bar exactly when "bar" is among its types |
| PlaceSearch.Cuisine | app/api/places/search/route.ts:132-134 | the `types.filter(...)` cuisine tags, never longer than the types; CuisineMembers, CuisineOfConcat and CuisineIsIdempotent characterise it |
| PlaceSearch.CuisineMembers | app/api/places/search/route.ts:132-134 | the cuisine is the types minus the five generic tags |
| PlaceSearch.CuisineOfConcat | app/api/places/search/route.ts:132-134 | stripping works piecewise, so kept tags keep their original order |
| PlaceSearch.CuisineIsIdempotent | app/api/places/search/route.ts:132-134 | stripping twice is stripping once |
| PlaceSearch.PriceOrNull | app/api/places/search/route.ts:125 | a missing price level or 0 becomes null, and any other level is kept |
| PlaceSearch.PhotoUrl | app/api/places/search/route.ts:111-113 | the internal photo route or the generated avatar; PhotoUrlIsInternalIffRef says which is chosen |
| PlaceSearch.NeedsPhotoRefresh | app/api/places/search/route.ts:82 | a stored record is refreshed when its reference or URL is falsy or its photo is stale; WrittenRecordFreshness and the KeptOrRefreshed invariant of Search use it |
| PlaceSearch.RefreshPhoto | app/api/places/search/route.ts:83-96 | the update changes only the three photo fields: the new reference (kept as it was when missing), the URL built from the new reference, and the request time |
| PlaceSearch.PhotoUrlIsInternalIffRef | app/api/places/search/route.ts:85-87 | the URL is the internal photo route exactly when a photo reference exists |
| PlaceSearch.NewPlace | app/api/places/search/route.ts:101-139 | a new record has the result's id and name, its type, no vibes, the price level or null (a non-zero level kept), the result's address and location, the cuisine tags in their original order, the photo URL from the reference, the reference or null, and the request time |
| PlaceSearch.WrittenRecordFreshness | app/api/places/search/route.ts:82 | a record written with a photo reference needs no refresh at that moment; one without a reference always does |
| PlaceSearch.IsRelevant | app/api/places/search/route.ts:51-54 | some database hit has the lower-cased query in its lower-cased name or among its cuisine tags; Search returns the hits unchanged exactly then |
| PlaceSearch.ProcessResult | app/api/places/search/route.ts:74-142 | one result: the stored record if it needs no refresh, else the refreshed record, else a new record, or a failure when the details lookup throws; ProcessResultStoresReturned, StepReturns and StepStore give what Search keeps of it |
| PlaceSearch.ProcessResultStoresReturned | app/api/places/search/route.ts:80-139 | the store afterwards is the store before with the returned place written under the result's id: the updated row (lines 89-96), the created row (lines 119-139), or the unchanged fresh record |
| PlaceSearch.Search | app/api/places/search/route.ts:22-154 | 400 on a missing query; relevant database hits are returned as they are; a failed search gives 500; a failed details lookup gives 500; otherwise up to five places in provider order, with stored records at most photo-refreshed, fresh ones returned unchanged, and only the results' ids added; each processed id ends up storing the place returned for the last result with that id |
| ShareRoute.CodeOf | app/api/share/route.ts:6 | a generated code is six characters from the alphabet |
| ShareRoute.AlphabetIsAscending | app/api/share/route.ts:6 | the alphabet has 30 symbols in ascending order, so none repeats |
| ShareRoute.AlphabetAvoidsLookalikes | app/api/share/route.ts:6 | the alphabet has no 0, 1, i, l or o |
| ShareRoute.JoinIds | app/api/share/route.ts:13 | `join(',')`, a single id stays as it is; SplitJoin and JoinIsInjective prove it invertible on comma-free, non-empty lists |
| ShareRoute.Split | app/api/share/route.ts:13 | the lookup's `split(',')` (app/api/share/[code]/route.ts, line 24) of the string stored here, with JavaScript's rule that it never yields an empty list; SplitJoin inverts JoinIds with it |
| ShareRoute.Canonical | app/api/share/route.ts:13 | the string stored for an itinerary, a missing id rendered as ""; CanonicalRoundTrip recovers the ids from it |
| ShareRoute.SplitJoin | app/api/share/route.ts:13 | the lookup's `split(',')` (app/api/share/[code]/route.ts, line 24) gives back the ids that `join(',')` stored here, for a non-empty list of comma-free ids |
| ShareRoute.JoinIsInjective | app/api/share/route.ts:13-23 | two such lists have the same string only if they are equal, so reuse matches the same itinerary |
| ShareRoute.CanonicalRoundTrip | app/api/share/route.ts:13 | the string stored here for places with comma-free ids splits back into their ids, in order, under the lookup's `split(',')` (app/api/share/[code]/route.ts, line 24) |
| ShareRoute.EmptyItineraryComesBackAsOneId | app/api/share/route.ts:13 | the empty itinerary is stored as "", and the lookup (app/api/share/[code]/route.ts, line 24) splits it into one empty id |
| ShareRoute.Reusable | app/api/share/route.ts:16-23 | a share with the same id string whose expiry is strictly after now; CreateShare reuses one exactly when one exists |
| ShareRoute.Retry | app/api/share/route.ts:30-49 | the creation loop from attempt i on; RetryStopsAtFirstFreeCode and InsertedCodeIsFresh characterise its outcome, and CreateShare follows it |
| ShareRoute.RetryStopsAtFirstFreeCode | app/api/share/route.ts:30-49 | the loop does not stop while codes are taken; it stops at the first free code and inserts it unless that insert fails |
| ShareRoute.InsertedCodeIsFresh | app/api/share/route.ts:30-42 | an inserted code is well-formed and was not in use |
| ShareRoute.ShareStore.CreateShare | app/api/share/route.ts:8-54 | an unparseable body gives 500; a live identical share is returned with the table unchanged; otherwise exactly one record is added under the returned fresh code, holding the ids and now + 30 days; a failed insert gives 500 with the table unchanged |
| DistanceRoute.Get | app/api/distance/route.ts:4-58 | 400 exactly when a parameter is missing or empty; otherwise always 200 with a non-zero duration; the warning only comes with 900 |
| DistanceRoute.NestedDuration | app/api/distance/route.ts:33 | the optional-chained `rows?.[0]?.elements?.[0]?.duration?.value`; MissingPathHasNoDuration and Get use it |
| DistanceRoute.ValueIsReturned | app/api/distance/route.ts:46-50 | a present, non-zero nested duration is returned unchanged |
| DistanceRoute.InvalidAnswerFallsBack | app/api/distance/route.ts:33-44 | a missing path or a zero duration gives 900 with status 200 and the warning |
| DistanceRoute.UpstreamFailureFallsBack | app/api/distance/route.ts:27-29 | a non-ok status, a thrown error or an undecodable body gives 900 with status 200 |
| DistanceRoute.MissingPathHasNoDuration | app/api/distance/route.ts:33 | no rows, or an empty first row, means no usable duration |
| CoordinatesCache.Resolve | app/utils/coordinatesCache.ts:8-32 | one call: the cache keeps every old entry, gains at most this id, and an entry for it is the value returned |
| CoordinatesCache.ResolveAll | app/utils/coordinatesCache.ts:8-32 | a sequence of calls threading the cache, one value per call; CacheOnlyGrows and CachedValueIsStable hold over it |
| CoordinatesCache.HitReturnsCached | app/utils/coordinatesCache.ts:9-11 | a cached id returns its value without change, whatever a fetch would give |
| CoordinatesCache.SuccessStores | app/utils/coordinatesCache.ts:21-27 | a fetched location is stored under the id and returned |
| CoordinatesCache.FailureIsNotCached | app/utils/coordinatesCache.ts:17-19 | a failed fetch or a missing location returns (40.4406, -79.9959) and adds nothing |
| CoordinatesCache.CacheOnlyGrows | app/utils/coordinatesCache.ts:6-26 | over any sequence of calls no entry is removed or overwritten, and only ids asked for are added |
| CoordinatesCache.CachedValueIsStable | app/utils/coordinatesCache.ts:9-11 | once an id is cached, every later call for it returns that value |
| CoordinatesCache.SecondCallRepeatsFirst | app/utils/coordinatesCache.ts:9-26 | after a call that cached its result, an immediate second call returns the same value |
| CoordinatesCache.CoordinatesMemo.GetCoordinates | app/utils/coordinatesCache.ts:8-32 | the fetch is made exactly on a miss; the cache keeps every old entry and gains at most this id |
| PhotoCache.IsPhotoStale | app/utils/photoCache.ts:3-9 | the staleness test; NullIsStale, StaleIffOlderThanTtl, AgeOfExactlyTtlIsFresh, StaleIsMonotone and FutureTimestampIsFresh characterise it |
| PhotoCache.TtlIsSevenDays | app/utils/photoCache.ts:1 | the TTL is 604,800,000 ms, which is seven days |
| PhotoCache.NullIsStale | app/utils/photoCache.ts:4 | a missing timestamp is stale |
| PhotoCache.StaleIffOlderThanTtl | app/utils/photoCache.ts:6-8 | otherwise stale exactly when the age exceeds the TTL |
| PhotoCache.AgeOfExactlyTtlIsFresh | app/utils/photoCache.ts:8 | an age of exactly the TTL is fresh |
| PhotoCache.StaleIsMonotone | app/utils/photoCache.ts:6-8 | stale at one time means stale at every later time |
| PhotoCache.FutureTimestampIsFresh | app/utils/photoCache.ts:6-8 | a timestamp in the future is fresh |

## Left out

- Rendering, drag visuals and the drag-over/leave handlers (app/components/ItineraryBuilder.tsx:67-87 apart from the state changes) are UI code with no state to model.
- Object identity is modelled as value equality. `draggedItem === targetActivity` becomes equality of records. The time loop writes `time` on objects that the old list shares; that aliasing is not modelled, because stops are values here.
- The `useEffect` scheduling is modelled as the method `UpdateDurations`, run after a change. Asynchronous races between updates are not modelled.
- Itinerary.TravelSeconds treats the travel lookup as a fixed function of the two provider ids. The coordinate lookups it makes on the way are modelled separately in `CoordinatesCache`, and the HTTP round trip is not modelled.
- Itinerary.NextStart works in minutes modulo a day. Date parsing and `toLocaleTimeString` formatting, including a possible "24:00", are not modelled.
- Itinerary.HandleActivityDrop takes a parsed venue as a full stop record. JSON that parses to something other than a stop is not modelled.
- Stop ids are integers. Non-integer JavaScript numbers in keys are not modelled.
- VibeSelector: the places fetch at mount and the drag payload are I/O. `Math.random` is a sequence of draws in [0, 1), and the shuffle takes the partner indices computed from them. Real-number multiplication is exact here.
- PlaceSearch.Search processes the results one after another. The source runs them concurrently with `Promise.all`, so writes made before a failing lookup, and two results with the same id racing to create a record, are not modelled.
- PlaceSearch.Search treats the database query (the Prisma OR filter) as an input, and its database calls as infallible. A missing `results` field in the provider answer is not modelled.
- PlaceSearch.PhotoUrl takes `encodeURIComponent` as a parameter. Lower-casing is ASCII only.
- ShareRoute.ShareStore.CreateShare: the unbounded `while (true)` loop is bounded by the sequence of generator outputs given. When those run out, the model answers `OutOfAttempts`, which the source cannot do. The generator's internal sampling is replaced by draws taken modulo 30. A failing `findFirst` is not modelled.
- ShareRoute.ShareStore.CreateShare: the clock is read once per request, as the `now` parameter. The source reads it for the reuse check (app/api/share/route.ts:20) and again for each insert's expiry (app/api/share/route.ts:38).
- ShareRoute: when several live shares match, which one is returned is left open, as `findFirst` without an order leaves it.
- Share resolution (app/api/share/[code]/route.ts) is not part of this model, apart from its `split(',')`.
- CoordinatesCache: coordinates are opaque reals. The fallback straight-line calculation in app/utils/maps.ts is not modelled.
- PhotoCache: `new Date()` is a parameter `now`, in milliseconds.
