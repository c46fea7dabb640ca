/**
 * The place search endpoint (app/api/places/search/route.ts). The database is
 * a map from `placeId` to the stored record; the query over it, the provider's
 * text search and its details lookups are oracles. The per-result processing,
 * concurrent in the source, is done one result after another.
 */
module PlaceSearch {
  import opened Common
  import opened CoordinatesCache
  import opened PlaceData
  import opened PhotoCache

  /** Provider results processed per request. */
  const MAX_RESULTS: nat := 5

  /** Provider tags that say nothing about the cuisine. */
  const GENERIC_TYPES: seq<string> := ["restaurant", "bar", "food", "point_of_interest", "establishment"]

  /** One text-search result of the provider. */
  datatype ProviderResult = ProviderResult(
    placeId: string,
    name: string,
    formattedAddress: string,
    types: seq<string>,
    priceLevel: Option<int>,
    location: Coordinates)

  /** What the text search yields: a failure (non-ok status or thrown error) or the results in relevance order. */
  datatype TextSearch = TextSearchFailed | TextSearchOk(results: seq<ProviderResult>)

  /** What `fetchPlaceDetails` yields: it throws, or gives `result.photos[0].photo_reference` if any. */
  datatype Details = DetailsFailed | DetailsOk(photoRef: Option<string>)

  /** The route's answer: 400 for a missing query, 500 on any failure, else the places as JSON. */
  datatype Response = BadRequest | ServerError | Found(places: seq<Place>)

  /** Every record is stored under its own provider id. */
  predicate StoreValid(db: map<string, Place>) {
    forall id :: id in db ==> db[id].placeId == id
  }

  /** The check that the database hits are relevant enough to return as they are. */
  predicate IsRelevant(dbResults: seq<Place>, query: string) {
    |dbResults| > 0 &&
    exists p :: p in dbResults && (Includes(Lower(p.name), Lower(query)) || Lower(query) in p.cuisine)
  }

  /** A new place is a bar exactly when the provider tags it "bar". */
  function KindOf(types: seq<string>): (kind: PlaceType)
    ensures kind == Bar <==> "bar" in types
  {
    if "bar" in types then Bar else Restaurant
  }

  /** The cuisine tags: the provider's types without the generic ones, in their original order. */
  function Cuisine(types: seq<string>): (r: seq<string>)
    ensures |r| <= |types|
  {
    if types == [] then []
    else (if types[0] in GENERIC_TYPES then [] else [types[0]]) + Cuisine(types[1..])
  }

  /** A tag is kept exactly when it is one of the provider's types and not a generic one. */
  lemma {:induction false} CuisineMembers(types: seq<string>)
    ensures forall t :: t in Cuisine(types) <==> t in types && t !in GENERIC_TYPES
    decreases |types|
  {
    if types != [] {
      CuisineMembers(types[1..]);
      assert types == [types[0]] + types[1..];
    }
  }

  /** Stripping generic tags commutes with concatenation, so the relative order of kept tags is unchanged. */
  lemma {:induction false} CuisineOfConcat(a: seq<string>, b: seq<string>)
    ensures Cuisine(a + b) == Cuisine(a) + Cuisine(b)
    decreases |a|
  {
    if a != [] {
      var head := if a[0] in GENERIC_TYPES then [] else [a[0]];
      assert (a + b)[0] == a[0];
      assert (a + b)[1..] == a[1..] + b;
      assert Cuisine(a + b) == head + Cuisine(a[1..] + b);
      CuisineOfConcat(a[1..], b);
      assert Cuisine(a) == head + Cuisine(a[1..]);
    } else {
      assert a + b == b;
    }
  }

  /** Stripping twice is stripping once, and a list without generic tags is kept as it is. */
  lemma {:induction false} CuisineIsIdempotent(types: seq<string>)
    ensures (forall t :: t in types ==> t !in GENERIC_TYPES) ==> Cuisine(types) == types
    ensures Cuisine(Cuisine(types)) == Cuisine(types)
    decreases |types|
  {
    if types != [] {
      CuisineIsIdempotent(types[1..]);
      var head := if types[0] in GENERIC_TYPES then [] else [types[0]];
      CuisineOfConcat(head, Cuisine(types[1..]));
      assert Cuisine(head) == head;
    }
  }

  /** `price_level || null`: a missing level and 0 are both stored as null. */
  function PriceOrNull(level: Option<int>): (r: Option<int>)
    ensures r == None <==> (level == None || level == Some(0))
    ensures r != None ==> r == level
  {
    if level == None || level.value == 0 then None else level
  }

  const PHOTO_PREFIX: string := "/api/places/"
  const AVATAR_PREFIX: string := "https://ui-avatars.com/api/?name="

  /**
   * The photo URL: the internal photo route when a photo reference exists,
   * otherwise a generated avatar. `encode` stands for `encodeURIComponent`.
   */
  function PhotoUrl(placeId: string, name: string, photoRef: Option<string>, encode: string -> string): (url: string)
  {
    if Truthy(photoRef) then PHOTO_PREFIX + placeId + "/photo?maxwidth=400"
    else AVATAR_PREFIX + encode(name) + "&background=random&size=400&bold=true&length=2"
  }

  /** The URL points at the internal photo route exactly when there is a photo reference. */
  lemma PhotoUrlIsInternalIffRef(placeId: string, name: string, photoRef: Option<string>, encode: string -> string)
    ensures var url := PhotoUrl(placeId, name, photoRef, encode);
      (|url| > 0 && url[0] == '/') <==> Truthy(photoRef)
    ensures Truthy(photoRef) ==> PhotoUrl(placeId, name, photoRef, encode)[..|PHOTO_PREFIX| + |placeId|] == PHOTO_PREFIX + placeId
  {
    var url := PhotoUrl(placeId, name, photoRef, encode);
    if Truthy(photoRef) {
      assert url[0] == PHOTO_PREFIX[0];
      assert url[..|PHOTO_PREFIX| + |placeId|] == PHOTO_PREFIX + placeId;
    } else {
      assert url[0] == AVATAR_PREFIX[0];
    }
  }

  /** An existing record gets new photo fields when its reference or URL is missing or its photo is stale. */
  predicate NeedsPhotoRefresh(p: Place, now: int) {
    !Truthy(p.photoRef) || !Truthy(p.photoUrl) || IsPhotoStale(p.photoUpdated, now)
  }

  /**
   * The update of an existing record's photo fields. A missing reference is
   * passed to the store as `undefined`, which leaves the stored reference as it was.
   */
  function RefreshPhoto(p: Place, result: ProviderResult, photoRef: Option<string>, now: int, encode: string -> string): (q: Place)
    ensures SameExceptPhoto(p, q)
    ensures q.photoRef == (if photoRef.Some? then photoRef else p.photoRef)
    ensures q.photoUrl == Some(PhotoUrl(result.placeId, result.name, photoRef, encode))
    ensures q.photoUpdated == Some(now)
  {
    p.(photoRef := if photoRef.Some? then photoRef else p.photoRef,
       photoUrl := Some(PhotoUrl(result.placeId, result.name, photoRef, encode)),
       photoUpdated := Some(now))
  }

  /** `q` differs from `p` at most in the three photo fields. */
  predicate SameExceptPhoto(p: Place, q: Place) {
    q == p.(photoRef := q.photoRef, photoUrl := q.photoUrl, photoUpdated := q.photoUpdated)
  }

  /** The record created for a result not yet in the store. */
  function NewPlace(result: ProviderResult, photoRef: Option<string>, now: int, encode: string -> string): (p: Place)
    ensures p.placeId == result.placeId && p.name == result.name
    ensures p.kind == Bar <==> "bar" in result.types
    ensures p.vibes == []
    ensures p.priceLevel == None <==> (result.priceLevel == None || result.priceLevel == Some(0))
    ensures p.priceLevel == PriceOrNull(result.priceLevel)
    ensures p.address == Address(result.formattedAddress, result.location)
    ensures p.cuisine == Cuisine(result.types)
    ensures forall t :: t in p.cuisine <==> t in result.types && t !in GENERIC_TYPES
    ensures p.photoUrl == Some(PhotoUrl(result.placeId, result.name, photoRef, encode))
    ensures p.photoRef == (if Truthy(photoRef) then photoRef else None)
    ensures p.photoUpdated == Some(now)
  {
    CuisineMembers(result.types);
    Place(result.placeId, result.name, KindOf(result.types), [], PriceOrNull(result.priceLevel),
          Address(result.formattedAddress, result.location), Cuisine(result.types),
          Some(PhotoUrl(result.placeId, result.name, photoRef, encode)),
          if Truthy(photoRef) then photoRef else None,
          Some(now))
  }

  /**
   * A record just created or refreshed with a photo reference needs no
   * refresh at that moment; one written without a reference is refreshed
   * again on every later search.
   */
  lemma WrittenRecordFreshness(p: Place, result: ProviderResult, photoRef: Option<string>, now: int, encode: string -> string)
    ensures Truthy(photoRef) ==> !NeedsPhotoRefresh(NewPlace(result, photoRef, now, encode), now)
    ensures Truthy(photoRef) ==> !NeedsPhotoRefresh(RefreshPhoto(p, result, photoRef, now, encode), now)
    ensures !Truthy(photoRef) ==> forall later :: NeedsPhotoRefresh(NewPlace(result, photoRef, now, encode), later)
  {
  }

  /**
   * One provider result: return the stored record (refreshing its photo if
   * needed) or create it. `None` when the details lookup throws.
   */
  function ProcessResult(db: map<string, Place>, result: ProviderResult, details: string -> Details,
                         now: int, encode: string -> string): (out: Option<(Place, map<string, Place>)>)
  {
    if result.placeId in db then
      var existing := db[result.placeId];
      if !NeedsPhotoRefresh(existing, now) then Some((existing, db))
      else match details(result.placeId)
        case DetailsFailed => None
        case DetailsOk(photoRef) =>
          var updated := RefreshPhoto(existing, result, photoRef, now, encode);
          Some((updated, db[result.placeId := updated]))
    else match details(result.placeId)
      case DetailsFailed => None
      case DetailsOk(photoRef) =>
        var created := NewPlace(result, photoRef, now, encode);
        Some((created, db[result.placeId := created]))
  }

  /** The ids of the first k results. */
  function IdsOf(results: seq<ProviderResult>, k: nat): (ids: set<string>)
    requires k <= |results|
  {
    set j | 0 <= j < k :: results[j].placeId
  }

  /** Result k is the first result with its id. */
  predicate FirstWithId(results: seq<ProviderResult>, k: nat)
    requires k < |results|
  {
    forall j :: 0 <= j < k ==> results[j].placeId != results[k].placeId
  }

  /** What processing may do to a record that was stored before the request: at most refresh its photo. */
  predicate KeptOrRefreshed(db0: map<string, Place>, db: map<string, Place>, now: int) {
    forall id :: id in db0 ==>
      id in db && (db[id] == db0[id] || (NeedsPhotoRefresh(db0[id], now) && SameExceptPhoto(db0[id], db[id])))
  }

  /**
   * `place` is what is returned for `result`: a record with the result's id;
   * the stored record itself if that needed no refresh; and, when this is the
   * first result with the id, the refreshed stored record or the new record.
   */
  predicate ReturnedAs(db0: map<string, Place>, result: ProviderResult, first: bool, place: Place,
                       details: string -> Details, now: int, encode: string -> string)
  {
    var id := result.placeId;
    && place.placeId == id
    && (id in db0 && !NeedsPhotoRefresh(db0[id], now) ==> place == db0[id])
    && (id in db0 && first && NeedsPhotoRefresh(db0[id], now) ==>
          details(id).DetailsOk? && place == RefreshPhoto(db0[id], result, details(id).photoRef, now, encode))
    && (id !in db0 && first ==>
          details(id).DetailsOk? && place == NewPlace(result, details(id).photoRef, now, encode))
  }

  /**
   * The first |places| results have been processed from store db0 into store
   * db: every record stored before is at most photo-refreshed, and untouched
   * unless one of those results named it; exactly their ids were added; each
   * returned place corresponds to its result.
   */
  predicate Processed(db0: map<string, Place>, db: map<string, Place>, results: seq<ProviderResult>, places: seq<Place>,
                      details: string -> Details, now: int, encode: string -> string)
  {
    && |places| <= |results|
    && StoreAfter(db0, db, results, |places|, now)
    && forall k :: 0 <= k < |places| ==>
         ReturnedAs(db0, results[k], FirstWithId(results, k), places[k], details, now, encode)
  }

  /** No place returned after the k-th has the same id as result k. */
  predicate LastReturned(results: seq<ProviderResult>, places: seq<Place>, k: nat)
    requires k < |places| <= |results|
  {
    forall j :: k < j < |places| ==> results[j].placeId != results[k].placeId
  }

  /**
   * The store holds what was returned: for each processed id, the record
   * returned for the last result with that id.
   */
  predicate StoredAsReturned(db: map<string, Place>, results: seq<ProviderResult>, places: seq<Place>)
    requires |places| <= |results|
  {
    forall k :: 0 <= k < |places| && LastReturned(results, places, k) ==>
      results[k].placeId in db && db[results[k].placeId] == places[k]
  }

  /**
   * The `GET` handler. `query` is the query parameter, `dbResults` what the
   * database query returned for it, `search` the provider's text search,
   * `details` the details lookups and `now` the request time. Returns the
   * response and the store afterwards.
   */
  method Search(query: Option<string>, db0: map<string, Place>, dbResults: seq<Place>, search: TextSearch,
                details: string -> Details, now: int, encode: string -> string)
    returns (response: Response, db: map<string, Place>)
    requires StoreValid(db0)
    ensures StoreValid(db)
    ensures KeptOrRefreshed(db0, db, now)
    ensures !Truthy(query) ==> response == BadRequest && db == db0
    ensures Truthy(query) && IsRelevant(dbResults, query.value) ==> response == Found(dbResults) && db == db0
    ensures search.TextSearchFailed? ==> db == db0
    ensures search.TextSearchOk? ==> db.Keys <= db0.Keys + IdsOf(search.results, Min(MAX_RESULTS, |search.results|))
    ensures Truthy(query) && !IsRelevant(dbResults, query.value) && search.TextSearchFailed? ==> response == ServerError
    ensures response == ServerError && search.TextSearchOk? ==>
      exists k :: 0 <= k < Min(MAX_RESULTS, |search.results|) && details(search.results[k].placeId) == DetailsFailed
    ensures Truthy(query) && !IsRelevant(dbResults, query.value) && response != ServerError ==>
      && search.TextSearchOk?
      && response.Found?
      && |response.places| == Min(MAX_RESULTS, |search.results|)
      && Processed(db0, db, search.results, response.places, details, now, encode)
    ensures Truthy(query) && !IsRelevant(dbResults, query.value) && response.Found? ==>
      |response.places| <= |search.results| && StoredAsReturned(db, search.results, response.places)
  {
    db := db0;
    if !Truthy(query) {
      return BadRequest, db;
    }
    if IsRelevant(dbResults, query.value) {
      return Found(dbResults), db;
    }
    if search.TextSearchFailed? {
      return ServerError, db;
    }
    var results := search.results;
    var n := Min(MAX_RESULTS, |results|);
    var places: seq<Place> := [];
    while |places| < n
      invariant |places| <= n
      invariant Processed(db0, db, results, places, details, now, encode)
      invariant StoredAsReturned(db, results, places)
    {
      var out := ProcessResult(db, results[|places|], details, now, encode);
      if out.None? {
        IdsGrow(results, |places|, n);
        assert details(results[|places|].placeId) == DetailsFailed;
        return ServerError, db;
      }
      StepFacts(db0, db, results, places, details, now, encode);
      StepStored(db, results, places, details, now, encode);
      places := places + [out.value.0];
      db := out.value.1;
    }
    response := Found(places);
  }

  /**
   * Processing a result writes the place it returns under the result's id
   * (a fresh stored record is rewritten with itself) and changes nothing else.
   */
  lemma ProcessResultStoresReturned(db: map<string, Place>, result: ProviderResult, details: string -> Details,
                                    now: int, encode: string -> string)
    requires ProcessResult(db, result, details, now, encode).Some?
    ensures var out := ProcessResult(db, result, details, now, encode).value;
      out.1 == db[result.placeId := out.0]
  {
    var out := ProcessResult(db, result, details, now, encode).value;
    if result.placeId in db && !NeedsPhotoRefresh(db[result.placeId], now) {
      assert db[result.placeId := db[result.placeId]] == db;
    }
  }

  /** One step of the loop in `Search` keeps `StoredAsReturned`. */
  lemma StepStored(db: map<string, Place>, results: seq<ProviderResult>, places: seq<Place>,
                   details: string -> Details, now: int, encode: string -> string)
    requires |places| < |results|
    requires StoredAsReturned(db, results, places)
    requires ProcessResult(db, results[|places|], details, now, encode).Some?
    ensures var out := ProcessResult(db, results[|places|], details, now, encode).value;
      StoredAsReturned(out.1, results, places + [out.0])
  {
    var k := |places|;
    var id := results[k].placeId;
    var out := ProcessResult(db, results[k], details, now, encode).value;
    ProcessResultStoresReturned(db, results[k], details, now, encode);
    var places' := places + [out.0];
    forall j | 0 <= j < |places'| && LastReturned(results, places', j)
      ensures results[j].placeId in out.1 && out.1[results[j].placeId] == places'[j]
    {
      if j < k {
        assert results[j].placeId != id;
        assert LastReturned(results, places, j);
        assert places'[j] == places[j];
      }
    }
  }

  lemma IdsGrow(results: seq<ProviderResult>, k: nat, n: nat)
    requires k <= n <= |results|
    ensures IdsOf(results, k) <= IdsOf(results, n)
  {
  }

  /** One step of the loop in `Search` keeps `Processed`. */
  lemma StepFacts(db0: map<string, Place>, db: map<string, Place>, results: seq<ProviderResult>, places: seq<Place>,
                  details: string -> Details, now: int, encode: string -> string)
    requires |places| < |results|
    requires Processed(db0, db, results, places, details, now, encode)
    requires ProcessResult(db, results[|places|], details, now, encode).Some?
    ensures var out := ProcessResult(db, results[|places|], details, now, encode).value;
      Processed(db0, out.1, results, places + [out.0], details, now, encode)
  {
    var k := |places|;
    var out := ProcessResult(db, results[k], details, now, encode).value;
    StepStore(db0, db, results, k, details, now, encode);
    StepReturns(db0, db, results, k, details, now, encode);
    var places' := places + [out.0];
    forall j | 0 <= j < |places'|
      ensures ReturnedAs(db0, results[j], FirstWithId(results, j), places'[j], details, now, encode)
    {
      if j < k {
        assert places'[j] == places[j];
      }
    }
  }

  /** The first k results have already been processed into db. */
  predicate StoreAfter(db0: map<string, Place>, db: map<string, Place>, results: seq<ProviderResult>, k: nat, now: int)
    requires k <= |results|
  {
    && StoreValid(db)
    && KeptOrRefreshed(db0, db, now)
    && (forall id :: id in db0 && id !in IdsOf(results, k) ==> db[id] == db0[id])
    && db.Keys == db0.Keys + IdsOf(results, k)
  }

  /** Processing result k keeps the store facts. */
  lemma StepStore(db0: map<string, Place>, db: map<string, Place>, results: seq<ProviderResult>, k: nat,
                  details: string -> Details, now: int, encode: string -> string)
    requires k < |results|
    requires StoreAfter(db0, db, results, k, now)
    requires ProcessResult(db, results[k], details, now, encode).Some?
    ensures StoreAfter(db0, ProcessResult(db, results[k], details, now, encode).value.1, results, k + 1, now)
  {
    var id := results[k].placeId;
    var db' := ProcessResult(db, results[k], details, now, encode).value.1;
    IdsStep(results, k);
    if id in db && NeedsPhotoRefresh(db[id], now) {
      var place := db'[id];
      assert db' == db[id := place];
      RefreshKeeps(db0, db, id, place, now);
      StoreAfterUpdate(db0, db, results, k, place, now);
    } else if id !in db {
      var place := db'[id];
      assert db' == db[id := place];
      StoreAfterUpdate(db0, db, results, k, place, now);
    }
  }

  lemma IdsStep(results: seq<ProviderResult>, k: nat)
    requires k < |results|
    ensures IdsOf(results, k + 1) == IdsOf(results, k) + {results[k].placeId}
  {
    assert IdsOf(results, k + 1) == IdsOf(results, k) + {results[k].placeId};
  }

  /** Storing a record under the id of result k, when that is new or a refresh, keeps the store facts. */
  lemma StoreAfterUpdate(db0: map<string, Place>, db: map<string, Place>, results: seq<ProviderResult>, k: nat,
                         place: Place, now: int)
    requires k < |results|
    requires StoreAfter(db0, db, results, k, now)
    requires IdsOf(results, k + 1) == IdsOf(results, k) + {results[k].placeId}
    requires place.placeId == results[k].placeId
    requires results[k].placeId !in db0 || KeptOrRefreshed(db0, db[results[k].placeId := place], now)
    ensures StoreAfter(db0, db[results[k].placeId := place], results, k + 1, now)
  {
  }

  /** Replacing a record that needs a refresh by one differing only in its photo fields keeps `KeptOrRefreshed`. */
  lemma RefreshKeeps(db0: map<string, Place>, db: map<string, Place>, id: string, place: Place, now: int)
    requires KeptOrRefreshed(db0, db, now)
    requires id in db && NeedsPhotoRefresh(db[id], now) && SameExceptPhoto(db[id], place)
    ensures KeptOrRefreshed(db0, db[id := place], now)
  {
    if id in db0 {
      assert NeedsPhotoRefresh(db0[id], now) && SameExceptPhoto(db0[id], place);
    }
  }

  /** The place returned for result k corresponds to it. */
  lemma StepReturns(db0: map<string, Place>, db: map<string, Place>, results: seq<ProviderResult>, k: nat,
                    details: string -> Details, now: int, encode: string -> string)
    requires k < |results|
    requires StoreAfter(db0, db, results, k, now)
    requires ProcessResult(db, results[k], details, now, encode).Some?
    ensures ReturnedAs(db0, results[k], FirstWithId(results, k),
                       ProcessResult(db, results[k], details, now, encode).value.0, details, now, encode)
  {
    var id := results[k].placeId;
    if FirstWithId(results, k) {
      assert id !in IdsOf(results, k);
    }
  }
}
