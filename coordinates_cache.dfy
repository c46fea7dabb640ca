/**
 * Memoised place-id to coordinates resolution (app/utils/coordinatesCache.ts).
 * The module-level `Map` becomes the `cache` field of `CoordinatesMemo`; the
 * fetch of `/api/places/{id}` and its JSON decoding become an oracle.
 */
module CoordinatesCache {
  import opened Common

  /** A latitude/longitude pair; the values are opaque to this model. */
  datatype Coordinates = Coordinates(lat: real, lng: real)

  /** Downtown Pittsburgh: what a failed resolution returns. It is never cached. */
  const FALLBACK: Coordinates := Coordinates(40.4406, -79.9959)

  /**
   * What fetching the place details and decoding them as JSON yields: either
   * something threw, or a body whose `geometry.location` may be absent.
   */
  datatype DetailsFetch = FetchThrew | Body(location: Option<Coordinates>)

  /**
   * One call of `getCoordinates` as a value: the coordinates returned and the
   * cache afterwards, given the cache before and what the fetch yields (the
   * fetch is only made on a miss).
   */
  function Resolve(cache: map<string, Coordinates>, placeId: string, fetched: DetailsFetch)
    : (out: (Coordinates, map<string, Coordinates>))
    ensures Extends(cache, out.1)
    ensures out.1.Keys <= cache.Keys + {placeId}
    ensures placeId in out.1 ==> out.1[placeId] == out.0
  {
    if placeId in cache then (cache[placeId], cache)
    else match fetched
      case Body(Some(location)) => (location, cache[placeId := location])
      case _ => (FALLBACK, cache)
  }

  /** `cache'` keeps every entry of `cache` with its value. */
  predicate Extends(cache: map<string, Coordinates>, cache': map<string, Coordinates>) {
    forall id :: id in cache ==> id in cache' && cache'[id] == cache[id]
  }

  /** A hit returns the cached value and changes nothing, whatever a fetch would have said. */
  lemma HitReturnsCached(cache: map<string, Coordinates>, placeId: string, fetched: DetailsFetch)
    requires placeId in cache
    ensures Resolve(cache, placeId, fetched) == (cache[placeId], cache)
  {
  }

  /** A miss whose fetch gives a location stores and returns that location. */
  lemma SuccessStores(cache: map<string, Coordinates>, placeId: string, location: Coordinates)
    requires placeId !in cache
    ensures Resolve(cache, placeId, Body(Some(location))) == (location, cache[placeId := location])
  {
  }

  /** A miss whose fetch throws or has no location returns the fallback and adds nothing. */
  lemma FailureIsNotCached(cache: map<string, Coordinates>, placeId: string, fetched: DetailsFetch)
    requires placeId !in cache
    requires !(fetched.Body? && fetched.location.Some?)
    ensures Resolve(cache, placeId, fetched) == (FALLBACK, cache)
  {
  }

  /** The values returned by a sequence of calls, threading the cache through them. */
  function ResolveAll(cache: map<string, Coordinates>, calls: seq<(string, DetailsFetch)>)
    : (out: (seq<Coordinates>, map<string, Coordinates>))
    ensures |out.0| == |calls|
    decreases |calls|
  {
    if calls == [] then ([], cache)
    else
      var (c, cache1) := Resolve(cache, calls[0].0, calls[0].1);
      var (rest, cache2) := ResolveAll(cache1, calls[1..]);
      ([c] + rest, cache2)
  }

  /**
   * Over any sequence of calls the cache only grows: no entry is ever removed
   * or overwritten, and only ids that were asked for are added.
   */
  lemma {:induction false} CacheOnlyGrows(cache: map<string, Coordinates>, calls: seq<(string, DetailsFetch)>)
    ensures Extends(cache, ResolveAll(cache, calls).1)
    ensures forall id :: id in ResolveAll(cache, calls).1 ==>
      id in cache || exists k :: 0 <= k < |calls| && calls[k].0 == id
    decreases |calls|
  {
    if calls != [] {
      var cache1 := Resolve(cache, calls[0].0, calls[0].1).1;
      CacheOnlyGrows(cache1, calls[1..]);
      var final := ResolveAll(cache, calls).1;
      forall id | id in final
        ensures id in cache || exists k :: 0 <= k < |calls| && calls[k].0 == id
      {
        if id !in cache1 {
          var k :| 0 <= k < |calls[1..]| && calls[1..][k].0 == id;
          assert calls[k + 1].0 == id;
        } else if id !in cache {
          assert calls[0].0 == id;
        }
      }
    }
  }

  /**
   * Once a call has cached a value for an id, every later call for that id,
   * however many other calls come between, returns that same value.
   */
  lemma {:induction false} CachedValueIsStable(cache: map<string, Coordinates>, calls: seq<(string, DetailsFetch)>, k: nat)
    requires k < |calls|
    requires calls[k].0 in cache
    ensures calls[k].0 in ResolveAll(cache, calls).1
    ensures ResolveAll(cache, calls).0[k] == cache[calls[k].0]
    decreases |calls|
  {
    CacheOnlyGrows(cache, calls);
    var cache1 := Resolve(cache, calls[0].0, calls[0].1).1;
    CacheOnlyGrows(cache1, calls[1..]);
    if k > 0 {
      CachedValueIsStable(cache1, calls[1..], k - 1);
    }
  }

  /** Two calls in a row for the same id: if the first cached its result, the second repeats it. */
  lemma SecondCallRepeatsFirst(cache: map<string, Coordinates>, placeId: string, first: DetailsFetch, second: DetailsFetch)
    requires placeId in Resolve(cache, placeId, first).1
    ensures Resolve(Resolve(cache, placeId, first).1, placeId, second).0 == Resolve(cache, placeId, first).0
  {
  }

  /** The memo cache. `cache` is the module-level map of the source. */
  class CoordinatesMemo {
    var cache: map<string, Coordinates>

    constructor ()
      ensures cache == map[]
    {
      cache := map[];
    }

    /**
     * `getCoordinates(placeId)`. `fetchDetails` is what fetching and decoding
     * the place details would yield; `fetched` reports whether it was consulted.
     */
    method GetCoordinates(placeId: string, fetchDetails: string -> DetailsFetch)
      returns (c: Coordinates, fetched: bool)
      modifies this
      ensures (c, cache) == Resolve(old(cache), placeId, fetchDetails(placeId))
      ensures fetched <==> placeId !in old(cache)
      ensures Extends(old(cache), cache)
      ensures cache.Keys <= old(cache).Keys + {placeId}
    {
      if placeId in cache {
        return cache[placeId], false;
      }
      fetched := true;
      var data := fetchDetails(placeId);
      match data {
        case Body(Some(location)) =>
          cache := cache[placeId := location];
          c := location;
        case _ =>
          c := FALLBACK;
      }
    }
  }
}
