/**
 * The itinerary list engine (app/components/ItineraryBuilder.tsx): an ordered
 * list of stops that can be reordered by dragging, have a stop replaced by a
 * dropped venue, or lose stops; after each change the start times are
 * propagated from 19:00, and a map from adjacent pairs to travel minutes is
 * recomputed. Times are minutes since midnight. The travel time between two
 * stops is an oracle on their provider ids (the distance endpoint behind the
 * coordinate cache), giving whole seconds or a failure.
 */
module Itinerary {
  import opened Common
  import opened Venues

  /** "19:00", the start of the evening. */
  const EVENING_START: int := 19 * 60
  const MINUTES_PER_DAY: int := 24 * 60
  /** The travel time used when the lookup throws, in seconds. */
  const FALLBACK_TRAVEL_SECONDS: int := 900

  /** What `calculateTravelTime`'s request yields: the route's duration in seconds, or a thrown error. */
  datatype TravelOutcome = Travel(seconds: int) | TravelFailed

  /** The travel oracle: origin and destination provider ids to the outcome. */
  type TravelLookup = (string, string) -> TravelOutcome

  /** `calculateTravelTime`: the duration, or 900 seconds when anything fails. */
  function TravelSeconds(outcome: TravelOutcome): (seconds: int)
    ensures outcome.TravelFailed? ==> seconds == FALLBACK_TRAVEL_SECONDS
    ensures outcome.Travel? ==> seconds == outcome.seconds
  {
    match outcome
    case Travel(s) => s
    case TravelFailed => FALLBACK_TRAVEL_SECONDS
  }

  /** `Math.ceil(seconds / 60)`: the least whole number of minutes covering the seconds. */
  function CeilMinutes(seconds: int): (minutes: int)
    ensures 60 * (minutes - 1) < seconds <= 60 * minutes
  {
    (seconds + 59) / 60
  }

  /** The travel time between two stops, in whole minutes. */
  function TravelMinutes(lookup: TravelLookup, from: Restaurant, to: Restaurant): (minutes: int) {
    CeilMinutes(TravelSeconds(lookup(from.placeId, to.placeId)))
  }

  /** A failed lookup is shown and scheduled as exactly 15 minutes. */
  lemma FailedTravelIsFifteenMinutes(lookup: TravelLookup, from: Restaurant, to: Restaurant)
    requires lookup(from.placeId, to.placeId) == TravelFailed
    ensures TravelMinutes(lookup, from, to) == 15
  {
  }

  // ----- Keys of the duration map -----

  function DigitChar(d: int): (c: char)
    requires 0 <= d < 10
    ensures '0' <= c <= '9'
  {
    (('0' as int) + d) as char
  }

  /** The decimal numeral of a natural number, without leading zeros. */
  function Digits(n: nat): (s: string)
    ensures |s| >= 1
    ensures forall k :: 0 <= k < |s| ==> '0' <= s[k] <= '9'
    decreases n
  {
    if n < 10 then [DigitChar(n)] else Digits(n / 10) + [DigitChar(n % 10)]
  }

  /** An integer as a template literal renders it. */
  function ShowInt(n: int): (s: string)
    ensures |s| >= 1
    ensures forall k :: 1 <= k < |s| ==> '0' <= s[k] <= '9'
  {
    if n < 0 then "-" + Digits(-n) else Digits(n)
  }

  /** The key `${a}-${b}` of a pair of stop ids. */
  function PairKey(a: int, b: int): (key: string) {
    ShowInt(a) + "-" + ShowInt(b)
  }

  lemma {:induction false} DigitsInjective(m: nat, n: nat)
    requires Digits(m) == Digits(n)
    ensures m == n
    decreases m
  {
    if m >= 10 && n >= 10 {
      var s := Digits(m);
      assert s == Digits(m / 10) + [DigitChar(m % 10)];
      assert s == Digits(n / 10) + [DigitChar(n % 10)];
      assert s[|s| - 1] == DigitChar(m % 10) == DigitChar(n % 10);
      assert s[..|s| - 1] == Digits(m / 10) == Digits(n / 10);
      DigitsInjective(m / 10, n / 10);
    }
  }

  /** The numeral starts with a minus sign exactly for negative numbers. */
  lemma ShowIntSign(n: int)
    ensures ShowInt(n)[0] == '-' <==> n < 0
  {
    if n >= 0 {
      assert ShowInt(n)[0] == Digits(n)[0];
    }
  }

  lemma ShowIntInjective(a: int, b: int)
    requires ShowInt(a) == ShowInt(b)
    ensures a == b
  {
    ShowIntSign(a);
    ShowIntSign(b);
    if a < 0 && b < 0 {
      assert ShowInt(a)[1..] == Digits(-a);
      assert ShowInt(b)[1..] == Digits(-b);
      DigitsInjective(-a, -b);
    } else if a >= 0 && b >= 0 {
      DigitsInjective(a, b);
    }
  }

  /** In a key, the separating hyphen is the first hyphen after position 0. */
  lemma SeparatorPosition(a: int, b: int)
    ensures var key := PairKey(a, b);
      |ShowInt(a)| < |key| && key[|ShowInt(a)|] == '-' &&
      forall k :: 1 <= k < |ShowInt(a)| ==> key[k] != '-'
  {
    var key := PairKey(a, b);
    forall k | 1 <= k < |ShowInt(a)|
      ensures key[k] != '-'
    {
      assert key[k] == ShowInt(a)[k];
    }
  }

  /** Different pairs of ids never share a key. */
  lemma PairKeyInjective(a: int, b: int, c: int, d: int)
    requires PairKey(a, b) == PairKey(c, d)
    ensures a == c && b == d
  {
    var key := PairKey(a, b);
    var la, lc := |ShowInt(a)|, |ShowInt(c)|;
    SeparatorPosition(a, b);
    SeparatorPosition(c, d);
    if la == lc {
      assert ShowInt(a) == key[..la] == ShowInt(c);
      ShowIntInjective(a, c);
      assert ShowInt(b) == key[la + 1..] == ShowInt(d);
      ShowIntInjective(b, d);
    }
  }

  // ----- The duration map -----

  /** The number of adjacent pairs; the source's `activities.length - 1` loop bound. */
  function PairCount<T>(s: seq<T>): (n: nat)
    ensures n == 0 || n == |s| - 1
  {
    if |s| == 0 then 0 else |s| - 1
  }

  /** The key of the pair at positions i and i+1. */
  function KeyAt(s: seq<Restaurant>, i: nat): (key: string)
    requires i + 1 < |s|
  {
    PairKey(s[i].id, s[i + 1].id)
  }

  /** The keys of the adjacent pairs, in order. */
  function PairKeys(s: seq<Restaurant>): (keys: seq<string>)
    ensures |keys| == PairCount(s)
    ensures forall i :: 0 <= i < |keys| ==> keys[i] == KeyAt(s, i)
  {
    seq(PairCount(s), i requires 0 <= i < PairCount(s) => KeyAt(s, i))
  }

  /** The travel minutes of the adjacent pairs, in order. */
  function PairMinutes(s: seq<Restaurant>, lookup: TravelLookup): (minutes: seq<int>)
    ensures |minutes| == PairCount(s)
    ensures forall i :: 0 <= i < |minutes| ==> minutes[i] == TravelMinutes(lookup, s[i], s[i + 1])
  {
    seq(PairCount(s), i requires 0 <= i < PairCount(s) => TravelMinutes(lookup, s[i], s[i + 1]))
  }

  /** The dictionary after writing the first k entries in turn (a later entry with the same key overwrites). */
  function AssignUpTo<K, V>(keys: seq<K>, values: seq<V>, k: nat): (m: map<K, V>)
    requires k <= |keys| == |values|
    decreases k
  {
    if k == 0 then map[] else AssignUpTo(keys, values, k - 1)[keys[k - 1] := values[k - 1]]
  }

  /** The keys written are exactly the first k keys. */
  lemma {:induction false} AssignKeys<K, V>(keys: seq<K>, values: seq<V>, k: nat)
    requires k <= |keys| == |values|
    ensures forall i :: 0 <= i < k ==> keys[i] in AssignUpTo(keys, values, k)
    ensures forall key :: key in AssignUpTo(keys, values, k) ==> exists i :: 0 <= i < k && keys[i] == key
    decreases k
  {
    if k > 0 {
      AssignKeys(keys, values, k - 1);
    }
  }

  /** A key holds the value of the last entry written under it. */
  lemma {:induction false} AssignLastWriter<K, V>(keys: seq<K>, values: seq<V>, k: nat, i: nat)
    requires i < k <= |keys| == |values|
    requires forall j :: i < j < k ==> keys[j] != keys[i]
    ensures keys[i] in AssignUpTo(keys, values, k)
    ensures AssignUpTo(keys, values, k)[keys[i]] == values[i]
    decreases k
  {
    if i < k - 1 {
      AssignLastWriter(keys, values, k - 1, i);
    }
  }

  /** The map `updateDurations` builds. */
  function Durations(s: seq<Restaurant>, lookup: TravelLookup): (durations: map<string, int>) {
    AssignUpTo(PairKeys(s), PairMinutes(s, lookup), PairCount(s))
  }

  /** The keys are exactly the keys of the adjacent pairs. */
  lemma DurationKeys(s: seq<Restaurant>, lookup: TravelLookup)
    ensures forall i :: 0 <= i < PairCount(s) ==> KeyAt(s, i) in Durations(s, lookup)
    ensures forall key :: key in Durations(s, lookup) ==> exists i :: 0 <= i < PairCount(s) && KeyAt(s, i) == key
  {
    var keys := PairKeys(s);
    AssignKeys(keys, PairMinutes(s, lookup), PairCount(s));
    forall key | key in Durations(s, lookup)
      ensures exists i :: 0 <= i < PairCount(s) && KeyAt(s, i) == key
    {
      var i :| 0 <= i < PairCount(s) && keys[i] == key;
      assert KeyAt(s, i) == key;
    }
  }

  /** A key holds the minutes of the last pair that has it. */
  lemma DurationOfLastPair(s: seq<Restaurant>, lookup: TravelLookup, i: nat)
    requires i < PairCount(s)
    requires forall j :: i < j < PairCount(s) ==> KeyAt(s, j) != KeyAt(s, i)
    ensures KeyAt(s, i) in Durations(s, lookup)
    ensures Durations(s, lookup)[KeyAt(s, i)] == TravelMinutes(lookup, s[i], s[i + 1])
  {
    var keys := PairKeys(s);
    assert forall j :: i < j < PairCount(s) ==> keys[j] != keys[i];
    AssignLastWriter(keys, PairMinutes(s, lookup), PairCount(s), i);
  }

  /** No two stops share an id. */
  predicate DistinctIds(s: seq<Restaurant>) {
    forall i, j :: 0 <= i < j < |s| ==> s[i].id != s[j].id
  }

  /**
   * With distinct ids every adjacent pair has its own key, holding its own
   * travel time rounded up to whole minutes.
   */
  lemma EachPairHasItsMinutes(s: seq<Restaurant>, lookup: TravelLookup)
    requires DistinctIds(s)
    ensures forall key :: key in Durations(s, lookup) ==> exists i :: 0 <= i < PairCount(s) && KeyAt(s, i) == key
    ensures forall i :: 0 <= i < PairCount(s) ==>
      KeyAt(s, i) in Durations(s, lookup) && Durations(s, lookup)[KeyAt(s, i)] == TravelMinutes(lookup, s[i], s[i + 1])
  {
    DurationKeys(s, lookup);
    forall i | 0 <= i < PairCount(s)
      ensures KeyAt(s, i) in Durations(s, lookup) && Durations(s, lookup)[KeyAt(s, i)] == TravelMinutes(lookup, s[i], s[i + 1])
    {
      forall j | i < j < PairCount(s)
        ensures KeyAt(s, j) != KeyAt(s, i)
      {
        if KeyAt(s, j) == KeyAt(s, i) {
          PairKeyInjective(s[j].id, s[j + 1].id, s[i].id, s[i + 1].id);
        }
      }
      DurationOfLastPair(s, lookup, i);
    }
  }

  /** The travel text between two stops: `travelDurations[key] || 0`. */
  function ShownTravel(durations: map<string, int>, from: Restaurant, to: Restaurant): (minutes: int) {
    var key := PairKey(from.id, to.id);
    if key in durations && durations[key] != 0 then durations[key] else 0
  }

  /** After a recomputation with distinct ids, the card between two adjacent stops shows their travel minutes. */
  lemma ShownTravelIsPairMinutes(s: seq<Restaurant>, lookup: TravelLookup, i: nat)
    requires DistinctIds(s) && i + 1 < |s|
    ensures ShownTravel(Durations(s, lookup), s[i], s[i + 1]) == TravelMinutes(lookup, s[i], s[i + 1])
  {
    EachPairHasItsMinutes(s, lookup);
    assert KeyAt(s, i) == PairKey(s[i].id, s[i + 1].id);
  }

  /** The loop of `updateDurations`, filling the map pair by pair. */
  method ComputeDurations(s: seq<Restaurant>, lookup: TravelLookup) returns (durations: map<string, int>)
    ensures durations == Durations(s, lookup)
  {
    durations := map[];
    var i := 0;
    while i < |s| - 1
      invariant 0 <= i <= PairCount(s)
      invariant durations == AssignUpTo(PairKeys(s), PairMinutes(s, lookup), i)
    {
      var key := KeyAt(s, i);
      var seconds := TravelSeconds(lookup(s[i].placeId, s[i + 1].placeId));
      DurationsStep(s, lookup, i);
      durations := durations[key := CeilMinutes(seconds)];
      i := i + 1;
    }
  }

  /** Writing the next pair's minutes under its key extends the map by that pair. */
  lemma DurationsStep(s: seq<Restaurant>, lookup: TravelLookup, i: nat)
    requires i < PairCount(s)
    ensures AssignUpTo(PairKeys(s), PairMinutes(s, lookup), i + 1)
      == AssignUpTo(PairKeys(s), PairMinutes(s, lookup), i)[KeyAt(s, i) := TravelMinutes(lookup, s[i], s[i + 1])]
  {
  }

  // ----- Reordering by drag and drop -----

  /** `findIndex` on the ids: the first position with the id, or -1. */
  function FindIndex(s: seq<Restaurant>, id: int): (r: int)
    ensures -1 <= r < |s|
    ensures r >= 0 ==> s[r].id == id && forall j :: 0 <= j < r ==> s[j].id != id
    ensures r == -1 <==> forall j :: 0 <= j < |s| ==> s[j].id != id
    decreases |s|
  {
    if |s| == 0 then -1
    else if s[0].id == id then 0
    else
      var r := FindIndex(s[1..], id);
      if r == -1 then -1 else r + 1
  }

  /** The position `splice` starts at: a negative start counts from the end, and both ends clamp. */
  function SpliceStart(length: nat, start: int): (k: nat)
    ensures k <= length
    ensures 0 <= start <= length ==> k == start
    ensures start < 0 && 0 <= length + start ==> k == length + start
    ensures start > length ==> k == length
    ensures length + start < 0 ==> k == 0
  {
    if start < 0 then (if length + start < 0 then 0 else length + start)
    else if start > length then length else start
  }

  /** `splice(start, 1)`: removes the element at the start position, if there is one. */
  function SpliceRemove<T>(s: seq<T>, start: int): (r: seq<T>)
    ensures var k := SpliceStart(|s|, start);
      && |r| == (if k < |s| then |s| - 1 else |s|)
      && forall i :: 0 <= i < |r| ==> r[i] == (if i < k then s[i] else s[i + 1])
  {
    var k := SpliceStart(|s|, start);
    if k < |s| then s[..k] + s[k + 1..] else s
  }

  /** `splice(start, 0, x)`: inserts x at the start position. */
  function SpliceInsert<T>(s: seq<T>, start: int, x: T): (r: seq<T>)
    ensures var k := SpliceStart(|s|, start);
      |r| == |s| + 1 && r[k] == x && r[..k] + r[k + 1..] == s
  {
    var k := SpliceStart(|s|, start);
    assert (s[..k] + [x] + s[k..])[..k] == s[..k];
    assert (s[..k] + [x] + s[k..])[k + 1..] == s[k..];
    s[..k] + [x] + s[k..]
  }

  /**
   * The reorder of `handleDrop`: remove the dragged stop at its index, then
   * insert it at the index the target had before the removal.
   */
  function Reorder(s: seq<Restaurant>, dragged: Restaurant, targetId: int): (r: seq<Restaurant>) {
    SpliceInsert(SpliceRemove(s, FindIndex(s, dragged.id)), FindIndex(s, targetId), dragged)
  }

  /**
   * When both the dragged stop and the target are in the list, the result has
   * the same length, the dragged stop sits at the target's original index, and
   * the list without the first stop carrying the dragged id keeps its order.
   * When the dragged stop is itself the first with its id, the result is also
   * a permutation of the list.
   */
  lemma ReorderMovesDragged(s: seq<Restaurant>, dragged: Restaurant, targetId: int)
    requires FindIndex(s, dragged.id) >= 0 && FindIndex(s, targetId) >= 0
    ensures var r := Reorder(s, dragged, targetId);
      var di, ti := FindIndex(s, dragged.id), FindIndex(s, targetId);
      && |r| == |s|
      && r[ti] == dragged
      && r[..ti] + r[ti + 1..] == s[..di] + s[di + 1..]
      && (s[di] == dragged ==> multiset(r) == multiset(s))
  {
    MoveFacts(s, FindIndex(s, dragged.id), FindIndex(s, targetId), dragged);
  }

  /** Removing at di and inserting x at ti, both positions inside the list. */
  lemma MoveFacts<T>(s: seq<T>, di: nat, ti: nat, x: T)
    requires di < |s| && ti < |s|
    ensures var r := SpliceInsert(SpliceRemove(s, di), ti, x);
      && |r| == |s|
      && r[ti] == x
      && r[..ti] + r[ti + 1..] == s[..di] + s[di + 1..]
      && (s[di] == x ==> multiset(r) == multiset(s))
  {
    var u := SpliceRemove(s, di);
    RemoveInRange(s, di);
    var r := SpliceInsert(u, ti, x);
    InsertInRange(u, ti, x);
    if s[di] == x {
      PutBackPermutes(s, di, r, ti);
    }
  }

  /** An in-range removal drops exactly the element at that index. */
  lemma RemoveInRange<T>(s: seq<T>, di: nat)
    requires di < |s|
    ensures SpliceRemove(s, di) == s[..di] + s[di + 1..]
  {
    assert SpliceStart(|s|, di) == di;
  }

  /** An insertion at an index up to the length puts x exactly there. */
  lemma InsertInRange<T>(u: seq<T>, ti: nat, x: T)
    requires ti <= |u|
    ensures var r := SpliceInsert(u, ti, x);
      r[ti] == x && r[..ti] + r[ti + 1..] == u
  {
    assert SpliceStart(|u|, ti) == ti;
  }

  /** Taking an element out at one index and putting it back at another keeps the multiset. */
  lemma PutBackPermutes<T>(s: seq<T>, di: nat, r: seq<T>, ti: nat)
    requires di < |s| && ti < |r|
    requires r[..ti] + r[ti + 1..] == s[..di] + s[di + 1..]
    requires r[ti] == s[di]
    ensures multiset(r) == multiset(s)
  {
    assert r == r[..ti] + [r[ti]] + r[ti + 1..];
    assert s == s[..di] + [s[di]] + s[di + 1..];
    assert multiset(r) == multiset(r[..ti] + r[ti + 1..]) + multiset{r[ti]};
    assert multiset(s) == multiset(s[..di] + s[di + 1..]) + multiset{s[di]};
  }

  /** A dragged stop that is no longer in the list makes the removal take the last stop instead (index -1). */
  lemma MissingIndexRemovesLast<T>(s: seq<T>)
    requires |s| > 0
    ensures SpliceRemove(s, -1) == s[..|s| - 1]
  {
  }

  // ----- Replacing a stop by a dropped venue -----

  /** What `getData("venue")` and `JSON.parse` give: nothing, text that does not parse, or a venue. */
  datatype VenueData = Absent | Malformed | Parsed(venue: Restaurant)

  /** `activities.map(...)`: every stop with the target's id becomes the venue, keeping its id. */
  function ReplaceTarget(s: seq<Restaurant>, targetId: int, venue: Restaurant): (r: seq<Restaurant>)
    ensures |r| == |s|
    ensures forall i :: 0 <= i < |s| ==> r[i].id == s[i].id
    ensures forall i :: 0 <= i < |s| ==> r[i] == if s[i].id == targetId then venue.(id := targetId) else s[i]
  {
    seq(|s|, i requires 0 <= i < |s| => if s[i].id == targetId then venue.(id := s[i].id) else s[i])
  }

  /** Replacing is a no-op when no stop has the target's id, and replacing twice is replacing once. */
  lemma ReplaceTargetFacts(s: seq<Restaurant>, targetId: int, venue: Restaurant)
    ensures (forall i :: 0 <= i < |s| ==> s[i].id != targetId) ==> ReplaceTarget(s, targetId, venue) == s
    ensures ReplaceTarget(ReplaceTarget(s, targetId, venue), targetId, venue) == ReplaceTarget(s, targetId, venue)
    ensures DistinctIds(s) ==> DistinctIds(ReplaceTarget(s, targetId, venue))
  {
  }

  // ----- Removing stops -----

  /** `activities.filter(a => a.id !== id)`. */
  function Without(s: seq<Restaurant>, id: int): (r: seq<Restaurant>)
    ensures |r| <= |s|
    decreases |s|
  {
    if |s| == 0 then []
    else (if s[0].id == id then [] else [s[0]]) + Without(s[1..], id)
  }

  /** Every stop with the id is gone and every other stop stays. */
  lemma {:induction false} WithoutMembers(s: seq<Restaurant>, id: int)
    ensures forall x :: x in Without(s, id) <==> x in s && x.id != id
    decreases |s|
  {
    if |s| > 0 {
      WithoutMembers(s[1..], id);
      assert s == [s[0]] + s[1..];
    }
  }

  /** Removal works piecewise, so the kept stops stay in their original order. */
  lemma {:induction false} WithoutOfConcat(a: seq<Restaurant>, b: seq<Restaurant>, id: int)
    ensures Without(a + b, id) == Without(a, id) + Without(b, id)
    decreases |a|
  {
    if |a| == 0 {
      assert a + b == b;
    } else {
      assert (a + b)[0] == a[0];
      assert (a + b)[1..] == a[1..] + b;
      WithoutOfConcat(a[1..], b, id);
    }
  }

  /** Removing an id that is not there changes nothing; removing twice is removing once. */
  lemma {:induction false} WithoutIsIdempotent(s: seq<Restaurant>, id: int)
    ensures (forall i :: 0 <= i < |s| ==> s[i].id != id) ==> Without(s, id) == s
    ensures Without(Without(s, id), id) == Without(s, id)
    decreases |s|
  {
    if |s| > 0 {
      WithoutIsIdempotent(s[1..], id);
      var head := if s[0].id == id then [] else [s[0]];
      WithoutOfConcat(head, Without(s[1..], id), id);
      assert Without(head, id) == head;
      if forall i :: 0 <= i < |s| ==> s[i].id != id {
        assert forall i :: 0 <= i < |s[1..]| ==> s[1..][i].id != id;
        assert s == [s[0]] + s[1..];
      }
    }
  }

  // ----- Start times -----

  /** The next stop starts when the previous one has ended and the travel is done, on the clock. */
  function NextStart(lookup: TravelLookup, prev: Restaurant, cur: Restaurant): (time: int)
    ensures 0 <= time < MINUTES_PER_DAY
  {
    (prev.time + prev.duration + TravelMinutes(lookup, prev, cur)) % MINUTES_PER_DAY
  }

  /** The list after the time loop: the first stop at 19:00, each later one when the previous one ends plus travel. */
  function Schedule(s: seq<Restaurant>, lookup: TravelLookup): (r: seq<Restaurant>)
    ensures |r| == |s|
    decreases |s|
  {
    if |s| == 0 then []
    else if |s| == 1 then [s[0].(time := EVENING_START)]
    else
      var p := Schedule(s[..|s| - 1], lookup);
      p + [s[|s| - 1].(time := NextStart(lookup, p[|p| - 1], s[|s| - 1]))]
  }

  /** Scheduling the first k+1 stops extends the schedule of the first k by one stop. */
  lemma ScheduleSnoc(s: seq<Restaurant>, lookup: TravelLookup, k: nat)
    requires 0 < k < |s|
    ensures Schedule(s[..k + 1], lookup) ==
      Schedule(s[..k], lookup) + [s[k].(time := NextStart(lookup, Schedule(s[..k], lookup)[k - 1], s[k]))]
  {
    assert s[..k + 1][..k] == s[..k];
  }

  /**
   * The times the loop gives: 19:00 for the first stop, and for each later
   * stop the previous start plus the previous stay plus the travel minutes,
   * modulo a day.
   */
  lemma ScheduleTimes(s: seq<Restaurant>, lookup: TravelLookup)
    ensures var r := Schedule(s, lookup);
      && (|r| > 0 ==> r[0].time == EVENING_START)
      && forall i :: 0 < i < |r| ==>
           r[i].time == (r[i - 1].time + s[i - 1].duration + TravelMinutes(lookup, s[i - 1], s[i])) % MINUTES_PER_DAY
  {
    var r := Schedule(s, lookup);
    ScheduleStarts(s, lookup);
    ScheduleKeepsAllButTimes(s, lookup);
    forall i | 0 < i < |r|
      ensures r[i].time == (r[i - 1].time + s[i - 1].duration + TravelMinutes(lookup, s[i - 1], s[i])) % MINUTES_PER_DAY
    {
      assert r[i - 1] == s[i - 1].(time := r[i - 1].time);
    }
  }

  /** Each start after the first is the one NextStart computes from the scheduled stop before it. */
  lemma {:induction false} ScheduleStarts(s: seq<Restaurant>, lookup: TravelLookup)
    ensures var r := Schedule(s, lookup);
      && (|r| > 0 ==> r[0].time == EVENING_START)
      && forall i :: 0 < i < |r| ==> r[i].time == NextStart(lookup, r[i - 1], s[i])
    decreases |s|
  {
    if |s| > 1 {
      var n := |s|;
      var t := s[..n - 1];
      ScheduleStarts(t, lookup);
      var r := Schedule(s, lookup);
      var p := Schedule(t, lookup);
      assert r == p + [s[n - 1].(time := NextStart(lookup, p[n - 2], s[n - 1]))];
      forall i | 0 < i < |r|
        ensures r[i].time == NextStart(lookup, r[i - 1], s[i])
      {
        if i < n - 1 {
          assert r[i] == p[i] && r[i - 1] == p[i - 1] && t[i] == s[i];
        }
      }
    }
  }

  /** The stops agree in everything but their start times. */
  predicate SameButTimes(s: seq<Restaurant>, t: seq<Restaurant>) {
    |s| == |t| && forall i :: 0 <= i < |s| ==> t[i] == s[i].(time := t[i].time)
  }

  /** Only the start times change. */
  lemma {:induction false} ScheduleKeepsAllButTimes(s: seq<Restaurant>, lookup: TravelLookup)
    ensures SameButTimes(s, Schedule(s, lookup))
    decreases |s|
  {
    var n := |s|;
    if n > 1 {
      var t := s[..n - 1];
      ScheduleKeepsAllButTimes(t, lookup);
      var r := Schedule(s, lookup);
      var p := Schedule(t, lookup);
      forall i | 0 <= i < n
        ensures r[i] == s[i].(time := r[i].time)
      {
        if i < n - 1 {
          assert r[i] == p[i] && t[i] == s[i];
        }
      }
    }
  }

  /** The schedule does not depend on the old times, so scheduling a scheduled list changes nothing. */
  lemma {:induction false} ScheduleIgnoresOldTimes(s: seq<Restaurant>, t: seq<Restaurant>, lookup: TravelLookup)
    requires SameButTimes(s, t)
    ensures Schedule(s, lookup) == Schedule(t, lookup)
    decreases |s|
  {
    var n := |s|;
    if n > 1 {
      var s', t' := s[..n - 1], t[..n - 1];
      SameButTimesPrefix(s, t);
      ScheduleIgnoresOldTimes(s', t', lookup);
      var p := Schedule(s', lookup);
      RetimedLast(s[n - 1], t[n - 1], p[n - 2], lookup);
    }
  }

  /** Dropping the last stop of both lists keeps them alike. */
  lemma SameButTimesPrefix(s: seq<Restaurant>, t: seq<Restaurant>)
    requires SameButTimes(s, t) && |s| > 0
    ensures SameButTimes(s[..|s| - 1], t[..|t| - 1])
  {
    var s', t' := s[..|s| - 1], t[..|t| - 1];
    forall i | 0 <= i < |s'|
      ensures t'[i] == s'[i].(time := t'[i].time)
    {
      assert t'[i] == t[i] && s'[i] == s[i];
    }
  }

  /** Two stops alike but for their times get the same new start, and are then equal. */
  lemma RetimedLast(a: Restaurant, b: Restaurant, prev: Restaurant, lookup: TravelLookup)
    requires b == a.(time := b.time)
    ensures a.(time := NextStart(lookup, prev, a)) == b.(time := NextStart(lookup, prev, b))
  {
    assert a.placeId == b.placeId;
  }

  lemma ScheduleIsIdempotent(s: seq<Restaurant>, lookup: TravelLookup)
    ensures Schedule(Schedule(s, lookup), lookup) == Schedule(s, lookup)
  {
    ScheduleKeepsAllButTimes(s, lookup);
    ScheduleIgnoresOldTimes(s, Schedule(s, lookup), lookup);
  }

  /** The time loop of both drop handlers, writing each stop's time in place. */
  method UpdateTimes(a: array<Restaurant>, lookup: TravelLookup)
    modifies a
    ensures a[..] == Schedule(old(a[..]), lookup)
  {
    ghost var s := a[..];
    var index := 0;
    while index < a.Length
      invariant 0 <= index <= a.Length
      invariant a[..index] == Schedule(s[..index], lookup)
      invariant a[index..] == s[index..]
    {
      assert a[index] == s[index];
      if index == 0 {
        a[index] := a[index].(time := EVENING_START);
        assert a[..1] == Schedule(s[..1], lookup);
      } else {
        ghost var before := a[..index];
        var prev := a[index - 1];
        a[index] := a[index].(time := NextStart(lookup, prev, a[index]));
        ScheduleSnoc(s, lookup, index);
        assert a[..index + 1] == before + [a[index]];
      }
      index := index + 1;
    }
    assert a[..] == a[..a.Length] && s == s[..a.Length];
  }

  /** The loop on a copy of the list. */
  method Rescheduled(s: seq<Restaurant>, lookup: TravelLookup) returns (r: seq<Restaurant>)
    ensures r == Schedule(s, lookup)
  {
    var a := new Restaurant[|s|](i requires 0 <= i < |s| => s[i]);
    assert a[..] == s;
    UpdateTimes(a, lookup);
    r := a[..];
  }

  // ----- The component's state -----

  class ItineraryBuilder {
    var activities: seq<Restaurant>
    var draggedItem: Option<Restaurant>
    var travelDurations: map<string, int>

    constructor(initial: seq<Restaurant>)
      ensures activities == initial && draggedItem == None && travelDurations == map[]
    {
      activities := initial;
      draggedItem := None;
      travelDurations := map[];
    }

    /** The effect run after each change of the list: recompute the map when there are at least two stops. */
    method UpdateDurations(lookup: TravelLookup)
      modifies this
      ensures activities == old(activities) && draggedItem == old(draggedItem)
      ensures |activities| >= 2 ==> travelDurations == Durations(activities, lookup)
      ensures |activities| < 2 ==> travelDurations == old(travelDurations)
    {
      if |activities| >= 2 {
        travelDurations := ComputeDurations(activities, lookup);
      }
    }

    method DragStart(activity: Restaurant)
      modifies this
      ensures draggedItem == Some(activity)
      ensures activities == old(activities) && travelDurations == old(travelDurations)
    {
      draggedItem := Some(activity);
    }

    method DragEnd()
      modifies this
      ensures draggedItem == None
      ensures activities == old(activities) && travelDurations == old(travelDurations)
    {
      draggedItem := None;
    }

    /** A venue dropped on a stop replaces it (keeping its id) and the times are recomputed; bad data changes nothing. */
    method HandleActivityDrop(venueData: VenueData, target: Restaurant, lookup: TravelLookup)
      modifies this
      ensures venueData.Parsed? ==> activities == Schedule(ReplaceTarget(old(activities), target.id, venueData.venue), lookup)
      ensures !venueData.Parsed? ==> activities == old(activities)
      ensures draggedItem == old(draggedItem) && travelDurations == old(travelDurations)
    {
      if venueData.Parsed? {
        var replaced := ReplaceTarget(activities, target.id, venueData.venue);
        activities := Rescheduled(replaced, lookup);
      }
    }

    /**
     * A drop on a stop: venue data takes precedence; otherwise the dragged
     * stop is moved unless nothing is dragged or it is the target itself.
     */
    method HandleDrop(venueData: VenueData, target: Restaurant, lookup: TravelLookup)
      modifies this
      ensures venueData.Parsed? ==> activities == Schedule(ReplaceTarget(old(activities), target.id, venueData.venue), lookup)
      ensures venueData.Malformed? ==> activities == old(activities)
      ensures venueData.Absent? && (old(draggedItem).None? || old(draggedItem) == Some(target)) ==> activities == old(activities)
      ensures venueData.Absent? && old(draggedItem).Some? && old(draggedItem) != Some(target) ==>
        activities == Schedule(Reorder(old(activities), old(draggedItem).value, target.id), lookup)
      ensures draggedItem == old(draggedItem) && travelDurations == old(travelDurations)
    {
      if !venueData.Absent? {
        HandleActivityDrop(venueData, target, lookup);
        return;
      }
      if draggedItem.None? || draggedItem == Some(target) {
        return;
      }
      var moved := Reorder(activities, draggedItem.value, target.id);
      activities := Rescheduled(moved, lookup);
    }

    method RemoveActivity(id: int)
      modifies this
      ensures activities == Without(old(activities), id)
      ensures draggedItem == old(draggedItem) && travelDurations == old(travelDurations)
    {
      activities := Without(activities, id);
    }
  }
}
