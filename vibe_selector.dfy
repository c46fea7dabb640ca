/**
 * Recommendation filtering (app/components/itinerary/VibeSelector.tsx): keep
 * the places matching the selected vibe, shuffle them with Fisher-Yates and
 * show at most five.
 */
module VibeSelector {
  import opened Common
  import opened PlaceData

  /** The vibe value that selects places without any vibe tag. */
  const UNCATEGORIZED: string := "uncategorized"

  /** Most recommendations shown per list. */
  const MAX_SHOWN: nat := 5

  /** Names on the vibe buttons, in display order. */
  const VIBE_NAMES: seq<string> := ["Lively", "Chill", "Intimate", "Elegant", "Trendy", "Uncategorized"]

  /** A button click stores the button's name lower-cased. */
  function SelectVibe(name: string): (vibe: string) {
    Lower(name)
  }

  /** The "Uncategorized" button selects exactly the value that the empty-vibes branch tests for. */
  lemma UncategorizedButtonSelectsEmptyVibes()
    ensures SelectVibe(VIBE_NAMES[5]) == UNCATEGORIZED
  {
    assert SelectVibe(VIBE_NAMES[5])[0] == 'u';
  }

  /** A stored selection is already lower-case, so lower-casing it again in the filter changes nothing. */
  lemma SelectionIsLowerCase(name: string)
    ensures Lower(SelectVibe(name)) == SelectVibe(name)
  {
  }

  /** The filter condition: no vibes for "uncategorized", else the lower-cased vibe is among the place's vibes. */
  predicate Matches(p: Place, vibe: string) {
    if vibe == UNCATEGORIZED then |p.vibes| == 0 else Lower(vibe) in p.vibes
  }

  /** `places.filter(...)` with the vibe condition, keeping the original order. */
  function FilterByVibe(places: seq<Place>, vibe: string): (r: seq<Place>)
    ensures |r| <= |places|
    ensures forall p :: p in r <==> p in places && Matches(p, vibe)
    ensures multiset(r) <= multiset(places)
  {
    if places == [] then []
    else
      assert places == [places[0]] + places[1..];
      (if Matches(places[0], vibe) then [places[0]] else []) + FilterByVibe(places[1..], vibe)
  }

  /** Each place is kept as many times as it occurs when it matches, and not at all otherwise. */
  lemma {:induction false} FilterByVibeCounts(places: seq<Place>, vibe: string)
    ensures forall p :: multiset(FilterByVibe(places, vibe))[p] == (if Matches(p, vibe) then multiset(places)[p] else 0)
    decreases |places|
  {
    if places != [] {
      FilterByVibeCounts(places[1..], vibe);
      assert places == [places[0]] + places[1..];
    }
  }

  /** Every draw of `Math.random()` lies in [0, 1). */
  predicate RandomOk(random: seq<real>) {
    forall k :: 0 <= k < |random| ==> 0.0 <= random[k] < 1.0
  }

  /** `Math.floor(Math.random() * (i + 1))` with the k-th draw: an index in [0, i]. */
  function Draw(random: seq<real>, k: nat, i: nat): (j: int)
    requires k < |random| && RandomOk(random)
    ensures 0 <= j <= i
  {
    var x := random[k] * (i + 1) as real;
    assert 0.0 <= x < (i + 1) as real by {
      assert 0.0 <= random[k] < 1.0;
    }
    x.Floor
  }

  /** Exchange the elements at indices i and j. */
  function Swap<T>(s: seq<T>, i: nat, j: nat): (r: seq<T>)
    requires i < |s| && j < |s|
    ensures |r| == |s|
    ensures r[i] == s[j] && r[j] == s[i]
    ensures forall k :: 0 <= k < |s| && k != i && k != j ==> r[k] == s[k]
  {
    s[i := s[j]][j := s[i]]
  }

  lemma SwapPermutes<T>(s: seq<T>, i: nat, j: nat)
    requires i < |s| && j < |s|
    ensures multiset(Swap(s, i, j)) == multiset(s)
  {
  }

  /**
   * Swap partners for a list of length n: the m-th swap exchanges index
   * n - 1 - m with an index at or before it.
   */
  predicate PartnersOk(js: seq<int>, n: int) {
    n <= |js| + 1 && forall m :: 0 <= m < |js| ==> 0 <= js[m] <= n - 1 - m
  }

  /** The partners the loop draws for a list of length n: the m-th draw serves index n - 1 - m. */
  function Partners(random: seq<real>, n: nat): (js: seq<int>)
    requires n <= |random| + 1 && RandomOk(random)
    ensures PartnersOk(js, n)
  {
    var count := if n == 0 then 0 else n - 1;
    var js := seq(count, m requires 0 <= m < count => Draw(random, m, n - 1 - m));
    assert forall m :: 0 <= m < count ==> 0 <= js[m] <= n - 1 - m by {
      forall m | 0 <= m < count
        ensures 0 <= js[m] <= n - 1 - m
      {
        assert js[m] == Draw(random, m, n - 1 - m);
      }
    }
    js
  }

  /** The swaps of the descending loop from index i down to 1 applied to s. */
  function ShuffleFrom<T>(s: seq<T>, i: int, js: seq<int>): (r: seq<T>)
    requires i < |s| && PartnersOk(js, |s|)
    ensures |r| == |s|
    decreases i
  {
    if i <= 0 then s
    else ShuffleFrom(Swap(s, i, js[|s| - 1 - i]), i - 1, js)
  }

  /** The shuffle is a permutation: it keeps every element with its multiplicity. */
  lemma {:induction false} ShufflePermutes<T>(s: seq<T>, i: int, js: seq<int>)
    requires i < |s| && PartnersOk(js, |s|)
    ensures multiset(ShuffleFrom(s, i, js)) == multiset(s)
    decreases i
  {
    if i > 0 {
      var j := js[|s| - 1 - i];
      SwapPermutes(s, i, j);
      ShufflePermutes(Swap(s, i, j), i - 1, js);
    }
  }

  /**
   * `shuffleArray`: copy the input, then for i from the last index down to 1
   * swap element i with the element at its partner index, one at or before i.
   * `js` holds the partners in the order the loop draws them (for index i the
   * draw `Math.floor(Math.random() * (i + 1))`, see `Partners`); the draws do
   * not depend on the array, so they can be taken up front. The input (a value
   * here) is not modified. That the result is a permutation of the input with
   * the same length is stated by `ShuffleFrom` and `ShufflePermutes`.
   */
  method ShuffleArray<T>(input: seq<T>, js: seq<int>) returns (r: seq<T>)
    requires PartnersOk(js, |input|)
    ensures r == ShuffleFrom(input, |input| - 1, js)
  {
    var a := new T[|input|](k requires 0 <= k < |input| => input[k]);
    assert a[..] == input;
    var i := a.Length - 1;
    while i > 0
      invariant -1 <= i < a.Length
      invariant a.Length == 0 || 0 <= i
      invariant ShuffleFrom(a[..], i, js) == ShuffleFrom(input, |input| - 1, js)
      decreases i
    {
      var m := a.Length - 1 - i;
      var j := js[m];
      ghost var before := a[..];
      var t := a[i];
      a[i] := a[j];
      a[j] := t;
      ghost var after := a[..];
      assert after == Swap(before, i, j);
      var next := i - 1;
      assert ShuffleFrom(before, i, js) == ShuffleFrom(after, next, js);
      i := next;
    }
    r := a[..];
  }

  /**
   * `getFilteredPlaces`: the matching places, shuffled, cut to at most five.
   * The raw `vibe` is compared with "uncategorized"; other vibes are lower-cased.
   */
  method GetFilteredPlaces(places: seq<Place>, vibe: string, random: seq<real>) returns (r: seq<Place>)
    requires |places| <= |random| + 1 && RandomOk(random)
    ensures |r| == Min(MAX_SHOWN, |FilterByVibe(places, vibe)|)
    ensures r == ShuffleFrom(FilterByVibe(places, vibe), |FilterByVibe(places, vibe)| - 1,
                             Partners(random, |FilterByVibe(places, vibe)|))[..|r|]
    ensures multiset(r) <= multiset(FilterByVibe(places, vibe))
    ensures forall p :: p in r ==> p in places
    ensures vibe == UNCATEGORIZED ==> forall p :: p in r ==> p.vibes == []
    ensures vibe != UNCATEGORIZED ==> forall p :: p in r ==> Lower(vibe) in p.vibes
  {
    var filtered := FilterByVibe(places, vibe);
    var js := Partners(random, |filtered|);
    var shuffled := ShuffleArray(filtered, js);
    ShufflePermutes(filtered, |filtered| - 1, js);
    var n := Min(MAX_SHOWN, |shuffled|);
    r := shuffled[..n];
    assert shuffled == r + shuffled[n..];
    assert multiset(shuffled) == multiset(r) + multiset(shuffled[n..]);
    forall p | p in r
      ensures p in filtered
    {
      assert p in multiset(r);
      assert p in multiset(filtered);
    }
  }
}
