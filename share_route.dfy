/**
 * The share endpoint (app/api/share/route.ts): an itinerary, sent as a list
 * of places, is stored under a short random code, or the code of a live
 * share of the same itinerary is returned. The random generator is an oracle
 * of draws; the share table is a map from code to record.
 */
module ShareRoute {
  import opened Common

  /** The code alphabet: digits and lower-case letters without 0, 1, i, j, l, o. */
  const ALPHABET: string := "23456789abcdefghkmnpqrstuvwxyz"
  const CODE_LENGTH: nat := 6
  /** How long a share lives, in milliseconds. */
  const THIRTY_DAYS_MS: int := 30 * 24 * 60 * 60 * 1000

  /** A stored share: the comma-joined place ids and the expiry time (milliseconds). */
  datatype ShareRecord = ShareRecord(placeIds: string, expiresAt: int)

  /** The six alphabet indices one call of the generator draws. */
  type Draws = d: seq<nat> | |d| == CODE_LENGTH witness [0, 0, 0, 0, 0, 0]

  /**
   * One round of the creation loop: the generator's draws, and whether the
   * insert fails for a reason other than a duplicate code.
   */
  datatype Attempt = Attempt(draws: Draws, fault: bool)

  /**
   * The response: the code, or status 500. `OutOfAttempts` is the model's
   * end of the retries, which the source does not have.
   */
  datatype ShareResponse = Shared(code: string) | Failed | OutOfAttempts

  /** What the creation loop ends with. `Exhausted` is the model's end of the (unbounded) retries. */
  datatype Outcome = Inserted(code: string) | WriteFailed | Exhausted

  predicate IsShareCode(code: string) {
    |code| == CODE_LENGTH && forall k :: 0 <= k < |code| ==> code[k] in ALPHABET
  }

  /** The code the generator produces from its draws. */
  function CodeOf(draws: Draws): (code: string)
    ensures IsShareCode(code)
  {
    seq(CODE_LENGTH, k requires 0 <= k < CODE_LENGTH => ALPHABET[draws[k] % |ALPHABET|])
  }

  /** The alphabet has 30 symbols in ascending order, so no symbol repeats. */
  lemma AlphabetIsAscending()
    ensures |ALPHABET| == 30
    ensures forall k :: 0 <= k < |ALPHABET| - 1 ==> ALPHABET[k] < ALPHABET[k + 1]
  {
  }

  /** It leaves out the easily confused 0, 1, i, l and o. */
  lemma AlphabetAvoidsLookalikes()
    ensures forall k :: 0 <= k < |ALPHABET| ==>
      ALPHABET[k] != '0' && ALPHABET[k] != '1' && ALPHABET[k] != 'i' && ALPHABET[k] != 'l' && ALPHABET[k] != 'o'
  {
  }

  /** `Array.prototype.join(',')` on the place ids. */
  function JoinIds(ids: seq<string>): (s: string)
    ensures |ids| == 1 ==> s == ids[0]
    decreases |ids|
  {
    if |ids| == 0 then ""
    else if |ids| == 1 then ids[0]
    else ids[0] + "," + JoinIds(ids[1..])
  }

  /** `String.prototype.split(',')`, as the share lookup applies it to the stored ids. */
  function Split(s: string): (parts: seq<string>)
    ensures |parts| >= 1
    decreases |s|
  {
    if s == [] then [""]
    else if s[0] == ',' then [""] + Split(s[1..])
    else
      var rest := Split(s[1..]);
      [[s[0]] + rest[0]] + rest[1..]
  }

  predicate NoComma(id: string) {
    ',' !in id
  }

  /** A comma-free piece splits to itself, and a comma after it ends the first part. */
  lemma {:induction false} SplitPiece(a: string, t: string)
    requires NoComma(a)
    ensures Split(a) == [a]
    ensures Split(a + "," + t) == [a] + Split(t)
    decreases |a|
  {
    if a == [] {
      assert a + "," + t == [','] + t;
      assert ([','] + t)[1..] == t;
    } else {
      SplitPiece(a[1..], t);
      assert (a + "," + t)[1..] == a[1..] + "," + t;
      assert (a + "," + t)[0] == a[0];
      assert [a[0]] + a[1..] == a;
    }
  }

  /**
   * The stored string gives back the itinerary's ids when the itinerary is
   * not empty and no id contains a comma.
   */
  lemma {:induction false} SplitJoin(ids: seq<string>)
    requires |ids| >= 1
    requires forall k :: 0 <= k < |ids| ==> NoComma(ids[k])
    ensures Split(JoinIds(ids)) == ids
    decreases |ids|
  {
    if |ids| == 1 {
      SplitPiece(ids[0], "");
    } else {
      SplitPiece(ids[0], JoinIds(ids[1..]));
      SplitJoin(ids[1..]);
      assert [ids[0]] + ids[1..] == ids;
    }
  }

  /** Hence two such itineraries share a record only if they list the same ids in the same order. */
  lemma JoinIsInjective(a: seq<string>, b: seq<string>)
    requires |a| >= 1 && |b| >= 1
    requires forall k :: 0 <= k < |a| ==> NoComma(a[k])
    requires forall k :: 0 <= k < |b| ==> NoComma(b[k])
    ensures JoinIds(a) == JoinIds(b) <==> a == b
  {
    SplitJoin(a);
    SplitJoin(b);
  }

  /** The empty itinerary is stored as "" and comes back as one empty id. */
  lemma EmptyItineraryComesBackAsOneId()
    ensures JoinIds([]) == "" && Split(JoinIds([])) == [""]
  {
  }

  /** A place's `place_id` as `join` renders it: a missing one becomes the empty string. */
  function IdText(id: Option<string>): (text: string) {
    if id.Some? then id.value else ""
  }

  /** Every place carries an id and no id contains a comma. */
  predicate PlainIds(placeIds: seq<Option<string>>) {
    forall k :: 0 <= k < |placeIds| ==> placeIds[k].Some? && NoComma(placeIds[k].value)
  }

  /** The ids of the places, as `join` renders them. */
  function IdTexts(placeIds: seq<Option<string>>): (ids: seq<string>)
    ensures |ids| == |placeIds|
    ensures forall k :: 0 <= k < |ids| ==> ids[k] == IdText(placeIds[k])
  {
    seq(|placeIds|, k requires 0 <= k < |placeIds| => IdText(placeIds[k]))
  }

  /** The string stored for the itinerary. */
  function Canonical(placeIds: seq<Option<string>>): (joined: string) {
    JoinIds(IdTexts(placeIds))
  }

  /** A shared itinerary is looked up again as its list of ids. */
  lemma CanonicalRoundTrip(placeIds: seq<Option<string>>)
    requires |placeIds| >= 1 && PlainIds(placeIds)
    ensures |Split(Canonical(placeIds))| == |placeIds|
    ensures forall k :: 0 <= k < |placeIds| ==> Split(Canonical(placeIds))[k] == placeIds[k].value
  {
    SplitJoin(IdTexts(placeIds));
  }

  /** A live share of the same itinerary exists under `code`: same ids and expiry strictly after now. */
  predicate Reusable(shares: map<string, ShareRecord>, code: string, placeIds: string, now: int) {
    code in shares && shares[code].placeIds == placeIds && shares[code].expiresAt > now
  }

  /** The code generated in this attempt is already in use. */
  predicate Taken(shares: map<string, ShareRecord>, attempt: Attempt) {
    CodeOf(attempt.draws) in shares
  }

  /** What the attempt yields when its code is free. */
  function FreeOutcome(attempt: Attempt): (outcome: Outcome) {
    if attempt.fault then WriteFailed else Inserted(CodeOf(attempt.draws))
  }

  /**
   * The creation loop from attempt i on: a generated code that is already
   * taken is retried, the first free one is inserted unless its insert fails.
   */
  function Retry(shares: map<string, ShareRecord>, attempts: seq<Attempt>, i: nat): (outcome: Outcome)
    requires i <= |attempts|
    decreases |attempts| - i
  {
    if i == |attempts| then Exhausted
    else if Taken(shares, attempts[i]) then Retry(shares, attempts, i + 1)
    else FreeOutcome(attempts[i])
  }

  /**
   * The loop runs out exactly when every generated code is taken; otherwise
   * it stops at the first free code, which is inserted unless that insert fails.
   */
  lemma {:induction false} RetryStopsAtFirstFreeCode(shares: map<string, ShareRecord>, attempts: seq<Attempt>, i: nat)
    requires i <= |attempts|
    ensures Retry(shares, attempts, i) == Exhausted <==> forall j :: i <= j < |attempts| ==> Taken(shares, attempts[j])
    ensures Retry(shares, attempts, i) != Exhausted ==>
      exists j :: i <= j < |attempts| && !Taken(shares, attempts[j])
        && (forall m :: i <= m < j ==> Taken(shares, attempts[m]))
        && Retry(shares, attempts, i) == FreeOutcome(attempts[j])
    decreases |attempts| - i
  {
    if i < |attempts| {
      if Taken(shares, attempts[i]) {
        RetryStopsAtFirstFreeCode(shares, attempts, i + 1);
        if Retry(shares, attempts, i) != Exhausted {
          var j :| i + 1 <= j < |attempts| && !Taken(shares, attempts[j])
            && (forall m :: i + 1 <= m < j ==> Taken(shares, attempts[m]))
            && Retry(shares, attempts, i + 1) == FreeOutcome(attempts[j]);
          assert forall m :: i <= m < j ==> Taken(shares, attempts[m]);
        }
      } else {
        assert FreeOutcome(attempts[i]) != Exhausted;
      }
    }
  }

  /** An inserted code is a well-formed code that was free. */
  lemma InsertedCodeIsFresh(shares: map<string, ShareRecord>, attempts: seq<Attempt>)
    requires Retry(shares, attempts, 0).Inserted?
    ensures var code := Retry(shares, attempts, 0).code;
      code !in shares && IsShareCode(code)
  {
    RetryStopsAtFirstFreeCode(shares, attempts, 0);
  }

  /** The share table. */
  class ShareStore {
    var shares: map<string, ShareRecord>

    constructor()
      ensures shares == map[]
    {
      shares := map[];
    }

    /**
     * The `POST` handler. `body` is the parsed request body (`None` when it is
     * not a list of places), given as each place's `place_id`; `now` is the
     * request time and `attempts` the generator's successive outputs.
     */
    method CreateShare(body: Option<seq<Option<string>>>, now: int, attempts: seq<Attempt>) returns (resp: ShareResponse)
      modifies this
      ensures body.None? ==> resp == Failed && shares == old(shares)
      ensures body.Some? && (exists c :: Reusable(old(shares), c, Canonical(body.value), now)) ==>
        resp.Shared? && Reusable(old(shares), resp.code, Canonical(body.value), now) && shares == old(shares)
      ensures body.Some? && !(exists c :: Reusable(old(shares), c, Canonical(body.value), now)) ==>
        match Retry(old(shares), attempts, 0)
        case Inserted(code) =>
          resp == Shared(code) && shares == old(shares)[code := ShareRecord(Canonical(body.value), now + THIRTY_DAYS_MS)]
        case WriteFailed => resp == Failed && shares == old(shares)
        case Exhausted => resp == OutOfAttempts && shares == old(shares)
    {
      if body.None? {
        return Failed;
      }
      var placeIds := Canonical(body.value);
      var live := set c | c in shares && Reusable(shares, c, placeIds, now);
      if live != {} {
        var c :| c in live;
        return Shared(c);
      }
      forall c | Reusable(shares, c, placeIds, now)
        ensures c in live
      {
      }
      var i := 0;
      while i < |attempts|
        invariant 0 <= i <= |attempts|
        invariant shares == old(shares)
        invariant Retry(shares, attempts, i) == Retry(shares, attempts, 0)
      {
        var code := CodeOf(attempts[i].draws);
        if !Taken(shares, attempts[i]) {
          if attempts[i].fault {
            return Failed;
          }
          shares := shares[code := ShareRecord(placeIds, now + THIRTY_DAYS_MS)];
          return Shared(code);
        }
        i := i + 1;
      }
      return OutOfAttempts;
    }
  }
}
