// The internal log's write path: capped deduplication of error events, the
// mount gate behind it, and the character-safe prefix the hash is taken of.
module Dedup {
  import opened Wrappers

  const SEEN_ERRORS_CAP: nat := 1024

  // One call of write. Only errors are deduplicated, by their hash. lockOk: the
  // set's lock was not poisoned; gateOpen: the mount gate let the event through;
  // ioOk: directory and file could be written.
  datatype Offer = Offer(isError: bool, hash: nat, lockOk: bool, gateOpen: bool, ioOk: bool)

  datatype State = State(seen: set<nat>, lines: seq<Offer>)

  const EMPTY := State({}, [])

  // An offer the set is asked about.
  predicate Hashed(o: Offer) { o.isError && o.lockOk }

  predicate Suppressed(seen: set<nat>, o: Offer) { Hashed(o) && o.hash in seen }

  // The set learns a hash before the gate decides about the event.
  function Write(s: State, o: Offer): State {
    if Suppressed(s.seen, o) then s
    else State(if Hashed(o) && |s.seen| < SEEN_ERRORS_CAP then s.seen + {o.hash} else s.seen,
               if o.gateOpen && o.ioOk then s.lines + [o] else s.lines)
  }

  function Run(offers: seq<Offer>): State {
    if offers == [] then EMPTY else Write(Run(offers[..|offers| - 1]), offers[|offers| - 1])
  }

  class InternalLog {
    var seenErrors: set<nat>
    var lines: seq<Offer>
    const mountGated: bool

    ghost predicate Valid()
      reads this
    {
      |seenErrors| <= SEEN_ERRORS_CAP
    }

    constructor (mountGated: bool)
      ensures Valid() && State(seenErrors, lines) == EMPTY && this.mountGated == mountGated
    {
      this.mountGated := mountGated;
      seenErrors, lines := {}, [];
    }

    // mountReady: the parent directory is a mounted worktree.
    method WriteInner(isError: bool, hash: nat, lockOk: bool, mountReady: bool, ioOk: bool) returns (ok: bool)
      requires Valid()
      modifies this
      ensures Valid()
      ensures var o := Offer(isError, hash, lockOk, !mountGated || mountReady, ioOk);
              && State(seenErrors, lines) == Write(old(State(seenErrors, lines)), o)
              && (ok <==> ioOk || Suppressed(old(seenErrors), o) || !o.gateOpen)
    {
      if isError {
        if lockOk {
          if hash in seenErrors {
            return true;
          }
          if |seenErrors| < SEEN_ERRORS_CAP {
            seenErrors := seenErrors + {hash};
          }
        }
      }
      if mountGated && !mountReady {
        return true;
      }
      if !ioOk {
        return false;
      }
      lines := lines + [Offer(isError, hash, lockOk, true, ioOk)];
      return true;
    }
  }

  // ---- dedup over all runs -----------------------------------------------------

  // The distinct hashes offered.
  function Offered(offers: seq<Offer>): set<nat> {
    set o | o in offers && Hashed(o) :: o.hash
  }

  predicate Offers(offers: seq<Offer>, m: int, h: nat) {
    0 <= m < |offers| && Hashed(offers[m]) && offers[m].hash == h
  }

  predicate FirstOffer(offers: seq<Offer>, m: int, h: nat) {
    Offers(offers, m, h) && forall k :: 0 <= k < m ==> !Offers(offers, k, h)
  }

  lemma OfferedBefore(offers: seq<Offer>, n: nat, h: nat)
    requires n <= |offers|
    ensures h in Offered(offers[..n]) <==> exists k :: k < n && Offers(offers, k, h)
  {
    if h in Offered(offers[..n]) {
      var o :| o in offers[..n] && Hashed(o) && o.hash == h;
      var k :| 0 <= k < n && offers[k] == o;
      assert Offers(offers, k, h);
    }
    if k :| k < n && Offers(offers, k, h) {
      assert offers[k] in offers[..n];
    }
  }

  lemma OfferedSnoc(offers: seq<Offer>, o: Offer)
    ensures Offered(offers + [o]) == if Hashed(o) then Offered(offers) + {o.hash} else Offered(offers)
  {
    assert o in offers + [o];
    forall p | p in offers ensures p in offers + [o] {}
  }

  lemma RunSnoc(offers: seq<Offer>, o: Offer)
    ensures Run(offers + [o]) == Write(Run(offers), o)
  {
    assert (offers + [o])[..|offers|] == offers;
  }

  lemma SubsetSize(a: set<nat>, b: set<nat>)
    requires a <= b
    ensures |a| <= |b|
    ensures |a| == |b| ==> a == b
  {
    assert b == a + (b - a);
  }

  ghost predicate SizesMatch(seen: set<nat>, offered: set<nat>) {
    seen <= offered && |seen| == if |offered| <= 1024 then |offered| else 1024
  }

  lemma SizesStep(s: State, offered: set<nat>, o: Offer)
    requires SizesMatch(s.seen, offered)
    ensures SizesMatch(Write(s, o).seen, if Hashed(o) then offered + {o.hash} else offered)
  {
    if Hashed(o) {
      SubsetSize(s.seen, offered);
      assert |offered + {o.hash}| == |offered| + if o.hash in offered then 0 else 1 by {
        if o.hash in offered { assert offered + {o.hash} == offered; }
      }
    }
  }

  // The set holds every offered hash until it is full, and then stays as it is.
  lemma {:induction false} SeenSize(offers: seq<Offer>)
    ensures SizesMatch(Run(offers).seen, Offered(offers))
    decreases |offers|
  {
    if offers != [] {
      var init, o := offers[..|offers| - 1], offers[|offers| - 1];
      assert offers == init + [o];
      SeenSize(init);
      OfferedSnoc(init, o);
      SizesStep(Run(init), Offered(init), o);
    }
  }

  ghost predicate Remembered(offers: seq<Offer>, m: int, h: nat) {
    FirstOffer(offers, m, h) && |Offered(offers[..m])| < 1024
  }

  // Exactly the first 1024 distinct hashes are remembered, for good.
  lemma {:induction false} SeenExact(offers: seq<Offer>, h: nat)
    ensures h in Run(offers).seen <==> exists m :: Remembered(offers, m, h)
    decreases |offers|
  {
    if offers != [] {
      var init, o := offers[..|offers| - 1], offers[|offers| - 1];
      assert offers == init + [o];
      SeenExact(init, h);
      SeenSize(init);
      SubsetSize(Run(init).seen, Offered(init));
      forall m | 0 <= m < |init| ensures Remembered(init, m, h) <==> Remembered(offers, m, h) {
        assert offers[..m] == init[..m];
        assert forall k :: 0 <= k <= m ==> (Offers(init, k, h) <==> Offers(offers, k, h));
      }
      OfferedBefore(offers, |init|, h);
      if h in Run(offers).seen && h !in Run(init).seen {
        assert offers[..|init|] == init;
        assert Remembered(offers, |init|, h);
      }
      if m :| Remembered(offers, m, h) && m == |init| {
        assert offers[..m] == init;
      }
    }
  }

  // An error is suppressed exactly when its hash was offered before, early
  // enough to be among the first 1024 distinct ones.
  lemma SuppressedExact(offers: seq<Offer>, n: nat)
    requires n < |offers| && Hashed(offers[n])
    ensures Suppressed(Run(offers[..n]).seen, offers[n]) <==> exists m :: m < n && Remembered(offers, m, offers[n].hash)
  {
    var init, h := offers[..n], offers[n].hash;
    SeenExact(init, h);
    forall m | 0 <= m < n ensures Remembered(init, m, h) <==> Remembered(offers, m, h) {
      assert offers[..m] == init[..m];
      assert forall k :: 0 <= k <= m ==> (Offers(init, k, h) <==> Offers(offers, k, h));
    }
    if m :| m < n && Remembered(offers, m, h) {
      assert Remembered(init, m, h);
    }
    if m :| Remembered(init, m, h) {
      assert Remembered(offers, m, h);
    }
  }

  // A hash offered before n has a first offer before n.
  lemma {:induction false} HasFirst(offers: seq<Offer>, n: nat, h: nat) returns (m: nat)
    requires n <= |offers| && exists k :: k < n && Offers(offers, k, h)
    ensures m < n && FirstOffer(offers, m, h)
    decreases n
  {
    if k :| k < n - 1 && Offers(offers, k, h) {
      m := HasFirst(offers, n - 1, h);
    } else {
      m := n - 1;
    }
  }

  lemma OfferedPrefix(offers: seq<Offer>, n: nat)
    requires n <= |offers|
    ensures Offered(offers[..n]) <= Offered(offers) && |Offered(offers[..n])| <= |Offered(offers)|
  {
    forall o | o in offers[..n] ensures o in offers {}
    SubsetSize(Offered(offers[..n]), Offered(offers));
  }

  // While at most 1024 distinct hashes are offered, each passes exactly once:
  // the first time.
  lemma PassesExactlyOnce(offers: seq<Offer>, n: nat)
    requires n < |offers| && Hashed(offers[n]) && |Offered(offers)| <= 1024
    ensures !Suppressed(Run(offers[..n]).seen, offers[n]) <==> FirstOffer(offers, n, offers[n].hash)
  {
    var h := offers[n].hash;
    SuppressedExact(offers, n);
    if k :| k < n && Offers(offers, k, h) {
      var m := HasFirst(offers, n, h);
      FewerBefore(offers, m, h);
      assert Remembered(offers, m, h);
    }
  }

  lemma FewerBefore(offers: seq<Offer>, m: nat, h: nat)
    requires FirstOffer(offers, m, h)
    ensures |Offered(offers[..m])| < |Offered(offers)|
  {
    assert offers[..m + 1] == offers[..m] + [offers[m]];
    OfferedSnoc(offers[..m], offers[m]);
    OfferedBefore(offers, m, h);
    OfferedPrefix(offers, m + 1);
  }

  // Once full, a hash not among the remembered ones passes every time.
  lemma FullNeverSuppressesNew(offers: seq<Offer>, m: nat, n: nat)
    requires m <= n < |offers| && Hashed(offers[n]) && FirstOffer(offers, m, offers[n].hash)
    requires |Offered(offers[..m])| >= 1024
    ensures !Suppressed(Run(offers[..n]).seen, offers[n])
  {
    SuppressedExact(offers, n);
    assert forall k :: Remembered(offers, k, offers[n].hash) ==> k == m;
  }

  // ---- and what reaches the file -----------------------------------------------

  ghost predicate Reaches(offers: seq<Offer>, n: int) {
    0 <= n < |offers| && !Suppressed(Run(offers[..n]).seen, offers[n]) && offers[n].gateOpen && offers[n].ioOk
  }

  // The file holds the offers that were neither suppressed nor gated.
  lemma {:induction false} LinesExact(offers: seq<Offer>, o: Offer)
    ensures o in Run(offers).lines <==> exists n :: Reaches(offers, n) && offers[n] == o
    decreases |offers|
  {
    if offers != [] {
      var k := |offers| - 1;
      var init := offers[..k];
      assert offers == init + [offers[k]];
      LinesExact(init, o);
      forall n | 0 <= n < k ensures Reaches(init, n) <==> Reaches(offers, n) {
        assert offers[..n] == init[..n];
      }
      if n :| Reaches(init, n) && init[n] == o {
        assert Reaches(offers, n) && offers[n] == o;
      }
      assert Reaches(offers, k) <==> !Suppressed(Run(init).seen, offers[k]) && offers[k].gateOpen && offers[k].ioOk;
    }
  }

  // Strictly increasing positions.
  ghost predicate Positions(at: seq<nat>, n: nat) {
    (forall i :: 0 <= i < |at| ==> at[i] < n) && forall i, j :: 0 <= i < j < |at| ==> at[i] < at[j]
  }

  lemma ReachesSnoc(init: seq<Offer>, o: Offer, n: int)
    requires n != |init|
    ensures Reaches(init + [o], n) <==> Reaches(init, n)
  {
    if 0 <= n < |init| {
      assert (init + [o])[..n] == init[..n];
    }
  }

  lemma LinesSnoc(init: seq<Offer>, o: Offer)
    ensures Run(init + [o]).lines == Run(init).lines + if Reaches(init + [o], |init|) then [o] else []
  {
    RunSnoc(init, o);
    assert (init + [o])[..|init|] == init;
  }

  // Each of them once, and in the order in which they were offered.
  lemma {:induction false} LinesInOrder(offers: seq<Offer>) returns (at: seq<nat>)
    ensures Positions(at, |offers|) && |at| == |Run(offers).lines|
    ensures forall i :: 0 <= i < |at| ==> Run(offers).lines[i] == offers[at[i]]
    ensures forall n: nat :: n in at <==> Reaches(offers, n)
    decreases |offers|
  {
    at := [];
    if offers != [] {
      var k := |offers| - 1;
      var init, o := offers[..k], offers[k];
      assert offers == init + [o];
      at := LinesInOrder(init);
      LinesSnoc(init, o);
      forall n: nat | n != k ensures Reaches(offers, n) <==> Reaches(init, n) {
        ReachesSnoc(init, o, n);
      }
      if Reaches(offers, k) { at := at + [k]; }
    }
  }

  ghost predicate Logged(offers: seq<Offer>, h: nat) {
    exists o :: o in Run(offers).lines && Hashed(o) && o.hash == h
  }

  predicate PassedGate(o: Offer) { o.gateOpen && o.ioOk }

  lemma LoggedAt(offers: seq<Offer>, h: nat)
    ensures Logged(offers, h) <==> exists n :: Reaches(offers, n) && Offers(offers, n, h)
  {
    if o :| o in Run(offers).lines && Hashed(o) && o.hash == h {
      LinesExact(offers, o);
      var n :| Reaches(offers, n) && offers[n] == o;
      assert Offers(offers, n, h);
    }
    if n :| Reaches(offers, n) && Offers(offers, n, h) {
      LinesExact(offers, offers[n]);
    }
  }

  // A remembered hash is passed on at its first offer only, any other always.
  lemma ReachesExact(offers: seq<Offer>, m: nat, n: nat, h: nat)
    requires FirstOffer(offers, m, h) && Offers(offers, n, h)
    ensures Reaches(offers, n) <==> PassedGate(offers[n]) && (n == m || |Offered(offers[..m])| >= 1024)
  {
    SuppressedExact(offers, n);
    if n != m && |Offered(offers[..m])| < 1024 {
      assert Remembered(offers, m, h);
    }
  }

  // Because the set learns a hash before the gate is asked, an error among the
  // first 1024 is in the file exactly when its first offer found the gate open and
  // the write worked: one first offered while the gate was closed is never logged.
  // Any later error is in the file exactly when some offer of it got through.
  lemma LoggedExact(offers: seq<Offer>, m: nat, h: nat)
    requires FirstOffer(offers, m, h)
    ensures Logged(offers, h) <==>
            if |Offered(offers[..m])| < 1024 then PassedGate(offers[m])
            else exists n :: Offers(offers, n, h) && PassedGate(offers[n])
  {
    LoggedAt(offers, h);
    forall n: nat | Offers(offers, n, h)
      ensures Reaches(offers, n) <==> PassedGate(offers[n]) && (n == m || |Offered(offers[..m])| >= 1024)
    {
      ReachesExact(offers, m, n, h);
    }
    assert Offers(offers, m, h);
  }

  // ---- the hashed prefix -------------------------------------------------------

  const HASHED_BYTES: nat := 4096

  predicate IsContinuation(b: Byte) { 0x80 <= b <= 0xBF }

  // The bytes of one character (section 3 of RFC 3629): a leading byte and at
  // most three continuation bytes.
  predicate IsChar(c: Bytes) {
    1 <= |c| <= 4 && !IsContinuation(c[0]) && forall k :: 1 <= k < |c| ==> IsContinuation(c[k])
  }

  ghost predicate IsText(chars: seq<Bytes>) {
    forall k :: 0 <= k < |chars| ==> IsChar(chars[k])
  }

  function Encode(chars: seq<Bytes>): Bytes {
    if chars == [] then [] else Encode(chars[..|chars| - 1]) + chars[|chars| - 1]
  }

  predicate IsBoundary(s: Bytes, i: nat) {
    i == 0 || i >= |s| || !IsContinuation(s[i])
  }

  // The largest index up to `index` at which the text can be cut.
  method FloorCharBoundary(s: Bytes, index: nat) returns (i: nat)
    ensures i <= index && i <= |s|
    ensures IsBoundary(s, i)
    ensures forall k: nat :: i < k <= index && k <= |s| ==> !IsBoundary(s, k)
  {
    if index >= |s| { return |s|; }
    i := index;
    while i > 0 && IsContinuation(s[i])
      invariant i <= index < |s|
      invariant forall k: nat :: i < k <= index ==> !IsBoundary(s, k)
    {
      i := i - 1;
    }
  }

  lemma EncodeSnoc(a: seq<Bytes>, c: Bytes)
    ensures Encode(a + [c]) == Encode(a) + c
  {
    assert (a + [c])[..|a|] == a;
  }

  lemma {:induction false} EncodeConcat(a: seq<Bytes>, b: seq<Bytes>)
    ensures Encode(a + b) == Encode(a) + Encode(b)
    decreases |b|
  {
    if b == [] {
      assert a + b == a;
    } else {
      var init, last := b[..|b| - 1], b[|b| - 1];
      EncodeConcat(a, init);
      EncodeSnoc(a + init, last);
      assert (a + init) + [last] == a + b;
      assert (Encode(a) + Encode(init)) + last == Encode(a) + (Encode(init) + last);
    }
  }

  // Where character k starts, the text can be cut.
  lemma StartIsBoundary(chars: seq<Bytes>, k: nat)
    requires IsText(chars) && k <= |chars|
    ensures |Encode(chars[..k])| <= |Encode(chars)|
    ensures Encode(chars)[..|Encode(chars[..k])|] == Encode(chars[..k])
    ensures IsBoundary(Encode(chars), |Encode(chars[..k])|)
  {
    assert chars == chars[..k] + chars[k..];
    EncodeConcat(chars[..k], chars[k..]);
    if k < |chars| {
      assert chars[k..] == [chars[k]] + chars[k + 1..];
      EncodeConcat([chars[k]], chars[k + 1..]);
      assert Encode([chars[k]]) == chars[k] by { assert [chars[k]][..0] == []; }
      assert Encode(chars)[|Encode(chars[..k])|] == chars[k][0];
    }
  }

  lemma NotInsideLast(chars: seq<Bytes>, i: nat)
    requires IsText(chars) && chars != []
    requires |Encode(chars[..|chars| - 1])| < i < |Encode(chars)|
    ensures !IsBoundary(Encode(chars), i)
  {
    assert Encode(chars)[i] == chars[|chars| - 1][i - |Encode(chars[..|chars| - 1])|];
  }

  // And nowhere else.
  lemma {:induction false} BoundaryIsStart(chars: seq<Bytes>, i: nat) returns (k: nat)
    requires IsText(chars) && i <= |Encode(chars)| && IsBoundary(Encode(chars), i)
    ensures k <= |chars| && |Encode(chars[..k])| == i
    decreases |chars|
  {
    if i == |Encode(chars)| {
      assert chars[..|chars|] == chars;
      return |chars|;
    }
    var n := |chars| - 1;
    var init := chars[..n];
    if i > |Encode(init)| {
      NotInsideLast(chars, i);
    }
    if i < |Encode(init)| {
      assert Encode(init)[i] == Encode(chars)[i];
    }
    k := BoundaryIsStart(init, i);
    assert chars[..k] == init[..k];
  }

  lemma {:induction false} EncodeMonotone(chars: seq<Bytes>, j: nat, k: nat)
    requires IsText(chars) && j <= k <= |chars|
    ensures |Encode(chars[..j])| + (k - j) <= |Encode(chars[..k])|
    decreases k
  {
    if j < k {
      EncodeMonotone(chars, j, k - 1);
      assert chars[..k][..k - 1] == chars[..k - 1];
    }
  }

  // The bytes hashed of a message: whole characters, at most 4096 bytes, and no
  // longer run of whole characters fits. Fewer than four bytes are given up.
  method HashedPrefix(ghost chars: seq<Bytes>, message: Bytes) returns (prefix: Bytes, ghost k: nat)
    requires IsText(chars) && message == Encode(chars)
    ensures k <= |chars| && prefix == Encode(chars[..k]) && prefix <= message
    ensures |prefix| <= 4096
    ensures forall j :: k < j <= |chars| ==> |Encode(chars[..j])| > 4096
    ensures prefix == message <==> |message| <= 4096
    ensures |message| > 4096 ==> |prefix| > 4096 - 4
  {
    assert IsBoundary(message, |message|);
    var i := FloorCharBoundary(message, if HASHED_BYTES < |message| then HASHED_BYTES else |message|);
    k := BoundaryIsStart(chars, i);
    StartIsBoundary(chars, k);
    prefix := message[..i];
    assert prefix == message <==> i == |message|;
    forall j | k < j <= |chars| ensures |Encode(chars[..j])| > 4096 {
      StartIsBoundary(chars, j);
      EncodeMonotone(chars, k, j);
    }
    if |message| > 4096 {
      NextStart(chars, k);
    }
  }

  lemma NextStart(chars: seq<Bytes>, k: nat)
    requires IsText(chars) && k <= |chars| && |Encode(chars[..k])| < |Encode(chars)|
    ensures k < |chars| && |Encode(chars[..k + 1])| <= |Encode(chars[..k])| + 4
  {
    if k < |chars| {
      assert chars[..k + 1][..k] == chars[..k];
    }
    assert chars[..|chars|] == chars;
  }
}
