// Rolling an over-cap artifact into sealed shards: read, publish the sealed
// shard, truncate the artifact, publish the index row. The dispatcher may die or
// fail between any two of these; a later self-heal infers from the files alone
// how far it came. Agents may write the artifact at any time.
module ShardRoll {
  import opened Wrappers

  datatype Row = Row(number: nat, bytesAtSeal: nat)

  // The step a roll or a self-heal is at.
  datatype Phase =
    | Idle
    | Sealing(content: Bytes, n: nat)
    | Truncating(content: Bytes, n: nat)
    | Indexing(n: nat)
    | Reconciling(n: nat)

  // due: the shard published last has yet to be taken out of the artifact. It is
  // history; no step depends on it.
  datatype State = State(canonical: Bytes, shards: map<nat, Bytes>, index: seq<Row>, phase: Phase, due: bool)

  datatype Action =
    | AgentWrites(content: Bytes)
    | Crash
    | PlantEmpty(n: nat)
    | RollReads
    | RollPublishes
    | Truncates
    | PublishesRow
    | HealCompares

  function Start(canonical: Bytes): State {
    State(canonical, map[], [], Idle, false)
  }

  function MaxNumber(index: seq<Row>): nat {
    if index == [] then 0
    else
      var m, last := MaxNumber(index[..|index| - 1]), index[|index| - 1].number;
      if last > m then last else m
  }

  function NextSeal(index: seq<Row>): nat { MaxNumber(index) + 1 }

  // A file of no bytes was never sealed by a roll, and counts as absent.
  predicate IsSealed(shards: map<nat, Bytes>, n: nat) {
    n in shards && shards[n] != []
  }

  // None when the action is not enabled. Publishing is an exclusive create, and
  // fails on a shard that is there.
  function Next(s: State, a: Action): Option<State> {
    match a
    case AgentWrites(content) => Some(s.(canonical := content))
    case Crash => Some(s.(phase := Idle))
    case PlantEmpty(n) => if n in s.shards then None else Some(s.(shards := s.shards[n := []]))
    case RollReads =>
      if !s.phase.Idle? then None
      else if s.canonical == [] then Some(s)
      else Some(s.(phase := Sealing(s.canonical, NextSeal(s.index))))
    case RollPublishes =>
      if !s.phase.Sealing? then None
      else if IsSealed(s.shards, s.phase.n) then Some(s.(phase := Idle))
      else
        var Sealing(content, n) := s.phase;
        Some(s.(shards := s.shards[n := content], phase := Truncating(content, n), due := true))
    case Truncates =>
      if !s.phase.Truncating? then None
      else Some(s.(canonical := [], phase := Indexing(s.phase.n), due := false))
    case PublishesRow =>
      if (s.phase.Indexing? || s.phase.Reconciling?) && s.phase.n in s.shards then
        Some(s.(index := s.index + [Row(s.phase.n, |s.shards[s.phase.n]|)], phase := Idle, due := false))
      else None
    case HealCompares =>
      var n := NextSeal(s.index);
      if !s.phase.Idle? then None
      else if !IsSealed(s.shards, n) then Some(s)
      else if s.shards[n] == s.canonical then Some(s.(phase := Truncating(s.shards[n], n)))
      else Some(s.(phase := Reconciling(n)))
  }

  function Run(s: State, actions: seq<Action>): Option<State> {
    if actions == [] then Some(s)
    else
      match Run(s, actions[..|actions| - 1])
      case None => None
      case Some(t) => Next(t, actions[|actions| - 1])
  }

  // ---- what every run keeps --------------------------------------------------

  predicate Pending(s: State) {
    IsSealed(s.shards, |s.index| + 1)
  }

  // Row i is that of shard n, the (i+1)-st.
  predicate RowOk(shards: map<nat, Bytes>, row: Row, n: nat) {
    row.number == n && IsSealed(shards, n) && row.bytesAtSeal == |shards[n]|
  }

  predicate RowsMatch(shards: map<nat, Bytes>, index: seq<Row>) {
    forall i, n {:trigger RowOk(shards, index[i], n)} :: 0 <= i < |index| && n == i + 1 ==> RowOk(shards, index[i], n)
  }

  predicate SealedKept(shards: map<nat, Bytes>, shards': map<nat, Bytes>) {
    forall n :: n in shards && shards[n] != [] ==> n in shards' && shards'[n] == shards[n]
  }

  lemma RowsStay(shards: map<nat, Bytes>, shards': map<nat, Bytes>, index: seq<Row>)
    requires RowsMatch(shards, index) && SealedKept(shards, shards')
    ensures RowsMatch(shards', index)
  {
    forall i, n | 0 <= i < |index| && n == i + 1 ensures RowOk(shards', index[i], n) {
      assert RowOk(shards, index[i], n);
    }
  }

  lemma RowAdded(shards: map<nat, Bytes>, index: seq<Row>)
    requires RowsMatch(shards, index) && IsSealed(shards, |index| + 1)
    ensures RowsMatch(shards, index + [Row(|index| + 1, |shards[|index| + 1]|)])
  {
    var index' := index + [Row(|index| + 1, |shards[|index| + 1]|)];
    forall i, n | 0 <= i < |index'| && n == i + 1 ensures RowOk(shards, index'[i], n) {
      if i < |index| {
        assert RowOk(shards, index[i], n);
      }
    }
  }

  predicate PhaseOk(s: State) {
    match s.phase
    case Idle => true
    case Sealing(content, n) => content != [] && n == |s.index| + 1
    case Truncating(content, n) => n == |s.index| + 1 && Pending(s) && s.shards[n] == content
    case Indexing(n) => n == |s.index| + 1 && Pending(s) && !s.due
    case Reconciling(n) => n == |s.index| + 1 && Pending(s)
  }

  // The index lists the shards 1, 2, ... with their sizes, at most one sealed
  // shard is not listed yet, and it is the next one.
  ghost predicate Inv(s: State) {
    && RowsMatch(s.shards, s.index)
    && (forall n: nat :: IsSealed(s.shards, n) ==> 1 <= n <= |s.index| + 1)
    && (s.due ==> Pending(s))
    && PhaseOk(s)
  }

  lemma {:induction false} NextIsLength(shards: map<nat, Bytes>, index: seq<Row>)
    requires RowsMatch(shards, index)
    ensures NextSeal(index) == |index| + 1
    decreases |index|
  {
    if index != [] {
      var init := index[..|index| - 1];
      forall i, n | 0 <= i < |init| && n == i + 1 ensures RowOk(shards, init[i], n) {
        assert RowOk(shards, index[i], n);
      }
      NextIsLength(shards, init);
      assert RowOk(shards, index[|index| - 1], |index|);
    }
  }

  lemma StepKeepsSealed(s: State, a: Action, t: State)
    requires Inv(s) && Next(s, a) == Some(t)
    ensures SealedKept(s.shards, t.shards)
    ensures forall n: nat :: IsSealed(t.shards, n) ==> IsSealed(s.shards, n) || n == |s.index| + 1
  {
  }

  lemma StepKeepsInv(s: State, a: Action, t: State)
    requires Inv(s) && Next(s, a) == Some(t)
    ensures Inv(t) && SealedKept(s.shards, t.shards)
  {
    NextIsLength(s.shards, s.index);
    StepKeepsSealed(s, a, t);
    RowsStay(s.shards, t.shards, s.index);
    if a.PublishesRow? {
      RowAdded(s.shards, s.index);
    }
  }

  // Over all runs, crashes anywhere: the invariant, and no sealed shard is ever
  // changed or lost.
  lemma {:induction false} RunKeepsShards(s: State, actions: seq<Action>, t: State)
    requires Inv(s) && Run(s, actions) == Some(t)
    ensures Inv(t) && SealedKept(s.shards, t.shards)
    decreases |actions|
  {
    if actions != [] {
      var init := actions[..|actions| - 1];
      RunKeepsShards(s, init, Run(s, init).value);
      StepKeepsInv(Run(s, init).value, actions[|actions| - 1], t);
    }
  }

  // ---- the document ----------------------------------------------------------

  // The shards 1 to n in sequence; an absent or empty one adds nothing.
  function Concat(shards: map<nat, Bytes>, n: nat): Bytes {
    if n == 0 then [] else Concat(shards, n - 1) + if n in shards then shards[n] else []
  }

  // What a reader of all shards and then the artifact gets.
  function OnDisk(s: State): Bytes {
    Concat(s.shards, |s.index| + 1) + s.canonical
  }

  // The part of the history that has been rolled away.
  function Past(s: State): Bytes {
    Concat(s.shards, if s.due then |s.index| else |s.index| + 1)
  }

  // Every byte written and kept, once.
  function Document(s: State): Bytes {
    Past(s) + s.canonical
  }

  lemma {:induction false} ConcatSame(a: map<nat, Bytes>, b: map<nat, Bytes>, n: nat)
    requires forall k: nat :: 1 <= k <= n ==> (IsSealed(a, k) <==> IsSealed(b, k)) && (IsSealed(a, k) ==> a[k] == b[k])
    ensures Concat(a, n) == Concat(b, n)
    decreases n
  {
    if n > 0 {
      ConcatSame(a, b, n - 1);
    }
  }

  // No shard lies beyond the next one.
  lemma {:induction false} NothingBeyond(s: State, n: nat)
    requires Inv(s) && n > |s.index|
    ensures Concat(s.shards, n) == Concat(s.shards, |s.index| + 1)
    decreases n
  {
    if n > |s.index| + 1 {
      NothingBeyond(s, n - 1);
      assert !IsSealed(s.shards, n);
    }
  }

  // On disk is the document, or with one shard's bytes doubled.
  lemma OnDiskIs(s: State)
    requires Inv(s)
    ensures OnDisk(s) == if s.due then Past(s) + s.shards[|s.index| + 1] + s.canonical else Document(s)
  {
  }

  // A roll truncates what it sealed, and a self-heal indexes what is not in the
  // artifact any more.
  predicate Faithful(s: State, a: Action) {
    match a
    case Truncates => s.phase.Truncating? ==> s.canonical == if s.due then s.phase.content else []
    case PublishesRow => s.phase.Reconciling? ==> !s.due
    case _ => true
  }

  lemma Cancel(a: Bytes, b: Bytes, c: Bytes)
    ensures a + b == a + c <==> b == c
  {
    assert (a + b)[|a|..] == b && (a + c)[|a|..] == c;
  }

  lemma TruncateKeepsIff(s: State, t: State)
    requires Inv(s) && Next(s, Truncates) == Some(t)
    ensures Document(t) == Document(s) <==> Faithful(s, Truncates)
  {
    var sealed, content := Concat(s.shards, |s.index|), s.phase.content;
    assert Document(t) == sealed + content + [] == sealed + content;
    if s.due {
      Cancel(sealed, s.canonical, content);
    } else {
      assert Document(s) == (sealed + content) + s.canonical;
      Cancel(sealed + content, s.canonical, []);
    }
  }

  lemma RowKeepsIff(s: State, t: State)
    requires Inv(s) && Next(s, PublishesRow) == Some(t)
    ensures Document(t) == Document(s) <==> Faithful(s, PublishesRow)
  {
    assert IsSealed(t.shards, |t.index|) && !IsSealed(t.shards, |t.index| + 1);
    assert Concat(t.shards, |t.index| + 1) == Concat(t.shards, |t.index|);
    if s.due {
      assert |Document(t)| > |Document(s)|;
    }
  }

  lemma OtherKeeps(s: State, a: Action, t: State)
    requires Inv(s) && Next(s, a) == Some(t) && !a.AgentWrites? && !a.Truncates? && !a.PublishesRow?
    ensures Document(t) == Document(s)
  {
    NextIsLength(s.shards, s.index);
    match a {
      case PlantEmpty(n) =>
        ConcatSame(s.shards, t.shards, |s.index| + 1);
        ConcatSame(s.shards, t.shards, |s.index|);
      case RollPublishes =>
        if t.due && !s.due {
          assert !IsSealed(s.shards, |s.index| + 1);
          assert Concat(s.shards, |s.index| + 1) == Concat(s.shards, |s.index|);
        }
        ConcatSame(s.shards, t.shards, |s.index|);
      case _ =>
    }
  }

  // Short of an agent's write, a step keeps every byte, none lost and none twice,
  // exactly when it is faithful.
  lemma StepKeepsDocumentIff(s: State, a: Action, t: State)
    requires Inv(s) && Next(s, a) == Some(t) && !a.AgentWrites?
    ensures Document(t) == Document(s) <==> Faithful(s, a)
  {
    match a {
      case Truncates => TruncateKeepsIff(s, t);
      case PublishesRow => RowKeepsIff(s, t);
      case _ => OtherKeeps(s, a, t);
    }
  }

  // What has been rolled away is only ever added to.
  lemma PastGrows(s: State, a: Action, t: State)
    requires Inv(s) && Next(s, a) == Some(t)
    ensures Past(s) <= Past(t)
    ensures a.AgentWrites? ==> Document(t) == Past(s) + a.content
  {
    NextIsLength(s.shards, s.index);
    StepKeepsInv(s, a, t);
    ConcatSame(s.shards, t.shards, |s.index|);
    if a.PlantEmpty? {
      ConcatSame(s.shards, t.shards, |s.index| + 1);
    }
    if a.PublishesRow? {
      assert !IsSealed(t.shards, |t.index| + 1);
    }
    if a.RollPublishes? && !IsSealed(s.shards, |s.index| + 1) {
      assert Concat(s.shards, |s.index| + 1) == Concat(s.shards, |s.index|);
    }
  }

  // ---- gated runs: what the code promises ------------------------------------

  // The gate heals before it lets a write through, and no roll is under way then.
  predicate Quiet(s: State) {
    s.phase.Idle? && !Pending(s)
  }

  ghost predicate Gated(s: State, actions: seq<Action>)
    decreases |actions|
  {
    actions == [] ||
    var init, last := actions[..|actions| - 1], actions[|actions| - 1];
    Gated(s, init) && (last.AgentWrites? && Run(s, init).Some? ==> Quiet(Run(s, init).value))
  }

  // How far a roll came can be read off the artifact: the pending shard's bytes
  // are still in it, or it is empty.
  ghost predicate Readable(s: State) {
    && (Pending(s) ==> s.canonical == if s.due then s.shards[|s.index| + 1] else [])
    && (s.phase.Sealing? ==> s.canonical == s.phase.content)
    && (s.phase.Truncating? ==> s.due)
    && (s.phase.Reconciling? ==> !s.due)
  }

  lemma ReadableStep(s: State, a: Action, t: State)
    requires Inv(s) && Readable(s) && Next(s, a) == Some(t)
    requires a.AgentWrites? ==> Quiet(s)
    ensures Readable(t)
    ensures !a.AgentWrites? ==> Faithful(s, a)
  {
    NextIsLength(s.shards, s.index);
    StepKeepsInv(s, a, t);
    if a.PublishesRow? {
      assert !IsSealed(t.shards, |t.index| + 1);
    }
  }

  // Whatever the crash points, the failures and the later self-heals: as long as
  // writes come through the gate, the document changes by the agents' writes only,
  // and what is on disk is the document, or the document with the bytes of a roll
  // that stopped before its truncate twice.
  lemma {:induction false} GatedRunKeepsDocument(canonical: Bytes, actions: seq<Action>, t: State)
    requires Run(Start(canonical), actions) == Some(t) && Gated(Start(canonical), actions)
    ensures Inv(t) && Readable(t)
    ensures actions != [] && !actions[|actions| - 1].AgentWrites? ==>
              Document(t) == Document(Run(Start(canonical), actions[..|actions| - 1]).value)
    ensures OnDisk(t) == if t.due then Document(t) + t.canonical else Document(t)
    decreases |actions|
  {
    if actions != [] {
      var init, last := actions[..|actions| - 1], actions[|actions| - 1];
      var s := Run(Start(canonical), init).value;
      GatedRunKeepsDocument(canonical, init, s);
      ReadableStep(s, last, t);
      StepKeepsInv(s, last, t);
      if !last.AgentWrites? {
        StepKeepsDocumentIff(s, last, t);
      }
    }
    OnDiskIs(t);
  }

  // ---- one self-heal, uninterrupted --------------------------------------------

  function HealActions(s: State): seq<Action> {
    var n := NextSeal(s.index);
    if !IsSealed(s.shards, n) then [HealCompares]
    else if s.shards[n] == s.canonical then [HealCompares, Truncates, PublishesRow]
    else [HealCompares, PublishesRow]
  }

  function Healed(s: State): State
    requires Inv(s)
  {
    var n := NextSeal(s.index);
    if !IsSealed(s.shards, n) then s
    else State(if s.shards[n] == s.canonical then [] else s.canonical, s.shards,
               s.index + [Row(n, |s.shards[n]|)], s.phase, false)
  }

  lemma RunSnoc(s: State, actions: seq<Action>, t: State, a: Action)
    requires Run(s, actions) == Some(t)
    ensures Run(s, actions + [a]) == Next(t, a)
  {
    assert (actions + [a])[..|actions|] == actions;
  }

  lemma RunTwo(s: State, a: Action, t: State, b: Action, u: State)
    requires Next(s, a) == Some(t) && Next(t, b) == Some(u)
    ensures Run(s, [a]) == Some(t) && Run(s, [a, b]) == Some(u)
  {
    RunSnoc(s, [], s, a);
    RunSnoc(s, [a], t, b);
    assert [] + [a] == [a] && [a] + [b] == [a, b];
  }

  lemma RunThree(s: State, a: Action, t: State, b: Action, u: State, c: Action, v: State)
    requires Next(s, a) == Some(t) && Next(t, b) == Some(u) && Next(u, c) == Some(v)
    ensures Run(s, [a, b, c]) == Some(v)
  {
    RunTwo(s, a, t, b, u);
    RunSnoc(s, [a, b], u, c);
    assert [a, b] + [c] == [a, b, c];
  }

  lemma HealRuns(s: State)
    requires Inv(s) && s.phase.Idle?
    ensures Run(s, HealActions(s)) == Some(Healed(s))
  {
    var n := NextSeal(s.index);
    NextIsLength(s.shards, s.index);
    if !IsSealed(s.shards, n) {
      RunTwo(s, HealCompares, s, HealCompares, s);
    } else if s.shards[n] == s.canonical {
      var t := s.(phase := Truncating(s.shards[n], n));
      var u := t.(canonical := [], phase := Indexing(n), due := false);
      RunThree(s, HealCompares, t, Truncates, u, PublishesRow, Healed(s));
    } else {
      RunTwo(s, HealCompares, s.(phase := Reconciling(n)), PublishesRow, Healed(s));
    }
  }

  // A self-heal leaves nothing pending and takes nothing out of the artifact that
  // no shard holds. It restores exactly the document if and only if the artifact
  // still tells how far the roll came: it is the shard's bytes when the truncate is
  // due, and not when it was done.
  lemma HealExact(s: State)
    requires Inv(s) && s.phase.Idle?
    ensures Inv(Healed(s)) && !Pending(Healed(s)) && !Healed(s).due
    ensures Healed(s).canonical != s.canonical ==>
              Pending(s) && Healed(s).canonical == [] && s.shards[|s.index| + 1] == s.canonical
    ensures OnDisk(Healed(s)) == Document(s) <==>
            (Pending(s) ==> (s.due <==> s.shards[|s.index| + 1] == s.canonical))
  {
    HealRuns(s);
    RunKeepsShards(s, HealActions(s), Healed(s));
    NextIsLength(s.shards, s.index);
    var t, n := Healed(s), |s.index| + 1;
    if Pending(s) {
      assert !IsSealed(t.shards, n + 1);
      assert Concat(t.shards, n + 1) == Concat(t.shards, n);
      var sealed, p := Concat(s.shards, |s.index|), s.shards[n];
      assert OnDisk(t) == sealed + p + t.canonical;
      if s.due {
        assert Document(s) == sealed + s.canonical;
        if p == s.canonical {
          assert sealed + p + [] == sealed + p;
        } else {
          assert |OnDisk(t)| > |Document(s)|;
        }
      } else {
        assert Document(s) == sealed + p + s.canonical;
        if p == s.canonical {
          assert |OnDisk(t)| < |Document(s)|;
        }
      }
    } else {
      OnDiskIs(s);
    }
  }

  // Sealed, and the dispatcher died before the truncate.
  function SealedOnly(text: Bytes): State {
    State(text, map[1 := text], [], Idle, true)
  }

  lemma RollDiesAfterSeal(text: Bytes)
    requires text != []
    ensures Run(Start(text), [RollReads, RollPublishes, Crash]) == Some(SealedOnly(text))
  {
    var sealing := Start(text).(phase := Sealing(text, 1));
    var sealed := State(text, map[1 := text], [], Truncating(text, 1), true);
    RunThree(Start(text), RollReads, sealing, RollPublishes, sealed, Crash, SealedOnly(text));
  }

  // A write let through between a seal and its truncate: the self-heal takes the
  // roll for finished, and the sealed bytes stay in the history beside whatever
  // the write kept of them.
  lemma UngatedWriteDoubles(text: Bytes, more: Bytes)
    requires text != [] && more != []
    ensures Run(Start(text), [RollReads, RollPublishes, Crash]) == Some(SealedOnly(text))
    ensures var t := SealedOnly(text).(canonical := text + more);
            && Next(SealedOnly(text), AgentWrites(text + more)) == Some(t)
            && Inv(t) && Document(t) == text + more && OnDisk(Healed(t)) == text + (text + more)
  {
    RollDiesAfterSeal(text);
    HealsDoubled(text, more);
  }

  lemma ConcatOfOne(text: Bytes)
    ensures var shards: map<nat, Bytes> := map[1 := text];
            Concat(shards, 0) == [] && Concat(shards, 1) == text && Concat(shards, 2) == text
  {
    var shards: map<nat, Bytes> := map[1 := text];
    assert Concat(shards, 1) == Concat(shards, 0) + text;
  }

  lemma HealsDoubled(text: Bytes, more: Bytes)
    requires text != [] && more != []
    ensures var t := SealedOnly(text).(canonical := text + more);
            Inv(t) && Document(t) == text + more && OnDisk(Healed(t)) == text + (text + more)
  {
    var t := SealedOnly(text).(canonical := text + more);
    assert |text + more| > |text|;
    ConcatOfOne(text);
    assert Healed(t) == State(text + more, t.shards, [Row(1, |text|)], Idle, false);
  }

  // And one that lands there while the roll goes on is gone: the truncate takes it.
  lemma WriteInsideRollIsLost(text: Bytes, other: Bytes)
    requires text != []
    ensures exists t ::
              && Run(Start(text), [RollReads, RollPublishes, AgentWrites(other), Truncates, PublishesRow]) == Some(t)
              && t.phase.Idle? && OnDisk(t) == text
  {
    var sealing := Start(text).(phase := Sealing(text, 1));
    var sealed := State(text, map[1 := text], [], Truncating(text, 1), true);
    var written := sealed.(canonical := other);
    var truncated := State([], map[1 := text], [], Indexing(1), false);
    var done := State([], map[1 := text], [Row(1, |text|)], Idle, false);
    RunThree(Start(text), RollReads, sealing, RollPublishes, sealed, AgentWrites(other), written);
    RunSnoc(Start(text), [RollReads, RollPublishes, AgentWrites(other)], written, Truncates);
    var four := [RollReads, RollPublishes, AgentWrites(other), Truncates];
    assert [RollReads, RollPublishes, AgentWrites(other)] + [Truncates] == four;
    RunSnoc(Start(text), four, truncated, PublishesRow);
    assert four + [PublishesRow] == [RollReads, RollPublishes, AgentWrites(other), Truncates, PublishesRow];
    assert Concat(done.shards, 0) == [] && Concat(done.shards, 1) == text && Concat(done.shards, 2) == text;
  }

  // ---- artifacts that are only appended to ---------------------------------------

  ghost predicate OnlyAppends(s: State, actions: seq<Action>)
    decreases |actions|
  {
    actions == [] ||
    var init, last := actions[..|actions| - 1], actions[|actions| - 1];
    OnlyAppends(s, init) && (last.AgentWrites? && Run(s, init).Some? ==> Run(s, init).value.canonical <= last.content)
  }

  // The bytes the agents appended, in order.
  function Written(s: State, actions: seq<Action>): Bytes
    decreases |actions|
  {
    if actions == [] then []
    else
      var init, last := actions[..|actions| - 1], actions[|actions| - 1];
      Written(s, init) +
      if last.AgentWrites? && Run(s, init).Some? && Run(s, init).value.canonical <= last.content
      then last.content[|Run(s, init).value.canonical|..] else []
  }

  lemma AppendStep(s: State, content: Bytes, t: State)
    requires Inv(s) && Next(s, AgentWrites(content)) == Some(t) && s.canonical <= content
    ensures Document(t) == Document(s) + content[|s.canonical|..]
  {
    assert content == s.canonical + content[|s.canonical|..];
  }

  function Suffix(s: State, a: Action): Bytes {
    if a.AgentWrites? && s.canonical <= a.content then a.content[|s.canonical|..] else []
  }

  lemma WrittenSnoc(s0: State, actions: seq<Action>, s: State)
    requires actions != [] && Run(s0, actions[..|actions| - 1]) == Some(s)
    ensures Written(s0, actions) == Written(s0, actions[..|actions| - 1]) + Suffix(s, actions[|actions| - 1])
  {
  }

  lemma WrittenGrows(s0: State, actions: seq<Action>, s: State, first: Bytes, document: Bytes)
    requires actions != [] && Run(s0, actions[..|actions| - 1]) == Some(s)
    requires document == first + Written(s0, actions[..|actions| - 1])
    ensures document + Suffix(s, actions[|actions| - 1]) == first + Written(s0, actions)
  {
    WrittenSnoc(s0, actions, s);
    var before, more := Written(s0, actions[..|actions| - 1]), Suffix(s, actions[|actions| - 1]);
    assert (first + before) + more == first + (before + more);
  }

  lemma DocumentStep(s: State, a: Action, t: State)
    requires Inv(s) && Next(s, a) == Some(t)
    requires a.AgentWrites? ==> s.canonical <= a.content
    requires !a.AgentWrites? ==> Document(t) == Document(s)
    ensures Document(t) == Document(s) + Suffix(s, a)
  {
    if a.AgentWrites? {
      AppendStep(s, a.content, t);
    }
  }

  // Every byte ever appended is there, in order and once: in the sealed shards in
  // sequence and then the artifact, as soon as no truncate is due.
  lemma {:induction false} EveryByteOnce(canonical: Bytes, actions: seq<Action>, t: State)
    requires Run(Start(canonical), actions) == Some(t)
    requires Gated(Start(canonical), actions) && OnlyAppends(Start(canonical), actions)
    ensures Document(t) == canonical + Written(Start(canonical), actions)
    ensures !t.due ==> OnDisk(t) == canonical + Written(Start(canonical), actions)
    decreases |actions|
  {
    GatedRunKeepsDocument(canonical, actions, t);
    if actions == [] {
      assert Concat(t.shards, 1) == Concat(t.shards, 0) == [];
      assert Document(t) == canonical == canonical + [];
    } else {
      var init, last := actions[..|actions| - 1], actions[|actions| - 1];
      var s := Run(Start(canonical), init).value;
      GatedRunKeepsDocument(canonical, init, s);
      EveryByteOnce(canonical, init, s);
      DocumentStep(s, last, t);
      WrittenGrows(Start(canonical), actions, s, canonical, Document(s));
    }
  }

  // ---- the operations as the dispatcher performs them ------------------------------

  datatype RollError =
    | SealWriteFailed
    | SealedShardAlreadyExists
    | TruncateFailedAfterSeal
    | IndexPublishFailedAfterTruncate

  // Without any agent's write the actions lead from s to t.
  ghost predicate Leads(s: State, actions: seq<Action>, t: State) {
    Run(s, actions) == Some(t) && Inv(t) && forall i :: 0 <= i < |actions| ==> !actions[i].AgentWrites?
  }

  lemma NoAgentSnoc(done: seq<Action>, a: Action)
    requires !a.AgentWrites? && forall i :: 0 <= i < |done| ==> !done[i].AgentWrites?
    ensures forall i :: 0 <= i < |done + [a]| ==> !(done + [a])[i].AgentWrites?
  {
  }

  lemma Goes(s: State, done: seq<Action>, at: State, a: Action, t: State) returns (actions: seq<Action>)
    requires Leads(s, done, at) && Next(at, a) == Some(t) && !a.AgentWrites?
    ensures Leads(s, actions, t)
  {
    actions := done + [a];
    assert Run(s, actions) == Some(t) by { RunSnoc(s, done, at, a); }
    assert Inv(t) by { StepKeepsInv(at, a, t); }
    NoAgentSnoc(done, a);
  }

  class ShardStore {
    var canonical: Bytes
    var shards: map<nat, Bytes>
    var index: seq<Row>
    // Whether the last shard has yet to be truncated away; no code reads it.
    ghost var due: bool

    ghost function Snapshot(phase: Phase): State
      reads this
    {
      State(canonical, shards, index, phase, due)
    }

    constructor (canonical: Bytes)
      ensures Snapshot(Idle) == Start(canonical)
    {
      this.canonical, shards, index, due := canonical, map[], [], false;
    }

    // One roll; each flag is the fate of one file operation. A failure leaves the
    // files as they are by then.
    method ExecuteRoll(readOk: bool, sealOk: bool, truncateOk: bool, indexOk: bool)
      returns (r: Result<Option<Row>, RollError>, ghost actions: seq<Action>)
      requires Inv(Snapshot(Idle))
      modifies this
      ensures Leads(old(Snapshot(Idle)), actions, Snapshot(Idle))
      ensures if !readOk then r == Err(SealWriteFailed)
              else if old(canonical) == [] then r == Ok(None)
              else if old(Pending(Snapshot(Idle))) then r == Err(SealedShardAlreadyExists)
              else if !sealOk then r == Err(SealWriteFailed)
              else if !truncateOk then r == Err(TruncateFailedAfterSeal)
              else if !indexOk then r == Err(IndexPublishFailedAfterTruncate)
              else r.Ok? && r.value.Some?
      ensures var n := |old(index)| + 1;
              match r
              case Ok(None) => old(canonical) == [] && Snapshot(Idle) == old(Snapshot(Idle))
              case Ok(Some(row)) =>
                && row == Row(n, |old(canonical)|) && canonical == []
                && shards == old(shards)[n := old(canonical)] && index == old(index) + [row]
              case Err(SealedShardAlreadyExists) => old(Pending(Snapshot(Idle))) &&
                  Snapshot(Idle) == old(Snapshot(Idle))
              case Err(SealWriteFailed) => Snapshot(Idle) == old(Snapshot(Idle))
              case Err(TruncateFailedAfterSeal) =>
                canonical == old(canonical) && shards == old(shards)[n := canonical] && index == old(index)
              case Err(IndexPublishFailedAfterTruncate) =>
                canonical == [] && shards == old(shards)[n := old(canonical)] && index == old(index)
    {
      ghost var s := Snapshot(Idle);
      actions := [];
      if !readOk { return Err(SealWriteFailed), actions; }
      var content := canonical;
      if content == [] { return Ok(None), actions; }
      var n := NextSeal(index);
      NextIsLength(shards, index);
      actions := Goes(s, actions, s, RollReads, Snapshot(Sealing(content, n)));
      var failed;
      failed, actions := PublishSealedShard(n, content, sealOk, s, actions);
      if failed.Some? { return Err(failed.value), actions; }
      r, actions := TruncateAndPublish(n, content, truncateOk, indexOk, s, actions);
    }

    method PublishSealedShard(n: nat, content: Bytes, sealOk: bool, ghost s: State, ghost done: seq<Action>)
      returns (failed: Option<RollError>, ghost actions: seq<Action>)
      requires Leads(s, done, Snapshot(Sealing(content, n)))
      modifies this`shards, this`due
      ensures failed == if IsSealed(old(shards), n) then Some(SealedShardAlreadyExists)
                        else if !sealOk then Some(SealWriteFailed) else None
      ensures match failed
              case None =>
                shards == old(shards)[n := content] && due && Leads(s, actions, Snapshot(Truncating(content, n)))
              case Some(e) =>
                && shards == old(shards) && due == old(due) && Leads(s, actions, Snapshot(Idle))
                && ((e.SealedShardAlreadyExists? && IsSealed(shards, n)) || e.SealWriteFailed?)
    {
      if IsSealed(shards, n) {
        actions := Goes(s, done, Snapshot(Sealing(content, n)), RollPublishes, Snapshot(Idle));
        return Some(SealedShardAlreadyExists), actions;
      }
      if !sealOk {
        actions := Goes(s, done, Snapshot(Sealing(content, n)), Crash, Snapshot(Idle));
        return Some(SealWriteFailed), actions;
      }
      actions := Goes(s, done, Snapshot(Sealing(content, n)), RollPublishes,
                      State(canonical, shards[n := content], index, Truncating(content, n), true));
      shards, due := shards[n := content], true;
      failed := None;
    }

    // The last two steps, of a roll and of a self-heal that resumes one.
    method TruncateAndPublish(n: nat, content: Bytes, truncateOk: bool, indexOk: bool,
                              ghost s: State, ghost done: seq<Action>)
      returns (r: Result<Option<Row>, RollError>, ghost actions: seq<Action>)
      requires Leads(s, done, Snapshot(Truncating(content, n)))
      modifies this
      ensures Leads(s, actions, Snapshot(Idle)) && shards == old(shards)
      ensures match r
              case Ok(Some(row)) => row == Row(n, |content|) && canonical == [] && index == old(index) + [row] && !due
              case Err(TruncateFailedAfterSeal) => canonical == old(canonical) && index == old(index)
              case Err(IndexPublishFailedAfterTruncate) => canonical == [] && index == old(index)
              case _ => false
      ensures r.Ok? <==> truncateOk && indexOk
      ensures r == Err(TruncateFailedAfterSeal) <==> !truncateOk
    {
      if !truncateOk {
        actions := Goes(s, done, Snapshot(Truncating(content, n)), Crash, Snapshot(Idle));
        return Err(TruncateFailedAfterSeal), actions;
      }
      actions := Goes(s, done, Snapshot(Truncating(content, n)), Truncates,
          State([], shards, index, Indexing(n), false));
      canonical, due := [], false;
      var ok;
      ok, actions := PublishRow(n, indexOk, Indexing(n), s, actions);
      r := if ok then Ok(Some(Row(n, |content|))) else Err(IndexPublishFailedAfterTruncate);
    }

    // The index row of a shard that is there.
    method PublishRow(n: nat, indexOk: bool, ghost phase: Phase, ghost s: State, ghost done: seq<Action>)
      returns (ok: bool, ghost actions: seq<Action>)
      requires (phase == Indexing(n) || phase == Reconciling(n)) && n in shards
      requires Leads(s, done, Snapshot(phase))
      modifies this`index, this`due
      ensures ok == indexOk && Leads(s, actions, Snapshot(Idle))
      ensures if ok then index == old(index) + [Row(n, |shards[n]|)] && !due else index == old(index) && due == old(due)
    {
      ok := indexOk;
      if ok {
        var row := Row(n, |shards[n]|);
        actions := Goes(s, done, Snapshot(phase), PublishesRow, State(canonical, shards, index + [row], Idle, false));
        index, due := index + [row], false;
      } else {
        actions := Goes(s, done, Snapshot(phase), Crash, Snapshot(Idle));
      }
    }

    // Self-heal, if the probe finds a sealed shard the index does not know: resume
    // at the truncate if that shard is what the artifact holds, else take in the
    // shard that is missing from the index. An error of the probe or of the
    // comparison leaves everything as it is, and the write is not let through.
    method SelfHeal(probeOk: bool, compareOk: bool, truncateOk: bool, indexOk: bool)
      returns (ok: bool, ghost actions: seq<Action>)
      requires Inv(Snapshot(Idle))
      modifies this
      ensures Leads(old(Snapshot(Idle)), actions, Snapshot(Idle))
      ensures ok ==> Snapshot(Idle) == Healed(old(Snapshot(Idle)))
      ensures !probeOk || (!compareOk && old(Pending(Snapshot(Idle)))) ==>
                !ok && Snapshot(Idle) == old(Snapshot(Idle))
      ensures probeOk && compareOk && truncateOk && indexOk ==> ok
    {
      ghost var s := Snapshot(Idle);
      actions, ok := [], true;
      if !probeOk { return false, actions; }
      var n := NextSeal(index);
      NextIsLength(shards, index);
      var listed := set i | 0 <= i < |index| :: index[i].number;
      var unlisted := set k | k in shards && shards[k] != [] && k !in listed;
      OnlyNextUnlisted(s, listed, unlisted);
      if unlisted == {} { return; }
      if !compareOk { return false, actions; }
      if n in shards && shards[n] != [] && shards[n] == canonical {
        actions := Goes(s, actions, s, HealCompares, Snapshot(Truncating(canonical, n)));
        var r;
        r, actions := TruncateAndPublish(n, canonical, truncateOk, indexOk, s, actions);
        return r.Ok?, actions;
      }
      var k :| k in unlisted;
      actions := Goes(s, actions, s, HealCompares, Snapshot(Reconciling(n)));
      ok, actions := PublishRow(k, indexOk, Reconciling(n), s, actions);
    }
  }

  // What the index does not list is the next shard or nothing.
  lemma OnlyNextUnlisted(s: State, listed: set<nat>, unlisted: set<nat>)
    requires Inv(s)
    requires listed == set i | 0 <= i < |s.index| :: s.index[i].number
    requires unlisted == set k | k in s.shards && s.shards[k] != [] && k !in listed
    ensures unlisted == if Pending(s) then {|s.index| + 1} else {}
  {
    forall k: nat | 1 <= k <= |s.index| ensures k in listed {
      assert RowOk(s.shards, s.index[k - 1], k);
    }
    forall k | k in listed ensures k <= |s.index| {
      var i :| 0 <= i < |s.index| && s.index[i].number == k;
      assert RowOk(s.shards, s.index[i], i + 1);
    }
    forall k: nat | k in unlisted ensures k == |s.index| + 1 {
      assert IsSealed(s.shards, k);
    }
    if Pending(s) {
      assert |s.index| + 1 !in listed;
    }
  }
}
