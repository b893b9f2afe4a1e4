// Several dispatchers rolling and healing one artifact at the same time, one
// read or file operation each at a time, beside agents who write it. Which
// schedules lose or double bytes, and which lose index rows, is known exactly.
// Nobody else touches the shards: ShardReclaim has what an empty file at a
// shard's name adds.
module ShardRaces {
  import opened Wrappers
  import Roll = ShardRoll

  // Where one dispatcher is, with what it has read. A roll reads the artifact
  // before it computes the next number; a row is added by reading the index and
  // replacing it.
  datatype Stage =
    | Idling
    | HasContent(content: Bytes)
    | HasNumber(content: Bytes, n: nat)
    | ToTruncate(content: Bytes, n: nat)
    | ToLoad(n: nat, scanning: bool)
    | ToPublish(n: nat, scanning: bool, loaded: seq<Roll.Row>)
    | Comparing(n: nat)
    | Scanning

  // top: how many shards were sealed. due: the numbers of those whose bytes have
  // yet to be truncated out of the artifact. Both are history; no step depends on
  // them.
  datatype State =
    State(canonical: Bytes, shards: map<nat, Bytes>, index: seq<Roll.Row>, stages: seq<Stage>, top: nat, due: set<nat>)

  // A scan may take in any sealed shard: the code takes those its listing of the
  // index missed, and that listing may be stale. Stops covers a crash, an error,
  // and the end of a scan.
  datatype Action =
    | AgentWrites(content: Bytes)
    | Stops(p: nat)
    | RollReads(p: nat)
    | RollNumbers(p: nat)
    | RollPublishes(p: nat)
    | Truncates(p: nat)
    | LoadsIndex(p: nat)
    | PublishesRow(p: nat)
    | HealNumbers(p: nat)
    | HealCompares(p: nat)
    | HealScans(p: nat, n: nat)

  function Start(canonical: Bytes, dispatchers: nat): State {
    State(canonical, map[], [], seq(dispatchers, _ => Idling), 0, {})
  }

  function Goto(s: State, p: nat, stage: Stage): State
    requires p < |s.stages|
  {
    s.(stages := s.stages[p := stage])
  }

  predicate IsAt(s: State, p: nat) { p < |s.stages| }

  function RowOf(s: State, n: nat): Roll.Row
    requires n in s.shards
  {
    Roll.Row(n, |s.shards[n]|)
  }

  ghost predicate Step(s: State, a: Action, t: State) {
    match a
    case AgentWrites(content) => t == s.(canonical := content)
    case Stops(p) => IsAt(s, p) && t == Goto(s, p, Idling)
    case RollReads(p) =>
      IsAt(s, p) && s.stages[p].Idling? && s.canonical != [] && t == Goto(s, p, HasContent(s.canonical))
    case RollNumbers(p) =>
      IsAt(s, p) && s.stages[p].HasContent? && t == Goto(s, p, HasNumber(s.stages[p].content, Roll.NextSeal(s.index)))
    case RollPublishes(p) =>
      && IsAt(s, p) && s.stages[p].HasNumber?
      && var HasNumber(content, n) := s.stages[p];
         if n in s.shards then t == Goto(s, p, Idling)
         else
           t == Goto(s, p, ToTruncate(content, n)).
                (shards := s.shards[n := content], top := s.top + 1, due := s.due + {n})
    case Truncates(p) =>
      && IsAt(s, p) && s.stages[p].ToTruncate?
      && var n := s.stages[p].n; t == Goto(s, p, ToLoad(n, false)).(canonical := [], due := s.due - {n})
    case LoadsIndex(p) =>
      && IsAt(s, p) && s.stages[p].ToLoad?
      && t == Goto(s, p, ToPublish(s.stages[p].n, s.stages[p].scanning, s.index))
    case PublishesRow(p) =>
      && IsAt(s, p) && s.stages[p].ToPublish? && s.stages[p].n in s.shards
      && var ToPublish(n, scanning, loaded) := s.stages[p];
         t == Goto(s, p, if scanning then Scanning else Idling).(index := loaded + [RowOf(s, n)])
    case HealNumbers(p) => IsAt(s, p) && s.stages[p].Idling? && t == Goto(s, p, Comparing(Roll.NextSeal(s.index)))
    case HealCompares(p) =>
      && IsAt(s, p) && s.stages[p].Comparing?
      && var n := s.stages[p].n;
         if n in s.shards && s.shards[n] == s.canonical then t == Goto(s, p, ToTruncate(s.shards[n], n))
         else t == Goto(s, p, Scanning)
    case HealScans(p, n) => IsAt(s, p) && s.stages[p].Scanning? && n in s.shards && t == Goto(s, p, ToLoad(n, true))
  }

  ghost predicate IsRun(states: seq<State>, actions: seq<Action>) {
    && |states| == |actions| + 1
    && (exists canonical, dispatchers :: states[0] == Start(canonical, dispatchers))
    && forall i :: 0 <= i < |actions| ==> Step(states[i], actions[i], states[i + 1])
  }

  // ---- what every run keeps --------------------------------------------------

  // Rows name sealed shards, with their sizes.
  predicate RowsOk(shards: map<nat, Bytes>, index: seq<Roll.Row>) {
    forall k :: 0 <= k < |index| ==>
      index[k].number in shards && index[k].bytesAtSeal == |shards[index[k].number]|
  }

  predicate StageOk(s: State, stage: Stage) {
    match stage
    case Idling => true
    case HasContent(content) => content != []
    case HasNumber(content, n) => content != [] && 1 <= n <= s.top + 1
    case ToTruncate(content, n) => n in s.shards && s.shards[n] == content
    case ToLoad(n, _) => n in s.shards
    case ToPublish(n, _, loaded) => n in s.shards && RowsOk(s.shards, loaded)
    case Comparing(_) => true
    case Scanning => true
  }

  ghost predicate ShardsOk(s: State) {
    && (forall n: nat :: n in s.shards <==> 1 <= n <= s.top)
    && (forall n :: n in s.shards ==> s.shards[n] != [])
    && s.due <= s.shards.Keys
  }

  // The shards are numbered 1 to top, none is empty, and the index names some of
  // them.
  ghost predicate Inv(s: State) {
    && ShardsOk(s) && RowsOk(s.shards, s.index)
    && forall p :: 0 <= p < |s.stages| ==> StageOk(s, s.stages[p])
  }

  predicate SealedKept(s: State, t: State) {
    s.top <= t.top && forall n :: n in s.shards ==> n in t.shards && t.shards[n] == s.shards[n]
  }

  lemma {:induction false} NextSealBounded(s: State, index: seq<Roll.Row>)
    requires ShardsOk(s) && RowsOk(s.shards, index)
    ensures 1 <= Roll.NextSeal(index) <= s.top + 1
  {
    if index != [] {
      NextSealBounded(s, index[..|index| - 1]);
      assert index[|index| - 1].number in s.shards;
    }
  }

  lemma StageStaysOk(s: State, t: State, stage: Stage)
    requires StageOk(s, stage) && SealedKept(s, t)
    ensures StageOk(t, stage)
  {
  }

  // A roll's number that is free is the next one.
  lemma StepKeepsShards(s: State, a: Action, t: State)
    requires Inv(s) && Step(s, a, t)
    ensures ShardsOk(t) && SealedKept(s, t) && |t.stages| == |s.stages|
  {
    if a.RollPublishes? {
      assert StageOk(s, s.stages[a.p]);
    }
  }

  lemma ActorStaysOk(s: State, a: Action, t: State, p: nat)
    requires Inv(s) && Step(s, a, t) && p < |s.stages| && t.stages[p] != s.stages[p]
    ensures StageOk(t, t.stages[p])
  {
    assert StageOk(s, s.stages[p]);
    StepKeepsShards(s, a, t);
    NextSealBounded(s, s.index);
  }

  lemma IndexStaysOk(s: State, a: Action, t: State)
    requires Inv(s) && Step(s, a, t)
    ensures RowsOk(t.shards, t.index)
  {
    StepKeepsShards(s, a, t);
    if a.PublishesRow? {
      assert StageOk(s, s.stages[a.p]);
    }
  }

  lemma StepKeepsInv(s: State, a: Action, t: State)
    requires Inv(s) && Step(s, a, t)
    ensures Inv(t) && SealedKept(s, t)
  {
    StepKeepsShards(s, a, t);
    IndexStaysOk(s, a, t);
    forall p | 0 <= p < |t.stages| ensures StageOk(t, t.stages[p]) {
      if t.stages[p] == s.stages[p] {
        StageStaysOk(s, t, s.stages[p]);
      } else {
        ActorStaysOk(s, a, t, p);
      }
    }
  }

  // Over all interleavings the shards are numbered without gap, and no row of the
  // index names a shard that is not there or misstates its size.
  lemma {:induction false} RunKeepsInv(states: seq<State>, actions: seq<Action>, i: nat)
    requires IsRun(states, actions) && i < |states|
    ensures Inv(states[i])
  {
    if i > 0 {
      RunKeepsInv(states, actions, i - 1);
      StepKeepsInv(states[i - 1], actions[i - 1], states[i]);
    }
  }

  // And no sealed shard is ever changed or lost.
  lemma {:induction false} RunKeepsSealed(states: seq<State>, actions: seq<Action>, i: nat, j: nat)
    requires IsRun(states, actions) && i <= j < |states|
    ensures SealedKept(states[i], states[j])
    decreases j - i
  {
    if i < j {
      RunKeepsSealed(states, actions, i, j - 1);
      RunKeepsInv(states, actions, j - 1);
      StepKeepsInv(states[j - 1], actions[j - 1], states[j]);
    }
  }

  // ---- the document ----------------------------------------------------------

  // The shards above lo up to hi that are not due, in sequence.
  function Settled(shards: map<nat, Bytes>, due: set<nat>, lo: nat, hi: nat): Bytes {
    if hi <= lo then []
    else Settled(shards, due, lo, hi - 1) + if hi in shards && hi !in due then shards[hi] else []
  }

  // Every byte written and kept, once.
  function Document(s: State): Bytes {
    Settled(s.shards, s.due, 0, s.top) + s.canonical
  }

  // What a reader of all shards and then the artifact gets.
  function OnDisk(s: State): Bytes {
    Settled(s.shards, {}, 0, s.top) + s.canonical
  }

  lemma {:induction false} SettledSplit(shards: map<nat, Bytes>, due: set<nat>, lo: nat, mid: nat, hi: nat)
    requires lo <= mid <= hi
    ensures Settled(shards, due, lo, hi) == Settled(shards, due, lo, mid) + Settled(shards, due, mid, hi)
    decreases hi
  {
    if mid < hi {
      SettledSplit(shards, due, lo, mid, hi - 1);
    }
  }

  predicate SameSettled(shards: map<nat, Bytes>, due: set<nat>, shards': map<nat, Bytes>, due': set<nat>, k: nat) {
    var a, b := k in shards && k !in due, k in shards' && k !in due';
    a == b && (a ==> shards[k] == shards'[k])
  }

  lemma {:induction false} SettledSame(shards: map<nat, Bytes>, due: set<nat>, shards': map<nat, Bytes>, due': set<nat>,
                                       lo: nat, hi: nat)
    requires forall k: nat :: lo < k <= hi ==> SameSettled(shards, due, shards', due', k)
    ensures Settled(shards, due, lo, hi) == Settled(shards', due', lo, hi)
    decreases hi
  {
    if lo < hi {
      SettledSame(shards, due, shards', due', lo, hi - 1);
      assert SameSettled(shards, due, shards', due', hi);
    }
  }

  lemma {:induction false} SettledNothing(shards: map<nat, Bytes>, due: set<nat>, lo: nat, hi: nat)
    requires forall k: nat :: lo < k <= hi ==> k !in shards || k in due
    ensures Settled(shards, due, lo, hi) == []
    decreases hi
  {
    if lo < hi {
      SettledNothing(shards, due, lo, hi - 1);
    }
  }

  lemma {:induction false} MoreSettled(shards: map<nat, Bytes>, due: set<nat>, hi: nat)
    ensures |Settled(shards, {}, 0, hi)| >= |Settled(shards, due, 0, hi)|
    ensures (exists n: nat :: n in due && 0 < n <= hi && n in shards && shards[n] != []) ==>
              |Settled(shards, {}, 0, hi)| > |Settled(shards, due, 0, hi)|
    decreases hi
  {
    if hi > 0 {
      MoreSettled(shards, due, hi - 1);
    }
  }

  // On disk is the document exactly when no truncate is due.
  lemma OnDiskIsDocumentIff(s: State)
    requires Inv(s)
    ensures OnDisk(s) == Document(s) <==> s.due == {}
  {
    MoreSettled(s.shards, s.due, s.top);
    if s.due != {} {
      var n :| n in s.due;
      assert n in s.shards;
    }
  }

  // ---- one step --------------------------------------------------------------

  // Truncating shard n out of an artifact that holds x keeps every byte.
  predicate Keeps(s: State, n: nat, x: Bytes) {
    var after := Settled(s.shards, s.due, n, s.top);
    if n in s.shards && n in s.due then after + x == s.shards[n] + after else x == []
  }

  // If the shard is due, and no later one was taken out before it, the artifact
  // must hold its bytes and no others; if it is not due, nothing.
  lemma KeepsIff(s: State, n: nat, x: Bytes)
    requires Inv(s) && n in s.shards
    requires forall k :: n < k <= s.top ==> k in s.due
    ensures Keeps(s, n, x) <==> x == if n in s.due then s.shards[n] else []
  {
    SettledNothing(s.shards, s.due, n, s.top);
    assert s.shards[n] + [] == s.shards[n] && [] + x == x;
  }

  lemma DueSplit(shards: map<nat, Bytes>, due: set<nat>, n: nat, top: nat)
    requires 1 <= n <= top && n in shards
    ensures Settled(shards, due, 0, top) ==
            Settled(shards, due - {n}, 0, n - 1) + (if n in due then [] else shards[n]) +
            Settled(shards, due - {n}, n, top)
  {
    SettledSplit(shards, due, 0, n, top);
    SettledSame(shards, due, shards, due - {n}, 0, n - 1);
    SettledSame(shards, due, shards, due - {n}, n, top);
  }

  lemma TruncateDueKeepsIff(s: State, n: nat, t: State)
    requires 1 <= n <= s.top && n in s.shards && n in s.due
    requires t.shards == s.shards && t.top == s.top && t.due == s.due - {n} && t.canonical == []
    ensures Document(t) == Document(s) <==> Keeps(s, n, s.canonical)
  {
    var before, after := Settled(s.shards, t.due, 0, n - 1), Settled(s.shards, t.due, n, s.top);
    DueSplit(s.shards, s.due, n, s.top);
    DueSplit(s.shards, t.due, n, s.top);
    assert t.due - {n} == t.due;
    SettledSame(s.shards, s.due, s.shards, t.due, n, s.top);
    assert Document(s) == before + [] + after + s.canonical == before + (after + s.canonical);
    assert Document(t) == before + s.shards[n] + after + [] == before + (s.shards[n] + after);
    Roll.Cancel(before, after + s.canonical, s.shards[n] + after);
  }

  lemma TruncateKeepsIff(s: State, p: nat, t: State)
    requires Inv(s) && Step(s, Truncates(p), t)
    ensures Document(t) == Document(s) <==> Keeps(s, s.stages[p].n, s.canonical)
  {
    assert StageOk(s, s.stages[p]);
    var n := s.stages[p].n;
    if n in s.due {
      TruncateDueKeepsIff(s, n, t);
    } else {
      var all := Settled(s.shards, s.due, 0, s.top);
      assert t.due == s.due;
      assert Document(s) == all + s.canonical && Document(t) == all + [];
      Roll.Cancel(all, s.canonical, []);
    }
  }

  // Nothing but an agent's write and a truncate can change the document.
  lemma OthersKeepDocument(s: State, a: Action, t: State)
    requires Inv(s) && Step(s, a, t) && !a.AgentWrites? && !a.Truncates?
    ensures Document(t) == Document(s)
  {
    if a.RollPublishes? && s.stages[a.p].n !in s.shards {
      assert StageOk(s, s.stages[a.p]);
      SettledSame(s.shards, s.due, t.shards, t.due, 0, s.top);
    }
  }

  // ---- the schedule ------------------------------------------------------------

  predicate Changes(a: Action) { a.AgentWrites? || a.Truncates? }

  function Left(a: Action): Bytes { if a.AgentWrites? then a.content else [] }

  // Step j is the last change of the artifact between state r and step i.
  ghost predicate ChangedIn(actions: seq<Action>, r: int, i: int, j: int) {
    && 0 <= r <= j < i <= |actions| && Changes(actions[j])
    && forall k :: j < k < i ==> !Changes(actions[k])
  }

  // Shard n was made of the artifact as it was read in state r and sealed at step q.
  ghost predicate MadeFrom(states: seq<State>, actions: seq<Action>, n: nat, r: int, q: int) {
    && 0 <= r < q < |actions| && q + 1 < |states|
    && actions[r].RollReads? && actions[q] == RollPublishes(actions[r].p)
    && n !in states[q].shards && n in states[q + 1].shards
    && states[q + 1].shards[n] == states[r].canonical
  }

  // What a roll carries was the artifact when it read it.
  lemma {:induction false} ReadBy(states: seq<State>, actions: seq<Action>, i: nat, p: nat) returns (r: nat)
    requires IsRun(states, actions) && i < |states| && p < |states[i].stages|
    requires states[i].stages[p].HasContent? || states[i].stages[p].HasNumber?
    ensures r < i && actions[r] == RollReads(p) && states[r].canonical == states[i].stages[p].content
  {
    assert i > 0;
    assert Step(states[i - 1], actions[i - 1], states[i]);
    if actions[i - 1] == RollReads(p) {
      r := i - 1;
    } else {
      r := ReadBy(states, actions, i - 1, p);
    }
  }

  lemma {:induction false} Origin(states: seq<State>, actions: seq<Action>, i: nat, n: nat) returns (r: nat, q: nat)
    requires IsRun(states, actions) && i < |states| && n in states[i].shards
    ensures q < i && MadeFrom(states, actions, n, r, q)
    ensures states[q + 1].shards[n] == states[i].shards[n]
  {
    assert i > 0;
    RunKeepsInv(states, actions, i - 1);
    StepKeepsInv(states[i - 1], actions[i - 1], states[i]);
    if n in states[i - 1].shards {
      r, q := Origin(states, actions, i - 1, n);
    } else {
      q := i - 1;
      r := ReadBy(states, actions, q, actions[q].p);
    }
  }

  // The artifact after the last change, or as it was.
  lemma {:induction false} ArtifactAt(states: seq<State>, actions: seq<Action>, r: nat, i: nat)
    returns (last: Option<nat>)
    requires IsRun(states, actions) && r <= i < |states|
    ensures match last
            case None => states[i].canonical == states[r].canonical && forall k :: r <= k < i ==> !Changes(actions[k])
            case Some(j) => ChangedIn(actions, r, i, j) && states[i].canonical == Left(actions[j])
    decreases i - r
  {
    if i == r {
      last := None;
    } else {
      assert Step(states[i - 1], actions[i - 1], states[i]);
      if Changes(actions[i - 1]) {
        last := Some(i - 1);
      } else {
        last := ArtifactAt(states, actions, r, i - 1);
      }
    }
  }

  // Shard n is due, and so is every later one.
  predicate DueFrom(s: State, n: nat) {
    n in s.shards && n in s.due && forall k :: n < k <= s.top ==> k in s.due
  }

  lemma DueWhenSealed(s: State, p: nat, t: State, n: nat)
    requires Inv(s) && Step(s, RollPublishes(p), t) && n !in s.shards && n in t.shards
    ensures DueFrom(t, n)
  {
    assert StageOk(s, s.stages[p]);
  }

  lemma DueStays(s: State, a: Action, t: State, n: nat)
    requires Inv(s) && Step(s, a, t) && !Changes(a) && DueFrom(s, n)
    ensures DueFrom(t, n)
  {
    if a.RollPublishes? {
      assert StageOk(s, s.stages[a.p]);
    }
  }

  // Since the roll read it nothing changed the artifact: the shard is due, and all
  // that were sealed after it are.
  lemma {:induction false} StillDue(states: seq<State>, actions: seq<Action>, n: nat, r: nat, q: nat, i: nat)
    requires IsRun(states, actions) && MadeFrom(states, actions, n, r, q) && q < i < |states|
    requires forall k :: r <= k < i ==> !Changes(actions[k])
    ensures DueFrom(states[i], n)
    decreases i
  {
    RunKeepsInv(states, actions, i - 1);
    assert Step(states[i - 1], actions[i - 1], states[i]);
    if i - 1 > q {
      StillDue(states, actions, n, r, q, i - 1);
      DueStays(states[i - 1], actions[i - 1], states[i], n);
    } else {
      DueWhenSealed(states[q], actions[q].p, states[i], n);
    }
  }

  lemma UnchangedKeeps(states: seq<State>, actions: seq<Action>, n: nat, r: nat, q: nat, i: nat)
    requires IsRun(states, actions) && MadeFrom(states, actions, n, r, q) && q < i < |states|
    requires forall k :: r <= k < i ==> !Changes(actions[k])
    requires states[i].canonical == states[r].canonical
    requires n in states[i].shards && states[q + 1].shards[n] == states[i].shards[n]
    ensures Keeps(states[i], n, states[i].canonical)
  {
    StillDue(states, actions, n, r, q, i);
    RunKeepsInv(states, actions, i);
    KeepsIff(states[i], n, states[i].canonical);
  }

  // A truncate of shard n, by a roll or by anyone's self-heal, keeps every byte if
  // and only if the last change to the artifact since the roll that sealed n read
  // it, if there was any, left what may be truncated.
  lemma TruncateKeepsIffWindow(states: seq<State>, actions: seq<Action>, i: nat, p: nat, n: nat, r: nat, q: nat)
    requires IsRun(states, actions) && i < |actions| && actions[i] == Truncates(p)
    requires p < |states[i].stages| && states[i].stages[p].ToTruncate? && n == states[i].stages[p].n
    requires MadeFrom(states, actions, n, r, q) && q < i
    ensures Document(states[i + 1]) == Document(states[i]) <==>
            forall j :: ChangedIn(actions, r, i, j) ==> Keeps(states[i], n, Left(actions[j]))
  {
    RunKeepsInv(states, actions, i);
    assert Step(states[i], actions[i], states[i + 1]);
    TruncateKeepsIff(states[i], p, states[i + 1]);
    RunKeepsSealed(states, actions, q + 1, i);
    var last := ArtifactAt(states, actions, r, i);
    match last {
      case None =>
        UnchangedKeeps(states, actions, n, r, q, i);
      case Some(k) =>
        forall j | ChangedIn(actions, r, i, j) ensures j == k {}
    }
  }

  // ---- whole runs ----------------------------------------------------------------

  // Step i truncates a shard made of what was read in state r.
  ghost predicate TruncatesFrom(states: seq<State>, actions: seq<Action>, i: int, n: nat, r: int, q: int)
    requires |states| == |actions| + 1
  {
    && 0 <= i < |actions| && actions[i].Truncates? && IsAt(states[i], actions[i].p)
    && states[i].stages[actions[i].p].ToTruncate? && states[i].stages[actions[i].p].n == n
    && MadeFrom(states, actions, n, r, q) && q < i
  }

  ghost predicate DocumentKept(states: seq<State>, actions: seq<Action>)
    requires |states| == |actions| + 1
  {
    forall i :: 0 <= i < |actions| && !actions[i].AgentWrites? ==> Document(states[i + 1]) == Document(states[i])
  }

  // Every truncate finds the artifact as the roll of its shard read it, or changed
  // last to something that may be truncated.
  ghost predicate WindowsKeep(states: seq<State>, actions: seq<Action>)
    requires |states| == |actions| + 1
  {
    forall i, n, r, q, j {:trigger TruncatesFrom(states, actions, i, n, r, q), ChangedIn(actions, r, i, j)} ::
      TruncatesFrom(states, actions, i, n, r, q) && ChangedIn(actions, r, i, j) ==>
        Keeps(states[i], n, Left(actions[j]))
  }

  lemma TruncateHasOrigin(states: seq<State>, actions: seq<Action>, i: nat) returns (n: nat, r: nat, q: nat)
    requires IsRun(states, actions) && i < |actions| && actions[i].Truncates?
    ensures TruncatesFrom(states, actions, i, n, r, q)
  {
    assert Step(states[i], actions[i], states[i + 1]);
    RunKeepsInv(states, actions, i);
    n := states[i].stages[actions[i].p].n;
    assert StageOk(states[i], states[i].stages[actions[i].p]);
    r, q := Origin(states, actions, i, n);
  }

  // Whatever the number of dispatchers and the interleaving, crashes and self-heals
  // included, the document changes by agents' writes only if and only if every
  // truncate's window keeps.
  lemma DocumentKeptIff(states: seq<State>, actions: seq<Action>)
    requires IsRun(states, actions)
    ensures DocumentKept(states, actions) <==> WindowsKeep(states, actions)
  {
    if DocumentKept(states, actions) {
      forall i, n, r, q, j | TruncatesFrom(states, actions, i, n, r, q) && ChangedIn(actions, r, i, j)
        ensures Keeps(states[i], n, Left(actions[j]))
      {
        TruncateKeepsIffWindow(states, actions, i, actions[i].p, n, r, q);
      }
    }
    if WindowsKeep(states, actions) {
      forall i | 0 <= i < |actions| && !actions[i].AgentWrites?
        ensures Document(states[i + 1]) == Document(states[i])
      {
        RunKeepsInv(states, actions, i);
        assert Step(states[i], actions[i], states[i + 1]);
        if actions[i].Truncates? {
          var n, r, q := TruncateHasOrigin(states, actions, i);
          TruncateKeepsIffWindow(states, actions, i, actions[i].p, n, r, q);
        } else {
          OthersKeepDocument(states[i], actions[i], states[i + 1]);
        }
      }
    }
  }

  // A lock that keeps writes and other truncates out of those windows keeps every
  // byte.
  lemma DocumentKeptUnderLock(states: seq<State>, actions: seq<Action>)
    requires IsRun(states, actions)
    requires forall i, n, r, q, j {:trigger TruncatesFrom(states, actions, i, n, r, q), actions[j]} ::
               TruncatesFrom(states, actions, i, n, r, q) && r <= j < i ==> !Changes(actions[j])
    ensures DocumentKept(states, actions)
  {
    DocumentKeptIff(states, actions);
  }

  // ---- the index -----------------------------------------------------------------

  // The publisher of step i read the index in state l.
  ghost predicate LoadedAt(states: seq<State>, actions: seq<Action>, l: int, i: int) {
    && 0 <= l < i < |actions| && i < |states| && actions[i].PublishesRow?
    && actions[l] == LoadsIndex(actions[i].p)
    && forall k :: l < k < i ==> actions[k] != LoadsIndex(actions[i].p)
  }

  lemma {:induction false} LoadedBy(states: seq<State>, actions: seq<Action>, i: nat, p: nat) returns (l: nat)
    requires IsRun(states, actions) && i < |states| && p < |states[i].stages| && states[i].stages[p].ToPublish?
    ensures l < i && actions[l] == LoadsIndex(p) && states[i].stages[p].loaded == states[l].index
    ensures forall k :: l < k < i ==> actions[k] != LoadsIndex(p)
  {
    assert i > 0;
    assert Step(states[i - 1], actions[i - 1], states[i]);
    if actions[i - 1] == LoadsIndex(p) {
      l := i - 1;
    } else {
      l := LoadedBy(states, actions, i - 1, p);
    }
  }

  // A row stays in the index through a publish if and only if it was there when
  // the publisher read the index, or is the publisher's own.
  lemma RowStaysIff(states: seq<State>, actions: seq<Action>, l: nat, i: nat, row: Roll.Row)
    requires IsRun(states, actions) && LoadedAt(states, actions, l, i)
    ensures var s := states[i];
            && IsAt(s, actions[i].p) && s.stages[actions[i].p].ToPublish? && s.stages[actions[i].p].n in s.shards
            && (row in states[i + 1].index <==> row in states[l].index || row == RowOf(s, s.stages[actions[i].p].n))
  {
    assert Step(states[i], actions[i], states[i + 1]);
    var l' := LoadedBy(states, actions, i, actions[i].p);
    assert l' == l;
  }

  lemma {:induction false} IndexUnchanged(states: seq<State>, actions: seq<Action>, l: nat, i: nat)
    requires IsRun(states, actions) && l <= i < |states|
    requires forall k :: l <= k < i ==> !actions[k].PublishesRow?
    ensures states[i].index == states[l].index
    decreases i - l
  {
    if l < i {
      IndexUnchanged(states, actions, l, i - 1);
      assert Step(states[i - 1], actions[i - 1], states[i]);
    }
  }

  // A lock that keeps other publishes out from read to publish keeps every row.
  lemma {:induction false} RowsKeptUnderLock(states: seq<State>, actions: seq<Action>, i: nat, j: nat)
    requires IsRun(states, actions) && i <= j < |states|
    requires forall l, k, m {:trigger LoadedAt(states, actions, l, k), actions[m]} ::
               LoadedAt(states, actions, l, k) && l < m < k ==> !actions[m].PublishesRow?
    ensures forall row :: row in states[i].index ==> row in states[j].index
    decreases j - i
  {
    if i < j {
      RowsKeptUnderLock(states, actions, i, j - 1);
      assert Step(states[j - 1], actions[j - 1], states[j]);
      if actions[j - 1].PublishesRow? {
        var l := LoadedBy(states, actions, j - 1, actions[j - 1].p);
        assert LoadedAt(states, actions, l, j - 1);
        IndexUnchanged(states, actions, l, j - 1);
      }
    }
  }

  // ---- schedules that lose -------------------------------------------------------

  function Last<T>(items: seq<T>): T
    requires items != []
  {
    items[|items| - 1]
  }

  lemma Extend(states: seq<State>, actions: seq<Action>, a: Action, t: State)
    returns (states': seq<State>, actions': seq<Action>)
    requires IsRun(states, actions) && Step(Last(states), a, t)
    ensures states' == states + [t] && actions' == actions + [a]
    ensures IsRun(states', actions') && Last(states') == t
  {
    states', actions' := states + [t], actions + [a];
    assert states'[0] == states[0];
    forall i | 0 <= i < |actions'| ensures Step(states'[i], actions'[i], states'[i + 1]) {
      if i < |actions| {
        assert Step(states[i], actions[i], states[i + 1]);
      }
    }
  }

  // Two dispatchers, the first at stage a and the second at b.
  function Two(canonical: Bytes, shards: map<nat, Bytes>, index: seq<Roll.Row>,
               a: Stage, b: Stage, due: set<nat>): State
  {
    State(canonical, shards, index, [a, b], |shards|, due)
  }

  function Sealing(): seq<Action> { [RollReads(0), RollNumbers(0), RollPublishes(0)] }

  function Healing(): seq<Action> {
    [HealNumbers(1), HealCompares(1), Truncates(1)] + [LoadsIndex(1), PublishesRow(1)]
  }

  // The first has sealed, and not yet truncated.
  lemma FirstSeals(text: Bytes) returns (states: seq<State>, actions: seq<Action>)
    requires text != []
    ensures IsRun(states, actions) && actions == Sealing()
    ensures Last(states) == Two(text, map[1 := text], [], ToTruncate(text, 1), Idling, {1})
  {
    var s0 := Two(text, map[], [], Idling, Idling, {});
    assert Start(text, 2).stages == [Idling, Idling];
    assert s0 == Start(text, 2);
    states, actions := [s0], [];
    states, actions := Extend(states, actions, RollReads(0), Two(text, map[], [], HasContent(text), Idling, {}));
    states, actions := Extend(states, actions, RollNumbers(0), Two(text, map[], [], HasNumber(text, 1), Idling, {}));
    states, actions :=
      Extend(states, actions, RollPublishes(0), Two(text, map[1 := text], [], ToTruncate(text, 1), Idling, {1}));
  }

  // A second one's self-heal takes the bytes out of the artifact,
  lemma SecondTruncates(text: Bytes) returns (states: seq<State>, actions: seq<Action>)
    requires text != []
    ensures IsRun(states, actions) && actions == Sealing() + [HealNumbers(1), HealCompares(1), Truncates(1)]
    ensures Last(states) == Two([], map[1 := text], [], ToTruncate(text, 1), ToLoad(1, false), {})
  {
    var shards, a := map[1 := text], ToTruncate(text, 1);
    states, actions := FirstSeals(text);
    states, actions := Extend(states, actions, HealNumbers(1), Two(text, shards, [], a, Comparing(1), {1}));
    states, actions := Extend(states, actions, HealCompares(1), Two(text, shards, [], a, ToTruncate(text, 1), {1}));
    states, actions := Extend(states, actions, Truncates(1), Two([], shards, [], a, ToLoad(1, false), {}));
  }

  // and adds the row.
  lemma SecondHeals(text: Bytes) returns (states: seq<State>, actions: seq<Action>)
    requires text != []
    ensures IsRun(states, actions) && actions == Sealing() + Healing()
    ensures Last(states) == Two([], map[1 := text], [Roll.Row(1, |text|)], ToTruncate(text, 1), Idling, {})
  {
    var shards, row, a := map[1 := text], Roll.Row(1, |text|), ToTruncate(text, 1);
    states, actions := SecondTruncates(text);
    states, actions := Extend(states, actions, LoadsIndex(1), Two([], shards, [], a, ToPublish(1, false, []), {}));
    states, actions := Extend(states, actions, PublishesRow(1), Two([], shards, [row], a, Idling, {}));
  }

  // It lets its own agent write; then the first truncates, and the write is gone
  // although it came through a gate.
  lemma FirstTakesSecondsWrite(text: Bytes, other: Bytes) returns (states: seq<State>, actions: seq<Action>)
    requires text != []
    ensures IsRun(states, actions)
    ensures actions == Sealing() + Healing() + [AgentWrites(other), Truncates(0)]
    ensures OnDisk(Last(states)) == Document(Last(states)) == text
  {
    var shards, row, a := map[1 := text], Roll.Row(1, |text|), ToTruncate(text, 1);
    states, actions := SecondHeals(text);
    states, actions := Extend(states, actions, AgentWrites(other), Two(other, shards, [row], a, Idling, {}));
    states, actions := Extend(states, actions, Truncates(0), Two([], shards, [row], ToLoad(1, false), Idling, {}));
    assert Settled(shards, {}, 0, 0) == [] && Settled(shards, {}, 0, 1) == text;
  }
}
