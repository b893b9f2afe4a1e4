// Publishing one sealed shard when something lies at its name. Create is
// exclusive; an empty file there is no shard, and is looked at twice, removed, and
// replaced. Any number of publishers do this at once, one file-system call each
// at a time, and anyone may put an empty file there.
module ShardReclaim {
  import opened Wrappers

  // Where one publisher is with its content.
  datatype Stage =
    | Creating
    | Colliding
    | Staged
    | Checked
    | Unlinked
    | Published
    | Refused

  datatype State = State(file: Option<Bytes>, stages: seq<Stage>)

  // Stops covers a crash and an I/O error.
  datatype Action =
    | PlantEmpty
    | Creates(p: nat)
    | Probes(p: nat)
    | Rechecks(p: nat)
    | Unlinks(p: nat)
    | CreatesAgain(p: nat)
    | Stops(p: nat)

  function Start(file: Option<Bytes>, publishers: nat): State {
    State(file, seq(publishers, _ => Creating))
  }

  predicate Is(s: State, p: nat, stage: Stage) { p < |s.stages| && s.stages[p] == stage }

  function Goto(s: State, p: nat, stage: Stage): State
    requires p < |s.stages|
  {
    s.(stages := s.stages[p := stage])
  }

  // Contents gives each publisher's bytes; none is empty.
  predicate Step(contents: seq<Bytes>, s: State, a: Action, t: State)
    requires |contents| == |s.stages|
  {
    match a
    case PlantEmpty => s.file.None? && t == s.(file := Some([]))
    case Creates(p) =>
      && Is(s, p, Creating)
      && t == if s.file.Some? then Goto(s, p, Colliding) else Goto(s, p, Published).(file := Some(contents[p]))
    case Probes(p) => Is(s, p, Colliding) && t == Goto(s, p, if s.file == Some([]) then Staged else Refused)
    case Rechecks(p) => Is(s, p, Staged) && t == Goto(s, p, if s.file == Some([]) then Checked else Refused)
    case Unlinks(p) =>
      && Is(s, p, Checked)
      && t == if s.file.Some? then Goto(s, p, Unlinked).(file := None) else Goto(s, p, Refused)
    case CreatesAgain(p) =>
      && Is(s, p, Unlinked)
      && t == if s.file.Some? then Goto(s, p, Refused) else Goto(s, p, Published).(file := Some(contents[p]))
    case Stops(p) => p < |s.stages| && s.stages[p] != Published && t == Goto(s, p, Refused)
  }

  ghost predicate IsRun(contents: seq<Bytes>, states: seq<State>, actions: seq<Action>) {
    && (forall p :: 0 <= p < |contents| ==> contents[p] != [])
    && |states| == |actions| + 1
    && (exists file :: states[0] == Start(file, |contents|))
    && (forall i :: 0 <= i < |states| ==> |states[i].stages| == |contents|)
    && forall i :: 0 <= i < |actions| ==> Step(contents, states[i], actions[i], states[i + 1])
  }

  predicate IsSealed(s: State) { s.file.Some? && s.file.value != [] }

  // Step i put a sealed shard at the name.
  predicate Seals(states: seq<State>, i: int)
    requires 0 <= i < |states| - 1
  {
    IsSealed(states[i + 1]) && !IsSealed(states[i])
  }

  // Once sealed, always that shard.
  ghost predicate SealsStay(states: seq<State>) {
    forall i :: 0 <= i < |states| - 1 && IsSealed(states[i]) ==> states[i + 1].file == states[i].file
  }

  // Whoever was told that its shard is published finds its bytes there.
  ghost predicate Truthful(contents: seq<Bytes>, states: seq<State>) {
    forall i, p {:trigger Is(states[i], p, Published)} ::
      0 <= i < |states| && 0 <= p < |contents| && Is(states[i], p, Published) ==> states[i].file == Some(contents[p])
  }

  // ---- the window between the last look and the unlink --------------------------

  // Step c is the last look of the publisher who unlinks at step i.
  ghost predicate LastLook(states: seq<State>, actions: seq<Action>, c: int, i: int) {
    && 0 <= c < i < |actions| && |states| == |actions| + 1
    && actions[i].Unlinks? && actions[c] == Rechecks(actions[i].p)
    && states[c].file == Some([])
  }

  lemma {:induction false} LookedBy(contents: seq<Bytes>, states: seq<State>, actions: seq<Action>, i: nat, p: nat)
    returns (c: nat)
    requires IsRun(contents, states, actions) && i < |states| && Is(states[i], p, Checked)
    ensures c < i && actions[c] == Rechecks(p) && states[c].file == Some([])
  {
    assert i > 0;
    assert Step(contents, states[i - 1], actions[i - 1], states[i]);
    if actions[i - 1] == Rechecks(p) {
      c := i - 1;
    } else {
      c := LookedBy(contents, states, actions, i - 1, p);
    }
  }

  // Nothing is sealed between the last look and the unlink.
  ghost predicate Quiet(states: seq<State>, actions: seq<Action>) {
    forall c, i, j {:trigger LastLook(states, actions, c, i), Seals(states, j)} ::
      LastLook(states, actions, c, i) && c < j < i ==> !Seals(states, j)
  }

  // What is sealed now and was not before was sealed in between.
  lemma {:induction false} SealedSince(states: seq<State>, c: nat, i: nat) returns (j: nat)
    requires c <= i < |states| && !IsSealed(states[c]) && IsSealed(states[i])
    ensures c <= j < i && Seals(states, j)
    decreases i
  {
    if IsSealed(states[i - 1]) {
      j := SealedSince(states, c, i - 1);
    } else {
      j := i - 1;
    }
  }

  lemma {:induction false} StaysTill(states: seq<State>, j: nat, i: nat)
    requires SealsStay(states) && j <= i < |states| && IsSealed(states[j])
    ensures states[i].file == states[j].file
    decreases i
  {
    if j < i {
      StaysTill(states, j, i - 1);
    }
  }

  // Only an unlink takes a file away.
  lemma OnlyUnlinks(contents: seq<Bytes>, s: State, a: Action, t: State)
    requires |contents| == |s.stages| && Step(contents, s, a, t) && s.file.Some? && t.file != s.file
    ensures a.Unlinks? && Is(s, a.p, Checked) && t.file.None?
  {
  }

  lemma UnlinkTakesSealed(contents: seq<Bytes>, states: seq<State>, actions: seq<Action>, i: nat, j: nat)
    requires IsRun(contents, states, actions) && j < i < |actions| && actions[i].Unlinks? && Seals(states, j)
    ensures !SealsStay(states)
  {
    assert Step(contents, states[i], actions[i], states[i + 1]);
    if SealsStay(states) {
      StaysTill(states, j + 1, i);
    }
  }

  // No shard is ever lost if and only if none is sealed between a publisher's last
  // look and its unlink.
  lemma SealsStayIffQuiet(contents: seq<Bytes>, states: seq<State>, actions: seq<Action>)
    requires IsRun(contents, states, actions)
    ensures SealsStay(states) <==> Quiet(states, actions)
  {
    forall c, i, j | LastLook(states, actions, c, i) && c < j < i && Seals(states, j) ensures !SealsStay(states) {
      UnlinkTakesSealed(contents, states, actions, i, j);
    }
    if !SealsStay(states) {
      var i :| 0 <= i < |states| - 1 && IsSealed(states[i]) && states[i + 1].file != states[i].file;
      assert Step(contents, states[i], actions[i], states[i + 1]);
      OnlyUnlinks(contents, states[i], actions[i], states[i + 1]);
      var c := LookedBy(contents, states, actions, i, actions[i].p);
      var j := SealedSince(states, c, i);
      assert Step(contents, states[c], actions[c], states[c + 1]);
      assert LastLook(states, actions, c, i) && Seals(states, j);
    }
  }

  // ---- what publishers are told ---------------------------------------------------

  lemma {:induction false} KeptIsTruthful(contents: seq<Bytes>, states: seq<State>, actions: seq<Action>,
                                          i: nat, p: nat)
    requires IsRun(contents, states, actions) && SealsStay(states)
    requires i < |states| && p < |contents| && Is(states[i], p, Published)
    ensures states[i].file == Some(contents[p])
  {
    assert i > 0;
    assert Step(contents, states[i - 1], actions[i - 1], states[i]);
    if Is(states[i - 1], p, Published) {
      KeptIsTruthful(contents, states, actions, i - 1, p);
      assert IsSealed(states[i - 1]);
    }
  }

  // Who sealed was told so.
  lemma {:induction false} SealerIsTold(contents: seq<Bytes>, states: seq<State>, actions: seq<Action>, j: nat, i: nat)
    returns (p: nat)
    requires IsRun(contents, states, actions) && j < i < |states| && Seals(states, j)
    ensures p < |contents| && Is(states[i], p, Published)
    decreases i
  {
    assert Step(contents, states[i - 1], actions[i - 1], states[i]);
    if i - 1 > j {
      p := SealerIsTold(contents, states, actions, j, i - 1);
    } else {
      p := actions[j].p;
    }
  }

  // And that is so if and only if everyone who is told that its shard is published
  // is told the truth; then at most one is.
  lemma SealsStayIffTruthful(contents: seq<Bytes>, states: seq<State>, actions: seq<Action>)
    requires IsRun(contents, states, actions)
    ensures SealsStay(states) <==> Truthful(contents, states)
  {
    if SealsStay(states) {
      forall i, p | 0 <= i < |states| && 0 <= p < |contents| && Is(states[i], p, Published)
        ensures states[i].file == Some(contents[p])
      {
        KeptIsTruthful(contents, states, actions, i, p);
      }
    } else {
      var i :| 0 <= i < |states| - 1 && IsSealed(states[i]) && states[i + 1].file != states[i].file;
      assert Step(contents, states[i], actions[i], states[i + 1]);
      OnlyUnlinks(contents, states[i], actions[i], states[i + 1]);
      var c := LookedBy(contents, states, actions, i, actions[i].p);
      var j := SealedSince(states, c, i);
      var p := SealerIsTold(contents, states, actions, j, i + 1);
      assert Is(states[i + 1], p, Published);
    }
  }

  lemma {:induction false} OnePublished(contents: seq<Bytes>, states: seq<State>, actions: seq<Action>,
                                        i: nat, p: nat, q: nat)
    requires IsRun(contents, states, actions) && SealsStay(states)
    requires i < |states| && Is(states[i], p, Published) && Is(states[i], q, Published)
    ensures p == q
  {
    assert i > 0;
    var s := states[i - 1];
    assert Step(contents, s, actions[i - 1], states[i]);
    if Is(s, p, Published) {
      KeptIsTruthful(contents, states, actions, i - 1, p);
    }
    if Is(s, q, Published) {
      KeptIsTruthful(contents, states, actions, i - 1, q);
    }
    if Is(s, p, Published) && Is(s, q, Published) {
      OnePublished(contents, states, actions, i - 1, p, q);
    }
  }

  // ---- without empty files -----------------------------------------------------------

  lemma {:induction false} NeverEmpty(contents: seq<Bytes>, states: seq<State>, actions: seq<Action>, i: nat)
    requires IsRun(contents, states, actions) && i < |states|
    requires states[0].file != Some([]) && PlantEmpty !in actions
    ensures states[i].file != Some([])
  {
    if i > 0 {
      NeverEmpty(contents, states, actions, i - 1);
      assert Step(contents, states[i - 1], actions[i - 1], states[i]);
      assert actions[i - 1] in actions;
    }
  }

  // While nobody puts an empty file there, every interleaving keeps every shard.
  lemma NoEmptyNoLoss(contents: seq<Bytes>, states: seq<State>, actions: seq<Action>)
    requires IsRun(contents, states, actions)
    requires states[0].file != Some([]) && PlantEmpty !in actions
    ensures SealsStay(states) && Truthful(contents, states)
  {
    forall c, i | LastLook(states, actions, c, i) ensures false {
      NeverEmpty(contents, states, actions, c);
    }
    SealsStayIffQuiet(contents, states, actions);
    SealsStayIffTruthful(contents, states, actions);
  }

  // ---- a shard lost -------------------------------------------------------------------

  function Last<T>(items: seq<T>): T
    requires items != []
  {
    items[|items| - 1]
  }

  lemma Extend(contents: seq<Bytes>, states: seq<State>, actions: seq<Action>, a: Action, t: State)
    returns (states': seq<State>, actions': seq<Action>)
    requires IsRun(contents, states, actions)
    requires |t.stages| == |contents| && Step(contents, Last(states), a, t)
    ensures states' == states + [t] && actions' == actions + [a]
    ensures IsRun(contents, states', actions') && Last(states') == t
  {
    states', actions' := states + [t], actions + [a];
    assert states'[0] == states[0];
    forall i | 0 <= i < |actions'| ensures Step(contents, states'[i], actions'[i], states'[i + 1]) {
      if i < |actions| {
        assert Step(contents, states[i], actions[i], states[i + 1]);
      }
    }
  }

  function Looks(p: nat): seq<Action> { [Creates(p), Probes(p), Rechecks(p)] }

  lemma FirstLooks(contents: seq<Bytes>) returns (states: seq<State>, actions: seq<Action>)
    requires |contents| == 2 && contents[0] != [] && contents[1] != []
    ensures IsRun(contents, states, actions) && actions == Looks(0)
    ensures states[0] == Start(Some([]), 2) && Last(states) == State(Some([]), [Checked, Creating])
  {
    var empty: Option<Bytes> := Some([]);
    assert Start(empty, 2).stages == [Creating, Creating];
    states, actions := [Start(empty, 2)], [];
    states, actions := Extend(contents, states, actions, Creates(0), State(empty, [Colliding, Creating]));
    states, actions := Extend(contents, states, actions, Probes(0), State(empty, [Staged, Creating]));
    states, actions := Extend(contents, states, actions, Rechecks(0), State(empty, [Checked, Creating]));
  }

  lemma BothLook(contents: seq<Bytes>) returns (states: seq<State>, actions: seq<Action>)
    requires |contents| == 2 && contents[0] != [] && contents[1] != []
    ensures IsRun(contents, states, actions) && actions == Looks(0) + Looks(1)
    ensures states[0] == Start(Some([]), 2) && Last(states) == State(Some([]), [Checked, Checked])
  {
    var empty: Option<Bytes> := Some([]);
    states, actions := FirstLooks(contents);
    states, actions := Extend(contents, states, actions, Creates(1), State(empty, [Checked, Colliding]));
    states, actions := Extend(contents, states, actions, Probes(1), State(empty, [Checked, Staged]));
    states, actions := Extend(contents, states, actions, Rechecks(1), State(empty, [Checked, Checked]));
  }

  // Both publishers see the same empty file; the second replaces it, and the first
  // then removes the second's shard. Both are told that theirs is published.
  lemma FirstTakesSecondsShard(contents: seq<Bytes>) returns (states: seq<State>, actions: seq<Action>)
    requires |contents| == 2 && contents[0] != [] && contents[1] != []
    ensures IsRun(contents, states, actions)
    ensures actions == Looks(0) + Looks(1) + [Unlinks(1), CreatesAgain(1), Unlinks(0), CreatesAgain(0)]
    ensures states[8].file == Some(contents[1]) && Last(states) == State(Some(contents[0]), [Published, Published])
  {
    states, actions := BothLook(contents);
    states, actions := Extend(contents, states, actions, Unlinks(1), State(None, [Checked, Unlinked]));
    states, actions :=
      Extend(contents, states, actions, CreatesAgain(1), State(Some(contents[1]), [Checked, Published]));
    states, actions := Extend(contents, states, actions, Unlinks(0), State(None, [Unlinked, Published]));
    states, actions :=
      Extend(contents, states, actions, CreatesAgain(0), State(Some(contents[0]), [Published, Published]));
  }
}
