// The quarantine under interleaving. A removal is decided on reads of the
// marker and then takes whatever is on disk; which schedules take a marker that
// was not theirs to take is known exactly.
module QuarantineRaces {
  import opened Wrappers
  import opened MarkerLog
  import opened MarkerRaces
  import opened Outcomes
  import opened UnixPath
  import M = MarkerMachine
  import Q = Quarantine

  // Removing m is sanctioned: the Pass is of its plugin on its artifact, or it
  // has expired.
  predicate Sanctioned(grounds: Grounds, m: MarkerFields) {
    match grounds
    case PassOf(plugin, artifact, _, _) =>
      && m.key.plugin == plugin.name && plugin.event == "PostToolUse"
      && (m.key.artifact == "" || SamePath(m.key.artifact, artifact))
    case ExpiryAt(clock) => m.expiresAt.Some? && m.expiresAt.value <= clock
  }

  // m is a fail-closed PostToolUse plugin's own, and lasts a day.
  predicate IsOwnMarker(writer: M.Plugin, m: MarkerFields) {
    && writer.policy == FailClosed && writer.event == "PostToolUse"
    && m.key.plugin == writer.name && m.expiresAt == Some(m.timestamp + 86_400)
  }

  // Everything the removal read is what is on disk when it removes.
  predicate StillThere(s: State, a: Action)
    requires a.RemoveFile?
  {
    && s.marker.Some?
    && a.seen == s.marker
    && (a.grounds.PassOf? ==> a.grounds.nameRead == s.marker.value && a.grounds.artifactRead == s.marker.value)
  }

  lemma StillThereIsSanctioned(s: State, a: Action, s': State)
    requires a.RemoveFile? && Step(s, a, s') && StillThere(s, a)
    ensures Sanctioned(a.grounds, s.marker.value)
  {
  }

  // Step n takes m off the disk and is entitled to: an operator, a fail-closed
  // write, or a sanctioned removal.
  ghost predicate LeavesProperly(states: seq<State>, actions: seq<Action>, n: int, m: MarkerFields) {
    && 0 <= n < |actions| && n + 1 < |states|
    && states[n].marker == Some(m) && states[n + 1].marker != Some(m)
    && match actions[n]
       case OperatorRm => true
       case RenameOver(writer, _, fields, _) => IsOwnMarker(writer, fields) && states[n + 1].marker == Some(fields)
       case RemoveFile(grounds, _, _) => Sanctioned(grounds, m)
       case _ => false
  }

  predicate GoneBetween(states: seq<State>, i: int, j: int, m: MarkerFields) {
    0 <= i <= j < |states| && states[i].marker == Some(m) && states[j].marker != Some(m)
  }

  ghost predicate LeftBetween(states: seq<State>, actions: seq<Action>, i: int, j: int, m: MarkerFields) {
    exists n :: i <= n < j && LeavesProperly(states, actions, n, m)
  }

  ghost predicate QuarantineHolds(states: seq<State>, actions: seq<Action>) {
    forall i, j, m :: GoneBetween(states, i, j, m) ==> LeftBetween(states, actions, i, j, m)
  }

  // Every removal takes a marker it may take.
  ghost predicate AllSanctioned(states: seq<State>, actions: seq<Action>)
    requires |states| == |actions| + 1
  {
    forall i :: 0 <= i < |actions| && actions[i].RemoveFile? && states[i].marker.Some? ==>
      Sanctioned(actions[i].grounds, states[i].marker.value)
  }

  lemma StepLeaves(states: seq<State>, actions: seq<Action>, n: nat, m: MarkerFields)
    requires IsRun(states, actions) && n < |actions|
    requires states[n].marker == Some(m) && states[n + 1].marker != Some(m)
    requires actions[n].RemoveFile? ==> Sanctioned(actions[n].grounds, m)
    ensures LeavesProperly(states, actions, n, m)
  {
    assert Step(states[n], actions[n], states[n + 1]);
  }

  lemma {:induction false} GoneSomewhere(states: seq<State>, actions: seq<Action>, i: nat, j: nat, m: MarkerFields)
    returns (n: nat)
    requires IsRun(states, actions) && i <= j < |states|
    requires states[i].marker == Some(m) && states[j].marker != Some(m)
    ensures i <= n < j && states[n].marker == Some(m) && states[n + 1].marker != Some(m)
    decreases j - i
  {
    if states[i + 1].marker == Some(m) {
      n := GoneSomewhere(states, actions, i + 1, j, m);
    } else {
      n := i;
    }
  }

  lemma HoldsIsSanctioned(states: seq<State>, actions: seq<Action>, i: nat)
    requires IsRun(states, actions) && QuarantineHolds(states, actions) && i < |actions| && actions[i].RemoveFile?
    ensures states[i].marker.Some? && Sanctioned(actions[i].grounds, states[i].marker.value)
  {
    assert Step(states[i], actions[i], states[i + 1]);
    var m := states[i].marker.value;
    assert GoneBetween(states, i, i + 1, m);
    var n :| i <= n < i + 1 && LeavesProperly(states, actions, n, m);
  }

  lemma SanctionedHolds(states: seq<State>, actions: seq<Action>)
    requires IsRun(states, actions) && AllSanctioned(states, actions)
    ensures QuarantineHolds(states, actions)
  {
    forall i, j, m | GoneBetween(states, i, j, m) ensures LeftBetween(states, actions, i, j, m) {
      var n := GoneSomewhere(states, actions, i, j, m);
      StepLeaves(states, actions, n, m);
    }
  }

  // ---- which schedules lose it -------------------------------------------------

  ghost predicate Held(states: seq<State>, r: int, marker: Option<MarkerFields>) {
    0 <= r < |states| && states[r].marker == marker
  }

  // The removal at step i made its first deciding read in state r, and each read
  // found what was on disk: the expiry check reads once, a Pass the plugin name
  // first and the artifact later.
  ghost predicate ReadAt(states: seq<State>, a: Action, i: int, r: int)
    requires a.RemoveFile?
  {
    0 <= r <= i &&
    match a.grounds
    case ExpiryAt(_) => Held(states, r, a.seen)
    case PassOf(_, _, nameRead, artifactRead) =>
      Held(states, r, Some(nameRead)) && exists r3 :: r <= r3 <= i && Held(states, r3, Some(artifactRead))
  }

  // Step j is the last write that lands between state r and step i.
  ghost predicate WrittenIn(actions: seq<Action>, r: int, i: int, j: int) {
    && 0 <= r <= j < i <= |actions| && actions[j].RenameOver?
    && forall k :: j < k < i ==> !actions[k].RenameOver?
  }

  // The marker in state i is the last one written, and was there ever since.
  lemma {:induction false} LastWrite(states: seq<State>, actions: seq<Action>, i: nat) returns (j: nat)
    requires IsRun(states, actions) && i < |states| && states[i].marker.Some?
    ensures WrittenIn(actions, j, i, j) && states[i].marker == Some(actions[j].fields)
    ensures forall t :: j < t <= i ==> states[t].marker == states[i].marker
  {
    assert i > 0;
    assert Step(states[i - 1], actions[i - 1], states[i]);
    if actions[i - 1].RenameOver? {
      j := i - 1;
    } else {
      j := LastWrite(states, actions, i - 1);
    }
  }

  // With no write since its first read, a removal takes what it read.
  lemma UndisturbedIsSanctioned(states: seq<State>, actions: seq<Action>, i: nat, r: nat, j: nat)
    requires IsRun(states, actions) && i < |actions| && actions[i].RemoveFile? && ReadAt(states, actions[i], i, r)
    requires j < r && states[i].marker.Some? && forall t :: j < t <= i ==> states[t].marker == states[i].marker
    ensures Sanctioned(actions[i].grounds, states[i].marker.value)
  {
    assert Step(states[i], actions[i], states[i + 1]);
    if actions[i].grounds.PassOf? {
      var r3 :| r <= r3 <= i && Held(states, r3, Some(actions[i].grounds.artifactRead));
    }
  }

  // A removal is sanctioned if and only if the last write to land between its first
  // read and its file call, if any did, was of a marker it may take.
  lemma RemovalSanctionedIff(states: seq<State>, actions: seq<Action>, i: nat, r: nat)
    requires IsRun(states, actions) && i < |actions| && actions[i].RemoveFile? && ReadAt(states, actions[i], i, r)
    ensures states[i].marker.Some?
    ensures Sanctioned(actions[i].grounds, states[i].marker.value) <==>
            forall j :: WrittenIn(actions, r, i, j) ==> Sanctioned(actions[i].grounds, actions[j].fields)
  {
    assert Step(states[i], actions[i], states[i + 1]);
    var last := LastWrite(states, actions, i);
    if last < r {
      UndisturbedIsSanctioned(states, actions, i, r, last);
    } else {
      assert WrittenIn(actions, r, i, last);
    }
    forall j | WrittenIn(actions, r, i, j) ensures j == last {}
  }

  // first(i) is the first read of the removal at step i, all reads being honest.
  ghost predicate ReadsFrom(states: seq<State>, actions: seq<Action>, first: nat -> nat) {
    forall i: nat :: i < |actions| && actions[i].RemoveFile? ==> ReadAt(states, actions[i], i, first(i))
  }

  // Over runs of any interleaving the quarantine holds, every marker leaving the
  // disk properly, if and only if no write lands last in a removal's window from
  // read to file call that the removal could not have been decided on.
  lemma QuarantineHoldsIff(states: seq<State>, actions: seq<Action>, first: nat -> nat)
    requires IsRun(states, actions) && ReadsFrom(states, actions, first)
    ensures QuarantineHolds(states, actions) <==>
            forall i: nat, j :: i < |actions| && actions[i].RemoveFile? && WrittenIn(actions, first(i), i, j) ==>
              Sanctioned(actions[i].grounds, actions[j].fields)
  {
    forall i: nat | i < |actions| && actions[i].RemoveFile?
      ensures states[i].marker.Some?
      ensures Sanctioned(actions[i].grounds, states[i].marker.value) <==>
              forall j :: WrittenIn(actions, first(i), i, j) ==> Sanctioned(actions[i].grounds, actions[j].fields)
    {
      RemovalSanctionedIff(states, actions, i, first(i));
    }
    if QuarantineHolds(states, actions) {
      forall i: nat | i < |actions| && actions[i].RemoveFile?
        ensures Sanctioned(actions[i].grounds, states[i].marker.value)
      {
        HoldsIsSanctioned(states, actions, i);
      }
    } else if AllSanctioned(states, actions) {
      SanctionedHolds(states, actions);
    }
  }

  // A lock that keeps writes out of those windows keeps the quarantine.
  lemma QuarantineHoldsUnderLock(states: seq<State>, actions: seq<Action>, first: nat -> nat)
    requires IsRun(states, actions) && ReadsFrom(states, actions, first)
    requires forall i: nat, j ::
               i < |actions| && actions[i].RemoveFile? && first(i) <= j < i ==> !actions[j].RenameOver?
    ensures QuarantineHolds(states, actions)
  {
    QuarantineHoldsIff(states, actions, first);
  }

  // ---- where a marker comes from, and for how long it blocks -------------------

  ghost predicate WrittenAt(states: seq<State>, actions: seq<Action>, j: int, m: MarkerFields) {
    && 0 <= j < |actions| && j + 1 < |states|
    && actions[j].RenameOver? && actions[j].fields == m && IsOwnMarker(actions[j].writer, m)
    && states[j + 1].marker == Some(m)
  }

  // Whatever the interleaving, what is on disk is one fail-closed write's marker,
  // in place ever since.
  lemma {:induction false} RacedOrigin(states: seq<State>, actions: seq<Action>, n: nat) returns (j: nat)
    requires IsRun(states, actions) && n < |states| && states[n].marker.Some?
    ensures j < n && WrittenAt(states, actions, j, states[n].marker.value)
    ensures forall i :: j < i <= n ==> states[i].marker == states[n].marker
  {
    assert n > 0;
    assert Step(states[n - 1], actions[n - 1], states[n]);
    if states[n - 1].marker == states[n].marker {
      j := RacedOrigin(states, actions, n - 1);
    } else {
      j := n - 1;
    }
  }

  // A fail-closed write that is still in place in state n and whose marker was
  // made less than a day before `now`.
  ghost predicate LiveWrite(states: seq<State>, actions: seq<Action>, n: nat, now: int)
    requires n < |states|
  {
    exists j, m {:trigger WrittenAt(states, actions, j, m)} ::
      j < n && WrittenAt(states, actions, j, m) && states[n].marker == Some(m) && now < m.timestamp + 86_400
  }

  lemma RacedBoundedQuarantine(states: seq<State>, actions: seq<Action>, n: nat, readOk: bool, now: int)
    requires IsRun(states, actions) && n < |states|
    ensures Q.BlockIfMarkerCheck(readOk, states[n].marker, now) <==> readOk && LiveWrite(states, actions, n, now)
  {
    if states[n].marker.Some? {
      var j := RacedOrigin(states, actions, n);
      assert WrittenAt(states, actions, j, states[n].marker.value);
    }
  }

  // ---- two ways to lose it -------------------------------------------------------

  // Each read of step i found what was on disk at some moment before it, in the
  // order of the reads.
  ghost predicate HonestReads(states: seq<State>, a: Action, i: int) {
    match a
    case RenameOver(_, seen, _, _) => exists r :: r <= i && Held(states, r, seen)
    case RemoveFile(ExpiryAt(_), seen, _) => exists r :: r <= i && Held(states, r, seen)
    case RemoveFile(PassOf(_, _, nameRead, artifactRead), seen, _) =>
      exists r1, r2, r3 :: r1 <= r2 <= r3 <= i && Held(states, r1, Some(nameRead)) &&
                           Held(states, r2, seen) && Held(states, r3, Some(artifactRead))
    case ScanLog(_, _, _) => exists r :: r <= i && Held(states, r, None)
    case _ => true
  }

  ghost predicate CleanStep(states: seq<State>, a: Action, i: int) {
    0 <= i < |states| && Clean(states[i], a) && HonestReads(states, a, i) && !a.OperatorRm?
  }

  // A run that is clean, with honest reads only and no operator: log and file
  // agree throughout.
  ghost predicate CleanRun(states: seq<State>, actions: seq<Action>) {
    IsRun(states, actions) && forall i :: 0 <= i < |actions| ==> CleanStep(states, actions[i], i)
  }

  lemma CleanStays(states: seq<State>, s': State, a: Action, i: nat)
    requires CleanStep(states, a, i)
    ensures CleanStep(states + [s'], a, i)
  {
    assert (states + [s'])[i] == states[i];
    HonestStays(states, s', a, i);
  }

  lemma HonestStays(states: seq<State>, s': State, a: Action, i: nat)
    requires HonestReads(states, a, i) && i < |states|
    ensures HonestReads(states + [s'], a, i)
  {
    assert forall r, marker :: Held(states, r, marker) ==> Held(states + [s'], r, marker);
  }

  lemma RunOn(states: seq<State>, actions: seq<Action>, a: Action, s': State)
    requires IsRun(states, actions) && Step(Last(states), a, s')
    ensures IsRun(states + [s'], actions + [a])
  {
  }

  lemma CleanOn(states: seq<State>, actions: seq<Action>, a: Action, s': State)
    returns (states': seq<State>, actions': seq<Action>)
    requires CleanRun(states, actions) && Step(Last(states), a, s') && CleanStep(states, a, |actions|)
    ensures CleanRun(states', actions') && states' == states + [s'] && actions' == actions + [a]
  {
    states', actions' := states + [s'], actions + [a];
    RunOn(states, actions, a, s');
    forall i | 0 <= i < |actions'| ensures CleanStep(states', actions'[i], i) {
      CleanStays(states, s', actions'[i], i);
    }
  }

  // First one marker is written and logged, then another over it.
  lemma TwoWrites(w1: M.Plugin, m1: MarkerFields, w2: M.Plugin, m2: MarkerFields, now: int)
    returns (states: seq<State>, actions: seq<Action>)
    requires CodeWrites(w1, m1) && CodeWrites(w2, m2)
    ensures CleanRun(states, actions) && |states| == |actions| + 1
    ensures Held(states, 1, Some(m1)) && 1 < |actions|
    ensures Last(states).marker == Some(m2) && AllAppended(Last(states))
  {
    states, actions := [INIT], [];
    var s;
    states, actions, s := WrittenAndLogged(w1, m1, now);
    var rename1 := actions[0];
    assert AllAppended(INIT);
    assert Held(states, 0, None);
    SerializedIsClean(INIT, rename1, states[1]);
    assert states[1].owed == [[M.WrittenEvent(m1, now)]];
    assert Held(states, 2, Some(m1));
    assert CleanRun(states, actions);
    var rename2 := RenameOver(w2, Some(m1), m2, now);
    var s3 := AfterRename(s, rename2);
    SerializedIsClean(s, rename2, s3);
    states, actions := CleanOn(states, actions, rename2, s3);
    states, actions := AppendAll(states, actions);
    assert Held(states, 1, Some(m1));
  }

  // The pending records of the last task land.
  lemma AppendAll(states: seq<State>, actions: seq<Action>) returns (states': seq<State>, actions': seq<Action>)
    requires CleanRun(states, actions)
    ensures CleanRun(states', actions') && states <= states' && actions <= actions'
    ensures Last(states').marker == Last(states).marker && AllAppended(Last(states'))
    decreases Owing(Last(states).owed)
  {
    states', actions' := states, actions;
    var s := Last(states);
    if t: nat :| t < |s.owed| && s.owed[t] != [] {
      states', actions' := CleanOn(states, actions, Append(t), Appended(s, t));
      OwingLess(s.owed, t);
      states', actions' := AppendAll(states', actions');
    }
  }

  // A clean run may end in a removal that takes what it may not take.
  ghost predicate EndsInRemovalOf(states: seq<State>, actions: seq<Action>, remove: Action, m: MarkerFields) {
    && CleanRun(states, actions) && 0 < |actions| && actions[|actions| - 1] == remove
    && states[|actions| - 1].marker == Some(m) && states[|actions|].marker.None?
    && !QuarantineHolds(states, actions)
  }

  lemma UnsanctionedRemoval(states: seq<State>, actions: seq<Action>, remove: Action, m: MarkerFields)
    returns (states': seq<State>, actions': seq<Action>)
    requires CleanRun(states, actions) && AllAppended(Last(states)) && Last(states).marker == Some(m)
    requires remove.RemoveFile? && ChecksPass(remove.grounds, remove.seen) && HonestReads(states, remove, |actions|)
    requires remove.seen.Some? && remove.seen.value.key == m.key && !Sanctioned(remove.grounds, m)
    ensures EndsInRemovalOf(states', actions', remove, m)
  {
    SettledRemovalIsClean(Last(states), remove);
    states', actions' := CleanOn(states, actions, remove, AfterRemove(Last(states), remove));
    var n := |actions|;
    assert states'[n] == Last(states) && actions'[n] == remove;
    if QuarantineHolds(states', actions') {
      HoldsIsSanctioned(states', actions', n);
    }
  }

  lemma SettledRemovalIsClean(s: State, remove: Action)
    requires AllAppended(s) && remove.RemoveFile? && s.marker.Some?
    requires remove.seen.Some? && remove.seen.value.key == s.marker.value.key
    ensures Clean(s, remove)
  {
    assert forall e :: !Pending(s, e);
  }

  // The expiry check reads an expired marker, a writer renames a fresh one of the
  // same pair over it, and the removal takes the fresh one: a quarantine just
  // begun is gone, and log and file agree that it expired.
  lemma ExpiryTakesFreshMarker(writer: M.Plugin, m1: MarkerFields, m2: MarkerFields, now: int)
    requires CodeWrites(writer, m1) && CodeWrites(writer, m2) && m1.key == m2.key
    requires M.Expired(m1, now) && !M.Expired(m2, now)
    ensures exists states, actions :: EndsInRemovalOf(states, actions, RemoveFile(ExpiryAt(now), Some(m1), now), m2)
  {
    var states, actions := TwoWrites(writer, m1, writer, m2, now);
    states, actions := UnsanctionedRemoval(states, actions, RemoveFile(ExpiryAt(now), Some(m1), now), m2);
  }

  // p reads its own name in the marker, q renames its marker of the same artifact
  // over it, and p's removal re-reads the artifact only: p's Pass lifts q's
  // quarantine, and log and file agree on that too.
  lemma PassLiftsAnothersQuarantine(p: M.Plugin, mp: MarkerFields, q: M.Plugin, mq: MarkerFields, now: int)
    requires CodeWrites(p, mp) && CodeWrites(q, mq)
    requires p.name != q.name && mp.key.artifact == mq.key.artifact
    ensures exists states, actions ::
              EndsInRemovalOf(states, actions, RemoveFile(PassOf(p, mp.key.artifact, mp, mq), Some(mq), now), mq)
  {
    var states, actions := TwoWrites(p, mp, q, mq, now);
    var remove := RemoveFile(PassOf(p, mp.key.artifact, mp, mq), Some(mq), now);
    assert Held(states, |actions|, Some(mq));
    assert 1 <= |actions| <= |actions| <= |actions| && HonestReads(states, remove, |actions|);
    states, actions := UnsanctionedRemoval(states, actions, remove, mq);
  }
}
