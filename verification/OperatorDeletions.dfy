// What the log tells about an operator who deletes the marker without a record,
// over runs of the serialized machine: what is reported was deleted, and what was
// deleted is reported once.
module OperatorDeletions {
  import opened Wrappers
  import opened MarkerAgreement
  import opened MarkerLog
  import opened MarkerMachine

  predicate IsOverride(e: Event, p: Pair) {
    e.Cleared? && e.mode == OperatorOverride && e.key == p
  }

  // Step j is the operator deleting marker m from the disk.
  ghost predicate DeletedByOperator(states: seq<State>, actions: seq<Action>, j: int, m: MarkerFields) {
    0 <= j < |actions| && j < |states| && actions[j].OperatorRm? && states[j].marker == Some(m)
  }

  // The step from s to s' appends an override record for p.
  ghost predicate Reports(s: State, s': State, p: Pair) {
    exists n :: |s.log| <= n < |s'.log| && IsOverride(s'.log[n], p)
  }

  // Between the deletion at step j and state n nobody wrote the pair again and
  // no record reported it.
  ghost predicate Unreported(states: seq<State>, j: nat, n: nat, p: Pair)
    requires n < |states|
  {
    && (forall i :: j < i <= n ==> p !in MarkerKeys(states[i]))
    && (forall i :: j <= i < n ==> !Reports(states[i], states[i + 1], p))
  }

  // A step's effect on the bookkeeping for one pair.
  lemma StepRawDeleted(s: State, a: Action, s': State, p: Pair)
    requires Step(s, a, s') && p in s'.rawDeleted
    ensures !Reports(s, s', p)
    ensures if p in s.rawDeleted && s.rawDeleted[p] == s'.rawDeleted[p] then true
            else a.OperatorRm? && s.marker == Some(s'.rawDeleted[p])
  {
    match a {
      case Finished(_, _, _, _, _, _, _) =>
        assert forall n :: |s.log| <= n < |s'.log| ==> !IsOverride(s'.log[n], p);
      case PreCheck(now, k, order, readOk, _) =>
        if s.marker.None? && readOk {
          OverridesClearKeys(order, now, Unmatched(s.log[k..]));
          forall n | |s.log| <= n < |s'.log| ensures s'.log[n].key != p {
            assert s'.log[n] in Overrides(order, now);
          }
        }
      case OperatorRm(_) =>
      case Unrelated(_) =>
    }
  }

  lemma RawDeletedKey(states: seq<State>, actions: seq<Action>, n: nat, p: Pair)
    requires IsRun(states, actions) && n < |states| && p in states[n].rawDeleted
    ensures states[n].rawDeleted[p].key == p && p !in MarkerKeys(states[n])
  {
    AgreementRun(states, actions, n);
  }

  lemma {:induction false} RawDeletedHistory(states: seq<State>, actions: seq<Action>, n: nat, p: Pair) returns (j: nat)
    requires IsRun(states, actions) && n < |states|
    requires p in states[n].rawDeleted
    ensures states[n].rawDeleted[p].key == p
    ensures j < n && DeletedByOperator(states, actions, j, states[n].rawDeleted[p])
    ensures Unreported(states, j, n, p)
  {
    assert n > 0;
    RawDeletedKey(states, actions, n, p);
    assert Step(states[n - 1], actions[n - 1], states[n]);
    StepRawDeleted(states[n - 1], actions[n - 1], states[n], p);
    if DeletedByOperator(states, actions, n - 1, states[n].rawDeleted[p]) {
      j := n - 1;
    } else {
      j := RawDeletedHistory(states, actions, n - 1, p);
    }
  }

  // Only a scan with the marker absent appends an override record.
  lemma OverrideComesFromScan(s: State, a: Action, s': State, n: nat)
    requires Step(s, a, s') && |s.log| <= n < |s'.log|
    requires s'.log[n].Cleared? && s'.log[n].mode == OperatorOverride
    ensures a.PreCheck? && s.marker.None? && a.k <= |s.log| && Enumerates(a.order, Unmatched(s.log[a.k..]))
    ensures n - |s.log| < |a.order|
    ensures s'.log[n].key == a.order[n - |s.log|].key && s'.log[n].traceId == a.order[n - |s.log|].traceId
  {
  }

  // Every OPERATOR_OVERRIDE record in any run names a pair, and carries the
  // trace id, of a marker an operator really deleted at an earlier step, with
  // no later write of that pair and no earlier report of that deletion.
  lemma OverrideIsRealDeletion(states: seq<State>, actions: seq<Action>, i: nat, n: nat)
    requires IsRun(states, actions) && i < |actions|
    requires |states[i].log| <= n < |states[i + 1].log|
    requires states[i + 1].log[n].Cleared? && states[i + 1].log[n].mode == OperatorOverride
    ensures exists j, m {:trigger DeletedByOperator(states, actions, j, m)} ::
              0 <= j < i && DeletedByOperator(states, actions, j, m) && Unreported(states, j, i, m.key) &&
              m.key == states[i + 1].log[n].key && m.traceId == states[i + 1].log[n].traceId
  {
    var s, a := states[i], actions[i];
    assert Step(s, a, states[i + 1]);
    OverrideComesFromScan(s, a, states[i + 1], n);
    AgreementRun(states, actions, i);
    AgreesAfterReconcile(s, a.k, a.order, a.now);
    var f := a.order[n - |s.log|];
    var j := RawDeletedHistory(states, actions, i, f.key);
    assert DeletedByOperator(states, actions, j, s.rawDeleted[f.key]);
  }

  // Whatever a scan reports, its step appends a record for.
  lemma ScanReports(s: State, a: Action, s': State, p: Pair)
    requires Step(s, a, s') && a.PreCheck? && a.readOk && s.marker.None? && p in Keys(a.order)
    ensures Reports(s, s', p)
  {
    var j :| 0 <= j < |a.order| && a.order[j].key == p;
    assert IsOverride(s'.log[|s.log| + j], p);
  }

  lemma NothingOutstanding(s: State)
    requires Agrees(s) && s.marker.None? && s.rawDeleted.Keys == {}
    ensures s.rawDeleted == map[] && Unmatched(s.log) == map[]
  {
    assert Unmatched(s.log).Keys == {};
  }

  // A scan that reaches the whole log reports every outstanding deletion, and
  // an immediate second one, whatever its window, reports nothing.
  lemma FullScanReportsAll(states: seq<State>, actions: seq<Action>, i: nat)
    requires IsRun(states, actions) && i < |actions|
    requires actions[i].PreCheck? && actions[i].readOk && actions[i].k == 0 && states[i].marker.None?
    ensures forall p :: p in states[i].rawDeleted ==> Reports(states[i], states[i + 1], p)
    ensures states[i + 1].rawDeleted == map[]
    ensures Unmatched(states[i + 1].log) == map[]
  {
    var s, a, s' := states[i], actions[i], states[i + 1];
    assert Step(s, a, s');
    AgreementRun(states, actions, i);
    AgreesAfterReconcile(s, a.k, a.order, a.now);
    NothingOutstanding(s');
    forall p | p in s.rawDeleted ensures Reports(states[i], states[i + 1], p) {
      ScanReports(s, a, s', p);
    }
  }

  lemma SomeClear(clears: seq<Event>)
    requires clears != [] && forall e :: e in clears ==> e.Cleared?
    ensures ClearedKeys(clears) != {}
  {
    assert clears[0].key in ClearedKeys(clears);
  }

  lemma SecondPreCheckReportsNothing(s: State, a: Action, s': State, b: Action, s'': State)
    requires a.PreCheck? && b.PreCheck? && a.readOk && s.marker.None?
    requires Step(s, a, s') && Step(s', b, s'') && a.k <= b.k
    ensures s''.log == s'.log && s''.rawDeleted == s'.rawDeleted
  {
    var appended := Overrides(a.order, a.now);
    OverridesClearKeys(a.order, a.now, Unmatched(s.log[a.k..]));
    forall p | p in Unmatched(s.log[a.k..]) ensures exists e :: e in appended && e.Cleared? && e.key == p {
      assert p in ClearedKeys(appended);
    }
    if b.readOk {
      ReconcileTwice(s.log, a.k, appended, b.k);
      OverridesClearKeys(b.order, b.now, map[]);
      var again := Overrides(b.order, b.now);
      if again != [] { SomeClear(again); }
      assert s'.log + again == s'.log;
    }
  }
}
