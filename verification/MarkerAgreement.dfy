// Log and file agree in every state that serialized marker operations and an
// operator reach.
module MarkerAgreement {
  import opened Wrappers
  import opened MarkerLog
  import opened MarkerMachine
  import opened StaleWrites

  lemma OverridesClearKeys(order: seq<MarkerFields>, now: int, open: Open)
    requires Enumerates(order, open)
    ensures forall e :: e in Overrides(order, now) ==> e.Cleared?
    ensures ClearedKeys(Overrides(order, now)) == Keys(order) == open.Keys
  {
    var events := Overrides(order, now);
    forall p ensures p in ClearedKeys(events) <==> p in Keys(order) {
      if p in Keys(order) {
        var i :| 0 <= i < |order| && order[i].key == p;
        assert events[i] in events;
      }
    }
  }

  // Reporting what any window leaves unmatched only ever reports deletions.
  lemma AgreesAfterReconcile(s: State, k: nat, order: seq<MarkerFields>, now: int)
    requires Agrees(s) && s.marker.None? && k <= |s.log|
    requires Enumerates(order, Unmatched(s.log[k..]))
    ensures Keys(order) <= s.rawDeleted.Keys
    ensures k == 0 ==> Keys(order) == s.rawDeleted.Keys
    ensures forall i :: 0 <= i < |order| ==>
              order[i].key in s.rawDeleted && SameMarker(order[i], s.rawDeleted[order[i].key])
    ensures Agrees(State(None, s.log + Overrides(order, now), s.rawDeleted - Keys(order)))
  {
    OverridesClearKeys(order, now, Unmatched(s.log[k..]));
    UnmatchedAfterClears(s.log, Overrides(order, now));
    forall p ensures p in Unmatched(s.log[k..]) ==>
        p in s.rawDeleted && SameMarker(Unmatched(s.log[k..])[p], s.rawDeleted[p])
    {
      SuffixSound(s.log, k, p);
    }
    assert k == 0 ==> s.log[k..] == s.log;
  }

  lemma PassKeepsAgreement(s: State, a: Action)
    requires Agrees(s) && a.Finished? && !Outcome(a).Indeterminate?
    ensures Agrees(AfterFinished(s, a))
  {
    AgreesAfterNote(s, a.now);
    if s.marker.Some? {
      AgreesAfterClear(Note(s, a.now), Revalidated, a.now);
    }
  }

  lemma WriteKeepsAgreement(s: State, a: Action)
    requires Agrees(s) && a.Finished? && Outcome(a).Indeterminate?
    ensures Agrees(AfterFinished(s, a))
  {
    AgreesAfterNote(s, a.now);
    AgreesAfterNote(Note(s, a.now), a.now);
    var fields := NewMarker(a.plugin.name, a.artifact, Outcome(a).cause, a.traceId, a.now);
    StaleWriteAgreement(Note(Note(s, a.now), a.now), s.marker, fields, a.now);
  }

  lemma PreCheckKeepsAgreement(s: State, a: Action, s': State)
    requires Agrees(s) && a.PreCheck? && Step(s, a, s')
    ensures Agrees(s')
  {
    if a.readOk {
      if s.marker.Some? {
        AgreesAfterClear(s, TtlExpired, a.now);
      } else {
        AgreesAfterReconcile(s, a.k, a.order, a.now);
      }
    }
  }

  lemma OperatorKeepsAgreement(s: State, now: int, s': State)
    requires Agrees(s) && Step(s, OperatorRm(now), s')
    ensures Agrees(s')
  {
  }

  lemma AgreementStep(s: State, a: Action, s': State)
    requires Agrees(s) && Step(s, a, s')
    ensures Agrees(s')
  {
    match a {
      case Finished(_, _, _, _, _, _, _) =>
        if Outcome(a).Indeterminate? {
          WriteKeepsAgreement(s, a);
        } else {
          PassKeepsAgreement(s, a);
        }
      case PreCheck(_, _, _, _, _) =>
        PreCheckKeepsAgreement(s, a, s');
      case OperatorRm(now) =>
        OperatorKeepsAgreement(s, now, s');
      case Unrelated(now) =>
        AgreesAfterNote(s, now);
    }
  }

  // In every reachable state the log and the file agree.
  lemma {:induction false} AgreementRun(states: seq<State>, actions: seq<Action>, n: nat)
    requires IsRun(states, actions) && n < |states|
    ensures Agrees(states[n])
  {
    if n > 0 {
      AgreementRun(states, actions, n - 1);
      AgreementStep(states[n - 1], actions[n - 1], states[n]);
    }
  }
}
