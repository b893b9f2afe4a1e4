// The two machines of the marker agree: whatever serialized operations do,
// interleaved file calls and appends can do, by each task finishing its appends
// before the next one starts.
module MarkerRefinement {
  import opened Wrappers
  import opened MarkerLog
  import opened MarkerRaces
  import opened Outcomes
  import M = MarkerMachine

  function Base(s: State): M.State {
    M.State(s.marker, s.log, s.rawDeleted)
  }

  // A run that has led to a state in which no record is outstanding.
  ghost predicate Settles(states: seq<State>, actions: seq<Action>, m: M.State) {
    IsRun(states, actions) && AllAppended(Last(states)) && Base(Last(states)) == m
  }

  lemma Go(states: seq<State>, actions: seq<Action>, a: Action, t: State)
    returns (states': seq<State>, actions': seq<Action>)
    requires IsRun(states, actions) && Step(Last(states), a, t)
    ensures IsRun(states', actions') && Last(states') == t
  {
    states', actions' := states + [t], actions + [a];
    forall i | 0 <= i < |actions'| ensures Step(states'[i], actions'[i], states'[i + 1]) {
      if i < |actions| {
        assert Step(states[i], actions[i], states[i + 1]);
      }
    }
  }

  // The last task appends all it owes.
  lemma {:induction false} LastAppends(states: seq<State>, actions: seq<Action>)
    returns (states': seq<State>, actions': seq<Action>)
    requires IsRun(states, actions) && Last(states).owed != []
    requires forall t :: 0 <= t < |Last(states).owed| - 1 ==> Last(states).owed[t] == []
    ensures var s := Last(states);
            Settles(states', actions', M.State(s.marker, s.log + s.owed[|s.owed| - 1], s.rawDeleted))
    decreases |Last(states).owed[|Last(states).owed| - 1]|
  {
    var s := Last(states);
    var t := |s.owed| - 1;
    states', actions' := states, actions;
    if s.owed[t] == [] {
      assert s.log + [] == s.log;
    } else {
      states', actions' := Go(states, actions, Append(t), Appended(s, t));
      assert s.log + s.owed[t] == (s.log + [s.owed[t][0]]) + s.owed[t][1..];
      states', actions' := LastAppends(states', actions');
    }
  }

  lemma Notes(states: seq<State>, actions: seq<Action>, m: M.State, now: int)
    returns (states': seq<State>, actions': seq<Action>)
    requires Settles(states, actions, m)
    ensures Settles(states', actions', M.Note(m, now))
  {
    var s := Last(states);
    states', actions' := Go(states, actions, Unrelated(now), s.(log := s.log + [Other(now)]));
  }

  lemma Removes(states: seq<State>, actions: seq<Action>, m: M.State, grounds: Grounds, now: int)
    returns (states': seq<State>, actions': seq<Action>)
    requires Settles(states, actions, m) && m.marker.Some? && ChecksPass(grounds, m.marker)
    ensures Settles(states', actions', M.ClearMarker(m, if grounds.PassOf? then Revalidated else TtlExpired, now))
  {
    var a := RemoveFile(grounds, m.marker, now);
    states', actions' := Go(states, actions, a, AfterRemove(Last(states), a));
    states', actions' := LastAppends(states', actions');
  }

  lemma WritesOver(states: seq<State>, actions: seq<Action>, m: M.State, writer: M.Plugin, fields: MarkerFields,
                   now: int)
    returns (states': seq<State>, actions': seq<Action>)
    requires Settles(states, actions, m) && CodeWrites(writer, fields)
    ensures Settles(states', actions', M.WriteSeeing(m, m.marker, fields, now, true))
  {
    var a := RenameOver(writer, m.marker, fields, now);
    states', actions' := Go(states, actions, a, AfterRename(Last(states), a));
    states', actions' := LastAppends(states', actions');
    assert m.log + WriteEvents(m.marker, fields, now) ==
        m.log + M.SupersededEvents(m.marker, fields, now) + [M.WrittenEvent(fields, now)];
  }

  lemma Scans(states: seq<State>, actions: seq<Action>, m: M.State, a: M.Action, m': M.State)
    returns (states': seq<State>, actions': seq<Action>)
    requires Settles(states, actions, m) && a.PreCheck? && a.readOk && m.marker.None? && M.Step(m, a, m')
    ensures Settles(states', actions', m')
  {
    var scan := ScanLog(a.k, a.order, a.now);
    states', actions' := Go(states, actions, scan, AfterScan(Last(states), scan));
    states', actions' := LastAppends(states', actions');
  }

  lemma Finishes(states: seq<State>, actions: seq<Action>, m: M.State, a: M.Action, m': M.State)
    returns (states': seq<State>, actions': seq<Action>)
    requires Settles(states, actions, m) && a.Finished? && M.Step(m, a, m')
    ensures Settles(states', actions', m')
  {
    var noted := M.Note(m, a.now);
    states', actions' := Notes(states, actions, m, a.now);
    match M.Outcome(a) {
      case Pass =>
        if m' != noted {
          states', actions' :=
            Removes(states', actions', noted, PassOf(a.plugin, a.artifact, m.marker.value, m.marker.value), a.now);
        }
      case Fail(_) =>
      case Indeterminate(cause) =>
        var twice := M.Note(noted, a.now);
        states', actions' := Notes(states', actions', noted, a.now);
        if m' != twice {
          var fields := M.NewMarker(a.plugin.name, a.artifact, cause, a.traceId, a.now);
          states', actions' := WritesOver(states', actions', twice, a.plugin, fields, a.now);
        }
    }
  }

  lemma StepSimulated(states: seq<State>, actions: seq<Action>, m: M.State, a: M.Action, m': M.State)
    returns (states': seq<State>, actions': seq<Action>)
    requires Settles(states, actions, m) && M.Step(m, a, m')
    ensures Settles(states', actions', m')
  {
    states', actions' := states, actions;
    match a {
      case Finished(_, _, _, _, _, _, _) =>
        states', actions' := Finishes(states, actions, m, a, m');
      case PreCheck(now, _, _, readOk, _) =>
        if readOk && m.marker.None? {
          states', actions' := Scans(states, actions, m, a, m');
        } else if m' != m {
          states', actions' := Removes(states, actions, m, ExpiryAt(now), now);
        }
      case OperatorRm(_) =>
        states', actions' := Go(states, actions, OperatorRm, AfterOperator(Last(states)));
      case Unrelated(now) =>
        states', actions' := Notes(states, actions, m, now);
    }
  }

  // Every run of the serialized machine is one of the interleaved machine.
  lemma {:induction false} RunSimulated(ms: seq<M.State>, acts: seq<M.Action>, n: nat)
    returns (states: seq<State>, actions: seq<Action>)
    requires M.IsRun(ms, acts) && n < |ms|
    ensures Settles(states, actions, ms[n])
  {
    if n == 0 {
      states, actions := [INIT], [];
    } else {
      states, actions := RunSimulated(ms, acts, n - 1);
      states, actions := StepSimulated(states, actions, ms[n - 1], acts[n - 1], ms[n]);
    }
  }
}
