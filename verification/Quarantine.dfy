// What the marker is for: who may lift a quarantine, where one comes from, and for
// how long it blocks, over runs of the serialized machine.
module Quarantine {
  import opened Wrappers
  import opened MarkerLog
  import opened MarkerMachine
  import opened Outcomes
  import opened UnixPath

  // ---- quarantine safety ---------------------------------------------------

  // The plugin ran to the end, exited 0, and was shown all it asked for.
  predicate Passed(a: Action) {
    a.Finished? && a.result.Exited? && a.result.exitCode == 0 && !a.outputTooLarge
  }

  // It ran out of fuel or time, or exited 0 without having been shown everything.
  predicate CutShort(a: Action) {
    a.Finished? && (a.result.Timeout? || (a.result.Exited? && a.result.exitCode == 0 && a.outputTooLarge))
  }

  // A fail-closed PostToolUse plugin was cut short, and the file could be written.
  predicate Writes(a: Action) {
    CutShort(a) && a.plugin.policy == FailClosed && a.plugin.event == "PostToolUse" && a.ioOk
  }

  // m names the plugin and the artifact, and lasts a day.
  predicate MarkerOf(a: Action, m: MarkerFields)
    requires CutShort(a)
  {
    && m.key == Pair(a.plugin.name, a.artifact) && m.traceId == a.traceId
    && m.timestamp == a.now && m.expiresAt == Some(a.now + 86_400)
    && m.cause == match a.result
                  case Timeout(Fuel) => "fuel"
                  case Timeout(Epoch) => "epoch"
                  case _ => "output-too-large"
  }

  predicate PassLifts(a: Action, m: MarkerFields) {
    && Passed(a) && a.plugin.event == "PostToolUse" && a.plugin.name == m.key.plugin
    && (m.key.artifact == "" || SamePath(m.key.artifact, a.artifact)) && a.ioOk
  }

  // The sanctioned ways marker m can be taken off the disk.
  predicate Lifts(a: Action, m: MarkerFields) {
    || PassLifts(a, m)
    || (a.PreCheck? && m.expiresAt.Some? && m.expiresAt.value <= a.now && a.readOk && a.ioOk)
    || a.OperatorRm?
  }

  // One step removes the marker exactly when it is one of those; it puts one there
  // exactly when a fail-closed PostToolUse plugin was cut short, and then that
  // plugin's own.
  lemma QuarantineStep(s: State, a: Action, s': State)
    requires Step(s, a, s')
    ensures s.marker.Some? ==> (s'.marker.None? <==> Lifts(a, s.marker.value))
    ensures s.marker.None? ==> (s'.marker.Some? <==> Writes(a))
    ensures s'.marker.Some? && s'.marker != s.marker ==> Writes(a)
    ensures Writes(a) ==> s'.marker.Some? && MarkerOf(a, s'.marker.value)
  {
  }

  // The same on the result alone: a plugin's end lifts a quarantine only if it
  // exited 0 with nothing withheld, and a crash changes nothing.
  lemma OnlyPassLifts(s: State, a: Action, s': State)
    requires a.Finished? && Step(s, a, s')
    ensures s.marker.Some? && s'.marker.None? ==>
              a.result.Exited? && a.result.exitCode == 0 && !a.outputTooLarge
    ensures s.marker != s'.marker && s'.marker.Some? ==>
              a.result.Timeout? || (a.result.Exited? && a.result.exitCode == 0 && a.outputTooLarge)
    ensures a.result.Crashed? || (a.result.Exited? && a.result.exitCode != 0) ==> s'.marker == s.marker
  {
    QuarantineStep(s, a, s');
  }

  // The records a step leaves, but for a pre-check without a marker, which leaves
  // one operator override per pair it reports.
  function Records(marker: Option<MarkerFields>, a: Action): seq<Event>
    requires a.PreCheck? ==> marker.Some? || !a.readOk
  {
    match a
    case OperatorRm(_) => []
    case Unrelated(now) => [Other(now)]
    case PreCheck(now, _, _, _, _) =>
      if marker.Some? && Lifts(a, marker.value)
      then [Cleared(now, marker.value.key, marker.value.traceId, TtlExpired)] else []
    case Finished(now, plugin, _, _, artifact, traceId, _) =>
      if CutShort(a) then
        [Other(now), Other(now)] +
        if !Writes(a) then []
        else
          var key := Pair(plugin.name, artifact);
          var cause := if a.result.Exited? then "output-too-large"
                       else if a.result.cause.Fuel? then "fuel" else "epoch";
          (if marker.Some? && marker.value.key != key
           then [Cleared(now, marker.value.key, marker.value.traceId, Superseded)] else []) +
          [Written(now, key, cause, traceId, Some(now + 86_400))]
      else
        [Other(now)] +
        if marker.Some? && PassLifts(a, marker.value)
        then [Cleared(now, marker.value.key, marker.value.traceId, Revalidated)] else []
  }

  // Every change of the file leaves its own record, and no record without a change.
  lemma StepRecords(s: State, a: Action, s': State)
    requires Step(s, a, s') && (a.PreCheck? ==> s.marker.Some? || !a.readOk)
    ensures s'.log == s.log + Records(s.marker, a)
  {
    if a.Finished? && CutShort(a) {
      assert Outcome(a).Indeterminate?;
    }
    if a.Finished? && !CutShort(a) {
      assert !Outcome(a).Indeterminate?;
    }
  }

  // Step n takes marker m off the disk, and is allowed to.
  ghost predicate LeavesAt(states: seq<State>, actions: seq<Action>, n: int, m: MarkerFields) {
    && 0 <= n < |actions| && n + 1 < |states|
    && states[n].marker == Some(m) && states[n + 1].marker != Some(m)
    && (Lifts(actions[n], m) || Writes(actions[n]))
  }

  // Over runs: a marker that was on the disk and is not any more left it at a
  // step that is one of the sanctioned ways, or overwrote it successfully.
  lemma {:induction false} QuarantineSafety(states: seq<State>, actions: seq<Action>, i: nat, j: nat, m: MarkerFields)
    requires IsRun(states, actions) && i <= j < |states|
    requires states[i].marker == Some(m) && states[j].marker != Some(m)
    ensures exists n :: i <= n < j && LeavesAt(states, actions, n, m)
    decreases j - i
  {
    assert Step(states[i], actions[i], states[i + 1]);
    QuarantineStep(states[i], actions[i], states[i + 1]);
    if states[i + 1].marker == Some(m) {
      QuarantineSafety(states, actions, i + 1, j, m);
    } else {
      assert LeavesAt(states, actions, i, m);
    }
  }

  // ---- bounded quarantine ---------------------------------------------------

  // A marker that cannot be read does not block.
  predicate BlockIfMarkerCheck(readOk: bool, marker: Option<MarkerFields>, now: int) {
    readOk && marker.Some? && !Expired(marker.value, now)
  }

  predicate PluginBlockIfMarker(result: PluginResult, onError: OnError, readOk: bool, marker: Option<MarkerFields>,
                                now: int)
  {
    onError == BlockIfMarker && (result.Crashed? || result.Timeout?) && BlockIfMarkerCheck(readOk, marker, now)
  }

  // Step j is a successful marker write, of the plugin's own marker.
  ghost predicate WritesMarker(states: seq<State>, actions: seq<Action>, j: int, m: MarkerFields) {
    && 0 <= j < |actions| && j + 1 < |states|
    && Writes(actions[j]) && MarkerOf(actions[j], m)
    && states[j + 1].marker == Some(m)
  }

  // Whatever is on disk was put there by a successful write, and has been
  // there ever since.
  lemma {:induction false} MarkerOrigin(states: seq<State>, actions: seq<Action>, n: nat) returns (j: nat)
    requires IsRun(states, actions) && n < |states|
    requires states[n].marker.Some?
    ensures j < n && WritesMarker(states, actions, j, states[n].marker.value)
    ensures forall i :: j < i <= n ==> states[i].marker == states[n].marker
  {
    assert n > 0;
    QuarantineStep(states[n - 1], actions[n - 1], states[n]);
    if states[n - 1].marker == states[n].marker {
      j := MarkerOrigin(states, actions, n - 1);
    } else {
      j := n - 1;
    }
  }

  // And the plugin it is of can lift it: by passing on the same artifact.
  lemma OwnPassLifts(states: seq<State>, actions: seq<Action>, j: nat, n: nat, m: MarkerFields)
    requires IsRun(states, actions) && j < n < |actions| && WritesMarker(states, actions, j, m)
    requires states[n].marker == Some(m) && Passed(actions[n]) && actions[n].ioOk
    requires actions[n].plugin == actions[j].plugin && actions[n].artifact == actions[j].artifact
    ensures states[n + 1].marker.None?
  {
    assert Step(states[n], actions[n], states[n + 1]);
    QuarantineStep(states[n], actions[n], states[n + 1]);
  }

  // The crash path blocks at `now` exactly when it can read the marker and some
  // successful fail-closed write at a time t, with t <= now < t + 86400, is
  // still in place.
  lemma BoundedQuarantine(states: seq<State>, actions: seq<Action>, n: nat, readOk: bool, now: int)
    requires IsRun(states, actions) && n < |states|
    requires forall i :: 0 <= i < n ==> actions[i].now <= now
    ensures BlockIfMarkerCheck(readOk, states[n].marker, now) <==>
            readOk && exists j, m {:trigger WritesMarker(states, actions, j, m)} ::
              j < n && WritesMarker(states, actions, j, m) && states[n].marker == Some(m) &&
              actions[j].now <= now < actions[j].now + 86_400
  {
    if states[n].marker.Some? {
      var j := MarkerOrigin(states, actions, n);
      assert WritesMarker(states, actions, j, states[n].marker.value);
    }
  }

  // After a pre-check that met no I/O error a native check at any other reading
  // of the clock blocks exactly when it can read the file, the file is still
  // there and did not expire between the two readings.
  lemma CheckAfterPreCheck(s: State, a: Action, s': State, readOk: bool, now: int)
    requires a.PreCheck? && a.readOk && a.ioOk && Step(s, a, s')
    ensures BlockIfMarkerCheck(readOk, s'.marker, now) <==>
            readOk && s'.marker.Some? && !(Expired(s'.marker.value, now) && !Expired(s'.marker.value, a.now))
    ensures s'.marker == if s.marker.Some? && !Expired(s.marker.value, a.now) then s.marker else None
  {
  }
}
