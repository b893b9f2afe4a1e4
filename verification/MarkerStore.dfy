// The marker operations as the dispatcher performs them, one read, rename or
// append at a time on the marker file and the log. Each public operation is
// proved to be one step of MarkerMachine.
module MarkerStore {
  import opened Wrappers
  import opened MarkerLog
  import opened Outcomes
  import opened UnixPath
  import opened MarkerMachine
  import opened Quarantine

  class Store {
    // The parsed content of the marker file, and the decoded log.
    var marker: Option<MarkerFields>
    var log: seq<Event>
    // What an operator deleted; no executable code reads it.
    ghost var rawDeleted: Open

    ghost function Snapshot(): State
      reads this
    {
      State(marker, log, rawDeleted)
    }

    constructor ()
      ensures Snapshot() == INIT
    {
      marker, log, rawDeleted := None, [], map[];
    }

    method Emit(e: Event)
      modifies this`log
      ensures log == old(log) + [e]
    {
      log := log + [e];
    }

    // Temp write and rename; a failure of either leaves the old marker.
    method WriteIndeterminateMarker(fields: MarkerFields, ioOk: bool) returns (written: bool)
      modifies this`marker, this`rawDeleted
      ensures written == ioOk
      ensures written ==> marker == Some(fields) && rawDeleted == old(rawDeleted) - {fields.key}
      ensures !written ==> marker == old(marker) && rawDeleted == old(rawDeleted)
    {
      written := ioOk;
      if written {
        marker := Some(fields);
        rawDeleted := rawDeleted - {fields.key};
      }
    }

    method EmitSupersededIfCrossPair(existing: Option<MarkerFields>, fields: MarkerFields, now: int)
      modifies this`log
      ensures log == old(log) + SupersededEvents(existing, fields, now)
    {
      if existing.None? { return; }
      var previous := existing.value;
      if previous.key.plugin == fields.key.plugin && previous.key.artifact == fields.key.artifact { return; }
      Emit(Cleared(now, previous.key, previous.traceId, Superseded));
    }

    method EmitWriteTiedAuditEvents(written: bool, existing: Option<MarkerFields>, fields: MarkerFields, now: int)
      modifies this`log
      ensures log == if written then old(log) + SupersededEvents(existing, fields, now) + [WrittenEvent(fields, now)]
                     else old(log)
    {
      if written {
        EmitSupersededIfCrossPair(existing, fields, now);
        Emit(Written(now, fields.key, fields.cause, fields.traceId, fields.expiresAt));
      }
    }

    method DeleteMarkerIfPass(artifact: string, ioOk: bool) returns (removed: bool)
      modifies this`marker
      ensures removed == (old(marker).Some? && ioOk &&
                (old(marker).value.key.artifact == "" || SamePath(old(marker).value.key.artifact, artifact)))
      ensures marker == if removed then None else old(marker)
    {
      if marker.None? { return false; }
      var shouldClear := marker.value.key.artifact == "" || SamePath(marker.value.key.artifact, artifact);
      if !shouldClear || !ioOk { return false; }
      marker := None;
      removed := true;
    }

    // What the plugin task does after the plugin returned.
    method PluginFinished(now: int, plugin: Plugin, result: PluginResult, outputTooLarge: bool,
                          artifact: string, traceId: string, ioOk: bool)
      modifies this
      ensures var a := Finished(now, plugin, result, outputTooLarge, artifact, traceId, ioOk);
              && Step(old(Snapshot()), a, Snapshot())
              && log == old(log) + Records(old(marker), a)
              && (old(marker).Some? ==> (marker.None? <==> Lifts(a, old(marker).value)))
              && (marker != old(marker) && marker.Some? ==> Writes(a))
              && (Writes(a) ==> marker.Some? && MarkerOf(a, marker.value))
    {
      ghost var before := Snapshot();
      Emit(Other(now));
      var outcome := ClassifyOutcome(result, outputTooLarge);
      if outcome.Pass? {
        if marker.Some? && marker.value.key.plugin == plugin.name && plugin.event == POST_TOOL_USE {
          var fields := marker.value;
          var removed := DeleteMarkerIfPass(artifact, ioOk);
          if removed {
            Emit(Cleared(now, fields.key, fields.traceId, Revalidated));
          }
        }
      }
      if outcome.Indeterminate? {
        Emit(Other(now));
        if ShouldWriteMarker(outcome, plugin.policy) && plugin.event == POST_TOOL_USE {
          var fields := MarkerFields(now, Pair(plugin.name, artifact), CauseText(outcome.cause), traceId,
                                     Some(now + UNVALIDATED_MUTATION_MARKER_TTL_SECONDS));
          var existing := marker;
          var written := WriteIndeterminateMarker(fields, ioOk);
          EmitWriteTiedAuditEvents(written, existing, fields, now);
        }
      }
      ghost var a := Finished(now, plugin, result, outputTooLarge, artifact, traceId, ioOk);
      QuarantineStep(before, a, Snapshot());
      StepRecords(before, a, Snapshot());
    }

    // Err stands for an I/O error on the read or on the delete.
    method CheckAndClearExpiredMarker(now: int, readOk: bool, ioOk: bool)
      returns (cleared: Result<Option<MarkerFields>, ()>)
      modifies this
      ensures rawDeleted == old(rawDeleted)
      ensures var expired := old(marker).Some? && Expired(old(marker).value, now);
              && cleared == (if !readOk || (expired && !ioOk) then Err(())
                  else Ok(if expired then old(marker) else None))
              && Snapshot() == (if readOk && expired && ioOk
                                then ClearMarker(old(Snapshot()), TtlExpired, now) else old(Snapshot()))
    {
      if !readOk { return Err(()); }
      if marker.None? { return Ok(None); }
      var fields := marker.value;
      var expired := fields.expiresAt.Some? && fields.expiresAt.value <= now;
      if !expired { return Ok(None); }
      if !ioOk { return Err(()); }
      marker := None;
      Emit(Cleared(now, fields.key, fields.traceId, TtlExpired));
      cleared := Ok(Some(fields));
    }

    // The log events from k on are those the bounded tail read decodes.
    method ReconcileRawDelete(now: int, k: nat) returns (order: seq<MarkerFields>)
      requires k <= |log|
      modifies this
      ensures marker == old(marker)
      ensures marker.Some? ==> Snapshot() == old(Snapshot())
      ensures marker.None? ==>
                && Enumerates(order, Unmatched(old(log)[k..]))
                && log == old(log) + Overrides(order, now)
                && rawDeleted == old(rawDeleted) - Keys(order)
    {
      order := [];
      if marker.Some? { return; }
      var open := ScanUnmatched(log[k..]);
      order := IntoValues(log[k..], open);
      for i := 0 to |order|
        invariant log == old(log) + Overrides(order[..i], now)
        invariant marker == old(marker) && rawDeleted == old(rawDeleted)
      {
        Emit(Cleared(now, order[i].key, order[i].traceId, OperatorOverride));
        assert Overrides(order[..i + 1], now) == Overrides(order[..i], now) +
            [Cleared(now, order[i].key, order[i].traceId, OperatorOverride)];
      }
      assert order[..|order|] == order;
      rawDeleted := rawDeleted - Keys(order);
    }

    // What execute_tier does before it invokes a block_if_marker plugin.
    method PreCheckMarker(now: int, k: nat, readOk: bool, ioOk: bool) returns (ghost a: Action)
      requires k <= |log|
      modifies this
      ensures a.PreCheck? && a.now == now && a.k == k && a.readOk == readOk && a.ioOk == ioOk
      ensures Step(old(Snapshot()), a, Snapshot())
    {
      var cleared := CheckAndClearExpiredMarker(now, readOk, ioOk);
      var order := [];
      if cleared == Ok(None) {
        order := ReconcileRawDelete(now, k);
      }
      a := PreCheck(now, k, order, readOk, ioOk);
    }

    // The native crash-path check: it deletes nothing and emits nothing.
    method CheckBlock(readOk: bool, now: int) returns (block: bool)
      ensures block == BlockIfMarkerCheck(readOk, marker, now)
    {
      if !readOk || marker.None? { return false; }
      match marker.value.expiresAt {
        case Some(expiry) => return !(expiry <= now);
        case None => return true;
      }
    }

    // A human deletes the file in a terminal. Nothing is logged.
    method OperatorRemove(now: int)
      modifies this
      ensures Step(old(Snapshot()), OperatorRm(now), Snapshot())
    {
      if marker.Some? {
        rawDeleted := rawDeleted[marker.value.key := marker.value];
        marker := None;
      }
    }
  }
}
