// A marker write by someone whose reading of the existing marker may be stale:
// what it does to the agreement of log and file.
module StaleWrites {
  import opened Wrappers
  import opened MarkerLog
  import opened MarkerMachine

  lemma UnmatchedAfterWrite(s: State, existing: Option<MarkerFields>, fields: MarkerFields, now: int)
    ensures var open := Unmatched(WriteSeeing(s, existing, fields, now, true).log);
            var closed := if existing.Some? then {existing.value.key} else {};
            open == (Unmatched(s.log) - closed)[fields.key := Logged(WrittenEvent(fields, now))]
  {
    var mid := s.log + SupersededEvents(existing, fields, now);
    UnmatchedSnoc(mid, WrittenEvent(fields, now));
    if SupersededEvents(existing, fields, now) == [] {
      assert mid == s.log;
    } else {
      UnmatchedSnoc(s.log, SupersededEvents(existing, fields, now)[0]);
      assert mid == s.log + [SupersededEvents(existing, fields, now)[0]];
    }
  }

  function SeenKeys(existing: Option<MarkerFields>): set<Pair> {
    if existing.Some? then {existing.value.key} else {}
  }

  // Which pairs are open after the write, against which should be.
  lemma KeysAgreeIff(raw: set<Pair>, marker: set<Pair>, seen: set<Pair>, key: Pair)
    requires raw !! marker
    ensures (raw + marker - seen) + {key} == (raw - {key}) + {key} <==>
            marker <= seen + {key} && seen * raw <= {key}
  {
    var after, wanted := (raw + marker - seen) + {key}, (raw - {key}) + {key};
    if marker <= seen + {key} && seen * raw <= {key} {
      forall p ensures p in after <==> p in wanted {}
    }
    if after == wanted {
      forall p | p in marker ensures p in seen + {key} {
        assert p !in after || p in wanted;
      }
      forall p | p in seen * raw ensures p == key {
        assert p in wanted ==> p in after;
      }
    }
  }

  // The new marker's fields and the outstanding deletions' are as logged.
  lemma FieldsAgree(s: State, existing: Option<MarkerFields>, fields: MarkerFields, now: int)
    requires Agrees(s)
    ensures var s' := WriteSeeing(s, existing, fields, now, true);
            var open' := Unmatched(s'.log);
            && open'.Keys == (Unmatched(s.log).Keys - SeenKeys(existing)) + {fields.key}
            && SameMarker(open'[fields.key], fields)
            && forall p :: p in s'.rawDeleted && p in open' ==>
                 SameMarker(open'[p], s'.rawDeleted[p]) && s'.rawDeleted[p].key == p
  {
    UnmatchedAfterWrite(s, existing, fields, now);
  }

  // A successful write keeps the agreement exactly when what its caller saw
  // closes the pair that is really on disk, and closes nothing else. Reading
  // the marker that is there satisfies this; a caller that read "no marker"
  // before another one's rename does not.
  lemma StaleWriteAgreement(s: State, existing: Option<MarkerFields>, fields: MarkerFields, now: int)
    requires Agrees(s)
    ensures Agrees(WriteSeeing(s, existing, fields, now, true)) <==>
            var seen := if existing.Some? then {existing.value.key} else {};
            && MarkerKeys(s) <= seen + {fields.key}
            && seen * s.rawDeleted.Keys <= {fields.key}
  {
    FieldsAgree(s, existing, fields, now);
    KeysAgreeIff(s.rawDeleted.Keys, MarkerKeys(s), SeenKeys(existing), fields.key);
    var s' := WriteSeeing(s, existing, fields, now, true);
    assert s'.rawDeleted.Keys == s.rawDeleted.Keys - {fields.key};
  }

  // ---- two writers that both read "no marker" -------------------------------

  // Two same-tier writers read the marker before either renames. The second
  // one's SUPERSEDED is lost, so after its own marker is cleared the scan
  // reports an operator deletion of the first pair; no operator acted.
  lemma RacingWritersForgeOverride(a: MarkerFields, b: MarkerFields, now: int)
    requires a.key != b.key
    ensures var raced := WriteSeeing(WriteSeeing(INIT, None, a, now, true), None, b, now, true);
            var cleared := ClearMarker(raced, Revalidated, now);
            && !Agrees(raced)
            && cleared.marker.None? && cleared.rawDeleted == map[]
            && Unmatched(cleared.log).Keys == {a.key}
  {
    var first := WriteSeeing(INIT, None, a, now, true);
    var raced := WriteSeeing(first, None, b, now, true);
    UnmatchedAfterWrite(INIT, None, a, now);
    StaleWriteAgreement(INIT, None, a, now);
    UnmatchedAfterWrite(first, None, b, now);
    StaleWriteAgreement(first, None, b, now);
    UnmatchedSnoc(raced.log, Cleared(now, b.key, b.traceId, Revalidated));
  }
}
