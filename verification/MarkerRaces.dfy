// The marker operations without the assumption that they are serialized: the
// file call and the audit appends it owes are separate steps, of any number of
// tasks, and what a task read beforehand may be stale. The condition under
// which log and file still come to agree is exact, step by step.
module MarkerRaces {
  import opened Wrappers
  import opened MarkerLog
  import opened Outcomes
  import opened UnixPath
  import M = MarkerMachine

  // owed: per task that changed the marker or scanned the log, the events it
  // has still to append, in its order.
  datatype State = State(marker: Option<MarkerFields>, log: seq<Event>, rawDeleted: Open, owed: seq<seq<Event>>)

  const INIT := State(None, [], map[], [])

  // What a removal was decided on: the Pass of a plugin on an artifact, with the
  // marker behind the read of the plugin name and the one behind the read of the
  // artifact path; or the expiry, at that reading of the clock, of what was seen.
  datatype Grounds =
    | PassOf(plugin: M.Plugin, artifact: string, nameRead: MarkerFields, artifactRead: MarkerFields)
    | ExpiryAt(clock: int)

  // seen is what the task read of the marker's fields before its file call; None
  // also if that read failed. A scan's absence check may be stale too.
  datatype Action =
    | RenameOver(writer: M.Plugin, seen: Option<MarkerFields>, fields: MarkerFields, now: int)
    | RemoveFile(grounds: Grounds, seen: Option<MarkerFields>, now: int)
    | ScanLog(k: nat, order: seq<MarkerFields>, now: int)
    | Append(t: nat)
    | OperatorRm
    | Unrelated(now: int)

  function ModeOf(grounds: Grounds): ClearMode {
    if grounds.PassOf? then Revalidated else TtlExpired
  }

  // The code's own checks, each of what it read for it.
  predicate ChecksPass(grounds: Grounds, seen: Option<MarkerFields>) {
    match grounds
    case PassOf(plugin, artifact, nameRead, artifactRead) =>
      && nameRead.key.plugin == plugin.name
      && plugin.event == M.POST_TOOL_USE
      && (artifactRead.key.artifact == "" || SamePath(artifactRead.key.artifact, artifact))
    case ExpiryAt(clock) => seen.Some? && M.Expired(seen.value, clock)
  }

  // A marker as a fail-closed PostToolUse plugin's indeterminate outcome makes it.
  predicate CodeWrites(writer: M.Plugin, fields: MarkerFields) {
    && writer.policy == FailClosed
    && writer.event == M.POST_TOOL_USE
    && fields.key.plugin == writer.name
    && fields.expiresAt == Some(fields.timestamp + M.UNVALIDATED_MUTATION_MARKER_TTL_SECONDS)
  }

  function ClearEvents(seen: Option<MarkerFields>, mode: ClearMode, now: int): seq<Event> {
    if seen.Some? then [Cleared(now, seen.value.key, seen.value.traceId, mode)] else []
  }

  function WriteEvents(seen: Option<MarkerFields>, fields: MarkerFields, now: int): seq<Event> {
    M.SupersededEvents(seen, fields, now) + [M.WrittenEvent(fields, now)]
  }

  function Appended(s: State, t: nat): State
    requires t < |s.owed| && s.owed[t] != []
  {
    s.(log := s.log + [s.owed[t][0]], owed := s.owed[t := s.owed[t][1..]])
  }

  function AfterRename(s: State, a: Action): State
    requires a.RenameOver?
  {
    State(Some(a.fields), s.log, s.rawDeleted - {a.fields.key}, s.owed + [WriteEvents(a.seen, a.fields, a.now)])
  }

  function AfterRemove(s: State, a: Action): State
    requires a.RemoveFile?
  {
    State(None, s.log, s.rawDeleted, s.owed + [ClearEvents(a.seen, ModeOf(a.grounds), a.now)])
  }

  function AfterScan(s: State, a: Action): State
    requires a.ScanLog?
  {
    s.(rawDeleted := s.rawDeleted - Keys(a.order), owed := s.owed + [Overrides(a.order, a.now)])
  }

  function AfterOperator(s: State): State {
    if s.marker.Some? then s.(marker := None, rawDeleted := s.rawDeleted[s.marker.value.key := s.marker.value]) else s
  }

  ghost predicate Step(s: State, a: Action, s': State) {
    match a
    case RenameOver(writer, _, fields, _) => CodeWrites(writer, fields) && s' == AfterRename(s, a)
    case RemoveFile(grounds, seen, _) => s.marker.Some? && ChecksPass(grounds, seen) && s' == AfterRemove(s, a)
    case ScanLog(k, order, _) => k <= |s.log| && Enumerates(order, Unmatched(s.log[k..])) && s' == AfterScan(s, a)
    case Append(t) => t < |s.owed| && s.owed[t] != [] && s' == Appended(s, t)
    case OperatorRm => s' == AfterOperator(s)
    case Unrelated(now) => s' == s.(log := s.log + [Other(now)])
  }

  ghost predicate IsRun(states: seq<State>, actions: seq<Action>) {
    && |states| == |actions| + 1
    && states[0] == INIT
    && forall i :: 0 <= i < |actions| ==> Step(states[i], actions[i], states[i + 1])
  }

  // ---- when the appends in flight can do no harm ------------------------------

  ghost predicate Pending(s: State, e: Event) {
    exists t :: 0 <= t < |s.owed| && e in s.owed[t]
  }

  ghost predicate Settled(s: State, p: Pair) {
    forall e :: Pending(s, e) ==> !Touches(e, p)
  }

  // What a pair should come to in the log: the marker on disk, or the one an
  // operator deleted, or nothing.
  function Expected(s: State, p: Pair): Option<MarkerFields> {
    if s.marker.Some? && s.marker.value.key == p then s.marker
    else if p in s.rawDeleted then Some(s.rawDeleted[p])
    else None
  }

  function Says(e: Event): Option<MarkerFields> {
    if e.Written? then Some(Logged(e)) else None
  }

  function LogSays(log: seq<Event>, p: Pair): Option<MarkerFields> {
    if p in Unmatched(log) then Some(Unmatched(log)[p]) else None
  }

  predicate Alike(a: Option<MarkerFields>, b: Option<MarkerFields>) {
    a.Some? == b.Some? && (a.Some? ==> M.SameMarker(a.value, b.value))
  }

  ghost predicate SafeAt(s: State, p: Pair) {
    && (forall e :: Pending(s, e) && Touches(e, p) ==> Alike(Says(e), Expected(s, p)))
    && (Settled(s, p) ==> Alike(LogSays(s.log, p), Expected(s, p)))
  }

  ghost predicate OnceEach(es: seq<Event>) {
    && (forall i :: 0 <= i < |es| ==> !es[i].Other?)
    && (forall i, j :: 0 <= i < j < |es| ==> es[i].key != es[j].key)
  }

  // What holds in every reachable state, raced or not.
  ghost predicate WellFormed(s: State) {
    && (s.marker.Some? ==> s.marker.value.key !in s.rawDeleted)
    && (forall p :: p in s.rawDeleted ==> s.rawDeleted[p].key == p)
    && forall t :: 0 <= t < |s.owed| ==> OnceEach(s.owed[t])
  }

  ghost predicate Safe(s: State) {
    forall p :: SafeAt(s, p)
  }

  // ---- the exact condition, step by step ------------------------------------

  // Nothing in flight about p says it was written.
  ghost predicate NoWritePending(s: State, p: Pair) {
    forall e :: Pending(s, e) && Touches(e, p) ==> e.Cleared?
  }

  // A rename must have seen the pair it replaces, and no pair it would wrongly
  // close, and find nothing in flight about either pair that says otherwise. A
  // removal must have seen the marker it removes, and not overtake its record.
  // A scan must not report the pair on disk, nor one whose record is in flight.
  ghost predicate Clean(s: State, a: Action) {
    match a
    case RenameOver(_, seen, fields, _) =>
      var closed := if seen.Some? then {seen.value.key} else {};
      && M.MarkerKeys(M.State(s.marker, s.log, s.rawDeleted)) <= closed + {fields.key}
      && closed * s.rawDeleted.Keys <= {fields.key}
      && (forall e :: Pending(s, e) && Touches(e, fields.key) ==> Alike(Says(e), Some(fields)))
      && (seen.Some? && seen.value.key != fields.key ==> NoWritePending(s, seen.value.key))
    case RemoveFile(_, seen, _) =>
      s.marker.Some? && seen.Some? && seen.value.key == s.marker.value.key && NoWritePending(s, seen.value.key)
    case ScanLog(_, order, _) =>
      forall p :: p in Keys(order) ==> !OnDisk(s, p) && NoWritePending(s, p)
    case _ => true
  }

  predicate OnDisk(s: State, p: Pair) {
    s.marker.Some? && s.marker.value.key == p
  }

  lemma PendingAdded(s: State, s': State, es: seq<Event>)
    requires s'.owed == s.owed + [es]
    ensures forall e :: Pending(s', e) <==> Pending(s, e) || e in es
  {
    assert s'.owed[|s.owed|] == es;
    forall e ensures Pending(s', e) <==> Pending(s, e) || e in es {
      if Pending(s, e) {
        var t :| 0 <= t < |s.owed| && e in s.owed[t];
        assert e in s'.owed[t];
      }
      if Pending(s', e) && e !in es {
        var t :| 0 <= t < |s'.owed| && e in s'.owed[t];
        assert e in s.owed[t];
      }
    }
  }

  lemma PendingAppended(s: State, t: nat)
    requires t < |s.owed| && s.owed[t] != []
    ensures Pending(s, s.owed[t][0])
    ensures forall e :: Pending(Appended(s, t), e) ==> Pending(s, e)
    ensures forall e :: Pending(s, e) ==> Pending(Appended(s, t), e) || e == s.owed[t][0]
  {
    var s', head := Appended(s, t), s.owed[t][0];
    assert s.owed[t] == [head] + s'.owed[t];
    forall e | Pending(s, e) ensures Pending(s', e) || e == head {
      var u :| 0 <= u < |s.owed| && e in s.owed[u];
      assert e == head || e in s'.owed[u];
    }
    forall e | Pending(s', e) ensures Pending(s, e) {
      var u :| 0 <= u < |s'.owed| && e in s'.owed[u];
      assert e in s.owed[u];
    }
  }

  lemma LogSaysSnoc(log: seq<Event>, e: Event, p: Pair)
    ensures LogSays(log + [e], p) == if Touches(e, p) then Says(e) else LogSays(log, p)
  {
    UnmatchedSnoc(log, e);
  }

  // Landing an append never hurts.
  lemma AppendKeepsSafe(s: State, t: nat)
    requires Safe(s) && t < |s.owed| && s.owed[t] != []
    ensures Safe(Appended(s, t))
  {
    var s', head := Appended(s, t), s.owed[t][0];
    PendingAppended(s, t);
    forall p ensures SafeAt(s', p) {
      assert SafeAt(s, p);
      assert Expected(s', p) == Expected(s, p);
      LogSaysSnoc(s.log, head, p);
    }
  }

  lemma WriteEventsTouch(seen: Option<MarkerFields>, fields: MarkerFields, now: int, e: Event)
    ensures e in WriteEvents(seen, fields, now) <==>
            e == M.WrittenEvent(fields, now) ||
            (seen.Some? && seen.value.key != fields.key &&
                e == Cleared(now, seen.value.key, seen.value.traceId, Superseded))
  {
    var es := WriteEvents(seen, fields, now);
    assert es[|es| - 1] == M.WrittenEvent(fields, now);
    if seen.Some? && seen.value.key != fields.key {
      assert es[0] == Cleared(now, seen.value.key, seen.value.traceId, Superseded);
    }
  }

  lemma CleanRenameKeepsSafe(s: State, a: Action, p: Pair)
    requires WellFormed(s) && SafeAt(s, p) && a.RenameOver? && Clean(s, a)
    ensures SafeAt(AfterRename(s, a), p)
  {
    var s' := AfterRename(s, a);
    PendingAdded(s, s', WriteEvents(a.seen, a.fields, a.now));
    forall e { WriteEventsTouch(a.seen, a.fields, a.now, e); }
    var written := M.WrittenEvent(a.fields, a.now);
    assert Pending(s', written);
    if p == a.fields.key {
      assert !Settled(s', p);
    } else if a.seen.Some? && p == a.seen.value.key {
      assert Expected(s', p) == None;
      assert Pending(s', Cleared(a.now, p, a.seen.value.traceId, Superseded));
    } else {
      assert Expected(s', p) == Expected(s, p);
    }
  }

  lemma SafeRenameIsClean(s: State, a: Action)
    requires WellFormed(s) && Safe(s) && a.RenameOver? && Safe(AfterRename(s, a))
    ensures Clean(s, a)
  {
    var s', seen, key := AfterRename(s, a), a.seen, a.fields.key;
    PendingAdded(s, s', WriteEvents(seen, a.fields, a.now));
    forall e { WriteEventsTouch(seen, a.fields, a.now, e); }
    assert SafeAt(s', key);
    if seen.Some? && seen.value.key != key {
      assert SafeAt(s', seen.value.key);
      assert Pending(s', Cleared(a.now, seen.value.key, seen.value.traceId, Superseded));
    }
    if s.marker.Some? {
      var m := s.marker.value.key;
      assert SafeAt(s, m) && SafeAt(s', m);
      if m != key && (seen.None? || m != seen.value.key) {
        StillSaid(s, s', m);
      }
    }
  }

  // What was said about an untouched pair is said still.
  lemma StillSaid(s: State, s': State, p: Pair)
    requires SafeAt(s, p) && Expected(s, p).Some? && s'.log == s.log
    requires forall e :: Touches(e, p) ==> (Pending(s', e) <==> Pending(s, e))
    ensures SafeAt(s', p) ==> Expected(s', p).Some?
  {
  }

  lemma CleanRemoveKeepsSafe(s: State, a: Action, p: Pair)
    requires WellFormed(s) && SafeAt(s, p) && a.RemoveFile? && Clean(s, a)
    ensures SafeAt(AfterRemove(s, a), p)
  {
    var s', cleared := AfterRemove(s, a), ClearEvents(a.seen, ModeOf(a.grounds), a.now)[0];
    PendingAdded(s, s', ClearEvents(a.seen, ModeOf(a.grounds), a.now));
    assert Pending(s', cleared);
    if p == a.seen.value.key {
      assert Expected(s', p) == None && Touches(cleared, p);
    } else {
      assert Expected(s', p) == Expected(s, p);
    }
  }

  lemma SafeRemoveIsClean(s: State, a: Action)
    requires WellFormed(s) && Safe(s) && a.RemoveFile? && s.marker.Some? && Safe(AfterRemove(s, a))
    ensures Clean(s, a)
  {
    var s', m := AfterRemove(s, a), s.marker.value.key;
    PendingAdded(s, s', ClearEvents(a.seen, ModeOf(a.grounds), a.now));
    assert SafeAt(s, m) && SafeAt(s', m);
    if a.seen.None? || a.seen.value.key != m {
      StillSaid(s, s', m);
    }
  }

  lemma OverridesTouch(order: seq<MarkerFields>, now: int, p: Pair)
    ensures (exists e :: e in Overrides(order, now) && Touches(e, p)) <==> p in Keys(order)
    ensures forall e :: e in Overrides(order, now) ==> e.Cleared?
  {
    if p in Keys(order) {
      var i :| 0 <= i < |order| && order[i].key == p;
      assert Overrides(order, now)[i] in Overrides(order, now);
    }
  }

  lemma ScanAt(s: State, a: Action, p: Pair)
    requires WellFormed(s) && SafeAt(s, p) && a.ScanLog?
    ensures SafeAt(AfterScan(s, a), p) <==> (p in Keys(a.order) ==> !OnDisk(s, p) && NoWritePending(s, p))
  {
    var s' := AfterScan(s, a);
    PendingAdded(s, s', Overrides(a.order, a.now));
    OverridesTouch(a.order, a.now, p);
    if p in Keys(a.order) {
      var e :| e in Overrides(a.order, a.now) && Touches(e, p);
      assert Pending(s', e);
    } else {
      assert Expected(s', p) == Expected(s, p);
    }
  }

  // In a safe state a step keeps it safe exactly when it is clean.
  lemma StepSafeIffClean(s: State, a: Action, s': State)
    requires WellFormed(s) && Safe(s) && Step(s, a, s')
    ensures Safe(s') <==> Clean(s, a)
  {
    match a {
      case RenameOver(_, _, _, _) =>
        if Clean(s, a) {
          forall p ensures SafeAt(s', p) { assert SafeAt(s, p); CleanRenameKeepsSafe(s, a, p); }
        }
        if Safe(s') { SafeRenameIsClean(s, a); }
      case RemoveFile(_, _, _) =>
        if Clean(s, a) {
          forall p ensures SafeAt(s', p) { assert SafeAt(s, p); CleanRemoveKeepsSafe(s, a, p); }
        }
        if Safe(s') { SafeRemoveIsClean(s, a); }
      case ScanLog(_, _, _) =>
        forall p ensures SafeAt(s', p) <==> (p in Keys(a.order) ==> !OnDisk(s, p) && NoWritePending(s, p)) {
          assert SafeAt(s, p);
          ScanAt(s, a, p);
        }
      case Append(t) =>
        AppendKeepsSafe(s, t);
      case OperatorRm =>
        forall p ensures SafeAt(s', p) { assert SafeAt(s, p); SameOwedSafeAt(s, s', p); }
      case Unrelated(now) =>
        forall p ensures SafeAt(s', p) {
          assert SafeAt(s, p);
          LogSaysSnoc(s.log, Other(now), p);
          SameOwedSafeAt(s, s', p);
        }
    }
  }

  lemma SameOwedSafeAt(s: State, s': State, p: Pair)
    requires SafeAt(s, p) && s'.owed == s.owed
    requires Expected(s', p) == Expected(s, p) && LogSays(s'.log, p) == LogSays(s.log, p)
    ensures SafeAt(s', p)
  {
    assert forall e :: Pending(s', e) <==> Pending(s, e);
  }

  lemma StepKeepsWellFormed(s: State, a: Action, s': State)
    requires WellFormed(s) && Step(s, a, s')
    ensures WellFormed(s')
  {
    match a {
      case RenameOver(_, _, _, _) =>
      case RemoveFile(_, _, _) =>
      case ScanLog(_, order, now) =>
        assert OnceEach(Overrides(order, now));
      case Append(t) =>
        assert OnceEach(s.owed[t]);
        assert OnceEach(s.owed[t][1..]);
      case OperatorRm =>
      case Unrelated(_) =>
    }
  }

  lemma {:induction false} RunWellFormed(states: seq<State>, actions: seq<Action>, n: nat)
    requires IsRun(states, actions) && n < |states|
    ensures WellFormed(states[n])
  {
    if n > 0 {
      RunWellFormed(states, actions, n - 1);
      StepKeepsWellFormed(states[n - 1], actions[n - 1], states[n]);
    }
  }

  lemma {:induction false} CleanRunIsSafe(states: seq<State>, actions: seq<Action>, n: nat)
    requires IsRun(states, actions) && n < |states|
    requires forall i :: 0 <= i < n ==> Clean(states[i], actions[i])
    ensures Safe(states[n])
  {
    if n > 0 {
      CleanRunIsSafe(states, actions, n - 1);
      RunWellFormed(states, actions, n - 1);
      StepSafeIffClean(states[n - 1], actions[n - 1], states[n]);
    }
  }

  // A run is safe throughout exactly when all its steps are clean.
  lemma SafeRunIffClean(states: seq<State>, actions: seq<Action>)
    requires IsRun(states, actions)
    ensures (forall n :: 0 <= n < |states| ==> Safe(states[n])) <==>
            (forall i :: 0 <= i < |actions| ==> Clean(states[i], actions[i]))
  {
    if forall n :: 0 <= n < |states| ==> Safe(states[n]) {
      forall i | 0 <= i < |actions| ensures Clean(states[i], actions[i]) {
        RunWellFormed(states, actions, i);
        assert Step(states[i], actions[i], states[i + 1]);
        StepSafeIffClean(states[i], actions[i], states[i + 1]);
      }
    }
    if forall i :: 0 <= i < |actions| ==> Clean(states[i], actions[i]) {
      forall n | 0 <= n < |states| ensures Safe(states[n]) {
        CleanRunIsSafe(states, actions, n);
      }
    }
  }

  // ---- safe means that it settles well ----------------------------------------

  ghost predicate AllAppended(s: State) {
    forall t :: 0 <= t < |s.owed| ==> s.owed[t] == []
  }

  ghost predicate AgreesNow(s: State) {
    M.Agrees(M.State(s.marker, s.log, s.rawDeleted))
  }

  // The pending appends land in the order of the schedule and nothing else happens.
  function Settle(s: State, schedule: seq<nat>): Option<State>
    decreases |schedule|
  {
    if schedule == [] then Some(s)
    else if schedule[0] < |s.owed| && s.owed[schedule[0]] != [] then Settle(Appended(s, schedule[0]), schedule[1..])
    else None
  }

  // Once nothing is owed, being safe is the agreement of the serialized machine.
  lemma SafeIsAgreement(s: State)
    requires WellFormed(s) && AllAppended(s)
    ensures Safe(s) <==> AgreesNow(s)
  {
    var open := Unmatched(s.log);
    assert forall e :: !Pending(s, e);
    assert forall p :: Settled(s, p);
    assert forall p :: SafeAt(s, p) <==> Alike(LogSays(s.log, p), Expected(s, p));
    var keys := s.rawDeleted.Keys + M.MarkerKeys(M.State(s.marker, s.log, s.rawDeleted));
    assert forall p :: p in keys <==> Expected(s, p).Some?;
    if Safe(s) {
      forall p ensures p in open.Keys <==> p in keys { assert SafeAt(s, p); }
    }
  }

  lemma {:induction false} SafeSettlesWell(s: State, schedule: seq<nat>, t: State)
    requires WellFormed(s) && Safe(s) && Settle(s, schedule) == Some(t) && AllAppended(t)
    ensures AgreesNow(t)
    decreases |schedule|
  {
    if schedule == [] {
      SafeIsAgreement(s);
    } else {
      var u := Appended(s, schedule[0]);
      AppendKeepsSafe(s, schedule[0]);
      assert Step(s, Append(schedule[0]), u);
      StepKeepsWellFormed(s, Append(schedule[0]), u);
      SafeSettlesWell(u, schedule[1..], t);
    }
  }

  function Owing(owed: seq<seq<Event>>): nat {
    if owed == [] then 0 else |owed[0]| + Owing(owed[1..])
  }

  lemma {:induction false} OwingLess(owed: seq<seq<Event>>, t: nat)
    requires t < |owed| && owed[t] != []
    ensures Owing(owed[t := owed[t][1..]]) == Owing(owed) - 1
    decreases |owed|
  {
    var less := owed[t := owed[t][1..]];
    if t == 0 {
      assert less[1..] == owed[1..];
    } else {
      OwingLess(owed[1..], t - 1);
      assert less[1..] == owed[1..][t - 1 := owed[t][1..]];
    }
  }

  lemma WrongRecordElsewhere(s: State, p: Pair, u: nat, e: Event, t: nat)
    requires u < |s.owed| && e in s.owed[u] && t < |s.owed| && t != u && s.owed[t] != []
    requires Touches(e, p) && !Alike(Says(e), Expected(s, p))
    ensures !SafeAt(Appended(s, t), p)
  {
    var s' := Appended(s, t);
    assert e in s'.owed[u];
    assert Pending(s', e) && Expected(s', p) == Expected(s, p);
  }

  lemma WrongLogStays(s: State, p: Pair, t: nat)
    requires t < |s.owed| && s.owed[t] != []
    requires Settled(s, p) && !Alike(LogSays(s.log, p), Expected(s, p))
    ensures !SafeAt(Appended(s, t), p)
  {
    PendingAppended(s, t);
    LogSaysSnoc(s.log, s.owed[t][0], p);
    assert Settled(Appended(s, t), p) && Expected(Appended(s, t), p) == Expected(s, p);
  }

  // Some append can land that leaves an unsafe state unsafe: if a wrong record
  // is in flight, any but it; if it is the only one, itself.
  lemma UnsafeStaysUnsafe(s: State, p: Pair) returns (t: nat)
    requires WellFormed(s) && !SafeAt(s, p) && !AllAppended(s)
    ensures t < |s.owed| && s.owed[t] != [] && !SafeAt(Appended(s, t), p)
  {
    t :| 0 <= t < |s.owed| && s.owed[t] != [];
    if e :| Pending(s, e) && Touches(e, p) && !Alike(Says(e), Expected(s, p)) {
      var u :| 0 <= u < |s.owed| && e in s.owed[u];
      if v :| 0 <= v < |s.owed| && v != u && s.owed[v] != [] {
        t := v;
        WrongRecordElsewhere(s, p, u, e, t);
      } else {
        t := u;
        OnlyListUnsafe(s, p, u, e);
      }
    } else {
      WrongLogStays(s, p, t);
    }
  }

  lemma OnlyListUnsafe(s: State, p: Pair, u: nat, e: Event)
    requires WellFormed(s) && u < |s.owed| && e in s.owed[u]
    requires forall v :: 0 <= v < |s.owed| && v != u ==> s.owed[v] == []
    requires Touches(e, p) && !Alike(Says(e), Expected(s, p))
    ensures !SafeAt(Appended(s, u), p)
  {
    var s', head := Appended(s, u), s.owed[u][0];
    assert Expected(s', p) == Expected(s, p);
    if e == head {
      LogSaysSnoc(s.log, head, p);
      assert OnceEach(s.owed[u]);
      forall f | Pending(s', f) ensures !Touches(f, p) {
        var v :| 0 <= v < |s'.owed| && f in s'.owed[v];
        assert v == u;
        var i :| 0 <= i < |s'.owed[u]| && s'.owed[u][i] == f;
        assert s.owed[u][i + 1] == f;
      }
      assert Settled(s', p);
    } else {
      assert s.owed[u] == [head] + s'.owed[u];
      assert e in s'.owed[u];
      assert Pending(s', e);
    }
  }

  lemma {:induction false} UnsafeCanSettleBadly(s: State, p: Pair) returns (schedule: seq<nat>, t: State)
    requires WellFormed(s) && !SafeAt(s, p)
    ensures Settle(s, schedule) == Some(t) && AllAppended(t) && !AgreesNow(t)
    decreases Owing(s.owed)
  {
    if AllAppended(s) {
      schedule, t := [], s;
      SafeIsAgreement(s);
    } else {
      var n := UnsafeStaysUnsafe(s, p);
      var u := Appended(s, n);
      assert Step(s, Append(n), u);
      StepKeepsWellFormed(s, Append(n), u);
      OwingLess(s.owed, n);
      var rest;
      rest, t := UnsafeCanSettleBadly(u, p);
      schedule := [n] + rest;
      assert schedule[1..] == rest;
    }
  }

  // Safe is the weakest such notion: a state is safe if and only if every order
  // in which the appends in flight can land ends with log and file in agreement.
  lemma SafeIffAlwaysSettlesWell(s: State)
    requires WellFormed(s)
    ensures Safe(s) <==>
            forall schedule, t :: Settle(s, schedule) == Some(t) && AllAppended(t) ==> AgreesNow(t)
  {
    if Safe(s) {
      forall schedule, t | Settle(s, schedule) == Some(t) && AllAppended(t) ensures AgreesNow(t) {
        SafeSettlesWell(s, schedule, t);
      }
    } else {
      var p :| !SafeAt(s, p);
      var schedule, t := UnsafeCanSettleBadly(s, p);
    }
  }

  // ---- what a scan's report is worth -------------------------------------------

  // Step i takes the pair out of the outstanding deletions: it is written again
  // or reported.
  predicate Ends(a: Action, p: Pair) {
    (a.RenameOver? && a.fields.key == p) || (a.ScanLog? && p in Keys(a.order))
  }

  ghost predicate DeletedAt(states: seq<State>, actions: seq<Action>, j: int, p: Pair) {
    0 <= j < |actions| && j < |states| && actions[j].OperatorRm? && OnDisk(states[j], p)
  }

  ghost predicate NotEnded(actions: seq<Action>, j: int, n: int, p: Pair) {
    forall i {:trigger Ends(actions[i], p)} :: 0 <= i && j < i < n && i < |actions| ==> !Ends(actions[i], p)
  }

  // An operator deleted the pair's marker before state n, and since then it was
  // neither written again nor reported.
  ghost predicate Outstanding(states: seq<State>, actions: seq<Action>, n: nat, p: Pair) {
    exists j :: j < n && DeletedAt(states, actions, j, p) && NotEnded(actions, j, n, p)
  }

  lemma {:induction false} RawDeletedIffOutstanding(states: seq<State>, actions: seq<Action>, n: nat, p: Pair)
    requires IsRun(states, actions) && n < |states|
    ensures p in states[n].rawDeleted <==> Outstanding(states, actions, n, p)
    decreases n
  {
    if n > 0 {
      var i := n - 1;
      RawDeletedIffOutstanding(states, actions, i, p);
      var s, a, s' := states[i], actions[i], states[n];
      assert Step(s, a, s');
      if p in s'.rawDeleted {
        if p in s.rawDeleted && !Ends(a, p) {
          var j :| j < i && DeletedAt(states, actions, j, p) && NotEnded(actions, j, i, p);
          assert NotEnded(actions, j, n, p);
        } else {
          assert DeletedAt(states, actions, i, p) && NotEnded(actions, i, n, p);
        }
      }
      if j :| j < n && DeletedAt(states, actions, j, p) && NotEnded(actions, j, n, p) {
        if j < i {
          assert !Ends(a, p);
          assert NotEnded(actions, j, i, p);
        }
      }
    }
  }

  ghost predicate NoClearPending(s: State, p: Pair) {
    forall e :: Pending(s, e) && Touches(e, p) ==> e.Written?
  }

  lemma ReportInSafeState(s: State, k: nat, order: seq<MarkerFields>, n: nat)
    requires WellFormed(s) && Safe(s) && k <= |s.log| && Enumerates(order, Unmatched(s.log[k..])) && n < |order|
    ensures var p := order[n].key;
            && (p in s.rawDeleted <==> !OnDisk(s, p) && NoClearPending(s, p))
            && (!OnDisk(s, p) && Settled(s, p) ==> p in s.rawDeleted && M.SameMarker(order[n], s.rawDeleted[p]))
  {
    var p := order[n].key;
    SuffixSound(s.log, k, p);
    assert SafeAt(s, p);
    assert LogSays(s.log, p) == Some(order[n]);
  }

  // In a run whose steps so far were clean, a scan's report of a pair is true of
  // an operator's deletion exactly when that pair is not on disk and no clear of
  // it is in flight, whatever the window.
  lemma ReportIsTrueIff(states: seq<State>, actions: seq<Action>, i: nat, n: nat)
    requires IsRun(states, actions) && i < |actions| && actions[i].ScanLog? && n < |actions[i].order|
    requires forall m :: 0 <= m < i ==> Clean(states[m], actions[m])
    ensures var p := actions[i].order[n].key;
            Outstanding(states, actions, i, p) <==> !OnDisk(states[i], p) && NoClearPending(states[i], p)
  {
    assert Step(states[i], actions[i], states[i + 1]);
    CleanRunIsSafe(states, actions, i);
    RunWellFormed(states, actions, i);
    ReportInSafeState(states[i], actions[i].k, actions[i].order, n);
    RawDeletedIffOutstanding(states, actions, i, actions[i].order[n].key);
  }

  // ---- why each part of the condition is there ---------------------------------

  // The task read the marker that its file call then met, or read its absence.
  predicate SawDisk(s: State, a: Action) {
    match a
    case RenameOver(_, seen, _, _) => seen == s.marker
    case RemoveFile(_, seen, _) => seen == s.marker
    case ScanLog(_, _, _) => s.marker.None?
    case _ => true
  }

  // Serialized steps are clean: nothing owed, and what was read still there.
  lemma SerializedIsClean(s: State, a: Action, s': State)
    requires WellFormed(s) && AllAppended(s) && SawDisk(s, a) && Step(s, a, s')
    ensures Clean(s, a)
  {
    assert forall e :: !Pending(s, e);
  }

  // A run in which every task saw what was on disk and no operator acted.
  ghost predicate IsRace(states: seq<State>, actions: seq<Action>) {
    && IsRun(states, actions)
    && forall i :: 0 <= i < |actions| ==> SawDisk(states[i], actions[i]) && !actions[i].OperatorRm?
  }

  function Last(states: seq<State>): State
    requires states != []
  {
    states[|states| - 1]
  }

  lemma RaceOn(states: seq<State>, actions: seq<Action>, a: Action, s': State)
    returns (states': seq<State>, actions': seq<Action>)
    requires IsRace(states, actions) && Step(Last(states), a, s') && SawDisk(Last(states), a) && !a.OperatorRm?
    ensures IsRace(states', actions') && states' == states + [s'] && actions' == actions + [a] && Last(states') == s'
  {
    states', actions' := states + [s'], actions + [a];
  }

  // The log holds the marker's own record.
  lemma WrittenAlone(e: Event)
    requires e.Written?
    ensures Unmatched([e]) == map[e.key := Logged(e)] && Enumerates([Logged(e)], Unmatched([e]))
  {
    UnmatchedSnoc([], e);
    assert [] + [e] == [e];
    assert [Logged(e)][0].key == e.key;
  }

  // The plugin's own Pass, every read of the same marker.
  function OwnPass(writer: M.Plugin, m: MarkerFields): Grounds {
    PassOf(writer, m.key.artifact, m, m)
  }

  // A removal comes before its record. A scan between the two reports the pair,
  // though every task saw what was on disk and no operator acted.
  lemma ScanBetweenRemovalAndRecord(writer: M.Plugin, a: MarkerFields, now: int)
    requires CodeWrites(writer, a)
    ensures exists states, actions: seq<Action> ::
              && IsRace(states, actions) && 0 < |actions|
              && actions[|actions| - 1].ScanLog? && a.key in Keys(actions[|actions| - 1].order)
  {
    var e := M.WrittenEvent(a, now);
    var order := [Logged(e)];
    var states, actions, s2 := WrittenAndLogged(writer, a, now);
    var remove := RemoveFile(OwnPass(writer, a), Some(a), now);
    var s3 := AfterRemove(s2, remove);
    states, actions := RaceOn(states, actions, remove, s3);
    assert s3.log[0..] == [e];
    WrittenAlone(e);
    states, actions := RaceOn(states, actions, ScanLog(0, order, now), AfterScan(s3, ScanLog(0, order, now)));
    assert order[0].key in Keys(order);
  }

  lemma WrittenAndLogged(writer: M.Plugin, a: MarkerFields, now: int)
    returns (states: seq<State>, actions: seq<Action>, s: State)
    requires CodeWrites(writer, a)
    ensures IsRace(states, actions) && Last(states) == s == State(Some(a), [M.WrittenEvent(a, now)], map[], [[]])
    ensures states == [INIT, AfterRename(INIT, RenameOver(writer, None, a, now)), s]
    ensures actions == [RenameOver(writer, None, a, now), Append(0)]
  {
    var e := M.WrittenEvent(a, now);
    assert WriteEvents(None, a, now) == [e] && [e][1..] == [];
    var s1 := State(Some(a), [], map[], [[e]]);
    states, actions := RaceOn([INIT], [], RenameOver(writer, None, a, now), s1);
    s := State(Some(a), [e], map[], [[]]);
    assert s1.owed[0 := []] == [[]];
    states, actions := RaceOn(states, actions, Append(0), s);
  }

  // The record of a write may land after the record that it was superseded.
  // Nothing is owed in the end, and a pair that no operator touched stays open.
  lemma RecordsOutOfOrder(wa: M.Plugin, a: MarkerFields, wb: M.Plugin, b: MarkerFields, now: int)
    requires CodeWrites(wa, a) && CodeWrites(wb, b) && a.key != b.key
    ensures exists states, actions ::
              && IsRace(states, actions)
              && AllAppended(Last(states)) && Last(states).marker.None? && Unmatched(Last(states).log).Keys == {a.key}
  {
    var ea, eb := M.WrittenEvent(a, now), M.WrittenEvent(b, now);
    var over := Cleared(now, a.key, a.traceId, Superseded);
    var gone := Cleared(now, b.key, b.traceId, Revalidated);
    var states, actions, s := BothRenamed(wa, a, wb, b, now);
    s := Landed(s, 1, State(Some(b), [over], map[], [[ea], [eb]]));
    states, actions := RaceOn(states, actions, Append(1), s);
    s := Landed(s, 1, State(Some(b), [over, eb], map[], [[ea], []]));
    states, actions := RaceOn(states, actions, Append(1), s);
    s := Landed(s, 0, State(Some(b), [over, eb, ea], map[], [[], []]));
    states, actions := RaceOn(states, actions, Append(0), s);
    s := State(None, [over, eb, ea], map[], [[], [], [gone]]);
    states, actions := RaceOn(states, actions, RemoveFile(OwnPass(wb, b), Some(b), now), s);
    s := Landed(s, 2, State(None, [over, eb, ea, gone], map[], [[], [], []]));
    states, actions := RaceOn(states, actions, Append(2), s);
    FoldOfFour(over, eb, ea, gone);
    assert AllAppended(s) && Unmatched(s.log).Keys == {a.key};
  }

  lemma BothRenamed(wa: M.Plugin, a: MarkerFields, wb: M.Plugin, b: MarkerFields, now: int)
    returns (states: seq<State>, actions: seq<Action>, s: State)
    requires CodeWrites(wa, a) && CodeWrites(wb, b) && a.key != b.key
    ensures IsRace(states, actions) && Last(states) == s
    ensures s == State(Some(b), [], map[], [[M.WrittenEvent(a, now)],
                       [Cleared(now, a.key, a.traceId, Superseded), M.WrittenEvent(b, now)]])
  {
    assert WriteEvents(None, a, now) == [M.WrittenEvent(a, now)];
    assert WriteEvents(Some(a), b, now) == [Cleared(now, a.key, a.traceId, Superseded), M.WrittenEvent(b, now)];
    var s1 := State(Some(a), [], map[], [[M.WrittenEvent(a, now)]]);
    states, actions := RaceOn([INIT], [], RenameOver(wa, None, a, now), s1);
    s := AfterRename(s1, RenameOver(wb, Some(a), b, now));
    states, actions := RaceOn(states, actions, RenameOver(wb, Some(a), b, now), s);
  }

  lemma Landed(s: State, t: nat, s': State) returns (r: State)
    requires t < |s.owed| == |s'.owed| && s.owed[t] != []
    requires s'.marker == s.marker && s'.rawDeleted == s.rawDeleted && s'.log == s.log + [s.owed[t][0]]
    requires s'.owed[t] == s.owed[t][1..] && forall u :: 0 <= u < |s.owed| && u != t ==> s'.owed[u] == s.owed[u]
    ensures r == s' == Appended(s, t)
  {
    r := s';
    assert s'.owed == s.owed[t := s.owed[t][1..]];
  }

  lemma FoldOfFour(e1: Event, e2: Event, e3: Event, e4: Event)
    ensures Unmatched([e1, e2, e3, e4]) == Absorb(Absorb(Absorb(Absorb(map[], e1), e2), e3), e4)
  {
    UnmatchedSnoc([], e1);
    UnmatchedSnoc([e1], e2);
    UnmatchedSnoc([e1, e2], e3);
    UnmatchedSnoc([e1, e2, e3], e4);
    assert [] + [e1] == [e1] && [e1] + [e2] == [e1, e2];
    assert [e1, e2] + [e3] == [e1, e2, e3] && [e1, e2, e3] + [e4] == [e1, e2, e3, e4];
  }
}
