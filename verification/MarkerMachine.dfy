// The quarantine marker as a state machine: one marker file, the append-only
// audit log, and an operator who may delete the file without a record.
//
// A step is one serialized operation: reading the existing marker, renaming
// the new one over it and emitting the tied events happen together, and audit
// appends succeed. MarkerRaces takes the operation apart.
module MarkerMachine {
  import opened Wrappers
  import opened MarkerLog
  import opened Outcomes
  import opened UnixPath

  const UNVALIDATED_MUTATION_MARKER_TTL_SECONDS := 86_400
  const POST_TOOL_USE := "PostToolUse"

  // rawDeleted records, per pair, the marker an operator deleted that has not
  // been written again or reported since. No code reads it.
  datatype State = State(marker: Option<MarkerFields>, log: seq<Event>, rawDeleted: Open)

  const INIT := State(None, [], map[])

  // The registry fields the marker steps look at.
  datatype Plugin = Plugin(name: string, event: string, policy: FailurePolicy)

  // ioOk is the fate of the step's one write or delete of the marker file, and
  // readOk that of a pre-check reading it. The log events from k on are those
  // the bounded scan decodes, none if the log cannot be read, and `order` is the
  // order in which the hash map yields its entries.
  datatype Action =
    | Finished(now: int, plugin: Plugin, result: PluginResult, outputTooLarge: bool,
               artifact: string, traceId: string, ioOk: bool)
    | PreCheck(now: int, k: nat, order: seq<MarkerFields>, readOk: bool, ioOk: bool)
    | OperatorRm(now: int)
    | Unrelated(now: int)

  function Outcome(a: Action): DispatchOutcome
    requires a.Finished?
  {
    ClassifyOutcome(a.result, a.outputTooLarge)
  }

  // ---- effects of single operations -------------------------------------

  predicate Expired(m: MarkerFields, now: int) {
    m.expiresAt.Some? && m.expiresAt.value <= now
  }

  function NewMarker(plugin: string, artifact: string, cause: IndeterminateCause, traceId: string, now: int)
    : MarkerFields
  {
    MarkerFields(now, Pair(plugin, artifact), CauseText(cause), traceId,
                 Some(now + UNVALIDATED_MUTATION_MARKER_TTL_SECONDS))
  }

  function SupersededEvents(existing: Option<MarkerFields>, fields: MarkerFields, now: int): seq<Event> {
    if existing.Some? && existing.value.key != fields.key
    then [Cleared(now, existing.value.key, existing.value.traceId, Superseded)]
    else []
  }

  function WrittenEvent(fields: MarkerFields, now: int): Event {
    Written(now, fields.key, fields.cause, fields.traceId, fields.expiresAt)
  }

  // A marker write whose caller saw `existing` on disk beforehand.
  function WriteSeeing(s: State, existing: Option<MarkerFields>, fields: MarkerFields, now: int, ok: bool): State {
    if ok then
      State(Some(fields),
            s.log + SupersededEvents(existing, fields, now) + [WrittenEvent(fields, now)],
            s.rawDeleted - {fields.key})
    else s
  }

  predicate PassClears(m: MarkerFields, plugin: Plugin, artifact: string) {
    && m.key.plugin == plugin.name
    && plugin.event == POST_TOOL_USE
    && (m.key.artifact == "" || SamePath(m.key.artifact, artifact))
  }

  function ClearMarker(s: State, mode: ClearMode, now: int): State
    requires s.marker.Some?
  {
    State(None, s.log + [Cleared(now, s.marker.value.key, s.marker.value.traceId, mode)], s.rawDeleted)
  }

  function Note(s: State, now: int): State {
    s.(log := s.log + [Other(now)])
  }

  // The tail of execute_tier's task: the lifecycle event, then the clear or
  // the indeterminate event and the write.
  function AfterFinished(s: State, a: Action): State
    requires a.Finished?
  {
    var noted := Note(s, a.now);
    match Outcome(a)
    case Pass =>
      if s.marker.Some? && PassClears(s.marker.value, a.plugin, a.artifact) && a.ioOk
      then ClearMarker(noted, Revalidated, a.now)
      else noted
    case Fail(_) => noted
    case Indeterminate(cause) =>
      var indeterminate := Note(noted, a.now);
      if ShouldWriteMarker(Outcome(a), a.plugin.policy) && a.plugin.event == POST_TOOL_USE
      then
        var fields := NewMarker(a.plugin.name, a.artifact, cause, a.traceId, a.now);
        WriteSeeing(indeterminate, s.marker, fields, a.now, a.ioOk)
      else indeterminate
  }

  ghost predicate Step(s: State, a: Action, s': State) {
    match a
    case Finished(_, _, _, _, _, _, _) => s' == AfterFinished(s, a)
    case PreCheck(now, k, order, readOk, ioOk) =>
      if !readOk then s' == s
      else if s.marker.Some? then
        s' == if Expired(s.marker.value, now) && ioOk then ClearMarker(s, TtlExpired, now) else s
      else
        && k <= |s.log|
        && Enumerates(order, Unmatched(s.log[k..]))
        && s' == State(None, s.log + Overrides(order, now), s.rawDeleted - Keys(order))
    case OperatorRm(_) =>
      s' == if s.marker.Some? then State(None, s.log, s.rawDeleted[s.marker.value.key := s.marker.value]) else s
    case Unrelated(now) => s' == Note(s, now)
  }

  ghost predicate IsRun(states: seq<State>, actions: seq<Action>) {
    && |states| == |actions| + 1
    && states[0] == INIT
    && forall i :: 0 <= i < |actions| ==> Step(states[i], actions[i], states[i + 1])
  }

  // ---- agreement of the log with the file --------------------------------

  // Equal up to the timestamp: the log keeps the time of the event.
  predicate SameMarker(a: MarkerFields, b: MarkerFields) {
    a.(timestamp := b.timestamp) == b
  }

  function MarkerKeys(s: State): set<Pair> {
    if s.marker.Some? then {s.marker.value.key} else {}
  }

  // The fold over the whole log leaves exactly the markers the operator
  // deleted, and the one on disk.
  ghost predicate Agrees(s: State) {
    var open := Unmatched(s.log);
    && open.Keys == s.rawDeleted.Keys + MarkerKeys(s)
    && (s.marker.Some? ==>
          s.marker.value.key !in s.rawDeleted && SameMarker(open[s.marker.value.key], s.marker.value))
    && forall p :: p in s.rawDeleted ==> SameMarker(open[p], s.rawDeleted[p]) && s.rawDeleted[p].key == p
  }

  lemma AgreesAfterNote(s: State, now: int)
    requires Agrees(s)
    ensures Agrees(Note(s, now))
  {
    UnmatchedSnoc(s.log, Other(now));
  }

  lemma AgreesAfterClear(s: State, mode: ClearMode, now: int)
    requires Agrees(s) && s.marker.Some?
    ensures Agrees(ClearMarker(s, mode, now))
  {
    UnmatchedSnoc(s.log, Cleared(now, s.marker.value.key, s.marker.value.traceId, mode));
  }
}
