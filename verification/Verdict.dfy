// Execution fold and verdict: tiers run in order, every outcome is kept, and
// three separately written block predicates decide the process exit code and
// the list of blocking plugins.
module Verdict {
  import opened Wrappers
  import opened Outcomes
  import opened MarkerLog
  import opened MarkerMachine
  import opened Quarantine
  import opened Registry
  import opened Routing
  import QuarantineRaces
  import R = MarkerRaces

  datatype HookResult = HookContinue | HookBlock(reason: string) | HookError(message: string)

  datatype PluginOutcome = PluginOutcome(
    name: string, onError: OnError, result: PluginResult, markerFired: bool, markerFields: Option<MarkerFields>)

  datatype Summary = Summary(results: seq<PluginOutcome>, blockIntent: bool, exitCode: int)

  datatype EventType = PreToolUse | PostToolUse | PreCompact | PostCompact | OtherEvent

  datatype Reason =
    | LiveMarker(fields: Option<MarkerFields>)
    | Text(text: string)
    | PluginCrashed
    | FuelExhausted
    | TimedOut

  // The marker on disk, whether it can be read, and the clock at the moment one
  // outcome is examined; reread is what reading the marker again for the message
  // gives, which may be nothing.
  datatype Sight = Sight(readOk: bool, marker: Option<MarkerFields>, now: int, reread: Option<MarkerFields>)

  const ERROR_JSON := "\"outcome\":\"error\""

  // What a dispatch is run with. In the order of the plan, fate(n) is what came
  // back from the n-th task, None if joining it failed, and seen(n) is what the
  // crash gate sees on examining its outcome. gateText is the gate's JSON.
  datatype Inputs = Inputs(
    defaults: Defaults, gate: Option<HookResult>, gateText: HookResult -> string,
    fate: nat -> Option<PluginResult>, seen: nat -> Sight)

  function FromEventStr(event: string): EventType {
    if event == "PreToolUse" then PreToolUse
    else if event == "PostToolUse" then PostToolUse
    else if event == "PreCompact" then PreCompact
    else if event == "PostCompact" then PostCompact
    else OtherEvent
  }

  predicate IsAdvisoryOnly(event: EventType) { event == PostCompact }

  predicate Died(result: PluginResult) { result.Crashed? || result.Timeout? }

  // ---- the executor's predicates ---------------------------------------------

  predicate PluginRequestsBlock(result: PluginResult) {
    result.Exited? && Contains(result.stdout, BLOCK_JSON)
  }

  predicate PluginFailClosed(result: PluginResult, onError: OnError) {
    onError == Block && Died(result)
  }

  predicate ExecutorBlocks(o: PluginOutcome) {
    PluginRequestsBlock(o.result) || PluginFailClosed(o.result, o.onError) || o.markerFired
  }

  // ---- the aggregator's, on exit codes cast to one byte ------------------------

  function AsU8(code: Int32): Byte { ((code as int) % 256) as Byte }

  function ResultByte(result: PluginResult): Byte {
    if result.Exited? then AsU8(result.exitCode) else 0
  }

  function AggregateExitCode(results: seq<(Byte, OnError)>): int {
    if exists i :: 0 <= i < |results| && results[i].0 == 2 && results[i].1 == Block then 2 else 0
  }

  // ---- and the reporter's ------------------------------------------------------

  predicate IsBlocking(o: PluginOutcome) {
    if o.result.Exited? then
      Contains(o.result.stdout, BLOCK_JSON) || (o.result.exitCode == 2 && o.onError == Block)
    else
      o.onError == Block || (o.onError == BlockIfMarker && o.markerFired)
  }

  // field(text, key) is the string under key if text is a JSON object with one.
  function ReasonOf(o: PluginOutcome, field: (string, string) -> Option<string>): Option<Reason> {
    if o.onError == BlockIfMarker && o.markerFired then Some(LiveMarker(o.markerFields))
    else match o.result
      case Exited(_, stdout) =>
        var found :=
          if Contains(stdout, BLOCK_JSON) then field(stdout, "reason")
          else if Contains(stdout, ERROR_JSON) then field(stdout, "message")
          else None;
        if found.Some? then Some(Text(found.value)) else None
      case Crashed => Some(PluginCrashed)
      case Timeout(Fuel) => Some(FuelExhausted)
      case Timeout(Epoch) => Some(TimedOut)
  }

  function Names(os: seq<PluginOutcome>): seq<string> {
    seq(|os|, i requires 0 <= i < |os| => os[i].name)
  }

  function Blockers(os: seq<PluginOutcome>): seq<PluginOutcome> {
    Filter(os, IsBlocking)
  }

  // The reason is that of the first blocker that has one.
  ghost predicate IsFirstReason(blockers: seq<PluginOutcome>, field: (string, string) -> Option<string>,
                                reason: Option<Reason>)
  {
    match reason
    case None => forall o :: o in blockers ==> ReasonOf(o, field) == None
    case Some(_) =>
      exists n :: 0 <= n < |blockers| && ReasonOf(blockers[n], field) == reason
                  && forall m :: 0 <= m < n ==> ReasonOf(blockers[m], field) == None
  }

  // `join(",")`.
  function Join(names: seq<string>): string {
    if names == [] then ""
    else if |names| == 1 then names[0]
    else names[0] + "," + Join(names[1..])
  }

  // The parts of a text between its commas.
  function Split(text: string): (parts: seq<string>)
    ensures parts != []
  {
    if text == "" then [""]
    else
      var rest := Split(text[1..]);
      if text[0] == ',' then [""] + rest else [[text[0]] + rest[0]] + rest[1..]
  }

  // Line breaks written out, so that the summary stays one line.
  function Escape(text: string): string {
    if text == "" then ""
    else (if text[0] == '\n' then "\\n" else if text[0] == '\r' then "\\r" else [text[0]]) + Escape(text[1..])
  }

  lemma {:induction false} SplitPart(part: string, rest: string)
    requires ',' !in part
    ensures Split(part) == [part] && Split(part + "," + rest) == [part] + Split(rest)
    decreases |part|
  {
    if part == "" {
      assert ("," + rest)[1..] == rest;
      assert "" + "," + rest == "," + rest;
    } else {
      SplitPart(part[1..], rest);
      assert part == [part[0]] + part[1..];
      assert (part + "," + rest)[1..] == part[1..] + "," + rest;
    }
  }

  // The joined names can be told apart again, as plugin names have no comma.
  lemma {:induction false} SplitJoin(names: seq<string>)
    requires names != [] && forall i :: 0 <= i < |names| ==> ',' !in names[i]
    ensures Split(Join(names)) == names
    decreases |names|
  {
    if |names| == 1 {
      SplitPart(names[0], "");
    } else {
      SplitJoin(names[1..]);
      SplitPart(names[0], Join(names[1..]));
    }
  }

  lemma {:induction false} EscapeIsOneLine(text: string)
    ensures '\n' !in Escape(text) && '\r' !in Escape(text)
    ensures Escape(text) == text <==> '\n' !in text && '\r' !in text
    ensures |Escape(text)| >= |text|
    decreases |text|
  {
    if text != "" {
      EscapeIsOneLine(text[1..]);
      assert text == [text[0]] + text[1..];
      if text[0] != '\n' && text[0] != '\r' {
        assert Escape(text)[1..] == Escape(text[1..]);
      }
    }
  }

  // Each line break is written as a backslash and a letter, all else is kept.
  lemma {:induction false} EscapeConcat(a: string, b: string)
    ensures Escape(a + b) == Escape(a) + Escape(b)
    ensures Escape("\n") == "\\n" && Escape("\r") == "\\r"
    decreases |a|
  {
    assert "\n"[1..] == "" && "\r"[1..] == "";
    if a == "" {
      assert a + b == b;
    } else {
      assert (a + b)[1..] == a[1..] + b;
      EscapeConcat(a[1..], b);
    }
  }

  // The reported reason, empty if no blocker has one.
  function ReportedReason(reason: Option<Reason>, render: Reason -> string): string {
    Escape(if reason.Some? then render(reason.value) else "")
  }

  // render is the wording of each reason.
  method ExtractBlockInfo(outcomes: seq<PluginOutcome>, field: (string, string) -> Option<string>,
                          render: Reason -> string)
    returns (blockingNames: string, blockReason: string)
    ensures blockingNames == Join(Names(Blockers(outcomes)))
    ensures exists reason ::
        IsFirstReason(Blockers(outcomes), field, reason) && blockReason == ReportedReason(reason, render)
    ensures '\n' !in blockReason && '\r' !in blockReason
  {
    var names, firstReason := [], None;
    for i := 0 to |outcomes|
      invariant names == Names(Blockers(outcomes[..i]))
      invariant IsFirstReason(Blockers(outcomes[..i]), field, firstReason)
    {
      var o := outcomes[i];
      ghost var was := Blockers(outcomes[..i]);
      FilterSnoc(outcomes[..i], o, IsBlocking);
      assert outcomes[..i + 1] == outcomes[..i] + [o];
      if IsBlocking(o) {
        names := names + [o.name];
        FirstReasonSnoc(was, o, field, firstReason);
        if firstReason.None? {
          firstReason := ReasonOf(o, field);
        }
      }
    }
    assert outcomes[..|outcomes|] == outcomes;
    blockingNames, blockReason := Join(names), ReportedReason(firstReason, render);
    EscapeIsOneLine(if firstReason.Some? then render(firstReason.value) else "");
  }

  lemma FirstReasonSnoc(blockers: seq<PluginOutcome>, o: PluginOutcome, field: (string, string) -> Option<string>,
                        reason: Option<Reason>)
    requires IsFirstReason(blockers, field, reason)
    ensures IsFirstReason(blockers + [o], field, if reason.None? then ReasonOf(o, field) else reason)
  {
    var all := blockers + [o];
    assert all[|blockers|] == o;
    if reason.Some? {
      var n :| 0 <= n < |blockers| && ReasonOf(blockers[n], field) == reason
               && forall m :: 0 <= m < n ==> ReasonOf(blockers[m], field) == None;
      assert all[n] == blockers[n];
    }
  }

  // ---- the fold --------------------------------------------------------------

  function GateOutcomes(gate: Option<HookResult>, gateText: HookResult -> string): seq<PluginOutcome> {
    if gate.None? || gate.value.HookContinue? then []
    else [PluginOutcome("shard-cap-gate", Block, Exited(2, gateText(gate.value)), false, None)]
  }

  predicate GateFired(gate: Option<HookResult>) {
    gate.Some? && !gate.value.HookContinue?
  }

  function JoinedOutcome(e: Entry, d: Defaults, fate: Option<PluginResult>): PluginOutcome {
    match fate
    case Some(result) => PluginOutcome(e.name, EffectiveOnError(e, d), result, false, None)
    case None => PluginOutcome("<unknown>", Continue, Crashed, false, None)
  }

  // The outcome with what the crash gate made of it.
  function Examined(o: PluginOutcome, sight: Sight): PluginOutcome {
    var fired := PluginBlockIfMarker(o.result, o.onError, sight.readOk, sight.marker, sight.now);
    o.(markerFired := fired, markerFields := if fired then sight.reread else None)
  }

  function OutcomeAt(inp: Inputs, plan: seq<Entry>, n: nat): PluginOutcome
    requires n < |plan|
  {
    Examined(JoinedOutcome(plan[n], inp.defaults, inp.fate(n)), inp.seen(n))
  }

  // The policy an entry gives for itself, else the registry's default.
  function OwnOnError(e: Entry, d: Defaults): OnError {
    if e.onError.Some? then e.onError.value else d.onError
  }

  // Entry n of the plan blocks, said of what the dispatch was given.
  predicate BlocksAt(inp: Inputs, plan: seq<Entry>, n: nat)
    requires n < |plan|
  {
    var onError := OwnOnError(plan[n], inp.defaults);
    match inp.fate(n)
    case None => false
    case Some(Exited(code, stdout)) =>
      Contains(stdout, "\"outcome\":\"block\"") || (code as int % 256 == 2 && onError == Block)
    case Some(_) =>
      onError == Block ||
      (onError == BlockIfMarker && BlockIfMarkerCheck(inp.seen(n).readOk, inp.seen(n).marker, inp.seen(n).now))
  }

  // The fold after m entries of the plan.
  ghost predicate FoldedTo(inp: Inputs, plan: seq<Entry>, m: nat, all: seq<PluginOutcome>, blockIntent: bool)
    requires m <= |plan|
  {
    var g := GateOutcomes(inp.gate, inp.gateText);
    && |all| == |g| + m
    && all[..|g|] == g
    && (forall n: nat :: n < m ==> all[|g| + n] == OutcomeAt(inp, plan, n))
    && (blockIntent <==> GateFired(inp.gate) || exists n: nat :: n < m && ExecutorBlocks(OutcomeAt(inp, plan, n)))
  }

  // One outcome for the gate if it fired, then one for every entry of the plan
  // in its place, whatever blocked before it.
  ghost predicate IsSummary(inp: Inputs, plan: seq<Entry>, s: Summary) {
    FoldedTo(inp, plan, |plan|, s.results, s.blockIntent) && s.exitCode == if s.blockIntent then 2 else 0
  }

  // The tier is the stretch of the plan that begins at `first`.
  predicate TierAt(plan: seq<Entry>, first: nat, tier: seq<Entry>) {
    first + |tier| <= |plan| && plan[first..first + |tier|] == tier
  }

  ghost predicate AllJoined(inp: Inputs, plan: seq<Entry>, first: nat, outcomes: seq<PluginOutcome>) {
    && first + |outcomes| <= |plan|
    && forall j: nat :: j < |outcomes| ==>
        outcomes[j] == JoinedOutcome(plan[first + j], inp.defaults, inp.fate(first + j))
  }

  // The outcomes of one tier, in task order.
  method ExecuteTier(inp: Inputs, ghost plan: seq<Entry>, first: nat, tier: seq<Entry>)
    returns (outcomes: seq<PluginOutcome>)
    requires TierAt(plan, first, tier)
    ensures |outcomes| == |tier| && AllJoined(inp, plan, first, outcomes)
  {
    outcomes := [];
    for j := 0 to |tier|
      invariant |outcomes| == j && AllJoined(inp, plan, first, outcomes)
    {
      assert tier[j] == plan[first..first + |tier|][j];
      outcomes := outcomes + [JoinedOutcome(tier[j], inp.defaults, inp.fate(first + j))];
    }
  }

  lemma {:induction false} FlattenSplit<T>(xss: seq<seq<T>>, i: nat)
    requires i < |xss|
    ensures Flatten(xss[..i + 1]) == Flatten(xss[..i]) + xss[i]
  {
    assert xss[..i + 1][..i] == xss[..i];
  }

  lemma {:induction false} FlattenPrefix<T>(xss: seq<seq<T>>, i: nat)
    requires i <= |xss|
    ensures Flatten(xss[..i]) <= Flatten(xss)
    decreases |xss| - i
  {
    if i == |xss| {
      assert xss[..i] == xss;
    } else {
      FlattenSplit(xss, i);
      FlattenPrefix(xss, i + 1);
    }
  }

  // The same, computed entry by entry.
  function Fold(inp: Inputs, plan: seq<Entry>, m: nat): (seq<PluginOutcome>, bool)
    requires m <= |plan|
  {
    if m == 0 then (GateOutcomes(inp.gate, inp.gateText), GateFired(inp.gate))
    else
      var (all, blockIntent) := Fold(inp, plan, m - 1);
      var o := OutcomeAt(inp, plan, m - 1);
      (all + [o], blockIntent || ExecutorBlocks(o))
  }

  lemma {:induction false} FoldIsFolded(inp: Inputs, plan: seq<Entry>, m: nat)
    requires m <= |plan|
    ensures FoldedTo(inp, plan, m, Fold(inp, plan, m).0, Fold(inp, plan, m).1)
    decreases m
  {
    if m > 0 {
      FoldIsFolded(inp, plan, m - 1);
    }
  }

  predicate AnyBlocks(os: seq<PluginOutcome>, n: nat)
    requires n <= |os|
  {
    exists m :: 0 <= m < n && ExecutorBlocks(os[m])
  }

  // The fold at `from`, gone on with the first n outcomes of os.
  predicate GoneOn(from: (seq<PluginOutcome>, bool), os: seq<PluginOutcome>, n: nat, to: (seq<PluginOutcome>, bool))
    requires n <= |os|
  {
    to.0 == from.0 + os[..n] && (to.1 <==> from.1 || AnyBlocks(os, n))
  }

  lemma OneFurther(from: (seq<PluginOutcome>, bool), os: seq<PluginOutcome>, n: nat, to: (seq<PluginOutcome>, bool))
    requires n < |os| && GoneOn(from, os, n, to)
    ensures GoneOn(from, os, n + 1, (to.0 + [os[n]], to.1 || ExecutorBlocks(os[n])))
  {
    assert (from.0 + os[..n]) + [os[n]] == from.0 + os[..n + 1];
  }

  lemma FoldOne(inp: Inputs, plan: seq<Entry>, m: nat)
    requires m < |plan|
    ensures var o := OutcomeAt(inp, plan, m);
            Fold(inp, plan, m + 1) == (Fold(inp, plan, m).0 + [o], Fold(inp, plan, m).1 || ExecutorBlocks(o))
  {
  }

  // The fold goes on with a tier's outcomes, one by one.
  lemma {:induction false} FoldGoesOn(inp: Inputs, plan: seq<Entry>, first: nat, examined: seq<PluginOutcome>, n: nat)
    requires n <= |examined| && first + |examined| <= |plan|
    requires forall m: nat :: m < |examined| ==> examined[m] == OutcomeAt(inp, plan, first + m)
    ensures GoneOn(Fold(inp, plan, first), examined, n, Fold(inp, plan, first + n))
    decreases n
  {
    if n == 0 {
      assert examined[..0] == [];
    } else {
      FoldGoesOn(inp, plan, first, examined, n - 1);
      OneFurther(Fold(inp, plan, first), examined, n - 1, Fold(inp, plan, first + n - 1));
      FoldOne(inp, plan, first + n - 1);
    }
  }

  // The crash gate and the block predicates over one tier's outcomes.
  method ExamineTier(inp: Inputs, ghost plan: seq<Entry>, first: nat, outcomes: seq<PluginOutcome>)
    returns (examined: seq<PluginOutcome>, blocked: bool)
    requires AllJoined(inp, plan, first, outcomes)
    ensures |examined| == |outcomes|
    ensures Fold(inp, plan, first + |outcomes|) ==
        (Fold(inp, plan, first).0 + examined, Fold(inp, plan, first).1 || blocked)
  {
    examined, blocked := outcomes, false;
    for j := 0 to |outcomes|
      invariant |examined| == |outcomes| && forall m :: j <= m < |outcomes| ==> examined[m] == outcomes[m]
      invariant forall m: nat :: m < j ==> examined[m] == OutcomeAt(inp, plan, first + m)
      invariant blocked == AnyBlocks(examined, j)
    {
      var o := Examined(examined[j], inp.seen(first + j));
      ghost var was := examined;
      examined := examined[j := o];
      assert forall m :: 0 <= m < j ==> examined[m] == was[m];
      assert AnyBlocks(examined, j + 1) <==> AnyBlocks(was, j) || ExecutorBlocks(examined[j]);
      if PluginRequestsBlock(o.result) || PluginFailClosed(o.result, o.onError) || o.markerFired {
        blocked := true;
      }
    }
    FoldGoesOn(inp, plan, first, examined, |examined|);
    assert examined[..|examined|] == examined;
  }

  // What the loop over the tiers has when it comes to tier i.
  ghost predicate FoldedAt(inp: Inputs, tiers: seq<seq<Entry>>, i: nat, first: nat, all: seq<PluginOutcome>,
                           blockIntent: bool)
    requires i <= |tiers|
  {
    && first == FirstOf(tiers, i) && first <= |Flatten(tiers)|
    && Fold(inp, Flatten(tiers), first) == (all, blockIntent)
  }

  lemma FoldStarts(inp: Inputs, tiers: seq<seq<Entry>>)
    ensures FoldedAt(inp, tiers, 0, 0, GateOutcomes(inp.gate, inp.gateText), GateFired(inp.gate))
  {
  }

  // One tier: its tasks are run, then their outcomes examined.
  method RunTier(inp: Inputs, ghost plan: seq<Entry>, first: nat, tier: seq<Entry>, all: seq<PluginOutcome>,
                 blockIntent: bool)
    returns (all': seq<PluginOutcome>, blockIntent': bool)
    requires TierAt(plan, first, tier) && Fold(inp, plan, first) == (all, blockIntent)
    ensures Fold(inp, plan, first + |tier|) == (all', blockIntent')
  {
    var outcomes := ExecuteTier(inp, plan, first, tier);
    var examined, blocked := ExamineTier(inp, plan, first, outcomes);
    all', blockIntent' := all + examined, blockIntent || blocked;
  }

  lemma FoldedTier(inp: Inputs, tiers: seq<seq<Entry>>, i: nat, first: nat, all: seq<PluginOutcome>, blockIntent: bool)
    requires i < |tiers| && FoldedAt(inp, tiers, i, first, all, blockIntent)
    ensures TierAt(Flatten(tiers), first, tiers[i]) && Fold(inp, Flatten(tiers), first) == (all, blockIntent)
    ensures first == FirstOf(tiers, i)
  {
    TierInPlan(tiers, i);
  }

  lemma FoldAdvances(inp: Inputs, tiers: seq<seq<Entry>>, i: nat, first: nat, all: seq<PluginOutcome>,
                     blockIntent: bool)
    requires i < |tiers| && first == FirstOf(tiers, i) && TierAt(Flatten(tiers), first, tiers[i])
    requires Fold(inp, Flatten(tiers), first + |tiers[i]|) == (all, blockIntent)
    ensures FoldedAt(inp, tiers, i + 1, first + |tiers[i]|, all, blockIntent)
  {
  }

  lemma FoldEnds(inp: Inputs, tiers: seq<seq<Entry>>, first: nat, s: Summary)
    requires FoldedAt(inp, tiers, |tiers|, first, s.results, s.blockIntent)
    requires s.exitCode == if s.blockIntent then 2 else 0
    ensures IsSummary(inp, Flatten(tiers), s)
  {
    EndsAtPlan(tiers);
    FoldIsSummary(inp, Flatten(tiers), s);
  }

  method ExecuteTiers(inp: Inputs, tiers: seq<seq<Entry>>) returns (s: Summary)
    ensures IsSummary(inp, Flatten(tiers), s)
  {
    var all, blockIntent := GateOutcomes(inp.gate, inp.gateText), GateFired(inp.gate);
    var first: nat := 0;
    FoldStarts(inp, tiers);
    for i := 0 to |tiers|
      invariant FoldedAt(inp, tiers, i, first, all, blockIntent)
    {
      FoldedTier(inp, tiers, i, first, all, blockIntent);
      all, blockIntent := RunTier(inp, Flatten(tiers), first, tiers[i], all, blockIntent);
      FoldAdvances(inp, tiers, i, first, all, blockIntent);
      first := first + |tiers[i]|;
    }
    s := Summary(all, blockIntent, if blockIntent then 2 else 0);
    FoldEnds(inp, tiers, first, s);
  }

  lemma FoldIsSummary(inp: Inputs, plan: seq<Entry>, s: Summary)
    requires Fold(inp, plan, |plan|) == (s.results, s.blockIntent) && s.exitCode == if s.blockIntent then 2 else 0
    ensures IsSummary(inp, plan, s)
  {
    FoldIsFolded(inp, plan, |plan|);
  }

  // Where tier i begins in the plan.
  function FirstOf(tiers: seq<seq<Entry>>, i: nat): nat
    requires i <= |tiers|
  {
    if i == 0 then 0 else FirstOf(tiers, i - 1) + |tiers[i - 1]|
  }

  lemma {:induction false} FirstIsLength(tiers: seq<seq<Entry>>, i: nat)
    requires i <= |tiers|
    ensures FirstOf(tiers, i) == |Flatten(tiers[..i])|
    decreases i
  {
    if i > 0 {
      FirstIsLength(tiers, i - 1);
      FlattenSplit(tiers, i - 1);
    }
  }

  lemma EndsAtPlan(tiers: seq<seq<Entry>>)
    ensures FirstOf(tiers, |tiers|) == |Flatten(tiers)|
  {
    FirstIsLength(tiers, |tiers|);
    assert tiers[..|tiers|] == tiers;
  }

  lemma TierInPlan(tiers: seq<seq<Entry>>, i: nat)
    requires i < |tiers|
    ensures FirstOf(tiers, i + 1) == FirstOf(tiers, i) + |tiers[i]|
    ensures TierAt(Flatten(tiers), FirstOf(tiers, i), tiers[i])
  {
    FirstIsLength(tiers, i);
    FlattenSplit(tiers, i);
    FlattenPrefix(tiers, i + 1);
  }

  // ---- the exit code ---------------------------------------------------------

  function AggregatorView(os: seq<PluginOutcome>): seq<(Byte, OnError)> {
    seq(|os|, i requires 0 <= i < |os| => (ResultByte(os[i].result), os[i].onError))
  }

  function FinalExitCode(event: string, s: Summary): int {
    if IsAdvisoryOnly(FromEventStr(event)) then 0
    else if s.exitCode == 2 || AggregateExitCode(AggregatorView(s.results)) == 2 then 2
    else 0
  }

  // The path taken when there is nothing to run.
  function ShortCircuitExitCode(event: string, gate: Option<HookResult>): int {
    if gate.None? then 0
    else if IsAdvisoryOnly(FromEventStr(event)) then 0
    else if GateFired(gate) then 2
    else 0
  }

  // An exit code other than 2 that the cast to one byte turns into 2.
  predicate Wraps(o: PluginOutcome) {
    o.result.Exited? && o.result.exitCode != 2 && AsU8(o.result.exitCode) == 2 && o.onError == Block
  }

  predicate Aggregated(o: PluginOutcome) {
    ResultByte(o.result) == 2 && o.onError == Block
  }

  lemma AggregateExact(os: seq<PluginOutcome>)
    ensures AggregateExitCode(AggregatorView(os)) == 2 <==> exists i: nat :: i < |os| && Aggregated(os[i])
  {
    var view := AggregatorView(os);
    forall i: nat | i < |os| ensures Aggregated(os[i]) <==> view[i].0 == 2 && view[i].1 == Block {}
    if i :| 0 <= i < |view| && view[i].0 == 2 && view[i].1 == Block {
      assert Aggregated(os[i]);
    }
    if i: nat :| i < |os| && Aggregated(os[i]) {
      assert view[i].0 == 2 && view[i].1 == Block;
    }
  }

  // The three predicates, outcome by outcome.
  lemma PredicatesAgree(inp: Inputs, plan: seq<Entry>, n: nat)
    requires n < |plan|
    ensures var o := OutcomeAt(inp, plan, n);
            && (IsBlocking(o) || Wraps(o) <==> ExecutorBlocks(o) || Aggregated(o))
            && (ExecutorBlocks(o) || Aggregated(o) <==> BlocksAt(inp, plan, n))
  {
  }

  lemma IntentOrAggregate(inp: Inputs, plan: seq<Entry>, s: Summary, n: nat)
    requires IsSummary(inp, plan, s) && n < |plan|
    requires BlocksAt(inp, plan, n)
    ensures s.exitCode == 2 || AggregateExitCode(AggregatorView(s.results)) == 2
  {
    PredicatesAgree(inp, plan, n);
    AggregateExact(s.results);
    var i := |GateOutcomes(inp.gate, inp.gateText)| + n;
    assert s.results[i] == OutcomeAt(inp, plan, n);
  }

  // The exit code, from what the dispatch was given: 2 exactly when the gate
  // fired or some entry blocks, except on PostCompact.
  lemma ExitCodeExact(inp: Inputs, plan: seq<Entry>, s: Summary, event: string)
    requires IsSummary(inp, plan, s)
    ensures FinalExitCode(event, s) == 2 <==>
            event != "PostCompact" && (GateFired(inp.gate) || exists n: nat :: n < |plan| && BlocksAt(inp, plan, n))
    ensures FinalExitCode(event, s) in {0, 2}
  {
    if n: nat :| n < |plan| && BlocksAt(inp, plan, n) {
      IntentOrAggregate(inp, plan, s, n);
    }
    AggregateExact(s.results);
    var g := |GateOutcomes(inp.gate, inp.gateText)|;
    if i: nat :| i < |s.results| && Aggregated(s.results[i]) {
      if i < g {
        assert GateFired(inp.gate);
      } else {
        assert s.results[g + (i - g)] == OutcomeAt(inp, plan, i - g);
        PredicatesAgree(inp, plan, i - g);
      }
    }
    if n: nat :| n < |plan| && ExecutorBlocks(OutcomeAt(inp, plan, n)) {
      PredicatesAgree(inp, plan, n);
    }
  }

  lemma BlockersExact(os: seq<PluginOutcome>)
    ensures Blockers(os) != [] <==> exists i: nat :: i < |os| && IsBlocking(os[i])
  {
    if Blockers(os) != [] {
      var o := Blockers(os)[0];
      FilterMember(os, IsBlocking, o);
    }
    if i: nat :| i < |os| && IsBlocking(os[i]) {
      FilterMember(os, IsBlocking, os[i]);
    }
  }

  // A fired gate is reported as the first blocker, under its own name and with its
  // own text.
  lemma GateIsFirstBlocker(inp: Inputs, plan: seq<Entry>, s: Summary)
    requires IsSummary(inp, plan, s) && GateFired(inp.gate)
    ensures Blockers(s.results) != []
    ensures var o := Blockers(s.results)[0];
            o.name == "shard-cap-gate" && o.result == Exited(2, inp.gateText(inp.gate.value)) && o.onError == Block
  {
    var g := GateOutcomes(inp.gate, inp.gateText);
    assert s.results[..1] == g && IsBlocking(g[0]);
    FilterHead(s.results, IsBlocking);
  }

  lemma {:induction false} FilterHead<T>(xs: seq<T>, keep: T -> bool)
    requires xs != [] && keep(xs[0])
    ensures Filter(xs, keep) != [] && Filter(xs, keep)[0] == xs[0]
    decreases |xs|
  {
    var init := xs[..|xs| - 1];
    if init == [] {
      assert Filter(init, keep) == [];
    } else {
      FilterHead(init, keep);
    }
  }

  lemma BlockerHasSource(inp: Inputs, plan: seq<Entry>, s: Summary, i: nat)
    requires IsSummary(inp, plan, s) && i < |s.results| && (IsBlocking(s.results[i]) || Wraps(s.results[i]))
    ensures GateFired(inp.gate) || exists n: nat :: n < |plan| && BlocksAt(inp, plan, n)
  {
    var g := |GateOutcomes(inp.gate, inp.gateText)|;
    if i >= g {
      assert s.results[g + (i - g)] == OutcomeAt(inp, plan, i - g);
      PredicatesAgree(inp, plan, i - g);
    }
  }

  // The three predicates agree but for the cast: the exit code is 2 exactly
  // when some blocker is listed or some exit code wraps to 2.
  lemma VerdictExact(inp: Inputs, plan: seq<Entry>, s: Summary, event: string)
    requires IsSummary(inp, plan, s) && event != "PostCompact"
    ensures FinalExitCode(event, s) == 2 <==>
            Blockers(s.results) != [] || exists i: nat :: i < |s.results| && Wraps(s.results[i])
  {
    ExitCodeExact(inp, plan, s, event);
    BlockersExact(s.results);
    if i: nat :| i < |s.results| && (IsBlocking(s.results[i]) || Wraps(s.results[i])) {
      BlockerHasSource(inp, plan, s, i);
    }
    if GateFired(inp.gate) {
      GateIsFirstBlocker(inp, plan, s);
    }
    if n: nat :| n < |plan| && BlocksAt(inp, plan, n) {
      assert s.results[|GateOutcomes(inp.gate, inp.gateText)| + n] == OutcomeAt(inp, plan, n);
      PredicatesAgree(inp, plan, n);
    }
  }

  // For exit codes that fit in a byte the cast changes nothing.
  lemma VerdictAgreement(inp: Inputs, plan: seq<Entry>, s: Summary, event: string)
    requires IsSummary(inp, plan, s) && event != "PostCompact"
    requires forall i :: 0 <= i < |s.results| && s.results[i].result.Exited? ==>
        0 <= s.results[i].result.exitCode <= 255
    ensures FinalExitCode(event, s) == 2 <==> Blockers(s.results) != []
  {
    VerdictExact(inp, plan, s, event);
  }

  // Outside that range a dispatch can exit 2 and name no blocking plugin.
  lemma WrappedExitCodeNamesNoBlocker(e: Entry, d: Defaults, now: int)
    requires EffectiveOnError(e, d) == Block
    ensures exists inp: Inputs, s: Summary ::
              IsSummary(inp, [e], s) && FinalExitCode("PreToolUse", s) == 2 && Blockers(s.results) == []
  {
    var inp := Inputs(d, None, _ => "", _ => Some(Exited(258, "")), _ => Sight(true, None, now, None));
    var o := PluginOutcome(e.name, Block, Exited(258, ""), false, None);
    var s := Summary([o], false, 0);
    assert OutcomeAt(inp, [e], 0) == o;
    assert !Contains("", BLOCK_JSON);
    assert IsSummary(inp, [e], s);
    assert Wraps(s.results[0]);
    VerdictExact(inp, [e], s, "PreToolUse");
    BlockersExact(s.results);
  }

  // With nothing to run, the short circuit gives the full path's exit code, and
  // reports the same outcomes.
  lemma ShortCircuitAgrees(inp: Inputs, s: Summary, event: string)
    requires IsSummary(inp, Flatten([]), s)
    ensures ShortCircuitExitCode(event, inp.gate) == FinalExitCode(event, s)
    ensures s.results == GateOutcomes(inp.gate, inp.gateText)
  {
    ExitCodeExact(inp, [], s, event);
  }

  // Entry n blocks whatever the marker.
  predicate AsksToBlock(inp: Inputs, plan: seq<Entry>, n: nat)
    requires n < |plan|
  {
    inp.fate(n).Some? &&
    match inp.fate(n).value
    case Exited(code, stdout) =>
      || Contains(stdout, "\"outcome\":\"block\"")
      || (OwnOnError(plan[n], inp.defaults) == Block && code as int % 256 == 2)
    case _ => OwnOnError(plan[n], inp.defaults) == Block
  }

  // Entry n is a block_if_marker gate that died.
  predicate GateDied(inp: Inputs, plan: seq<Entry>, n: nat)
    requires n < |plan|
  {
    OwnOnError(plan[n], inp.defaults) == BlockIfMarker && inp.fate(n).Some? && !inp.fate(n).value.Exited?
  }

  lemma BlocksBySource(inp: Inputs, plan: seq<Entry>, n: nat)
    requires n < |plan|
    ensures BlocksAt(inp, plan, n) <==>
            || AsksToBlock(inp, plan, n)
            || (GateDied(inp, plan, n) && BlockIfMarkerCheck(inp.seen(n).readOk, inp.seen(n).marker, inp.seen(n).now))
  {
  }

  function TextIn(found: Option<string>): Option<Reason> {
    if found.Some? then Some(Text(found.value)) else None
  }

  // Where the reason of entry n comes from: the marker if that is what blocks, the
  // "reason" of a block, the "message" of an error, or the way the plugin died.
  lemma ReasonExact(inp: Inputs, plan: seq<Entry>, n: nat, field: (string, string) -> Option<string>)
    requires n < |plan| && inp.fate(n).Some?
    ensures var reason, seen := ReasonOf(OutcomeAt(inp, plan, n), field), inp.seen(n);
            if GateDied(inp, plan, n) && BlockIfMarkerCheck(seen.readOk, seen.marker, seen.now)
            then reason == Some(LiveMarker(seen.reread))
            else match inp.fate(n).value
                 case Crashed => reason == Some(PluginCrashed)
                 case Timeout(Fuel) => reason == Some(FuelExhausted)
                 case Timeout(Epoch) => reason == Some(TimedOut)
                 case Exited(_, stdout) =>
                   && (Contains(stdout, "\"outcome\":\"block\"") ==> reason == TextIn(field(stdout, "reason")))
                   && (!Contains(stdout, "\"outcome\":\"block\"") && Contains(stdout, "\"outcome\":\"error\"") ==>
                         reason == TextIn(field(stdout, "message")))
                   && (!Contains(stdout, "\"outcome\":\"block\"") && !Contains(stdout, "\"outcome\":\"error\"") ==>
                         reason == None)
  {
  }

  // A successful fail-closed write less than a day before `now` is still in
  // place in state k of a marker run.
  ghost predicate LiveWrite(states: seq<State>, actions: seq<Action>, k: nat, now: int)
    requires k < |states|
  {
    exists j, m {:trigger WritesMarker(states, actions, j, m)} ::
      j < k && WritesMarker(states, actions, j, m) && states[k].marker == Some(m) &&
      actions[j].now <= now < actions[j].now + 86_400
  }

  // The outcome of entry n was examined in state at(n) of the marker run.
  ghost predicate ExaminedIn(inp: Inputs, states: seq<State>, actions: seq<Action>, at: nat -> nat, n: nat) {
    && at(n) < |states| && inp.seen(n).marker == states[at(n)].marker
    && forall i :: 0 <= i < at(n) && i < |actions| ==> actions[i].now <= inp.seen(n).now
  }

  ghost predicate DiedUnderLiveMarker(inp: Inputs, plan: seq<Entry>, states: seq<State>, actions: seq<Action>,
                                      at: nat -> nat, n: nat)
    requires n < |plan|
  {
    GateDied(inp, plan, n) && inp.seen(n).readOk && at(n) < |states| &&
        LiveWrite(states, actions, at(n), inp.seen(n).now)
  }

  // The quarantine end to end, for any dispatch: it exits 2 exactly when the
  // native gate fired, some entry blocks by itself, or a block_if_marker gate died
  // while a marker written less than a day earlier was in place and could be read.
  lemma QuarantineVerdict(inp: Inputs, plan: seq<Entry>, s: Summary, event: string,
                          states: seq<State>, actions: seq<Action>, at: nat -> nat)
    requires IsSummary(inp, plan, s) && IsRun(states, actions)
    requires forall n: nat :: n < |plan| && GateDied(inp, plan, n) ==> ExaminedIn(inp, states, actions, at, n)
    ensures FinalExitCode(event, s) == 2 <==>
            event != "PostCompact" &&
            (|| GateFired(inp.gate)
             || (exists n: nat :: n < |plan| && AsksToBlock(inp, plan, n))
             || (exists n: nat :: n < |plan| && DiedUnderLiveMarker(inp, plan, states, actions, at, n)))
  {
    ExitCodeExact(inp, plan, s, event);
    forall n: nat | n < |plan|
      ensures BlocksAt(inp, plan, n) <==>
              AsksToBlock(inp, plan, n) || DiedUnderLiveMarker(inp, plan, states, actions, at, n)
    {
      BlocksBySource(inp, plan, n);
      if GateDied(inp, plan, n) {
        BoundedQuarantine(states, actions, at(n), inp.seen(n).readOk, inp.seen(n).now);
      }
    }
  }

  ghost predicate DiedUnderRacedMarker(inp: Inputs, plan: seq<Entry>, states: seq<R.State>, actions: seq<R.Action>,
                                       at: nat -> nat, n: nat)
    requires n < |plan|
  {
    && GateDied(inp, plan, n) && inp.seen(n).readOk && at(n) < |states|
    && QuarantineRaces.LiveWrite(states, actions, at(n), inp.seen(n).now)
  }

  // The same over any interleaving of marker operations.
  lemma RacedQuarantineVerdict(inp: Inputs, plan: seq<Entry>, s: Summary, event: string,
                               states: seq<R.State>, actions: seq<R.Action>, at: nat -> nat)
    requires IsSummary(inp, plan, s) && R.IsRun(states, actions)
    requires forall n: nat :: n < |plan| && GateDied(inp, plan, n) ==>
               at(n) < |states| && inp.seen(n).marker == states[at(n)].marker
    ensures FinalExitCode(event, s) == 2 <==>
            event != "PostCompact" &&
            (|| GateFired(inp.gate)
             || (exists n: nat :: n < |plan| && AsksToBlock(inp, plan, n))
             || (exists n: nat :: n < |plan| && DiedUnderRacedMarker(inp, plan, states, actions, at, n)))
  {
    ExitCodeExact(inp, plan, s, event);
    forall n: nat | n < |plan|
      ensures BlocksAt(inp, plan, n) <==>
              AsksToBlock(inp, plan, n) || DiedUnderRacedMarker(inp, plan, states, actions, at, n)
    {
      BlocksBySource(inp, plan, n);
      if GateDied(inp, plan, n) {
        QuarantineRaces.RacedBoundedQuarantine(states, actions, at(n), inp.seen(n).readOk, inp.seen(n).now);
      }
    }
  }

  function EntryNames(es: seq<Entry>): seq<string> {
    seq(|es|, i requires 0 <= i < |es| => es[i].name)
  }

  lemma NameAt(inp: Inputs, plan: seq<Entry>, s: Summary, n: nat)
    requires IsSummary(inp, plan, s) && n < |plan| && inp.fate(n).Some?
    ensures s.results[|GateOutcomes(inp.gate, inp.gateText)| + n].name == plan[n].name
  {
    assert s.results[|GateOutcomes(inp.gate, inp.gateText)| + n] == OutcomeAt(inp, plan, n);
  }

  lemma NamesInOrder(inp: Inputs, plan: seq<Entry>, s: Summary)
    requires IsSummary(inp, plan, s) && forall n: nat :: n < |plan| ==> inp.fate(n).Some?
    ensures Names(s.results) == Names(GateOutcomes(inp.gate, inp.gateText)) + EntryNames(plan)
  {
    var g := GateOutcomes(inp.gate, inp.gateText);
    forall i | 0 <= i < |s.results| ensures Names(s.results)[i] == (Names(g) + EntryNames(plan))[i] {
      if i < |g| {
        assert s.results[i] == s.results[..|g|][i];
      } else {
        NameAt(inp, plan, s, i - |g|);
      }
    }
  }

  // Grouping loses no entry and the fold skips none: a run reports one outcome
  // per sync entry, under its name unless its task was lost, plus one for a
  // fired gate.
  lemma OneOutcomePerEntry(inp: Inputs, syncGroup: seq<Entry>, tiers: seq<seq<Entry>>, ps: seq<nat>, s: Summary)
    requires IsTiering(syncGroup, inp.defaults, tiers, ps) && IsSummary(inp, Flatten(tiers), s)
    ensures |s.results| == |syncGroup| + (if GateFired(inp.gate) then 1 else 0)
    ensures (forall n: nat :: n < |syncGroup| ==> inp.fate(n).Some?) ==>
              Names(s.results) == Names(GateOutcomes(inp.gate, inp.gateText)) + EntryNames(Flatten(tiers))
    ensures multiset(Flatten(tiers)) == multiset(syncGroup)
  {
    TieringConserves(syncGroup, inp.defaults, tiers, ps);
    var plan := Flatten(tiers);
    assert |plan| == |multiset(plan)| == |multiset(syncGroup)| == |syncGroup|;
    if forall n: nat :: n < |syncGroup| ==> inp.fate(n).Some? {
      NamesInOrder(inp, plan, s);
    }
  }
}
