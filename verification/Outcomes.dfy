// Plugin results, their three-valued classification, and the registry policies
// that later decisions combine them with.
module Outcomes {
  datatype OnError = Continue | Block | BlockIfMarker

  datatype FailurePolicy = FailClosed | FailOpen

  datatype TimeoutCause = Fuel | Epoch

  type Int32 = x: int | -0x8000_0000 <= x < 0x8000_0000

  // Exited is the source's `PluginResult::Ok`.
  datatype PluginResult =
    | Exited(exitCode: Int32, stdout: string)
    | Timeout(cause: TimeoutCause)
    | Crashed

  datatype IndeterminateCause = OutOfFuel | EpochElapsed | OutputTooLarge

  datatype DispatchOutcome =
    | Pass
    | Fail(exitCode: Int32)
    | Indeterminate(cause: IndeterminateCause)

  function ClassifyOutcome(result: PluginResult, outputTooLarge: bool): DispatchOutcome {
    match result
    case Timeout(Fuel) => Indeterminate(OutOfFuel)
    case Timeout(Epoch) => Indeterminate(EpochElapsed)
    case Exited(exitCode, _) =>
      if outputTooLarge && exitCode == 0 then Indeterminate(OutputTooLarge)
      else if exitCode == 0 then Pass
      else Fail(exitCode)
    case Crashed => Fail(1)
  }

  predicate ShouldWriteMarker(outcome: DispatchOutcome, policy: FailurePolicy) {
    outcome.Indeterminate? && policy == FailClosed
  }

  function CauseText(cause: IndeterminateCause): string {
    match cause
    case OutOfFuel => "fuel"
    case EpochElapsed => "epoch"
    case OutputTooLarge => "output-too-large"
  }

  // Plugins serialize a block as tagged JSON; the dispatcher looks for the tag.
  const BLOCK_JSON := "\"outcome\":\"block\""

  predicate MatchesAt(text: string, i: nat, pattern: string) {
    i + |pattern| <= |text| && text[i..i + |pattern|] == pattern
  }

  predicate Contains(text: string, pattern: string) {
    exists i: nat :: i <= |text| && MatchesAt(text, i, pattern)
  }

  // A text contains a pattern exactly when it has a part before it and one after.
  lemma ContainsExact(text: string, pattern: string)
    ensures Contains(text, pattern) <==> exists before, after :: text == before + pattern + after
  {
    if i: nat :| i <= |text| && MatchesAt(text, i, pattern) {
      assert text == text[..i] + pattern + text[i + |pattern|..];
    }
    if before, after :| text == before + pattern + after {
      assert text[|before|..|before| + |pattern|] == pattern;
      assert MatchesAt(text, |before|, pattern);
    }
  }

  // Only an exit with code 0 passes, and only if nothing was withheld; what was cut
  // short is indeterminate; a crash or another exit code is a failure.
  lemma ClassifyExact(result: PluginResult, outputTooLarge: bool)
    ensures var outcome := ClassifyOutcome(result, outputTooLarge);
            && (outcome.Pass? <==> result.Exited? && result.exitCode == 0 && !outputTooLarge)
            && (outcome == Fail(1) <==> result.Crashed? || (result.Exited? && result.exitCode == 1))
            && (forall code: Int32 :: outcome == Fail(code) && result.Exited? ==> code == result.exitCode != 0)
            && (outcome == Indeterminate(OutOfFuel) <==> result == Timeout(Fuel))
            && (outcome == Indeterminate(EpochElapsed) <==> result == Timeout(Epoch))
            && (outcome == Indeterminate(OutputTooLarge) <==> result.Exited? && result.exitCode == 0 && outputTooLarge)
  {
  }
}
