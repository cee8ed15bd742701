/** `explain_interpretation` (pages/Reality_Verification_Engine.py): the six
    explanation lines and five provenance checks shown for a claim.

    `int(x*100)` truncates toward zero and is modelled exactly; the `:.2f`
    rendering of the drift is a parameter `fixed2`. */
module VerificationPage {
  import opened Text
  import opened Ledger

  /** The completeness each provenance check requires, in display order. */
  const Thresholds: seq<real> := [0.17, 0.34, 0.50, 0.67, 0.84]

  const CheckLabels: seq<string> := [
    "\U{2022} Timestamp present? ",
    "\U{2022} Method documented? ",
    "\U{2022} Hash/immutability? ",
    "\U{2022} Chain-of-custody? ",
    "\U{2022} Reproducible steps? "]

  const Pass: string := "\U{2705}"
  const Warn: string := "\U{26A0}\U{FE0F}"

  /** The two fixed formula lines of the explanation. */
  const DriftFormula: string := "Story change (drift) = 3.0 - 2.0\U{D7}evidence - 0.4\U{D7}sources, clamped to [0,5]."
  const ConfidenceFormula: string := "Confidence = 0.6\U{D7}evidence + 0.4\U{D7}(sources/3), attenuated by drift/10."

  /** Python's `int(x)` on a float: truncation toward zero. */
  function Trunc(x: real): (n: int)
    ensures x >= 0.0 ==> n as real <= x < n as real + 1.0
    ensures x < 0.0 ==> n as real - 1.0 < x <= n as real
  {
    if x >= 0.0 then x.Floor else -((-x).Floor)
  }

  /** Check `i` passes when the completeness reaches its threshold. */
  function CheckLine(i: nat, pc: real): (line: string)
    requires i < |Thresholds|
    ensures line == CheckLabels[i] + Pass || line == CheckLabels[i] + Warn
    ensures line == CheckLabels[i] + Pass <==> pc >= Thresholds[i]
  {
    CheckLabels[i] + (if pc >= Thresholds[i] then Pass else Warn)
  }

  function Checks(pc: real): (checks: seq<string>)
    ensures |checks| == |Thresholds|
    ensures forall i :: 0 <= i < |Thresholds| ==> checks[i] == CheckLine(i, pc)
  {
    seq(|Thresholds|, i requires 0 <= i < |Thresholds| => CheckLine(i, pc))
  }

  predicate Passes(checks: seq<string>, i: nat)
    requires i < |checks| && i < |CheckLabels|
  {
    checks[i] == CheckLabels[i] + Pass
  }

  /** The six explanation steps. */
  function StepLines(s: Scores, fixed2: real -> string): (steps: seq<string>)
    ensures |steps| == 6
    ensures steps[1] == "Unique sources = " + IntToString(s.ind) + " / 3."
  {
    [
      "Evidence strength = " + IntToString(Trunc(s.pc * 100.0)) + "% (filled provenance items / total).",
      "Unique sources = " + IntToString(s.ind) + " / 3.",
      DriftFormula,
      "\U{2192} Drift = " + fixed2(s.drift),
      ConfidenceFormula,
      "\U{2192} Confidence = " + IntToString(Trunc(s.conf * 100.0)) + "%"]
  }

  /** `explain_interpretation(claim)`: six step lines and five check lines. */
  function ExplainInterpretation(s: Scores, fixed2: real -> string): (res: (seq<string>, seq<string>))
    ensures |res.0| == 6 && |res.1| == 5
    ensures forall i :: 0 <= i < 5 ==> (Passes(res.1, i) <==> s.pc >= Thresholds[i])
    ensures res.0[1] == "Unique sources = " + IntToString(s.ind) + " / 3."
  {
    (StepLines(s, fixed2), Checks(s.pc))
  }

  /** The thresholds increase strictly. */
  lemma ThresholdsIncrease()
    ensures forall a, b :: 0 <= a < b < |Thresholds| ==> Thresholds[a] < Thresholds[b]
  {
  }

  /** How many of the checks from index `i` on pass, counted one by one. */
  function CountFrom(pc: real, i: nat): (n: nat)
    requires i <= |Thresholds|
    ensures n <= |Thresholds| - i
    decreases |Thresholds| - i
  {
    if i == |Thresholds| then 0 else (if pc >= Thresholds[i] then 1 else 0) + CountFrom(pc, i + 1)
  }

  /** How many of the five checks pass. */
  function PassCount(pc: real): (n: nat)
    ensures n <= |Thresholds|
  {
    CountFrom(pc, 0)
  }

  lemma {:induction false} CountFromPrefix(pc: real, i: nat)
    requires i <= |Thresholds|
    ensures forall j :: i <= j < |Thresholds| ==> (j < i + CountFrom(pc, i) <==> pc >= Thresholds[j])
    decreases |Thresholds| - i
  {
    if i < |Thresholds| {
      CountFromPrefix(pc, i + 1);
      ThresholdsIncrease();
    }
  }

  /** Because the thresholds increase, the passing checks are always the
      first `PassCount(pc)` of the list. */
  lemma PassingChecksFormPrefix(s: Scores, fixed2: real -> string)
    ensures var checks := ExplainInterpretation(s, fixed2).1;
      forall j :: 0 <= j < |Thresholds| ==> (Passes(checks, j) <==> j < PassCount(s.pc))
  {
    CountFromPrefix(s.pc, 0);
  }

  /** Completeness 0.84 or more passes every check; below 0.17 passes none. */
  lemma AllOrNone(pc: real)
    ensures pc >= 0.84 ==> PassCount(pc) == 5
    ensures pc < 0.17 ==> PassCount(pc) == 0
  {
    CountFromPrefix(pc, 0);
    ThresholdsIncrease();
  }

  /** With the page's six provenance boxes, `k` ticked boxes give pc = k/6 and
      pass 0, 0, 1, 3, 3, 4, 5 checks: 1/6 is below 0.17 and 4/6 below 0.67. */
  lemma FormPassCounts(k: nat, sources: int)
    requires k <= 6
    ensures PassCount(ScoreClaim(k, 6, sources).pc) == [0, 0, 1, 3, 3, 4, 5][k]
  {
    var pc := ScoreClaim(k, 6, sources).pc;
    assert pc == k as real / 6.0;
    CountFromPrefix(pc, 0);
    ThresholdsIncrease();
  }
}
