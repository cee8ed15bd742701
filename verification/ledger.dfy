/** Claim scoring and drift history (rve/ledger.py), as pure record updates.

    A claim's scores are derived from three integers: how many provenance
    fields are filled, how many there are, and how many independent sources
    confirm it.  The database session is replaced by the claim count it is
    asked for, and a claim's drift history rows by a sequence of values. */
module Ledger {
  import opened Text

  datatype Scores = Scores(pc: real, ind: int, drift: real, conf: real)

  datatype Claim = Claim(
    claimId: string,
    text: string,
    volatility: string,
    scores: Scores,
    history: seq<real>)

  /** The clamp `max(lo, min(hi, x))` on scores. */
  function ClampReal(lo: real, hi: real, x: real): (r: real)
    requires lo <= hi
    ensures lo <= r <= hi
    ensures lo <= x <= hi ==> r == x
    ensures x < lo ==> r == lo
    ensures x > hi ==> r == hi
  {
    if x < lo then lo else if x > hi then hi else x
  }

  /** The integer clamp `max(0, min(3, ...))` applied to the independent
      source count (rve/ledger.py:96). */
  function ClampInt(lo: int, hi: int, x: int): (r: int)
    requires lo <= hi
    ensures lo <= r <= hi
    ensures lo <= x <= hi ==> r == x
    ensures x < lo ==> r == lo
    ensures x > hi ==> r == hi
  {
    if x < lo then lo else if x > hi then hi else x
  }

  lemma ClampMonotone(lo: real, hi: real, x: real, y: real)
    requires lo <= hi && x <= y
    ensures ClampReal(lo, hi, x) <= ClampReal(lo, hi, y)
  {
  }

  /** A quotient of a non-negative number by a larger one lies in [0, 1]. */
  lemma QuotientInUnit(a: real, d: real)
    requires 0.0 <= a <= d && 0.0 < d
    ensures 0.0 <= a / d <= 1.0
  {
    var q := a / d;
    assert q * d == a;
    assert (1.0 - q) * d == d - a;
  }

  /** Provenance completeness: filled fields over `max(total, 1)`. */
  function Completeness(provFields: int, provTotal: int): (pc: real)
    ensures provTotal >= 1 ==> pc * provTotal as real == provFields as real
    ensures provTotal < 1 ==> pc == provFields as real
    ensures 0 <= provFields <= provTotal ==> 0.0 <= pc <= 1.0
  {
    var d := if provTotal > 1 then provTotal else 1;
    if 0 <= provFields <= provTotal then
      QuotientInUnit(provFields as real, d as real);
      provFields as real / d as real
    else provFields as real / d as real
  }

  /** The unclamped drift 3 - 2*pc - 0.4*ind. */
  function RawDrift(pc: real, ind: int): real {
    3.0 - pc * 2.0 - 0.4 * ind as real
  }

  /** Drift clamped to [0, 5]. */
  function Drift(pc: real, ind: int): (d: real)
    ensures 0.0 <= d <= 5.0
  {
    ClampReal(0.0, 5.0, RawDrift(pc, ind))
  }

  /** The evidence term: completeness weighted 0.6, sources out of three 0.4. */
  function Evidence(pc: real, ind: int): real {
    0.6 * pc + 0.4 * (ind as real / 3.0)
  }

  /** The drift attenuation factor 1 - drift/10. */
  function Attenuation(drift: real): real {
    1.0 - drift / 10.0
  }

  /** A product clamped to [0, 1]. */
  function ClampedProduct(a: real, b: real): real {
    ClampReal(0.0, 1.0, a * b)
  }

  /** Confidence: evidence and sources, attenuated by drift/10, clamped to [0, 1]. */
  function Confidence(pc: real, ind: int, drift: real): (c: real)
    ensures 0.0 <= c <= 1.0
  {
    ClampedProduct(Evidence(pc, ind), Attenuation(drift))
  }

  /** The score arithmetic of `add_claim`. */
  function ScoreClaim(provFields: int, provTotal: int, independentSources: int): (s: Scores)
    ensures s.pc == Completeness(provFields, provTotal)
    ensures 0 <= provFields <= provTotal ==> 0.0 <= s.pc <= 1.0
    ensures 0 <= s.ind <= 3
    ensures 0 <= independentSources <= 3 ==> s.ind == independentSources
    ensures independentSources > 3 ==> s.ind == 3
    ensures independentSources < 0 ==> s.ind == 0
    ensures s.drift == Drift(s.pc, s.ind) && s.conf == Confidence(s.pc, s.ind, s.drift)
    ensures 0.0 <= s.drift <= 5.0
    ensures 0.0 <= s.conf <= 1.0
  {
    var pc := Completeness(provFields, provTotal);
    var ind := ClampInt(0, 3, independentSources);
    var drift := Drift(pc, ind);
    Scores(pc, ind, drift, Confidence(pc, ind, drift))
  }

  /** More evidence or more sources never raise the drift, clamped or not. */
  lemma DriftNonIncreasing(pc1: real, ind1: int, pc2: real, ind2: int)
    requires pc1 <= pc2 && ind1 <= ind2
    ensures RawDrift(pc2, ind2) <= RawDrift(pc1, ind1)
    ensures Drift(pc2, ind2) <= Drift(pc1, ind1)
  {
    ClampMonotone(0.0, 5.0, RawDrift(pc2, ind2), RawDrift(pc1, ind1));
  }

  lemma ProductMonotone(a1: real, b1: real, a2: real, b2: real)
    requires 0.0 <= a1 <= a2 && 0.0 <= b1 <= b2
    ensures a1 * b1 <= a2 * b2
  {
    assert a2 * b2 - a1 * b1 == a2 * (b2 - b1) + (a2 - a1) * b1;
    assert a2 * (b2 - b1) >= 0.0;
    assert (a2 - a1) * b1 >= 0.0;
  }

  /** For non-negative evidence, more evidence or more sources never lower the
      confidence: the evidence term grows and the drift attenuation shrinks. */
  lemma ConfidenceNonDecreasing(pc1: real, ind1: int, pc2: real, ind2: int)
    requires 0.0 <= pc1 <= pc2 && 0 <= ind1 <= ind2
    ensures Confidence(pc1, ind1, Drift(pc1, ind1)) <= Confidence(pc2, ind2, Drift(pc2, ind2))
  {
    var d1, d2 := Drift(pc1, ind1), Drift(pc2, ind2);
    assert 0.0 <= Evidence(pc1, ind1) <= Evidence(pc2, ind2);
    AttenuationNonDecreasing(pc1, ind1, pc2, ind2);
    ConfidenceMonotone(pc1, ind1, d1, pc2, ind2, d2);
  }

  /** Confidence grows with each of its two non-negative factors. */
  lemma ConfidenceMonotone(pc1: real, ind1: int, drift1: real, pc2: real, ind2: int, drift2: real)
    requires 0.0 <= Evidence(pc1, ind1) <= Evidence(pc2, ind2)
    requires 0.0 <= Attenuation(drift1) <= Attenuation(drift2)
    ensures Confidence(pc1, ind1, drift1) <= Confidence(pc2, ind2, drift2)
  {
    ClampedProductMonotone(Evidence(pc1, ind1), Attenuation(drift1), Evidence(pc2, ind2), Attenuation(drift2));
  }

  lemma ClampedProductMonotone(a1: real, b1: real, a2: real, b2: real)
    requires 0.0 <= a1 <= a2 && 0.0 <= b1 <= b2
    ensures ClampedProduct(a1, b1) <= ClampedProduct(a2, b2)
  {
    ProductMonotone(a1, b1, a2, b2);
    ClampMonotone(0.0, 1.0, a1 * b1, a2 * b2);
  }

  /** The drift attenuation factor lies in [0.5, 1] and grows with the evidence. */
  lemma AttenuationNonDecreasing(pc1: real, ind1: int, pc2: real, ind2: int)
    requires pc1 <= pc2 && ind1 <= ind2
    ensures 0.5 <= Attenuation(Drift(pc1, ind1)) <= Attenuation(Drift(pc2, ind2)) <= 1.0
  {
    DriftNonIncreasing(pc1, ind1, pc2, ind2);
  }

  /** All six provenance fields and three sources: no drift, full confidence;
      nothing filled and no source: drift 3, no confidence. */
  lemma ExtremeScores()
    ensures ScoreClaim(6, 6, 3) == Scores(1.0, 3, 0.0, 1.0)
    ensures ScoreClaim(0, 6, 0) == Scores(0.0, 0, 3.0, 0.0)
  {
    FullScores();
    EmptyScores();
  }

  lemma FullScores()
    ensures ScoreClaim(6, 6, 3) == Scores(1.0, 3, 0.0, 1.0)
  {
    assert Completeness(6, 6) == 1.0;
    assert Drift(1.0, 3) == 0.0;
  }

  lemma EmptyScores()
    ensures ScoreClaim(0, 6, 0) == Scores(0.0, 0, 3.0, 0.0)
  {
    assert Completeness(0, 6) == 0.0;
    assert Drift(0.0, 0) == 3.0;
  }

  /** The prefix of every claim id. */
  const ClaimIdPrefix: string := "CLM-"

  /** `next_claim_human_id`: "CLM-" and the claim number `count + 1`, zero
      padded to at least four digits. */
  function NextClaimHumanId(count: nat): (id: string)
    ensures |id| >= |ClaimIdPrefix| + 4 && id[..|ClaimIdPrefix|] == ClaimIdPrefix
    ensures |id| == |ClaimIdPrefix| + (if |NatToString(count + 1)| < 4 then 4 else |NatToString(count + 1)|)
    ensures AllDigits(id[|ClaimIdPrefix|..]) && ParseNat(id[|ClaimIdPrefix|..]) == count + 1
  {
    var digits := ZeroPad(count + 1, 4);
    assert (ClaimIdPrefix + digits)[|ClaimIdPrefix|..] == digits;
    ClaimIdPrefix + digits
  }

  /** Different claim counts give different ids. */
  lemma NextClaimHumanIdInjective(m: nat, n: nat)
    requires NextClaimHumanId(m) == NextClaimHumanId(n)
    ensures m == n
  {
  }

  /** The drift history is consistent with the claim: non-empty, and its last
      value is the current drift score. */
  predicate DriftConsistent(c: Claim) {
    |c.history| > 0 && c.history[|c.history| - 1] == c.scores.drift
  }

  /** `add_claim` as a record: scores from the inputs, the next human id, and a
      first history entry carrying the computed drift. */
  function AddClaim(count: nat, text: string, volatility: string,
                    provFields: int, provTotal: int, independentSources: int): (c: Claim)
    ensures c.claimId == NextClaimHumanId(count)
    ensures c.scores == ScoreClaim(provFields, provTotal, independentSources)
    ensures c.history == [c.scores.drift]
    ensures DriftConsistent(c)
  {
    var s := ScoreClaim(provFields, provTotal, independentSources);
    Claim(NextClaimHumanId(count), text, volatility, s, [s.drift])
  }

  /** `append_drift`: the drift score becomes the value and one history entry
      with the same value is added; nothing else changes. */
  function AppendDrift(c: Claim, value: real): (c': Claim)
    ensures c'.scores.drift == value
    ensures c'.history == c.history + [value]
    ensures c'.claimId == c.claimId && c'.text == c.text && c'.volatility == c.volatility
    ensures c'.scores.pc == c.scores.pc && c'.scores.ind == c.scores.ind && c'.scores.conf == c.scores.conf
    ensures DriftConsistent(c')
  {
    c.(scores := c.scores.(drift := value), history := c.history + [value])
  }

  function AppendDrifts(c: Claim, values: seq<real>): Claim
    decreases |values|
  {
    if |values| == 0 then c else AppendDrifts(AppendDrift(c, values[0]), values[1..])
  }

  /** After any sequence of updates the history is the creation drift
      followed by the appended values, and the drift score is the latest. */
  lemma {:induction false} HistoryOfUpdates(c: Claim, values: seq<real>)
    requires DriftConsistent(c)
    ensures var c' := AppendDrifts(c, values);
      && c'.history == c.history + values
      && DriftConsistent(c')
      && (|values| > 0 ==> c'.scores.drift == values[|values| - 1])
    decreases |values|
  {
    if |values| > 0 {
      var c1 := AppendDrift(c, values[0]);
      HistoryOfUpdates(c1, values[1..]);
      assert c.history + [values[0]] + values[1..] == c.history + values;
      if |values| > 1 {
        assert values[1..][|values[1..]| - 1] == values[|values| - 1];
      }
    }
  }
}
