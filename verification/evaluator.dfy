/** The three numeric policies of the engine (evaluator.py, pure-Python branch):
    the transition `recurse`, the dispersion measure `calculate_tension` and the
    convergence test `has_converged`.  Numbers are exact reals; square roots are
    avoided by comparing squares, which is exact because both sides of each
    comparison are known to be non-negative. */
module Evaluator {
  import opened Wrappers

  type State = seq<real>

  /** The growth factor 1.05 applied to every element by `recurse`. */
  const Growth: real := 1.05

  /** The stabiliser 1e-9 added to the mean before dividing. */
  const Stabilizer: real := 0.000000001

  /** `has_converged`'s default threshold, the one the Recursor uses. */
  const DefaultConvergence: real := 0.001

  /** The only failure of the numeric code: float division by zero. */
  datatype EvalError = ZeroDivision

  // ------------------------------------------------------------ recurse

  /** `recurse(state, memory)`: every element times 1.05; `memory` is not read. */
  function Recurse(state: State, memory: seq<State>): (next: State)
    ensures |next| == |state|
    ensures forall i :: 0 <= i < |state| ==> next[i] == Growth * state[i]
  {
    seq(|state|, i requires 0 <= i < |state| => Growth * state[i])
  }

  /** The state after `n` transitions of `seed`. */
  function Iterate(seed: State, n: nat): (s: State)
    ensures |s| == |seed|
  {
    if n == 0 then seed else Recurse(Iterate(seed, n - 1), [])
  }

  function Pow(x: real, n: nat): real {
    if n == 0 then 1.0 else x * Pow(x, n - 1)
  }

  /** Closed form of the trajectory: element `i` grows by 1.05 per step. */
  lemma {:induction false} IterateClosedForm(seed: State, n: nat, i: int)
    requires 0 <= i < |seed|
    ensures Iterate(seed, n)[i] == Pow(Growth, n) * seed[i]
  {
    if n > 0 {
      IterateClosedForm(seed, n - 1, i);
    }
  }

  // ----------------------------------------------------------- tension

  function Sum(s: State): real {
    if |s| == 0 then 0.0 else Sum(s[..|s| - 1]) + s[|s| - 1]
  }

  function Mean(s: State): real
    requires |s| > 0
  {
    Sum(s) / |s| as real
  }

  /** `sum((x - m) ** 2 for x in s)`. */
  function SquaredDeviations(s: State, m: real): (r: real)
    ensures r >= 0.0
  {
    if |s| == 0 then 0.0
    else
      var dev := s[|s| - 1] - m;
      SquaredDeviations(s[..|s| - 1], m) + dev * dev
  }

  /** Population variance: squared deviations divided by `len(state)`. */
  function Variance(s: State): (v: real)
    requires |s| > 0
    ensures v >= 0.0
  {
    SquaredDeviations(s, Mean(s)) / |s| as real
  }

  /** The divisor `mean + 1e-9`. */
  function Denominator(s: State): real
    requires |s| > 0
  {
    Mean(s) + Stabilizer
  }

  /** `t` is the value `calculate_tension(s)` returns: 0 for the empty state,
      otherwise the t with t * d == sqrt(variance), d the divisor. */
  ghost predicate IsTension(s: State, t: real) {
    if |s| == 0 then t == 0.0
    else
      var d := Denominator(s);
      var q := t * d;
      d != 0.0 && q >= 0.0 && q * q == Variance(s)
  }

  /** The test `calculate_tension(s) > threshold` that `Recursor.run` makes,
      or the ZeroDivisionError raised when `mean + 1e-9 == 0`. */
  function TensionExceeds(s: State, threshold: real): (r: Result<bool, EvalError>)
    ensures r.Failure? <==> |s| > 0 && Denominator(s) == 0.0
    ensures |s| == 0 ==> r == Success(0.0 > threshold)
  {
    if |s| == 0 then Success(0.0 > threshold)
    else QuotientExceeds(Variance(s), Denominator(s), threshold)
  }

  /** Decides sqrt(v) / d > th without a square root.  With q = sqrt(v) >= 0:
      q / d > th iff q > th*d when d > 0, and q < th*d when d < 0. */
  function QuotientExceeds(v: real, d: real, th: real): (r: Result<bool, EvalError>)
    ensures r.Failure? <==> d == 0.0
  {
    var bound := th * d;
    if d == 0.0 then Failure(ZeroDivision)
    else if d > 0.0 then Success(bound < 0.0 || v > bound * bound)
    else Success(bound > 0.0 && v < bound * bound)
  }

  lemma PositiveProduct(a: real, b: real)
    requires a > 0.0 && b > 0.0
    ensures a * b > 0.0
  {
  }
  lemma NonNegativeProduct(a: real, b: real)
    requires a >= 0.0 && b >= 0.0
    ensures a * b >= 0.0
  {
  }
  lemma SquareStrict(a: real, b: real)
    requires 0.0 <= a < b
    ensures a * a < b * b
  {
    PositiveProduct(b - a, b + a);
  }
  lemma SquareMonotone(a: real, b: real)
    requires 0.0 <= a <= b
    ensures a * a <= b * b
  {
    NonNegativeProduct(b - a, b + a);
  }

  lemma RootGreater(q: real, x: real)
    requires q >= 0.0
    ensures q > x <==> x < 0.0 || q * q > x * x
  {
    if x >= 0.0 && q <= x {
      SquareMonotone(q, x);
    }
    if x >= 0.0 && q > x {
      SquareStrict(x, q);
    }
  }
  lemma RootLess(q: real, x: real)
    requires q >= 0.0
    ensures q < x <==> x > 0.0 && q * q < x * x
  {
    if x > 0.0 && q >= x {
      SquareMonotone(x, q);
    }
    if q < x {
      SquareStrict(q, x);
    }
  }

  /** Multiplying both sides by d keeps (d > 0) or flips (d < 0) the order. */
  lemma ScaleCompare(t: real, th: real, d: real)
    requires d != 0.0
    ensures d > 0.0 ==> (t > th <==> t * d > th * d)
    ensures d < 0.0 ==> (t > th <==> t * d < th * d)
  {
    if d > 0.0 {
      if t > th { assert (t - th) * d > 0.0; }
      if t * d > th * d { assert (t - th) * d > 0.0; }
    } else {
      if t > th { assert (t - th) * d < 0.0; }
      if t * d < th * d { assert (t - th) * d < 0.0; }
    }
  }

  /** The arithmetic behind the sqrt-free test: for q = t * d >= 0 with
      q * q == v, comparing t with th is comparing q with th * d. */
  lemma QuotientDecision(t: real, th: real, d: real, v: real)
    requires d != 0.0 && t * d >= 0.0 && (t * d) * (t * d) == v
    ensures QuotientExceeds(v, d, th) == Success(t > th)
  {
    ScaleCompare(t, th, d);
    if d > 0.0 {
      RootGreater(t * d, th * d);
    } else {
      RootLess(t * d, th * d);
    }
  }

  /** The sqrt-free decision agrees with comparing the real tension value. */
  lemma TensionDecision(s: State, t: real, threshold: real)
    requires IsTension(s, t)
    ensures TensionExceeds(s, threshold) == Success(t > threshold)
  {
    if |s| > 0 {
      var d := Denominator(s);
      var v := Variance(s);
      QuotientDecision(t, threshold, d, v);
    }
  }

  predicate Constant(s: State, c: real) {
    forall i :: 0 <= i < |s| ==> s[i] == c
  }

  lemma {:induction false} SumConstant(s: State, c: real)
    requires Constant(s, c)
    ensures Sum(s) == |s| as real * c
  {
    if |s| > 0 {
      SumConstant(s[..|s| - 1], c);
    }
  }

  lemma {:induction false} DeviationsConstant(s: State, c: real)
    requires Constant(s, c)
    ensures SquaredDeviations(s, c) == 0.0
  {
    if |s| > 0 {
      DeviationsConstant(s[..|s| - 1], c);
    }
  }

  /** A constant non-empty state has tension 0 -- unless `c + 1e-9 == 0`,
      where the division raises. */
  lemma ConstantStateTension(s: State, c: real, threshold: real)
    requires |s| > 0 && Constant(s, c)
    ensures c + Stabilizer != 0.0 ==> IsTension(s, 0.0)
    ensures c + Stabilizer != 0.0 ==> TensionExceeds(s, threshold) == Success(0.0 > threshold)
    ensures c + Stabilizer == 0.0 ==> TensionExceeds(s, threshold) == Failure(ZeroDivision)
  {
    SumConstant(s, c);
    assert Mean(s) == c;
    DeviationsConstant(s, c);
    if c + Stabilizer != 0.0 {
      TensionDecision(s, 0.0, threshold);
    }
  }

  // ------------------------------------------------------- convergence

  /** Squared Euclidean distance over `zip(prev, curr)`: the longer input is
      cut to the length of the shorter, as `zip` does. */
  function SquaredDistance(prev: State, curr: State): (r: real)
    ensures r >= 0.0
  {
    if |prev| == 0 || |curr| == 0 then 0.0
    else
      var dev := curr[0] - prev[0];
      dev * dev + SquaredDistance(prev[1..], curr[1..])
  }

  /** `has_converged(prev, curr, threshold)`: false for an empty argument,
      otherwise sqrt(D) < threshold, which is threshold > 0 && D < threshold^2. */
  function HasConverged(prev: State, curr: State, threshold: real): (r: bool)
    ensures |prev| == 0 || |curr| == 0 ==> !r
    ensures threshold <= 0.0 ==> !r
  {
    if |prev| == 0 || |curr| == 0 then false
    else threshold > 0.0 && SquaredDistance(prev, curr) < threshold * threshold
  }

  /** The sqrt-free test agrees with comparing the Euclidean distance itself. */
  lemma ConvergenceDecision(prev: State, curr: State, delta: real, threshold: real)
    requires delta >= 0.0 && delta * delta == SquaredDistance(prev, curr)
    ensures HasConverged(prev, curr, threshold) <==> |prev| > 0 && |curr| > 0 && delta < threshold
  {
    RootLess(delta, threshold);
  }

  lemma {:induction false} SquaredDistanceSymmetric(a: State, b: State)
    ensures SquaredDistance(a, b) == SquaredDistance(b, a)
  {
    if |a| > 0 && |b| > 0 {
      SquaredDistanceSymmetric(a[1..], b[1..]);
      assert (b[0] - a[0]) * (b[0] - a[0]) == (a[0] - b[0]) * (a[0] - b[0]);
    }
  }

  lemma HasConvergedSymmetric(a: State, b: State, threshold: real)
    ensures HasConverged(a, b, threshold) == HasConverged(b, a, threshold)
  {
    SquaredDistanceSymmetric(a, b);
  }

  lemma {:induction false} SquaredDistanceSelf(s: State)
    ensures SquaredDistance(s, s) == 0.0
  {
    if |s| > 0 {
      SquaredDistanceSelf(s[1..]);
    }
  }

  /** A non-empty state has converged to itself exactly when the threshold is positive. */
  lemma HasConvergedSelf(s: State, threshold: real)
    ensures HasConverged(s, s, threshold) <==> |s| > 0 && threshold > 0.0
  {
    SquaredDistanceSelf(s);
    if threshold > 0.0 {
      PositiveProduct(threshold, threshold);
      calc {
        SquaredDistance(s, s);
      ==
        0.0;
      <
        threshold * threshold;
      }
    }
  }
}
