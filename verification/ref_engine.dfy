/** `run_recursive_engine` (ref_engine.py): run a Recursor on the seed
    [1.0, 2.0, 3.0], then read the last glyph and a halt reason off the glyph
    trace.

    As written the function reads `engine.glyph_engine`, an attribute a
    `Recursor` never has, so every call ends in AttributeError once the run
    returns (`RunRecursiveEngine`).  `RunRecursiveEngineWired` is the
    composition the code evidently intends and does not perform: one glyph
    generated per iteration the Recursor logs. */
module RefEngine {
  import opened Wrappers
  import opened Evaluator
  import opened Logger
  import opened Recursor
  import opened Glyphs

  /** The fixed seed state. */
  const Seed: State := [1.0, 2.0, 3.0]

  const DepthLimitLabel: string := "depth_limit"
  const CompleteLabel: string := "complete"

  datatype EngineError = AttributeError | Evaluation(error: EvalError)

  /** The final state, the last glyph, and the halt reason. */
  type Report = (State, Option<string>, string)

  /** Last-glyph selection and halt-reason classification, a pure function of
      the trace and the requested depth. */
  function Classify(trace: seq<(int, string)>, depth: int): (res: (Option<string>, string))
    ensures res.0.None? <==> |trace| == 0
    ensures res.0.Some? ==> res.0.value == trace[|trace| - 1].1
    ensures res.1 == DepthLimitLabel || res.1 == CompleteLabel
    ensures res.1 == DepthLimitLabel <==> |trace| >= depth
    ensures depth <= 0 ==> res.1 == DepthLimitLabel
  {
    var last := if |trace| > 0 then Some(trace[|trace| - 1].1) else None;
    (last, if |trace| >= depth then DepthLimitLabel else CompleteLabel)
  }

  /** The function as written: the run itself, then the failing attribute read. */
  function RunRecursiveEngine(depth: int, threshold: real): (r: Result<Report, EngineError>)
    ensures r.Failure?
  {
    var (_, out) := Run(NewRecursor(depth, threshold), Seed);
    match out
    case Raised(e) => Failure(Evaluation(e))
    case Returned(_, _) => Failure(AttributeError)
  }

  lemma {:induction false} PowPositive(n: nat)
    ensures Pow(Growth, n) > 0.0
  {
    if n > 0 {
      PowPositive(n - 1);
      PositiveProduct(Growth, Pow(Growth, n - 1));
    }
  }

  lemma SumOfThree(s: State)
    requires |s| == 3
    ensures Sum(s) == s[0] + s[1] + s[2]
  {
    assert Sum(s[..1]) == s[0] by {
      assert s[..1][..0] == [];
    }
    assert Sum(s[..2]) == Sum(s[..1]) + s[1] by {
      assert s[..2][..1] == s[..1];
    }
    assert s[..3] == s;
  }

  /** Every state the seed's run can reach has a positive divisor, so the
      tension never divides by zero. */
  lemma SeedDenominatorPositive(i: nat)
    ensures |Iterate(Seed, i)| == 3 && Denominator(Iterate(Seed, i)) > 0.0
  {
    var s := Iterate(Seed, i);
    var p := Pow(Growth, i);
    PowPositive(i);
    IterateClosedForm(Seed, i, 0);
    IterateClosedForm(Seed, i, 1);
    IterateClosedForm(Seed, i, 2);
    SumOfThree(s);
    assert Sum(s) == p * 6.0;
  }

  /** The run on the seed never raises, so as written every call ends in
      AttributeError. */
  lemma AsWrittenAlwaysAttributeError(depth: int, threshold: real)
    ensures Run(NewRecursor(depth, threshold), Seed).1.Returned?
    ensures RunRecursiveEngine(depth, threshold) == Failure(AttributeError)
  {
    var r := NewRecursor(depth, threshold);
    RunSpec(r, Seed);
    var res := Run(r, Seed);
    var m := |res.0.memory.history| - |r.memory.history|;
    SeedDenominatorPositive(m);
  }

  /** The generate calls the intended wiring makes: one per logged iteration. */
  function GlyphCalls(logs: seq<LogEntry<State>>): (calls: seq<(int, State)>)
    ensures |calls| == |logs|
  {
    seq(|logs|, i requires 0 <= i < |logs| => (logs[i].depth, logs[i].state))
  }

  /** A hash whose every output looks like a SHA-256 hex digest. */
  ghost predicate HexHash(sha: string -> string) {
    forall s :: IsHexDigest(sha(s))
  }

  /** `run_recursive_engine` with a glyph generated for each iteration the
      Recursor logs. */
  function RunRecursiveEngineWired(depth: int, threshold: real,
                                   dumps: State -> string, sha: string -> string): (r: Result<Report, EngineError>)
    requires HexHash(sha)
    ensures r.Success?
    ensures r.value.2 == DepthLimitLabel || r.value.2 == CompleteLabel
    ensures Run(NewRecursor(depth, threshold), Seed).1.Returned?
    ensures r.value.0 == Run(NewRecursor(depth, threshold), Seed).1.state
  {
    AsWrittenAlwaysAttributeError(depth, threshold);
    var (rec, out) := Run(NewRecursor(depth, threshold), Seed);
    match out
    case Raised(e) => Failure(Evaluation(e))
    case Returned(final, _) =>
      var trace := Trace(GenerateAll(EmptyEngine(), GlyphCalls(rec.logger.logs), dumps, sha));
      var (last, reason) := Classify(trace, depth);
      Success((final, last, reason))
  }

  /** With the glyph engine wired in, the call succeeds; the trace has one
      glyph per iteration, so there is no glyph exactly when `depth <= 0`; a
      run that reaches the depth limit is labelled "depth_limit", and
      "complete" means the loop stopped early.  (An early stop in the very
      last iteration is also labelled "depth_limit": the label counts glyphs,
      not exits.) */
  lemma WiredLabels(depth: int, threshold: real, dumps: State -> string, sha: string -> string)
    requires HexHash(sha)
    ensures var r := RunRecursiveEngineWired(depth, threshold, dumps, sha);
      var out := Run(NewRecursor(depth, threshold), Seed).1;
      && r.Success? && out.Returned?
      && r.value.0 == out.state
      && (r.value.1.None? <==> depth <= 0)
      && (out.halt == DepthLimit ==> r.value.2 == DepthLimitLabel)
      && (r.value.2 == CompleteLabel ==> out.halt != DepthLimit)
  {
    AsWrittenAlwaysAttributeError(depth, threshold);
    var r0 := NewRecursor(depth, threshold);
    RunSpec(r0, Seed);
    var rec := Run(r0, Seed).0;
    var calls := GlyphCalls(rec.logger.logs);
    TraceInCallOrder(EmptyEngine(), calls, dumps, sha);
  }
}
