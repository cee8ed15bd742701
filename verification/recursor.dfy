/** `Recursor` (recursor.py): the bounded state-evolution loop.

    At each depth `run` logs the current state, stops if the tension exceeds the
    threshold, otherwise computes the next state and stops if it has converged,
    otherwise stores the CURRENT state in memory and moves on.  On both early
    stops the state that entered the iteration is returned and nothing is
    stored for it.  The Recursor owns no glyph engine.

    The `Halt` label stands for which exit the loop took (the source only
    prints it); `Raised` is the ZeroDivisionError `calculate_tension` lets
    escape, after which the Recursor keeps the log entry it had just made. */
module Recursor {
  import opened Wrappers
  import opened Evaluator
  import opened Memory
  import opened Logger

  datatype Recursor = Recursor(
    maxDepth: int,
    tensionThreshold: real,
    memory: RecursiveMemory<State>,
    logger: StateLogger<State>)

  datatype Halt = TensionTooHigh | Converged | DepthLimit

  datatype Outcome = Returned(state: State, halt: Halt) | Raised(error: EvalError)

  /** `Recursor(max_depth, tension_threshold)`. */
  function NewRecursor(maxDepth: int, tensionThreshold: real): (r: Recursor)
    ensures r.maxDepth == maxDepth && r.tensionThreshold == tensionThreshold
    ensures Latest(r.memory) == None
    ensures |r.logger.logs| == 0
  {
    Recursor(maxDepth, tensionThreshold, EmptyMemory(), EmptyLogger())
  }

  /** Iterations of `range(max_depth)` still to run from `depth` on. */
  function Remaining(maxDepth: int, depth: nat): nat {
    if maxDepth > depth then maxDepth - depth else 0
  }

  /** The loop of `run` from iteration `depth` on, holding `current`. */
  function RunFrom(r: Recursor, current: State, depth: nat): (res: (Recursor, Outcome))
    ensures res.0.maxDepth == r.maxDepth && res.0.tensionThreshold == r.tensionThreshold
    decreases Remaining(r.maxDepth, depth)
  {
    if depth >= r.maxDepth then (r, Returned(current, DepthLimit))
    else
      var logged := r.(logger := LogState(r.logger, depth, current));
      match TensionExceeds(current, r.tensionThreshold)
      case Failure(e) => (logged, Raised(e))
      case Success(tooHigh) =>
        if tooHigh then (logged, Returned(current, TensionTooHigh))
        else
          var next := Recurse(current, GetHistory(logged.memory));
          if HasConverged(current, next, DefaultConvergence) then
            (logged, Returned(current, Converged))
          else
            RunFrom(logged.(memory := StoreState(logged.memory, current)), next, depth + 1)
  }

  /** `run(input_state)`. */
  function Run(r: Recursor, input: State): (res: (Recursor, Outcome))
    ensures res.0.maxDepth == r.maxDepth && res.0.tensionThreshold == r.tensionThreshold
    ensures r.maxDepth <= 0 ==> res == (r, Returned(input, DepthLimit))
  {
    RunFrom(r, input, 0)
  }

  // ------------------------------------------------- the run, step by step

  /** Iteration that holds `s` runs to completion: no tension halt, no error,
      no convergence. */
  predicate Continues(s: State, threshold: real) {
    TensionExceeds(s, threshold) == Success(false)
    && !HasConverged(s, Recurse(s, []), DefaultConvergence)
  }

  /** How an iteration holding `s` ends the run when it does not continue. */
  predicate StopsWith(s: State, threshold: real, out: Outcome) {
    match TensionExceeds(s, threshold)
    case Failure(e) => out == Raised(e)
    case Success(tooHigh) =>
      if tooHigh then out == Returned(s, TensionTooHigh)
      else HasConverged(s, Recurse(s, []), DefaultConvergence) && out == Returned(s, Converged)
  }

  /** The log records of `k` iterations starting at `depth` from `s`. */
  function Entries(s: State, depth: int, k: nat): (es: seq<LogEntry<State>>)
    ensures |es| == k
  {
    seq(k, i requires 0 <= i < k => LogEntry(depth + i, Iterate(s, i)))
  }

  /** The first `m` states of the trajectory of `s`. */
  function Trajectory(s: State, m: nat): (ts: seq<State>)
    ensures |ts| == m
  {
    seq(m, i requires 0 <= i < m => Iterate(s, i))
  }

  lemma {:induction false} IterateShift(s: State, i: nat)
    ensures Iterate(Recurse(s, []), i) == Iterate(s, i + 1)
  {
    if i > 0 {
      IterateShift(s, i - 1);
    }
  }

  /** Everything one call of the loop did, given its result `res`: it started
      `k` iterations and logged each with its depth and the state entering it;
      it stored the first `m` of those states; those `m` iterations all
      continued; and either the depth limit was reached (`m == k`) and the next
      state returned, or iteration `m` stopped the run. */
  ghost predicate Describes(r: Recursor, cur: State, depth: nat, res: (Recursor, Outcome)) {
    var k := |res.0.logger.logs| - |r.logger.logs|;
    var m := |res.0.memory.history| - |r.memory.history|;
    && 0 <= m <= k <= Remaining(r.maxDepth, depth)
    && res.0.logger.logs == r.logger.logs + Entries(cur, depth, k)
    && res.0.memory.history == r.memory.history + Trajectory(cur, m)
    && (forall i :: 0 <= i < m ==> Continues(Iterate(cur, i), r.tensionThreshold))
    && Ends(r.maxDepth, r.tensionThreshold, cur, depth, k, m, res.1)
  }

  /** How the run ended after `k` iterations of which `m` continued: at the
      depth limit with the next state, or stopped by iteration `m`. */
  predicate Ends(maxDepth: int, threshold: real, cur: State, depth: nat, k: nat, m: nat, out: Outcome) {
    if m == k then k == Remaining(maxDepth, depth) && out == Returned(Iterate(cur, k), DepthLimit)
    else k == m + 1 && StopsWith(Iterate(cur, m), threshold, out)
  }

  lemma EndsShift(maxDepth: int, threshold: real, cur: State, depth: nat, k: nat, m: nat, out: Outcome)
    requires depth < maxDepth
    requires Ends(maxDepth, threshold, Recurse(cur, []), depth + 1, k, m, out)
    ensures Ends(maxDepth, threshold, cur, depth, k + 1, m + 1, out)
  {
    IterateShift(cur, k);
    IterateShift(cur, m);
  }

  lemma EntriesCons(cur: State, depth: int, k: nat)
    ensures Entries(cur, depth, k + 1) == [LogEntry(depth, cur)] + Entries(Recurse(cur, []), depth + 1, k)
  {
    var long, short := Entries(cur, depth, k + 1), Entries(Recurse(cur, []), depth + 1, k);
    forall i | 1 <= i <= k
      ensures long[i] == short[i - 1]
    {
      IterateShift(cur, i - 1);
    }
  }

  lemma TrajectoryCons(cur: State, m: nat)
    ensures Trajectory(cur, m + 1) == [cur] + Trajectory(Recurse(cur, []), m)
  {
    var long, short := Trajectory(cur, m + 1), Trajectory(Recurse(cur, []), m);
    forall i | 1 <= i <= m
      ensures long[i] == short[i - 1]
    {
      IterateShift(cur, i - 1);
    }
  }

  /** The recursive step of `RunFromSpec`: what the rest of the loop did from
      `depth + 1`, prefixed with the iteration at `depth` that continued. */
  lemma DescribesStep(r: Recursor, cur: State, depth: nat, res: (Recursor, Outcome))
    requires depth < r.maxDepth && Continues(cur, r.tensionThreshold)
    requires Describes(
      r.(logger := LogState(r.logger, depth, cur), memory := StoreState(r.memory, cur)),
      Recurse(cur, []), depth + 1, res)
    ensures Describes(r, cur, depth, res)
  {
    var th := r.tensionThreshold;
    var r2 := r.(logger := LogState(r.logger, depth, cur), memory := StoreState(r.memory, cur));
    var next := Recurse(cur, []);
    var k2 := |res.0.logger.logs| - |r2.logger.logs|;
    var m2 := |res.0.memory.history| - |r2.memory.history|;
    assert 0 <= m2 <= k2 <= Remaining(r.maxDepth, depth + 1);
    assert r2.logger.logs == r.logger.logs + [LogEntry(depth, cur)];
    assert r2.memory.history == r.memory.history + [cur];
    StepRecords(r, cur, depth, res.0, k2, m2);
    ContinuesShift(cur, m2, th);
    EndsShift(r.maxDepth, th, cur, depth, k2, m2, res.1);
  }

  /** The records of one continued iteration followed by those of the rest of
      the loop are the records of the loop started one iteration earlier. */
  lemma StepRecords(r: Recursor, cur: State, depth: nat, res: Recursor, k: nat, m: nat)
    requires res.logger.logs == (r.logger.logs + [LogEntry(depth, cur)]) + Entries(Recurse(cur, []), depth + 1, k)
    requires res.memory.history == (r.memory.history + [cur]) + Trajectory(Recurse(cur, []), m)
    ensures res.logger.logs == r.logger.logs + Entries(cur, depth, k + 1)
    ensures res.memory.history == r.memory.history + Trajectory(cur, m + 1)
  {
    EntriesCons(cur, depth, k);
    TrajectoryCons(cur, m);
  }

  lemma ContinuesShift(cur: State, m: nat, th: real)
    requires Continues(cur, th)
    requires forall i :: 0 <= i < m ==> Continues(Iterate(Recurse(cur, []), i), th)
    ensures forall i :: 0 <= i < m + 1 ==> Continues(Iterate(cur, i), th)
  {
    forall i | 0 <= i < m + 1
      ensures Continues(Iterate(cur, i), th)
    {
      if i > 0 {
        IterateShift(cur, i - 1);
      }
    }
  }

  lemma {:induction false} RunFromSpec(r: Recursor, cur: State, depth: nat)
    ensures Describes(r, cur, depth, RunFrom(r, cur, depth))
    decreases Remaining(r.maxDepth, depth)
  {
    var res := RunFrom(r, cur, depth);
    if depth >= r.maxDepth {
      assert r.logger.logs + Entries(cur, depth, 0) == r.logger.logs;
      assert r.memory.history + Trajectory(cur, 0) == r.memory.history;
    } else {
      var logged := r.(logger := LogState(r.logger, depth, cur));
      assert logged.logger.logs == r.logger.logs + Entries(cur, depth, 1);
      assert r.memory.history + Trajectory(cur, 0) == r.memory.history;
      var next := Recurse(cur, GetHistory(logged.memory));
      assert next == Recurse(cur, []);
      if Continues(cur, r.tensionThreshold) {
        var r2 := logged.(memory := StoreState(logged.memory, cur));
        RunFromSpec(r2, next, depth + 1);
        DescribesStep(r, cur, depth, res);
      }
    }
  }

  /** `RunFromSpec` read at the start of `run`. */
  lemma RunSpec(r: Recursor, input: State)
    ensures Describes(r, input, 0, Run(r, input))
  {
    RunFromSpec(r, input, 0);
  }

  // ------------------------------------------------ consequences of RunSpec

  /** One log record per iteration started, with depths 0, 1, 2, ... in order,
      and never more than `max_depth` of them. */
  lemma LogDepthsInOrder(r: Recursor, input: State)
    ensures var logs := Run(r, input).0.logger.logs;
      && |r.logger.logs| <= |logs| <= |r.logger.logs| + Remaining(r.maxDepth, 0)
      && logs[..|r.logger.logs|] == r.logger.logs
      && forall i :: |r.logger.logs| <= i < |logs| ==> logs[i].depth == i - |r.logger.logs|
  {
    RunSpec(r, input);
  }

  /** Memory only ever receives states that entered an iteration: the new
      memory entries are the states of the first new log records. */
  lemma MemoryHoldsLoggedStates(r: Recursor, input: State)
    ensures var r' := Run(r, input).0;
      && |r'.memory.history| - |r.memory.history| <= |r'.logger.logs| - |r.logger.logs|
      && forall i :: |r.memory.history| <= i < |r'.memory.history| ==>
        r'.memory.history[i] == r'.logger.logs[i - |r.memory.history| + |r.logger.logs|].state
  {
    RunSpec(r, input);
  }

  /** After an early stop there is one more log record than stored state;
      after running to the depth limit the two grow by the same amount. */
  lemma LogMemoryBalance(r: Recursor, input: State)
    ensures var res := Run(r, input);
      var k := |res.0.logger.logs| - |r.logger.logs|;
      var m := |res.0.memory.history| - |r.memory.history|;
      (res.1.Returned? && res.1.halt == DepthLimit ==> k == m)
      && (!(res.1.Returned? && res.1.halt == DepthLimit) ==> k == m + 1)
  {
    RunSpec(r, input);
  }

  /** A tension stop returns the state that entered the stopping iteration,
      untransformed, and that state's tension is above the threshold. */
  lemma TensionStopReturnsEnteringState(r: Recursor, input: State)
    requires Run(r, input).1.Returned? && Run(r, input).1.halt == TensionTooHigh
    ensures var res := Run(r, input);
      var k := |res.0.logger.logs| - |r.logger.logs|;
      && k >= 1
      && res.1.state == Iterate(input, k - 1)
      && res.1.state == res.0.logger.logs[|res.0.logger.logs| - 1].state
      && TensionExceeds(res.1.state, r.tensionThreshold) == Success(true)
      && |res.0.memory.history| - |r.memory.history| == k - 1
  {
    RunSpec(r, input);
  }

  /** A convergence stop returns the state BEFORE the transition, not the
      converged successor, and does not store it. */
  lemma ConvergenceReturnsPreTransitionState(r: Recursor, input: State)
    requires Run(r, input).1.Returned? && Run(r, input).1.halt == Converged
    ensures var res := Run(r, input);
      var k := |res.0.logger.logs| - |r.logger.logs|;
      && k >= 1
      && res.1.state == Iterate(input, k - 1)
      && HasConverged(res.1.state, Recurse(res.1.state, []), DefaultConvergence)
      && |res.0.memory.history| - |r.memory.history| == k - 1
  {
    RunSpec(r, input);
  }

  /** A run to the depth limit returns s_n with s_(i+1) = recurse(s_i), and
      memory gains exactly s_0 .. s_(n-1). */
  lemma DepthLimitReturnsLastState(r: Recursor, input: State)
    requires Run(r, input).1.Returned? && Run(r, input).1.halt == DepthLimit
    ensures var res := Run(r, input);
      var n := Remaining(r.maxDepth, 0);
      && res.1.state == Iterate(input, n)
      && res.0.memory.history == r.memory.history + Trajectory(input, n)
  {
    RunSpec(r, input);
  }

  /** Whatever state is returned has the seed's length. */
  lemma FinalStateLength(r: Recursor, input: State)
    requires Run(r, input).1.Returned?
    ensures |Run(r, input).1.state| == |input|
  {
    RunSpec(r, input);
  }

  /** An empty seed never stops early for a non-negative threshold: all
      `max_depth` iterations run and [] is returned. */
  lemma EmptySeedRunsToDepthLimit(r: Recursor)
    requires r.tensionThreshold >= 0.0
    ensures var res := Run(r, []);
      && res.1 == Returned([], DepthLimit)
      && |res.0.logger.logs| == |r.logger.logs| + Remaining(r.maxDepth, 0)
  {
    RunSpec(r, []);
    var res := Run(r, []);
    var k := |res.0.logger.logs| - |r.logger.logs|;
    var m := |res.0.memory.history| - |r.memory.history|;
    if m != k {
      assert false;
    }
    assert Iterate([], k) == [];
  }
}
