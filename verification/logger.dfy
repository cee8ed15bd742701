/** `StateLogger` (logger.py): an append-only list of `{depth, state}` records.
    The console line `log_state` prints is output only and is not modelled. */
module Logger {

  datatype LogEntry<T> = LogEntry(depth: int, state: T)

  datatype StateLogger<T> = StateLogger(logs: seq<LogEntry<T>>)

  function EmptyLogger<T>(): StateLogger<T> {
    StateLogger([])
  }

  /** `log_state(depth, state)`: exactly one record appended at the end. */
  function LogState<T>(l: StateLogger<T>, depth: int, state: T): (l': StateLogger<T>)
    ensures |l'.logs| == |l.logs| + 1
    ensures l'.logs[..|l.logs|] == l.logs
    ensures l'.logs[|l.logs|] == LogEntry(depth, state)
  {
    StateLogger(l.logs + [LogEntry(depth, state)])
  }

  /** Calling `log_state` once for each `(depth, state)` pair in turn. */
  function LogAll<T>(l: StateLogger<T>, calls: seq<(int, T)>): StateLogger<T>
    decreases |calls|
  {
    if |calls| == 0 then l else LogAll(LogState(l, calls[0].0, calls[0].1), calls[1..])
  }

  /** Records appear in call order, one per call, earlier records untouched. */
  lemma {:induction false} LogsInCallOrder<T>(l: StateLogger<T>, calls: seq<(int, T)>)
    ensures |LogAll(l, calls).logs| == |l.logs| + |calls|
    ensures LogAll(l, calls).logs[..|l.logs|] == l.logs
    ensures forall i :: 0 <= i < |calls| ==>
      LogAll(l, calls).logs[|l.logs| + i] == LogEntry(calls[i].0, calls[i].1)
    decreases |calls|
  {
    if |calls| > 0 {
      var l1 := LogState(l, calls[0].0, calls[0].1);
      LogsInCallOrder(l1, calls[1..]);
      assert l1.logs[..|l.logs|] == l.logs;
      var r := LogAll(l, calls).logs;
      forall i | 0 <= i < |calls|
        ensures r[|l.logs| + i] == LogEntry(calls[i].0, calls[i].1)
      {
        if i > 0 {
          assert calls[1..][i - 1] == calls[i];
        }
      }
    }
  }
}
