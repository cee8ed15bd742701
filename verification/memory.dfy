/** `RecursiveMemory` (memory.py): an append-only list of stored states. */
module Memory {
  import opened Wrappers

  datatype RecursiveMemory<T> = RecursiveMemory(history: seq<T>)

  /** A freshly constructed memory holds nothing. */
  function EmptyMemory<T>(): (m: RecursiveMemory<T>)
    ensures Latest(m) == None
  {
    RecursiveMemory([])
  }

  /** `store_state(s)`: one entry appended at the end, earlier entries kept. */
  function StoreState<T>(m: RecursiveMemory<T>, s: T): (m': RecursiveMemory<T>)
    ensures |m'.history| == |m.history| + 1
    ensures m'.history[..|m.history|] == m.history
    ensures Latest(m') == Some(s)
  {
    RecursiveMemory(m.history + [s])
  }

  /** `get_history()`: every stored state, oldest first; its last element is
      what `latest()` reports. */
  function GetHistory<T>(m: RecursiveMemory<T>): (h: seq<T>)
    ensures |h| == 0 <==> Latest(m).None?
    ensures |h| > 0 ==> Latest(m) == Some(h[|h| - 1])
  {
    m.history
  }

  /** `latest()`: the last stored state, or None when nothing was stored. */
  function Latest<T>(m: RecursiveMemory<T>): (r: Option<T>)
    ensures r.None? <==> |m.history| == 0
    ensures r.Some? ==> r.value == m.history[|m.history| - 1]
  {
    if |m.history| > 0 then Some(m.history[|m.history| - 1]) else None
  }

  /** Storing each element of `xs` in turn. */
  function StoreAll<T>(m: RecursiveMemory<T>, xs: seq<T>): RecursiveMemory<T>
    decreases |xs|
  {
    if |xs| == 0 then m else StoreAll(StoreState(m, xs[0]), xs[1..])
  }

  /** The history is exactly the stored states in insertion order, duplicates
      included: nothing is merged, dropped or reordered. */
  lemma {:induction false} HistoryOfStores<T>(m: RecursiveMemory<T>, xs: seq<T>)
    ensures GetHistory(StoreAll(m, xs)) == GetHistory(m) + xs
    decreases |xs|
  {
    if |xs| > 0 {
      var m1 := StoreState(m, xs[0]);
      assert m1.history == m.history + [xs[0]];
      HistoryOfStores(m1, xs[1..]);
      assert m.history + [xs[0]] + xs[1..] == m.history + xs;
    }
  }
}
