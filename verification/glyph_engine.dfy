/** `GlyphEngine` (glyph_engine.py): a trace of short hashes of states.

    A glyph is the first 12 hex characters of the SHA-256 digest of
    `"{depth}:{json.dumps(state, sort_keys=True)}"`.  Serialisation (`dumps`)
    and hashing (`sha`) are parameters; the only thing assumed of the hash is
    the shape of its output, 64 lowercase hex characters. */
module Glyphs {
  import opened Text

  /** `_trace`: the `(depth, glyph)` pairs in generation order. */
  datatype GlyphEngine = GlyphEngine(trace: seq<(int, string)>)

  /** Length of a glyph: the digest is cut to its first 12 characters. */
  const GlyphLength: nat := 12

  predicate IsLowerHex(c: char) {
    '0' <= c <= '9' || 'a' <= c <= 'f'
  }

  predicate IsLowerHexString(h: string) {
    forall i :: 0 <= i < |h| ==> IsLowerHex(h[i])
  }

  /** What `hashlib.sha256(...).hexdigest()` returns. */
  predicate IsHexDigest(h: string) {
    |h| == 64 && IsLowerHexString(h)
  }

  predicate IsGlyph(g: string) {
    |g| == GlyphLength && IsLowerHexString(g)
  }

  function EmptyEngine(): (g: GlyphEngine)
    ensures |g.trace| == 0
  {
    GlyphEngine([])
  }

  /** The string that is hashed: decimal depth, a colon, the serialised state. */
  function PreHash(depth: int, stateStr: string): (p: string)
    ensures |p| == |IntToString(depth)| + 1 + |stateStr|
  {
    IntToString(depth) + ":" + stateStr
  }

  /** `generate(state, depth)`: the glyph is a 12-character prefix of the
      digest of the pre-hash string, and exactly one `(depth, glyph)` is
      appended to the trace. */
  function Generate<S>(g: GlyphEngine, state: S, depth: int,
                       dumps: S -> string, sha: string -> string): (res: (GlyphEngine, string))
    requires IsHexDigest(sha(PreHash(depth, dumps(state))))
    ensures IsGlyph(res.1)
    ensures |res.1| == GlyphLength && res.1 <= sha(PreHash(depth, dumps(state)))
    ensures res.0.trace == g.trace + [(depth, res.1)]
  {
    var glyph := GlyphOf(state, depth, dumps, sha);
    (GlyphEngine(g.trace + [(depth, glyph)]), glyph)
  }

  /** `trace()`: an accessor, so its contract only ties the result back to
      the engine; what the trace holds is `TraceInCallOrder`. */
  function Trace(g: GlyphEngine): (t: seq<(int, string)>)
    ensures GlyphEngine(t) == g
    ensures |t| == 0 <==> g == EmptyEngine()
  {
    g.trace
  }

  /** Every call's pre-hash string hashes to a digest. */
  predicate Hashable<S>(calls: seq<(int, S)>, dumps: S -> string, sha: string -> string) {
    forall i :: 0 <= i < |calls| ==> IsHexDigest(sha(PreHash(calls[i].0, dumps(calls[i].1))))
  }

  lemma HashableTail<S>(calls: seq<(int, S)>, dumps: S -> string, sha: string -> string)
    requires |calls| > 0 && Hashable(calls, dumps, sha)
    ensures IsHexDigest(sha(PreHash(calls[0].0, dumps(calls[0].1))))
    ensures Hashable(calls[1..], dumps, sha)
  {
    forall j | 0 <= j < |calls| - 1
      ensures IsHexDigest(sha(PreHash(calls[1..][j].0, dumps(calls[1..][j].1))))
    {
      assert calls[1..][j] == calls[j + 1];
    }
  }

  /** Calling `generate` once for each `(depth, state)` pair in turn. */
  function GenerateAll<S>(g: GlyphEngine, calls: seq<(int, S)>,
                          dumps: S -> string, sha: string -> string): GlyphEngine
    requires Hashable(calls, dumps, sha)
    decreases |calls|
  {
    if |calls| == 0 then g
    else GenerateAll(Generate(g, calls[0].1, calls[0].0, dumps, sha).0, calls[1..], dumps, sha)
  }

  /** The glyph `generate` produces for `(depth, state)`; it does not depend on
      the engine's trace. */
  function GlyphOf<S>(state: S, depth: int, dumps: S -> string, sha: string -> string): string
    requires IsHexDigest(sha(PreHash(depth, dumps(state))))
  {
    sha(PreHash(depth, dumps(state)))[..GlyphLength]
  }

  /** The `(depth, glyph)` entries the calls produce, in call order. */
  function CallEntries<S>(calls: seq<(int, S)>, dumps: S -> string, sha: string -> string): (es: seq<(int, string)>)
    requires Hashable(calls, dumps, sha)
    ensures |es| == |calls|
    decreases |calls|
  {
    if |calls| == 0 then []
    else [(calls[0].0, GlyphOf(calls[0].1, calls[0].0, dumps, sha))] + CallEntries(calls[1..], dumps, sha)
  }

  lemma {:induction false} CallEntriesAt<S>(calls: seq<(int, S)>, dumps: S -> string, sha: string -> string, i: nat)
    requires Hashable(calls, dumps, sha)
    requires i < |calls|
    ensures CallEntries(calls, dumps, sha)[i] == (calls[i].0, GlyphOf(calls[i].1, calls[i].0, dumps, sha))
    decreases i
  {
    if i > 0 {
      CallEntriesAt(calls[1..], dumps, sha, i - 1);
    }
  }

  /** Generating for each call appends exactly the calls' entries. */
  lemma {:induction false} GenerateAllAppends<S>(g: GlyphEngine, calls: seq<(int, S)>,
                                                 dumps: S -> string, sha: string -> string)
    requires Hashable(calls, dumps, sha)
    ensures GenerateAll(g, calls, dumps, sha).trace == g.trace + CallEntries(calls, dumps, sha)
    decreases |calls|
  {
    if |calls| > 0 {
      var rest := calls[1..];
      HashableTail(calls, dumps, sha);
      var g1 := Generate(g, calls[0].1, calls[0].0, dumps, sha).0;
      var e := (calls[0].0, GlyphOf(calls[0].1, calls[0].0, dumps, sha));
      var es := CallEntries(rest, dumps, sha);
      assert GenerateAll(g, calls, dumps, sha) == GenerateAll(g1, rest, dumps, sha);
      GenerateAllAppends(g1, rest, dumps, sha);
      assert g1.trace == g.trace + [e];
      assert CallEntries(calls, dumps, sha) == [e] + es;
      AppendAssoc(g.trace, [e], es);
    }
  }

  /** The trace holds one entry per call, in call order, after the untouched
      earlier entries; each glyph is determined by its `(depth, state)` alone. */
  lemma TraceInCallOrder<S>(g: GlyphEngine, calls: seq<(int, S)>,
                            dumps: S -> string, sha: string -> string)
    requires Hashable(calls, dumps, sha)
    ensures var t := Trace(GenerateAll(g, calls, dumps, sha));
      && |t| == |g.trace| + |calls|
      && t[..|g.trace|] == g.trace
      && forall i :: 0 <= i < |calls| ==>
        t[|g.trace| + i] == (calls[i].0, GlyphOf(calls[i].1, calls[i].0, dumps, sha))
  {
    GenerateAllAppends(g, calls, dumps, sha);
    var t := GenerateAll(g, calls, dumps, sha).trace;
    forall i | 0 <= i < |calls|
      ensures t[|g.trace| + i] == (calls[i].0, GlyphOf(calls[i].1, calls[i].0, dumps, sha))
    {
      CallEntriesAt(calls, dumps, sha, i);
    }
    assert t[..|g.trace|] == g.trace;
  }

  /** Position of the first `c` in `s`, or `|s|` when there is none. */
  function FirstIndexOf(s: string, c: char): (k: nat)
    ensures k <= |s|
    ensures forall j :: 0 <= j < k ==> s[j] != c
    ensures k < |s| ==> s[k] == c
  {
    if |s| == 0 then 0 else if s[0] == c then 0 else 1 + FirstIndexOf(s[1..], c)
  }

  lemma FirstColonOfPreHash(d: int, str: string)
    ensures FirstIndexOf(PreHash(d, str), ':') == |IntToString(d)|
  {
    var p, a := PreHash(d, str), IntToString(d);
    var k := FirstIndexOf(p, ':');
    assert p[|a|] == ':';
    assert forall j :: 0 <= j < |a| ==> p[j] == a[j];
  }

  /** The pre-hash string determines both the depth and the serialised state:
      a decimal integer holds no ':', so the first ':' ends the depth. */
  lemma PreHashInjective(d1: int, s1: string, d2: int, s2: string)
    requires PreHash(d1, s1) == PreHash(d2, s2)
    ensures d1 == d2 && s1 == s2
  {
    var a, b := IntToString(d1), IntToString(d2);
    var p := PreHash(d1, s1);
    FirstColonOfPreHash(d1, s1);
    FirstColonOfPreHash(d2, s2);
    assert |a| == |b|;
    assert a == p[..|a|] == b;
    IntToStringInjective(d1, d2);
    assert s1 == p[|a| + 1..] == s2;
  }
}
