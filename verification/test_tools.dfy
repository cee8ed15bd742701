/** The reflection heuristics of `Sareth` and `is_deep` (test_tools.py).

    Phrase tests are case-insensitive substring tests over fixed lists.  The
    `:.2f` rendering of the pulse inside `reflect` is a parameter `fmt`; the
    timestamp, the glyph hash and file export/import are not modelled. */
module TestTools {
  import opened Text

  const ShallowSignals: seq<string> := ["it depends", "i'm not sure", "could be", "maybe", "just", "kind of"]
  const DepthKeywords: seq<string> := ["recursive", "across time", "paradox", "identity", "coherence"]

  /** Bound on the number of records `_store_memory` keeps. */
  const MemoryLimit: nat := 1000

  /** Shortest stripped length `is_deep` accepts. */
  const MinDeepLength: nat := 30

  const Rejection: string := "\U{27C1}\U{2205} Insight rejected by False Depth Drift Scan"
  const ReflectPrefix: string := "\U{1FA9E} Reflecting: '"
  const HintSeparator: string := "' \U{2192} "
  const PulseOpen: string := " [Pulse: "
  const PulseClose: string := "]"

  const TruthHint: string := "recurse on truth alignment across timelines"
  const IdentityHint: string := "trace identity through recursive shifts"
  const DefaultHint: string := "reflect across contradiction and symbolic depth"

  /** `is_deep(insight)`: non-empty, at least 30 characters once stripped, and
      free of every shallow signal. */
  function IsDeep(insight: string): (r: bool)
    ensures |insight| == 0 ==> !r
    ensures |Strip(insight)| < MinDeepLength ==> !r
    ensures r ==> TruthCheck(insight)
  {
    if |insight| == 0 then false
    else
      var tooShort := |Strip(insight)| < MinDeepLength;
      var vague := ContainsAny(Lower(insight), ShallowSignals);
      !(tooShort || vague)
  }

  /** `truth_check`: no shallow signal occurs, at any position, ignoring case.
      The shortest signal has four characters, so shorter texts always pass. */
  predicate TruthCheck(input: string): (ok: bool)
    ensures |input| < 4 ==> ok
  {
    !ContainsAny(Lower(input), ShallowSignals)
  }

  /** `depth_scan`: some depth keyword occurs, at some position, ignoring
      case.  The shortest keyword has seven characters. */
  predicate DepthScan(input: string): (ok: bool)
    ensures ok ==> |input| >= 7
  {
    ContainsAny(Lower(input), DepthKeywords)
  }

  /** Exactly the deep insights are the long-enough texts that pass `truth_check`. */
  lemma IsDeepCharacterised(insight: string)
    ensures IsDeep(insight) <==> |insight| > 0 && |Strip(insight)| >= MinDeepLength && TruthCheck(insight)
  {
  }

  /** Matching is by substring, so a signal inside a longer word counts: any
      text containing "adjust" (in any case) holds "just", is not deep and
      fails `truth_check`. */
  lemma SignalInsideWord(a: string, w: string, b: string)
    requires Lower(w) == "adjust"
    ensures !TruthCheck(a + w + b) && !IsDeep(a + w + b)
  {
    assert ShallowSignals[4] == "just";
    assert OccursAt(Lower(w), "just", 2);
    ContainsLowerInfix(a, w, b, "just");
  }

  /** `meta_hint`: "truth" wins over "identity"; otherwise the default hint. */
  function MetaHint(input: string): (hint: string)
    ensures hint in {TruthHint, IdentityHint, DefaultHint}
    ensures Contains(Lower(input), "truth") <==> hint == TruthHint
    ensures hint == IdentityHint <==> !Contains(Lower(input), "truth") && Contains(Lower(input), "identity")
  {
    var lowered := Lower(input);
    if Contains(lowered, "truth") then TruthHint
    else if Contains(lowered, "identity") then IdentityHint
    else DefaultHint
  }

  /** Whether `c.isalpha()` holds (ASCII letters). */
  predicate IsAlpha(c: char) {
    'A' <= c <= 'Z' || 'a' <= c <= 'z'
  }

  /** `sum(ord(c) for c in text if c.isalpha())`. */
  function Signal(text: string): nat {
    if |text| == 0 then 0
    else (if IsAlpha(text[0]) then text[0] as nat else 0) + Signal(text[1..])
  }

  /** `pulse_score(text)`: the signal modulo 1000, in thousandths. */
  function PulseScore(text: string): (r: real)
    ensures 0.0 <= r <= 0.999
    ensures r * 1000.0 == (Signal(text) % 1000) as real
  {
    (Signal(text) % 1000) as real / 1000.0
  }

  lemma {:induction false} SignalAppend(a: string, b: string)
    ensures Signal(a + b) == Signal(a) + Signal(b)
  {
    if |a| > 0 {
      assert (a + b)[0] == a[0];
      assert (a + b)[1..] == a[1..] + b;
      SignalAppend(a[1..], b);
    } else {
      assert a + b == b;
    }
  }

  /** Only letters count: inserting letter-free text anywhere leaves the
      pulse unchanged. */
  lemma PulseIgnoresNonLetters(a: string, n: string, b: string)
    requires forall i :: 0 <= i < |n| ==> !IsAlpha(n[i])
    ensures PulseScore(a + n + b) == PulseScore(a + b)
  {
    NonLettersSignal(n);
    SignalAppend(a + n, b);
    SignalAppend(a, n);
    SignalAppend(a, b);
  }

  lemma {:induction false} NonLettersSignal(n: string)
    requires forall i :: 0 <= i < |n| ==> !IsAlpha(n[i])
    ensures Signal(n) == 0
  {
    if |n| > 0 {
      NonLettersSignal(n[1..]);
    }
  }

  /** `reflect(input)`: the input quoted after the mirror marker, the meta
      hint, and the formatted pulse. */
  function Reflect(input: string, fmt: real -> string): (r: string)
    ensures |r| > |ReflectPrefix| + |input|
    ensures r[..|ReflectPrefix|] == ReflectPrefix
    ensures r[|ReflectPrefix|..|ReflectPrefix| + |input|] == input
    ensures r[|r| - 1] == ']'
  {
    var pulse := ReflectPulse(input, fmt);
    var tail := ReflectHint(input) + pulse;
    assert tail[|tail| - 1] == pulse[|pulse| - 1];
    ReflectPrefix + input + tail
  }

  /** The bracketed pulse score, written by the formatter, that closes a
      reflection. */
  function ReflectPulse(input: string, fmt: real -> string): (p: string)
    ensures |p| > |PulseOpen|
    ensures p[..|PulseOpen|] == PulseOpen && p[|p| - 1] == ']'
  {
    PulseOpen + fmt(PulseScore(input)) + PulseClose
  }

  /** The arrow and the meta hint that follow the quoted input. */
  function ReflectHint(input: string): (h: string)
    ensures h == HintSeparator + MetaHint(input)
  {
    HintSeparator + MetaHint(input)
  }

  /** Right after the quoted input the reflection shows the arrow and the
      meta hint chosen from the input's content. */
  lemma ReflectShowsHint(input: string, fmt: real -> string)
    ensures var r := Reflect(input, fmt); var start := |ReflectPrefix| + |input|;
      && |r| > start + |ReflectHint(input)|
      && r[start..start + |ReflectHint(input)|] == ReflectHint(input)
  {
    ReflectParts(input, fmt);
    InfixOfConcat(ReflectPrefix + input, ReflectHint(input), ReflectPulse(input, fmt));
  }

  /** A reflection is the quoted input, then the hint, then the pulse. */
  lemma ReflectParts(input: string, fmt: real -> string)
    ensures Reflect(input, fmt) == (ReflectPrefix + input) + (ReflectHint(input) + ReflectPulse(input, fmt))
  {
  }

  lemma InfixOfConcat<T>(a: seq<T>, b: seq<T>, c: seq<T>)
    requires |c| > 0
    ensures |a + (b + c)| > |a| + |b|
    ensures (a + (b + c))[|a|..|a| + |b|] == b
  {
  }

  /** `process`: a reflection exactly when both filters pass, otherwise the
      fixed rejection. */
  function Process(input: string, fmt: real -> string): (r: string)
    ensures r == Reflect(input, fmt) <==> TruthCheck(input) && DepthScan(input)
    ensures r == Rejection <==> !(TruthCheck(input) && DepthScan(input))
  {
    if TruthCheck(input) && DepthScan(input) then Reflect(input, fmt) else Rejection
  }

  /** `multi_depth_reflection(base, depth)`: `base`, then reflections of the
      previous element, stopping early only at a fixed point.  A reflection is
      always longer than its input, so no fixed point exists and all `depth`
      steps are taken. */
  method MultiDepthReflection(base: string, depth: int, fmt: real -> string) returns (reflections: seq<string>)
    ensures |reflections| == (if depth > 0 then depth else 0) + 1
    ensures reflections[0] == base
    ensures forall i :: 0 < i < |reflections| ==> reflections[i] == Reflect(reflections[i - 1], fmt)
    ensures forall i :: 0 <= i < |reflections| ==> |reflections[i]| >= |base| + i
  {
    reflections := [base];
    var k := 0;
    while k < depth
      invariant 0 <= k && (k <= depth || k == 0)
      invariant |reflections| == k + 1 && reflections[0] == base
      invariant forall i :: 0 < i < |reflections| ==> reflections[i] == Reflect(reflections[i - 1], fmt)
    {
      var last := reflections[|reflections| - 1];
      var next := Reflect(last, fmt);
      assert |next| > |last|;
      if next == last {
        break;
      }
      var earlier := reflections;
      reflections := reflections + [next];
      assert reflections[..|earlier|] == earlier && reflections[|earlier|] == next;
      k := k + 1;
    }
    forall i | 0 <= i < |reflections|
      ensures |reflections[i]| >= |base| + i
    {
      ChainGrows(reflections, fmt, i);
    }
  }

  /** Along a chain of reflections each element is at least one character
      longer than the one before. */
  lemma {:induction false} ChainGrows(rs: seq<string>, fmt: real -> string, i: nat)
    requires i < |rs|
    requires forall j :: 0 < j < |rs| ==> rs[j] == Reflect(rs[j - 1], fmt)
    ensures |rs[i]| >= |rs[0]| + i
  {
    if i > 0 {
      ChainGrows(rs, fmt, i - 1);
    }
  }

  /** `_store_memory`: the record goes last and, past the limit, the oldest
      record is dropped. */
  function StoreMemory<R>(memory: seq<R>, record: R): (m: seq<R>)
    ensures |m| == if |memory| + 1 > MemoryLimit then |memory| else |memory| + 1
    ensures |memory| <= MemoryLimit ==> |m| <= MemoryLimit
    ensures m[|m| - 1] == record
    ensures m == (memory + [record])[|memory| + 1 - |m|..]
  {
    var appended := memory + [record];
    if |appended| > MemoryLimit then appended[1..] else appended
  }

  /** Storing records one after another. */
  function StoreMemoryAll<R>(memory: seq<R>, records: seq<R>): seq<R>
    decreases |records|
  {
    if |records| == 0 then memory else StoreMemoryAll(StoreMemory(memory, records[0]), records[1..])
  }

  /** The last `n` elements of `xs` (all of them when there are fewer). */
  function LastN<R>(xs: seq<R>, n: nat): (r: seq<R>)
    ensures |r| == if |xs| < n then |xs| else n
  {
    if |xs| <= n then xs else xs[|xs| - n..]
  }

  /** Starting within the limit, the memory is always the most recent
      `MEMORY_LIMIT` records, oldest first. */
  lemma {:induction false} StoreMemoryKeepsNewest<R>(memory: seq<R>, records: seq<R>)
    requires |memory| <= MemoryLimit
    ensures StoreMemoryAll(memory, records) == LastN(memory + records, MemoryLimit)
    decreases |records|
  {
    if |records| > 0 {
      var m1 := StoreMemory(memory, records[0]);
      StoreMemoryAllStep(memory, records);
      StoreMemoryKeepsNewest(m1, records[1..]);
      StoreThenLastN(memory, records[0], records[1..]);
      SplitFirst(memory, records);
    }
  }

  /** Storing a non-empty run of records is storing the first one and then
      the rest. */
  lemma StoreMemoryAllStep<R>(memory: seq<R>, records: seq<R>)
    requires |records| > 0
    ensures StoreMemoryAll(memory, records) == StoreMemoryAll(StoreMemory(memory, records[0]), records[1..])
  {
  }

  /** Appending the first record and then the rest is appending them all. */
  lemma SplitFirst<R>(memory: seq<R>, records: seq<R>)
    requires |records| > 0
    ensures memory + [records[0]] + records[1..] == memory + records
  {
  }

  /** One store followed by more records keeps the same newest
      `MEMORY_LIMIT` records as appending without the store. */
  lemma StoreThenLastN<R>(memory: seq<R>, record: R, rest: seq<R>)
    requires |memory| <= MemoryLimit
    ensures LastN(StoreMemory(memory, record) + rest, MemoryLimit) == LastN(memory + [record] + rest, MemoryLimit)
  {
    var xs := memory + [record];
    if |xs| > MemoryLimit {
      assert StoreMemory(memory, record) == xs[1..];
      LastNDropFirst(xs, rest, MemoryLimit);
    }
  }

  /** Dropping the first element of a sequence that is longer than `n` does
      not change its last `n` elements. */
  lemma LastNDropFirst<R>(a: seq<R>, b: seq<R>, n: nat)
    requires |a| > 0 && |a| + |b| > n
    ensures LastN(a[1..] + b, n) == LastN(a + b, n)
  {
    var all := a + b;
    var tail := a[1..] + b;
    assert tail == all[1..];
    if |tail| <= n {
      assert |all| - n == 1;
    } else {
      assert tail[|tail| - n..] == all[|all| - n..];
    }
  }
}
