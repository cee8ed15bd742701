/** `SarethV2` (sareth_v2.py): three phrase protocols, a priority rule that
    picks one of three responses, and an append-only record of every
    observation.  The timestamp is a parameter. */
module SarethV2 {
  import opened Text

  const TruthKeywords: seq<string> := ["contradiction", "identity", "time", "logic", "recursive"]
  const ShallowFlags: seq<string> := ["maybe", "i think", "just", "kind of", "possibly"]
  const EgoIndicators: seq<string> := ["i am chosen", "follow me", "my system", "only i"]

  const DriftWarning: string := "\U{26A0}\U{FE0F} Identity drift detected. Re-center on structure, not self."
  const Rejection: string := "\U{27C1}\U{2205} Rejected \U{2013} failed recursion or depth test."
  const ReflectPrefix: string := "\U{1FA9E} '"
  const ReflectSuffix: string := "' passes structural tests. Reflect on its implications recursively."

  datatype Record = Record(timestamp: string, input: string, response: string)

  /** `truth_rich_recursion`: some recursion keyword occurs, at some
      position, ignoring case; the shortest keyword has four characters. */
  predicate TruthRichRecursion(text: string): (ok: bool)
    ensures ok ==> |text| >= 4
  {
    ContainsAny(Lower(text), TruthKeywords)
  }

  /** `depth_integrity_scan`: no shallow flag occurs, at any position,
      ignoring case; texts shorter than the shortest flag always pass. */
  predicate DepthIntegrityScan(text: string): (ok: bool)
    ensures |text| < 4 ==> ok
  {
    !ContainsAny(Lower(text), ShallowFlags)
  }

  /** `identity_drift_check`: some ego phrase occurs, at some position,
      ignoring case; the shortest phrase has six characters. */
  predicate IdentityDriftCheck(text: string): (drift: bool)
    ensures drift ==> |text| >= 6
  {
    ContainsAny(Lower(text), EgoIndicators)
  }

  /** `reflect(input_text)`. */
  function Reflect(input: string): (r: string)
    ensures |r| == |ReflectPrefix| + |input| + |ReflectSuffix|
    ensures r[|ReflectPrefix|..|ReflectPrefix| + |input|] == input
    ensures r[0] == '\U{1FA9E}'
    ensures r[..|ReflectPrefix|] == ReflectPrefix && r[|r| - |ReflectSuffix|..] == ReflectSuffix
  {
    ReflectPrefix + input + ReflectSuffix
  }

  /** The response `observe(input_text)` chooses: the drift warning has
      priority, then a reflection when both other protocols pass, else the
      rejection. */
  function Response(input: string): (r: string)
    ensures IdentityDriftCheck(input) <==> r == DriftWarning
    ensures r == Reflect(input) <==>
      !IdentityDriftCheck(input) && TruthRichRecursion(input) && DepthIntegrityScan(input)
    ensures r == Rejection <==>
      !IdentityDriftCheck(input) && !(TruthRichRecursion(input) && DepthIntegrityScan(input))
  {
    if IdentityDriftCheck(input) then DriftWarning
    else if TruthRichRecursion(input) && DepthIntegrityScan(input) then Reflect(input)
    else Rejection
  }

  /** `observe(input_text)`: exactly one record is appended, and its response
      is the value returned. */
  function Observe(memory: seq<Record>, input: string, timestamp: string): (res: (seq<Record>, string))
    ensures |res.0| == |memory| + 1 && res.0[..|memory|] == memory
    ensures res.0[|memory|] == Record(timestamp, input, res.1)
    ensures res.1 == Response(input)
  {
    var response := Response(input);
    (memory + [Record(timestamp, input, response)], response)
  }

  /** Observing each `(input, timestamp)` pair in turn. */
  function ObserveAll(memory: seq<Record>, calls: seq<(string, string)>): seq<Record>
    decreases |calls|
  {
    if |calls| == 0 then memory
    else ObserveAll(Observe(memory, calls[0].0, calls[0].1).0, calls[1..])
  }

  /** The record `observe` appends for one `(input, timestamp)` call. */
  function CallRecord(call: (string, string)): Record {
    Record(call.1, call.0, Response(call.0))
  }

  /** The records the calls append, in call order. */
  function CallRecords(calls: seq<(string, string)>): (rs: seq<Record>)
    ensures |rs| == |calls|
    decreases |calls|
  {
    if |calls| == 0 then [] else [CallRecord(calls[0])] + CallRecords(calls[1..])
  }

  lemma {:induction false} CallRecordsAt(calls: seq<(string, string)>, i: nat)
    requires i < |calls|
    ensures CallRecords(calls)[i] == CallRecord(calls[i])
    decreases i
  {
    var rest := calls[1..];
    assert CallRecords(calls) == [CallRecord(calls[0])] + CallRecords(rest);
    if i > 0 {
      CallRecordsAt(rest, i - 1);
      assert rest[i - 1] == calls[i];
    }
  }

  /** Observing each call in turn appends exactly the calls' records. */
  lemma {:induction false} ObserveAllAppends(memory: seq<Record>, calls: seq<(string, string)>)
    ensures ObserveAll(memory, calls) == memory + CallRecords(calls)
    decreases |calls|
  {
    if |calls| > 0 {
      var rest := calls[1..];
      var m1 := Observe(memory, calls[0].0, calls[0].1).0;
      var r := CallRecord(calls[0]);
      var rs := CallRecords(rest);
      assert ObserveAll(memory, calls) == ObserveAll(m1, rest);
      ObserveAllAppends(m1, rest);
      assert m1 == memory + [r];
      assert CallRecords(calls) == [r] + rs;
      AppendAssoc(memory, [r], rs);
    }
  }

  /** The memory is the earlier records followed by one record per call, in
      call order, each holding the response `observe` returned for it. */
  lemma MemoryRecordsEveryCall(memory: seq<Record>, calls: seq<(string, string)>)
    ensures var m := ObserveAll(memory, calls);
      && |m| == |memory| + |calls|
      && m[..|memory|] == memory
      && forall i :: 0 <= i < |calls| ==>
        m[|memory| + i] == Record(calls[i].1, calls[i].0, Response(calls[i].0))
  {
    ObserveAllAppends(memory, calls);
    var m := ObserveAll(memory, calls);
    forall i | 0 <= i < |calls|
      ensures m[|memory| + i] == Record(calls[i].1, calls[i].0, Response(calls[i].0))
    {
      CallRecordsAt(calls, i);
    }
    assert m[..|memory|] == memory;
  }

  /** All three protocols ignore case: they give the same answer on the
      lower-cased text. */
  lemma ProtocolsIgnoreCase(text: string)
    ensures TruthRichRecursion(Lower(text)) == TruthRichRecursion(text)
    ensures DepthIntegrityScan(Lower(text)) == DepthIntegrityScan(text)
    ensures IdentityDriftCheck(Lower(text)) == IdentityDriftCheck(text)
  {
    LowerIdempotent(text);
  }

  /** An ego phrase anywhere in the text, in any case, forces the drift
      warning whatever else the text says. */
  lemma EgoPhraseForcesWarning(a: string, w: string, b: string, k: nat)
    requires k < |EgoIndicators| && Lower(w) == EgoIndicators[k]
    ensures Response(a + w + b) == DriftWarning
  {
    assert OccursAt(Lower(w), EgoIndicators[k], 0);
    ContainsLowerInfix(a, w, b, EgoIndicators[k]);
  }

  /** `detect_drift(text)`: "drift" occurs, at some position, ignoring case. */
  predicate DetectDrift(text: string): (drift: bool)
    ensures drift ==> |text| >= 5
  {
    Contains(Lower(text), "drift")
  }

  /** "drift" in any case, anywhere in the text, is detected. */
  lemma DetectDriftAnyCase(a: string, w: string, b: string)
    requires Lower(w) == "drift"
    ensures DetectDrift(a + w + b)
  {
    assert OccursAt(Lower(w), "drift", 0);
    ContainsLowerInfix(a, w, b, "drift");
  }
}
