/** The question-and-answer flow of OnboardingPrompts.js.  The component's
    two pieces of React state, `step` and `responses`, form a `Prompts`
    record; `handleNext` becomes a pure step that also reports the argument
    passed to `onComplete`, if it was called. */
module Onboarding {
  import opened Wrappers

  /** The component ships three questions. */
  const QuestionCount: nat := 3

  datatype Prompts = Prompts(step: int, responses: seq<string>)

  const Initial: Prompts := Prompts(0, [])

  /** The state the component keeps: one answer per question passed, and a
      step that indexes a question. */
  predicate Valid(p: Prompts, n: nat) {
    |p.responses| == p.step && 0 <= p.step && (n == 0 || p.step < n)
  }

  /** `handleNext(answer)` with `n` questions: the new state and the
      `onComplete` argument, if any. */
  function HandleNext(p: Prompts, answer: string, n: nat): (res: (Prompts, Option<seq<string>>))
    ensures p.step < n - 1 ==> res.1.None? && res.0 == Prompts(p.step + 1, p.responses + [answer])
    ensures p.step >= n - 1 ==> res.0 == p && res.1 == Some(p.responses + [answer])
  {
    var updated := p.responses + [answer];
    if p.step < n - 1 then (Prompts(p.step + 1, updated), None)
    else (p, Some(updated))
  }

  /** The initial state is valid and every call keeps it valid. */
  lemma HandleNextKeepsValid(p: Prompts, answer: string, n: nat)
    requires Valid(p, n)
    ensures Valid(HandleNext(p, answer, n).0, n)
  {
  }

  /** Completion happens on the last question only, and then carries one
      answer per question. */
  lemma CompletesOnLastStep(p: Prompts, answer: string, n: nat)
    requires Valid(p, n) && n > 0
    ensures HandleNext(p, answer, n).1.Some? <==> p.step == n - 1
    ensures HandleNext(p, answer, n).1.Some? ==> |HandleNext(p, answer, n).1.value| == n
  {
  }

  /** Earlier answers are never changed: the old answers are a prefix of
      the new ones, and of the completed list. */
  lemma AnswersOnlyGrow(p: Prompts, answer: string, n: nat)
    ensures var res := HandleNext(p, answer, n);
      && p.responses <= res.0.responses
      && (res.1.Some? ==> res.1.value == p.responses + [answer])
  {
  }

  /** Feeding answers one by one: the final state and the `onComplete`
      arguments, in call order. */
  function Feed(p: Prompts, answers: seq<string>, n: nat): (res: (Prompts, seq<seq<string>>))
    decreases |answers|
  {
    if |answers| == 0 then (p, [])
    else
      var next := HandleNext(p, answers[0], n);
      var rest := Feed(next.0, answers[1..], n);
      (rest.0, (if next.1.Some? then [next.1.value] else []) + rest.1)
  }

  /** From the initial state, the first `n - 1` answers advance the step and
      are recorded in order; nothing completes. */
  lemma {:induction false} FeedBeforeLast(p: Prompts, answers: seq<string>, n: nat)
    requires p.step + |answers| < n
    ensures Feed(p, answers, n) == (Prompts(p.step + |answers|, p.responses + answers), [])
    decreases |answers|
  {
    if |answers| == 0 {
      assert p.responses + answers == p.responses;
    } else {
      var q := Prompts(p.step + 1, p.responses + [answers[0]]);
      assert HandleNext(p, answers[0], n) == (q, None);
      FeedBeforeLast(q, answers[1..], n);
      var rest := Feed(q, answers[1..], n);
      assert rest == (Prompts(p.step + |answers|, p.responses + [answers[0]] + answers[1..]), []);
      assert Feed(p, answers, n) == (rest.0, [] + rest.1);
      assert p.responses + [answers[0]] + answers[1..] == p.responses + answers;
      assert rest.0 == Prompts(p.step + |answers|, p.responses + answers);
      assert [] + rest.1 == [];
    }
  }

  /** Once on the last question, every answer calls `onComplete` with the
      recorded answers plus that one, and the state stays put. */
  lemma {:induction false} FeedAfterLast(p: Prompts, answers: seq<string>, n: nat)
    requires p.step >= n - 1
    ensures Feed(p, answers, n).0 == p
    ensures |Feed(p, answers, n).1| == |answers|
    ensures forall i :: 0 <= i < |answers| ==> Feed(p, answers, n).1[i] == p.responses + [answers[i]]
    decreases |answers|
  {
    if |answers| > 0 {
      FeedAfterLast(p, answers[1..], n);
      var later := Feed(p, answers[1..], n).1;
      assert Feed(p, answers, n).1 == [p.responses + [answers[0]]] + later;
    }
  }

  /** Feeding two batches of answers is feeding their concatenation. */
  lemma {:induction false} FeedConcat(p: Prompts, xs: seq<string>, ys: seq<string>, n: nat)
    ensures var first := Feed(p, xs, n);
      var second := Feed(first.0, ys, n);
      Feed(p, xs + ys, n) == (second.0, first.1 + second.1)
    decreases |xs|
  {
    if |xs| == 0 {
      assert xs + ys == ys;
      assert Feed(p, xs, n) == (p, []);
      assert [] + Feed(p, ys, n).1 == Feed(p, ys, n).1;
    } else {
      var next := HandleNext(p, xs[0], n);
      var head: seq<seq<string>> := if next.1.Some? then [next.1.value] else [];
      assert (xs + ys)[0] == xs[0];
      assert (xs + ys)[1..] == xs[1..] + ys;
      FeedConcat(next.0, xs[1..], ys, n);
      var rest := Feed(next.0, xs[1..], n);
      var second := Feed(rest.0, ys, n);
      assert Feed(p, xs, n) == (rest.0, head + rest.1);
      assert Feed(next.0, xs[1..] + ys, n) == (second.0, rest.1 + second.1);
      assert Feed(p, xs + ys, n) == (second.0, head + (rest.1 + second.1));
      assert head + (rest.1 + second.1) == (head + rest.1) + second.1;
    }
  }

  /** A full session with the shipped questions: the first three answers
      complete the flow with exactly those answers. */
  lemma ThreeAnswersComplete(a: string, b: string, c: string)
    ensures Feed(Initial, [a, b, c], QuestionCount) == (Prompts(2, [a, b]), [[a, b, c]])
  {
    FeedBeforeLast(Initial, [a, b], QuestionCount);
    FeedAfterLast(Prompts(2, [a, b]), [c], QuestionCount);
    FeedConcat(Initial, [a, b], [c], QuestionCount);
    var p2 := Prompts(2, [a, b]);
    assert Initial.responses + [a, b] == [a, b];
    assert Feed(Initial, [a, b], QuestionCount) == (p2, []);
    var last := Feed(p2, [c], QuestionCount).1;
    assert last[0] == [a, b] + [c] == [a, b, c];
    assert last == [[a, b, c]];
    assert [] + last == last;
    assert [a, b] + [c] == [a, b, c];
  }
}
