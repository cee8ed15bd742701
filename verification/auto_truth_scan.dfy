/** The text probes of auto_truth_scan.py: `mirror_test` reverses the words of
    a statement, `inversion_test` and `fractal_test` are fixed templates.
    Each returns three lines. */
module AutoTruthScan {
  import opened Text

  const Warning: string := "\U{26A0}\U{FE0F}"
  const MirrorFooter: string := Warning + " Manual evaluation required."
  const InversionQuestion: string := "What if the opposite were true?"
  const InversionFooter: string := Warning + " Manually consider" + " implications and contradictions."
  const FractalFooter: string := Warning + " Compare behavior at both scales."

  const OriginalLabel: string := "Original: "
  const ReversedLabel: string := "Reversed: "
  const MicroLabel: string := "Micro Context: "
  const MacroLabel: string := "Macro Context: "

  // The fixed line pieces of each probe are free of line breaks.

  lemma MirrorPiecesOneLine()
    ensures Free(OriginalLabel, '\n') && Free(ReversedLabel, '\n') && Free(MirrorFooter, '\n')
  {
  }

  lemma InversionPiecesOneLine()
    ensures Free(InversionQuestion, '\n') && Free(InversionFooter, '\n')
  {
  }

  lemma FractalPiecesOneLine()
    ensures Free(MicroLabel, '\n') && Free(MacroLabel, '\n') && Free(FractalFooter, '\n')
  {
  }

  /** `" ".join(statement.split()[::-1])`. */
  function ReversedStatement(statement: string): (rev: string)
    ensures Words(rev) == Reverse(Words(statement))
    ensures Free(rev, '\n')
  {
    var ws := Reverse(Words(statement));
    ReverseAllWords(Words(statement));
    WordsOfJoin(ws);
    JoinFree(ws, " ", '\n');
    Join(ws, " ")
  }

  /** `mirror_test(statement)`. */
  function MirrorTest(statement: string): (r: string)
    ensures |r| > |OriginalLabel| + |statement| + |ReversedLabel|
    ensures r[..|OriginalLabel| + |statement| + 1 + |ReversedLabel|] == OriginalLabel + statement + "\n" + ReversedLabel
  {
    OriginalLabel + statement + "\n" + ReversedLabel + ReversedStatement(statement) + "\n" + MirrorFooter
  }

  /** The reversal keeps every word and only reorders them: the word count is
      kept, and reversing the reversed words gives back the original words. */
  lemma MirrorKeepsWords(statement: string)
    ensures |Words(ReversedStatement(statement))| == |Words(statement)|
    ensures Reverse(Words(ReversedStatement(statement))) == Words(statement)
  {
    ReverseReverse(Words(statement));
  }

  /** Mirroring twice gives the statement with its whitespace normalised to
      single spaces. */
  lemma MirrorTwice(statement: string)
    ensures ReversedStatement(ReversedStatement(statement)) == Join(Words(statement), " ")
  {
    ReverseReverse(Words(statement));
  }

  /** For a one-line statement the output is exactly three lines: the
      statement, its reversed words, and the footer. */
  lemma MirrorTestLines(statement: string)
    requires Free(statement, '\n')
    ensures SplitOn(MirrorTest(statement), '\n') ==
      [OriginalLabel + statement, ReversedLabel + ReversedStatement(statement), MirrorFooter]
  {
    var a, b := OriginalLabel + statement, ReversedLabel + ReversedStatement(statement);
    MirrorPiecesOneLine();
    assert Free(a, '\n') && Free(b, '\n');
    assert MirrorTest(statement) == a + "\n" + b + "\n" + MirrorFooter;
    SplitThreeLines(a, b, MirrorFooter);
  }

  /** `inversion_test(statement)`: the statement is not used. */
  function InversionTest(statement: string): (r: string)
    ensures SplitOn(r, '\n') == [InversionQuestion, InversionFooter]
  {
    var lines := [InversionQuestion, InversionFooter];
    InversionPiecesOneLine();
    SplitOnJoin(lines, '\n');
    InversionQuestion + "\n" + InversionFooter
  }

  /** `fractal_test(statement, micro, macro)`: only the two examples appear. */
  function FractalTest(statement: string, micro: string, macro: string): (r: string)
    ensures |r| > |MicroLabel| + |micro|
    ensures r[..|MicroLabel| + |micro|] == MicroLabel + micro
  {
    MicroLabel + micro + "\n" + MacroLabel + macro + "\n" + FractalFooter
  }

  /** For one-line examples the output is three lines: the micro example, the
      macro example, and the footer. */
  lemma FractalTestLines(statement: string, micro: string, macro: string)
    requires Free(micro, '\n') && Free(macro, '\n')
    ensures SplitOn(FractalTest(statement, micro, macro), '\n') ==
      [MicroLabel + micro, MacroLabel + macro, FractalFooter]
  {
    var a, b := MicroLabel + micro, MacroLabel + macro;
    FractalPiecesOneLine();
    assert Free(a, '\n') && Free(b, '\n');
    assert FractalTest(statement, micro, macro) == a + "\n" + b + "\n" + FractalFooter;
    SplitThreeLines(a, b, FractalFooter);
  }
}
