/** Prompt assembly of sareth_chat.py: `build_messages` puts the system
    prompt in front of the chat history, and `craft_ref_move` lays the four
    coaching moves out as lines.  The wording of the system prompt is a
    parameter `core`; the model call itself (`generate_reply`) is not part of
    this model. */
module SarethChat {
  import opened Wrappers
  import opened Text

  datatype Message = Message(role: string, content: string)

  const SystemRole: string := "system"
  const PreambleSeparator: string := "\n\n"

  /** `build_messages(history, preamble)` with system prompt `core`. */
  function BuildMessages(core: string, history: seq<Message>, preamble: Option<string>): (msgs: seq<Message>)
    ensures |msgs| == |history| + 1
    ensures msgs[0].role == SystemRole
    ensures msgs[1..] == history
    ensures preamble.None? ==> msgs[0].content == core
    ensures preamble.Some? ==> msgs[0].content == core + PreambleSeparator + preamble.value
  {
    var systemText := if preamble.None? then core else core + PreambleSeparator + preamble.value;
    [Message(SystemRole, systemText)] + history
  }

  /** The system message tells whether a preamble was given, and which: the
      test is `is None`, so even an empty preamble leaves its separator. */
  lemma SystemMessageDeterminesPreamble(core: string, h1: seq<Message>, h2: seq<Message>,
                                        p1: Option<string>, p2: Option<string>)
    requires BuildMessages(core, h1, p1)[0] == BuildMessages(core, h2, p2)[0]
    ensures p1 == p2
  {
    var c1 := BuildMessages(core, h1, p1)[0].content;
    var c2 := BuildMessages(core, h2, p2)[0].content;
    if p1.Some? && p2.Some? {
      assert p1.value == c1[|core| + 2..];
      assert p2.value == c2[|core| + 2..];
    }
  }

  /** An empty preamble still changes the system message. */
  lemma EmptyPreambleAddsSeparator(core: string, history: seq<Message>)
    ensures BuildMessages(core, history, Some(""))[0].content == core + "\n\n"
    ensures BuildMessages(core, history, Some("")) != BuildMessages(core, history, None)
  {
    assert |BuildMessages(core, history, Some(""))[0].content| == |core| + 2;
  }

  // ------------------------------------------------------------ REF moves

  const NowMapLabel: string := "\U{1F9ED} Now-map: "
  const TruthsHeading: string := "\U{2705} Implied truths:"
  const AnchorLabel: string := "\U{1F300} Re-anchor: "
  const MoveLabel: string := "\U{27A1}\U{FE0F} Move: "
  const BulletMark: string := "\U{2022} "

  function Bullets(truths: seq<string>): (bs: seq<string>)
    ensures |bs| == |truths|
    ensures forall i :: 0 <= i < |truths| ==> bs[i] == BulletMark + truths[i]
  {
    seq(|truths|, i requires 0 <= i < |truths| => BulletMark + truths[i])
  }

  /** The lines of the labelled layout. */
  function LabelledLines(nowRead: string, truths: seq<string>, anchor: string, move: string): seq<string> {
    [NowMapLabel + nowRead, TruthsHeading] + Bullets(truths) + [AnchorLabel + anchor, MoveLabel + move]
  }

  /** `craft_ref_move(now_read, truths, anchor, move, label)`. */
  function CraftRefMove(nowRead: string, truths: seq<string>, anchor: string, move: string, labelled: bool): (r: string)
    ensures labelled ==> |r| >= |NowMapLabel + nowRead| && r[..|NowMapLabel + nowRead|] == NowMapLabel + nowRead
    ensures !labelled ==> |r| > |nowRead| && r[..|nowRead| + 1] == nowRead + "\n"
  {
    if labelled then
      var lines := LabelledLines(nowRead, truths, anchor, move);
      assert Join(lines, "\n") == lines[0] + "\n" + Join(lines[1..], "\n");
      Join(lines, "\n")
    else
      nowRead + "\n" + Join(Bullets(truths), "\n") + "\n" + anchor + "\n" + move
  }

  predicate OneLine(s: string) {
    Free(s, '\n')
  }

  lemma BulletsOneLine(truths: seq<string>)
    requires forall i :: 0 <= i < |truths| ==> OneLine(truths[i])
    ensures forall i :: 0 <= i < |truths| ==> OneLine(Bullets(truths)[i])
  {
  }

  /** With one-line inputs the labelled block has `4 + |truths|` lines: the
      now-map, the heading, one bullet per truth, the anchor and the move. */
  lemma LabelledLayout(nowRead: string, truths: seq<string>, anchor: string, move: string)
    requires OneLine(nowRead) && OneLine(anchor) && OneLine(move)
    requires forall i :: 0 <= i < |truths| ==> OneLine(truths[i])
    ensures var lines := SplitOn(CraftRefMove(nowRead, truths, anchor, move, true), '\n');
      && |lines| == 4 + |truths|
      && lines[0] == NowMapLabel + nowRead
      && lines[1] == TruthsHeading
      && (forall i :: 0 <= i < |truths| ==> lines[2 + i] == BulletMark + truths[i])
      && lines[2 + |truths|] == AnchorLabel + anchor
      && lines[3 + |truths|] == MoveLabel + move
  {
    var lines := LabelledLines(nowRead, truths, anchor, move);
    BulletsOneLine(truths);
    forall k | 0 <= k < |lines| ensures Free(lines[k], '\n') {
      if 2 <= k < 2 + |truths| {
        assert lines[k] == Bullets(truths)[k - 2];
      }
    }
    SplitOnJoin(lines, '\n');
  }

  /** Without labels and with at least one truth, the block is the now-read,
      one bullet line per truth, the anchor and the move. */
  lemma ProseLayout(nowRead: string, truths: seq<string>, anchor: string, move: string)
    requires |truths| > 0
    requires OneLine(nowRead) && OneLine(anchor) && OneLine(move)
    requires forall i :: 0 <= i < |truths| ==> OneLine(truths[i])
    ensures SplitOn(CraftRefMove(nowRead, truths, anchor, move, false), '\n') ==
      [nowRead] + Bullets(truths) + [anchor, move]
  {
    var bs := Bullets(truths);
    var lines := [nowRead] + bs + [anchor, move];
    JoinConcat([nowRead] + bs, [anchor, move], "\n");
    JoinConcat([nowRead], bs, "\n");
    assert Join([anchor, move], "\n") == anchor + "\n" + move;
    assert Join(lines, "\n") == nowRead + "\n" + Join(bs, "\n") + "\n" + anchor + "\n" + move;
    BulletsOneLine(truths);
    forall k | 0 <= k < |lines| ensures Free(lines[k], '\n') {
      if 1 <= k < 1 + |truths| {
        assert lines[k] == bs[k - 1];
      }
    }
    SplitOnJoin(lines, '\n');
  }

  /** Without labels and with no truths, the bullets leave an empty middle
      line. */
  lemma ProseLayoutNoTruths(nowRead: string, anchor: string, move: string)
    requires OneLine(nowRead) && OneLine(anchor) && OneLine(move)
    ensures SplitOn(CraftRefMove(nowRead, [], anchor, move, false), '\n') == [nowRead, "", anchor, move]
  {
    var lines := [nowRead, "", anchor, move];
    assert Join(Bullets([]), "\n") == "";
    assert Join([anchor, move], "\n") == anchor + "\n" + move;
    assert Join(lines[1..], "\n") == "" + "\n" + (anchor + "\n" + move);
    assert Join(lines, "\n") == CraftRefMove(nowRead, [], anchor, move, false);
    SplitOnJoin(lines, '\n');
  }
}
