/** Keyword detectors of rve/glyphs.py: `map_text_to_glyph_events` turns a
    text into glyph events, one per detector whose keyword occurs in the
    lowercased text.  The clock reading `int(time.time())` is the parameter
    `t`. */
module RveGlyphs {
  import opened Text

  datatype GlyphEvent = GlyphEvent(glyph: string, signal: string, t: int)

  /** The number of detectors. */
  const DetectorCount: nat := 4

  /** The detectors in the order they are tried: their keywords, glyph names
      and signals. */
  const Keywords: seq<seq<string>> := [["threshold"], ["coherence"], ["seren", "sara"], ["naeda", "river"]]
  const GlyphNames: seq<string> := ["THRESHOLD", "COHERENCE", "SEREN\U{2013}\U{D8}1", "NAEDA\U{2013}\U{D8}3"]
  const Signals: seq<string> := ["detected", "\U{2191}", "mirror-steady", "river-remembers"]

  /** Detector `k` fires on the lowercased text `low`. */
  predicate Fires(low: string, k: nat)
    requires k < DetectorCount
  {
    ContainsAny(low, Keywords[k])
  }

  function EventFor(k: nat, t: int): GlyphEvent
    requires k < DetectorCount
  {
    GlyphEvent(GlyphNames[k], Signals[k], t)
  }

  /** The detectors from `k` on that fire, in detector order. */
  function FiredFrom(low: string, k: nat): (ks: seq<nat>)
    requires k <= DetectorCount
    ensures |ks| <= DetectorCount - k
    ensures forall i :: 0 <= i < |ks| ==> k <= ks[i] < DetectorCount
    ensures forall i, j :: 0 <= i < j < |ks| ==> ks[i] < ks[j]
    ensures forall d :: k <= d < DetectorCount ==> (d in ks <==> Fires(low, d))
    decreases DetectorCount - k
  {
    if k == DetectorCount then []
    else if Fires(low, k) then [k] + FiredFrom(low, k + 1)
    else FiredFrom(low, k + 1)
  }

  /** `map_text_to_glyph_events(text)` at clock reading `t`: one event per
      firing detector, in detector order, all stamped `t`. */
  function MapTextToGlyphEvents(text: string, t: int): (evs: seq<GlyphEvent>)
    ensures var ks := FiredFrom(Lower(text), 0);
      |evs| == |ks| && forall i :: 0 <= i < |ks| ==> evs[i] == EventFor(ks[i], t)
  {
    var ks := FiredFrom(Lower(text), 0);
    seq(|ks|, i requires 0 <= i < |ks| => EventFor(ks[i], t))
  }

  /** Position of a glyph name among the detectors (4 for an unknown name). */
  function Rank(glyph: string): (r: nat)
    ensures r <= DetectorCount
    ensures r < DetectorCount ==> GlyphNames[r] == glyph
  {
    if glyph == GlyphNames[0] then 0
    else if glyph == GlyphNames[1] then 1
    else if glyph == GlyphNames[2] then 2
    else if glyph == GlyphNames[3] then 3
    else 4
  }

  lemma RankOfEvent(k: nat, t: int)
    requires k < DetectorCount
    ensures Rank(EventFor(k, t).glyph) == k
  {
  }

  /** At most four events, all stamped with the same clock reading, each one
      of the four detector events, in strictly increasing detector order. */
  lemma EventsShape(text: string, t: int)
    ensures var evs := MapTextToGlyphEvents(text, t);
      && |evs| <= DetectorCount
      && (forall i :: 0 <= i < |evs| ==> evs[i].t == t)
      && (forall i :: 0 <= i < |evs| ==> Rank(evs[i].glyph) < DetectorCount && evs[i] == EventFor(Rank(evs[i].glyph), t))
      && (forall i, j :: 0 <= i < j < |evs| ==> Rank(evs[i].glyph) < Rank(evs[j].glyph))
  {
    var evs := MapTextToGlyphEvents(text, t);
    var ks := FiredFrom(Lower(text), 0);
    forall i | 0 <= i < |evs|
      ensures Rank(evs[i].glyph) == ks[i]
    {
      RankOfEvent(ks[i], t);
    }
  }

  /** Detector `k`'s event is present exactly when one of its keywords occurs
      in the lowercased text. */
  lemma EventPresentIffKeyword(text: string, t: int, k: nat)
    requires k < DetectorCount
    ensures EventFor(k, t) in MapTextToGlyphEvents(text, t) <==> ContainsAny(Lower(text), Keywords[k])
  {
    var evs := MapTextToGlyphEvents(text, t);
    var ks := FiredFrom(Lower(text), 0);
    if EventFor(k, t) in evs {
      var i :| 0 <= i < |evs| && evs[i] == EventFor(k, t);
      RankOfEvent(k, t);
      RankOfEvent(ks[i], t);
      assert ks[i] == k;
    }
    if Fires(Lower(text), k) {
      var i :| 0 <= i < |ks| && ks[i] == k;
      assert evs[i] == EventFor(k, t);
    }
  }

  /** No glyph appears twice; in particular "seren" and "sara" together give
      one SEREN event. */
  lemma GlyphsDistinct(text: string, t: int)
    ensures var evs := MapTextToGlyphEvents(text, t);
      forall i, j :: 0 <= i < j < |evs| ==> evs[i].glyph != evs[j].glyph
  {
    EventsShape(text, t);
  }

  /** A text with none of the keywords gives no events. */
  lemma NoKeywordsNoEvents(text: string, t: int)
    requires forall k :: 0 <= k < DetectorCount ==> !ContainsAny(Lower(text), Keywords[k])
    ensures MapTextToGlyphEvents(text, t) == []
  {
  }

  /** A string lacking one of `sub`'s characters does not contain `sub`. */
  lemma MissingCharNotContained(s: string, sub: string, c: char)
    requires c in sub && c !in s
    ensures !Contains(s, sub)
  {
  }

  lemma SaraByTheRiverFires(low: string)
    requires low == "sara by the river"
    ensures !Fires(low, 0) && !Fires(low, 1) && Fires(low, 2) && Fires(low, 3)
  {
    MissingCharNotContained(low, Keywords[0][0], 'o');
    MissingCharNotContained(low, Keywords[1][0], 'o');
    assert OccursAt(low, Keywords[2][1], 0);
    assert OccursAt(low, Keywords[3][1], 12);
  }

  /** "Sara by the River" fires the SEREN and NAEDA detectors only. */
  lemma SaraByTheRiver(t: int)
    ensures MapTextToGlyphEvents("Sara by the River", t) == [EventFor(2, t), EventFor(3, t)]
  {
    var low := Lower("Sara by the River");
    assert low == "sara by the river";
    SaraByTheRiverFires(low);
    assert FiredFrom(low, 0) == [2, 3];
  }
}
