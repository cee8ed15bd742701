/** The accordion of InfoSidebar.js: at most one section is open, and a
    section's button toggles it.  `activeSection` (null or a section id) is
    an `Option<string>`. */
module InfoSidebar {
  import opened Wrappers

  datatype Section = Section(id: string, title: string)

  const Sections: seq<Section> := [
    Section("guidelines", "Development Guidelines"),
    Section("history", "The History of Recursion")]

  /** `toggleSection(id)`: the open section closes; any other id becomes the
      only open section. */
  function Toggle(active: Option<string>, id: string): (next: Option<string>)
    ensures active == Some(id) ==> next == None
    ensures active != Some(id) ==> next == Some(id)
  {
    if active == Some(id) then None else Some(id)
  }

  /** What one section renders: the button's `aria-expanded`, its verb, and
      whether the section content is shown. */
  datatype Rendered = Rendered(expanded: bool, verb: string, title: string, showsContent: bool)

  function RenderSection(active: Option<string>, s: Section): (r: Rendered)
    ensures r.expanded <==> active == Some(s.id)
    ensures r.showsContent <==> active == Some(s.id)
    ensures r.verb == (if r.expanded then "Hide" else "Show")
    ensures r.title == s.title
  {
    var open := active == Some(s.id);
    Rendered(open, if open then "Hide" else "Show", s.title, open)
  }

  function Render(active: Option<string>, sections: seq<Section>): (rs: seq<Rendered>)
    ensures |rs| == |sections|
    ensures forall i :: 0 <= i < |sections| ==> rs[i] == RenderSection(active, sections[i])
  {
    seq(|sections|, i requires 0 <= i < |sections| => RenderSection(active, sections[i]))
  }

  predicate DistinctIds(sections: seq<Section>) {
    forall i, j :: 0 <= i < j < |sections| ==> sections[i].id != sections[j].id
  }

  /** With distinct ids, at most one section shows its content. */
  lemma AtMostOneOpen(active: Option<string>, sections: seq<Section>)
    requires DistinctIds(sections)
    ensures var rs := Render(active, sections);
      forall i, j :: 0 <= i < j < |rs| ==> !(rs[i].showsContent && rs[j].showsContent)
  {
  }

  /** After toggling a section that was closed, that section and only that
      section shows its content; toggling the open one closes everything. */
  lemma ToggleRender(active: Option<string>, sections: seq<Section>, k: nat)
    requires DistinctIds(sections) && k < |sections|
    ensures var rs := Render(Toggle(active, sections[k].id), sections);
      && (active != Some(sections[k].id) ==>
            forall i :: 0 <= i < |rs| ==> (rs[i].showsContent <==> i == k))
      && (active == Some(sections[k].id) ==>
            forall i :: 0 <= i < |rs| ==> !rs[i].showsContent)
  {
  }

  /** Toggling the same id twice restores a closed accordion, or the same
      section open. */
  lemma ToggleTwice(active: Option<string>, id: string)
    requires active == None || active == Some(id)
    ensures Toggle(Toggle(active, id), id) == active
  {
  }

  /** With another section open, toggling an id twice closes everything
      rather than restoring the other section. */
  lemma ToggleTwiceFromOther(other: string, id: string)
    requires other != id
    ensures Toggle(Toggle(Some(other), id), id) == None
  {
  }

  /** Clicking through the shipped sections: open the guidelines, then the
      history replaces them, then clicking the history again closes it. */
  lemma ClickSequence()
    ensures Toggle(None, "guidelines") == Some("guidelines")
    ensures Toggle(Some("guidelines"), "history") == Some("history")
    ensures Toggle(Some("history"), "history") == None
  {
  }

  lemma ShippedIdsDistinct()
    ensures DistinctIds(Sections)
  {
  }
}
