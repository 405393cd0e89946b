/** The scroll handler of the page: it derives whether the page has been scrolled
    past the navigation threshold, and which section the navigation bar should
    highlight. */
module ScrollSpy {

  /** The bounding box of a rendered section, in viewport coordinates. */
  datatype Rect = Rect(top: real, bottom: real)

  /** What the document holds when the handler runs: the box of every section
      element that exists. An id that is not a key has no element. */
  type Layout = map<string, Rect>

  const Home := "home"

  /** The section ids in the order the handler tries them, top of the page first. */
  const Sections: seq<string> := [Home, "about", "experience", "skills", "projects", "contact"]

  /** The horizontal line, 150 pixels below the top of the viewport, that a
      section must straddle to be the active one. */
  const Probe: real := 150.0

  /** The scroll offset past which the navigation bar changes its style. */
  const ScrollThreshold: real := 50.0

  /** Section `id` exists and its box contains the probe line (edges included). */
  predicate Hit(layout: Layout, id: string)
  {
    id in layout && layout[id].top <= Probe && layout[id].bottom >= Probe
  }

  /** The position of the first id in `ids` that is hit, or `|ids|` when none is. */
  function FirstHitIndex(ids: seq<string>, layout: Layout): (k: nat)
    ensures k <= |ids|
    ensures k < |ids| ==> Hit(layout, ids[k])
    ensures forall j :: 0 <= j < k ==> !Hit(layout, ids[j])
  {
    if ids == [] then 0
    else if Hit(layout, ids[0]) then 0
    else 1 + FirstHitIndex(ids[1..], layout)
  }

  /** The section the handler selects: the first one hit, or "home" when none is. */
  function ActiveSection(layout: Layout): (r: string)
    ensures r in Sections
    ensures r == Home || Hit(layout, r)
  {
    var k := FirstHitIndex(Sections, layout);
    if k < |Sections| then Sections[k] else Home
  }

  /** Whether the navigation bar shows its scrolled style. */
  function IsScrolled(scrollY: real): bool
  {
    scrollY > ScrollThreshold
  }

  /** One run of the scroll handler: the scrolled flag, and a first-match search
      over the sections that stops at the first section straddling the probe. */
  method HandleScroll(scrollY: real, layout: Layout) returns (isScrolled: bool, currentSection: string)
    ensures isScrolled == IsScrolled(scrollY)
    ensures currentSection == ActiveSection(layout)
  {
    isScrolled := scrollY > 50.0;
    currentSection := Home;
    var i := 0;
    while i < |Sections|
      invariant 0 <= i <= |Sections|
      invariant currentSection == Home
      invariant forall j :: 0 <= j < i ==> !Hit(layout, Sections[j])
    {
      var sectionId := Sections[i];
      if sectionId in layout {
        var rect := layout[sectionId];
        if rect.top <= 150.0 && rect.bottom >= 150.0 {
          currentSection := sectionId;
          break;
        }
      }
      i := i + 1;
    }
  }

  /** The selection in full: section `j` is chosen exactly when it is the first
      section hit, or when it is "home" and no section is hit. */
  lemma ActiveSectionIsFirstHit(layout: Layout, j: nat)
    requires j < |Sections|
    ensures ActiveSection(layout) == Sections[j]
        <==> ((Hit(layout, Sections[j]) && forall i :: 0 <= i < j ==> !Hit(layout, Sections[i]))
              || (j == 0 && forall i :: 0 <= i < |Sections| ==> !Hit(layout, Sections[i])))
  {
  }

  /** A section with no element is never selected, except "home" as the default. */
  lemma MissingSectionNotSelected(layout: Layout, id: string)
    requires id !in layout && id != Home
    ensures ActiveSection(layout) != id
  {
  }

  /** Adding or removing boxes of sections that are not hit does not change the selection. */
  lemma SelectionIgnoresMisses(layout: Layout, id: string, rect: Rect)
    requires id !in layout
    requires !Hit(layout[id := rect], id)
    ensures ActiveSection(layout[id := rect]) == ActiveSection(layout)
  {
  }

  /** The scrolled flag switches strictly after 50: off at exactly 50, and once on
      it stays on as the page scrolls further down. */
  lemma ScrolledThreshold(y: real, y': real)
    ensures !IsScrolled(50.0) && IsScrolled(50.5)
    ensures IsScrolled(y) && y <= y' ==> IsScrolled(y')
  {
  }
}
