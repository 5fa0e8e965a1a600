/**
 * Scroll-position highlighting: which `section[id]` element is "current"
 * for a given scroll offset (highlightNavigation in logic.js).
 */
module Highlight {

  /** A `section[id]` element: its id attribute, offsetTop and offsetHeight, in whole pixels. */
  datatype Section = Section(id: string, top: int, height: int)

  /** Pixels added to window.scrollY before it is compared with the section bounds. */
  const Lookahead: int := 100

  /** The half-open vertical interval [top, top + height) of `s` contains `y`. */
  predicate Covers(s: Section, y: int) {
    s.top <= y < s.top + s.height
  }

  /**
   * The section highlightNavigation selects at `scrollY`: the id of the last
   * section, in document order, that covers scrollY + 100, or '' when none does.
   */
  function CurrentSection(sections: seq<Section>, scrollY: int): (r: string)
    ensures r == "" || exists k :: 0 <= k < |sections| && Covers(sections[k], scrollY + Lookahead) && sections[k].id == r
    decreases |sections|
  {
    if sections == [] then ""
    else
      var last := sections[|sections| - 1];
      if Covers(last, scrollY + Lookahead) then last.id
      else
        var r := CurrentSection(sections[..|sections| - 1], scrollY);
        assert forall k :: 0 <= k < |sections| - 1 ==> sections[..|sections| - 1][k] == sections[k];
        r
  }

  /** The forward scan of highlightNavigation: each covering section overwrites the previous choice. */
  method ScanCurrentSection(sections: seq<Section>, scrollY: int) returns (current: string)
    ensures current == CurrentSection(sections, scrollY)
  {
    var scrollPosition := scrollY + Lookahead;
    current := "";
    for i := 0 to |sections|
      invariant current == CurrentSection(sections[..i], scrollY)
    {
      var section := sections[i];
      if scrollPosition >= section.top && scrollPosition < section.top + section.height {
        current := section.id;
      }
      assert sections[..i + 1][..i] == sections[..i];
    }
    assert sections[..|sections|] == sections;
  }

  /** A section that covers the look-ahead point and is followed by no other such section is the current one. */
  lemma {:induction false} CurrentSectionIsLastCovering(sections: seq<Section>, scrollY: int, k: int)
    requires 0 <= k < |sections|
    requires Covers(sections[k], scrollY + Lookahead)
    requires forall j :: k < j < |sections| ==> !Covers(sections[j], scrollY + Lookahead)
    ensures CurrentSection(sections, scrollY) == sections[k].id
    decreases |sections|
  {
    if k < |sections| - 1 {
      var init := sections[..|sections| - 1];
      assert forall j :: 0 <= j < |init| ==> init[j] == sections[j];
      CurrentSectionIsLastCovering(init, scrollY, k);
    }
  }

  /** When no section covers the look-ahead point the current section is ''. */
  lemma CurrentSectionNoneCovering(sections: seq<Section>, scrollY: int)
    requires forall j :: 0 <= j < |sections| ==> !Covers(sections[j], scrollY + Lookahead)
    ensures CurrentSection(sections, scrollY) == ""
  {
  }

  /**
   * With two adjacent sections home = [0, 500) and about = [500, 1200),
   * the 100-pixel look-ahead already selects about at scrollY = 450;
   * home is current only up to scrollY = 399.
   */
  lemma LookaheadSelectsNextSection()
    ensures CurrentSection([Section("home", 0, 500), Section("about", 500, 700)], 450) == "about"
    ensures CurrentSection([Section("home", 0, 500), Section("about", 500, 700)], 399) == "home"
    ensures CurrentSection([Section("home", 0, 500), Section("about", 500, 700)], 600) == "about"
    ensures CurrentSection([Section("home", 0, 500), Section("about", 500, 700)], 1100) == ""
  {
  }
}
