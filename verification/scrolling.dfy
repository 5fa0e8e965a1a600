/**
 * The page as the scroll-driven handlers see it: its sections, its nav bar,
 * the scroll offset, the `ticking` flag with the queue of pending
 * animation-frame callbacks, and the back-to-top control.
 */
module Scrolling {
  import opened Wrappers
  import opened Highlight
  import opened NavLinks
  import opened BackToTop

  /** Extra pixels left between the navbar's bottom edge and a scrolled-to section. */
  const ScrollMargin: int := 20

  /** The offset the smooth-scroll handler scrolls to for a target at `offsetTop`. */
  function TargetPosition(offsetTop: int, navbarHeight: int): (p: int)
    ensures offsetTop - (p + navbarHeight) == ScrollMargin
  {
    offsetTop - navbarHeight - ScrollMargin
  }

  /** What a click on a '#' nav link asks of the browser. */
  datatype NavClickEffect = NavClickEffect(defaultPrevented: bool, scrollTo: Option<int>, toggleMenu: bool)

  /**
   * After a nav click has scrolled to section k, the highlight picks that same
   * section, provided the navbar is at most 80 pixels tall, the section is tall
   * enough to hold the look-ahead point, and no later section also covers it.
   */
  lemma ClickLandsOnSection(sections: seq<Section>, k: int, navbarHeight: int)
    requires 0 <= k < |sections|
    requires 0 <= navbarHeight <= Lookahead - ScrollMargin
    requires sections[k].height > Lookahead - ScrollMargin - navbarHeight
    requires forall j :: k < j < |sections| ==>
      !Covers(sections[j], TargetPosition(sections[k].top, navbarHeight) + Lookahead)
    ensures CurrentSection(sections, TargetPosition(sections[k].top, navbarHeight)) == sections[k].id
  {
    CurrentSectionIsLastCovering(sections, TargetPosition(sections[k].top, navbarHeight), k);
  }

  /** A navbar taller than 80 pixels leaves the look-ahead point above the clicked section. */
  lemma TallNavbarMissesSection(s: Section, navbarHeight: int)
    requires navbarHeight > Lookahead - ScrollMargin
    ensures !Covers(s, TargetPosition(s.top, navbarHeight) + Lookahead)
  {
  }

  class Page {
    /** The `section[id]` elements, in document order. */
    const sections: seq<Section>
    const nav: NavBar
    /** window.scrollY, in whole pixels. */
    var scrollY: int
    /** The throttle flag of initNavbarHighlight. */
    var ticking: bool
    /** Highlight callbacks handed to requestAnimationFrame and not yet run. */
    var pendingFrames: nat
    var backToTop: Display

    /** The throttle keeps at most one frame pending, and `ticking` says whether one is. */
    ghost predicate Valid()
      reads this, nav
    {
      nav.Valid() && pendingFrames <= 1 && (ticking <==> pendingFrames == 1)
    }

    /** Page load: initNavbarHighlight installs its listener and highlights once. */
    constructor (sections: seq<Section>, hrefs: seq<string>, flags: seq<bool>, scrollY: int)
      requires |flags| == |hrefs|
      ensures Valid() && fresh(nav) && fresh(nav.active)
      ensures this.sections == sections && nav.hrefs == hrefs && this.scrollY == scrollY
      ensures !ticking && pendingFrames == 0 && backToTop == Unset
      ensures forall k :: 0 <= k < |hrefs| ==>
        nav.active[k] == HighlightFlag(hrefs[k], flags[k], CurrentSection(sections, scrollY))
    {
      this.sections := sections;
      this.scrollY := scrollY;
      ticking := false;
      pendingFrames := 0;
      backToTop := Unset;
      nav := new NavBar(hrefs, flags);
      new;
      var current := ScanCurrentSection(sections, scrollY);
      nav.Highlight(current);
    }

    /**
     * The page has scrolled to `y` and the scroll event fires: the back-to-top
     * listener sets the control's display, and the highlight listener requests
     * a frame only when none is pending.
     */
    method OnScroll(y: int)
      requires Valid()
      modifies this
      ensures Valid() && ticking && pendingFrames == 1
      ensures scrollY == y && backToTop == DisplayFor(y)
      ensures pendingFrames == if old(ticking) then old(pendingFrames) else old(pendingFrames) + 1
    {
      scrollY := y;
      backToTop := if scrollY > ShowThreshold then Block else Hidden;
      if !ticking {
        pendingFrames := pendingFrames + 1;
        ticking := true;
      }
    }

    /** The browser runs the pending frame callback: highlight, then clear `ticking`. */
    method RunFrame()
      requires Valid() && pendingFrames > 0
      modifies this, nav.active
      ensures Valid() && !ticking && pendingFrames == 0
      ensures scrollY == old(scrollY) && backToTop == old(backToTop)
      ensures forall k :: 0 <= k < |nav.hrefs| ==>
        nav.active[k] == HighlightFlag(nav.hrefs[k], old(nav.active[k]), CurrentSection(sections, scrollY))
    {
      pendingFrames := pendingFrames - 1;
      var current := ScanCurrentSection(sections, scrollY);
      nav.Highlight(current);
      ticking := false;
    }

    /**
     * A click on nav link `i`. `target` is the offsetTop of the element
     * `document.querySelector(href)` finds (None when it finds none),
     * `navbarHeight` the `.navbar`'s offsetHeight and `menuOpen` whether the
     * `.navbar-collapse` carries 'show'.
     */
    method ClickNavLink(i: int, target: Option<int>, navbarHeight: int, menuOpen: bool)
      returns (effect: NavClickEffect)
      requires Valid() && 0 <= i < |nav.hrefs| && IsHashLink(nav.hrefs[i])
      modifies nav.active
      ensures effect.defaultPrevented
      ensures target.None? ==> effect.scrollTo.None? && !effect.toggleMenu
      ensures target.None? ==> nav.active[..] == old(nav.active[..])
      ensures target.Some? ==> effect.scrollTo == Some(TargetPosition(target.value, navbarHeight))
      ensures target.Some? ==> effect.toggleMenu == menuOpen
      ensures target.Some? ==> forall k :: 0 <= k < |nav.hrefs| ==> nav.active[k] == (nav.hrefs[k] == nav.hrefs[i])
    {
      var targetId := nav.hrefs[i];
      effect := NavClickEffect(true, None, false);
      if target.Some? {
        var targetPosition := target.value - navbarHeight - ScrollMargin;
        nav.UpdateActiveNavLink(targetId);
        effect := NavClickEffect(true, Some(targetPosition), menuOpen);
      }
    }
  }
}
