/**
 * The navigation bar's links (`.navbar-nav .nav-link`) and their 'active'
 * class, rewritten in place by highlightNavigation and updateActiveNavLink.
 */
module NavLinks {

  /** The links highlightNavigation and the smooth-scroll handler work on: `href^="#"`. */
  predicate IsHashLink(href: string) {
    |href| > 0 && href[0] == '#'
  }

  /**
   * The flag highlightNavigation leaves on a link whose flag was `was`, when
   * the current section is `current`: a '#' link is active iff its href is
   * '#' + current; any other link is not touched.
   */
  predicate HighlightFlag(href: string, was: bool, current: string)
    ensures !IsHashLink(href) ==> (HighlightFlag(href, was, current) == was)
    ensures IsHashLink(href) ==> (HighlightFlag(href, was, current) <==> href[1..] == current)
  {
    assert IsHashLink(href) && href[1..] == current ==> href == "#" + current;
    if IsHashLink(href) then href == "#" + current else was
  }

  /** No two links share an href. */
  ghost predicate DistinctHrefs(hrefs: seq<string>) {
    forall j, k :: 0 <= j < k < |hrefs| ==> hrefs[j] != hrefs[k]
  }

  /** With no current section, the only '#' links left active are those whose href is exactly "#". */
  lemma NoCurrentActivatesBareHash(href: string, was: bool)
    requires IsHashLink(href)
    ensures HighlightFlag(href, was, "") <==> href == "#"
  {
  }

  class NavBar {
    /** The href attribute of each `.navbar-nav .nav-link`, in document order. */
    const hrefs: seq<string>
    /** Whether each link carries the 'active' class. */
    const active: array<bool>

    ghost predicate Valid()
      reads this
    {
      active.Length == |hrefs|
    }

    /** At most one link carries the 'active' class. */
    ghost predicate AtMostOneActive()
      reads this, active
      requires Valid()
    {
      forall j, k :: 0 <= j < k < |hrefs| ==> !(active[j] && active[k])
    }

    constructor (hrefs: seq<string>, flags: seq<bool>)
      requires |flags| == |hrefs|
      ensures Valid() && fresh(active)
      ensures this.hrefs == hrefs && active[..] == flags
    {
      this.hrefs := hrefs;
      active := new bool[|hrefs|](k requires 0 <= k < |hrefs| => flags[k]);
    }

    /** The link-rewriting half of highlightNavigation, for the chosen section id `current`. */
    method Highlight(current: string)
      requires Valid()
      modifies active
      ensures forall k :: 0 <= k < |hrefs| ==> active[k] == HighlightFlag(hrefs[k], old(active[k]), current)
      ensures DistinctHrefs(hrefs) && (forall k :: 0 <= k < |hrefs| && !IsHashLink(hrefs[k]) ==> !old(active[k]))
        ==> AtMostOneActive()
    {
      for k := 0 to active.Length
        invariant forall j :: 0 <= j < k ==> active[j] == HighlightFlag(hrefs[j], old(active[j]), current)
        invariant forall j :: k <= j < active.Length ==> active[j] == old(active[j])
      {
        if IsHashLink(hrefs[k]) {
          active[k] := false;
          if hrefs[k] == "#" + current {
            active[k] := true;
          }
        }
      }
    }

    /** updateActiveNavLink: every link, '#' or not, is active iff its href is `targetId`. */
    method UpdateActiveNavLink(targetId: string)
      requires Valid()
      modifies active
      ensures forall k :: 0 <= k < |hrefs| ==> active[k] == (hrefs[k] == targetId)
      ensures DistinctHrefs(hrefs) ==> AtMostOneActive()
      ensures (exists k :: 0 <= k < |hrefs| && hrefs[k] == targetId) ==> exists k :: 0 <= k < |hrefs| && active[k]
    {
      for k := 0 to active.Length
        invariant forall j :: 0 <= j < k ==> active[j] == (hrefs[j] == targetId)
      {
        active[k] := false;
        if hrefs[k] == targetId {
          active[k] := true;
        }
      }
    }
  }
}
