/**
  The page geometry both active-link updates read, and the reference answer
  they share: which section's handler runs last among those that match.
 */
module Nav {
  import opened Wrappers

  /** A page section: its `id`, its `offsetTop` and its `offsetHeight`, in whole
      pixels. */
  datatype Section = Section(id: string, offsetTop: int, offsetHeight: int)

  /** A navigation link: its `href` attribute and whether it carries the
      active class. */
  datatype NavLink = NavLink(href: string, active: bool)

  /** The `href` that points at a section. */
  function Anchor(id: string): string {
    "#" + id
  }

  /** The update changes only the active flags: same links, same hrefs. */
  predicate SameHrefs(a: seq<NavLink>, b: seq<NavLink>) {
    |a| == |b| && forall i :: 0 <= i < |a| ==> a[i].href == b[i].href
  }

  /** Index of the last section of which `inBand` holds, or `None`. */
  function LastMatch(sections: seq<Section>, inBand: Section -> bool): (r: Option<nat>)
    ensures r.None? <==> forall i :: 0 <= i < |sections| ==> !inBand(sections[i])
    ensures r.Some? ==>
      && r.value < |sections|
      && inBand(sections[r.value])
      && forall j :: r.value < j < |sections| ==> !inBand(sections[j])
  {
    if |sections| == 0 then None
    else if inBand(sections[|sections| - 1]) then Some(|sections| - 1)
    else LastMatch(sections[..|sections| - 1], inBand)
  }

  /** Looking at one more section: it becomes the last match if it matches. */
  lemma LastMatchStep(sections: seq<Section>, inBand: Section -> bool, i: nat)
    requires i < |sections|
    ensures LastMatch(sections[..i + 1], inBand) ==
      if inBand(sections[i]) then Some(i) else LastMatch(sections[..i], inBand)
  {
    assert sections[..i + 1][..i] == sections[..i];
  }

  /** No two links are active. */
  predicate AtMostOneActive(links: seq<NavLink>) {
    forall i, j :: 0 <= i < |links| && 0 <= j < |links| && links[i].active && links[j].active ==> i == j
  }

  /** No two links share an `href`. */
  predicate DistinctHrefs(links: seq<NavLink>) {
    forall i, j :: 0 <= i < |links| && 0 <= j < |links| && links[i].href == links[j].href ==> i == j
  }
}

/**
  `updateActiveNavLink` of the portfolio script: a section matches when
  `top <= scrollY < top + offsetHeight` with `top = offsetTop - navHeight - 100`,
  and each match marks every link whose `href` is the section's anchor.
 */
module PortfolioNav {
  import opened Wrappers
  import opened Nav

  const LeadIn := 100

  /** The half-open band `[top, top + offsetHeight)`. */
  predicate InBand(s: Section, navHeight: int, scrollY: int) {
    var top := s.offsetTop - navHeight - LeadIn;
    top <= scrollY < top + s.offsetHeight
  }

  function Band(navHeight: int, scrollY: int): Section -> bool {
    s => InBand(s, navHeight, scrollY)
  }

  /** The inner `forEach` for one matching section: every link loses the class
      and gains it again exactly when its `href` is `target`. */
  function MarkLinks(links: seq<NavLink>, target: string): (r: seq<NavLink>)
    ensures SameHrefs(r, links)
    ensures forall i :: 0 <= i < |r| ==> (r[i].active <==> links[i].href == target)
  {
    seq(|links|, i requires 0 <= i < |links| => NavLink(links[i].href, links[i].href == target))
  }

  /** Marking depends only on the hrefs, so a later match overrides an earlier one. */
  lemma MarkLinksOverrides(links: seq<NavLink>, t1: string, t2: string)
    ensures MarkLinks(MarkLinks(links, t1), t2) == MarkLinks(links, t2)
  {
  }

  /** The state after the first `i` sections have been looked at. */
  function AfterPrefix(sections: seq<Section>, links: seq<NavLink>, navHeight: int, scrollY: int, i: nat): seq<NavLink>
    requires i <= |sections|
  {
    match LastMatch(sections[..i], Band(navHeight, scrollY))
    case None => links
    case Some(k) => MarkLinks(links, Anchor(sections[k].id))
  }

  /** `updateActiveNavLink`. Without a matching section nothing changes; with
      one, the active links are exactly those pointing at the last matching
      section in document order. */
  method UpdateActiveNavLink(sections: seq<Section>, links: seq<NavLink>, navHeight: int, scrollY: int)
    returns (r: seq<NavLink>)
    ensures SameHrefs(r, links)
    ensures (forall i :: 0 <= i < |sections| ==> !InBand(sections[i], navHeight, scrollY)) ==> r == links
    ensures forall k ::
      (0 <= k < |sections| && InBand(sections[k], navHeight, scrollY)
       && forall j :: k < j < |sections| ==> !InBand(sections[j], navHeight, scrollY)) ==>
      forall l :: 0 <= l < |r| ==> (r[l].active <==> r[l].href == Anchor(sections[k].id))
  {
    r := links;
    var i := 0;
    while i < |sections|
      invariant 0 <= i <= |sections|
      invariant r == AfterPrefix(sections, links, navHeight, scrollY, i)
    {
      LastMatchStep(sections, Band(navHeight, scrollY), i);
      assert Band(navHeight, scrollY)(sections[i]) == InBand(sections[i], navHeight, scrollY);
      if InBand(sections[i], navHeight, scrollY) {
        match LastMatch(sections[..i], Band(navHeight, scrollY)) {
          case None =>
          case Some(k) => MarkLinksOverrides(links, Anchor(sections[k].id), Anchor(sections[i].id));
        }
        r := MarkLinks(r, Anchor(sections[i].id));
      }
      i := i + 1;
    }
    assert sections[..i] == sections;
    var m := LastMatch(sections, Band(navHeight, scrollY));
    forall k | 0 <= k < |sections| && InBand(sections[k], navHeight, scrollY)
      && (forall j :: k < j < |sections| ==> !InBand(sections[j], navHeight, scrollY))
      ensures m == Some(k)
    {
      assert Band(navHeight, scrollY)(sections[k]);
    }
  }

  /** With distinct hrefs, at most one link ends up active after a match. */
  lemma MarkLinksExclusive(links: seq<NavLink>, target: string)
    requires DistinctHrefs(links)
    ensures AtMostOneActive(MarkLinks(links, target))
  {
  }
}

/**
  `highlightNavLink` of the second script: a section matches when
  `top < scrollY <= top + offsetHeight` with `top = offsetTop - 100`, and each
  match clears every link and activates only the first link whose `href` is
  the section's anchor, if there is one.
 */
module PromptNav {
  import opened Wrappers
  import opened Nav
  import PortfolioNav

  const LeadIn := 100

  /** The band `(top, top + offsetHeight]`: open below, closed above. */
  predicate InBand(s: Section, scrollY: int) {
    var top := s.offsetTop - LeadIn;
    top < scrollY <= top + s.offsetHeight
  }

  function Band(scrollY: int): Section -> bool {
    s => InBand(s, scrollY)
  }

  /** `document.querySelector('.nav-link[href="#id"]')`: the first link in
      document order with that `href`, or `|links|` when there is none. */
  function FirstWithHref(links: seq<NavLink>, href: string): (k: nat)
    ensures k <= |links|
    ensures k < |links| ==> links[k].href == href
    ensures forall j :: 0 <= j < k ==> links[j].href != href
  {
    if links == [] then 0
    else if links[0].href == href then 0
    else 1 + FirstWithHref(links[1..], href)
  }

  /** The body run for one matching section: all links lose the class, then
      the first link with `href == target`, if any, gains it. */
  function ActivateOnly(links: seq<NavLink>, target: string): (r: seq<NavLink>)
    ensures SameHrefs(r, links)
    ensures forall i :: 0 <= i < |r| ==> (r[i].active <==> i == FirstWithHref(links, target))
    ensures AtMostOneActive(r)
    ensures (forall i :: 0 <= i < |links| ==> links[i].href != target) ==>
      forall i :: 0 <= i < |r| ==> !r[i].active
  {
    var k := FirstWithHref(links, target);
    seq(|links|, i requires 0 <= i < |links| => NavLink(links[i].href, i == k))
  }

  /** A later match overrides an earlier one. */
  lemma ActivateOnlyOverrides(links: seq<NavLink>, t1: string, t2: string)
    ensures ActivateOnly(ActivateOnly(links, t1), t2) == ActivateOnly(links, t2)
  {
    var a := ActivateOnly(links, t1);
    assert FirstWithHref(a, t2) == FirstWithHref(links, t2) by {
      FirstWithHrefSameHrefs(a, links, t2);
    }
  }

  lemma {:induction false} FirstWithHrefSameHrefs(a: seq<NavLink>, b: seq<NavLink>, href: string)
    requires SameHrefs(a, b)
    ensures FirstWithHref(a, href) == FirstWithHref(b, href)
  {
    if a != [] && a[0].href != href {
      FirstWithHrefSameHrefs(a[1..], b[1..], href);
    }
  }

  /** The state after the first `i` sections have been looked at. */
  function AfterPrefix(sections: seq<Section>, links: seq<NavLink>, scrollY: int, i: nat): seq<NavLink>
    requires i <= |sections|
  {
    match LastMatch(sections[..i], Band(scrollY))
    case None => links
    case Some(k) => ActivateOnly(links, Anchor(sections[k].id))
  }

  /** `highlightNavLink`. Without a matching section nothing changes; with one,
      only the first link pointing at the last matching section is active, and
      none is when no link points at it. */
  method HighlightNavLink(sections: seq<Section>, links: seq<NavLink>, scrollY: int)
    returns (r: seq<NavLink>)
    ensures SameHrefs(r, links)
    ensures (forall i :: 0 <= i < |sections| ==> !InBand(sections[i], scrollY)) ==> r == links
    ensures (exists i :: 0 <= i < |sections| && InBand(sections[i], scrollY)) ==> AtMostOneActive(r)
    ensures forall k ::
      (0 <= k < |sections| && InBand(sections[k], scrollY)
       && forall j :: k < j < |sections| ==> !InBand(sections[j], scrollY)) ==>
      forall l :: 0 <= l < |r| ==> (r[l].active <==> l == FirstWithHref(links, Anchor(sections[k].id)))
  {
    r := links;
    var i := 0;
    while i < |sections|
      invariant 0 <= i <= |sections|
      invariant r == AfterPrefix(sections, links, scrollY, i)
    {
      HighlightStep(sections, links, scrollY, i);
      if InBand(sections[i], scrollY) {
        r := ActivateOnly(r, Anchor(sections[i].id));
      }
      i := i + 1;
    }
    HighlightResult(sections, links, scrollY);
  }

  /** Looking at one more section: a match overrides whatever came before it. */
  lemma HighlightStep(sections: seq<Section>, links: seq<NavLink>, scrollY: int, i: nat)
    requires i < |sections|
    ensures AfterPrefix(sections, links, scrollY, i + 1) ==
      if InBand(sections[i], scrollY)
      then ActivateOnly(AfterPrefix(sections, links, scrollY, i), Anchor(sections[i].id))
      else AfterPrefix(sections, links, scrollY, i)
  {
    LastMatchStep(sections, Band(scrollY), i);
    assert Band(scrollY)(sections[i]) == InBand(sections[i], scrollY);
    if InBand(sections[i], scrollY) {
      match LastMatch(sections[..i], Band(scrollY)) {
        case None =>
        case Some(k) => ActivateOnlyOverrides(links, Anchor(sections[k].id), Anchor(sections[i].id));
      }
    }
  }

  /** What the whole pass leaves, in terms of the sections themselves. */
  lemma HighlightResult(sections: seq<Section>, links: seq<NavLink>, scrollY: int)
    ensures var r := AfterPrefix(sections, links, scrollY, |sections|);
      && SameHrefs(r, links)
      && ((forall i :: 0 <= i < |sections| ==> !InBand(sections[i], scrollY)) ==> r == links)
      && ((exists i :: 0 <= i < |sections| && InBand(sections[i], scrollY)) ==> AtMostOneActive(r))
      && forall k ::
        (0 <= k < |sections| && InBand(sections[k], scrollY)
         && forall j :: k < j < |sections| ==> !InBand(sections[j], scrollY)) ==>
        forall l :: 0 <= l < |r| ==> (r[l].active <==> l == FirstWithHref(links, Anchor(sections[k].id)))
  {
    assert sections[..|sections|] == sections;
    var m := LastMatch(sections, Band(scrollY));
    forall k | 0 <= k < |sections| && InBand(sections[k], scrollY)
      && (forall j :: k < j < |sections| ==> !InBand(sections[j], scrollY))
      ensures m == Some(k)
    {
      assert Band(scrollY)(sections[k]);
    }
    if exists i :: 0 <= i < |sections| && InBand(sections[i], scrollY) {
      var i :| 0 <= i < |sections| && InBand(sections[i], scrollY);
      assert Band(scrollY)(sections[i]);
    }
  }

  /** For whole-pixel scroll positions, the two scripts' bands are the same up
      to a shift of the scroll position by the navigation bar's height plus one
      pixel: the portfolio's band is closed at its top, this one at its bottom.
      A fractional `scrollY` falls outside this relation. */
  lemma BandsDifferByOne(s: Section, navHeight: int, scrollY: int)
    ensures PortfolioNav.InBand(s, navHeight, scrollY) <==> InBand(s, scrollY + navHeight + 1)
  {
  }

  /** At the exact top of a section's band (no navigation bar), the portfolio
      script matches and this one does not; at the exact bottom it is the other
      way round. */
  lemma BoundaryConventions(s: Section)
    requires s.offsetHeight > 0
    ensures PortfolioNav.InBand(s, 0, s.offsetTop - 100)
    ensures !InBand(s, s.offsetTop - 100)
    ensures !PortfolioNav.InBand(s, 0, s.offsetTop - 100 + s.offsetHeight)
    ensures InBand(s, s.offsetTop - 100 + s.offsetHeight)
  {
  }

  /** When no two links share an `href`, marking every matching link and
      activating only the first one give the same links. */
  lemma DistinctHrefsAgree(links: seq<NavLink>, target: string)
    requires DistinctHrefs(links)
    ensures PortfolioNav.MarkLinks(links, target) == ActivateOnly(links, target)
  {
    var a := PortfolioNav.MarkLinks(links, target);
    var b := ActivateOnly(links, target);
    var k := FirstWithHref(links, target);
    forall i | 0 <= i < |links| ensures a[i] == b[i] {
      if links[i].href == target {
        assert i == k;
      }
    }
  }
}
