/**
  The portfolio's mobile menu: the `nav__menu--active` class on the menu and
  the inline `transform` of each hamburger bar.
 */
module Menu {

  const BarClosed := "none"

  /** The transform of bar `i` while the menu is open. */
  function OpenTransform(i: nat): string {
    if i == 0 then "rotate(45deg) translate(5px, 5px)"
    else if i == 1 then "opacity: 0"
    else "rotate(-45deg) translate(7px, -6px)"
  }

  /** The menu's active class and the transforms of the bars, in order. */
  datatype MenuState = MenuState(active: bool, bars: seq<string>)

  /** The bars show what the active class says. */
  predicate BarsMatch(m: MenuState) {
    forall i :: 0 <= i < |m.bars| ==> m.bars[i] == (if m.active then OpenTransform(i) else BarClosed)
  }

  /** `toggleMobileMenu`: flips the active class, then draws every bar for the
      new state. */
  function Toggle(m: MenuState): (r: MenuState)
    ensures r.active == !m.active
    ensures |r.bars| == |m.bars|
    ensures BarsMatch(r)
  {
    var active := !m.active;
    MenuState(active, seq(|m.bars|, i requires 0 <= i < |m.bars| => if active then OpenTransform(i) else BarClosed))
  }

  /** `closeMobileMenu`: removes the active class and resets every bar. */
  function Close(m: MenuState): (r: MenuState)
    ensures !r.active
    ensures |r.bars| == |m.bars|
    ensures forall i :: 0 <= i < |r.bars| ==> r.bars[i] == BarClosed
  {
    MenuState(false, seq(|m.bars|, _ => BarClosed))
  }

  /** The document-level click handler: a click outside both the toggle and the
      menu closes the menu; any other click leaves it alone. */
  function OnDocumentClick(m: MenuState, insideToggle: bool, insideMenu: bool): (r: MenuState)
    ensures !insideToggle && !insideMenu ==> !r.active && r == Close(m)
    ensures insideToggle || insideMenu ==> r == m
  {
    if !insideToggle && !insideMenu then Close(m) else m
  }

  /** Two toggles restore the active class, and restore the whole state when
      the bars already matched it. */
  lemma ToggleTwice(m: MenuState)
    ensures Toggle(Toggle(m)).active == m.active
    ensures BarsMatch(m) ==> Toggle(Toggle(m)) == m
  {
  }

  /** Closing twice is closing once. */
  lemma CloseIdempotent(m: MenuState)
    ensures Close(Close(m)) == Close(m)
  {
  }

  /** Toggling an open menu is the same as closing it. */
  lemma ToggleOpenIsClose(m: MenuState)
    requires m.active
    ensures Toggle(m) == Close(m)
  {
  }

  /** Every handler keeps the bars in step with the active class. */
  lemma HandlersKeepBarsMatching(m: MenuState, insideToggle: bool, insideMenu: bool)
    requires BarsMatch(m)
    ensures BarsMatch(Toggle(m)) && BarsMatch(Close(m)) && BarsMatch(OnDocumentClick(m, insideToggle, insideMenu))
  {
  }
}

/**
  The second script's hamburger: the `active` class on the hamburger icon and
  on the link list, toggled by the icon and cleared by a link click or Escape.
 */
module Hamburger {

  datatype HamburgerState = HamburgerState(iconActive: bool, linksActive: bool)

  /** Icon click: each class is toggled on its own element. */
  function Click(h: HamburgerState): (r: HamburgerState)
    ensures r.iconActive == !h.iconActive && r.linksActive == !h.linksActive
  {
    HamburgerState(!h.iconActive, !h.linksActive)
  }

  /** Nav-link click: both classes removed. */
  function Close(h: HamburgerState): (r: HamburgerState)
    ensures !r.iconActive && !r.linksActive
  {
    HamburgerState(false, false)
  }

  /** `keydown`: Escape closes the menu, every other key leaves it alone. */
  function OnKey(h: HamburgerState, key: string): (r: HamburgerState)
    ensures key == "Escape" ==> r == Close(h)
    ensures key != "Escape" ==> r == h
  {
    if key == "Escape" then Close(h) else h
  }

  predicate InStep(h: HamburgerState) {
    h.iconActive == h.linksActive
  }

  lemma ClickTwice(h: HamburgerState)
    ensures Click(Click(h)) == h
  {
  }

  lemma CloseIdempotent(h: HamburgerState)
    ensures Close(Close(h)) == Close(h)
  {
  }

  /** Icon and list stay in step under every handler. */
  lemma HandlersKeepInStep(h: HamburgerState, key: string)
    requires InStep(h)
    ensures InStep(Click(h)) && InStep(Close(h)) && InStep(OnKey(h, key))
  {
  }
}
