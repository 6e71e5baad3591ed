/**
  The scroll-position thresholds: the second script's `scrolled` class on the
  navigation bar and `visible` class on the back-to-top button, and the
  portfolio's two navigation-bar styles from `handleNavbarScroll`.
 */
module ScrollFlags {

  const ScrolledAfter := 50
  const BackToTopAfter := 500

  /** The two classes the second script's scroll handler adds or removes. */
  datatype Flags = Flags(scrolled: bool, backToTop: bool)

  /** The scroll handler: each class is added above its threshold and removed
      otherwise, so the old flags play no part. */
  function OnScroll(f: Flags, scrollY: int): (r: Flags)
    ensures r.scrolled <==> scrollY > ScrolledAfter
    ensures r.backToTop <==> scrollY > BackToTopAfter
    ensures r.backToTop ==> r.scrolled
  {
    Flags(scrollY > ScrolledAfter, scrollY > BackToTopAfter)
  }

  /** A run of scroll events, one scroll position each. */
  function Replay(f: Flags, positions: seq<int>): Flags
    decreases |positions|
  {
    if positions == [] then f else Replay(OnScroll(f, positions[0]), positions[1..])
  }

  /** After any non-empty run, the flags are those of the last position alone. */
  lemma {:induction false} ReplayKeepsOnlyLast(f: Flags, positions: seq<int>)
    requires positions != []
    ensures Replay(f, positions) == OnScroll(f, positions[|positions| - 1])
    decreases |positions|
  {
    if |positions| > 1 {
      ReplayKeepsOnlyLast(OnScroll(f, positions[0]), positions[1..]);
    }
  }

  /** Both flags are monotone in the scroll position. */
  lemma FlagsMonotone(f: Flags, y1: int, y2: int)
    requires y1 <= y2
    ensures OnScroll(f, y1).scrolled ==> OnScroll(f, y2).scrolled
    ensures OnScroll(f, y1).backToTop ==> OnScroll(f, y2).backToTop
  {
  }

  /** The two inline styles `handleNavbarScroll` chooses between. */
  datatype NavStyle = NavStyle(backgroundColor: string, boxShadow: string)

  const RaisedStyle := NavStyle("rgba(255, 255, 255, 0.98)", "0 2px 10px rgba(0, 0, 0, 0.1)")
  const RestingStyle := NavStyle("var(--color-white)", "0 1px 2px rgba(0, 0, 0, 0.05)")

  /** `handleNavbarScroll` of the portfolio script. */
  function NavbarStyle(scrollY: int): (r: NavStyle)
    ensures r == RaisedStyle || r == RestingStyle
    ensures r == RaisedStyle <==> scrollY > ScrolledAfter
  {
    if scrollY > ScrolledAfter then RaisedStyle else RestingStyle
  }

  /** The two scripts agree on when the navigation bar changes: the portfolio
      raises it exactly where the other script sets `scrolled`. */
  lemma NavbarThresholdsAgree(f: Flags, scrollY: int)
    ensures NavbarStyle(scrollY) == RaisedStyle <==> OnScroll(f, scrollY).scrolled
  {
    assert RaisedStyle != RestingStyle by {
      assert RaisedStyle.boxShadow[2] != RestingStyle.boxShadow[2];
    }
  }
}
