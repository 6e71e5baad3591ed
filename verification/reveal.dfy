/**
  Scroll-triggered reveal. Watched elements are numbered in document order and
  the state is the set of numbers that carry the reveal class (`active` in the
  second script, `fade-in--visible` in the portfolio). Both the scroll handler
  and the intersection-observer callbacks only ever add to that set. Watched
  elements are taken to be none of the elements whose `active` class other
  handlers of the second script remove.
 */
module Reveal {
  import opened Wrappers

  const RevealPoint := 150
  const SkillBarPoint := 100

  /** `revealOnScroll`: element `i`, whose bounding-box top is `tops[i]`, gains
      the class when its top is above `innerHeight - 150`; none loses it. */
  function RevealOnScroll(revealed: set<nat>, tops: seq<int>, innerHeight: int): (r: set<nat>)
    ensures revealed <= r
    ensures forall i :: 0 <= i < |tops| ==> (i in r <==> i in revealed || tops[i] < innerHeight - RevealPoint)
    ensures forall i :: i in r && i !in revealed ==> i < |tops|
  {
    revealed + set i: nat | i < |tops| && tops[i] < innerHeight - RevealPoint
  }

  /** One intersection-observer entry: the watched element and whether it now
      intersects the viewport (the browser computes that). */
  datatype Entry = Entry(target: nat, isIntersecting: bool)

  /** The observer callback: each intersecting entry's target gains the class. */
  function OnIntersect(revealed: set<nat>, entries: seq<Entry>): (r: set<nat>)
    ensures revealed <= r
    ensures forall t :: t in r <==>
      t in revealed || exists i :: 0 <= i < |entries| && entries[i].target == t && entries[i].isIntersecting
  {
    revealed + set i | 0 <= i < |entries| && entries[i].isIntersecting :: entries[i].target
  }

  /** A signal the reveal state reacts to. */
  datatype Event =
    | Scrolled(tops: seq<int>, innerHeight: int)
    | Intersected(entries: seq<Entry>)

  function Apply(revealed: set<nat>, e: Event): set<nat> {
    match e
    case Scrolled(tops, h) => RevealOnScroll(revealed, tops, h)
    case Intersected(entries) => OnIntersect(revealed, entries)
  }

  /** The state after a run of events, in order. */
  function Run(revealed: set<nat>, events: seq<Event>): set<nat>
    decreases |events|
  {
    if events == [] then revealed else Run(Apply(revealed, events[0]), events[1..])
  }

  /** Once revealed, always revealed: no run of events, in any interleaving of
      scrolls and observer callbacks, removes the class. */
  lemma {:induction false} RunMonotone(revealed: set<nat>, events: seq<Event>)
    ensures revealed <= Run(revealed, events)
    decreases |events|
  {
    if events != [] {
      RunMonotone(Apply(revealed, events[0]), events[1..]);
    }
  }

  /** Running two pieces one after the other is running their concatenation. */
  lemma {:induction false} RunAppend(revealed: set<nat>, a: seq<Event>, b: seq<Event>)
    ensures Run(revealed, a + b) == Run(Run(revealed, a), b)
    decreases |a|
  {
    if a == [] {
      assert a + b == b;
    } else {
      assert (a + b)[1..] == a[1..] + b;
      RunAppend(Apply(revealed, a[0]), a[1..], b);
    }
  }

  /** The revealed set only grows along a run: every earlier state is contained
      in every later one. */
  lemma RevealedGrowsAlongRun(revealed: set<nat>, events: seq<Event>, i: nat, j: nat)
    requires i <= j <= |events|
    ensures Run(revealed, events[..i]) <= Run(revealed, events[..j])
  {
    assert events[..j] == events[..i] + events[i..j];
    RunAppend(revealed, events[..i], events[i..j]);
    RunMonotone(Run(revealed, events[..i]), events[i..j]);
  }

  /** Repeating a scroll at the same geometry changes nothing. */
  lemma RevealIdempotent(revealed: set<nat>, tops: seq<int>, innerHeight: int)
    ensures RevealOnScroll(RevealOnScroll(revealed, tops, innerHeight), tops, innerHeight)
         == RevealOnScroll(revealed, tops, innerHeight)
  {
  }

  /** With no watched elements the handler does nothing. */
  lemma RevealNothingWatched(revealed: set<nat>, innerHeight: int)
    ensures RevealOnScroll(revealed, [], innerHeight) == revealed
  {
  }

  /** A skill bar: its `data-progress` attribute (`None` when absent), the top
      of its bounding box, and the string last assigned to its inline width
      (what the browser makes of an invalid value such as "null%" is not
      modelled). */
  datatype SkillBar = SkillBar(progress: Option<string>, top: int, width: string)

  /** `progress + '%'`, where a missing attribute is the string "null". */
  function WidthFor(progress: Option<string>): string {
    match progress
    case Some(p) => p + "%"
    case None => "null%"
  }

  /** `animateSkillBars`: a bar whose top is above `innerHeight - 100` is
      assigned the width `progress + '%'`; the others keep theirs. */
  function AnimateSkillBars(bars: seq<SkillBar>, innerHeight: int): (r: seq<SkillBar>)
    ensures |r| == |bars|
    ensures forall i :: 0 <= i < |bars| ==>
      && r[i].progress == bars[i].progress && r[i].top == bars[i].top
      && r[i].width == (if bars[i].top < innerHeight - SkillBarPoint then WidthFor(bars[i].progress) else bars[i].width)
  {
    seq(|bars|, i requires 0 <= i < |bars| =>
      if bars[i].top < innerHeight - SkillBarPoint then bars[i].(width := WidthFor(bars[i].progress)) else bars[i])
  }

  /** Animating twice at the same geometry is animating once. */
  lemma AnimateIdempotent(bars: seq<SkillBar>, innerHeight: int)
    ensures AnimateSkillBars(AnimateSkillBars(bars, innerHeight), innerHeight) == AnimateSkillBars(bars, innerHeight)
  {
  }

  /** The skill-bar trigger is the looser of the two: wherever a scroll newly
      reveals an element, a skill bar at the same height gets its width. */
  lemma RevealedHeightStartsBar(revealed: set<nat>, tops: seq<int>, innerHeight: int, i: nat, bar: SkillBar)
    requires i < |tops| && i !in revealed && i in RevealOnScroll(revealed, tops, innerHeight)
    requires bar.top == tops[i]
    ensures AnimateSkillBars([bar], innerHeight) == [bar.(width := WidthFor(bar.progress))]
  {
  }
}
