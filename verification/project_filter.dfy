/**
  The second script's project filter. A click on a filter button makes it the
  only active button and shows exactly the cards its `data-filter` selects.
  Attributes are `Option`s because `getAttribute` returns `null` for a missing
  one, and `null === null` holds in the comparison.
 */
module ProjectFilter {
  import opened Wrappers

  const ShowAll := "all"

  datatype FilterButton = FilterButton(filter: Option<string>, active: bool)

  /** A project card: its `data-category` and whether it is displayed. */
  datatype Card = Card(category: Option<string>, shown: bool)

  /** `filterValue === 'all' || category === filterValue`. */
  predicate Selects(filter: Option<string>, category: Option<string>) {
    filter == Some(ShowAll) || category == filter
  }

  datatype FilterView = FilterView(buttons: seq<FilterButton>, cards: seq<Card>)

  /** The click handler of button `clicked`, in its settled state (the delayed
      opacity, transform and `display: none` updates have run). */
  function ClickFilter(view: FilterView, clicked: nat): (r: FilterView)
    requires clicked < |view.buttons|
    ensures |r.buttons| == |view.buttons| && |r.cards| == |view.cards|
    ensures forall i :: 0 <= i < |r.buttons| ==>
      r.buttons[i].filter == view.buttons[i].filter && (r.buttons[i].active <==> i == clicked)
    ensures forall i :: 0 <= i < |r.cards| ==>
      r.cards[i].category == view.cards[i].category
      && (r.cards[i].shown <==> Selects(view.buttons[clicked].filter, view.cards[i].category))
  {
    var buttons := view.buttons;
    var filter := buttons[clicked].filter;
    FilterView(
      seq(|buttons|, i requires 0 <= i < |buttons| => buttons[i].(active := i == clicked)),
      seq(|view.cards|, i requires 0 <= i < |view.cards| =>
        view.cards[i].(shown := Selects(filter, view.cards[i].category))))
  }

  /** Exactly one button is active after a click. */
  lemma OneActiveButton(view: FilterView, clicked: nat)
    requires clicked < |view.buttons|
    ensures var r := ClickFilter(view, clicked);
      r.buttons[clicked].active
      && forall i, j ::
           (0 <= i < |r.buttons| && 0 <= j < |r.buttons| && r.buttons[i].active && r.buttons[j].active)
           ==> i == j
  {
  }

  /** The "all" button shows every card. */
  lemma AllShowsEveryCard(view: FilterView, clicked: nat)
    requires clicked < |view.buttons| && view.buttons[clicked].filter == Some(ShowAll)
    ensures forall i :: 0 <= i < |view.cards| ==> ClickFilter(view, clicked).cards[i].shown
  {
  }

  /** A second click on the same button changes nothing. */
  lemma ClickIdempotent(view: FilterView, clicked: nat)
    requires clicked < |view.buttons|
    ensures ClickFilter(ClickFilter(view, clicked), clicked) == ClickFilter(view, clicked)
  {
  }

  /** The result depends on the clicked button's filter alone, not on which
      cards were shown or which button was active before. */
  lemma ClickForgetsPreviousFilter(view: FilterView, first: nat, second: nat)
    requires first < |view.buttons| && second < |view.buttons|
    ensures ClickFilter(ClickFilter(view, first), second) == ClickFilter(view, second)
  {
  }

  /** A button and a card that both lack their attribute match each other. */
  lemma MissingAttributesMatch(view: FilterView, clicked: nat, i: nat)
    requires clicked < |view.buttons| && i < |view.cards|
    requires view.buttons[clicked].filter.None? && view.cards[i].category.None?
    ensures ClickFilter(view, clicked).cards[i].shown
  {
  }
}
