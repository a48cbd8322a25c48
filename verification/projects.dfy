/**
  The project strip: category filtering of the cards and the enablement of
  the strip's previous/next scroll buttons.
 */
module Projects {
  import opened Text
  import Seqs

  /** A project card's `data-*` attributes; any of them may be missing. */
  datatype Card = Card(
    category: MaybeString,
    title: MaybeString,
    githubLink: MaybeString,
    liveLink: MaybeString,
    images: MaybeString,
    about: MaybeString,
    features: MaybeString,
    tech: MaybeString,
    challenges: MaybeString)

  /** The filter value that shows every card. */
  const AllFilter: string := "all"

  /**
    `filter === 'all' || filter === card.dataset.category`. The filter is a
    button's `data-filter`, which is `undefined` (`Absent`) on a button that
    lacks it; `undefined === undefined`, so such a filter shows exactly the
    cards without a category.
   */
  predicate Passes(filter: MaybeString, card: Card) {
    filter == Present(AllFilter) || card.category == filter
  }

  /** `Passes` for a fixed filter, as the test handed to `Seqs.Keep`. */
  function Test(filter: MaybeString): Card -> bool {
    c => Passes(filter, c)
  }

  /** The `display` each card receives: `true` for `flex`, `false` for `none`. */
  function DisplayFlags(cards: seq<Card>, filter: MaybeString): (shown: seq<bool>)
    ensures |shown| == |cards|
    ensures forall i :: 0 <= i < |cards| ==> filter.Present? ==>
      (shown[i] <==> filter.value == AllFilter || cards[i].category == filter)
    ensures forall i :: 0 <= i < |cards| ==> filter == Absent ==>
      (shown[i] <==> cards[i].category == Absent)
  {
    seq(|cards|, i requires 0 <= i < |cards| => Passes(filter, cards[i]))
  }

  /**
    `visibleCards`: the cards whose display was just set to `flex`, in page
    order. Re-reading the display the loop has just written is the same as
    re-evaluating `Passes`.
   */
  function VisibleCards(cards: seq<Card>, filter: MaybeString): (r: seq<Card>)
    ensures |r| <= |cards|
    ensures forall k :: 0 <= k < |r| ==> filter == Present(AllFilter) || r[k].category == filter
  {
    Seqs.Keep(cards, Test(filter))
  }

  /**
    A card is visible exactly when its display flag is set, and the visible
    cards keep the page order: `KeptIndices` enumerates, increasingly, exactly
    the positions whose flag is set.
   */
  lemma {:induction false} VisibleMatchesFlags(cards: seq<Card>, filter: MaybeString)
    ensures var shown, visible, idx :=
      DisplayFlags(cards, filter), VisibleCards(cards, filter), Seqs.KeptIndices(cards, Test(filter), 0);
      && |idx| == |visible|
      && (forall k :: 0 <= k < |idx| ==> idx[k] < |cards| && visible[k] == cards[idx[k]])
      && (forall j, k :: 0 <= j < k < |idx| ==> idx[j] < idx[k])
      && (forall i :: 0 <= i < |cards| ==> (shown[i] <==> i in idx))
  {
    Seqs.KeepIsSubsequence(cards, Test(filter));
  }

  /** Under `"all"` every card is visible, in page order. */
  lemma {:induction false} FilterAllShowsEverything(cards: seq<Card>)
    ensures VisibleCards(cards, Present(AllFilter)) == cards
  {
    Seqs.KeepAll(cards, Test(Present(AllFilter)));
  }

  /** A tag no card carries leaves the strip empty; it is not an error. */
  lemma {:induction false} UnknownFilterShowsNothing(cards: seq<Card>, filter: MaybeString)
    requires filter != Present(AllFilter)
    requires forall i :: 0 <= i < |cards| ==> cards[i].category != filter
    ensures VisibleCards(cards, filter) == []
  {
    Seqs.KeepNone(cards, Test(filter));
  }

  /**
    A filter button without `data-filter` passes `undefined`: exactly the
    cards without a category are shown, in page order, and every card that
    has a category is hidden.
   */
  lemma {:induction false} MissingFilterShowsUncategorised(cards: seq<Card>)
    ensures forall k :: 0 <= k < |VisibleCards(cards, Absent)| ==> VisibleCards(cards, Absent)[k].category == Absent
    ensures forall i :: 0 <= i < |cards| && cards[i].category == Absent ==> cards[i] in VisibleCards(cards, Absent)
    ensures (forall i :: 0 <= i < |cards| ==> cards[i].category.Present?) ==> VisibleCards(cards, Absent) == []
  {
    forall i | 0 <= i < |cards| && cards[i].category == Absent
      ensures cards[i] in VisibleCards(cards, Absent)
    {
      var k := Seqs.KeptRank(cards, Test(Absent), 0, i);
    }
    if forall i :: 0 <= i < |cards| ==> cards[i].category.Present? {
      Seqs.KeepNone(cards, Test(Absent));
    }
  }

  /** `Math.ceil`. */
  function Ceil(x: real): (r: int)
    ensures r as real - 1.0 < x <= r as real
  {
    -((-x).Floor)
  }

  /** The strip's `disabled` flags for its previous and next buttons. */
  datatype Buttons = Buttons(prevDisabled: bool, nextDisabled: bool)

  /**
    `updateButtonStates`: previous is disabled while `scrollLeft < 1`; next
    while `Math.ceil(scrollLeft + clientWidth) >= scrollWidth`. The browser
    reports `scrollLeft` as a possibly fractional number and both widths as
    integers, so the rounding makes next disable once the viewport's right
    edge is less than one pixel short of the end of the strip.
   */
  function UpdateButtonStates(scrollLeft: real, clientWidth: int, scrollWidth: int): (r: Buttons)
    ensures r.prevDisabled <==> scrollLeft < 1.0
    ensures r.nextDisabled <==> scrollLeft + clientWidth as real > (scrollWidth - 1) as real
  {
    Buttons(scrollLeft < 1.0, Ceil(scrollLeft + clientWidth as real) >= scrollWidth)
  }

  /** The strip after a filter change. */
  datatype Strip = Strip(
    filter: MaybeString,
    shown: seq<bool>,
    visible: seq<Card>,
    scrollLeft: real,
    buttons: Buttons)

  /**
    `filterProjects`: sets each card's display, recomputes the visible cards,
    scrolls the strip back to its start and recomputes the buttons. The
    strip's `clientWidth` and `scrollWidth` after the re-layout come from the
    browser and are parameters.
   */
  function FilterProjects(cards: seq<Card>, filter: MaybeString, clientWidth: int, scrollWidth: int): (r: Strip)
    ensures r.filter == filter
    ensures r.shown == DisplayFlags(cards, filter) && r.visible == VisibleCards(cards, filter)
    ensures r.scrollLeft == 0.0
    ensures r.buttons.prevDisabled
    ensures r.buttons.nextDisabled <==> clientWidth >= scrollWidth
  {
    Strip(filter, DisplayFlags(cards, filter), VisibleCards(cards, filter), 0.0,
      UpdateButtonStates(0.0, clientWidth, scrollWidth))
  }

  /** Two cards tagged `"web"` and `"design"`: each filter shows what it should. */
  lemma {:induction false} FilterScenario(a: Card, b: Card)
    requires a.category == Present("web") && b.category == Present("design")
    ensures VisibleCards([a, b], Present("web")) == [a]
    ensures VisibleCards([a, b], Present(AllFilter)) == [a, b]
  {
    assert "design"[0] != "web"[0];
    assert [a, b][1..] == [b] && [b][1..] == [];
    assert Seqs.Keep([b], Test(Present("web"))) == [];
    FilterAllShowsEverything([a, b]);
  }
}
