/** PdfPageScrollListener.kt: the page indicator of the page list. On every
    scroll it works out the direction, picks the page to report from the
    positions the layout manager gives, and reports it when it changed; when
    scrolling comes to rest it asks for the pages around the middle of the
    visible range to be prefetched. */
module PageScroll {
  import opened Wrappers
  import opened Jvm

  /** `RecyclerView.NO_POSITION`. */
  const NO_POSITION: Int32 := -1
  /** `RecyclerView.SCROLL_STATE_IDLE`. */
  const SCROLL_STATE_IDLE: Int32 := 0

  /** What `LinearLayoutManager` answers for the first/last (completely) visible item. */
  datatype Positions = Positions(firstVisible: Int32, firstComplete: Int32, lastVisible: Int32, lastComplete: Int32)

  /** The direction of a scroll by `dy` pixels: down, up, or, for a purely
      horizontal scroll, the direction of the previous one. */
  function Direction(dy: Int32, lastScrollDirection: int): (d: int)
    ensures dy != 0 ==> (d == 1 || d == -1) && d * dy > 0
    ensures dy == 0 ==> d == lastScrollDirection
  {
    if dy > 0 then 1 else if dy < 0 then -1 else lastScrollDirection
  }

  /** Repeating a scroll of the same `dy` keeps the direction. */
  lemma DirectionIdempotent(dy: Int32, lastScrollDirection: int)
    ensures Direction(dy, Direction(dy, lastScrollDirection)) == Direction(dy, lastScrollDirection)
  {
  }

  /** The positions considered for a direction, in order of preference. */
  function Candidates(direction: int, p: Positions): (c: seq<Int32>)
    ensures |c| >= 1
  {
    if direction == 1 then [p.lastComplete, p.lastVisible, p.firstVisible]
    else if direction == -1 then [p.firstComplete, p.firstVisible, p.lastVisible]
    else [p.firstVisible]
  }

  /** The first candidate that is a real position; NO_POSITION when none is. */
  function FirstPositioned(c: seq<Int32>): (r: Int32)
    ensures r == NO_POSITION <==> forall i :: 0 <= i < |c| ==> c[i] == NO_POSITION
    ensures r != NO_POSITION ==>
              exists i :: 0 <= i < |c| && c[i] == r && forall j :: 0 <= j < i ==> c[j] == NO_POSITION
  {
    if c == [] then NO_POSITION
    else if c[0] != NO_POSITION then c[0]
    else
      var r := FirstPositioned(c[1..]);
      assert forall i :: 1 <= i < |c| ==> c[i] == c[1..][i - 1];
      r
  }

  /** `x.takeIf { it != NO_POSITION } ?: y`. */
  function OrElse(x: Int32, y: Int32): Int32 {
    if x != NO_POSITION then x else y
  }

  lemma FirstPositionedOfThree(a: Int32, b: Int32, c: Int32)
    ensures FirstPositioned([a, b, c]) == OrElse(a, OrElse(b, c))
  {
    assert [c][1..] == [];
    assert FirstPositioned([c]) == c;
    assert [b, c][1..] == [c];
    assert FirstPositioned([b, c]) == OrElse(b, c);
    assert [a, b, c][1..] == [b, c];
  }

  /** The `when (direction)` that chooses `pageToShow`. */
  function PageToShow(direction: int, p: Positions): (page: Int32)
    ensures page == FirstPositioned(Candidates(direction, p))
  {
    FirstPositionedOfThree(p.lastComplete, p.lastVisible, p.firstVisible);
    FirstPositionedOfThree(p.firstComplete, p.firstVisible, p.lastVisible);
    if direction == 1 then OrElse(p.lastComplete, OrElse(p.lastVisible, p.firstVisible))
    else if direction == -1 then OrElse(p.firstComplete, OrElse(p.firstVisible, p.lastVisible))
    else p.firstVisible
  }

  /** The page is reported when it is a real position and not the one shown last. */
  predicate ShouldReport(page: Int32, lastDisplayedPage: Int32) {
    page != NO_POSITION && page != lastDisplayedPage
  }

  /** What a report shows: `updatePage(page)` and the label
      "page (page + 1) of totalPageCount". */
  datatype PageReport = PageReport(page: Int32, pageNumber: Int32, totalPageCount: Int32)

  /** Once a scroll has been handled, handling the very same scroll again
      reports nothing: the page it would pick is the page just recorded. */
  lemma RepeatedScrollReportsNothing(lastDisplayedPage: Int32, lastScrollDirection: int, p: Positions, dy: Int32)
    ensures var d := Direction(dy, lastScrollDirection);
            var page := PageToShow(d, p);
            var shown := if ShouldReport(page, lastDisplayedPage) then page else lastDisplayedPage;
            !ShouldReport(PageToShow(Direction(dy, d), p), shown)
  {
    DirectionIdempotent(dy, lastScrollDirection);
  }

  /** `(first + last) / 2` in `Int` arithmetic. */
  function Midpoint(first: Int32, last: Int32): (m: Int32)
    ensures INT_MIN <= first + last <= INT_MAX && first <= last ==> first <= m <= last
  {
    Half(Wrap(first + last))
  }

  class PdfPageScrollListener {
    var lastDisplayedPage: Int32
    var lastScrollDirection: int

    ghost predicate Valid()
      reads this
    {
      -1 <= lastScrollDirection <= 1
    }

    constructor ()
      ensures Valid()
      ensures lastDisplayedPage == NO_POSITION && lastScrollDirection == 0
    {
      lastDisplayedPage := NO_POSITION;
      lastScrollDirection := 0;
    }

    /** `onScrolled(recyclerView, dx, dy)`, with the layout manager's answers in
        `p` and the value of `totalPageCount()` in `totalPageCount`. */
    method OnScrolled(p: Positions, dy: Int32, totalPageCount: Int32) returns (report: Option<PageReport>)
      requires Valid()
      modifies this
      ensures Valid()
      ensures lastScrollDirection == Direction(dy, old(lastScrollDirection))
      ensures var page := PageToShow(lastScrollDirection, p);
              if ShouldReport(page, old(lastDisplayedPage)) then
                && report == Some(PageReport(page, Wrap(page + 1), totalPageCount))
                && lastDisplayedPage == page
              else
                report == None && lastDisplayedPage == old(lastDisplayedPage)
      ensures !ShouldReport(PageToShow(Direction(dy, lastScrollDirection), p), lastDisplayedPage)
    {
      var direction := if dy > 0 then 1 else if dy < 0 then -1 else lastScrollDirection;
      lastScrollDirection := direction;
      var pageToShow := match direction
        case 1 => OrElse(p.lastComplete, OrElse(p.lastVisible, p.firstVisible))
        case -1 => OrElse(p.firstComplete, OrElse(p.firstVisible, p.lastVisible))
        case _ => p.firstVisible;
      report := None;
      if pageToShow != lastDisplayedPage && pageToShow != NO_POSITION {
        report := Some(PageReport(pageToShow, Wrap(pageToShow + 1), totalPageCount));
        lastDisplayedPage := pageToShow;
      }
    }

    /** `onScrollStateChanged(recyclerView, newState)`: the page passed to
        `schedulePrefetch`, if any. `layout` is None when the layout manager is
        not a `LinearLayoutManager`, and otherwise holds its first and last
        visible positions. */
    method OnScrollStateChanged(newState: Int32, layout: Option<(Int32, Int32)>) returns (prefetch: Option<Int32>)
      ensures prefetch.Some? <==> newState == SCROLL_STATE_IDLE && layout.Some?
      ensures prefetch.Some? ==> prefetch.value == Midpoint(layout.value.0, layout.value.1)
    {
      prefetch := None;
      if newState == SCROLL_STATE_IDLE {
        match layout
        case None =>
        case Some((first, last)) =>
          var middle := Half(Wrap(first + last));
          prefetch := Some(middle);
      }
    }
  }
}
