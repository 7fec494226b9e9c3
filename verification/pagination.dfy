/** The page-control bar of the paginated view: a window of numbered page
    buttons around the current page, previous/next buttons that are disabled
    at the ends, and a footer shown while more remote data may come. */
module Pagination {
  import opened Shows

  /** Three buttons on narrow viewports (below 640 pixels), five otherwise. */
  function MaxButtons(width: int): (r: nat)
    ensures r == 3 || r == 5
    ensures r == 3 <==> width < 640
  {
    if width < 640 then 3 else 5
  }

  /** The inclusive range of page indices that get a numbered button. */
  datatype Window = Window(first: int, last: int)

  /** Centres the window on the current page, then slides it back from the
      end so that it keeps its full size whenever enough pages exist. */
  function ButtonWindow(currentPage: int, totalPages: int, width: int): (r: Window)
    ensures totalPages >= 1 ==>
      && 0 <= r.first <= r.last <= totalPages - 1
      && r.last - r.first + 1 == Min(MaxButtons(width), totalPages)
    ensures 0 <= currentPage < totalPages ==> r.first <= currentPage <= r.last
    ensures 0 <= currentPage < totalPages ==>
      r.first == Max(0, Min(currentPage - MaxButtons(width) / 2, totalPages - MaxButtons(width)))
  {
    var maxButtons := MaxButtons(width);
    var start := Max(0, currentPage - maxButtons / 2);
    var end := Min(totalPages - 1, start + maxButtons - 1);
    if end - start < maxButtons - 1 then Window(Max(0, end - maxButtons + 1), end)
    else Window(start, end)
  }

  /** A numbered button: the page it stands for, its 1-based number, and
      whether it is the highlighted current page. */
  datatype Button = Button(page: int, number: int, isCurrent: bool)

  function Buttons(currentPage: int, totalPages: int, width: int): (r: seq<Button>)
    ensures var w := ButtonWindow(currentPage, totalPages, width);
      && |r| == Max(0, w.last - w.first + 1)
      && forall k :: 0 <= k < |r| ==>
           r[k].page == w.first + k && r[k].number == r[k].page + 1 && (r[k].isCurrent <==> r[k].page == currentPage)
  {
    var w := ButtonWindow(currentPage, totalPages, width);
    seq(Max(0, w.last - w.first + 1), k => Button(w.first + k, w.first + k + 1, w.first + k == currentPage))
  }

  /** Clicking a numbered button asks for its page, unless it is the current one. */
  function ClickTarget(b: Button, currentPage: int): (r: Option<int>)
    ensures r.Some? <==> b.page != currentPage
    ensures r.Some? ==> r.value == b.page
  {
    if b.page != currentPage then Some(b.page) else None
  }

  datatype Controls = Controls(buttons: seq<Button>, previousDisabled: bool, nextDisabled: bool, showsTotal: bool)

  /** The whole bar, or nothing at all when there is at most one page. */
  function Render(currentPage: int, totalPages: int, width: int, hasMoreFromApi: bool, isLoadingMore: bool): (r: Option<Controls>)
    ensures r.None? <==> totalPages <= 1
    ensures r.Some? ==>
      && r.value.buttons == Buttons(currentPage, totalPages, width)
      && (r.value.previousDisabled <==> currentPage == 0)
      && (r.value.nextDisabled <==> currentPage == totalPages - 1)
      && (r.value.showsTotal <==> hasMoreFromApi && !isLoadingMore)
  {
    if totalPages <= 1 then None
    else Some(Controls(Buttons(currentPage, totalPages, width), currentPage == 0,
                       currentPage == totalPages - 1, hasMoreFromApi && !isLoadingMore))
  }

  /** With the current page in range, the bar shows min(maxButtons, pages)
      consecutive pages that all exist, exactly one of them highlighted: the
      current page. */
  lemma ButtonsAroundCurrent(currentPage: int, totalPages: int, width: int)
    requires 0 <= currentPage < totalPages
    ensures var b := Buttons(currentPage, totalPages, width);
      && |b| == Min(MaxButtons(width), totalPages)
      && (forall k :: 0 <= k < |b| ==> 0 <= b[k].page < totalPages)
      && (forall k :: 0 <= k < |b| - 1 ==> b[k + 1].page == b[k].page + 1)
      && (exists k :: 0 <= k < |b| && b[k].isCurrent)
      && (forall j, k :: 0 <= j < |b| && 0 <= k < |b| && b[j].isCurrent && b[k].isCurrent ==> j == k)
  {
    var w := ButtonWindow(currentPage, totalPages, width);
    var b := Buttons(currentPage, totalPages, width);
    assert b[currentPage - w.first].isCurrent;
  }
}
