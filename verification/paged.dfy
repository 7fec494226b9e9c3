/** The paginated list view. It shows one fixed-size page of the shared show
    list, chosen by the shared `currentPage`, and prefetches the next remote
    page when few local pages remain. Its remote page counter, exhaustion
    flag and in-flight flag are component state, separate from the ones the
    infinite view keeps in the store. */
module PagedList {
  import opened Shows
  import Feed
  import Signals
  import Pagination

  datatype View = View(
    store: Signals.Store,
    apiPage: nat,
    hasMoreFromApi: bool,
    loadingMore: bool,
    initialized: bool,
    previousPage: int)

  /** Component state at mount. */
  function Mount(st: Signals.Store): View {
    View(st, 0, true, false, false, 0)
  }

  function FeedOf(v: View): Feed.Feed {
    Feed.Feed(v.store.shows, v.apiPage, v.hasMoreFromApi, v.loadingMore)
  }

  function WithFeed(v: View, f: Feed.Feed): View {
    v.(store := v.store.(shows := f.shows), apiPage := f.apiPage, hasMoreFromApi := f.hasMore, loadingMore := f.loadingMore)
  }

  /** The mount effect: with an empty store, fetch page 0 and store it as is;
      with a non-empty store, fetch nothing. */
  function InitialLoad(v: View, outcome: FetchOutcome): (r: Step<View>)
    ensures r.requested == if |v.store.shows| == 0 then Some(0) else None
    ensures r.state.initialized
    ensures |v.store.shows| == 0 && outcome.Fetched? ==>
      r.state == v.(store := v.store.(shows := outcome.batch, loading := false), apiPage := 0,
                    hasMoreFromApi := |outcome.batch| > 0, initialized := true)
    ensures |v.store.shows| == 0 && outcome.FetchFailed? ==>
      r.state == v.(store := v.store.(loading := false), hasMoreFromApi := false, initialized := true)
    ensures |v.store.shows| > 0 ==> r.state == v.(initialized := true)
  {
    if |v.store.shows| == 0 then
      match outcome
      case Fetched(batch) =>
        Step(v.(store := v.store.(shows := batch, loading := false), apiPage := 0,
                hasMoreFromApi := |batch| > 0, initialized := true), Some(0))
      case FetchFailed =>
        Step(v.(store := v.store.(loading := false), hasMoreFromApi := false, initialized := true), Some(0))
    else Step(v.(initialized := true), None)
  }

  /** The mount on an empty store: the page it loads, if any, becomes the
      stored list, page 0 is current and in range and shows the first
      `itemsPerPage` shows of it, stored ids are unique when the page
      repeats none, and the source counts as exhausted exactly when the page
      was empty or failed. */
  lemma InitialLoadShowsFirstPage(v: View, cfg: Config, outcome: FetchOutcome)
    requires ValidConfig(cfg)
    requires |v.store.shows| == 0 && PageInRange(v, cfg)
    requires outcome.Fetched? ==> UniqueIds(outcome.batch)
    ensures var w := InitialLoad(v, outcome).state;
      && w.store.shows == (if outcome.Fetched? then outcome.batch else [])
      && UniqueIds(w.store.shows)
      && w.store.currentPage == 0 && PageInRange(w, cfg)
      && VisibleShows(w, cfg) == w.store.shows[..Min(cfg.itemsPerPage, |w.store.shows|)]
      && (w.hasMoreFromApi <==> outcome.Fetched? && |outcome.batch| > 0)
  {
    var w := InitialLoad(v, outcome).state;
    assert PageStart(0, cfg.itemsPerPage) == 0;
    assert w.store.currentPage == 0;
  }

  /** `loadMoreFromApi` of this view: the shared load step on the store's
      shows and this component's own counter and flags. It never touches the
      infinite view's counter or exhaustion flag in the store. */
  function LoadMoreFromApi(v: View, outcome: FetchOutcome): (r: Step<View>)
    ensures r.requested.Some? <==> v.hasMoreFromApi && !v.loadingMore
    ensures r.requested.None? ==> r.state == v
    ensures r.requested.Some? ==> r.requested.value == v.apiPage + 1 && !r.state.loadingMore
    ensures r.requested.Some? && outcome.Fetched? && |outcome.batch| > 0 ==>
      && r.state.store.shows == v.store.shows + FreshShows(outcome.batch, Ids(v.store.shows))
      && r.state.apiPage == v.apiPage + 1
      && r.state.hasMoreFromApi
    ensures r.requested.Some? && !(outcome.Fetched? && |outcome.batch| > 0) ==>
      r.state.store == v.store && r.state.apiPage == v.apiPage && !r.state.hasMoreFromApi
    ensures r.state.store == v.store.(shows := r.state.store.shows)
    ensures r.state.initialized == v.initialized && r.state.previousPage == v.previousPage
  {
    var step := Feed.LoadMore(FeedOf(v), outcome);
    Step(WithFeed(v, step.state), step.requested)
  }

  /** `Math.ceil(n / perPage)`: the least number of pages that holds n items. */
  function TotalPages(n: nat, perPage: nat): (r: nat)
    requires perPage > 0
    ensures r * perPage >= n
    ensures r == 0 || (r - 1) * perPage < n
  {
    (n + perPage - 1) / perPage
  }

  /** A slice index as JavaScript's `Array.prototype.slice` reads it: negative
      values count from the end, and both ends are clipped to the length. */
  function SliceBound(i: int, len: nat): (r: nat)
    ensures r <= len
    ensures i >= 0 ==> r == Min(i, len)
    ensures i < 0 ==> r == Max(len + i, 0)
  {
    if i < 0 then Max(len + i, 0) else Min(i, len)
  }

  function JsSlice(s: seq<Show>, start: int, end: int): (r: seq<Show>)
    ensures start <= end ==> |r| <= end - start
    ensures 0 <= start <= end ==> r == s[Min(start, |s|)..Min(end, |s|)]
  {
    var a := SliceBound(start, |s|);
    var b := SliceBound(end, |s|);
    if a < b then s[a..b] else []
  }

  /** The position of the first show of page `page`. */
  function PageStart(page: int, perPage: nat): (r: int)
    ensures page >= 0 ==> r >= 0
  {
    page * perPage
  }

  /** The shows on local page `page`: positions
      `[page * perPage, page * perPage + perPage)`, clipped. */
  function Page(shows: seq<Show>, page: int, cfg: Config): (r: seq<Show>)
    requires ValidConfig(cfg)
    ensures |r| <= cfg.itemsPerPage
    ensures page >= 0 ==>
      var start := PageStart(page, cfg.itemsPerPage);
      r == shows[Min(start, |shows|)..Min(start + cfg.itemsPerPage, |shows|)]
  {
    var start := PageStart(page, cfg.itemsPerPage);
    JsSlice(shows, start, start + cfg.itemsPerPage)
  }

  /** Every page that exists has at least one show. */
  lemma ExistingPageNonEmpty(shows: seq<Show>, page: int, cfg: Config)
    requires ValidConfig(cfg)
    requires 0 <= page < TotalPages(|shows|, cfg.itemsPerPage)
    ensures |Page(shows, page, cfg)| > 0
  {
    PageStartInside(page, |shows|, cfg.itemsPerPage);
  }

  /** The shows the view renders: the current page of the stored list. */
  function VisibleShows(v: View, cfg: Config): (r: seq<Show>)
    requires ValidConfig(cfg)
    ensures |r| <= cfg.itemsPerPage
    ensures v.store.currentPage >= 0 ==>
      var start := PageStart(v.store.currentPage, cfg.itemsPerPage);
      r == v.store.shows[Min(start, |v.store.shows|)..Min(start + cfg.itemsPerPage, |v.store.shows|)]
    ensures 0 <= v.store.currentPage < TotalPages(|v.store.shows|, cfg.itemsPerPage) ==> |r| > 0
  {
    var page := v.store.currentPage;
    if 0 <= page < TotalPages(|v.store.shows|, cfg.itemsPerPage) then
      ExistingPageNonEmpty(v.store.shows, page, cfg);
      Page(v.store.shows, page, cfg)
    else Page(v.store.shows, page, cfg)
  }

  /** A page that exists starts inside the list. */
  lemma PageStartInside(page: int, n: nat, perPage: nat)
    requires perPage > 0
    ensures 0 <= page < TotalPages(n, perPage) ==> 0 <= page * perPage < n
  {
    if 0 <= page < TotalPages(n, perPage) {
      MulMonotone(page, TotalPages(n, perPage) - 1, perPage);
    }
  }

  /** Pages 0 .. k-1 laid end to end. */
  function PagesUpTo(shows: seq<Show>, cfg: Config, k: nat): seq<Show>
    requires ValidConfig(cfg)
  {
    if k == 0 then [] else PagesUpTo(shows, cfg, k - 1) + Page(shows, k - 1, cfg)
  }

  /** The local pages partition the stored list: all the pages together, in
      order, are exactly the whole list. */
  lemma PagesPartitionShows(shows: seq<Show>, cfg: Config)
    requires ValidConfig(cfg)
    ensures PagesUpTo(shows, cfg, TotalPages(|shows|, cfg.itemsPerPage)) == shows
  {
    var k := TotalPages(|shows|, cfg.itemsPerPage);
    PagesPrefix(shows, cfg, k, k * cfg.itemsPerPage);
    assert shows[..Min(k * cfg.itemsPerPage, |shows|)] == shows;
  }

  /** The first k pages are the first `end` shows, where `end` is k * perPage. */
  lemma {:induction false} PagesPrefix(shows: seq<Show>, cfg: Config, k: nat, end: nat)
    requires ValidConfig(cfg)
    requires end == k * cfg.itemsPerPage
    ensures PagesUpTo(shows, cfg, k) == shows[..Min(end, |shows|)]
  {
    if k > 0 {
      PreviousEnd(k, cfg.itemsPerPage, end);
      var start := end - cfg.itemsPerPage;
      PagesPrefix(shows, cfg, k - 1, start);
      PageAt(shows, k - 1, cfg, start);
      PrefixStep(shows, start, end);
    }
  }

  lemma PageAt(shows: seq<Show>, page: nat, cfg: Config, start: nat)
    requires ValidConfig(cfg)
    requires start == page * cfg.itemsPerPage
    ensures Page(shows, page, cfg) == shows[Min(start, |shows|)..Min(start + cfg.itemsPerPage, |shows|)]
  {
  }

  lemma PrefixStep(shows: seq<Show>, x: nat, y: nat)
    requires x <= y
    ensures shows[..Min(x, |shows|)] + shows[Min(x, |shows|)..Min(y, |shows|)] == shows[..Min(y, |shows|)]
  {
  }

  /** The end offset of page k - 1 is one page before that of page k. */
  lemma PreviousEnd(k: nat, perPage: nat, end: nat)
    requires k > 0 && end == k * perPage
    ensures end >= perPage && end - perPage == (k - 1) * perPage
  {
  }

  /** The page index stays within the pages that exist (page 0 when there are none). */
  predicate PageInRange(v: View, cfg: Config)
    requires ValidConfig(cfg)
  {
    0 <= v.store.currentPage && (v.store.currentPage < TotalPages(|v.store.shows|, cfg.itemsPerPage) || v.store.currentPage == 0)
  }

  /** A navigation handler's effect: the new view, and whether the window is
      scrolled to the top. */
  datatype Nav = Nav(view: View, scrollToTop: bool)

  /** `handlePreviousPage`: one page back, or nothing at page 0. */
  function PreviousPage(v: View): (r: Nav)
    ensures v.store.currentPage > 0 ==>
      r == Nav(v.(store := v.store.(currentPage := v.store.currentPage - 1)), true)
    ensures v.store.currentPage <= 0 ==> r == Nav(v, false)
  {
    if v.store.currentPage > 0 then Nav(v.(store := v.store.(currentPage := v.store.currentPage - 1)), true)
    else Nav(v, false)
  }

  /** `handleNextPage`: one page forward, or nothing on the last page. */
  function NextPage(v: View, cfg: Config): (r: Nav)
    requires ValidConfig(cfg)
    ensures v.store.currentPage < TotalPages(|v.store.shows|, cfg.itemsPerPage) - 1 ==>
      r == Nav(v.(store := v.store.(currentPage := v.store.currentPage + 1)), true)
    ensures v.store.currentPage >= TotalPages(|v.store.shows|, cfg.itemsPerPage) - 1 ==> r == Nav(v, false)
  {
    if v.store.currentPage < TotalPages(|v.store.shows|, cfg.itemsPerPage) - 1 then
      Nav(v.(store := v.store.(currentPage := v.store.currentPage + 1)), true)
    else Nav(v, false)
  }

  /** `handleGoToPage`: jumps to the given page without any range check. */
  function GoToPage(v: View, page: int): (r: Nav)
    ensures r.view.store.currentPage == page && r.scrollToTop
    ensures r.view == v.(store := v.store.(currentPage := page))
  {
    Nav(v.(store := v.store.(currentPage := page)), true)
  }

  /** Previous and next keep the page in range, and so does any load, since
      the stored list only grows. */
  lemma NavigationKeepsPageInRange(v: View, cfg: Config, outcome: FetchOutcome)
    requires ValidConfig(cfg)
    requires PageInRange(v, cfg)
    ensures PageInRange(PreviousPage(v).view, cfg)
    ensures PageInRange(NextPage(v, cfg).view, cfg)
    ensures PageInRange(LoadMoreFromApi(v, outcome).state, cfg)
  {
    var r := LoadMoreFromApi(v, outcome).state;
    Feed.LoadMoreMonotone(FeedOf(v), outcome);
    TotalPagesMonotone(|v.store.shows|, |r.store.shows|, cfg.itemsPerPage);
  }

  lemma TotalPagesMonotone(m: nat, n: nat, p: nat)
    requires p > 0 && m <= n
    ensures TotalPages(m, p) <= TotalPages(n, p)
  {
    var a := TotalPages(m, p);
    var b := TotalPages(n, p);
    if a > b {
      assert b * p >= n >= m;
      assert (a - 1) * p < m;
      MulMonotone(b, a - 1, p);
    }
  }

  lemma MulMonotone(x: nat, y: nat, p: nat)
    requires x <= y
    ensures x * p <= y * p
  {
  }

  /** Without a range check, one jump past the last page leaves the view with
      nothing to show although the list is not empty. */
  lemma GoToPageUnchecked(v: View, cfg: Config)
    requires ValidConfig(cfg)
    requires |v.store.shows| > 0
    ensures var page := TotalPages(|v.store.shows|, cfg.itemsPerPage);
      !PageInRange(GoToPage(v, page).view, cfg) && |VisibleShows(GoToPage(v, page).view, cfg)| == 0
  {
  }

  /** The prefetch rule of `checkAndLoadMoreIfNeeded`: once initialised,
      when at most `pagesAheadThreshold` local pages follow the current one
      and the source is neither exhausted nor busy. */
  predicate NeedsPrefetch(v: View, cfg: Config)
    requires ValidConfig(cfg)
  {
    && v.initialized
    && TotalPages(|v.store.shows|, cfg.itemsPerPage) - (v.store.currentPage + 1) <= cfg.pagesAheadThreshold
    && v.hasMoreFromApi
    && !v.loadingMore
  }

  function CheckAndLoadMore(v: View, cfg: Config, outcome: FetchOutcome): (r: Step<View>)
    requires ValidConfig(cfg)
    ensures r.requested.Some? <==> NeedsPrefetch(v, cfg)
    ensures r.requested.Some? ==> r.requested.value == v.apiPage + 1 && r.state == LoadMoreFromApi(v, outcome).state
    ensures r.requested.None? ==> r.state == v
  {
    if NeedsPrefetch(v, cfg) then LoadMoreFromApi(v, outcome) else Step(v, None)
  }

  /** The effect that reruns the prefetch check: only when the page differs
      from the last one it observed, which it then records. */
  function PageChangeEffect(v: View, cfg: Config, outcome: FetchOutcome): (r: Step<View>)
    requires ValidConfig(cfg)
    ensures !(v.initialized && v.previousPage != v.store.currentPage) ==> r == Step(v, None)
    ensures v.initialized && v.previousPage != v.store.currentPage ==>
      r == CheckAndLoadMore(v.(previousPage := v.store.currentPage), cfg, outcome)
    ensures r.state.previousPage == if v.initialized then v.store.currentPage else v.previousPage
  {
    if v.initialized && v.previousPage != v.store.currentPage then
      CheckAndLoadMore(v.(previousPage := v.store.currentPage), cfg, outcome)
    else Step(v, None)
  }

  /** Running the page-change effect again without a page change fetches
      nothing, whatever the answer would have been. */
  lemma PageChangeEffectSettles(v: View, cfg: Config, o1: FetchOutcome, o2: FetchOutcome)
    requires ValidConfig(cfg)
    requires v.initialized
    ensures var w := PageChangeEffect(v, cfg, o1).state;
      PageChangeEffect(w, cfg, o2) == Step(w, None)
  {
  }

  /** A check run keeps the page where it is and in range, only appends to
      the stored list, and keeps its ids unique when the page it loads
      repeats no id. */
  lemma CheckAndLoadMorePreserves(v: View, cfg: Config, outcome: FetchOutcome)
    requires ValidConfig(cfg)
    requires PageInRange(v, cfg) && UniqueIds(v.store.shows)
    requires outcome.Fetched? ==> UniqueIds(outcome.batch)
    ensures var w := CheckAndLoadMore(v, cfg, outcome).state;
      && w.store.currentPage == v.store.currentPage && PageInRange(w, cfg)
      && v.store.shows <= w.store.shows && UniqueIds(w.store.shows)
  {
    if NeedsPrefetch(v, cfg) {
      NavigationKeepsPageInRange(v, cfg, outcome);
      Feed.LoadMoreMonotone(FeedOf(v), outcome);
      if outcome.Fetched? {
        AppendFreshKeepsInv(v.store.shows, outcome.batch);
      }
    }
  }

  /** On the last page (or with no pages at all), a free source that is not
      exhausted is always asked for its next page once the view is
      initialised, whatever non-negative look-ahead is configured. */
  lemma LastPagePrefetches(v: View, cfg: Config, outcome: FetchOutcome)
    requires ValidConfig(cfg) && cfg.pagesAheadThreshold >= 0
    requires PageInRange(v, cfg)
    requires v.store.currentPage >= TotalPages(|v.store.shows|, cfg.itemsPerPage) - 1
    requires v.initialized && v.hasMoreFromApi && !v.loadingMore
    ensures CheckAndLoadMore(v, cfg, outcome).requested == Some(v.apiPage + 1)
  {
  }

  /** With 10 shows a page and at most 2 pages ahead, 20 stored shows make
      two local pages, page 0 shows the first ten, and page 0 prefetches. */
  lemma PrefetchNearEnd(v: View)
    requires |v.store.shows| == 20 && v.store.currentPage == 0
    requires v.initialized && v.hasMoreFromApi && !v.loadingMore
    ensures TotalPages(20, 10) == 2
    ensures VisibleShows(v, Config(10, 5, 2)) == v.store.shows[..10]
    ensures CheckAndLoadMore(v, Config(10, 5, 2), FetchFailed).requested == Some(v.apiPage + 1)
  {
  }

  /** The control bar the view renders for its state and a viewport width. */
  function Controls(v: View, cfg: Config, width: int): (r: Option<Pagination.Controls>)
    requires ValidConfig(cfg)
    ensures r.Some? <==> |v.store.shows| > cfg.itemsPerPage
    ensures r.Some? ==>
      var t := TotalPages(|v.store.shows|, cfg.itemsPerPage);
      && r.value.buttons == Pagination.Buttons(v.store.currentPage, t, width)
      && (r.value.previousDisabled <==> v.store.currentPage == 0)
      && (r.value.nextDisabled <==> v.store.currentPage == t - 1)
      && (r.value.showsTotal <==> v.hasMoreFromApi && !v.loadingMore)
  {
    MoreThanOnePage(|v.store.shows|, cfg.itemsPerPage);
    Pagination.Render(v.store.currentPage, TotalPages(|v.store.shows|, cfg.itemsPerPage), width,
                      v.hasMoreFromApi, v.loadingMore)
  }

  /** There is more than one page exactly when the shows overflow one page. */
  lemma MoreThanOnePage(n: nat, perPage: nat)
    requires perPage > 0
    ensures TotalPages(n, perPage) > 1 <==> n > perPage
  {
    var r := TotalPages(n, perPage);
    if r > 1 {
      MulMonotone(1, r - 1, perPage);
    } else {
      MulMonotone(r, 1, perPage);
    }
  }

  /** On an in-range page, a disabled previous/next button is exactly one
      whose handler would do nothing, and every numbered button that reacts
      to a click leads to another page that exists. */
  lemma ControlsAgreeWithHandlers(v: View, cfg: Config, width: int)
    requires ValidConfig(cfg)
    requires PageInRange(v, cfg)
    requires Controls(v, cfg, width).Some?
    ensures var c := Controls(v, cfg, width).value;
      && (c.previousDisabled <==> PreviousPage(v).view == v)
      && (c.nextDisabled <==> NextPage(v, cfg).view == v)
      && forall k :: 0 <= k < |c.buttons| && Pagination.ClickTarget(c.buttons[k], v.store.currentPage).Some? ==>
           var target := GoToPage(v, Pagination.ClickTarget(c.buttons[k], v.store.currentPage).value).view;
           PageInRange(target, cfg) && target.store.currentPage != v.store.currentPage
  {
    EndButtonsAgree(v, cfg, width);
    NumberButtonsAgree(v, cfg, width);
  }

  lemma EndButtonsAgree(v: View, cfg: Config, width: int)
    requires ValidConfig(cfg)
    requires PageInRange(v, cfg)
    requires Controls(v, cfg, width).Some?
    ensures var c := Controls(v, cfg, width).value;
      && (c.previousDisabled <==> PreviousPage(v).view == v)
      && (c.nextDisabled <==> NextPage(v, cfg).view == v)
  {
    var p := v.store.currentPage;
    assert PreviousPage(v).view == v <==> p <= 0 by {
      if p > 0 { assert PreviousPage(v).view.store.currentPage != p; }
    }
    var t := TotalPages(|v.store.shows|, cfg.itemsPerPage);
    assert NextPage(v, cfg).view == v <==> p >= t - 1 by {
      if p < t - 1 { assert NextPage(v, cfg).view.store.currentPage != p; }
    }
  }

  lemma NumberButtonsAgree(v: View, cfg: Config, width: int)
    requires ValidConfig(cfg)
    requires PageInRange(v, cfg)
    requires Controls(v, cfg, width).Some?
    ensures var c := Controls(v, cfg, width).value;
      forall k :: 0 <= k < |c.buttons| && Pagination.ClickTarget(c.buttons[k], v.store.currentPage).Some? ==>
        var target := GoToPage(v, Pagination.ClickTarget(c.buttons[k], v.store.currentPage).value).view;
        PageInRange(target, cfg) && target.store.currentPage != v.store.currentPage
  {
    Pagination.ButtonsAroundCurrent(v.store.currentPage, TotalPages(|v.store.shows|, cfg.itemsPerPage), width);
  }
}
