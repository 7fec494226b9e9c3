/** The continuous-scroll list view. It reveals the shared show list in
    increments of `itemsPerPage` into `displayedShows`, fetching the next
    remote page first when few unrevealed shows remain. Its remote page
    counter and exhaustion flag live in the shared store; the in-flight flag
    and the initialised flag are local to the view. */
module InfiniteList {
  import opened Shows
  import Feed
  import Signals

  datatype View = View(store: Signals.Store, loadingMore: bool, initialized: bool)

  function FeedOf(v: View): Feed.Feed {
    Feed.Feed(v.store.shows, v.store.infiniteScrollApiPage, v.store.hasMoreFromApi, v.loadingMore)
  }

  function WithFeed(v: View, f: Feed.Feed): View {
    View(v.store.(shows := f.shows, infiniteScrollApiPage := f.apiPage, hasMoreFromApi := f.hasMore),
         f.loadingMore, v.initialized)
  }

  /** The first page of `shows`, clipped to its length. */
  function FirstPage(shows: seq<Show>, cfg: Config): seq<Show> {
    shows[..Min(cfg.itemsPerPage, |shows|)]
  }

  /** Shows are unique, displayed shows are unique, and every displayed id
      belongs to a stored show. */
  predicate Inv(st: Signals.Store) {
    UniqueIds(st.shows) && UniqueIds(st.displayedShows) && Ids(st.displayedShows) <= Ids(st.shows)
  }

  /** The mount effect. With an empty store it fetches page 0 and stores it
      unfiltered, seeds the display with its first page and sets the cursor to
      one full page even if fewer shows arrived; a failure only marks the
      source exhausted. With a non-empty store it fetches nothing and seeds
      the display only if nothing is displayed yet. */
  function InitialLoad(v: View, cfg: Config, outcome: FetchOutcome): (r: Step<View>)
    requires ValidConfig(cfg)
    ensures r.requested == if |v.store.shows| == 0 then Some(0) else None
    ensures r.state.initialized && r.state.loadingMore == v.loadingMore
    ensures |v.store.shows| == 0 && outcome.Fetched? ==>
      var b := outcome.batch;
      && r.state.store.shows == b
      && r.state.store.displayedShows == b[..Min(cfg.itemsPerPage, |b|)]
      && r.state.store.infiniteScrollIndex == cfg.itemsPerPage
      && r.state.store.infiniteScrollApiPage == 0
      && r.state.store.hasMoreFromApi == (|b| > 0)
      && r.state.store == v.store.(loading := false, shows := b, displayedShows := r.state.store.displayedShows,
                                   infiniteScrollIndex := cfg.itemsPerPage, infiniteScrollApiPage := 0,
                                   hasMoreFromApi := |b| > 0)
    ensures |v.store.shows| == 0 && outcome.FetchFailed? ==>
      r.state.store == v.store.(loading := false, hasMoreFromApi := false)
    ensures |v.store.shows| > 0 && |v.store.displayedShows| == 0 ==>
      r.state.store == v.store.(displayedShows := v.store.shows[..Min(cfg.itemsPerPage, |v.store.shows|)],
                                infiniteScrollIndex := cfg.itemsPerPage)
    ensures |v.store.shows| > 0 && |v.store.displayedShows| > 0 ==> r.state.store == v.store
  {
    var st := v.store;
    if |st.shows| == 0 then
      match outcome
      case Fetched(batch) =>
        var st' := st.(shows := batch, displayedShows := FirstPage(batch, cfg),
                       infiniteScrollIndex := cfg.itemsPerPage, infiniteScrollApiPage := 0,
                       hasMoreFromApi := |batch| > 0, loading := false);
        Step(View(st', v.loadingMore, true), Some(0))
      case FetchFailed =>
        Step(View(st.(hasMoreFromApi := false, loading := false), v.loadingMore, true), Some(0))
    else if |st.displayedShows| == 0 then
      var st' := st.(displayedShows := FirstPage(st.shows, cfg), infiniteScrollIndex := cfg.itemsPerPage);
      Step(View(st', v.loadingMore, true), None)
    else
      Step(v.(initialized := true), None)
  }

  /** `loadMoreFromApi` of this view: the shared load step on the store's
      shows, page counter and exhaustion flag. Nothing else changes. */
  function LoadMoreFromApi(v: View, outcome: FetchOutcome): (r: Step<View>)
    ensures r.requested.Some? <==> v.store.hasMoreFromApi && !v.loadingMore
    ensures r.requested.None? ==> r.state == v
    ensures r.requested.Some? ==> r.requested.value == v.store.infiniteScrollApiPage + 1 && !r.state.loadingMore
    ensures r.requested.Some? && outcome.Fetched? && |outcome.batch| > 0 ==>
      && r.state.store.shows == v.store.shows + FreshShows(outcome.batch, Ids(v.store.shows))
      && r.state.store.infiniteScrollApiPage == v.store.infiniteScrollApiPage + 1
      && r.state.store.hasMoreFromApi
    ensures r.requested.Some? && !(outcome.Fetched? && |outcome.batch| > 0) ==>
      && r.state.store.shows == v.store.shows
      && r.state.store.infiniteScrollApiPage == v.store.infiniteScrollApiPage
      && !r.state.store.hasMoreFromApi
    ensures r.state.store == v.store.(shows := r.state.store.shows,
                                      infiniteScrollApiPage := r.state.store.infiniteScrollApiPage,
                                      hasMoreFromApi := r.state.store.hasMoreFromApi)
    ensures r.state.initialized == v.initialized
  {
    var step := Feed.LoadMore(FeedOf(v), outcome);
    Step(WithFeed(v, step.state), step.requested)
  }

  /** The threshold rule of `loadMoreShows`: fetch first when at most
      `loadMoreThreshold` unrevealed shows remain (the count may be negative
      once the cursor has passed the end). */
  predicate ShouldFetch(v: View, cfg: Config) {
    |v.store.shows| - v.store.infiniteScrollIndex <= cfg.loadMoreThreshold
    && v.store.hasMoreFromApi && !v.loadingMore
  }

  /** The shows of the window `shows[i..e]` whose ids are not displayed
      yet, in list order. */
  function NextUnseen(shows: seq<Show>, displayed: seq<Show>, i: nat, e: nat): seq<Show>
    requires i <= e <= |shows|
  {
    FreshShows(shows[i..e], Ids(displayed))
  }

  /** Reveals the next window when the cursor is inside the list: appends its
      undisplayed shows and advances the cursor by a full page regardless of
      how many were appended. Past the end it changes nothing. */
  function Reveal(st: Signals.Store, cfg: Config): (r: Signals.Store)
    requires ValidConfig(cfg)
    ensures var i := st.infiniteScrollIndex;
      i < |st.shows| ==>
        r == st.(displayedShows := st.displayedShows
                   + NextUnseen(st.shows, st.displayedShows, i, Min(i + cfg.itemsPerPage, |st.shows|)),
                 infiniteScrollIndex := i + cfg.itemsPerPage)
    ensures st.infiniteScrollIndex >= |st.shows| ==> r == st
  {
    var i := st.infiniteScrollIndex;
    if i < |st.shows| then
      // the source skips the write when nothing survives; appending [] is the same value
      st.(displayedShows := st.displayedShows
            + NextUnseen(st.shows, st.displayedShows, i, Min(i + cfg.itemsPerPage, |st.shows|)),
          infiniteScrollIndex := i + cfg.itemsPerPage)
    else st
  }

  /** The state after the optional fetch of `loadMoreShows`. */
  function AfterFetch(v: View, cfg: Config, outcome: FetchOutcome): Step<View> {
    if ShouldFetch(v, cfg) then LoadMoreFromApi(v, outcome) else Step(v, None)
  }

  /** `loadMoreShows`, the sentinel callback: fetch if the threshold rule
      says so, then reveal the next slice. */
  function LoadMoreShows(v: View, cfg: Config, outcome: FetchOutcome): (r: Step<View>)
    requires ValidConfig(cfg)
    ensures r.requested.Some? <==> ShouldFetch(v, cfg)
    ensures r.requested.Some? ==> r.requested.value == v.store.infiniteScrollApiPage + 1
    ensures var m := AfterFetch(v, cfg, outcome).state;
      && r.state == m.(store := Reveal(m.store, cfg))
      && (m.store.infiniteScrollIndex < |m.store.shows| ==>
            r.state.store.infiniteScrollIndex == v.store.infiniteScrollIndex + cfg.itemsPerPage)
      && (m.store.infiniteScrollIndex >= |m.store.shows| ==> r.state == m)
  {
    var m := AfterFetch(v, cfg, outcome);
    Step(m.state.(store := Reveal(m.state.store, cfg)), m.requested)
  }

  /** Whether anything is left to show: unrevealed stored shows, or a remote
      source not yet exhausted. */
  predicate HasMore(v: View) {
    v.store.infiniteScrollIndex < |v.store.shows| || v.store.hasMoreFromApi
  }

  /** The sentinel observer is attached only while there is more to show and
      no load of either kind is running. */
  predicate Armed(v: View) {
    HasMore(v) && !(v.store.loading || v.loadingMore)
  }

  /** Once nothing is left, the view is terminal: the trigger is disarmed and
      a stray callback changes nothing and fetches nothing. */
  lemma ExhaustedIsTerminal(v: View, cfg: Config, outcome: FetchOutcome)
    requires ValidConfig(cfg)
    requires !HasMore(v)
    ensures !Armed(v)
    ensures LoadMoreShows(v, cfg, outcome) == Step(v, None)
  {
  }

  /** The post-mount scroll restore: once initialised, and only when shows are
      displayed and a positive offset was saved for infinite mode. */
  function ScrollRestore(v: View): (r: Option<int>)
    ensures r.Some? ==> r.value == v.store.infiniteScrollPosition && r.value > 0
    ensures r.None? <==> !v.initialized || |v.store.displayedShows| == 0 || v.store.infiniteScrollPosition <= 0
  {
    if v.initialized && |v.store.displayedShows| > 0 && v.store.infiniteScrollPosition > 0
    then Some(v.store.infiniteScrollPosition) else None
  }

  /** A positive offset saved while in infinite mode is what the view scrolls
      back to when it is mounted again with shows displayed. */
  lemma SavedOffsetIsRestored(v: View, position: int)
    requires v.store.isInfiniteScroll && v.initialized && |v.store.displayedShows| > 0 && position > 0
    ensures ScrollRestore(v.(store := Signals.SaveScrollPosition(v.store, position))) == Some(position)
  {
  }

  lemma PrefixIds(s: seq<Show>, n: nat)
    requires n <= |s|
    ensures Ids(s[..n]) <= Ids(s)
    ensures UniqueIds(s) ==> UniqueIds(s[..n])
  {
    forall x | x in Ids(s[..n]) ensures x in Ids(s) {
      var i :| 0 <= i < n && s[..n][i].id == x;
      assert s[i] == s[..n][i];
    }
  }

  /** The invariant holds after a first load of a page without repeated ids. */
  lemma InitialLoadEstablishesInv(v: View, cfg: Config, outcome: FetchOutcome)
    requires ValidConfig(cfg)
    requires Inv(v.store)
    requires outcome.Fetched? ==> UniqueIds(outcome.batch)
    ensures Inv(InitialLoad(v, cfg, outcome).state.store)
  {
    var st := v.store;
    if |st.shows| == 0 && outcome.Fetched? {
      PrefixIds(outcome.batch, Min(cfg.itemsPerPage, |outcome.batch|));
    } else if |st.shows| > 0 && |st.displayedShows| == 0 {
      PrefixIds(st.shows, Min(cfg.itemsPerPage, |st.shows|));
    }
  }

  lemma LoadMoreFromApiPreservesInv(v: View, outcome: FetchOutcome)
    requires Inv(v.store)
    requires outcome.Fetched? ==> UniqueIds(outcome.batch)
    ensures Inv(LoadMoreFromApi(v, outcome).state.store)
  {
    var f := FeedOf(v);
    if Feed.CanLoad(f) {
      Feed.CompleteLoadIds(f.(loadingMore := true), f.apiPage + 1, outcome);
      Feed.CompleteLoadUnique(f.(loadingMore := true), f.apiPage + 1, outcome);
    }
  }

  lemma SliceIds(s: seq<Show>, i: nat, j: nat)
    requires i <= j <= |s|
    ensures Ids(s[i..j]) <= Ids(s)
    ensures UniqueIds(s) ==> UniqueIds(s[i..j])
  {
    forall x | x in Ids(s[i..j]) ensures x in Ids(s) {
      var k :| 0 <= k < j - i && s[i..j][k].id == x;
      assert s[i + k] == s[i..j][k];
    }
  }

  /** Appending the undisplayed part of any slice of the stored list keeps
      the displayed list repeat-free and within the stored ids. */
  lemma AppendSliceKeepsInv(shows: seq<Show>, displayed: seq<Show>, i: nat, e: nat)
    requires UniqueIds(shows) && UniqueIds(displayed) && Ids(displayed) <= Ids(shows)
    requires i <= e <= |shows|
    ensures var d := displayed + NextUnseen(shows, displayed, i, e);
      UniqueIds(d) && Ids(d) <= Ids(shows)
  {
    SliceIds(shows, i, e);
    AppendFreshKeepsInv(displayed, shows[i..e]);
  }

  lemma RevealPreservesInv(st: Signals.Store, cfg: Config)
    requires ValidConfig(cfg)
    requires Inv(st)
    ensures Inv(Reveal(st, cfg))
  {
    var i := st.infiniteScrollIndex;
    if i < |st.shows| {
      var e := Min(i + cfg.itemsPerPage, |st.shows|);
      AppendSliceKeepsInv(st.shows, st.displayedShows, i, e);
      var r := Reveal(st, cfg);
      assert r.shows == st.shows;
      assert r.displayedShows == st.displayedShows + NextUnseen(st.shows, st.displayedShows, i, e);
    }
  }

  /** `loadMoreShows` keeps stored and displayed ids unique and displayed ids
      stored, provided the remote page repeats no id. */
  lemma {:induction false} LoadMoreShowsPreservesInv(v: View, cfg: Config, outcome: FetchOutcome)
    requires ValidConfig(cfg)
    requires Inv(v.store)
    requires outcome.Fetched? ==> UniqueIds(outcome.batch)
    ensures Inv(LoadMoreShows(v, cfg, outcome).state.store)
  {
    if ShouldFetch(v, cfg) {
      LoadMoreFromApiPreservesInv(v, outcome);
    }
    RevealPreservesInv(AfterFetch(v, cfg, outcome).state.store, cfg);
  }

  /** Progress is never lost: stored and displayed lists only grow at the
      end, the cursor and page counter never move back, and exhaustion is
      never undone. */
  lemma LoadMoreShowsMonotone(v: View, cfg: Config, outcome: FetchOutcome)
    requires ValidConfig(cfg)
    ensures var r := LoadMoreShows(v, cfg, outcome).state.store;
      && v.store.shows <= r.shows
      && v.store.displayedShows <= r.displayedShows
      && v.store.infiniteScrollIndex <= r.infiniteScrollIndex
      && v.store.infiniteScrollApiPage <= r.infiniteScrollApiPage
      && (!v.store.hasMoreFromApi ==> !r.hasMoreFromApi)
  {
  }

  lemma RevealKeepsHidden(st: Signals.Store, cfg: Config, k: nat)
    requires ValidConfig(cfg)
    requires Inv(st)
    requires k < |st.shows| && k < st.infiniteScrollIndex
    requires st.shows[k].id !in Ids(st.displayedShows)
    ensures var r := Reveal(st, cfg);
      r.shows == st.shows && k < r.infiniteScrollIndex && st.shows[k].id !in Ids(r.displayedShows)
  {
    var i := st.infiniteScrollIndex;
    if i < |st.shows| {
      var e := Min(i + cfg.itemsPerPage, |st.shows|);
      SliceIds(st.shows, i, e);
      AppendFreshKeepsInv(st.displayedShows, st.shows[i..e]);
      IdNotInLaterSlice(st.shows, k, i, e);
    }
  }

  /** A stored show the cursor has already passed without displaying it is
      never displayed by any later `loadMoreShows`: every later slice starts
      at or after the cursor and ids are unique. */
  lemma BehindCursorStaysHidden(v: View, cfg: Config, outcome: FetchOutcome, k: nat)
    requires ValidConfig(cfg)
    requires Inv(v.store)
    requires outcome.Fetched? ==> UniqueIds(outcome.batch)
    requires k < |v.store.shows| && k < v.store.infiniteScrollIndex
    requires v.store.shows[k].id !in Ids(v.store.displayedShows)
    ensures var r := LoadMoreShows(v, cfg, outcome).state.store;
      && k < |r.shows| && r.shows[k] == v.store.shows[k] && k < r.infiniteScrollIndex
      && r.shows[k].id !in Ids(r.displayedShows)
  {
    var m := AfterFetch(v, cfg, outcome).state.store;
    if ShouldFetch(v, cfg) {
      LoadMoreFromApiPreservesInv(v, outcome);
      Feed.LoadMoreMonotone(FeedOf(v), outcome);
    }
    assert Inv(m);
    assert m.shows[k] == v.store.shows[k];
    assert m.displayedShows == v.store.displayedShows && m.infiniteScrollIndex == v.store.infiniteScrollIndex;
    RevealKeepsHidden(m, cfg, k);
    assert LoadMoreShows(v, cfg, outcome).state.store == Reveal(m, cfg);
  }

  function Plain(id: int): Show {
    Show(id, "", None, [], None, None, None, Schedule("", []))
  }

  /** First stage of the run below: the mount stores and displays show 1
      and puts the cursor at 2. */
  lemma SkipMount(cfg: Config)
    requires cfg == Config(2, 0, 0)
    ensures var v1 := InitialLoad(View(Signals.Initial(Signals.Absent), false, false), cfg, Shows.Fetched([Plain(1)])).state;
      && v1.store.shows == [Plain(1)] && v1.store.displayedShows == [Plain(1)]
      && v1.store.infiniteScrollIndex == 2 && v1.store.hasMoreFromApi && !v1.loadingMore
  {
  }

  /** Second stage: the fetch appends shows 2, 3 and 4 behind show 1 and
      leaves the display and the cursor alone. */
  lemma SkipFetch(v1: View, cfg: Config)
    requires cfg == Config(2, 0, 0)
    requires v1.store.shows == [Plain(1)] && v1.store.displayedShows == [Plain(1)]
    requires v1.store.infiniteScrollIndex == 2 && v1.store.hasMoreFromApi && !v1.loadingMore
    ensures ShouldFetch(v1, cfg)
    ensures var m := LoadMoreFromApi(v1, Shows.Fetched([Plain(2), Plain(3), Plain(4)])).state.store;
      && m.shows == [Plain(1), Plain(2), Plain(3), Plain(4)]
      && m.displayedShows == [Plain(1)] && m.infiniteScrollIndex == 2
  {
    IdsSingleton(Plain(1));
    var batch := [Plain(2), Plain(3), Plain(4)];
    assert Ids(v1.store.shows) == {1};
    assert FreshShows(batch, {1}) == batch;
    var r := LoadMoreFromApi(v1, Shows.Fetched(batch));
    assert r.requested.Some?;
    assert r.state.store.shows == v1.store.shows + batch;
    assert [Plain(1)] + batch == [Plain(1), Plain(2), Plain(3), Plain(4)];
  }

  /** Third stage: the reveal starts at position 2, so shows 3 and 4 are
      displayed and show 2 is passed over. */
  lemma SkipReveal(m: Signals.Store, cfg: Config)
    requires cfg == Config(2, 0, 0)
    requires m.shows == [Plain(1), Plain(2), Plain(3), Plain(4)]
    requires m.displayedShows == [Plain(1)] && m.infiniteScrollIndex == 2
    ensures Reveal(m, cfg).shows == m.shows
    ensures Reveal(m, cfg).displayedShows == [Plain(1), Plain(3), Plain(4)]
    ensures Reveal(m, cfg).infiniteScrollIndex == 4
  {
    IdsSingleton(Plain(1));
    var window := m.shows[2..4];
    assert window == [Plain(3), Plain(4)];
    assert FreshShows(window, {1}) == window;
    assert NextUnseen(m.shows, m.displayedShows, 2, 4) == window;
  }

  /** A concrete run in which a show is skipped for good: page 0 holds a
      single show, so the seed cursor (2) already lies past the end; the next
      page appends shows 2, 3 and 4, and the reveal starts at position 2, so
      show 2 at position 1 is never displayed. */
  lemma SkippedShowExample()
    ensures var cfg := Config(2, 0, 0);
      var v0 := View(Signals.Initial(Signals.Absent), false, false);
      var v1 := InitialLoad(v0, cfg, Shows.Fetched([Plain(1)])).state;
      var v2 := LoadMoreShows(v1, cfg, Shows.Fetched([Plain(2), Plain(3), Plain(4)])).state;
      && v2.store.shows == [Plain(1), Plain(2), Plain(3), Plain(4)]
      && v2.store.displayedShows == [Plain(1), Plain(3), Plain(4)]
      && v2.store.infiniteScrollIndex == 4
  {
    var cfg := Config(2, 0, 0);
    var v0 := View(Signals.Initial(Signals.Absent), false, false);
    SkipMount(cfg);
    var v1 := InitialLoad(v0, cfg, Shows.Fetched([Plain(1)])).state;
    var outcome := Shows.Fetched([Plain(2), Plain(3), Plain(4)]);
    SkipFetch(v1, cfg);
    var m := AfterFetch(v1, cfg, outcome).state.store;
    assert m == LoadMoreFromApi(v1, outcome).state.store;
    SkipReveal(m, cfg);
    assert LoadMoreShows(v1, cfg, outcome).state.store == Reveal(m, cfg);
  }

  /** In that run, show 2 is stored behind the cursor but not displayed, so by
      `BehindCursorStaysHidden` no later callback will ever display it. */
  lemma SkippedShowStaysHidden()
    ensures var d := [Plain(1), Plain(3), Plain(4)];
      && Inv(Signals.Initial(Signals.Absent).(shows := [Plain(1), Plain(2), Plain(3), Plain(4)], displayedShows := d))
      && 2 !in Ids(d)
  {
    SkipDisplayedIds();
    SkipStoredIds();
  }

  lemma SkipDisplayedIds()
    ensures Ids([Plain(1), Plain(3), Plain(4)]) == {1, 3, 4}
  {
    var d := [Plain(1), Plain(3), Plain(4)];
    assert d == [Plain(1)] + [Plain(3)] + [Plain(4)];
    IdsAppend([Plain(1)] + [Plain(3)], [Plain(4)]);
    IdsAppend([Plain(1)], [Plain(3)]);
    IdsSingleton(Plain(1)); IdsSingleton(Plain(3)); IdsSingleton(Plain(4));
  }

  lemma SkipStoredIds()
    ensures Ids([Plain(1), Plain(2), Plain(3), Plain(4)]) == {1, 2, 3, 4}
  {
    var s := [Plain(1), Plain(2), Plain(3), Plain(4)];
    assert s == [Plain(1), Plain(2)] + [Plain(3), Plain(4)];
    assert [Plain(1), Plain(2)] == [Plain(1)] + [Plain(2)];
    assert [Plain(3), Plain(4)] == [Plain(3)] + [Plain(4)];
    IdsAppend([Plain(1), Plain(2)], [Plain(3), Plain(4)]);
    IdsAppend([Plain(1)], [Plain(2)]);
    IdsAppend([Plain(3)], [Plain(4)]);
    IdsSingleton(Plain(1)); IdsSingleton(Plain(2)); IdsSingleton(Plain(3)); IdsSingleton(Plain(4));
  }

  // ---------------------------------------------------------------------
  // Cursor clipped to the list length, as the reveal cursor evidently
  // intends: with it, every show before the cursor is displayed.

  /** Clips the reveal cursor to the number of stored shows. */
  function ClampCursor(st: Signals.Store): (r: Signals.Store)
    ensures r.infiniteScrollIndex <= |r.shows|
    ensures r == st.(infiniteScrollIndex := Min(st.infiniteScrollIndex, |st.shows|))
  {
    st.(infiniteScrollIndex := Min(st.infiniteScrollIndex, |st.shows|))
  }

  /** The displayed shows are exactly the stored shows before the cursor, up
      to duplicates: nothing before the cursor has been skipped. */
  predicate Covered(st: Signals.Store) {
    st.infiniteScrollIndex <= |st.shows| && Ids(st.displayedShows) == Ids(st.shows[..st.infiniteScrollIndex])
  }

  function InitialLoadClamped(v: View, cfg: Config, outcome: FetchOutcome): (r: Step<View>)
    requires ValidConfig(cfg)
    ensures r.requested == InitialLoad(v, cfg, outcome).requested
    ensures r.state.store.infiniteScrollIndex <= |r.state.store.shows|
  {
    var s := InitialLoad(v, cfg, outcome);
    s.(state := s.state.(store := ClampCursor(s.state.store)))
  }

  function LoadMoreShowsClamped(v: View, cfg: Config, outcome: FetchOutcome): (r: Step<View>)
    requires ValidConfig(cfg)
    ensures r.requested == LoadMoreShows(v, cfg, outcome).requested
    ensures r.state.store.infiniteScrollIndex <= |r.state.store.shows|
  {
    var s := LoadMoreShows(v, cfg, outcome);
    s.(state := s.state.(store := ClampCursor(s.state.store)))
  }

  lemma PrefixSplit(s: seq<Show>, i: nat, j: nat)
    requires i <= j <= |s|
    ensures Ids(s[..j]) == Ids(s[..i]) + Ids(s[i..j])
  {
    assert s[..j] == s[..i] + s[i..j];
    IdsAppend(s[..i], s[i..j]);
  }

  /** A first load from an empty store displays exactly the shows before the
      clipped cursor. */
  lemma InitialLoadClampedCovers(v: View, cfg: Config, outcome: FetchOutcome)
    requires ValidConfig(cfg)
    requires Covered(v.store)
    ensures Covered(InitialLoadClamped(v, cfg, outcome).state.store)
  {
    var st := v.store;
    var r := InitialLoadClamped(v, cfg, outcome).state.store;
    if |st.shows| == 0 && outcome.Fetched? {
      var b := outcome.batch;
      assert r.displayedShows == b[..r.infiniteScrollIndex];
    } else if |st.shows| > 0 && |st.displayedShows| == 0 {
      assert r.displayedShows == st.shows[..r.infiniteScrollIndex];
    }
  }

  /** If the displayed ids are those of the first i shows, appending the
      unseen part of the window [i, e) makes them those of the first e. */
  lemma AppendWindowCovers(shows: seq<Show>, displayed: seq<Show>, i: nat, e: nat)
    requires i <= e <= |shows|
    requires Ids(displayed) == Ids(shows[..i])
    ensures Ids(displayed + NextUnseen(shows, displayed, i, e)) == Ids(shows[..e])
  {
    var unseen := FreshShows(shows[i..e], Ids(displayed));
    IdsAppend(displayed, unseen);
    FreshShowsIds(shows[i..e], Ids(displayed));
    PrefixSplit(shows, i, e);
  }

  lemma RevealClampedCovers(st: Signals.Store, cfg: Config)
    requires ValidConfig(cfg)
    requires Covered(st)
    ensures var r := ClampCursor(Reveal(st, cfg));
      && Covered(r)
      && (r.infiniteScrollIndex == |r.shows| || r.infiniteScrollIndex == st.infiniteScrollIndex + cfg.itemsPerPage)
  {
    if st.infiniteScrollIndex < |st.shows| {
      RevealInsideCovers(st, cfg);
    }
  }

  lemma RevealInsideCovers(st: Signals.Store, cfg: Config)
    requires ValidConfig(cfg)
    requires Covered(st) && st.infiniteScrollIndex < |st.shows|
    ensures var r := ClampCursor(Reveal(st, cfg));
      && r.shows == st.shows
      && r.infiniteScrollIndex == Min(st.infiniteScrollIndex + cfg.itemsPerPage, |st.shows|)
      && Ids(r.displayedShows) == Ids(r.shows[..r.infiniteScrollIndex])
  {
    var i := st.infiniteScrollIndex;
    var e := Min(i + cfg.itemsPerPage, |st.shows|);
    var d := st.displayedShows + NextUnseen(st.shows, st.displayedShows, i, e);
    var r := ClampCursor(Reveal(st, cfg));
    assert r == st.(displayedShows := d, infiniteScrollIndex := e);
    assert r.shows[..r.infiniteScrollIndex] == st.shows[..e];
    AppendWindowCovers(st.shows, st.displayedShows, i, e);
  }

  /** With the clipped cursor, a sentinel callback keeps every show before
      the cursor displayed, and the cursor either reaches the end of the
      stored list or advances by a full page. */
  lemma LoadMoreShowsClampedCovers(v: View, cfg: Config, outcome: FetchOutcome)
    requires ValidConfig(cfg)
    requires Covered(v.store)
    ensures var r := LoadMoreShowsClamped(v, cfg, outcome).state.store;
      && Covered(r)
      && (r.infiniteScrollIndex == |r.shows| || r.infiniteScrollIndex == v.store.infiniteScrollIndex + cfg.itemsPerPage)
  {
    var m := AfterFetch(v, cfg, outcome).state.store;
    if ShouldFetch(v, cfg) {
      Feed.LoadMoreMonotone(FeedOf(v), outcome);
    }
    var i := v.store.infiniteScrollIndex;
    assert m.infiniteScrollIndex == i && m.displayedShows == v.store.displayedShows;
    assert m.shows[..i] == v.store.shows[..i];
    RevealClampedCovers(m, cfg);
    assert LoadMoreShowsClamped(v, cfg, outcome).state.store == ClampCursor(Reveal(m, cfg));
  }

  /** With the clipped cursor, once nothing is left every stored show has
      been displayed. */
  lemma CoveredExhaustedShowsAll(v: View)
    requires Covered(v.store)
    requires !HasMore(v)
    ensures Ids(v.store.displayedShows) == Ids(v.store.shows)
  {
    assert v.store.shows[..v.store.infiniteScrollIndex] == v.store.shows;
  }
}
