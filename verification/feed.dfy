/** The remote-page loading step that both list views perform: the guard
    against a second request while one is in flight, the id-deduplicating
    append of a non-empty batch, and exhaustion on an empty batch or a
    failure. The infinite view keeps this state in the shared store and the
    paginated view in its own component state; both project it into a Feed. */
module Feed {
  import opened Shows

  /** `apiPage` is the index of the LAST remote page loaded (not the next one);
      `hasMore` is false once the remote source is considered exhausted;
      `loadingMore` is the in-flight flag. */
  datatype Feed = Feed(shows: seq<Show>, apiPage: nat, hasMore: bool, loadingMore: bool)

  predicate CanLoad(f: Feed) {
    f.hasMore && !f.loadingMore
  }

  /** Starting a request: refused while exhausted or while one is in flight;
      otherwise raises the in-flight flag and asks for the page after the
      last one loaded. */
  function BeginLoad(f: Feed): (r: Step<Feed>)
    ensures r.requested.Some? <==> CanLoad(f)
    ensures r.requested.Some? ==> r.requested.value == f.apiPage + 1 && r.state.loadingMore
    ensures r.requested.None? ==> r.state == f
    ensures r.state == f.(loadingMore := r.state.loadingMore)
  {
    if !CanLoad(f) then Step(f, None)
    else Step(f.(loadingMore := true), Some(f.apiPage + 1))
  }

  /** Applying the answer for page `page`: a non-empty batch appends the shows
      with new ids and records `page` as loaded, even when every id was a
      duplicate; an empty batch or a failure marks the source exhausted and
      keeps the shows and the page counter. The in-flight flag is cleared in
      every case. */
  function CompleteLoad(f: Feed, page: nat, outcome: FetchOutcome): (r: Feed)
    ensures !r.loadingMore
    ensures outcome.Fetched? && |outcome.batch| > 0 ==>
      && r.shows == f.shows + FreshShows(outcome.batch, Ids(f.shows))
      && r.apiPage == page
      && r.hasMore == f.hasMore
    ensures !(outcome.Fetched? && |outcome.batch| > 0) ==>
      r == f.(hasMore := false, loadingMore := false)
  {
    match outcome
    case FetchFailed => f.(hasMore := false, loadingMore := false)
    case Fetched(batch) =>
      if |batch| == 0 then f.(hasMore := false, loadingMore := false)
      else
        var unseen := FreshShows(batch, Ids(f.shows));
        var shows := if |unseen| > 0 then f.shows + unseen else f.shows;
        Feed(shows, page, f.hasMore, false)
  }

  /** One complete `loadMoreFromApi` call, run to completion. */
  function LoadMore(f: Feed, outcome: FetchOutcome): (r: Step<Feed>)
    ensures r.requested.Some? <==> CanLoad(f)
    ensures r.requested.None? ==> r.state == f
    ensures r.requested.Some? ==>
      r.requested.value == f.apiPage + 1 && r.state == CompleteLoad(f, f.apiPage + 1, outcome)
  {
    var begun := BeginLoad(f);
    match begun.requested
    case None => begun
    case Some(page) => Step(CompleteLoad(begun.state, page, outcome), begun.requested)
  }

  /** At most one request is outstanding: a request started while another is
      in flight issues nothing and changes nothing. */
  lemma InFlightRefusesSecondRequest(f: Feed)
    requires BeginLoad(f).requested.Some?
    ensures BeginLoad(BeginLoad(f).state) == Step(BeginLoad(f).state, None)
  {
  }

  /** The ids after a load are those before plus those of a non-empty batch;
      the old shows stay in place as a prefix. */
  lemma CompleteLoadIds(f: Feed, page: nat, outcome: FetchOutcome)
    ensures f.shows <= CompleteLoad(f, page, outcome).shows
    ensures Ids(CompleteLoad(f, page, outcome).shows) ==
      if outcome.Fetched? && |outcome.batch| > 0 then Ids(f.shows) + Ids(outcome.batch)
      else Ids(f.shows)
  {
    var r := CompleteLoad(f, page, outcome);
    if outcome.Fetched? && |outcome.batch| > 0 {
      var unseen := FreshShows(outcome.batch, Ids(f.shows));
      IdsAppend(f.shows, unseen);
      FreshShowsIds(outcome.batch, Ids(f.shows));
    }
  }

  /** Unique ids survive a load, provided the batch itself repeats no id. */
  lemma CompleteLoadUnique(f: Feed, page: nat, outcome: FetchOutcome)
    requires UniqueIds(f.shows)
    requires outcome.Fetched? ==> UniqueIds(outcome.batch)
    ensures UniqueIds(CompleteLoad(f, page, outcome).shows)
  {
    if outcome.Fetched? && |outcome.batch| > 0 {
      var unseen := FreshShows(outcome.batch, Ids(f.shows));
      FreshShowsUnique(outcome.batch, Ids(f.shows));
      FreshShowsIds(outcome.batch, Ids(f.shows));
      AppendUnique(f.shows, unseen);
    }
  }

  /** The filter only consults the ids already stored, so a batch that repeats
      a new id appends both copies. */
  lemma BatchDuplicatesSurvive(s: Show)
    ensures !UniqueIds(CompleteLoad(Feed([], 0, true, true), 1, Fetched([s, s])).shows)
  {
    var r := CompleteLoad(Feed([], 0, true, true), 1, Fetched([s, s]));
    assert FreshShows([s, s], {}) == [s, s];
    assert r.shows[0].id == r.shows[1].id;
  }

  /** The page counter never decreases and exhaustion is never undone by a load. */
  lemma LoadMoreMonotone(f: Feed, outcome: FetchOutcome)
    ensures LoadMore(f, outcome).state.apiPage >= f.apiPage
    ensures !f.hasMore ==> !LoadMore(f, outcome).state.hasMore
    ensures f.shows <= LoadMore(f, outcome).state.shows
  {
  }
}
