/** The application-wide store: the shared show list, the view mode, the
    infinite-scroll cursors, the two scroll-offset slots and the favourites
    list together with its persisted copy. Every write goes through one of
    the named transitions below. */
module Signals {
  import opened Shows

  /** The persisted favourites slot as read back: nothing stored (or an empty
      string), something that does not parse, or a stored id list. */
  datatype Persisted = Absent | Malformed | Saved(ids: seq<int>)

  /** The persisted slot and the number of writes made to it. */
  datatype Storage = Storage(slot: Persisted, writes: nat)

  datatype Store = Store(
    shows: seq<Show>,
    loading: bool,
    currentPage: int,
    isInfiniteScroll: bool,
    displayedShows: seq<Show>,
    infiniteScrollIndex: nat,
    infiniteScrollApiPage: nat,
    hasMoreFromApi: bool,
    infiniteScrollPosition: int,
    savedScrollPosition: int,
    favorites: seq<int>,
    storage: Storage)

  /** Favourites read at start-up: a missing or unreadable slot yields the
      empty list, never an error. */
  function LoadFavorites(p: Persisted): (r: seq<int>)
    ensures p.Saved? ==> r == p.ids
    ensures !p.Saved? ==> r == []
  {
    match p
    case Saved(ids) => ids
    case _ => []
  }

  /** The store as the application starts it, with the persisted slot as found. */
  function Initial(p: Persisted): (r: Store)
    ensures r.favorites == LoadFavorites(p) && r.storage == Storage(p, 0)
    ensures |r.shows| == 0 && |r.displayedShows| == 0 && r.hasMoreFromApi && !r.isInfiniteScroll
    ensures !r.loading && r.currentPage == 0
    ensures r.infiniteScrollIndex == 0 && r.infiniteScrollApiPage == 0
    ensures r.infiniteScrollPosition == 0 && r.savedScrollPosition == 0
  {
    Store([], false, 0, false, [], 0, 0, true, 0, 0, LoadFavorites(p), Storage(p, 0))
  }

  /** Position of the first occurrence of `x`, or -1 when there is none. */
  function IndexOf(s: seq<int>, x: int): (r: int)
    ensures -1 <= r < |s|
    ensures r == -1 <==> x !in s
    ensures r >= 0 ==> s[r] == x && x !in s[..r]
  {
    if |s| == 0 then -1
    else if s[0] == x then 0
    else
      var k := IndexOf(s[1..], x);
      if k == -1 then -1
      else
        assert s[..k + 1] == [s[0]] + s[1..][..k];
        k + 1
  }

  /** Adds an absent id at the end or removes the first occurrence of a
      present one, then writes the new list to the persisted slot once. */
  function ToggleFavorite(st: Store, id: int): (r: Store)
    ensures id !in st.favorites ==> r.favorites == st.favorites + [id]
    ensures id in st.favorites ==>
      exists i :: 0 <= i < |st.favorites| && st.favorites[i] == id && id !in st.favorites[..i]
        && r.favorites == st.favorites[..i] + st.favorites[i + 1..]
    ensures r.storage == Storage(Saved(r.favorites), st.storage.writes + 1)
    ensures r == st.(favorites := r.favorites, storage := r.storage)
  {
    var i := IndexOf(st.favorites, id);
    var updated := if i > -1 then st.favorites[..i] + st.favorites[i + 1..]
                   else st.favorites + [id];
    st.(favorites := updated, storage := Storage(Saved(updated), st.storage.writes + 1))
  }

  /** Reading the slot back after a toggle gives the list the toggle left in
      memory, so a reload sees the same favourites. */
  lemma ReloadAfterToggle(st: Store, id: int)
    ensures var r := ToggleFavorite(st, id);
      LoadFavorites(r.storage.slot) == r.favorites
  {
  }

  /** Toggling an absent id twice gives back the exact list; the slot has
      been written twice and holds that list. */
  lemma ToggleTwiceFromAbsent(st: Store, id: int)
    requires id !in st.favorites
    ensures ToggleFavorite(ToggleFavorite(st, id), id).favorites == st.favorites
    ensures ToggleFavorite(ToggleFavorite(st, id), id).storage == Storage(Saved(st.favorites), st.storage.writes + 2)
  {
    var once := ToggleFavorite(st, id);
    assert once.favorites == st.favorites + [id];
    assert once.favorites[..|st.favorites|] == st.favorites;
    assert IndexOf(once.favorites, id) == |st.favorites|;
  }

  /** Toggling a present id (held once) twice keeps the same ids with the
      same multiplicities, but the id moves from its place to the end. */
  lemma ToggleTwiceFromPresent(st: Store, id: int)
    requires multiset(st.favorites)[id] == 1
    ensures multiset(ToggleFavorite(ToggleFavorite(st, id), id).favorites) == multiset(st.favorites)
    ensures exists i :: (0 <= i < |st.favorites| && st.favorites[i] == id &&
      ToggleFavorite(ToggleFavorite(st, id), id).favorites == st.favorites[..i] + st.favorites[i + 1..] + [id])
  {
    var favs := st.favorites;
    var i := IndexOf(favs, id);
    var once := ToggleFavorite(st, id);
    assert once.favorites == favs[..i] + favs[i + 1..];
    assert favs == favs[..i] + [id] + favs[i + 1..];
    assert multiset(favs) == multiset(once.favorites) + multiset{id};
    assert id !in once.favorites by {
      assert multiset(once.favorites)[id] == 0;
    }
    assert ToggleFavorite(once, id).favorites == once.favorites + [id];
  }

  predicate NoDuplicates(s: seq<int>) {
    forall i, j :: 0 <= i < j < |s| ==> s[i] != s[j]
  }

  /** On a list without repeated ids, a toggle flips the id's membership,
      leaves every other id's membership alone and keeps the list repeat-free. */
  lemma ToggleFlipsMembership(st: Store, id: int, other: int)
    requires NoDuplicates(st.favorites)
    requires other != id
    ensures (id in ToggleFavorite(st, id).favorites) <==> id !in st.favorites
    ensures (other in ToggleFavorite(st, id).favorites) <==> other in st.favorites
    ensures NoDuplicates(ToggleFavorite(st, id).favorites)
  {
    var favs := st.favorites;
    var r := ToggleFavorite(st, id).favorites;
    if id in favs {
      var i := IndexOf(favs, id);
      assert r == favs[..i] + favs[i + 1..];
      assert favs == favs[..i] + [id] + favs[i + 1..];
      forall a, b | 0 <= a < b < |r| ensures r[a] != r[b] {
        var a' := if a < i then a else a + 1;
        var b' := if b < i then b else b + 1;
        assert r[a] == favs[a'] && r[b] == favs[b'];
      }
      assert other in favs <==> other in favs[..i] + [id] + favs[i + 1..];
    } else {
      assert r == favs + [id];
    }
  }

  /** Flips the view mode and returns to local page 0. Entering infinite mode
      with nothing yet displayed also rewinds the infinite cursors; in every
      other case the infinite-mode progress is kept. */
  function ToggleViewMode(st: Store): (r: Store)
    ensures r.isInfiniteScroll == !st.isInfiniteScroll && r.currentPage == 0
    ensures r.isInfiniteScroll && |st.displayedShows| == 0 ==>
      r.infiniteScrollIndex == 0 && r.infiniteScrollApiPage == 0 && r.hasMoreFromApi && r.infiniteScrollPosition == 0
    ensures !(r.isInfiniteScroll && |st.displayedShows| == 0) ==>
      r.infiniteScrollIndex == st.infiniteScrollIndex && r.infiniteScrollApiPage == st.infiniteScrollApiPage
      && r.hasMoreFromApi == st.hasMoreFromApi && r.infiniteScrollPosition == st.infiniteScrollPosition
    ensures r == st.(isInfiniteScroll := r.isInfiniteScroll, currentPage := 0,
                     infiniteScrollIndex := r.infiniteScrollIndex, infiniteScrollApiPage := r.infiniteScrollApiPage,
                     hasMoreFromApi := r.hasMoreFromApi, infiniteScrollPosition := r.infiniteScrollPosition)
  {
    var flipped := st.(isInfiniteScroll := !st.isInfiniteScroll, currentPage := 0);
    if flipped.isInfiniteScroll && |flipped.displayedShows| == 0 then
      flipped.(infiniteScrollIndex := 0, infiniteScrollApiPage := 0, hasMoreFromApi := true, infiniteScrollPosition := 0)
    else flipped
  }

  /** Two flips return to the original mode; once something has been
      displayed in infinite mode, they change nothing but the local page. */
  lemma ToggleViewModeTwice(st: Store)
    ensures ToggleViewMode(ToggleViewMode(st)).isInfiniteScroll == st.isInfiniteScroll
    ensures |st.displayedShows| > 0 ==> ToggleViewMode(ToggleViewMode(st)) == st.(currentPage := 0)
  {
  }

  /** Discards all infinite-mode progress and touches nothing else. */
  function ResetInfiniteScrollState(st: Store): (r: Store)
    ensures |r.displayedShows| == 0 && r.infiniteScrollIndex == 0 && r.infiniteScrollApiPage == 0
    ensures r.hasMoreFromApi && r.infiniteScrollPosition == 0
    ensures r == st.(displayedShows := [], infiniteScrollIndex := 0, infiniteScrollApiPage := 0,
                     hasMoreFromApi := true, infiniteScrollPosition := 0)
  {
    st.(displayedShows := [], infiniteScrollIndex := 0, infiniteScrollApiPage := 0,
        hasMoreFromApi := true, infiniteScrollPosition := 0)
  }

  /** A reset is idempotent, and after a reset, entering infinite mode from
      paginated mode rewinds the cursors to the same values the reset chose. */
  lemma ResetThenEnterInfinite(st: Store)
    ensures ResetInfiniteScrollState(ResetInfiniteScrollState(st)) == ResetInfiniteScrollState(st)
    ensures !st.isInfiniteScroll ==>
      ToggleViewMode(ResetInfiniteScrollState(st)) ==
      ResetInfiniteScrollState(st).(isInfiniteScroll := true, currentPage := 0)
  {
  }

  /** Records the current scroll offset: always in the generic slot, and in
      the infinite slot as well while in infinite mode. */
  function SaveScrollPosition(st: Store, position: int): (r: Store)
    ensures r.savedScrollPosition == position
    ensures st.isInfiniteScroll ==> r.infiniteScrollPosition == position
    ensures !st.isInfiniteScroll ==> r.infiniteScrollPosition == st.infiniteScrollPosition
    ensures r == st.(savedScrollPosition := position, infiniteScrollPosition := r.infiniteScrollPosition)
  {
    var st' := if st.isInfiniteScroll then st.(infiniteScrollPosition := position) else st;
    st'.(savedScrollPosition := position)
  }

  /** The offset a deferred restore scrolls to: the infinite slot in infinite
      mode, else the generic slot. */
  function RestoreTarget(st: Store): (r: int)
    ensures r == st.infiniteScrollPosition || r == st.savedScrollPosition
    ensures r == st.infiniteScrollPosition <== st.isInfiniteScroll
    ensures r == st.savedScrollPosition <== !st.isInfiniteScroll
  {
    if st.isInfiniteScroll then st.infiniteScrollPosition else st.savedScrollPosition
  }

  /** Leaving the list for a detail view and coming back restores the offset
      saved on leaving, in either mode. */
  lemma SaveThenRestore(st: Store, position: int)
    ensures RestoreTarget(SaveScrollPosition(st, position)) == position
  {
  }

  /** A save made in paginated mode leaves the infinite slot intact, so
      re-entering a non-empty infinite view restores where it was left. */
  lemma PagedSaveKeepsInfiniteSlot(st: Store, position: int)
    requires !st.isInfiniteScroll && |st.displayedShows| > 0
    ensures RestoreTarget(ToggleViewMode(SaveScrollPosition(st, position))) == st.infiniteScrollPosition
  {
  }
}
