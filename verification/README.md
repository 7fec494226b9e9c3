# maze-show-explorer list core, in Dafny

A model of the list-loading core of maze-show-explorer, a browser catalogue of
TV shows. The catalogue arrives from a remote source one page at a time. Two list
views share one store of shows:

- an infinite view (`ShowListInfinite`) reveals the stored list page by page
  into `displayedShows` as a sentinel scrolls into view;
- a paginated view (`ShowList`) shows one page of the stored list at a time,
  with a page-control bar (`Pagination`).

Both views prefetch the next remote page when little local material is left,
append only the shows whose id is not yet stored, and treat an empty page or a
failure as the end of the catalogue. The model also covers the store's named
transitions (`signals.ts`): favourites and their persisted copy, the view-mode
switch, the infinite-scroll reset, and the two scroll-offset slots. It also
covers the display helpers of the card, the detail page, and the status lookup.

Layout, one module per file:

- `shows.dfy` `Shows`: the show record, `Option`, the sizing `Config`, the fetch outcome, and id helpers (`FreshShows` is the id filter).
- `feed.dfy` `Feed`: the remote-load step both views share. It has a begin half (the in-flight guard) and a completion half (dedup-append or exhaustion).
- `signals.dfy` `Signals`: the store and its transitions.
- `infinite.dfy` `InfiniteList`: mount, `loadMoreFromApi`, `loadMoreShows`, the trigger condition, and the scroll restore.
- `paged.dfy` `PagedList`: mount, `loadMoreFromApi`, the slice window, the navigation handlers, the prefetch rule, and its effect.
- `pagination.dfy` `Pagination`: the button window and the bar.
- `status.dfy` `Status`, `markup.dfy` `Markup`, `detail.dfy` `Detail`, `card.dfy` `Card`: the display helpers.

Modelling choices:

- The remote source is an oracle argument `FetchOutcome = Fetched(batch) | FetchFailed`.
- Every step that may fetch returns `Step(state, requested)`. `requested` is the page index the step asked for, or `None` if it asked for nothing, so "no request while one is in flight" is a statement about the result.
- An asynchronous handler is modelled as running to completion in one step.
- The sizes `ITEMS_PER_PAGE`, `LOAD_MORE_THRESHOLD` and `PAGES_AHEAD_THRESHOLD` come from a configuration file that is not part of this model. They are the parameter `Config`, and `itemsPerPage > 0` is required.
- Browser values (viewport width, scroll offset) are parameters.
- The local-storage slot is the `Storage` field of the store. It counts writes.

In these places the model follows the code as written:

- The id filter only consults ids already stored. A batch that repeats an id appends both copies, and the first page is stored without any filtering (`Feed.BatchDuplicatesSurvive`).
- The infinite cursor is set to a full page after the first load even when fewer shows arrived. Each reveal that starts inside the list advances it by a full page, however few shows remain. It can therefore exceed the list length. See "## Findings".
- `handleGoToPage` has no range check (`PagedList.GoToPageUnchecked`).
- The infinite view's page counter and exhaustion flag live in the store. The paginated view's live in component state. The two never interact.

## Model

| member | source | states |
|---|---|---|
| Shows.FreshShows | src/components/ShowListInfinite.tsx:82-83 | every kept show comes from the batch and has an unstored id, and every batch show with an unstored id is kept |
| Shows.FreshShowsOrderAndCopies | src/components/ShowListInfinite.tsx:82-83 | the kept shows are a subsequence of the batch, so batch order is kept, and each show with an unstored id is kept as many times as the batch holds it |
| Shows.FreshShowsIds | src/components/ShowListInfinite.tsx:82-83 | the ids kept are exactly the batch ids minus the stored ids |
| Shows.FreshShowsConcat | src/components/ShowList.tsx:61-62 | filtering a concatenated batch is filtering each part, in order |
| Shows.FreshShowsUnique | src/components/ShowList.tsx:61-62 | a batch without repeated ids stays without repeated ids after filtering |
| Shows.AppendFreshKeepsInv | src/components/ShowListInfinite.tsx:109-113 | appending the unseen part of a repeat-free slice to a repeat-free list keeps it repeat-free and adds exactly the slice's ids |
| Feed.BeginLoad | src/components/ShowList.tsx:50-56 | a request is issued iff the source is not exhausted and no load is in flight; it asks for the page after the last one loaded and raises the in-flight flag; a refusal changes nothing |
| Feed.CompleteLoad | src/components/ShowList.tsx:58-76 | a non-empty page appends its unstored shows and records the page as loaded even if nothing was new; an empty page or a failure marks exhaustion and keeps shows and counter; the in-flight flag is always cleared |
| Feed.LoadMore | src/components/ShowList.tsx:50-77 | one whole load: refused and unchanged when exhausted or busy, else asks for page apiPage+1 and applies its answer |
| Feed.InFlightRefusesSecondRequest | src/components/ShowList.tsx:51 | while a load is in flight a second one issues no request and changes nothing |
| Feed.CompleteLoadIds | src/components/ShowList.tsx:61-66 | old shows stay as a prefix, and the ids after a load are the old ids plus those of a non-empty page |
| Feed.CompleteLoadUnique | src/components/ShowList.tsx:61-66 | stored ids stay unique across a load when the page itself repeats no id |
| Feed.BatchDuplicatesSurvive | src/components/ShowList.tsx:61-62 | a page that repeats a new id appends both copies, because the filter only consults stored ids |
| Feed.LoadMoreMonotone | src/components/ShowList.tsx:58-73 | the page counter never decreases, exhaustion is never undone, and shows only grow at the end |
| Signals.LoadFavorites | src/store/signals.ts:16-23 | a stored list is loaded as is; an absent or unreadable slot yields the empty list |
| Signals.ReloadAfterToggle | src/store/signals.ts:16-38 | reading the slot a toggle wrote gives back the favourites that toggle left in memory |
| Signals.Initial | src/store/signals.ts:5-25 | the start state: empty lists, nothing loading, page 0, paginated mode, infinite cursor, counter and offset 0, saved offset 0, source not exhausted, favourites from the slot, no writes |
| Signals.IndexOf | src/store/signals.ts:29 | -1 iff the id is absent, else the position of its first occurrence |
| Signals.ToggleFavorite | src/store/signals.ts:27-39 | an absent id is appended, a present id loses its first occurrence; the slot is written once with the new list; nothing else changes |
| Signals.ToggleTwiceFromAbsent | src/store/signals.ts:27-39 | toggling an absent id twice restores the exact list, with two writes |
| Signals.ToggleTwiceFromPresent | src/store/signals.ts:27-39 | toggling an id held once, twice, keeps the same multiset but moves the id to the end |
| Signals.ToggleFlipsMembership | src/store/signals.ts:27-39 | on a repeat-free list a toggle flips that id's membership, leaves every other id's alone, and keeps the list repeat-free |
| Signals.ToggleViewMode | src/store/signals.ts:41-51 | flips the mode and resets the local page; only entering infinite mode with nothing displayed rewinds the infinite cursors, otherwise they are kept |
| Signals.ToggleViewModeTwice | src/store/signals.ts:41-51 | two flips restore the mode, and with shows displayed change nothing but the local page |
| Signals.ResetInfiniteScrollState | src/store/signals.ts:53-59 | clears the displayed list and rewinds all infinite progress, touching nothing else |
| Signals.ResetThenEnterInfinite | src/store/signals.ts:41-59 | reset is idempotent, and entering infinite mode after a reset keeps the reset values |
| Signals.SaveScrollPosition | src/store/signals.ts:63-71 | the generic slot always takes the offset and the infinite slot takes it only in infinite mode |
| Signals.RestoreTarget | src/store/signals.ts:73-82 | the restore reads the infinite slot in infinite mode and the generic slot otherwise |
| Signals.SaveThenRestore | src/store/signals.ts:63-82 | a save followed by a restore returns to the saved offset in either mode |
| Signals.PagedSaveKeepsInfiniteSlot | src/store/signals.ts:41-82 | a save in paginated mode keeps the infinite slot, so re-entering a non-empty infinite view restores the old infinite offset |
| InfiniteList.InitialLoad | src/components/ShowListInfinite.tsx:30-58 | with an empty store, asks for page 0, stores it unfiltered, displays its first page, and sets the cursor to a full page; a failure marks exhaustion; a non-empty store asks for nothing and only seeds an empty display |
| InfiniteList.LoadMoreFromApi | src/components/ShowListInfinite.tsx:71-98 | the shared load step on the store's counter and flag; every other store field is unchanged |
| InfiniteList.Reveal | src/components/ShowListInfinite.tsx:107-116 | with the cursor inside the list, appends the undisplayed shows of the next slice and advances the cursor a full page; otherwise nothing changes |
| InfiniteList.LoadMoreShows | src/components/ShowListInfinite.tsx:100-117 | asks for the next page iff `ShouldFetch` holds (at most the threshold of shows remain, the source is not exhausted and no load is in flight), then reveals |
| InfiniteList.ExhaustedIsTerminal | src/components/ShowListInfinite.tsx:119-126 | once `HasMore` fails (cursor at or past the end and source exhausted), `Armed` fails too, so the trigger is detached, and a stray callback changes nothing and fetches nothing |
| InfiniteList.ScrollRestore | src/components/ShowListInfinite.tsx:60-69 | the view scrolls to the saved infinite offset iff initialised, shows are displayed and the offset is positive |
| InfiniteList.SavedOffsetIsRestored | src/components/ShowListInfinite.tsx:60-69 | a positive offset saved in infinite mode is restored on remount |
| InfiniteList.InitialLoadEstablishesInv | src/components/ShowListInfinite.tsx:30-58 | the mount keeps stored and displayed ids unique, with displayed ids stored |
| InfiniteList.LoadMoreFromApiPreservesInv | src/components/ShowListInfinite.tsx:71-98 | a remote load preserves that invariant |
| InfiniteList.RevealPreservesInv | src/components/ShowListInfinite.tsx:107-116 | a reveal preserves that invariant |
| InfiniteList.AppendSliceKeepsInv | src/components/ShowListInfinite.tsx:109-113 | appending the unseen shows of a slice of the stored list keeps displayed ids unique and stored |
| InfiniteList.LoadMoreShowsPreservesInv | src/components/ShowListInfinite.tsx:100-117 | a sentinel callback preserves that invariant |
| InfiniteList.LoadMoreShowsMonotone | src/components/ShowListInfinite.tsx:100-117 | stored and displayed lists only grow at the end; the cursor and counter never go back; exhaustion is never undone |
| InfiniteList.RevealKeepsHidden | src/components/ShowListInfinite.tsx:107-115 | a stored show behind the cursor that is not displayed stays undisplayed after a reveal |
| InfiniteList.BehindCursorStaysHidden | src/components/ShowListInfinite.tsx:100-117 | a stored show the cursor passed without displaying is never displayed by a later callback |
| InfiniteList.SkippedShowExample | src/components/ShowListInfinite.tsx:37-38 | a one-show first page followed by three new shows leaves show 2 stored but skipped |
| InfiniteList.SkipMount | src/components/ShowListInfinite.tsx:30-58 | in that run the mount stores and displays show 1 and sets the cursor to 2, past the end |
| InfiniteList.SkipFetch | src/components/ShowListInfinite.tsx:71-98 | in that run the next page appends shows 2, 3 and 4 behind the cursor |
| InfiniteList.SkipReveal | src/components/ShowListInfinite.tsx:107-115 | in that run the reveal from position 2 displays shows 3 and 4 only |
| InfiniteList.SkippedShowStaysHidden | src/components/ShowListInfinite.tsx:107-115 | in that run the invariant holds and show 2 is not displayed, so it never will be |
| InfiniteList.ClampCursor | src/components/ShowListInfinite.tsx:115 | the corrected cursor never passes the end of the stored list |
| InfiniteList.InitialLoadClamped | src/components/ShowListInfinite.tsx:30-58 | the mount with the corrected cursor asks for the same page and keeps the cursor within the list |
| InfiniteList.LoadMoreShowsClamped | src/components/ShowListInfinite.tsx:100-117 | the callback with the corrected cursor asks for the same page and keeps the cursor within the list |
| InfiniteList.InitialLoadClampedCovers | src/components/ShowListInfinite.tsx:30-58 | with the corrected cursor, the mount displays exactly the shows before the cursor |
| InfiniteList.RevealClampedCovers | src/components/ShowListInfinite.tsx:107-116 | with the corrected cursor, a reveal keeps everything before the cursor displayed and moves it to the end or a full page on |
| InfiniteList.RevealInsideCovers | src/components/ShowListInfinite.tsx:107-116 | from a cursor inside the list, the corrected reveal stops at the end or a page on and displays exactly the ids before it |
| InfiniteList.AppendWindowCovers | src/components/ShowListInfinite.tsx:109-113 | if the display holds exactly the ids before position i, appending the unseen shows of [i, e) makes it hold exactly the ids before e |
| InfiniteList.LoadMoreShowsClampedCovers | src/components/ShowListInfinite.tsx:100-117 | with the corrected cursor, every callback keeps every show before the cursor displayed |
| InfiniteList.CoveredExhaustedShowsAll | src/components/ShowListInfinite.tsx:119 | with the corrected cursor, once nothing is left every stored show has been displayed |
| PagedList.InitialLoad | src/components/ShowList.tsx:19-48 | from any component state, including the one `Mount` creates (counter 0, source open, nothing in flight, not initialised): with an empty store, asks for page 0 and stores it unfiltered, or marks exhaustion on failure; otherwise asks for nothing; it always marks the view initialised |
| PagedList.InitialLoadShowsFirstPage | src/components/ShowList.tsx:26-48 | on an empty store the loaded page becomes the list, page 0 is current and in range and shows its first itemsPerPage shows, ids stay unique for a repeat-free page, and exhaustion is set exactly for an empty or failed page |
| PagedList.LoadMoreFromApi | src/components/ShowList.tsx:50-77 | the shared load step on the component's own counter and flags; only the shows in the store change |
| PagedList.TotalPages | src/components/ShowList.tsx:104 | the least number of pages holding all shows |
| PagedList.SliceBound | src/components/ShowList.tsx:107 | a non-negative index clips to the length; a negative one counts back from the end, `len + i`, and clips at 0 |
| PagedList.JsSlice | src/components/ShowList.tsx:107 | the slice has at most end-start shows and is the clipped subsequence for non-negative bounds |
| PagedList.Page | src/components/ShowList.tsx:104-107 | a page holds at most itemsPerPage shows and, for a non-negative page, is the clipped window starting at page*itemsPerPage |
| PagedList.ExistingPageNonEmpty | src/components/ShowList.tsx:104-107 | every page below the page count holds at least one show |
| PagedList.VisibleShows | src/components/ShowList.tsx:104-107 | the view renders at most itemsPerPage shows: for a non-negative page the clipped window starting at currentPage*itemsPerPage, and at least one show whenever the current page exists |
| PagedList.PageStartInside | src/components/ShowList.tsx:104-105 | an existing page starts inside the list |
| PagedList.PagesPartitionShows | src/components/ShowList.tsx:104-107 | all pages laid end to end are exactly the stored list |
| PagedList.PagesPrefix | src/components/ShowList.tsx:105-107 | the first k pages laid end to end are the first k*itemsPerPage shows, clipped |
| PagedList.PreviousPage | src/components/ShowList.tsx:109-114 | moves one page back and scrolls to the top, or does nothing at page 0 |
| PagedList.NextPage | src/components/ShowList.tsx:116-122 | moves one page forward and scrolls to the top, or does nothing on the last page |
| PagedList.GoToPage | src/components/ShowList.tsx:124-127 | sets the page unconditionally and scrolls to the top |
| PagedList.NavigationKeepsPageInRange | src/components/ShowList.tsx:109-122 | previous, next and any load keep an in-range page in range |
| PagedList.TotalPagesMonotone | src/components/ShowList.tsx:104 | more shows never make fewer pages |
| PagedList.GoToPageUnchecked | src/components/ShowList.tsx:124-127 | a jump past the last page is accepted and shows nothing although the list is not empty |
| PagedList.CheckAndLoadMore | src/components/ShowList.tsx:79-88 | asks for page apiPage+1 iff `NeedsPrefetch` holds (initialised, at most the threshold of pages follow the current one, the source is not exhausted and nothing is in flight); otherwise nothing changes |
| PagedList.CheckAndLoadMorePreserves | src/components/ShowList.tsx:79-88 | a check keeps the current page and keeps it in range, only appends to the stored list, and keeps stored ids unique when the loaded page repeats none |
| PagedList.LastPagePrefetches | src/components/ShowList.tsx:79-88 | on the last page, with a non-negative look-ahead, an initialised view with a free, unexhausted source always asks for page apiPage+1 |
| PagedList.PageChangeEffect | src/components/ShowList.tsx:96-102 | reruns the prefetch check only when the page differs from the last one seen, and records the page |
| PagedList.PageChangeEffectSettles | src/components/ShowList.tsx:96-102 | rerunning the effect without a page change fetches nothing |
| PagedList.PrefetchNearEnd | src/components/ShowList.tsx:79-107 | with 10 per page and 2 pages ahead, 20 shows give 2 pages, page 0 shows the first ten and prefetches |
| PagedList.Controls | src/components/ShowList.tsx:153-162 | the bar appears iff there are more shows than fit on one page; its buttons are the window around the store's current page over the local page count, the ends are disabled on the first and last page, and the footer shows only when the component's own source is not exhausted and not loading |
| PagedList.MoreThanOnePage | src/components/ShowList.tsx:104 | there is more than one page iff the shows overflow one page |
| PagedList.ControlsAgreeWithHandlers | src/components/Layout/Pagination.tsx:41-83 | a disabled previous/next button is exactly one whose handler would do nothing, and every reacting number button leads to another existing page |
| Pagination.MaxButtons | src/components/Layout/Pagination.tsx:29 | three buttons below 640 pixels, five otherwise |
| Pagination.ButtonWindow | src/components/Layout/Pagination.tsx:30-35 | the window lies within the existing pages, holds min(maxButtons, pages) of them, and contains the current page; it is centred on the current page, starting maxButtons/2 pages before it, except that it starts no earlier than page 0 and no later than pages-maxButtons |
| Pagination.Buttons | src/components/Layout/Pagination.tsx:37-50 | consecutive buttons over the window, each numbered page+1 and highlighted iff it is the current page |
| Pagination.ClickTarget | src/components/Layout/Pagination.tsx:41 | a click asks for its page unless it is the current page |
| Pagination.Render | src/components/Layout/Pagination.tsx:55-102 | no bar for at most one page; previous is disabled iff on page 0, next iff on the last page; the total footer appears iff more may come and nothing is loading |
| Pagination.ButtonsAroundCurrent | src/components/Layout/Pagination.tsx:27-53 | for an in-range page, min(maxButtons, pages) consecutive existing pages with exactly one highlighted |
| Status.UseStatus | src/hooks/useStatus.ts:3-18 | a known status gets its table entry, any other string the default |
| Status.DefaultExactlyForUnknown | src/hooks/useStatus.ts:6-12 | the label is "N/A" exactly for unknown strings, and the grey colour marks exactly those and "Ended" |
| Status.StatusTable | src/hooks/useStatus.ts:7-12 | the four labels, and a lower-cased or empty status gets the default |
| Markup.DropThrough | src/components/ShowDetail.tsx:27 | the remainder after the first '>' is a proper suffix built from the input's characters |
| Markup.DropThroughFirst | src/components/ShowDetail.tsx:27 | a run ends at the first '>', so what follows that '>' is kept whole |
| Markup.StripTags | src/components/ShowDetail.tsx:27 | the result is no longer than the input, uses only its characters, and holds no tag run |
| Markup.StripTagsSubsequence | src/components/ShowDetail.tsx:27 | stripping only deletes characters and keeps the rest in order |
| Markup.TagFreeUnchanged | src/components/ShowDetail.tsx:27 | text holding no tag run is returned unchanged |
| Markup.NoOpenBracketUnchanged | src/components/ShowDetail.tsx:27 | text without '<' is returned unchanged |
| Markup.StripTagsIdempotent | src/components/ShowDetail.tsx:27 | stripping twice is stripping once |
| Markup.StripRun | src/components/ShowDetail.tsx:27 | a leading run from '<' to the first '>' is deleted and the rest is stripped on its own |
| Markup.StripKeep | src/components/ShowDetail.tsx:27 | a leading character other than '<' is kept |
| Markup.StripPlainPrefix | src/components/ShowDetail.tsx:27 | text without '<' in front of anything is kept verbatim |
| Markup.StripFirstRun | src/components/ShowDetail.tsx:27 | the first run is deleted whole even when it holds further '<' characters |
| Markup.StripElement | src/components/ShowDetail.tsx:27 | an element `<tag>text</tag>` around plain text reduces to the text |
| Markup.NoCloseUnchanged | src/components/ShowDetail.tsx:27 | text without '>' is returned unchanged, so an unclosed '<' survives |
| Markup.Join | src/components/ShowDetail.tsx:32 | the join of no strings is empty and of one string is that string |
| Markup.JoinConcat | src/components/ShowDetail.tsx:32 | joining a concatenation is joining the parts around one separator |
| Detail.Synopsis | src/components/ShowDetail.tsx:25-28 | a null or empty summary gives the placeholder; otherwise the summary with every tag run removed, which is tag-free, a subsequence of the summary, and the summary itself when it has no '<' |
| Detail.MarkupOnlySummaryIsBlank | src/components/ShowDetail.tsx:25-28 | an empty element `<tag></tag>` as summary renders as "" rather than the placeholder, because the emptiness test precedes the stripping |
| Detail.FormatDays | src/components/ShowDetail.tsx:30-33 | no days give "N/A" and one day gives itself |
| Detail.FormatDaysConcat | src/components/ShowDetail.tsx:30-33 | the days of two non-empty lists render as each list's rendering joined by ", " |
| Detail.FormatDaysExample | src/components/ShowDetail.tsx:30-33 | three days render as "Monday, Wednesday, Friday" |
| Detail.Poster | src/components/ShowDetail.tsx:35 | the original URL if non-empty, else the medium one if non-empty, else no image |
| Detail.Runtime | src/components/ShowDetail.tsx:187 | the runtime if present and non-zero, else the average runtime if so, else "N/A" |
| Detail.ZeroRuntimeIsMissing | src/components/ShowDetail.tsx:187 | a zero runtime falls through exactly as a missing one |
| Detail.ScheduleTime | src/components/ShowDetail.tsx:196 | an empty time gives "N/A", any other time itself |
| Detail.GenreChips | src/components/ShowDetail.tsx:119-131 | one chip per genre, or a single "N/A" chip when there are none |
| Card.CleanSummary | src/components/ShowCard.tsx:33 | "" for a null or empty summary, else the summary with every tag run removed, which is a tag-free subsequence of it |
| Card.CleanSummaryMatchesSynopsis | src/components/ShowCard.tsx:33 | card and detail show the same text for a real summary and differ only in the placeholder |
| Card.SummaryView | src/components/ShowCard.tsx:96-109 | the block is hidden iff the clean text is empty; it is clamped iff not expanded; the toggle appears iff the text is longer than 45, with a caption that follows the expanded flag |
| Card.MarkupOnlySummaryHidden | src/components/ShowCard.tsx:33-96 | an empty element `<tag></tag>` as summary shows no block, whereas the detail page shows "" |
| Card.CardGenres | src/components/ShowCard.tsx:77-94 | the first two genres (fewer if fewer exist), or a single "N/A" |
| Card.CardGenresPrefixOfDetail | src/components/ShowCard.tsx:77-94 | the card's chips are a prefix of the detail page's |
| Card.CardImage | src/components/ShowCard.tsx:38-49 | a poster iff the medium URL is non-empty, and it is always the medium URL |
| Card.CardImageImpliesPoster | src/components/ShowCard.tsx:38 | a card poster implies a detail poster, but an original-only image has a detail poster and no card poster |
| Card.FavoriteLabel | src/components/ShowCard.tsx:19 | "Quitar de favoritos" iff `IsFavorite` holds, that is the id is in the favourites list, else "Agregar a favoritos" |
| Card.HandleClick | src/components/ShowCard.tsx:23-36 | only a body click opens the show; only the toggle flips the expanded flag; only the favourite button changes the store, by toggling the show |
| Card.FavoriteClickFlipsLabel | src/components/ShowCard.tsx:23-26 | on a repeat-free list a favourite click flips the flag and the label, keeps the list repeat-free and does not open the show |
| Card.ExpandTwiceRestores | src/components/ShowCard.tsx:28-31 | two toggle clicks leave the card and the store as they were |

## Left out

- The remote client (`src/services/api.ts`) is not part of this model. Its answer is the `FetchOutcome` oracle, and an answer is a whole page or a failure.
- Concurrency is not modelled. Each asynchronous handler runs to completion in one step, so interleavings of two handlers and stale closure values are out of scope. Within one step the in-flight guard is modelled.
- The intersection-observer hook (`useInfiniteScroll`) is not part of this model. Only its arming condition is, as `InfiniteList.Armed`.
- JSON parsing and local-storage failures are reduced to the three `Persisted` cases. A stored value that parses to something other than a number list (`null`, an object, a string) becomes the favourites value as it is in the source, not `[]`; the model has no such value and treats it as a saved id list or as unreadable.
- Signals.ToggleFavorite: always writes the slot. In the source (`src/store/signals.ts:37-38`) the write has no guard: if it throws, the in-memory list has already changed, the slot keeps its old value, and the exception leaves the transition. That failure is not modelled.
- Failed loads are logged with `console.error` (`src/components/ShowList.tsx:36`, `:72`; `src/components/ShowListInfinite.tsx:42`, `:93`). Logging has no effect on state and is left out.
- Signals.SaveScrollPosition: the offset is the browser's floating-point `window.scrollY || document.documentElement.scrollTop`. It is modelled as an integer parameter, so fractional offsets and the fallback between the two sources are not modelled.
- Timers and animation frames (`setTimeout`, `requestAnimationFrame`) and smooth scrolling are left out. The restore offset is modelled, but not when the scroll happens.
- Date rendering (`premiered`), ratings, names, networks and links of the detail page and the card are left out. They lie outside the modelled core, although several are conditional fallbacks of the same `value ? … : 'N/A'` kind as the ones modelled.
- Status.UseStatus: the source's `in` test also accepts inherited object keys such as "toString"; the model treats the table as a four-key map.
- Card.SummaryView: the 45-character threshold counts Dafny characters, whereas the source counts UTF-16 code units. These differ only for characters outside the basic plane.
- Markup.StripTags: only the regular expression `<[^>]*>` applied globally is modelled. No HTML entities are decoded.
- Detail.Runtime: `NaN`, the other falsy number, is not modelled, since integers here are mathematical.
- The dependency-driven rerun of the prefetch check in `ShowList` (lines 90-94) is not modelled on its own. Its trigger is React's dependency comparison, and each run is `PagedList.CheckAndLoadMore`.
- The view glue in `App.tsx` (selected show, the back button) is not modelled beyond what the store transitions state.
- Card.HandleClick: a click on the expand toggle is modelled even when the text is short enough that the toggle is not rendered.

## Findings

| source | as written | input that shows it | evidently intended | confidence | as-written member | corrected member |
|---|---|---|---|---|---|---|
| src/components/ShowListInfinite.tsx:37-38 | the cursor is set to a full page after the first load and advances a full page per reveal, even past the end of the stored list | itemsPerPage 2, first page holds show 1 only, next page holds shows 2, 3, 4: show 2 lands at position 1, behind the cursor, and is never displayed | the cursor clipped to the stored list length, so every stored show is eventually displayed | not executed; medium | InfiniteList.SkippedShowExample | InfiniteList.LoadMoreShowsClampedCovers |
