/** The list card of one show: its summary block, genre chips, poster,
    favourite button, and what each kind of click does. */
module Card {
  import opened Shows
  import Signals
  import Markup
  import Detail

  /** Summaries longer than this many characters get an expand toggle. */
  const ExpandThreshold := 45

  /** The summary with its markup removed, or "" when there is none. */
  function CleanSummary(summary: Option<string>): (r: string)
    ensures !Detail.HasText(summary) ==> r == ""
    ensures Detail.HasText(summary) ==> r == Markup.StripTags(summary.value)
    ensures Detail.HasText(summary) ==> Markup.TagFree(r) && Subsequence(r, summary.value)
  {
    if !Detail.HasText(summary) then ""
    else
      Markup.StripTagsSubsequence(summary.value);
      Markup.StripTags(summary.value)
  }

  /** The card and the detail page render the same text for a real summary;
      only the placeholder for a missing one differs. */
  lemma CleanSummaryMatchesSynopsis(summary: Option<string>)
    ensures Detail.HasText(summary) ==> CleanSummary(summary) == Detail.Synopsis(summary)
    ensures !Detail.HasText(summary) ==> CleanSummary(summary) == "" && Detail.Synopsis(summary) == Detail.NoSynopsis
  {
  }

  /** The summary block: absent, or the text (clamped to two lines unless
      expanded) with, for long texts, a toggle carrying its caption. */
  datatype SummaryBlock = NoSummary | SummaryText(text: string, clamped: bool, toggle: Option<string>)

  function SummaryView(summary: Option<string>, expanded: bool): (r: SummaryBlock)
    ensures r.NoSummary? <==> CleanSummary(summary) == ""
    ensures r.SummaryText? ==> r.text == CleanSummary(summary) && (r.clamped <==> !expanded)
    ensures r.SummaryText? ==> (r.toggle.Some? <==> |r.text| > ExpandThreshold)
    ensures r.SummaryText? && r.toggle.Some? ==> r.toggle.value == (if expanded then "Ver menos" else "Ver más")
  {
    var text := CleanSummary(summary);
    if text == "" then NoSummary
    else
      var toggle := if |text| > ExpandThreshold then Some(if expanded then "Ver menos" else "Ver más") else None;
      SummaryText(text, !expanded, toggle)
  }

  /** A summary made only of markup gives no block at all. */
  lemma MarkupOnlySummaryHidden(tag: string, expanded: bool)
    requires '>' !in tag
    ensures SummaryView(Some("<" + tag + "></" + tag + ">"), expanded) == NoSummary
  {
    var s := "<" + tag + "></" + tag + ">";
    assert s == "<" + tag + ">" + "" + "</" + tag + ">";
    assert s[0] == '<';
    Markup.StripElement(tag, "");
    assert CleanSummary(Some(s)) == "";
  }

  /** The genre chips: the first two genres, or a single "N/A". */
  function CardGenres(genres: seq<string>): (r: seq<string>)
    ensures 1 <= |r| <= 2
    ensures |genres| > 0 ==> |r| == Min(2, |genres|) && r == genres[..|r|]
    ensures |genres| == 0 ==> r == [Detail.NotAvailable]
  {
    if |genres| > 0 then genres[..Min(2, |genres|)] else [Detail.NotAvailable]
  }

  /** The card's chips never exceed the detail page's and start the same way. */
  lemma CardGenresPrefixOfDetail(genres: seq<string>)
    ensures var c := CardGenres(genres); var d := Detail.GenreChips(genres);
      |c| <= |d| && c == d[..|c|]
  {
  }

  /** The card shows only the medium-size poster, never the original. */
  function CardImage(image: Option<Image>): (r: Option<string>)
    ensures r.Some? <==> image.Some? && image.value.medium != ""
    ensures r.Some? ==> r.value == image.value.medium
  {
    if image.Some? && image.value.medium != "" then Some(image.value.medium) else None
  }

  /** Whenever the card has a poster the detail page has one too, but not
      conversely: an original-only image leaves the card without a poster. */
  lemma CardImageImpliesPoster(image: Option<Image>)
    ensures CardImage(image).Some? ==> Detail.Poster(image).Some?
    ensures CardImage(Some(Image("", "o.jpg"))).None? && Detail.Poster(Some(Image("", "o.jpg"))) == Some("o.jpg")
  {
  }

  predicate IsFavorite(favorites: seq<int>, id: int) {
    id in favorites
  }

  function FavoriteLabel(favorites: seq<int>, id: int): (r: string)
    ensures r == "Quitar de favoritos" <==> IsFavorite(favorites, id)
    ensures r == "Agregar a favoritos" <==> !IsFavorite(favorites, id)
  {
    if IsFavorite(favorites, id) then "Quitar de favoritos" else "Agregar a favoritos"
  }

  /** Where on the card a click lands. */
  datatype Target = FavoriteButton | ExpandToggle | Body

  /** The store after the click, the card's expanded flag, and whether the
      click reached the card's own click handler (which opens the show). */
  datatype ClickResult = ClickResult(store: Signals.Store, expanded: bool, opensShow: bool)

  /** The two buttons stop the click from reaching the card: the favourite
      button toggles the show in the favourites, the toggle flips the card's
      expanded flag. Anywhere else the card's handler runs. */
  function HandleClick(st: Signals.Store, show: Show, expanded: bool, target: Target): (r: ClickResult)
    ensures r.opensShow <==> target == Body
    ensures r.expanded != expanded <==> target == ExpandToggle
    ensures target != FavoriteButton ==> r.store == st
    ensures target == FavoriteButton ==> r.store == Signals.ToggleFavorite(st, show.id)
  {
    match target
    case FavoriteButton => ClickResult(Signals.ToggleFavorite(st, show.id), expanded, false)
    case ExpandToggle => ClickResult(st, !expanded, false)
    case Body => ClickResult(st, expanded, true)
  }

  /** On a repeat-free favourites list, a favourite click flips the heart
      and its label, and keeps the list repeat-free. */
  lemma FavoriteClickFlipsLabel(st: Signals.Store, show: Show, expanded: bool)
    requires Signals.NoDuplicates(st.favorites)
    ensures var r := HandleClick(st, show, expanded, FavoriteButton);
      && (IsFavorite(r.store.favorites, show.id) <==> !IsFavorite(st.favorites, show.id))
      && FavoriteLabel(r.store.favorites, show.id) != FavoriteLabel(st.favorites, show.id)
      && Signals.NoDuplicates(r.store.favorites)
      && !r.opensShow
  {
    Signals.ToggleFlipsMembership(st, show.id, show.id + 1);
  }

  /** Two clicks on the toggle leave the card as it was. */
  lemma ExpandTwiceRestores(st: Signals.Store, show: Show, expanded: bool)
    ensures var once := HandleClick(st, show, expanded, ExpandToggle);
      HandleClick(once.store, show, once.expanded, ExpandToggle) == ClickResult(st, expanded, false)
  {
  }
}
