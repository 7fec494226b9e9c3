/** The display fallbacks of the show detail page: synopsis text, the list
    of broadcast days, the poster URL, the runtime, the schedule time and
    the genre chips. */
module Detail {
  import opened Shows
  import Markup

  const NoSynopsis := "Sin descripción disponible"
  const NotAvailable := "N/A"

  /** A summary is missing when it is null or the empty string, both of
      which are falsy where the page tests it. */
  predicate HasText(summary: Option<string>) {
    summary.Some? && summary.value != ""
  }

  /** The synopsis paragraph: the placeholder for a missing summary, else the
      summary with its markup removed. */
  function Synopsis(summary: Option<string>): (r: string)
    ensures !HasText(summary) ==> r == NoSynopsis
    ensures HasText(summary) ==> r == Markup.StripTags(summary.value)
    ensures HasText(summary) ==> Markup.TagFree(r) && Subsequence(r, summary.value)
    ensures HasText(summary) && '<' !in summary.value ==> r == summary.value
  {
    if !HasText(summary) then NoSynopsis
    else
      Markup.StripTagsSubsequence(summary.value);
      if '<' in summary.value then Markup.StripTags(summary.value)
      else
        Markup.NoOpenBracketUnchanged(summary.value);
        Markup.StripTags(summary.value)
  }

  /** A summary made only of markup renders as the empty string, not as the
      placeholder: the placeholder test looks at the raw summary. */
  lemma MarkupOnlySummaryIsBlank(tag: string)
    requires '>' !in tag
    ensures Synopsis(Some("<" + tag + "></" + tag + ">")) == ""
  {
    var s := "<" + tag + "></" + tag + ">";
    assert s == "<" + tag + ">" + "" + "</" + tag + ">";
    assert s[0] == '<';
    Markup.StripElement(tag, "");
    assert Synopsis(Some(s)) == "";
  }

  /** The broadcast days joined by ", ", or "N/A" for an empty list. */
  function FormatDays(days: seq<string>): (r: string)
    ensures |days| == 0 ==> r == NotAvailable
    ensures |days| == 1 ==> r == days[0]
  {
    if |days| == 0 then NotAvailable else Markup.Join(days, ", ")
  }

  /** The day list of a longer schedule renders as the lists of its two parts
      joined by one more separator. */
  lemma FormatDaysConcat(a: seq<string>, b: seq<string>)
    requires |a| > 0 && |b| > 0
    ensures FormatDays(a + b) == FormatDays(a) + ", " + FormatDays(b)
  {
    Markup.JoinConcat(a, b, ", ");
  }

  lemma FormatDaysExample()
    ensures FormatDays(["Monday", "Wednesday", "Friday"]) == "Monday, Wednesday, Friday"
  {
    FormatDaysConcat(["Monday"], ["Wednesday", "Friday"]);
    FormatDaysConcat(["Wednesday"], ["Friday"]);
    assert ["Monday"] + ["Wednesday", "Friday"] == ["Monday", "Wednesday", "Friday"];
    assert ["Wednesday"] + ["Friday"] == ["Wednesday", "Friday"];
  }

  /** The poster: the original-size URL when there is one, else the medium
      URL when there is one, else no image at all. */
  function Poster(image: Option<Image>): (r: Option<string>)
    ensures r.None? <==> (image.None? || (image.value.original == "" && image.value.medium == ""))
    ensures r.Some? ==> r.value != "" && (r.value == image.value.original || r.value == image.value.medium)
    ensures image.Some? && image.value.original != "" ==> r == Some(image.value.original)
  {
    match image
    case None => None
    case Some(img) =>
      if img.original != "" then Some(img.original)
      else if img.medium != "" then Some(img.medium)
      else None
  }

  /** A runtime as displayed: a number of minutes, or "N/A". */
  datatype RuntimeText = Minutes(n: int) | RuntimeNotAvailable

  /** A runtime counts as present when it is set and not zero: zero is falsy. */
  predicate Present(minutes: Option<int>) {
    minutes.Some? && minutes.value != 0
  }

  /** The episode runtime, else the average runtime, else "N/A". */
  function Runtime(runtime: Option<int>, averageRuntime: Option<int>): (r: RuntimeText)
    ensures r.Minutes? ==> r.n != 0
    ensures Present(runtime) ==> r == Minutes(runtime.value)
    ensures !Present(runtime) && Present(averageRuntime) ==> r == Minutes(averageRuntime.value)
    ensures r == RuntimeNotAvailable <==> !Present(runtime) && !Present(averageRuntime)
  {
    if Present(runtime) then Minutes(runtime.value)
    else if Present(averageRuntime) then Minutes(averageRuntime.value)
    else RuntimeNotAvailable
  }

  /** A zero runtime falls through to the average, exactly as a missing one. */
  lemma ZeroRuntimeIsMissing(averageRuntime: Option<int>)
    ensures Runtime(Some(0), averageRuntime) == Runtime(None, averageRuntime)
  {
  }

  function ScheduleTime(time: string): (r: string)
    ensures r != ""
    ensures time != "" ==> r == time
    ensures time == "" ==> r == NotAvailable
  {
    if time == "" then NotAvailable else time
  }

  /** One chip per genre, or a single "N/A" chip when there are none. */
  function GenreChips(genres: seq<string>): (r: seq<string>)
    ensures |r| >= 1
    ensures |genres| > 0 ==> r == genres
    ensures |genres| == 0 ==> r == [NotAvailable]
  {
    if |genres| == 0 then [NotAvailable] else genres
  }
}
