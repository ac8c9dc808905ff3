/**
 * Response shaping (src/helpers/format.ts): search results, the episode
 * listing joined with its thumbnails, and the defaulting of a source record.
 */
module Format {
  import opened Wrappers
  import opened Seqs
  import opened JsString
  import opened JsNumber

  // ---------------------------------------------------------------- sources

  /** An intro or outro marker, in seconds. */
  datatype IntroOutro = IntroOutro(start: int, end: int)

  /** A subtitle track; `labelText` is the source's `label` field (`label` is a Dafny keyword). */
  datatype Subtitle = Subtitle(url: string, labelText: string, srcLang: string)

  datatype VideoSource = VideoSource(url: string, isM3U8: bool, quality: string, isDub: bool)

  /** `Partial<Source>`: every field may be missing. */
  datatype SourceInput = SourceInput(
    headers: Option<map<string, string>>,
    intro: Option<IntroOutro>,
    outro: Option<IntroOutro>,
    sources: Option<seq<VideoSource>>,
    subtitles: Option<seq<Subtitle>>,
    download: Option<string>,
    chapters: Option<seq<IntroOutro>>,
    thumbnails: Option<string>,
    metadata: Option<map<string, string>>)

  /** `Source`: the published record, in which `sources` is always present. */
  datatype Source = Source(
    headers: Option<map<string, string>>,
    intro: Option<IntroOutro>,
    outro: Option<IntroOutro>,
    sources: seq<VideoSource>,
    subtitles: Option<seq<Subtitle>>,
    download: Option<string>,
    chapters: Option<seq<IntroOutro>>,
    thumbnails: Option<string>,
    metadata: Option<map<string, string>>)

  /** A `Source` seen as a `Partial<Source>`. */
  function AsInput(s: Source): SourceInput {
    SourceInput(s.headers, s.intro, s.outro, Some(s.sources), s.subtitles,
      s.download, s.chapters, s.thumbnails, s.metadata)
  }

  /** `formatSources`: a missing `sources` becomes `[]`; every other field is copied. */
  function FormatSources(input: SourceInput): (r: Source)
    ensures AsInput(r) == input.(sources := Some(r.sources))
    ensures input.sources.None? ==> r.sources == []
    ensures AsInput(r) == input <==> input.sources.Some?
  {
    Source(input.headers, input.intro, input.outro, input.sources.GetOr([]),
      input.subtitles, input.download, input.chapters, input.thumbnails, input.metadata)
  }

  /** Formatting an already formatted record changes nothing. */
  lemma FormatSourcesIdempotent(input: SourceInput)
    ensures FormatSources(AsInput(FormatSources(input))) == FormatSources(input)
  {
  }

  // ----------------------------------------------------------------- search

  datatype SearchResult = SearchResult(title: string, coverImage: string, id: string, details: string)

  datatype SearchResponse = SearchResponse(
    results: seq<SearchResult>, hasMore: bool, total: int, displayed: int)

  datatype SearchAnime = SearchAnime(
    title: string, image: string, id: string, year: Option<int>, format: Option<string>)

  datatype SearchPagination = SearchPagination(hasMore: bool, total: int, displayed: int)

  datatype SearchPage = SearchPage(pagination: SearchPagination, results: seq<SearchAnime>)

  /** The separator between the year and the format in a result's `details`. */
  const Bullet: string := "\U{2022}"

  /** `details` up to its first bullet, or all of it. */
  function FirstSegment(details: string): string {
    match IndexOf(details, Bullet)
    case None => details
    case Some(i) => details[..i]
  }

  /** `details` between its first and second bullet (or its end); `None` without a bullet. */
  function SecondSegment(details: string): Option<string> {
    match IndexOf(details, Bullet)
    case None => None
    case Some(i) =>
      var rest := details[i + 1..];
      Some(match IndexOf(rest, Bullet) case None => rest case Some(j) => rest[..j])
  }

  /** The first two pieces of `split('\u2022')` are the two segments above. */
  lemma SplitOnBullet(details: string)
    ensures Split(details, Bullet)[0] == FirstSegment(details)
    ensures |Split(details, Bullet)| >= 2 <==> SecondSegment(details).Some?
    ensures |Split(details, Bullet)| >= 2 ==> Split(details, Bullet)[1] == SecondSegment(details).value
  {
    match IndexOf(details, Bullet)
    case None =>
    case Some(i) =>
      var rest := details[i + |Bullet|..];
      assert Split(details, Bullet) == [details[..i]] + Split(rest, Bullet);
      match IndexOf(rest, Bullet)
      case None =>
        assert Split(rest, Bullet) == [rest];
      case Some(j) =>
        assert Split(rest, Bullet)[0] == rest[..j];
  }

  /** `year`: `parseInt` of the trimmed text before the first bullet; `None` is `NaN`. */
  function DetailsYear(details: string): (y: Option<int>)
    ensures y == ParseInt(Trim(FirstSegment(details)))
  {
    SplitOnBullet(details);
    ParseInt(Trim(Split(details, Bullet)[0]))
  }

  /** `format`: the trimmed text after the first bullet, up to the next one; absent without a bullet. */
  function DetailsFormat(details: string): (f: Option<string>)
    ensures f.None? <==> '\U{2022}' !in details
    ensures f.Some? <==> SecondSegment(details).Some?
    ensures f.Some? ==> f.value == Trim(SecondSegment(details).value)
  {
    SplitOnBullet(details);
    ContainsChar(details, '\U{2022}');
    var parts := Split(details, Bullet);
    if |parts| >= 2 then Some(Trim(parts[1])) else None
  }

  /** One search result: title, cover image and id copied; year and format read from `details`. */
  function FormatSearchResult(result: SearchResult): (a: SearchAnime)
    ensures a.title == result.title && a.image == result.coverImage && a.id == result.id
    ensures a.year == ParseInt(Trim(FirstSegment(result.details)))
    ensures a.format.None? <==> '\U{2022}' !in result.details
    ensures a.format.Some? ==>
      SecondSegment(result.details).Some? && a.format.value == Trim(SecondSegment(result.details).value)
  {
    SearchAnime(result.title, result.coverImage, result.id,
      DetailsYear(result.details), DetailsFormat(result.details))
  }

  /** `formatSearch`: one formatted entry per result, in order; the pagination fields are copied. */
  function FormatSearch(response: SearchResponse): (page: SearchPage)
    ensures |page.results| == |response.results|
    ensures forall k :: 0 <= k < |page.results| ==>
      page.results[k] == FormatSearchResult(response.results[k])
    ensures page.pagination ==
      SearchPagination(response.hasMore, response.total, response.displayed)
  {
    var results := response.results;
    SearchPage(
      SearchPagination(response.hasMore, response.total, response.displayed),
      seq(|results|, k requires 0 <= k < |results| => FormatSearchResult(results[k])))
  }

  /** In "<digits> \u2022 <format>" the first bullet is the one after the digits and a space. */
  lemma FirstBulletAfterYear(digits: string, fmt: string)
    requires AllDigits(digits)
    ensures IndexOf(digits + " \U{2022} " + fmt, Bullet) == Some(|digits| + 1)
  {
    var n := |digits|;
    var d := digits + " \U{2022} " + fmt;
    assert OccursAt(d, Bullet, n + 1) by {
      assert d[n + 1..n + 2] == Bullet;
    }
    forall j: nat | j < n + 1
      ensures !OccursAt(d, Bullet, j)
    {
      assert d[j] == if j < n then digits[j] else ' ';
      assert j + 1 <= |d| && d[j..j + 1][0] == d[j];
    }
  }

  lemma FirstSegmentOfRendered(digits: string, fmt: string)
    requires AllDigits(digits)
    ensures FirstSegment(digits + " \U{2022} " + fmt) == digits + [' ']
  {
    var d := digits + " \U{2022} " + fmt;
    FirstBulletAfterYear(digits, fmt);
    assert d[..|digits| + 1] == digits + [' '] by {
      assert forall k :: 0 <= k < |digits| ==> d[k] == digits[k];
      assert d[|digits|] == ' ';
    }
  }

  /** A `details` text of the form "<year> \u2022 <format>" yields that year. */
  lemma DetailsYearRoundTrip(year: nat, fmt: string)
    ensures DetailsYear(ShowNat(year) + " \U{2022} " + fmt) == Some(year)
  {
    YearSegmentOfRendered(year, fmt);
    ParseIntOfRendered(year, []);
    assert ShowNat(year) + [] == ShowNat(year);
  }

  /** The trimmed text before the first bullet of "<year> \u2022 <format>" is the rendered year. */
  lemma YearSegmentOfRendered(year: nat, fmt: string)
    ensures Trim(FirstSegment(ShowNat(year) + " \U{2022} " + fmt)) == ShowNat(year)
  {
    var digits := ShowNat(year);
    FirstSegmentOfRendered(digits, fmt);
    assert IsDigit(digits[0]) && IsDigit(digits[|digits| - 1]);
    TrimDropsTrailingWhitespace(digits, ' ');
  }

  /** A `details` text of the form "<year> \u2022 <format>" without a second bullet yields the trimmed format. */
  lemma DetailsFormatRoundTrip(year: nat, fmt: string)
    requires '\U{2022}' !in fmt
    ensures DetailsFormat(ShowNat(year) + " \U{2022} " + fmt) == Some(Trim(fmt))
  {
    var digits := ShowNat(year);
    var n := |digits|;
    var d := digits + " \U{2022} " + fmt;
    FirstBulletAfterYear(digits, fmt);
    var rest := d[n + 2..];
    assert rest == [' '] + fmt;
    ContainsChar(rest, '\U{2022}');
    assert SecondSegment(d) == Some(rest);
    TrimIgnoresLeadingWhitespace([' '], fmt);
  }

  // --------------------------------------------------------------- episodes

  /** One entry of the upstream episode listing (`all_episodes`). */
  datatype Episode = Episode(
    number: string, titles: seq<string>, filler: bool, recap: bool,
    aired: string, score: real, ago: string)

  /** One `[number, url]` pair of the thumbnail map, in the order `Object.entries` gives. */
  datatype ThumbnailEntry = ThumbnailEntry(number: string, url: string)

  datatype FormattedEpisode = FormattedEpisode(
    id: string, title: Option<string>, image: Option<string>, number: string,
    isFiller: bool, isRecap: bool, aired: string, score: real, ago: string)

  /** The separator between the anime id and the episode number in a public episode id. */
  const Separator: string := "?n="

  /** The public episode id: the percent-encoding of `animeId + "?n=" + number`. */
  function EpisodeId(animeId: string, number: string, uriEncode: string -> string): string {
    uriEncode(animeId + Separator + number)
  }

  /** The thumbnail `find` picks: the first entry whose number is numerically equal to `number`. */
  function FindThumbnail(thumbnails: seq<ThumbnailEntry>, number: string): (t: Option<ThumbnailEntry>)
    ensures t.None? <==> forall i :: 0 <= i < |thumbnails| ==> !SameNumber(thumbnails[i].number, number)
    ensures t.Some? ==> exists i :: (0 <= i < |thumbnails| && thumbnails[i] == t.value
      && SameNumber(thumbnails[i].number, number)
      && forall j :: 0 <= j < i ==> !SameNumber(thumbnails[j].number, number))
  {
    Find(thumbnails, (e: ThumbnailEntry) => SameNumber(e.number, number))
  }

  /** The mapping applied to each episode. */
  function FormatEpisode(animeId: string, episode: Episode, thumbnails: seq<ThumbnailEntry>,
                         uriEncode: string -> string): (r: FormattedEpisode)
    ensures r.id == uriEncode(animeId + "?n=" + episode.number)
    ensures r.title.None? <==> episode.titles == []
    ensures r.title.Some? ==> r.title.value == episode.titles[0]
    ensures r.image.None? <==> forall i :: 0 <= i < |thumbnails| ==> !SameNumber(thumbnails[i].number, episode.number)
    ensures r.image.Some? ==> exists i :: (0 <= i < |thumbnails| && r.image.value == thumbnails[i].url
      && SameNumber(thumbnails[i].number, episode.number)
      && forall j :: 0 <= j < i ==> !SameNumber(thumbnails[j].number, episode.number))
    ensures r.number == episode.number && r.isFiller == episode.filler && r.isRecap == episode.recap
    ensures r.aired == episode.aired && r.score == episode.score && r.ago == episode.ago
  {
    FormattedEpisode(
      EpisodeId(animeId, episode.number, uriEncode),
      if |episode.titles| > 0 then Some(episode.titles[0]) else None,
      match FindThumbnail(thumbnails, episode.number) case Some(t) => Some(t.url) case None => None,
      episode.number, episode.filler, episode.recap, episode.aired, episode.score, episode.ago)
  }

  /**
   * `formatEpisodes` once the thumbnail map has been fetched: every episode
   * mapped, then the list reversed.
   */
  function FormatEpisodes(animeId: string, episodes: seq<Episode>, thumbnails: seq<ThumbnailEntry>,
                          uriEncode: string -> string): (r: seq<FormattedEpisode>)
    ensures |r| == |episodes|
    ensures forall k :: 0 <= k < |r| ==>
      r[k] == FormatEpisode(animeId, episodes[|episodes| - 1 - k], thumbnails, uriEncode)
  {
    Reverse(seq(|episodes|, i requires 0 <= i < |episodes| =>
      FormatEpisode(animeId, episodes[i], thumbnails, uriEncode)))
  }

  /** What each published episode holds, read from the episode it came from. */
  lemma FormattedEpisodeFields(animeId: string, episodes: seq<Episode>, thumbnails: seq<ThumbnailEntry>,
                               uriEncode: string -> string, k: nat)
    requires k < |episodes|
    ensures var e := episodes[|episodes| - 1 - k];
      var r := FormatEpisodes(animeId, episodes, thumbnails, uriEncode)[k];
      && r.id == uriEncode(animeId + "?n=" + e.number)
      && r.number == e.number && r.isFiller == e.filler && r.isRecap == e.recap
      && r.aired == e.aired && r.score == e.score && r.ago == e.ago
      && (r.title.None? <==> e.titles == [])
      && (r.title.Some? ==> r.title.value == e.titles[0])
      && (r.image.None? <==> forall i :: 0 <= i < |thumbnails| ==> !SameNumber(thumbnails[i].number, e.number))
      && (r.image.Some? ==> exists i :: (0 <= i < |thumbnails| && r.image.value == thumbnails[i].url
           && SameNumber(thumbnails[i].number, e.number)
           && forall j :: 0 <= j < i ==> !SameNumber(thumbnails[j].number, e.number)))
  {
  }
}
