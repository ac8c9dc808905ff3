/**
 * The source aggregator (src/core/sources.ts): decode the public episode id,
 * keep the links of the wanted track on the supported server, resolve them
 * concurrently and merge the results into one source record.
 */
module Sources {
  import opened Wrappers
  import opened Seqs
  import opened JsString
  import opened Errors
  import opened Format

  /** The audio track a client asks for. */
  datatype SubType = Sub | Dub {
    /** The upstream spelling, compared with a link's `dataType`. */
    function Name(): string {
      match this
      case Sub => "sub"
      case Dub => "dub"
    }
  }

  /** A decoded public episode id. */
  datatype EpisodeRef = EpisodeRef(animeId: string, episodeNumber: string)

  /** One server-specific link of the upstream watch response (`episode_links`). */
  datatype EpisodeLink = EpisodeLink(dataType: string, serverName: string, dataLink: string)

  datatype RawSubtitle = RawSubtitle(url: string, language: string)

  /** What the link resolver returns for one link (the fields the aggregator reads). */
  datatype Extraction = Extraction(
    url: string,
    subtitles: Option<seq<RawSubtitle>>,
    introChapter: Option<IntroOutro>,
    outroChapter: Option<IntroOutro>,
    thumbnailsVtt: string)

  /** The plain `Error` thrown for a malformed id. */
  const InvalidIdError: ApiError := Other("Error", "Invalid ID format.")

  /**
   * The `URIError` `decodeURIComponent` throws on a malformed percent
   * sequence; its message is the JavaScript engine's wording.
   */
  const MalformedUriError: ApiError := Other("URIError", "URI malformed")

  // ------------------------------------------------------------- decoding

  /**
   * `const [animeId, episodeNumber] = decodeURIComponent(id).split('?n=')`
   * followed by the emptiness guard.
   */
  function DecodeId(id: string, uriDecode: string -> Option<string>): (r: Result<EpisodeRef, ApiError>)
    ensures uriDecode(id).None? ==> r == Failure(MalformedUriError)
    ensures uriDecode(id).Some? ==> r == ParseDecodedId(uriDecode(id).value)
  {
    match uriDecode(id)
    case None => Failure(MalformedUriError)
    case Some(d) => ParseDecodedId(d)
  }

  /** The split and the emptiness guard on the decoded text. */
  function ParseDecodedId(d: string): (r: Result<EpisodeRef, ApiError>)
    ensures r.Failure? ==> r.error == InvalidIdError
    ensures r.Success? ==> r.value.animeId != [] && r.value.episodeNumber != []
  {
    CheckPieces(Split(d, Separator))
  }

  /** `const [animeId, episodeNumber] = parts` and the guard: both must be present and non-empty. */
  function CheckPieces(parts: seq<string>): (r: Result<EpisodeRef, ApiError>)
    requires |parts| >= 1
    ensures r.Failure? ==> r.error == InvalidIdError
    ensures r.Success? <==> |parts| >= 2 && parts[0] != [] && parts[1] != []
    ensures r.Success? ==> r.value == EpisodeRef(parts[0], parts[1])
  {
    var animeId := parts[0];
    var episodeNumber := if |parts| >= 2 then parts[1] else [];
    if animeId == [] || episodeNumber == [] then Failure(InvalidIdError)
    else Success(EpisodeRef(animeId, episodeNumber))
  }

  /**
   * An id without the separator is rejected. On success both parts are free
   * of the separator, they begin the decoded text joined by it, and what
   * follows them is nothing or another separator.
   */
  lemma {:induction false} DecodedIdShape(d: string)
    ensures !Contains(d, Separator) ==> ParseDecodedId(d).Failure?
    ensures ParseDecodedId(d).Success? ==>
      var a, n := ParseDecodedId(d).value.animeId, ParseDecodedId(d).value.episodeNumber;
      var m := |a| + |Separator| + |n|;
      && !Contains(a, Separator) && !Contains(n, Separator)
      && a + Separator + n <= d
      && (m == |d| || OccursAt(d, Separator, m))
  {
    SplitPieces(d);
  }

  /** What the guard relies on about the first two pieces of the split. */
  lemma SplitPieces(d: string)
    ensures var parts := Split(d, Separator);
      && (!Contains(d, Separator) ==> |parts| == 1)
      && !Contains(parts[0], Separator)
      && (|parts| >= 2 ==>
            var m := |parts[0]| + |Separator| + |parts[1]|;
            && !Contains(parts[1], Separator)
            && parts[0] + Separator + parts[1] <= d
            && (m == |d| || OccursAt(d, Separator, m)))
  {
    SplitPiecesFree(d, Separator);
    if |Split(d, Separator)| >= 2 {
      JoinPrefix(Split(d, Separator), d);
    }
  }

  /** The first two pieces, with the separator between them, begin the joined text; a separator or nothing follows. */
  lemma JoinPrefix(parts: seq<string>, d: string)
    requires |parts| >= 2 && Join(parts, Separator) == d
    ensures var m := |parts[0]| + |Separator| + |parts[1]|;
      && parts[0] + Separator + parts[1] <= d
      && (m == |d| || OccursAt(d, Separator, m))
  {
    JoinFirstTwo(parts, Separator);
    var rest := if |parts| == 2 then [] else Separator + Join(parts[2..], Separator);
    PrefixThenSeparator(parts[0] + Separator + parts[1], rest, d);
  }

  lemma PrefixThenSeparator(p: string, rest: string, d: string)
    requires d == p + rest
    requires rest == [] || (|rest| >= |Separator| && rest[..|Separator|] == Separator)
    ensures p <= d
    ensures |p| == |d| || OccursAt(d, Separator, |p|)
  {
    if rest != [] {
      assert d[|p|..|p| + |Separator|] == rest[..|Separator|];
    }
  }

  /**
   * The separator cannot overlap itself (its only `?` is its first
   * character), so when the text before it is free of it, splitting starts
   * right there.
   */
  lemma SplitAtFirst(a: string, t: string)
    requires !Contains(a, Separator)
    ensures Split(a + Separator + t, Separator) == [a] + Split(t, Separator)
  {
    var s := a + Separator + t;
    assert OccursAt(s, Separator, |a|) by {
      assert s[|a|..|a| + 3] == Separator;
    }
    forall j: nat | j < |a|
      ensures !OccursAt(s, Separator, j)
    {
      if j + 3 <= |a| {
        assert s[j..j + 3] == a[j..j + 3];
        assert !OccursAt(a, Separator, j);
      } else {
        assert s[|a|] == '?';
        assert s[j..j + 3][|a| - j] == s[|a|];
      }
    }
    assert IndexOf(s, Separator) == Some(|a|);
    assert s[..|a|] == a;
    assert s[|a| + 3..] == t;
  }

  /** A text free of the separator splits into itself alone. */
  lemma SplitWithoutSeparator(n: string)
    requires !Contains(n, Separator)
    ensures Split(n, Separator) == [n]
  {
  }

  /** Decoding a published episode id gives back its anime id and episode number. */
  lemma DecodeEpisodeIdRoundTrip(animeId: string, number: string,
                                 uriEncode: string -> string, uriDecode: string -> Option<string>)
    requires forall s :: uriDecode(uriEncode(s)) == Some(s)
    requires animeId != [] && number != []
    requires !Contains(animeId, Separator) && !Contains(number, Separator)
    ensures DecodeId(EpisodeId(animeId, number, uriEncode), uriDecode) == Success(EpisodeRef(animeId, number))
  {
    SplitAtFirst(animeId, number);
    SplitWithoutSeparator(number);
  }

  /**
   * Every id the episode listing publishes decodes to the listing's anime id
   * and that episode's number, when both are non-empty and free of the separator.
   */
  lemma PublishedEpisodeIdsDecode(animeId: string, episodes: seq<Episode>, thumbnails: seq<ThumbnailEntry>,
                                  uriEncode: string -> string, uriDecode: string -> Option<string>, k: nat)
    requires forall s :: uriDecode(uriEncode(s)) == Some(s)
    requires animeId != [] && !Contains(animeId, Separator)
    requires k < |episodes|
    requires episodes[|episodes| - 1 - k].number != [] && !Contains(episodes[|episodes| - 1 - k].number, Separator)
    ensures DecodeId(FormatEpisodes(animeId, episodes, thumbnails, uriEncode)[k].id, uriDecode)
      == Success(EpisodeRef(animeId, episodes[|episodes| - 1 - k].number))
  {
    DecodeEpisodeIdRoundTrip(animeId, episodes[|episodes| - 1 - k].number, uriEncode, uriDecode);
  }

  /** Text after a second separator is dropped, not kept as part of the episode number. */
  lemma DecodeDropsAfterSecondSeparator(animeId: string, number: string, extra: string,
                                        uriEncode: string -> string, uriDecode: string -> Option<string>)
    requires forall s :: uriDecode(uriEncode(s)) == Some(s)
    requires animeId != [] && number != []
    requires !Contains(animeId, Separator) && !Contains(number, Separator)
    ensures DecodeId(EpisodeId(animeId, number + Separator + extra, uriEncode), uriDecode)
      == Success(EpisodeRef(animeId, number))
  {
    SplitAtFirst(animeId, number + Separator + extra);
    SplitAtFirst(number, extra);
  }

  /** A decoded id that starts with the separator has an empty anime id and is rejected. */
  lemma EmptyAnimeIdRejected(id: string, t: string, uriDecode: string -> Option<string>)
    requires uriDecode(id) == Some(Separator + t)
    ensures DecodeId(id, uriDecode) == Failure(InvalidIdError)
  {
    SplitAtFirst([], t);
    assert [] + Separator + t == Separator + t;
  }

  /** A decoded id that ends right after its first separator has an empty episode number and is rejected. */
  lemma EmptyNumberRejected(id: string, animeId: string, uriDecode: string -> Option<string>)
    requires !Contains(animeId, Separator)
    requires uriDecode(id) == Some(animeId + Separator)
    ensures DecodeId(id, uriDecode) == Failure(InvalidIdError)
  {
    SplitAtFirst(animeId, []);
    assert animeId + Separator + [] == animeId + Separator;
    SplitWithoutSeparator([]);
  }

  // ------------------------------------------------------------- filtering

  /** The only server whose links are resolved. */
  const ZenServer: string := "zen"

  /** A link is kept when it carries the requested track and comes from the zen server, in any letter case. */
  predicate IsSelected(link: EpisodeLink, subType: SubType) {
    link.dataType == subType.Name() && ToLower(link.serverName) == ZenServer
  }

  /** The two `filter` calls: the track filter, then the server filter. */
  function SelectLinks(links: seq<EpisodeLink>, subType: SubType): (r: seq<EpisodeLink>)
    ensures forall l :: multiset(r)[l] == if IsSelected(l, subType) then multiset(links)[l] else 0
    ensures forall k :: 0 <= k < |r| ==> IsSelected(r[k], subType)
    ensures IsSubsequence(r, links)
  {
    var byTrack := Filter(links, (l: EpisodeLink) => l.dataType == subType.Name());
    var r := Filter(byTrack, (l: EpisodeLink) => ToLower(l.serverName) == ZenServer);
    IsSubsequenceTransitive(r, byTrack, links);
    r
  }

  /** The server comparison accepts exactly the spellings of "zen" in any letter case. */
  lemma ZenMatchIsCaseInsensitive(name: string)
    ensures ToLower(name) == ZenServer <==>
      |name| == 3 && name[0] in "zZ" && name[1] in "eE" && name[2] in "nN"
  {
    LowerCharIs(if |name| > 0 then name[0] else 'z', 'z');
    LowerCharIs(if |name| > 1 then name[1] else 'e', 'e');
    LowerCharIs(if |name| > 2 then name[2] else 'n', 'n');
    if |name| == 3 {
      assert ToLower(name) == [LowerChar(name[0]), LowerChar(name[1]), LowerChar(name[2])];
    } else {
      assert |ToLower(name)| != |ZenServer|;
    }
  }

  // ---------------------------------------------------------------- merging

  /** A link together with what its resolution returned. */
  datatype Completion = Completion(link: EpisodeLink, data: Extraction)

  /** The video-source record pushed for each completed link. */
  function VideoSourceOf(c: Completion): (v: VideoSource)
    ensures v.url == c.data.url && v.quality == "auto"
    ensures v.isM3U8 <==> Contains(c.data.url, ".m3u8")
    ensures v.isDub <==> c.link.dataType == "dub"
  {
    VideoSource(c.data.url, Contains(c.data.url, ".m3u8"), "auto", c.link.dataType == "dub")
  }

  /** A resolver subtitle as published: its language serves as both label and language code. */
  function ToSubtitle(s: RawSubtitle): Subtitle {
    Subtitle(s.url, s.language, s.language)
  }

  function ToSubtitles(subs: seq<RawSubtitle>): (r: seq<Subtitle>)
    ensures |r| == |subs|
    ensures forall k :: 0 <= k < |subs| ==> r[k] == ToSubtitle(subs[k])
  {
    seq(|subs|, k requires 0 <= k < |subs| => ToSubtitle(subs[k]))
  }

  /**
   * The subtitle list a completion would install into a still-empty field:
   * only a non-empty list changes it (an empty list is installed but leaves
   * the field empty).
   */
  function SubtitlesOf(c: Completion): (r: Option<seq<Subtitle>>)
    ensures r.Some? ==> r.value != []
  {
    match c.data.subtitles
    case Some(subs) => if subs != [] then Some(ToSubtitles(subs)) else None
    case None => None
  }

  function IntroOf(c: Completion): Option<IntroOutro> {
    c.data.introChapter
  }

  function OutroOf(c: Completion): Option<IntroOutro> {
    c.data.outroChapter
  }

  /** An empty thumbnails track is falsy and never installed. */
  function ThumbnailsOf(c: Completion): Option<string> {
    if c.data.thumbnailsVtt != [] then Some(c.data.thumbnailsVtt) else None
  }

  /**
   * The record handed to `formatSources` after the completions `done`, in
   * completion order: one video source each, and every other field held by
   * a write-once cell.
   */
  function Merged(done: seq<Completion>): (m: SourceInput)
    ensures m.sources.Some? && |m.sources.value| == |done|
    ensures m.subtitles.Some?
    ensures m.headers.None? && m.download.None? && m.chapters.None? && m.metadata.None?
  {
    SourceInput(
      headers := None,
      intro := Latch(done, IntroOf),
      outro := Latch(done, OutroOf),
      sources := Some(VideoSources(done)),
      subtitles := Some(Latch(done, SubtitlesOf).GetOr([])),
      download := None,
      chapters := None,
      thumbnails := Latch(done, ThumbnailsOf),
      metadata := None)
  }

  /** The video sources pushed by the completions `done`, in completion order. */
  function VideoSources(done: seq<Completion>): (r: seq<VideoSource>)
    ensures |r| == |done|
  {
    if done == [] then [] else VideoSources(done[..|done| - 1]) + [VideoSourceOf(done[|done| - 1])]
  }

  /** The resolutions of `links`, in the order given. */
  function Outcomes(links: seq<EpisodeLink>, resolve: string -> Result<Extraction, ApiError>): (r: seq<Result<Extraction, ApiError>>)
    ensures |r| == |links|
    ensures forall k :: 0 <= k < |links| ==> r[k] == resolve(links[k].dataLink)
  {
    seq(|links|, k requires 0 <= k < |links| => resolve(links[k].dataLink))
  }

  predicate IsFailure(o: Result<Extraction, ApiError>) {
    o.Failure?
  }

  /**
   * The fan-in when the links complete in the order `order` (a permutation
   * of their indices): the first failure in completion order rejects the
   * whole call; otherwise every completion is merged.
   */
  function MergeSpec(links: seq<EpisodeLink>, order: seq<nat>, resolve: string -> Result<Extraction, ApiError>): (r: Result<Source, ApiError>)
    requires IsPermutationOf(order, |links|)
    ensures r.Success? ==> r.value.subtitles.Some?
    ensures r.Success? ==> r.value.headers.None? && r.value.download.None? && r.value.chapters.None? && r.value.metadata.None?
  {
    var ordered := Permute(links, order);
    var outcomes := Outcomes(ordered, resolve);
    match FirstIndex(outcomes, IsFailure)
    case Some(k) => Failure(outcomes[k].error)
    case None =>
      Success(FormatSources(Merged(seq(|ordered|, k requires 0 <= k < |ordered| => Completion(ordered[k], outcomes[k].value)))))
  }

  /**
   * One more completion changes the merged record exactly as one callback
   * body does: it appends a video source and fills each field that is
   * still unset (for subtitles: still empty).
   */
  lemma MergedSnoc(done: seq<Completion>, c: Completion)
    ensures var m, m2 := Merged(done), Merged(done + [c]);
      && m2.sources == Some(m.sources.value + [VideoSourceOf(c)])
      && m2.subtitles ==
         (if |m.subtitles.value| == 0 && c.data.subtitles.Some? then Some(ToSubtitles(c.data.subtitles.value))
          else m.subtitles)
      && m2.intro == (if m.intro.None? && c.data.introChapter.Some? then c.data.introChapter else m.intro)
      && m2.outro == (if m.outro.None? && c.data.outroChapter.Some? then c.data.outroChapter else m.outro)
      && m2.thumbnails == (if m.thumbnails.None? && c.data.thumbnailsVtt != [] then Some(c.data.thumbnailsVtt) else m.thumbnails)
      && m2.headers.None? && m2.download.None? && m2.chapters.None? && m2.metadata.None?
  {
    var done2 := done + [c];
    assert done2[..|done|] == done && done2[|done|] == c;
    LatchIsFirstSome(done, SubtitlesOf);
  }

  /**
   * The `Promise.all` fan-in of sources.ts:21-74, run as a loop over the
   * completion order: each callback body runs to completion before the next
   * one starts, so one iteration is one callback.
   */
  method MergeResolutions(links: seq<EpisodeLink>, order: seq<nat>, resolve: string -> Result<Extraction, ApiError>)
    returns (r: Result<Source, ApiError>)
    requires IsPermutationOf(order, |links|)
    ensures r == MergeSpec(links, order, resolve)
  {
    ghost var ordered := Permute(links, order);
    ghost var outcomes := Outcomes(ordered, resolve);
    var videoSources: seq<VideoSource> := [];
    var subtitles: seq<Subtitle> := [];
    var intro: Option<IntroOutro> := None;
    var outro: Option<IntroOutro> := None;
    var thumbnails: Option<string> := None;
    ghost var done: seq<Completion> := [];
    var i := 0;
    while i < |order|
      invariant 0 <= i <= |order|
      invariant |done| == i
      invariant forall k :: 0 <= k < i ==> done[k].link == links[order[k]]
      invariant forall k :: 0 <= k < i ==> resolve(links[order[k]].dataLink) == Success(done[k].data)
      invariant Merged(done) == SourceInput(None, intro, outro, Some(videoSources), Some(subtitles), None, None, thumbnails, None)
    {
      var link := links[order[i]];
      var outcome := resolve(link.dataLink);
      assert link == ordered[i] && outcome == outcomes[i];
      if outcome.Failure? {
        FirstIndexIs(outcomes, IsFailure, i);
        return Failure(outcome.error);
      }
      var c := Completion(link, outcome.value);
      MergedSnoc(done, c);
      videoSources := videoSources + [VideoSourceOf(c)];
      if |subtitles| == 0 && c.data.subtitles.Some? {
        subtitles := ToSubtitles(c.data.subtitles.value);
      }
      if intro.None? && c.data.introChapter.Some? {
        intro := c.data.introChapter;
      }
      if outro.None? && c.data.outroChapter.Some? {
        outro := c.data.outroChapter;
      }
      if thumbnails.None? && c.data.thumbnailsVtt != [] {
        thumbnails := Some(c.data.thumbnailsVtt);
      }
      done := done + [c];
      i := i + 1;
    }
    assert FirstIndex(outcomes, IsFailure).None?;
    assert done == seq(|ordered|, k requires 0 <= k < |ordered| => Completion(ordered[k], outcomes[k].value));
    r := Success(FormatSources(SourceInput(None, intro, outro, Some(videoSources), Some(subtitles), None, None, thumbnails, None)));
  }

  // ------------------------------------------------- properties of the merge

  /** Every resolution of the links succeeds. */
  predicate AllResolved(links: seq<EpisodeLink>, resolve: string -> Result<Extraction, ApiError>) {
    forall i :: 0 <= i < |links| ==> resolve(links[i].dataLink).Success?
  }

  /** The completions, in the order `order` names the links. */
  function CompletionOrder(links: seq<EpisodeLink>, order: seq<nat>, resolve: string -> Result<Extraction, ApiError>): (done: seq<Completion>)
    requires IsPermutationOf(order, |links|) && AllResolved(links, resolve)
    ensures |done| == |order|
    ensures forall k :: 0 <= k < |order| ==>
      done[k].link == links[order[k]] && Success(done[k].data) == resolve(links[order[k]].dataLink)
  {
    seq(|order|, k requires 0 <= k < |order| => Completion(links[order[k]], resolve(links[order[k]].dataLink).value))
  }

  /** The video sources in link order, as if every link completed in turn. */
  function SourcesInLinkOrder(links: seq<EpisodeLink>, resolve: string -> Result<Extraction, ApiError>): (r: seq<VideoSource>)
    requires AllResolved(links, resolve)
    ensures |r| == |links|
  {
    seq(|links|, i requires 0 <= i < |links| => VideoSourceOf(Completion(links[i], resolve(links[i].dataLink).value)))
  }

  /** The k-th video source is the one pushed by the k-th completion. */
  lemma {:induction false} VideoSourcesAt(done: seq<Completion>)
    ensures forall k :: 0 <= k < |done| ==> VideoSources(done)[k] == VideoSourceOf(done[k])
    decreases |done|
  {
    if done != [] {
      VideoSourcesAt(done[..|done| - 1]);
    }
  }

  /** When every resolution succeeds, the merge succeeds with the completions merged in completion order. */
  lemma MergeOfResolved(links: seq<EpisodeLink>, order: seq<nat>, resolve: string -> Result<Extraction, ApiError>)
    requires IsPermutationOf(order, |links|) && AllResolved(links, resolve)
    ensures MergeSpec(links, order, resolve) == Success(FormatSources(Merged(CompletionOrder(links, order, resolve))))
  {
    var ordered := Permute(links, order);
    var outcomes := Outcomes(ordered, resolve);
    assert forall k :: 0 <= k < |outcomes| ==> outcomes[k] == resolve(links[order[k]].dataLink);
    assert FirstIndex(outcomes, IsFailure).None?;
    assert seq(|ordered|, k requires 0 <= k < |ordered| => Completion(ordered[k], outcomes[k].value))
        == CompletionOrder(links, order, resolve);
  }

  /**
   * The whole call fails exactly when some link's resolution fails, and the
   * error it reports is one of those failures; no partial result escapes.
   */
  lemma MergeFailsIffSomeResolutionFails(links: seq<EpisodeLink>, order: seq<nat>, resolve: string -> Result<Extraction, ApiError>)
    requires IsPermutationOf(order, |links|)
    ensures MergeSpec(links, order, resolve).Failure? <==> !AllResolved(links, resolve)
    ensures MergeSpec(links, order, resolve).Failure? ==>
      exists i :: 0 <= i < |links| && resolve(links[i].dataLink) == Failure(MergeSpec(links, order, resolve).error)
  {
    var ordered := Permute(links, order);
    var outcomes := Outcomes(ordered, resolve);
    assert forall k :: 0 <= k < |outcomes| ==> outcomes[k] == resolve(links[order[k]].dataLink);
    if AllResolved(links, resolve) {
      MergeOfResolved(links, order, resolve);
    } else {
      var i :| 0 <= i < |links| && resolve(links[i].dataLink).Failure?;
      PermutationCovers(order, |links|, i);
      var k :| 0 <= k < |order| && order[k] == i;
      assert IsFailure(outcomes[k]);
      var f := FirstIndex(outcomes, IsFailure).value;
      assert resolve(links[order[f]].dataLink) == Failure(MergeSpec(links, order, resolve).error);
    }
  }

  /**
   * With every resolution successful there is one video source per link,
   * and the multiset of sources does not depend on the completion order.
   */
  lemma MergeSourcesArePermutation(links: seq<EpisodeLink>, order: seq<nat>, resolve: string -> Result<Extraction, ApiError>)
    requires IsPermutationOf(order, |links|) && AllResolved(links, resolve)
    ensures MergeSpec(links, order, resolve).Success?
    ensures |MergeSpec(links, order, resolve).value.sources| == |links|
    ensures multiset(MergeSpec(links, order, resolve).value.sources) == multiset(SourcesInLinkOrder(links, resolve))
  {
    MergeOfResolved(links, order, resolve);
    PermutationLength(order, |links|);
    var done := CompletionOrder(links, order, resolve);
    VideoSourcesAt(done);
    var inLinkOrder := SourcesInLinkOrder(links, resolve);
    assert VideoSources(done) == Permute(inLinkOrder, order);
    PermuteIsPermutation(inLinkOrder, order);
  }

  /** Two completion orders yield the same multiset of video sources. */
  lemma MergeSourcesOrderIndependent(links: seq<EpisodeLink>, order1: seq<nat>, order2: seq<nat>,
                                     resolve: string -> Result<Extraction, ApiError>)
    requires IsPermutationOf(order1, |links|) && IsPermutationOf(order2, |links|)
    requires AllResolved(links, resolve)
    ensures MergeSpec(links, order1, resolve).Success? && MergeSpec(links, order2, resolve).Success?
    ensures multiset(MergeSpec(links, order1, resolve).value.sources) == multiset(MergeSpec(links, order2, resolve).value.sources)
  {
    MergeSourcesArePermutation(links, order1, resolve);
    MergeSourcesArePermutation(links, order2, resolve);
  }

  /**
   * Every video source has quality "auto", is marked HLS exactly when its
   * url mentions ".m3u8", and is marked dubbed exactly when its link's
   * track is "dub".
   */
  lemma MergeSourcesTagged(links: seq<EpisodeLink>, order: seq<nat>, resolve: string -> Result<Extraction, ApiError>)
    requires IsPermutationOf(order, |links|)
    ensures var r := MergeSpec(links, order, resolve);
      r.Success? ==> forall k :: 0 <= k < |r.value.sources| ==>
        && r.value.sources[k].quality == "auto"
        && (r.value.sources[k].isM3U8 <==> Contains(r.value.sources[k].url, ".m3u8"))
        && (r.value.sources[k].isDub <==> links[order[k]].dataType == "dub")
  {
    MergeFailsIffSomeResolutionFails(links, order, resolve);
    if AllResolved(links, resolve) {
      MergeOfResolved(links, order, resolve);
      VideoSourcesAt(CompletionOrder(links, order, resolve));
    }
  }

  /**
   * Subtitles, intro, outro and thumbnails each come from the first
   * completion, in completion order, that supplies them (subtitles: a
   * non-empty list, mapped; `[]` when none does); the other fields stay unset.
   */
  lemma MergeFirstWins(links: seq<EpisodeLink>, order: seq<nat>, resolve: string -> Result<Extraction, ApiError>)
    requires IsPermutationOf(order, |links|) && AllResolved(links, resolve)
    ensures var r, done := MergeSpec(links, order, resolve), CompletionOrder(links, order, resolve);
      && r.Success?
      && r.value.subtitles == Some(FirstSome(done, SubtitlesOf).GetOr([]))
      && r.value.intro == FirstSome(done, IntroOf)
      && r.value.outro == FirstSome(done, OutroOf)
      && r.value.thumbnails == FirstSome(done, ThumbnailsOf)
      && r.value.headers.None? && r.value.download.None? && r.value.chapters.None? && r.value.metadata.None?
  {
    MergeOfResolved(links, order, resolve);
    var done := CompletionOrder(links, order, resolve);
    LatchIsFirstSome(done, SubtitlesOf);
    LatchIsFirstSome(done, IntroOf);
    LatchIsFirstSome(done, OutroOf);
    LatchIsFirstSome(done, ThumbnailsOf);
  }

  /**
   * Later completions never overwrite a field that is set: intro, outro,
   * thumbnails and a non-empty subtitle list keep their value, and the
   * video sources so far stay a prefix.
   */
  lemma MergedNeverOverwritten(done: seq<Completion>, more: seq<Completion>)
    ensures var m, m2 := Merged(done), Merged(done + more);
      && (m.intro.Some? ==> m2.intro == m.intro)
      && (m.outro.Some? ==> m2.outro == m.outro)
      && (m.thumbnails.Some? ==> m2.thumbnails == m.thumbnails)
      && (m.subtitles.value != [] ==> m2.subtitles == m.subtitles)
      && m.sources.value <= m2.sources.value
  {
    var m := Merged(done);
    if m.subtitles.value != [] { LatchStable(done, more, SubtitlesOf); }
    if m.intro.Some? { LatchStable(done, more, IntroOf); }
    if m.outro.Some? { LatchStable(done, more, OutroOf); }
    if m.thumbnails.Some? { LatchStable(done, more, ThumbnailsOf); }
    VideoSourcesPrefix(done, more);
  }

  lemma VideoSourcesPrefix(done: seq<Completion>, more: seq<Completion>)
    ensures VideoSources(done) <= VideoSources(done + more)
  {
    VideoSourcesAt(done);
    VideoSourcesAt(done + more);
    assert forall k :: 0 <= k < |done| ==> (done + more)[k] == done[k];
  }

  /**
   * A completion with an empty subtitle list does not freeze the field: a
   * later completion with a non-empty list still fills it.
   */
  lemma EmptySubtitlesDoNotFreeze(done: seq<Completion>, c: Completion, later: Completion)
    requires Merged(done).subtitles == Some([])
    requires c.data.subtitles == Some([])
    requires later.data.subtitles.Some? && later.data.subtitles.value != []
    ensures Merged(done + [c]).subtitles == Some([])
    ensures Merged(done + [c, later]).subtitles == Some(ToSubtitles(later.data.subtitles.value))
  {
    MergedSnoc(done, c);
    MergedSnoc(done + [c], later);
    assert done + [c] + [later] == done + [c, later];
  }

  /** With no links the call succeeds with no sources, an empty subtitle list and nothing else set. */
  lemma MergeOfNoLinks(order: seq<nat>, resolve: string -> Result<Extraction, ApiError>)
    requires IsPermutationOf(order, 0)
    ensures MergeSpec([], order, resolve) == Success(Source(None, None, None, [], Some([]), None, None, None, None))
  {
    PermutationLength(order, 0);
    MergeOfResolved([], order, resolve);
  }

  // ---------------------------------------------------------------- the call

  /**
   * `kuudereSources(id, subType)`: decode the id, fetch the watch response
   * (`watch`), keep the selected links, and merge their resolutions
   * (`resolve`) in the completion order `schedule` picks for them.
   */
  method KuudereSources(id: string, subType: SubType, uriDecode: string -> Option<string>,
                        watch: EpisodeRef -> Result<seq<EpisodeLink>, ApiError>,
                        resolve: string -> Result<Extraction, ApiError>,
                        schedule: seq<EpisodeLink> -> seq<nat>)
    returns (r: Result<Source, ApiError>)
    requires forall links :: IsPermutationOf(schedule(links), |links|)
    ensures DecodeId(id, uriDecode).Failure? ==> r == Failure(DecodeId(id, uriDecode).error)
    ensures DecodeId(id, uriDecode).Success? && watch(DecodeId(id, uriDecode).value).Failure? ==>
      r == Failure(watch(DecodeId(id, uriDecode).value).error)
    ensures DecodeId(id, uriDecode).Success? && watch(DecodeId(id, uriDecode).value).Success? ==>
      var links := SelectLinks(watch(DecodeId(id, uriDecode).value).value, subType);
      r == MergeSpec(links, schedule(links), resolve)
    ensures r.Success? ==> forall k :: 0 <= k < |r.value.sources| ==>
      r.value.sources[k].isDub == (subType == Dub) && r.value.sources[k].quality == "auto"
  {
    var decoded := DecodeId(id, uriDecode);
    if decoded.Failure? {
      return Failure(decoded.error);
    }
    var response := watch(decoded.value);
    if response.Failure? {
      return Failure(response.error);
    }
    var links := SelectLinks(response.value, subType);
    var order := schedule(links);
    SelectedSourcesTagged(links, order, resolve, subType);
    r := MergeResolutions(links, order, resolve);
  }

  /** Merging selected links yields only sources of the requested track, all of quality "auto". */
  lemma SelectedSourcesTagged(links: seq<EpisodeLink>, order: seq<nat>,
                              resolve: string -> Result<Extraction, ApiError>, subType: SubType)
    requires IsPermutationOf(order, |links|)
    requires forall k :: 0 <= k < |links| ==> IsSelected(links[k], subType)
    ensures var r := MergeSpec(links, order, resolve);
      r.Success? ==> forall k :: 0 <= k < |r.value.sources| ==>
        r.value.sources[k].isDub == (subType == Dub) && r.value.sources[k].quality == "auto"
  {
    MergeSourcesTagged(links, order, resolve);
  }
}
