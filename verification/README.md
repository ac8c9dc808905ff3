# kuudere-api core, modelled in Dafny

kuudere-api is a small HTTP service that re-publishes an anime catalogue:
search results, episode listings and streaming sources. This project models
the three parts of it that decide something:

- **The source aggregator** (`kuudereSources`, `src/core/sources.ts`):
  - It decodes the public episode id `encodeURIComponent(animeId + "?n=" + number)` and rejects malformed ids.
  - It keeps the links of the requested track (`sub`/`dub`) that come from the `zen` server.
  - It resolves them concurrently and merges the results into one source record.
  - Every result appends a video source; intro, outro and thumbnails are write-once, and the first non-empty subtitle list wins.
- **Response shaping** (`src/helpers/format.ts`):
  - `formatSearch` splits a result's `details` on `•` into year and format.
  - `formatEpisodes` joins the episode list with the thumbnail map by numeric episode number, builds each episode id, and reverses the list.
  - `formatSources` defaults `sources` to `[]`.
- **The v1 router's decisions** (`src/routes/v1.routes.ts`): the `/sources` query schema and the global error handler that maps an error to a status.

Modules, one per file:

| file | module | contents |
|---|---|---|
| `wrappers.dfy` | `Wrappers` | `Option` and `Result` |
| `seqs.dfy` | `Seqs` | `find`/`filter`/`reverse` over sequences, first-present search, write-once cells, permutations of indices |
| `strings.dfy` | `JsString` | `includes`, `indexOf`, `split`, `trim`, `toLowerCase` over `seq<char>` |
| `numbers.dfy` | `JsNumber` | `Number(s)` and `parseInt(s, 10)` on decimal integer text |
| `errors.dfy` | `Errors` | the three kinds of error the router distinguishes |
| `format.dfy` | `Format` | `format.ts` |
| `sources.dfy` | `Sources` | `sources.ts` |
| `routes.dfy` | `Routes` | the modelled part of `v1.routes.ts` |

How the model represents things:

- **Concurrency.** JavaScript runs each callback body after an `await` to completion, so the `Promise.all` fan-in of `sources.ts` is modelled as a loop over a *completion order*: any permutation of the link indices.
  - `Sources.MergeResolutions` is that loop, with the source's accumulator variables.
  - It is proved equal to the declarative `Sources.MergeSpec`, and the properties are proved about `MergeSpec`.
  - The top-level `Sources.KuudereSources` takes the order from a `schedule` parameter that may pick any permutation.
- **Parameters.** The upstream watch response (`watch`), the link resolver (`resolve`) and percent-encoding (`uriEncode`/`uriDecode`) are parameters.
  - The lemmas about the id round trip take `uriDecode(uriEncode(s)) == Some(s)` for every `s` as a precondition.

## Model

| member | source | states |
|---|---|---|
| Sources.DecodeId | src/core/sources.ts:8-10 | A malformed percent sequence gives `URIError`; otherwise the result is the split-and-guard of the decoded text. |
| Sources.ParseDecodedId | src/core/sources.ts:8-10 | Every rejection is the `Invalid ID format.` error. On success both the anime id and the episode number are non-empty. |
| Sources.CheckPieces | src/core/sources.ts:8-10 | The destructured pair passes the guard exactly when the split gave two or more pieces and the first two are non-empty; it is then those two pieces. Every rejection is `Invalid ID format.`. |
| Sources.DecodedIdShape | src/core/sources.ts:8-10 | An id without `?n=` is rejected. On success both parts are free of `?n=`, and `animeId + "?n=" + episodeNumber` begins the decoded text. What follows is nothing or another separator. |
| Sources.SplitAtFirst | src/core/sources.ts:8 | When the text before the first `?n=` is separator-free, `split` cuts exactly there. |
| Sources.DecodeEpisodeIdRoundTrip | src/core/sources.ts:8-10 | Decoding `encodeURIComponent(animeId + "?n=" + number)` returns `(animeId, number)` when both are non-empty and free of `?n=`. |
| Sources.PublishedEpisodeIdsDecode | src/helpers/format.ts:57-73 | Every id in the `formatEpisodes` output decodes, with the aggregator's decoder, to the listing's anime id and that entry's episode number. |
| Sources.DecodeDropsAfterSecondSeparator | src/core/sources.ts:8 | Everything from a second `?n=` on is discarded: the episode number is segment 1 only. |
| Sources.EmptyAnimeIdRejected | src/core/sources.ts:10 | A decoded id that starts with `?n=` (empty anime id) is rejected with `Invalid ID format.`. |
| Sources.EmptyNumberRejected | src/core/sources.ts:10 | A decoded id that ends right after its only `?n=` (empty episode number) is rejected with `Invalid ID format.`. |
| Sources.SelectLinks | src/core/sources.ts:16-19 | Each link is kept exactly as often as it occurs if its track equals `subType` and its lower-cased server is `zen`, and dropped otherwise. The result is a subsequence of the input, so relative order is preserved. |
| Sources.ZenMatchIsCaseInsensitive | src/core/sources.ts:19 | The server test accepts exactly the three-letter spellings of `zen` in any letter case. |
| Sources.ToSubtitles | src/core/sources.ts:39-43 | One subtitle per resolver subtitle, in order, with its language as both label and language code. |
| Sources.VideoSourceOf | src/core/sources.ts:31-36 | The pushed video source has the resolved url and quality `auto`. It is HLS exactly when the url contains `.m3u8`, and dubbed exactly when the link's track is `dub`. |
| Sources.SubtitlesOf | src/core/sources.ts:38-44 | A completion only ever installs a non-empty subtitle list. |
| Sources.Merged | src/core/sources.ts:21-64 | After any completions the record holds one video source per completion and a subtitle list. Headers, download, chapters and metadata are never set. |
| Sources.MergedSnoc | src/core/sources.ts:31-64 | One more completion appends its video source and fills each field that is still unset (subtitles: still empty). It touches nothing else. |
| Sources.MergeSpec | src/core/sources.ts:27-74 | The declarative fan-in: the first failure in completion order rejects the call; otherwise all completions are merged and formatted. A success always has a subtitle list and never sets headers, download, chapters or metadata. |
| Sources.MergeResolutions | src/core/sources.ts:21-74 | The accumulator loop over the completion order yields exactly `MergeSpec`. It fails with the first failure in completion order; otherwise it returns the formatted merged record. |
| Sources.MergeOfResolved | src/core/sources.ts:27-74 | When every resolution succeeds, the call succeeds with all completions merged in completion order. |
| Sources.MergeFailsIffSomeResolutionFails | src/core/sources.ts:27-29 | The call fails exactly when some link's resolution fails. The error reported is one of those failures, and no partial result is returned. |
| Sources.MergeSourcesArePermutation | src/core/sources.ts:27-36 | With every resolution successful there is one video source per selected link. Their multiset equals that of the sources in link order, whatever the completion order. |
| Sources.MergeSourcesOrderIndependent | src/core/sources.ts:27-36 | Any two completion orders give the same multiset of video sources. |
| Sources.MergeSourcesTagged | src/core/sources.ts:31-36 | Every video source has quality `auto`. It is HLS exactly when its url contains `.m3u8`, and dubbed exactly when its link's track is `dub`. |
| Sources.MergeFirstWins | src/core/sources.ts:38-64 | Subtitles, intro, outro and thumbnails each equal the value of the first completion, in completion order, that supplies one; subtitles are `[]` when none does. Headers, download, chapters and metadata stay unset. |
| Sources.MergedNeverOverwritten | src/core/sources.ts:38-64 | Later completions never change a set intro, outro or thumbnails, or a non-empty subtitle list. The video sources so far stay a prefix. |
| Sources.EmptySubtitlesDoNotFreeze | src/core/sources.ts:38-44 | An empty subtitle list leaves the field empty, and a later non-empty list still fills it. |
| Sources.MergeOfNoLinks | src/core/sources.ts:21-25 | With no selected links the call succeeds with no sources, subtitles `[]`, and nothing else set. |
| Sources.KuudereSources | src/core/sources.ts:7-74 | A decode error is returned before the upstream is consulted. An upstream error is returned as is. Otherwise the result is `MergeSpec` over the selected links in the scheduled completion order, and every source's `isDub` matches the requested track with quality `auto`. |
| Seqs.Filter | src/core/sources.ts:18-19 | `filter` keeps each element exactly as often as it occurs when the predicate holds, and drops it otherwise, preserving order. |
| Seqs.LatchIsFirstSome | src/core/sources.ts:46-64 | A write-once variable fed values in order ends up holding the first value supplied. |
| Seqs.LatchStable | src/core/sources.ts:46-64 | Once a write-once variable holds a value, later values leave it unchanged. |
| Seqs.PermuteIsPermutation | src/core/sources.ts:27-28 | Reading a sequence in any permutation order gives the same multiset. |
| Seqs.Find | src/helpers/format.ts:58 | `find` gives the first element satisfying the predicate, or nothing exactly when none does. |
| Seqs.Reverse | src/helpers/format.ts:73 | `reverse` keeps the length and puts element `k` at position `n - 1 - k`. |
| JsString.Split | src/core/sources.ts:8 | `split` returns at least one piece and the pieces joined by the separator rebuild the text. There are two or more pieces exactly when the text contains the separator. |
| JsString.SplitPiecesFree | src/core/sources.ts:8 | No piece of a `split` contains the separator. |
| JsString.Trim | src/helpers/format.ts:16-17 | `trim` returns a contiguous part of the input with only whitespace before and after it, and no whitespace at either end of the result. |
| JsString.ToLower | src/core/sources.ts:19 | `toLowerCase` keeps the length, leaves no ASCII upper-case letter, maps each upper-case letter to its lower-case form and keeps every other character. |
| JsString.TrimIgnoresLeadingWhitespace | src/helpers/format.ts:17 | Leading whitespace does not affect the trimmed result. |
| JsString.LowerCharIs | src/core/sources.ts:19 | Lower-casing a character gives a given lower-case letter exactly when the character is that letter or its upper-case form. |
| JsNumber.NumberOf | src/helpers/format.ts:58 | `Number` of blank text is 0. Otherwise it is a number exactly when the trimmed text is an optionally signed decimal integer, and then it is that integer's value. |
| JsNumber.SameNumber | src/helpers/format.ts:58 | `Number(a) === Number(b)`: a text matches itself exactly when it is numeric, since `NaN` equals nothing. |
| JsNumber.SameNumberLeadingZero | src/helpers/format.ts:58 | The thumbnail key `"01"` matches the episode number `"1"`: leading zeros do not matter. |
| JsNumber.SameNumberIsPartialEquivalence | src/helpers/format.ts:58 | Numeric matching is symmetric and transitive, and a non-numeric value matches nothing, not even itself. |
| JsNumber.ParseInt | src/helpers/format.ts:16 | `parseInt(s, 10)` is a number exactly when, after leading whitespace and one sign, a digit follows. |
| JsNumber.ParseIntReads | src/helpers/format.ts:16 | After any leading whitespace and an optional sign, `parseInt` reads the whole digit run, leading zeros included, up to the first non-digit. The result is the run's value, negated after `-`. |
| JsNumber.ParseIntOfRendered | src/helpers/format.ts:16 | A rendered natural number followed by a non-digit parses back to itself. |
| Format.FormatSources | src/helpers/format.ts:76-88 | A missing `sources` becomes `[]` and every other field is copied. The record is unchanged exactly when `sources` was present. |
| Format.FormatSourcesIdempotent | src/helpers/format.ts:76-88 | Formatting twice equals formatting once. |
| Format.SplitOnBullet | src/helpers/format.ts:16-17 | Piece 0 of `details.split('•')` is the text before the first bullet. Piece 1 exists exactly when there is a bullet, and runs up to the next bullet. |
| Format.DetailsYear | src/helpers/format.ts:16 | `year` is `parseInt` of the trimmed text before the first bullet. |
| Format.DetailsFormat | src/helpers/format.ts:17 | `format` is absent exactly when `details` has no bullet. Otherwise it is the trimmed text between the first bullet and the next. |
| Format.DetailsYearRoundTrip | src/helpers/format.ts:16 | From `"<year> • <format>"` the year comes back. |
| Format.DetailsFormatRoundTrip | src/helpers/format.ts:17 | From `"<year> • <format>"`, with no bullet inside the format, the trimmed format comes back. |
| Format.FormatSearchResult | src/helpers/format.ts:12-18 | Title, image and id are copied from the result. `year` is `parseInt` of the trimmed text before the first bullet; `format` is absent exactly when `details` has no bullet, and otherwise is the trimmed text between the first bullet and the next. |
| Format.FormatSearch | src/helpers/format.ts:11-31 | One entry per result, in order, each formatted from the matching result. The pagination fields are copied unchanged. |
| Format.FindThumbnail | src/helpers/format.ts:58 | The thumbnail is the first entry whose key numerically equals the episode number. There is none exactly when no key matches. |
| Format.FormatEpisode | src/helpers/format.ts:60-70 | The id encodes `animeId + "?n=" + number`. `title` is the first title, or null exactly when there is none. `image` is the url of the first thumbnail whose key numerically equals the number, or null exactly when none does. The other fields are copied. |
| Format.EpisodeId | src/helpers/format.ts:61 | The public episode id is the percent-encoding of `animeId + "?n=" + number`. |
| Format.FormatEpisodes | src/helpers/format.ts:57-73 | One entry per episode, in reverse order: entry `k` comes from episode `n - 1 - k`. |
| Format.FormattedEpisodeFields | src/helpers/format.ts:60-70 | The id is the encoding of `animeId + "?n=" + number`. `title` is the first title, or null when there is none. `image` is the matched thumbnail's url, or null. The remaining fields are copied. |
| Routes.OnError | src/routes/v1.routes.ts:118-160 | Status 408 exactly for a timeout, with name and message. A non-HTTP error gives 500 with name and message. HTTP 404 gives 404 `NOT_FOUND` with the error's message and no details. HTTP 400/401/403/500 give exactly the internal-error response. Every other status gives no response. |
| Routes.InternalError | src/routes/v1.routes.ts:120-130 | The internal-error response has status 500, code `INTERNAL_SERVER_ERROR`, the fixed contact message, and the error's name and message as details. |
| Routes.InvalidIdIsInternalError | src/routes/v1.routes.ts:145-148 | `onError` maps a malformed episode id to a 500 `INTERNAL_SERVER_ERROR` carrying `Error`/`Invalid ID format.` (or the `URIError` of the decoder). |
| Routes.ParseSourcesQuery | src/routes/v1.routes.ts:104-107 | The query is accepted exactly when `id` is present and `subType` is absent, `sub` or `dub`. `id` passes unchanged and the track defaults to `sub`. |
| Routes.HandleSources | src/routes/v1.routes.ts:93-100 | A query the schema refuses is rejected. A valid query with a malformed id answers with the internal-error response. Otherwise the reply is `Found` exactly when the upstream call succeeds and `MergeSpec` over the selected links succeeds, and then it carries that record. Any other error is answered with `onError`'s response, or, when `onError` returns nothing (an upstream 429 or 502, say), the error handler gives no response (`Unhandled`) and the framework's default error reply, which is not modelled, applies. A success carries only sources of the requested track. |

## Left out

- **Upstream HTTP calls** (`kuudereApi`, `sources.ts:12-14` and `format.ts:49-53`). The watch response, the thumbnail map and the search response are inputs.
- **The Zencloud extractor** (`sources.ts:29`). It is not part of this model; its result is the `resolve` parameter.
  - Its fields follow `src/extractor/types.ts`: subtitles (url, language), the intro and outro chapters, and the thumbnails track.
- **Real concurrency.** `Promise.all` scheduling is an arbitrary completion order. Cancellation, timeouts and the callbacks still running after a rejection (their results are discarded) are not modelled.
- **Percent-encoding.** `encodeURIComponent`/`decodeURIComponent` (section 2.1 of RFC 3986 over UTF-8) are parameters. Their inverse property is a precondition, not a proof.
  - `uriDecode` returning `None` stands for the `URIError` on malformed `%` sequences; which inputs are malformed is not modelled.
  - The `URIError`'s message, `URI malformed`, is the JavaScript engine's wording. It is not part of the repository's code, and the model fixes it as a constant.
- JsNumber.NumberOf: decimals, exponents, hexadecimal, `Infinity` and floating-point rounding are not modelled. Only blank text and optionally signed decimal integers are numbers.
- JsNumber.ParseInt: the digit run is read exactly, without floating-point rounding of very long runs; `-0` is 0.
- JsString.LowerChar: lower-cases ASCII letters only. No non-ASCII character lower-cases to `z`, `e` or `n`, so the `zen` comparison is unaffected.
- **Thumbnail map order.** The map is taken as a list in the order `Object.entries` would give; that order is not modelled.
- **Field types not in the model.**
  - `score` is a `real`.
  - `headers` and `metadata` are maps of strings.
  - `download` is a string and `chapters` is a list of intro/outro markers.
  - The aggregator never sets these four fields.
- **Framework plumbing.** Not modelled: Elysia route registration and `createSuccessResponse`/`createErrorResponse` with their changes to `set`. Neither is logging of non-HTTP errors, or what the framework answers when the query schema rejects a request. When `onError` returns nothing (an upstream 429 or 502, say), the error handler gives no response and the framework's default error reply, which is not modelled, applies.
- **Hook order.** `v1.onError` is registered after the routes (`v1.routes.ts:118`). `Routes.HandleSources` assumes that Elysia applies it to errors thrown by `/sources`; whether a hook registered after a route applies to that route is framework behaviour and is not modelled.
- **Error predicates.** ky's `isTimeoutError`/`isHTTPError` become the `Timeout`/`Http`/`Other` kinds of `ApiError`. A timeout is never an HTTP error.
- **Other files.** `src/index.ts` (server start-up, CORS, catch-all 404) and the other routes are not part of this model.

Where the intended design and the code differ, the model follows the code:

- An id with a second `?n=` keeps only the text between the first two separators as the episode number (`Sources.DecodeDropsAfterSecondSeparator`). The rest is dropped, not kept as a remainder.
- The subtitle guard tests for an empty list, so an early empty list does not freeze the field, and the first *non-empty* list wins (`Sources.EmptySubtitlesDoNotFreeze`). The documented behaviour, in which an earlier empty list is kept, does not match the code.
- With no selected links, `subtitles` is `[]`, not absent (`Sources.MergeOfNoLinks`).
- A malformed id is a plain `Error`. The error handler treats it as a non-HTTP error and maps it to 500, not to a client error (`Routes.InvalidIdIsInternalError`).
