# Social media video downloader — a verified model of its core

The repository is a small web API that takes the URL of a video on a social media site,
asks a media-extraction library for the video's metadata, and either hands back a direct
media URL (the serverless application, `api/index.py`) or downloads the file on the server
and tracks the download in an in-memory status store (the server application, `main.py`).

This Dafny project models the parts of both applications that make decisions:

- the **platform allow-list** (`is_supported_platform`, identical in both files): a URL is
  accepted when one of eleven domains occurs as a substring of its lower-cased network
  location (`Strings`, `Urls`, `Platforms`);
- the **format selector** (`get_best_format_url`): the pure-audio track with the largest
  bitrate for audio-only requests, otherwise the tallest, the shortest, the tallest under a
  numeric cap, or the first video-eligible format, falling back to the document's top-level
  URL (`Metadata`, `Ranking`, `Selector`);
- the **response shaping** of the info and download handlers: title and uploader defaults,
  the description cut at 500 or 200 characters with `...` appended, the first ten format
  summaries (`Shaping`, `ApiIndex`, `MainApp.VideoInformation`);
- the server application's **download-status store** and background task: a record is
  stored as queued, marked downloading, then completed (with the served file path, title,
  duration and size) or failed (with an error); the status handler reads it and the delete
  handler removes the file and the record (`DownloadTask`, `MainApp.DownloadStore`).

The extraction library, the clock, the file system and the identifier generator are not
called: their outcomes are arguments (the metadata document or the error message, the
directory listing in the order it is returned, a map from full path to file size, the fresh
download id). The metadata document is a typed record: top-level keys are `Field`s that
distinguish a missing key from a null value (the source's `d.get(k, default)` treats them
differently), while the keys of a format record are `Option`s because every use treats
missing and null alike.

Python's `sorted` is modelled by a stable insertion sort and `max` by a left fold that keeps
the first maximum; the selection lemmas state the result against independent definitions
over the original format list ("the earliest eligible format whose height is the largest"),
so ties are resolved as in the source.

### Behaviour worth noting

- The code's audio-only branch has no second candidate set: when no pure-audio format exists
  it falls through to the video branch, instead of trying any format that carries audio.
  `Selector.AudioWithoutPureAudioIsVideoRequest` states this.
- The video branch has no fallback to "all formats with a URL" when no format is
  video-eligible: the top-level URL is returned.
- With a numeric quality and no video-eligible format under the cap, the code returns the
  top-level URL, not the first format of the unfiltered eligible list
  (`Selector.CapPicksFirstTallestWithin`, second postcondition).
- Only the server application (`main.py`) keeps a download-status store and runs a
  background task; the serverless application hands out the direct URL instead.
- `get_video_info` (api/index.py:52-66, main.py:62-75) makes one extraction attempt; any
  failure becomes a 400 answer carrying the error text.

## Model

| member | source | states |
|---|---|---|
| `Wrappers.Get` | api/index.py:152-155 | `d.get(k)`: no contract of its own; `Shaping.ShapeInfo` and `Selector.NoFormatsGiveTopLevelUrl` state how a missing and a null key read |
| `Wrappers.GetOr` | api/index.py:151-154 | `d.get(k, default)`: no contract of its own; `Shaping.Uploader` and `Shaping.ShapeInfo` state that only a missing key takes the default |
| `Wrappers.Stored` | main.py:128 | `info.get("duration")` written into the record: no contract of its own; `DownloadTask.TaskOutcome` states the stored duration |
| `Strings.ToLower` | api/index.py:77 | `str.lower()` on ASCII: same length, no capital letter left, every other character unchanged |
| `Strings.ReplaceAll` | main.py:241 | `str.replace`: no contract of its own; `Strings.ReplaceAllWithoutOccurrence` and `Strings.StripLeadingPattern` state what the delete handler relies on |
| `Strings.Contains` | api/index.py:79 | `d in host` holds exactly when `d` starts at some position of `host` |
| `Strings.ParseInt` | api/index.py:104 | `int(quality)` succeeds exactly on an optional minus followed by one to 4300 decimal digits (the default `sys.get_int_max_str_digits()`) |
| `Strings.ParseDigits` | api/index.py:104 | a run of digits, with or without a leading minus, parses to its value (negated after a minus) when at most 4300 long, and is refused otherwise |
| `Strings.OverlongDigitsRefused` | api/index.py:104-108 | a run of more than 4300 digits, with or without a minus, is refused, so the selector takes the non-numeric branch |
| `Strings.ParseShowRoundTrip` | api/index.py:104 | `int(str(n)) == n` for every integer of at most 4300 digits; longer decimal forms are refused |
| `Strings.LowerForgetsCase` | api/index.py:77 | lower-casing an upper-cased string gives the lower-cased string; lower-casing is idempotent |
| `Strings.ReplaceAllWithoutOccurrence` | main.py:241 | `replace` leaves a string in which the pattern never occurs unchanged |
| `Strings.StripLeadingPattern` | main.py:241 | replacing the prefix `pat` away from `pat + name` gives `name` when `name` lacks a character of `pat` |
| `Strings.TakeUntil` | api/index.py:76 | the result is the longest prefix free of stop characters: a prefix, stop-free, and followed by a stop or the end |
| `Strings.IndexOf` | api/index.py:76 | the first position of a character, or -1 when it is absent |
| `Urls.AfterScheme` | api/index.py:76 | removing a recognised `scheme:` leaves a suffix of the URL |
| `Urls.Netloc` | api/index.py:76 | the network location holds no `/`, `?` or `#` and is a prefix of what follows the `//` after the scheme; empty when there is no `//` |
| `Urls.NetlocOfAbsoluteUrl` | api/index.py:76-77 | for `scheme://host` followed by a path, query, fragment or nothing, the parsed network location is exactly `host` |
| `Platforms.AnyDomainIn` | api/index.py:79 | true exactly when some listed domain occurs in the host |
| `Platforms.IsSupportedPlatform` | api/index.py:68-79 | a URL is accepted iff one of the eleven domains is a substring of its lower-cased network location (`main.py:77-88` is the same function) |
| `Platforms.OnlyHostDecides` | api/index.py:76-79 | scheme, path, query and fragment play no part: the verdict is the host test on the lower-cased host |
| `Platforms.CaseInsensitive` | api/index.py:77 | capitalising the host never changes the verdict |
| `Platforms.HostContainingDomainAccepted` | api/index.py:70-79 | any host containing a listed domain, with anything around it and in any case, is accepted |
| `Platforms.LookalikeHostAccepted` | api/index.py:79 | `https://dropbox.com/...` is accepted because it contains `x.com` |
| `Platforms.MobileSubdomainAccepted` | api/index.py:79 | `https://m.youtube.com/watch?v=1` is accepted |
| `Platforms.UnlistedHostRefused` | api/index.py:79 | `https://example.com` is refused |
| `Platforms.NoDomainInExample` | api/index.py:70-74 | none of the eleven domains occurs in `example.com` |
| `Metadata.HeightKey` | api/index.py:99 | `height or 0`: no contract of its own; `Ranking.SortIsSorted`, `Ranking.SortHeadDescending` and `Ranking.SortHeadAscending` state the order it induces |
| `Metadata.AbrKey` | api/index.py:92 | `abr or 0`: no contract of its own; `Ranking.MaxByAbrIsFirstMax` states the choice it drives |
| `Metadata.IsPureAudio` | api/index.py:90 | an audio codec and no video codec; a pure-audio format is never video-eligible |
| `Metadata.IsVideo` | api/index.py:96 | `vcodec != 'none'`, a missing codec counting as eligible: no contract of its own; the `Selector` lemmas state the formats it admits |
| `Metadata.FormatsOf` | api/index.py:83-85 | `info.get('formats', [])` as a truth value: no contract of its own; `Selector.NoFormatsGiveTopLevelUrl` states the missing, null and empty cases |
| `Ranking.Filter` | api/index.py:90 | a list comprehension keeps exactly the entries that pass, and no more than there were |
| `Ranking.FilterNonEmpty` | api/index.py:91 | a filtered list is non-empty iff some entry passes |
| `Ranking.FilterTwice` | api/index.py:105 | filtering the video formats by the cap equals one filter by both conditions |
| `Ranking.LiftFirstMax` | api/index.py:90-92 | the first maximum of a filtered list is the earliest kept entry of the original list with the largest rank |
| `Ranking.LiftFirstMin` | api/index.py:96-99 | the same for the first minimum |
| `Ranking.LiftFirstKept` | api/index.py:96 | the head of a filtered list is the earliest kept entry of the original list |
| `Ranking.Insert` | api/index.py:99 | insertion adds exactly one element (as a multiset) |
| `Ranking.SortByHeight` | api/index.py:99-101 | sorting by height is a permutation |
| `Ranking.SortIsSorted` | api/index.py:99-101 | the sorted list is ordered by height, ascending or descending |
| `Ranking.SortHeadDescending` | api/index.py:101 | the head of the descending sort is the first tallest entry (stability) |
| `Ranking.SortHeadAscending` | api/index.py:99 | the head of the ascending sort is the first shortest entry (stability) |
| `Ranking.MaxAbrFrom` | api/index.py:92 | the left fold returns the starting entry or one of the rest, with a bitrate at least as large as every entry's |
| `Ranking.MaxByAbr` | api/index.py:92 | `max(..., key=abr or 0)` returns a listed entry whose bitrate no entry exceeds |
| `Ranking.MaxAbrFromIsFirstMax` | api/index.py:92 | the left fold that replaces only on a strictly larger bitrate returns the first maximum |
| `Ranking.MaxByAbrIsFirstMax` | api/index.py:92 | `max(..., key=abr or 0)` returns the first entry with the largest bitrate |
| `Selector.BestFormatUrl` | api/index.py:81-113 | `get_best_format_url`: no contract of its own; the `Selector` lemmas below state each branch against independent definitions |
| `Selector.WithinCap` | api/index.py:105 | `(f.get('height') or 0) <= max_height`: no contract of its own; `Selector.CapPicksFirstTallestWithin` states the formats it admits |
| `Selector.NoFormatsGiveTopLevelUrl` | api/index.py:83-86 | an empty, missing or null format list yields the top-level `url` |
| `Selector.AudioPicksFirstLoudest` | api/index.py:88-93 | audio-only with pure audio present returns the URL of the earliest pure-audio format with the largest bitrate (missing = 0) |
| `Selector.AudioWithoutPureAudioIsVideoRequest` | api/index.py:88-96 | audio-only without pure audio gives exactly the video request's answer |
| `Selector.BestPicksFirstTallest` | api/index.py:100-113 | `best` returns the earliest video-eligible format of largest height, or the top-level URL when none is eligible |
| `Selector.WorstPicksFirstShortest` | api/index.py:98-99 | `worst` returns the earliest video-eligible format of smallest height, or the top-level URL when none is eligible |
| `Selector.CapPicksFirstTallestWithin` | api/index.py:102-106 | a numeric cap returns the earliest tallest eligible format not above the cap; with none under the cap, the top-level URL |
| `Selector.OtherQualityPicksFirstVideo` | api/index.py:107-108 | any other quality returns the first video-eligible format in list order |
| `Selector.ChoiceComesFromDocument` | api/index.py:81-113 | the result is always the top-level URL or the URL of a listed format |
| `Selector.ParseExampleCaps` | api/index.py:104 | `480` and `240` parse to their values |
| `Selector.ExampleAudioOnly` | api/index.py:88-93 | worked case: the 160 kbit/s track beats the 128 kbit/s track and the video |
| `Selector.ExampleBest` | api/index.py:100-101 | worked case: `best` takes a muted 720p video over a 360p one with sound |
| `Selector.ExampleWorst` | api/index.py:98-99 | worked case: `worst` takes the 360p video; audio tracks of height 0 are not eligible |
| `Selector.ExampleCap480` | api/index.py:102-106 | worked case: a cap of 480 takes the 360p video |
| `Selector.ExampleCap240` | api/index.py:102-113 | worked case: a cap of 240 admits nothing and returns the top-level URL |
| `Shaping.Prefix` | api/index.py:156 | `s[:n]` is a prefix of `s`, all of `s` when short enough, else exactly `n` long |
| `Shaping.TruncatedDescription` | api/index.py:156 | empty iff the description is missing, null or empty; otherwise at most `limit` characters of it followed by `...`, appended even when nothing was cut |
| `Shaping.Summarize` | api/index.py:157-164 | the six keys of one format: no contract of its own; `Shaping.FormatList` states that the i-th summary is that of the i-th format |
| `Shaping.FormatList` | api/index.py:157-164 | null formats fail; missing formats give `[]`; otherwise the first `min(10, n)` formats, the i-th summary describing the i-th format |
| `Shaping.Uploader` | api/index.py:154 | a non-empty uploader wins; otherwise the channel (even empty), `Unknown` when the channel key is missing, null when it is null |
| `Shaping.ShapeInfo` | api/index.py:150-166 | building the response fails exactly when the title is null or the listed formats are null; title defaults to `Unknown`; every field as the handler computes it |
| `ApiIndex.VideoInformation` | api/index.py:136-168 | unsupported URL → 400 before extraction; extraction error → 400 with its message; on success the selected URL, the title (`Unknown` when missing), the description cut at 500 with `...`, the uploader rule, the first ten format summaries; after a successful extraction, 400 exactly when the title or the format list is null |
| `ApiIndex.PrepareDownload` | api/index.py:170-206 | unsupported → 400; extraction error → 400; missing or empty URL → 400; on success `ready`, the non-empty selected URL in both places, the title, uploader and other fields as copied, the description cut at 200, no formats; with a usable URL, 400 exactly when the title is null |
| `ApiIndex.HandlersAgreeOnUrl` | api/index.py:148 | when both handlers succeed on the same request and metadata, they return the same URL |
| `ApiIndex.NullFormatsOnlyBreakInfo` | api/index.py:164 | a null format list fails the info handler but the download handler still returns the top-level URL |
| `DownloadTask.PathJoin` | main.py:97 | `os.path.join`: ends with the second part; an absolute second part replaces the first, otherwise the first part is kept as prefix |
| `DownloadTask.JoinIntoDownloads` | main.py:123 | a relative name lands at `/workspace/downloads/<name>` |
| `DownloadTask.FormatSelector` | main.py:102-115 | the format string: no contract of its own; `DownloadTask.SelectorKeepsQuality` and `DownloadTask.SelectorInjective` state it |
| `DownloadTask.CapOf` | main.py:115 | reading a cap back: a recovered cap rebuilds the selector string |
| `DownloadTask.SelectorKeepsQuality` | main.py:102-115 | audio-only gives `bestaudio/best`; `best`/`worst` map to themselves; any other quality is recovered from `best[height<=Q]` |
| `DownloadTask.SelectorInjective` | main.py:109-115 | different qualities of a video request give different selector strings |
| `DownloadTask.OptionsFor` | main.py:96-115 | output template under the downloads directory prefixed by the id; the selector; the mp3/192 post-processor exactly for audio-only |
| `DownloadTask.QueuedJob` | main.py:186-191 | a new record is queued with the request's URL, quality and flag, and nothing else set |
| `DownloadTask.FirstWithPrefix` | main.py:121-122 | the earliest listed name starting with the id, or none iff no listed name does |
| `Strings.Repr` | main.py:137 | `repr` of a file path: double quotes exactly when the text holds a single quote and no double quote, single quotes otherwise, at least two characters |
| `Strings.ReprPlain` | main.py:137 | text without quotes or backslashes is shown between single quotes unchanged |
| `Strings.ReprWithApostrophe` | main.py:137 | text with a single quote and no double quote or backslash is shown between double quotes unchanged |
| `DownloadTask.MissingFileMessage` | main.py:129-137 | `str(e)` of the error `os.path.getsize` raises, the path shown by `repr`: no contract of its own; `DownloadTask.MissingFileQuoting` states the text and `DownloadTask.TaskOutcome` that a listed file with no size fails the record with it |
| `DownloadTask.MissingFileQuoting` | main.py:121-137 | for a listed name, the stored error names `/workspace/downloads/<name>` in double quotes when the name holds `'` (a title such as "Don't"), in single quotes when it holds no quote |
| `DownloadTask.TaskOutcome` | main.py:117-137 | completed iff extraction succeeded, a listed file starts with the id and its size can be read; then served path, size, duration, title (default `Unknown`); otherwise failed with the extraction error, the not-found message or the `getsize` error text; a failed record keeps its path, title, duration and size, a completed one its error; request fields kept |
| `DownloadTask.OutcomeWellFormed` | main.py:121-133 | every outcome is well formed: a completed record names a served file and its size, a failed one an error |
| `DownloadTask.DeleteTargetsRecordedFile` | main.py:241-242 | for a stored path `/downloads/<name>`, the delete handler targets `/workspace/downloads/<name>`, the file the background task measured |
| `DownloadTask.DeleteTarget` | main.py:241-242 | the path the delete handler removes: no contract of its own; `DownloadTask.DeleteTargetsRecordedFile` and `DownloadTask.DeleteTargetOfServedPath` state it |
| `DownloadTask.DeleteTargetOfServedPath` | main.py:240-242 | the same, stated on any well-formed stored path |
| `MainApp.VideoInformation` | main.py:144-172 | unsupported → 400 before extraction; extraction error → 400; on success no direct URL, the title (`Unknown` when missing), the description cut at 500 with `...`, the uploader rule, the first ten format summaries; after a successful extraction, 400 exactly when the title or the format list is null |
| `MainApp.DownloadStore.constructor` | main.py:60 | the store starts empty |
| `MainApp.DownloadStore.StartDownload` | main.py:174-206 | unsupported → 400 and the store unchanged; otherwise a queued record under the fresh id, every other record unchanged, reply `queued` with the id |
| `MainApp.DownloadStore.Status` | main.py:208-214 | the stored record for a known id, 404 otherwise; reading changes nothing |
| `MainApp.DownloadStore.MarkDownloading` | main.py:93 | only the record's status changes, to downloading |
| `MainApp.DownloadStore.FinishDownload` | main.py:117-137 | only the record changes, to the background task's outcome; the store stays well formed |
| `MainApp.DownloadStore.RunDownloadTask` | main.py:90-137 | the options handed to the library, and the record replaced by the outcome of a downloading record |
| `MainApp.DownloadStore.DeleteDownload` | main.py:233-251 | unknown → 404; not completed → 400; completed with the file present → file removed and record deleted; file gone → 404 and the record kept |
| `MainApp.DownloadLifecycle` | main.py:174-251 | start, run, status and delete compose: queued, then completed with path and size, then the file and the record are gone and the id is unknown |

## Left out

- The web framework: routing, CORS, static files, the HTML page, `/api/platforms`, `/health`, the `/api/video/proxy/{id}` streaming proxy (an HTTP client call), and the `api/plain.py` and `api/ping.py` entry points.
- Request validation by the `HttpUrl` type: the URL is taken as the text the handler sees; its normalisation and rejection of malformed URLs are not modelled, nor a `quality` or `audio_only` sent as null.
- Response validation: of the response model's checks only the rejection of a null title is modelled; a fractional `duration` or values of unexpected types are not.
- The extraction library and the download itself: their outcome is an argument; the detail texts of the errors are reduced to their cause and status code.
- `urlparse`: stripping of whitespace and control characters, bracketed IPv6 hosts and the errors they raise are not modelled; user information and ports stay in the network location, as in the library.
- `str.lower()` and `int()`: ASCII letters and digits only; `int()` accepting surrounding whitespace, a `+` sign or `_` separators is not modelled. The 4300-digit limit is modelled at its default value; a limit changed at run time is not.
- `Strings.Repr`: models `repr` for printable text only; the escapes of control and non-printable characters are not modelled, nor the bytes form of a path.
- Concurrency: the background task runs after the response as one sequence of steps on the store; interleavings with other requests are not modelled.
- The file system: the listing and the file sizes are arguments; a failing `os.listdir`, a directory at the deleted path and a failing `os.remove` are not modelled. Listed names contain no `/`, which the background task's methods require.
- `MainApp.DownloadStore.RunDownloadTask`: requires the record to exist, which its only caller guarantees; the source's handling of a missing record (an error raised again inside its own handler) is not modelled.
- The identifier generator: the fresh id is an argument; a colliding id overwrites the earlier record, as the map update states.
- The quiet and no-warning options passed to the extraction library.
