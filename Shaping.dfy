/** What both applications send back: the request record, the error record, and the
    `VideoInfo` response built from a metadata document (title and uploader defaults, the
    truncated description, the short list of format summaries). */
module Shaping {
  import opened Wrappers
  import opened Metadata

  /** `VideoDownloadRequest`: the URL, the quality preference and the audio-only flag. */
  datatype VideoRequest = VideoRequest(url: string, quality: string, audioOnly: bool)

  /** Why a request was refused. */
  datatype Reason =
    | UnsupportedPlatform
    | ExtractionFailed(message: string)
    | InvalidMetadata
    | NoDownloadUrl
    | DownloadNotFound
    | FileNotFound
    | NoFileToDelete

  /** An `HTTPException`: a status code and the cause behind its detail text. */
  datatype ApiError = ApiError(status: int, reason: Reason)

  /** The six keys the info endpoints copy out of each format record. */
  datatype FormatSummary = FormatSummary(
    formatId: Option<string>,
    ext: Option<string>,
    quality: Option<real>,
    height: Option<int>,
    width: Option<int>,
    filesize: Option<int>)

  /** The `VideoInfo` response; `downloadUrl` is always None where the response model has no
      such field. */
  datatype VideoInfo = VideoInfo(
    title: string,
    duration: Option<int>,
    thumbnail: Option<string>,
    uploader: Option<string>,
    viewCount: Option<int>,
    description: string,
    formats: seq<FormatSummary>,
    downloadUrl: Option<string>)

  /** Description limit of the info handlers of both applications. */
  const InfoDescriptionLimit: nat := 500

  /** At most this many format summaries are returned. */
  const FormatListLimit: nat := 10

  /** Python's `s[:n]` for a non-negative `n`. */
  function Prefix<T>(s: seq<T>, n: nat): (r: seq<T>)
    ensures r <= s
    ensures |s| <= n ==> r == s
    ensures n < |s| ==> |r| == n
  {
    if |s| <= n then s else s[..n]
  }

  /** `d[:limit] + "..." if d else ""` for the `description` key: empty when the key is
      missing, null or empty; otherwise the first `limit` characters followed by `...`,
      which is appended even when nothing was cut. */
  function TruncatedDescription(d: Field<string>, limit: nat): (r: string)
    ensures r == "" <==> !(d.Present? && d.value != "")
    ensures d.Present? && d.value != "" ==>
              3 <= |r| <= limit + 3 && r[|r| - 3..] == "..." && r[..|r| - 3] <= d.value
    ensures d.Present? && d.value != "" && |d.value| <= limit ==> r == d.value + "..."
    ensures d.Present? && limit < |d.value| ==> |r| == limit + 3
  {
    match d
    case Present(s) =>
      if s != "" then
        var cut := Prefix(s, limit);
        assert (cut + "...")[..|cut|] == cut;
        cut + "..."
      else ""
    case _ => ""
  }

  /** The summary of one format record. */
  function Summarize(f: Format): FormatSummary
  {
    FormatSummary(f.formatId, f.ext, f.quality, f.height, f.width, f.filesize)
  }

  /** `[summary(f) for f in info.get("formats", [])[:limit]]`; None where slicing a null list
      raises. */
  function FormatList(formats: Field<seq<Format>>, limit: nat): (r: Option<seq<FormatSummary>>)
    ensures r.None? <==> formats.Null?
    ensures formats.Absent? ==> r == Some([])
    ensures formats.Present? ==>
              r.Some? && |r.value| <= limit
              && (|formats.value| <= limit ==> |r.value| == |formats.value|)
              && (limit < |formats.value| ==> |r.value| == limit)
              && forall i :: 0 <= i < |r.value| ==> r.value[i] == Summarize(formats.value[i])
  {
    match formats
    case Absent => Some([])
    case Null => None
    case Present(fs) =>
      var kept := Prefix(fs, limit);
      Some(seq(|kept|, i requires 0 <= i < |kept| => Summarize(kept[i])))
  }

  /** `info.get("uploader") or info.get("channel", "Unknown")`: a missing, null or empty
      uploader gives way to the channel, and only a missing channel to `Unknown`. */
  function Uploader(doc: Document): (r: Option<string>)
    ensures doc.uploader.Present? && doc.uploader.value != "" ==> r == Some(doc.uploader.value)
    ensures !(doc.uploader.Present? && doc.uploader.value != "") ==>
              (doc.channel.Present? ==> r == Some(doc.channel.value))
              && (doc.channel.Absent? ==> r == Some("Unknown"))
              && (doc.channel.Null? ==> r == None)
  {
    if doc.uploader.Present? && doc.uploader.value != "" then Some(doc.uploader.value)
    else GetOr(doc.channel, "Unknown")
  }

  /** `info` carries what the handlers copy out of `doc`: the title (`Unknown` when the key is
      missing), the description cut at `descLimit`, the uploader rule, the duration, thumbnail
      and view count as given, and either the first format summaries or none. */
  predicate Describes(info: VideoInfo, doc: Document, descLimit: nat, withFormats: bool)
  {
    (doc.title.Present? ==> info.title == doc.title.value)
    && (doc.title.Absent? ==> info.title == "Unknown")
    && info.description == TruncatedDescription(doc.description, descLimit)
    && info.uploader == Uploader(doc)
    && info.duration == Get(doc.duration)
    && info.thumbnail == Get(doc.thumbnail)
    && info.viewCount == Get(doc.viewCount)
    && (withFormats ==> Some(info.formats) == FormatList(doc.formats, FormatListLimit))
    && (!withFormats ==> info.formats == [])
  }

  /** The `VideoInfo` built from a document. Building fails (and the handler answers 400)
      exactly when the title is null, which the response model rejects, or when the format
      list is requested but null. */
  function ShapeInfo(doc: Document, descLimit: nat, withFormats: bool, downloadUrl: Option<string>)
    : (r: Result<VideoInfo, ApiError>)
    ensures r.Failure? <==> doc.title.Null? || (withFormats && doc.formats.Null?)
    ensures r.Failure? ==> r.error == ApiError(400, InvalidMetadata)
    ensures r.Success? && doc.title.Present? ==> r.value.title == doc.title.value
    ensures r.Success? && doc.title.Absent? ==> r.value.title == "Unknown"
    ensures r.Success? ==>
              r.value.description == TruncatedDescription(doc.description, descLimit)
              && r.value.uploader == Uploader(doc)
              && r.value.duration == Get(doc.duration)
              && r.value.thumbnail == Get(doc.thumbnail)
              && r.value.viewCount == Get(doc.viewCount)
              && r.value.downloadUrl == downloadUrl
              && (withFormats ==> Some(r.value.formats) == FormatList(doc.formats, FormatListLimit))
              && (!withFormats ==> r.value.formats == [])
  {
    var formats := if withFormats then FormatList(doc.formats, FormatListLimit) else Some([]);
    match GetOr(doc.title, "Unknown")
    case None => Failure(ApiError(400, InvalidMetadata))
    case Some(title) =>
      if formats.None? then Failure(ApiError(400, InvalidMetadata))
      else
        Success(VideoInfo(title, Get(doc.duration), Get(doc.thumbnail), Uploader(doc),
                          Get(doc.viewCount), TruncatedDescription(doc.description, descLimit),
                          formats.value, downloadUrl))
  }
}
