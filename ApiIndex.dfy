/** The serverless application's two handlers: `POST /api/video/info` answers with the
    metadata and a direct media URL, `POST /api/video/download` with the direct URL alone.
    The extraction library is not modelled: its outcome for the request's URL (a document
    or an error message) is an argument. */
module ApiIndex {
  import opened Wrappers
  import opened Metadata
  import opened Platforms
  import opened Selector
  import opened Shaping

  /** Description limit of the download handler. */
  const DownloadDescriptionLimit: nat := 200

  /** `DownloadResponse` of the serverless application. */
  datatype DownloadReply = DownloadReply(
    status: string,
    message: string,
    videoInfo: VideoInfo,
    downloadUrl: string)

  /** `get_video_information`: gate, extract, select a URL, shape the response. */
  function VideoInformation(req: VideoRequest, extraction: Result<Document, string>)
    : (r: Result<VideoInfo, ApiError>)
    ensures !IsSupportedPlatform(req.url) ==> r == Failure(ApiError(400, UnsupportedPlatform))
    ensures IsSupportedPlatform(req.url) && extraction.Failure? ==>
              r == Failure(ApiError(400, ExtractionFailed(extraction.error)))
    ensures r.Failure? ==> r.error.status == 400
    ensures r.Success? ==>
              IsSupportedPlatform(req.url) && extraction.Success?
              && r.value.downloadUrl == BestFormatUrl(extraction.value, req.quality, req.audioOnly)
              && Describes(r.value, extraction.value, InfoDescriptionLimit, true)
              && |r.value.formats| <= FormatListLimit
              && |r.value.description| <= InfoDescriptionLimit + 3
    ensures IsSupportedPlatform(req.url) && extraction.Success? ==>
              (r.Failure? <==> extraction.value.title.Null? || extraction.value.formats.Null?)
              && (r.Failure? ==> r.error == ApiError(400, InvalidMetadata))
  {
    if !IsSupportedPlatform(req.url) then Failure(ApiError(400, UnsupportedPlatform))
    else
      match extraction
      case Failure(message) => Failure(ApiError(400, ExtractionFailed(message)))
      case Success(doc) =>
        var url := BestFormatUrl(doc, req.quality, req.audioOnly);
        ShapeInfo(doc, InfoDescriptionLimit, true, url)
  }

  /** `download_video` of the serverless application: like the info handler, but a missing
      or empty URL is refused, the description is cut at 200 characters and no formats are
      listed. */
  function PrepareDownload(req: VideoRequest, extraction: Result<Document, string>)
    : (r: Result<DownloadReply, ApiError>)
    ensures !IsSupportedPlatform(req.url) ==> r == Failure(ApiError(400, UnsupportedPlatform))
    ensures IsSupportedPlatform(req.url) && extraction.Failure? ==>
              r == Failure(ApiError(400, ExtractionFailed(extraction.error)))
    ensures IsSupportedPlatform(req.url) && extraction.Success?
            && BestFormatUrl(extraction.value, req.quality, req.audioOnly) in {None, Some("")} ==>
              r == Failure(ApiError(400, NoDownloadUrl))
    ensures IsSupportedPlatform(req.url) && extraction.Success?
            && BestFormatUrl(extraction.value, req.quality, req.audioOnly) !in {None, Some("")} ==>
              (r.Failure? <==> extraction.value.title.Null?)
              && (r.Failure? ==> r.error == ApiError(400, InvalidMetadata))
    ensures r.Failure? ==> r.error.status == 400
    ensures r.Success? ==>
              IsSupportedPlatform(req.url) && extraction.Success?
              && r.value.downloadUrl != ""
              && BestFormatUrl(extraction.value, req.quality, req.audioOnly) == Some(r.value.downloadUrl)
              && r.value.videoInfo.downloadUrl == Some(r.value.downloadUrl)
              && r.value.videoInfo.formats == []
              && Describes(r.value.videoInfo, extraction.value, DownloadDescriptionLimit, false)
              && |r.value.videoInfo.description| <= DownloadDescriptionLimit + 3
              && r.value.status == "ready" && r.value.message == "Download URL ready"
  {
    if !IsSupportedPlatform(req.url) then Failure(ApiError(400, UnsupportedPlatform))
    else
      match extraction
      case Failure(message) => Failure(ApiError(400, ExtractionFailed(message)))
      case Success(doc) =>
        match BestFormatUrl(doc, req.quality, req.audioOnly)
        case None => Failure(ApiError(400, NoDownloadUrl))
        case Some(url) =>
          if url == "" then Failure(ApiError(400, NoDownloadUrl))
          else
            match ShapeInfo(doc, DownloadDescriptionLimit, false, Some(url))
            case Failure(e) => Failure(e)
            case Success(info) => Success(DownloadReply("ready", "Download URL ready", info, url))
  }

  /** When both handlers succeed on the same request and metadata, they hand out the same URL. */
  lemma HandlersAgreeOnUrl(req: VideoRequest, extraction: Result<Document, string>)
    requires VideoInformation(req, extraction).Success?
    requires PrepareDownload(req, extraction).Success?
    ensures VideoInformation(req, extraction).value.downloadUrl
            == Some(PrepareDownload(req, extraction).value.downloadUrl)
  {
  }

  /** A null format list breaks the info handler but not the download handler, which lists
      no formats. */
  lemma NullFormatsOnlyBreakInfo(req: VideoRequest, doc: Document)
    requires IsSupportedPlatform(req.url)
    requires doc.formats.Null? && doc.title.Present?
    requires doc.url.Present? && doc.url.value != ""
    ensures VideoInformation(req, Success(doc)) == Failure(ApiError(400, InvalidMetadata))
    ensures PrepareDownload(req, Success(doc)).Success?
    ensures PrepareDownload(req, Success(doc)).value.downloadUrl == doc.url.value
  {
    NoFormatsGiveTopLevelUrl(doc, req.quality, req.audioOnly);
    var url := doc.url.value;
    assert BestFormatUrl(doc, req.quality, req.audioOnly) == Some(url);
    assert ShapeInfo(doc, InfoDescriptionLimit, true, Some(url)).Failure?;
    var shaped := ShapeInfo(doc, DownloadDescriptionLimit, false, Some(url));
    assert shaped.Success?;
    assert PrepareDownload(req, Success(doc)) == Success(DownloadReply("ready", "Download URL ready", shaped.value, url));
  }
}
