/** The server application: its info handler and the in-memory download-status store that
    the download, status and delete handlers and the background task share. Identifiers,
    the extraction outcome and the file system are arguments. */
module MainApp {
  import opened Wrappers
  import opened Metadata
  import opened Platforms
  import opened Shaping
  import opened DownloadTask

  /** `get_video_information` of the server application: no direct URL is selected. */
  function VideoInformation(req: VideoRequest, extraction: Result<Document, string>)
    : (r: Result<VideoInfo, ApiError>)
    ensures !IsSupportedPlatform(req.url) ==> r == Failure(ApiError(400, UnsupportedPlatform))
    ensures IsSupportedPlatform(req.url) && extraction.Failure? ==>
              r == Failure(ApiError(400, ExtractionFailed(extraction.error)))
    ensures r.Failure? ==> r.error.status == 400
    ensures r.Success? ==>
              IsSupportedPlatform(req.url) && extraction.Success?
              && r.value.downloadUrl == None
              && Describes(r.value, extraction.value, InfoDescriptionLimit, true)
              && |r.value.formats| <= FormatListLimit
              && |r.value.description| <= InfoDescriptionLimit + 3
    ensures IsSupportedPlatform(req.url) && extraction.Success? ==>
              (r.Failure? <==> extraction.value.title.Null? || extraction.value.formats.Null?)
              && (r.Failure? ==> r.error == ApiError(400, InvalidMetadata))
  {
    if !IsSupportedPlatform(req.url) then Failure(ApiError(400, UnsupportedPlatform))
    else
      match extraction
      case Failure(message) => Failure(ApiError(400, ExtractionFailed(message)))
      case Success(doc) => ShapeInfo(doc, InfoDescriptionLimit, true, None)
  }

  /** The answer to a download request that was accepted. */
  datatype StartReply = StartReply(status: string, downloadId: string, message: string)

  /** `download_status`: every download ever started, by id, until it is deleted. */
  class DownloadStore {
    var jobs: map<string, Job>

    ghost predicate Valid()
      reads this
    {
      forall id :: id in jobs ==> WellFormed(jobs[id])
    }

    constructor()
      ensures Valid() && jobs == map[]
    {
      jobs := map[];
    }

    /** `download_video`: an unsupported URL is refused before anything is stored; otherwise
        a queued record is stored under the fresh id and the id is returned. */
    method StartDownload(req: VideoRequest, freshId: string) returns (r: Result<StartReply, ApiError>)
      requires Valid()
      modifies this
      ensures Valid()
      ensures !IsSupportedPlatform(req.url) ==>
                r == Failure(ApiError(400, UnsupportedPlatform)) && jobs == old(jobs)
      ensures IsSupportedPlatform(req.url) ==>
                r == Success(StartReply("queued", freshId, "Download started successfully"))
                && jobs == old(jobs)[freshId := QueuedJob(req.url, req.quality, req.audioOnly)]
    {
      if !IsSupportedPlatform(req.url) {
        return Failure(ApiError(400, UnsupportedPlatform));
      }
      jobs := jobs[freshId := QueuedJob(req.url, req.quality, req.audioOnly)];
      r := Success(StartReply("queued", freshId, "Download started successfully"));
    }

    /** `get_download_status`: the stored record, or 404 for an unknown id. */
    function Status(downloadId: string): (r: Result<Job, ApiError>)
      reads this
      ensures r.Success? <==> downloadId in jobs
      ensures r.Success? ==> r.value == jobs[downloadId]
      ensures r.Failure? ==> r.error == ApiError(404, DownloadNotFound)
    {
      if downloadId in jobs then Success(jobs[downloadId])
      else Failure(ApiError(404, DownloadNotFound))
    }

    /** The background task's first step: the record is marked as downloading. */
    method MarkDownloading(downloadId: string)
      requires Valid() && downloadId in jobs
      modifies this
      ensures Valid()
      ensures jobs == old(jobs)[downloadId := old(jobs)[downloadId].(status := Downloading)]
    {
      jobs := jobs[downloadId := jobs[downloadId].(status := Downloading)];
    }

    /** The background task's last step: the record becomes completed or failed. */
    method FinishDownload(downloadId: string, extraction: Result<Document, string>,
                          listing: seq<string>, disk: map<string, nat>)
      requires Valid() && downloadId in jobs
      requires forall i :: 0 <= i < |listing| ==> '/' !in listing[i]
      modifies this
      ensures Valid()
      ensures jobs == old(jobs)[downloadId := TaskOutcome(old(jobs)[downloadId], downloadId, extraction, listing, disk)]
    {
      OutcomeWellFormed(jobs[downloadId], downloadId, extraction, listing, disk);
      jobs := jobs[downloadId := TaskOutcome(jobs[downloadId], downloadId, extraction, listing, disk)];
    }

    /** `download_video_task`: mark the record, build the options for the extraction
        library, and record what came of the download. */
    method RunDownloadTask(downloadId: string, quality: string, audioOnly: bool,
                           extraction: Result<Document, string>,
                           listing: seq<string>, disk: map<string, nat>)
      returns (options: DownloadOptions)
      requires Valid() && downloadId in jobs
      requires forall i :: 0 <= i < |listing| ==> '/' !in listing[i]
      modifies this
      ensures Valid()
      ensures options == OptionsFor(downloadId, quality, audioOnly)
      ensures jobs == old(jobs)[downloadId :=
                TaskOutcome(old(jobs)[downloadId].(status := Downloading), downloadId, extraction, listing, disk)]
    {
      MarkDownloading(downloadId);
      options := OptionsFor(downloadId, quality, audioOnly);
      FinishDownload(downloadId, extraction, listing, disk);
    }

    /** `delete_downloaded_file`: unknown id → 404; a record that is not a completed download
        with a file path → 400; a completed download whose file is gone → 404 and the record
        stays; otherwise the file is removed and the record is forgotten. `disk` maps each
        existing file's full path to its size. */
    method DeleteDownload(downloadId: string, disk: map<string, nat>)
      returns (r: Result<string, ApiError>, diskAfter: map<string, nat>)
      requires Valid()
      modifies this
      ensures Valid()
      ensures downloadId !in old(jobs) ==>
                r == Failure(ApiError(404, DownloadNotFound)) && jobs == old(jobs) && diskAfter == disk
      ensures downloadId in old(jobs) && old(jobs)[downloadId].status != Completed ==>
                r == Failure(ApiError(400, NoFileToDelete)) && jobs == old(jobs) && diskAfter == disk
      ensures downloadId in old(jobs) && old(jobs)[downloadId].status == Completed ==>
                var target := DownloadsDir + "/" + old(jobs)[downloadId].filePath.value[|ServedPrefix|..];
                (target in disk ==>
                   r == Success("File deleted successfully")
                   && jobs == old(jobs) - {downloadId} && diskAfter == disk - {target})
                && (target !in disk ==>
                   r == Failure(ApiError(404, FileNotFound)) && jobs == old(jobs) && diskAfter == disk)
    {
      diskAfter := disk;
      if downloadId !in jobs {
        return Failure(ApiError(404, DownloadNotFound)), diskAfter;
      }
      var job := jobs[downloadId];
      if job.status == Completed && job.filePath.Some? {
        var fullPath := DeleteTarget(job.filePath.value);
        DeleteTargetOfServedPath(job.filePath.value);
        if fullPath in disk {
          diskAfter := disk - {fullPath};
          jobs := jobs - {downloadId};
          r := Success("File deleted successfully");
        } else {
          r := Failure(ApiError(404, FileNotFound));
        }
      } else {
        r := Failure(ApiError(400, NoFileToDelete));
      }
    }
  }

  /** A download runs from start to deletion: the status handler reports it queued, then
      completed with its served path and size; deleting it removes the file and the id is
      unknown again. */
  method DownloadLifecycle(req: VideoRequest, freshId: string, doc: Document, name: string, size: nat)
    returns (queued: Result<Job, ApiError>, done: Result<Job, ApiError>,
             deleted: Result<string, ApiError>, diskAfter: map<string, nat>, after: Result<Job, ApiError>)
    requires IsSupportedPlatform(req.url)
    requires freshId <= name && '/' !in name
    ensures queued == Success(QueuedJob(req.url, req.quality, req.audioOnly))
    ensures done.Success? && done.value.status == Completed
    ensures done.value.filePath == Some(ServedPrefix + name) && done.value.fileSize == Some(size)
    ensures deleted == Success("File deleted successfully") && diskAfter == map[]
    ensures after == Failure(ApiError(404, DownloadNotFound))
  {
    var store := new DownloadStore();
    var started := store.StartDownload(req, freshId);
    queued := store.Status(freshId);
    var path := DownloadsDir + "/" + name;
    var disk := map[path := size];
    JoinIntoDownloads(name);
    var options := store.RunDownloadTask(freshId, req.quality, req.audioOnly, Success(doc), [name], disk);
    done := store.Status(freshId);
    assert (ServedPrefix + name)[|ServedPrefix|..] == name;
    deleted, diskAfter := store.DeleteDownload(freshId, disk);
    after := store.Status(freshId);
  }
}
