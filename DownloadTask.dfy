/** The pure parts of the server application's background download task: the options handed
    to the extraction library, the record kept for each download, and how the background task's outcome
    turns into that record. The file system is a value: the directory listing in the order
    it is returned, and a map from full path to file size. */
module DownloadTask {
  import opened Wrappers
  import opened Strings
  import opened Metadata

  /** Where downloads are written. */
  const DownloadsDir: string := "/workspace/downloads"

  /** The URL prefix under which the downloads directory is served. */
  const ServedPrefix: string := "/downloads/"

  /** The part of the output template after the download id. */
  const TemplateTail: string := "_%(title)s.%(ext)s"

  /** The selector string that asks for a height cap, up to the cap itself. */
  const CapOpen: string := "best[height<="

  /** `os.path.join(a, b)` on POSIX: an absolute `b` replaces `a`; otherwise a `/` is
      inserted unless `a` is empty or already ends with one. */
  function PathJoin(a: string, b: string): (r: string)
    ensures |r| >= |b| && r[|r| - |b|..] == b
    ensures |b| > 0 && b[0] == '/' ==> r == b
    ensures !(|b| > 0 && b[0] == '/') ==> |a| <= |r| && r[..|a|] == a
  {
    if |b| > 0 && b[0] == '/' then b
    else if a == [] || a[|a| - 1] == '/' then a + b
    else a + "/" + b
  }

  /** A relative name without a leading `/` lands inside the downloads directory. */
  lemma JoinIntoDownloads(name: string)
    requires !(|name| > 0 && name[0] == '/')
    ensures PathJoin(DownloadsDir, name) == DownloadsDir + "/" + name
  {
  }

  /** The extraction library's `format` option for a request: best audio for audio-only
      requests, and otherwise `worst`, `best`, or a height cap holding the quality text
      unchanged (it is not checked to be a number). */
  function FormatSelector(quality: string, audioOnly: bool): string
  {
    if audioOnly then "bestaudio/best"
    else if quality == "worst" then "worst"
    else if quality == "best" then "best"
    else CapOpen + quality + "]"
  }

  /** Reads the cap back out of a selector string written as `best[height<=...]`. */
  function CapOf(selector: string): (r: Option<string>)
    ensures r.Some? ==> selector == CapOpen + r.value + "]"
  {
    if |selector| > |CapOpen| && selector[..|CapOpen|] == CapOpen && selector[|selector| - 1] == ']'
    then
      var cap := selector[|CapOpen|..|selector| - 1];
      assert selector == selector[..|CapOpen|] + cap + [selector[|selector| - 1]];
      Some(cap)
    else None
  }

  /** The selector keeps the quality preference: audio-only requests ignore it, `best` and
      `worst` name themselves, and any other quality is recovered from its height cap. */
  lemma SelectorKeepsQuality(quality: string, audioOnly: bool)
    ensures audioOnly ==> FormatSelector(quality, audioOnly) == "bestaudio/best"
    ensures !audioOnly && (quality == "best" || quality == "worst") ==>
              FormatSelector(quality, audioOnly) == quality && CapOf(quality) == None
    ensures !audioOnly && quality != "best" && quality != "worst" ==>
              CapOf(FormatSelector(quality, audioOnly)) == Some(quality)
  {
    if !audioOnly && quality != "best" && quality != "worst" {
      var s := CapOpen + quality + "]";
      assert s[..|CapOpen|] == CapOpen;
      assert s[|CapOpen|..|s| - 1] == quality;
    }
  }

  /** Different quality preferences of a video request give different selectors. */
  lemma SelectorInjective(q1: string, q2: string)
    requires FormatSelector(q1, false) == FormatSelector(q2, false)
    ensures q1 == q2
  {
    SelectorKeepsQuality(q1, false);
    SelectorKeepsQuality(q2, false);
  }

  /** The audio post-processor entry. */
  datatype Postprocessor = Postprocessor(key: string, preferredCodec: string, preferredQuality: string)

  /** The options dictionary handed to the extraction library (quiet flags left out). */
  datatype DownloadOptions = DownloadOptions(outtmpl: string, format: string, postprocessors: seq<Postprocessor>)

  /** The options built for one download. */
  function OptionsFor(downloadId: string, quality: string, audioOnly: bool): (r: DownloadOptions)
    ensures !(|downloadId| > 0 && downloadId[0] == '/') ==>
              r.outtmpl == DownloadsDir + "/" + downloadId + TemplateTail
    ensures r.format == FormatSelector(quality, audioOnly)
    ensures audioOnly ==> r.postprocessors == [Postprocessor("FFmpegExtractAudio", "mp3", "192")]
    ensures !audioOnly ==> r.postprocessors == []
  {
    var pp := if audioOnly then [Postprocessor("FFmpegExtractAudio", "mp3", "192")] else [];
    DownloadOptions(PathJoin(DownloadsDir, downloadId + TemplateTail), FormatSelector(quality, audioOnly), pp)
  }

  datatype Status = Queued | Downloading | Completed | Failed

  /** One entry of the download-status store. Keys the background task adds later are `None` or
      `Absent` until it adds them; `title` and `duration` may be stored as null. */
  datatype Job = Job(
    status: Status,
    url: string,
    quality: string,
    audioOnly: bool,
    filePath: Option<string>,
    title: Field<string>,
    duration: Field<int>,
    fileSize: Option<int>,
    error: Option<string>)

  /** The record a new download starts with. */
  function QueuedJob(url: string, quality: string, audioOnly: bool): (r: Job)
    ensures r.status == Queued && r.url == url && r.quality == quality && r.audioOnly == audioOnly
    ensures r.filePath.None? && r.title.Absent? && r.duration.Absent? && r.fileSize.None? && r.error.None?
  {
    Job(Queued, url, quality, audioOnly, None, Absent, Absent, None, None)
  }

  /** A path under which a file of the downloads directory is served. */
  predicate IsServedPath(p: string)
  {
    |p| >= |ServedPrefix| && p[..|ServedPrefix|] == ServedPrefix && '/' !in p[|ServedPrefix|..]
  }

  /** What every stored record satisfies: a completed download names its served file and
      size, a failed one carries an error. */
  predicate WellFormed(job: Job)
  {
    (job.status == Completed ==> job.filePath.Some? && IsServedPath(job.filePath.value) && job.fileSize.Some?)
    && (job.status == Failed ==> job.error.Some?)
  }

  /** `[f for f in listing if f.startswith(prefix)]`, first element: the earliest listed name
      that starts with `prefix`. */
  function FirstWithPrefix(listing: seq<string>, prefix: string): (r: Option<string>)
    ensures r.None? <==> forall i :: 0 <= i < |listing| ==> !(prefix <= listing[i])
    ensures r.Some? ==> exists i :: 0 <= i < |listing| && listing[i] == r.value && prefix <= listing[i]
                                  && forall j :: 0 <= j < i ==> !(prefix <= listing[j])
  {
    if listing == [] then None
    else if prefix <= listing[0] then Some(listing[0])
    else
      var r := FirstWithPrefix(listing[1..], prefix);
      assert forall i :: 1 <= i < |listing| ==> listing[i] == listing[1..][i - 1];
      if r.Some? then
        var k :| 0 <= k < |listing[1..]| && listing[1..][k] == r.value && prefix <= listing[1..][k]
                 && forall j :: 0 <= j < k ==> !(prefix <= listing[1..][j]);
        assert listing[k + 1] == r.value;
        r
      else r
  }

  /** The message of the error `os.path.getsize` raises for a missing file. */
  function MissingFileMessage(path: string): string
  {
    "[Errno 2] No such file or directory: " + Repr(path)
  }

  /** The downloads directory holds no quote and no backslash. */
  lemma DownloadsDirPlain()
    ensures '\\' !in DownloadsDir && '\'' !in DownloadsDir && '"' !in DownloadsDir
  {
    assert forall i :: 0 <= i < |DownloadsDir| ==>
      DownloadsDir[i] != '\\' && DownloadsDir[i] != '\'' && DownloadsDir[i] != '"';
  }

  /** A listed name holding an apostrophe (a title such as "Don't") and no double quote or
      backslash is shown between double quotes in the message, as Python's `repr` does;
      one holding neither quote between single quotes. */
  lemma {:induction false} MissingFileQuoting(name: string)
    requires '/' !in name && '\\' !in name && '"' !in name
    ensures '\'' in name ==>
              MissingFileMessage(PathJoin(DownloadsDir, name))
              == "[Errno 2] No such file or directory: \"" + DownloadsDir + "/" + name + "\""
    ensures '\'' !in name ==>
              MissingFileMessage(PathJoin(DownloadsDir, name))
              == "[Errno 2] No such file or directory: '" + DownloadsDir + "/" + name + "'"
  {
    JoinIntoDownloads(name);
    DownloadsDirPlain();
    var path := DownloadsDir + "/" + name;
    if '\'' in name {
      assert '\'' in path by {
        var k :| 0 <= k < |name| && name[k] == '\'';
        assert path[|DownloadsDir| + 1 + k] == '\'';
      }
      ReprWithApostrophe(path);
    } else {
      ReprPlain(path);
    }
  }

  /** The message stored when no listed file starts with the download id. */
  const NotFoundMessage: string := "Downloaded file not found"

  /** The record after the background task's download step, from the record it started from, the
      extraction outcome, the directory listing and the sizes of the files on disk. */
  function TaskOutcome(job: Job, downloadId: string, extraction: Result<Document, string>,
                       listing: seq<string>, disk: map<string, nat>): (r: Job)
    ensures r.url == job.url && r.quality == job.quality && r.audioOnly == job.audioOnly
    ensures r.status == Completed || r.status == Failed
    ensures r.status == Completed <==>
              extraction.Success? && FirstWithPrefix(listing, downloadId).Some?
              && PathJoin(DownloadsDir, FirstWithPrefix(listing, downloadId).value) in disk
    ensures r.status == Completed ==>
              var name := FirstWithPrefix(listing, downloadId).value;
              r.filePath == Some(ServedPrefix + name)
              && r.fileSize == Some(disk[PathJoin(DownloadsDir, name)] as int)
              && r.duration == Stored(extraction.value.duration)
              && (extraction.value.title.Absent? ==> r.title == Present("Unknown"))
              && (!extraction.value.title.Absent? ==> r.title == extraction.value.title)
    ensures extraction.Failure? ==> r.status == Failed && r.error == Some(extraction.error)
    ensures extraction.Success? && FirstWithPrefix(listing, downloadId).None? ==>
              r.status == Failed && r.error == Some(NotFoundMessage)
    ensures extraction.Success? && FirstWithPrefix(listing, downloadId).Some?
            && PathJoin(DownloadsDir, FirstWithPrefix(listing, downloadId).value) !in disk ==>
              r.error == Some(MissingFileMessage(PathJoin(DownloadsDir, FirstWithPrefix(listing, downloadId).value)))
    ensures r.status == Failed ==>
              r.error.Some? && r.filePath == job.filePath && r.title == job.title
              && r.duration == job.duration && r.fileSize == job.fileSize
    ensures r.status == Completed ==> r.error == job.error
  {
    match extraction
    case Failure(message) => job.(status := Failed, error := Some(message))
    case Success(doc) =>
      match FirstWithPrefix(listing, downloadId)
      case None => job.(status := Failed, error := Some(NotFoundMessage))
      case Some(name) =>
        var fullPath := PathJoin(DownloadsDir, name);
        if fullPath !in disk then job.(status := Failed, error := Some(MissingFileMessage(fullPath)))
        else
          var title := if doc.title.Absent? then Present("Unknown") else doc.title;
          job.(status := Completed, filePath := Some(ServedPrefix + name), title := title,
               duration := Stored(doc.duration), fileSize := Some(disk[fullPath] as int))
  }

  /** Listed names never hold `/`, so the background task only ever stores well-formed records. */
  lemma OutcomeWellFormed(job: Job, downloadId: string, extraction: Result<Document, string>,
                          listing: seq<string>, disk: map<string, nat>)
    requires forall i :: 0 <= i < |listing| ==> '/' !in listing[i]
    ensures WellFormed(TaskOutcome(job, downloadId, extraction, listing, disk))
  {
    var r := TaskOutcome(job, downloadId, extraction, listing, disk);
    if r.status == Completed {
      var name := FirstWithPrefix(listing, downloadId).value;
      var p := ServedPrefix + name;
      assert p[..|ServedPrefix|] == ServedPrefix && p[|ServedPrefix|..] == name;
    }
  }

  /** The file the delete handler removes for a stored path: the served prefix is replaced
      away and the rest joined to the downloads directory. */
  function DeleteTarget(filePath: string): string
  {
    PathJoin(DownloadsDir, ReplaceAll(filePath, ServedPrefix, ""))
  }

  /** For every path the background task stores, the delete handler targets exactly the file whose size
      the background task recorded. */
  lemma DeleteTargetsRecordedFile(name: string)
    requires '/' !in name
    ensures DeleteTarget(ServedPrefix + name) == PathJoin(DownloadsDir, name)
    ensures DeleteTarget(ServedPrefix + name) == DownloadsDir + "/" + name
  {
    StripLeadingPattern(ServedPrefix, name, '/');
  }

  /** The same, stated on a stored path. */
  lemma DeleteTargetOfServedPath(p: string)
    requires IsServedPath(p)
    ensures DeleteTarget(p) == DownloadsDir + "/" + p[|ServedPrefix|..]
  {
    assert p == ServedPrefix + p[|ServedPrefix|..];
    DeleteTargetsRecordedFile(p[|ServedPrefix|..]);
  }
}
