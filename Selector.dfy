/** `get_best_format_url`: the rule that picks one playable URL out of a metadata document,
    driven by a quality preference (`best`, `worst`, a height cap, or anything else) and an
    audio-only flag. */
module Selector {
  import opened Wrappers
  import opened Strings
  import opened Metadata
  import opened Ranking

  /** `lambda f: (f.get('height') or 0) <= max_height`. */
  function WithinCap(n: int): Format -> bool
  {
    f => HeightKey(f) <= n
  }

  /** What the numeric branch keeps, seen from the whole format list. */
  function VideoWithin(n: int): Format -> bool
  {
    Both(IsVideo, WithinCap(n))
  }

  /** `get_best_format_url(info, quality, audio_only)`. */
  function BestFormatUrl(doc: Document, quality: string, audioOnly: bool): Option<string>
  {
    var formats := FormatsOf(doc);
    if formats == [] then Get(doc.url)
    else
      var audio := Filter(formats, IsPureAudio);
      if audioOnly && audio != [] then MaxByAbr(audio).url
      else
        var video := Filter(formats, IsVideo);
        var suitable :=
          if quality == "worst" then SortByHeight(video, false)
          else if quality == "best" then SortByHeight(video, true)
          else match ParseInt(quality)
            case Some(n) => SortByHeight(Filter(video, WithinCap(n)), true)
            case None => video;
        if suitable != [] then suitable[0].url else Get(doc.url)
  }

  ghost predicate HasPureAudio(fs: seq<Format>)
  {
    exists f :: f in fs && IsPureAudio(f)
  }

  ghost predicate HasVideo(fs: seq<Format>)
  {
    exists f :: f in fs && IsVideo(f)
  }

  /** The request reaches the video branch: it is not audio-only, or there is no pure audio. */
  ghost predicate TakesVideoPath(doc: Document, audioOnly: bool)
  {
    !(audioOnly && HasPureAudio(FormatsOf(doc)))
  }

  /** An empty, missing or null format list yields the top-level `url` (possibly absent),
      whatever the quality and the audio flag. */
  lemma NoFormatsGiveTopLevelUrl(doc: Document, quality: string, audioOnly: bool)
    requires FormatsOf(doc) == []
    ensures BestFormatUrl(doc, quality, audioOnly) == Get(doc.url)
  {
  }

  /** Audio-only with at least one pure-audio format: the `url` (possibly absent) of the
      earliest pure-audio format with the largest bitrate, missing bitrates counting as 0. */
  lemma AudioPicksFirstLoudest(doc: Document, quality: string)
    requires HasPureAudio(FormatsOf(doc))
    ensures exists i :: IsFirstMax(FormatsOf(doc), IsPureAudio, AbrKey, i)
                     && BestFormatUrl(doc, quality, true) == FormatsOf(doc)[i].url
  {
    var fs := FormatsOf(doc);
    FilterNonEmpty(fs, IsPureAudio);
    var audio := Filter(fs, IsPureAudio);
    var k := MaxByAbrIsFirstMax(audio);
    var i := LiftFirstMax(fs, IsPureAudio, AbrKey, k);
    assert IsFirstMax(fs, IsPureAudio, AbrKey, i);
  }

  /** Audio-only without any pure-audio format behaves exactly like a video request: there is
      no fallback to formats that carry audio together with video. */
  lemma AudioWithoutPureAudioIsVideoRequest(doc: Document, quality: string)
    requires !HasPureAudio(FormatsOf(doc))
    ensures BestFormatUrl(doc, quality, true) == BestFormatUrl(doc, quality, false)
  {
    FilterNonEmpty(FormatsOf(doc), IsPureAudio);
  }

  /** `best`: the earliest video-eligible format with the largest height (missing = 0);
      with no eligible format, the top-level `url`. */
  lemma BestPicksFirstTallest(doc: Document, audioOnly: bool)
    requires TakesVideoPath(doc, audioOnly)
    ensures var fs := FormatsOf(doc);
            HasVideo(fs) ==> exists i :: IsFirstMax(fs, IsVideo, HeightRank, i)
                                      && BestFormatUrl(doc, "best", audioOnly) == fs[i].url
    ensures !HasVideo(FormatsOf(doc)) ==> BestFormatUrl(doc, "best", audioOnly) == Get(doc.url)
  {
    var fs := FormatsOf(doc);
    FilterNonEmpty(fs, IsPureAudio);
    FilterNonEmpty(fs, IsVideo);
    var video := Filter(fs, IsVideo);
    if video != [] {
      var k := SortHeadDescending(video);
      var i := LiftFirstMax(fs, IsVideo, HeightRank, k);
      assert IsFirstMax(fs, IsVideo, HeightRank, i);
    }
  }

  /** `worst`: the earliest video-eligible format with the smallest height (missing = 0);
      with no eligible format, the top-level `url`. */
  lemma WorstPicksFirstShortest(doc: Document, audioOnly: bool)
    requires TakesVideoPath(doc, audioOnly)
    ensures var fs := FormatsOf(doc);
            HasVideo(fs) ==> exists i :: IsFirstMin(fs, IsVideo, HeightRank, i)
                                      && BestFormatUrl(doc, "worst", audioOnly) == fs[i].url
    ensures !HasVideo(FormatsOf(doc)) ==> BestFormatUrl(doc, "worst", audioOnly) == Get(doc.url)
  {
    var fs := FormatsOf(doc);
    FilterNonEmpty(fs, IsPureAudio);
    FilterNonEmpty(fs, IsVideo);
    var video := Filter(fs, IsVideo);
    if video != [] {
      var k := SortHeadAscending(video);
      var i := LiftFirstMin(fs, IsVideo, HeightRank, k);
      assert IsFirstMin(fs, IsVideo, HeightRank, i);
    }
  }

  /** A numeric quality N: the earliest video-eligible format with the largest height not
      above N (missing = 0); when no eligible format fits under N, the top-level `url`,
      not the unfiltered list. */
  lemma CapPicksFirstTallestWithin(doc: Document, quality: string, n: int, audioOnly: bool)
    requires ParseInt(quality) == Some(n)
    requires TakesVideoPath(doc, audioOnly)
    ensures var fs := FormatsOf(doc);
            (exists f :: f in fs && IsVideo(f) && HeightKey(f) <= n) ==>
              exists i :: IsFirstMax(fs, VideoWithin(n), HeightRank, i)
                       && HeightKey(fs[i]) <= n
                       && BestFormatUrl(doc, quality, audioOnly) == fs[i].url
    ensures (forall f :: f in FormatsOf(doc) && IsVideo(f) ==> n < HeightKey(f)) ==>
              BestFormatUrl(doc, quality, audioOnly) == Get(doc.url)
  {
    var fs := FormatsOf(doc);
    assert quality != "best" && quality != "worst";
    FilterNonEmpty(fs, IsPureAudio);
    FilterTwice(fs, IsVideo, WithinCap(n));
    FilterNonEmpty(fs, VideoWithin(n));
    var capped := Filter(fs, VideoWithin(n));
    if capped != [] {
      var k := SortHeadDescending(capped);
      var i := LiftFirstMax(fs, VideoWithin(n), HeightRank, k);
      assert IsFirstMax(fs, VideoWithin(n), HeightRank, i);
    }
  }

  /** Any other quality (not `best`, not `worst`, not an integer) takes the earliest
      video-eligible format in the original order. */
  lemma OtherQualityPicksFirstVideo(doc: Document, quality: string, audioOnly: bool)
    requires quality != "best" && quality != "worst" && ParseInt(quality) == None
    requires TakesVideoPath(doc, audioOnly)
    ensures var fs := FormatsOf(doc);
            HasVideo(fs) ==> exists i :: IsFirstKept(fs, IsVideo, i)
                                      && BestFormatUrl(doc, quality, audioOnly) == fs[i].url
    ensures !HasVideo(FormatsOf(doc)) ==> BestFormatUrl(doc, quality, audioOnly) == Get(doc.url)
  {
    var fs := FormatsOf(doc);
    FilterNonEmpty(fs, IsPureAudio);
    FilterNonEmpty(fs, IsVideo);
    var video := Filter(fs, IsVideo);
    if video != [] {
      var i := LiftFirstKept(fs, IsVideo);
      assert IsFirstKept(fs, IsVideo, i);
    }
  }

  /** The selector never invents a URL: it returns the top-level `url` or the `url` of one of
      the listed formats. */
  lemma ChoiceComesFromDocument(doc: Document, quality: string, audioOnly: bool)
    ensures var r := BestFormatUrl(doc, quality, audioOnly);
            r == Get(doc.url) || exists i :: 0 <= i < |FormatsOf(doc)| && r == FormatsOf(doc)[i].url
  {
    var fs := FormatsOf(doc);
    if fs == [] {
    } else if audioOnly && HasPureAudio(fs) {
      AudioPicksFirstLoudest(doc, quality);
    } else if quality == "worst" {
      WorstPicksFirstShortest(doc, audioOnly);
    } else if quality == "best" {
      BestPicksFirstTallest(doc, audioOnly);
    } else if ParseInt(quality).Some? {
      CapPicksFirstTallestWithin(doc, quality, ParseInt(quality).value, audioOnly);
    } else {
      OtherQualityPicksFirstVideo(doc, quality, audioOnly);
    }
  }

  /** A format with the given codecs, height, bitrate and URL; every other key missing. */
  function Sample(url: string, vcodec: string, acodec: string, height: Option<int>, abr: Option<real>): Format
  {
    Format(Some(url), None, None, Some(vcodec), Some(acodec), height, None, abr, None, None)
  }

  /** A worked case for audio: one video with sound and two audio tracks. */
  function AudioExample(): Document
  {
    Document(Present("top"), Present([
        Sample("v360", "avc1", "mp4a", Some(360), Some(96.0)),
        Sample("a128", "none", "mp4a", None, Some(128.0)),
        Sample("a160", "none", "opus", None, Some(160.0))]),
      Absent, Absent, Absent, Absent, Absent, Absent, Absent)
  }

  /** A worked case for video: a 360p video with sound, a muted 720p video and an audio track. */
  function VideoExample(): Document
  {
    Document(Present("top"), Present([
        Sample("v360", "avc1", "mp4a", Some(360), Some(96.0)),
        Sample("v720", "avc1", "none", Some(720), None),
        Sample("a128", "none", "mp4a", None, Some(128.0))]),
      Absent, Absent, Absent, Absent, Absent, Absent, Absent)
  }

  lemma ParseExampleCaps()
    ensures ParseInt("480") == Some(480) && ParseInt("240") == Some(240)
  {
    assert "480"[..2] == "48" && "48"[..1] == "4";
    assert DigitsValue("48") == 48;
    assert "240"[..2] == "24" && "24"[..1] == "2";
    assert DigitsValue("24") == 24;
  }

  /** Audio-only takes the louder of the two pure-audio tracks. */
  lemma ExampleAudioOnly()
    ensures BestFormatUrl(AudioExample(), "best", true) == Some("a160")
  {
    var doc := AudioExample();
    var fs := FormatsOf(doc);
    assert fs[2] in fs && IsPureAudio(fs[2]);
    AudioPicksFirstLoudest(doc, "best");
    var i :| IsFirstMax(fs, IsPureAudio, AbrKey, i) && BestFormatUrl(doc, "best", true) == fs[i].url;
    assert !IsPureAudio(fs[0]);
    assert AbrKey(fs[1]) < AbrKey(fs[2]);
    assert i == 2;
  }

  /** `best` takes the muted 720p video: the video branch pays no attention to audio. */
  lemma ExampleBest()
    ensures BestFormatUrl(VideoExample(), "best", false) == Some("v720")
  {
    var doc := VideoExample();
    var fs := FormatsOf(doc);
    assert fs[0] in fs && IsVideo(fs[0]);
    BestPicksFirstTallest(doc, false);
    var i :| IsFirstMax(fs, IsVideo, HeightRank, i) && BestFormatUrl(doc, "best", false) == fs[i].url;
    assert !IsVideo(fs[2]);
    assert HeightRank(fs[0]) < HeightRank(fs[1]);
    assert i == 1;
  }

  /** `worst` takes the 360p video: pure-audio tracks, whose height counts as 0, are not
      video-eligible. */
  lemma ExampleWorst()
    ensures BestFormatUrl(VideoExample(), "worst", false) == Some("v360")
  {
    var doc := VideoExample();
    var fs := FormatsOf(doc);
    assert fs[0] in fs && IsVideo(fs[0]);
    WorstPicksFirstShortest(doc, false);
    var i :| IsFirstMin(fs, IsVideo, HeightRank, i) && BestFormatUrl(doc, "worst", false) == fs[i].url;
    assert !IsVideo(fs[2]);
    assert HeightRank(fs[0]) < HeightRank(fs[1]);
    assert i == 0;
  }

  /** A cap of 480 takes the 360p video. */
  lemma ExampleCap480()
    ensures BestFormatUrl(VideoExample(), "480", false) == Some("v360")
  {
    var doc := VideoExample();
    var fs := FormatsOf(doc);
    ParseExampleCaps();
    assert fs[0] in fs && IsVideo(fs[0]) && HeightKey(fs[0]) <= 480;
    CapPicksFirstTallestWithin(doc, "480", 480, false);
    var i :| IsFirstMax(fs, VideoWithin(480), HeightRank, i) && BestFormatUrl(doc, "480", false) == fs[i].url;
    assert !VideoWithin(480)(fs[1]) && !VideoWithin(480)(fs[2]);
    assert i == 0;
  }

  /** A cap of 240 admits no video and falls back to the top-level URL. */
  lemma ExampleCap240()
    ensures BestFormatUrl(VideoExample(), "240", false) == Some("top")
  {
    var doc := VideoExample();
    var fs := FormatsOf(doc);
    ParseExampleCaps();
    assert forall f :: f in fs && IsVideo(f) ==> 240 < HeightKey(f);
    CapPicksFirstTallestWithin(doc, "240", 240, false);
  }
}
