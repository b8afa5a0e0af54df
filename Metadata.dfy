/** The metadata document the extraction library returns for one URL, as a typed record.
    Top-level keys are `Field`s (missing, null or set); the keys of one format record are
    `Option`s, because every use of them treats a missing key and a null value alike. */
module Metadata {
  import opened Wrappers

  /** One entry of the document's `formats` list: a candidate encoding. */
  datatype Format = Format(
    url: Option<string>,
    formatId: Option<string>,
    ext: Option<string>,
    vcodec: Option<string>,
    acodec: Option<string>,
    height: Option<int>,
    width: Option<int>,
    abr: Option<real>,
    quality: Option<real>,
    filesize: Option<int>)

  /** The extraction library's output for one URL. */
  datatype Document = Document(
    url: Field<string>,
    formats: Field<seq<Format>>,
    title: Field<string>,
    duration: Field<int>,
    thumbnail: Field<string>,
    uploader: Field<string>,
    channel: Field<string>,
    viewCount: Field<int>,
    description: Field<string>)

  /** `f.get('height', 0) or 0`: a missing or null height ranks as 0. */
  function HeightKey(f: Format): int
  {
    match f.height
    case Some(h) => h
    case None => 0
  }

  /** The height key as a rank, for the ordering predicates. */
  function HeightRank(f: Format): real
  {
    HeightKey(f) as real
  }

  /** `f.get('abr', 0) or 0`: a missing or null audio bitrate ranks as 0. */
  function AbrKey(f: Format): real
  {
    match f.abr
    case Some(a) => a
    case None => 0.0
  }

  /** Audio without video: `acodec != 'none'` (a missing codec passes) and `vcodec == 'none'`. */
  predicate IsPureAudio(f: Format): (b: bool)
    ensures b ==> !IsVideo(f)
  {
    f.acodec != Some("none") && f.vcodec == Some("none")
  }

  /** Video-eligible: `vcodec != 'none'`; a missing video codec counts as eligible. */
  predicate IsVideo(f: Format)
  {
    f.vcodec != Some("none")
  }

  /** `info.get('formats', [])` as the selector tests it: a missing or null list reads as empty. */
  function FormatsOf(doc: Document): seq<Format>
  {
    match doc.formats
    case Present(fs) => fs
    case _ => []
  }
}
