/** The package-level tables of aubreylib: the METS USE codes, the view type
    of each MIME type, and the default (empty) metadata and static-file
    location lists. */
module Aubrey {
  import opened Wrappers

  /** The METS `USE` code of each file representation. */
  const Use: map<string, int> := map[
    "high_res" := 1, "thumbnail" := 2, "med_res" := 3, "ocr" := 4,
    "bounding_box" := 5, "transcription" := 6, "translation" := 7,
    "zoom" := 8, "cdx" := 9, "square" := 10]

  const UseNames: set<string> := {
    "high_res", "thumbnail", "med_res", "ocr", "bounding_box",
    "transcription", "translation", "zoom", "cdx", "square"}

  /** The ten uses carry the ten distinct codes 1..10. */
  lemma UseCodes()
    ensures Use.Keys == UseNames
    ensures forall a, b :: a in Use && b in Use && Use[a] == Use[b] ==> a == b
    ensures Use.Values == {1, 2, 3, 4, 5, 6, 7, 8, 9, 10}
    ensures Use["high_res"] == 1 && Use["thumbnail"] == 2 && Use["med_res"] == 3
    ensures Use["zoom"] == 8 && Use["square"] == 10
  {
    assert Use["ocr"] == 4 && Use["bounding_box"] == 5 && Use["transcription"] == 6;
    assert Use["translation"] == 7 && Use["cdx"] == 9;
  }

  /** How each MIME type is viewed; the entry for a missing MIME type (`None`)
      is also the fallback for unlisted ones.  The source lists `image/jpeg`
      twice, both times as `image`; a map keeps the one entry. */
  const ViewTypeMimetypes: map<Option<string>, string> := map[
    Some("image/png") := "image",
    Some("image/jpeg") := "image",
    Some("image/gif") := "image",
    Some("image/bmp") := "image",
    Some("application/pdf") := "file",
    Some("image/tiff") := "file",
    Some("application/octet-stream") := "file",
    Some("audio/mpeg") := "audio",
    Some("audio/mpeg3") := "audio",
    Some("text/html") := "html",
    Some("text/plain") := "text",
    Some("text/xml") := "xml",
    Some("application/zip") := "file",
    Some("video/x-flv") := "video",
    Some("video/mp4") := "video",
    None := "file"]

  /** The view type the library looks up for a MIME type:
      `VIEW_TYPE_MIMETYPES.get(mimetype, VIEW_TYPE_MIMETYPES[None])`. */
  function ViewTypeOf(mimetype: Option<string>): (v: string)
    ensures v in {"image", "file", "audio", "html", "text", "xml", "video"}
    ensures mimetype !in ViewTypeMimetypes ==> v == "file"
  {
    if mimetype in ViewTypeMimetypes then ViewTypeMimetypes[mimetype] else ViewTypeMimetypes[None]
  }

  /** Image formats a browser shows are images, and a missing MIME type is a file. */
  lemma ViewTypeImages()
    ensures ViewTypeOf(None) == "file"
    ensures ViewTypeOf(Some("image/png")) == "image" && ViewTypeOf(Some("image/jpeg")) == "image"
    ensures ViewTypeOf(Some("image/gif")) == "image" && ViewTypeOf(Some("image/bmp")) == "image"
  {
  }

  /** PDF, TIFF, octet streams and ZIP archives are plain files. */
  lemma ViewTypeFiles()
    ensures ViewTypeOf(Some("application/pdf")) == "file" && ViewTypeOf(Some("image/tiff")) == "file"
    ensures ViewTypeOf(Some("application/octet-stream")) == "file" && ViewTypeOf(Some("application/zip")) == "file"
  {
  }

  /** Audio, video and text types each get their own viewer. */
  lemma ViewTypeMedia()
    ensures ViewTypeOf(Some("audio/mpeg")) == "audio" && ViewTypeOf(Some("audio/mpeg3")) == "audio"
    ensures ViewTypeOf(Some("video/x-flv")) == "video" && ViewTypeOf(Some("video/mp4")) == "video"
    ensures ViewTypeOf(Some("text/html")) == "html" && ViewTypeOf(Some("text/plain")) == "text"
    ensures ViewTypeOf(Some("text/xml")) == "xml"
  {
  }

  /** No view type is empty, so an empty string can serve as "not yet known". */
  lemma ViewTypesNonEmpty(mimetype: Option<string>)
    ensures ViewTypeOf(mimetype) != ""
  {
  }

  /** The default metadata and static-file locations: none. */
  const MetadataLocations: seq<string> := []
  const StaticFileLocations: seq<string> := []
}
