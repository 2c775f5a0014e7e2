/** MIME-type categories, file icons and the checks applied to an attachment
    before it is sent. */
module FileTypes {
  import opened Wrappers
  import opened JsText

  /** The largest attachment accepted: 10 MiB. */
  const MaxFileSize: nat := 10 * 1024 * 1024

  /** The image types accepted as pictures. */
  const ValidImageTypes: seq<string> := ["image/jpeg", "image/jpg", "image/png", "image/gif", "image/webp"]

  /** The category names `getFileCategory` returns. */
  const CategoryNames: set<string> := {"image", "video", "audio", "document", "other"}

  /** The icon of the `other` category, also the fallback. */
  const OtherIcon: string := "\U{1F4CE}"

  /** The icon of each category name. */
  const Icons: map<string, string> := map[
    "image" := "\U{1F5BC}\U{FE0F}",
    "video" := "\U{1F3A5}",
    "audio" := "\U{1F3B5}",
    "document" := "\U{1F4C4}",
    "other" := OtherIcon
  ]

  /** A type names a document when it mentions `pdf`, `document` or `text`. */
  predicate MentionsDocument(mimeType: string)
  {
    Includes(mimeType, "pdf") || Includes(mimeType, "document") || Includes(mimeType, "text")
  }

  /** `getFileCategory(mimeType)`: the three media prefixes are tried first,
      in the order image, video, audio; only then the document keywords. */
  function GetFileCategory(mimeType: string): (c: string)
    ensures c in CategoryNames
    ensures c == "image" <==> StartsWith(mimeType, "image/")
    ensures c == "video" <==> !StartsWith(mimeType, "image/") && StartsWith(mimeType, "video/")
    ensures c == "audio" <==>
      !StartsWith(mimeType, "image/") && !StartsWith(mimeType, "video/") && StartsWith(mimeType, "audio/")
    ensures c == "document" <==>
      && !StartsWith(mimeType, "image/") && !StartsWith(mimeType, "video/") && !StartsWith(mimeType, "audio/")
      && MentionsDocument(mimeType)
  {
    if StartsWith(mimeType, "image/") then "image"
    else if StartsWith(mimeType, "video/") then "video"
    else if StartsWith(mimeType, "audio/") then "audio"
    else if MentionsDocument(mimeType) then "document"
    else "other"
  }

  /** A media prefix wins over the document keywords: `video/x-pdf` is a
      video, `text/plain` and `application/pdf` are documents. */
  lemma PrefixBeforeKeyword()
    ensures MentionsDocument("video/x-pdf") && GetFileCategory("video/x-pdf") == "video"
    ensures GetFileCategory("text/plain") == "document"
    ensures GetFileCategory("application/pdf") == "document"
  {
    assert OccursAt("video/x-pdf", "pdf", 8);
    assert "video/x-pdf"[..6] == "video/" && "video/x-pdf"[..6][0] != "image/"[0];
    assert OccursAt("text/plain", "text", 0);
    assert "text/plain"[..6][0] !in {'i', 'v', 'a'};
    assert OccursAt("application/pdf", "pdf", 12);
    assert "application/pdf"[..6][0] == "audio/"[0] && "application/pdf"[..6][1] != "audio/"[1];
    assert "application/pdf"[..6][0] != "image/"[0] && "application/pdf"[..6][0] != "video/"[0];
  }

  /** `getFileIcon(mimeType)`: the icon of the type's category, falling back
      to the `other` icon when the table has none. */
  function GetFileIcon(mimeType: string): (icon: string)
    ensures icon in Icons.Values && icon != ""
    ensures icon == Icons[GetFileCategory(mimeType)]
  {
    var category := GetFileCategory(mimeType);
    if category in Icons && Icons[category] != "" then Icons[category] else OtherIcon
  }

  /** Distinct categories have distinct icons, so the icon tells the
      category apart and the fallback is never needed. */
  lemma IconsDistinct(a: string, b: string)
    requires a in CategoryNames && b in CategoryNames
    ensures a in Icons && b in Icons && Icons[a] != ""
    ensures Icons[a] == Icons[b] ==> a == b
  {
  }

  /** `validateFileSize(file)`: at most 10 MiB. */
  function ValidateFileSize(size: nat): (ok: bool)
    ensures ok <==> size <= 10485760
  {
    size <= MaxFileSize
  }

  /** `validateImage(file)`: the type is exactly one of the five listed. */
  function ValidateImage(mimeType: string): (ok: bool)
    ensures ok <==> mimeType in {"image/jpeg", "image/jpg", "image/png", "image/gif", "image/webp"}
  {
    mimeType in ValidImageTypes
  }

  /** Every accepted image type is categorised as an image. */
  lemma ValidImageIsImage(mimeType: string)
    requires ValidateImage(mimeType)
    ensures GetFileCategory(mimeType) == "image"
    ensures GetFileIcon(mimeType) == "\U{1F5BC}\U{FE0F}"
  {
    assert StartsWith(mimeType, "image/") by {
      assert mimeType[..6] == "image/";
    }
  }

  /** The zero case of `formatFileSize`; other sizes are not modelled and
      give `None`. */
  function FormatFileSize(bytes: nat): (r: Option<string>)
    ensures r.Some? <==> bytes == 0
    ensures r.Some? ==> r.value == "0 Bytes"
  {
    if bytes == 0 then Some("0 Bytes") else None
  }
}
