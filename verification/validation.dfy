/** Upload checks. The endpoints check the declared content type and the body size
    (backend/app/api/upload.py and backend/app/api/stream.py); the recognition service
    re-checks the decoded image (`ZhipuAIService.validate_image`). */
module Validation {
  import opened Common

  /** 5 MiB, inclusive. */
  const MaxUploadBytes: nat := 5 * 1024 * 1024

  const ImagePrefix: string := "image/"
  const AllowedContentTypes: seq<string> := ["image/jpeg", "image/jpg", "image/png"]
  const AllowedFormats: seq<string> := ["jpeg", "jpg", "png"]

  /** An uploaded image: its bytes and the format name the image decoder reports for them,
      or None when the bytes cannot be decoded. */
  datatype Image = Image(bytes: seq<byte>, format: Option<string>)

  /** A multipart upload: the declared content type (None when the client sent none) and the
      file's image. */
  datatype UploadFile = UploadFile(contentType: Option<string>, image: Image)

  /** Why an endpoint refuses an upload with HTTP 400. */
  datatype Rejection = NotAnImage | UnsupportedFormat | TooLarge {
    function Detail(): string {
      match this
      case NotAnImage => "只支持图片文件"
      case UnsupportedFormat => "只支持 JPG、JPEG、PNG 格式的图片"
      case TooLarge => "文件大小不能超过 5MB"
    }
  }

  predicate StartsWith(s: string, prefix: string) {
    |prefix| <= |s| && s[..|prefix|] == prefix
  }

  /** `not content_type or not content_type.startswith('image/')`, then
      `content_type not in allowed_formats`, in that order. The match is case-sensitive. */
  function CheckContentType(contentType: Option<string>): (r: Outcome<Rejection>)
    ensures r == Pass <==> contentType.Some? && contentType.value in AllowedContentTypes
    ensures r == Fail(NotAnImage) <==>
              contentType.None? || !StartsWith(contentType.value, ImagePrefix)
    ensures r == Fail(UnsupportedFormat) <==>
              contentType.Some? && StartsWith(contentType.value, ImagePrefix)
              && contentType.value !in AllowedContentTypes
  {
    match contentType
    case None => Fail(NotAnImage)
    case Some(t) =>
      if t == "" || !StartsWith(t, ImagePrefix) then Fail(NotAnImage)
      else if t !in AllowedContentTypes then Fail(UnsupportedFormat)
      else Pass
  }

  /** `len(file_content) > 5 * 1024 * 1024` rejects. */
  function CheckSize(size: nat): (r: Outcome<Rejection>)
    ensures r == Pass <==> size <= MaxUploadBytes
    ensures r.Fail? ==> r.error == TooLarge
  {
    if size > MaxUploadBytes then Fail(TooLarge) else Pass
  }

  /** The endpoint checks in source order: content type first, then size. */
  function CheckUpload(file: UploadFile): (r: Outcome<Rejection>)
    ensures r == Pass <==>
              file.contentType.Some? && file.contentType.value in AllowedContentTypes
              && |file.image.bytes| <= MaxUploadBytes
    ensures r == Fail(TooLarge) <==>
              CheckContentType(file.contentType) == Pass && |file.image.bytes| > MaxUploadBytes
    ensures CheckContentType(file.contentType).Fail? ==> r == CheckContentType(file.contentType)
  {
    match CheckContentType(file.contentType)
    case Fail(why) => Fail(why)
    case Pass => CheckSize(|file.image.bytes|)
  }

  /** Every allowed content type already begins with `image/`, so the prefix test never
      decides on its own which allowed type passes. */
  lemma AllowedTypesAreImages(t: string)
    requires t in AllowedContentTypes
    ensures StartsWith(t, ImagePrefix)
  {
  }

  /** The size bound is inclusive: exactly 5 MiB passes, one more byte is refused. */
  lemma SizeBoundIsInclusive()
    ensures CheckSize(5 * 1024 * 1024) == Pass
    ensures CheckSize(5 * 1024 * 1024 + 1) == Fail(TooLarge)
  {
  }

  /** Content-type matching is case-sensitive. */
  lemma ContentTypeIsCaseSensitive()
    ensures CheckContentType(Some("image/PNG")) == Fail(UnsupportedFormat)
    ensures CheckContentType(Some("IMAGE/png")) == Fail(NotAnImage)
  {
    assert "IMAGE/png"[..6] != ImagePrefix by {
      assert "IMAGE/png"[0] != ImagePrefix[0];
    }
  }

  // ---------------------------------------------------------------------------------
  // The decoded-format check of the recognition service.

  function LowerChar(c: char): char {
    if 'A' <= c <= 'Z' then (c as int - 'A' as int + 'a' as int) as char else c
  }

  /** `str.lower()` on the format name the decoder reports; those names are ASCII. */
  function AsciiLower(s: string): (r: string)
    ensures |r| == |s|
    ensures forall i | 0 <= i < |s| :: r[i] == LowerChar(s[i])
  {
    seq(|s|, i requires 0 <= i < |s| => LowerChar(s[i]))
  }

  /** `validate_image`: the bytes decode, the decoded format lower-cased is one of
      jpeg/jpg/png, and there are at most 5 MiB of them. A decode failure is caught and
      reported as invalid. */
  function ValidateImage(img: Image): (ok: bool)
    ensures ok <==> img.format.Some? && AsciiLower(img.format.value) in AllowedFormats
                    && |img.bytes| <= MaxUploadBytes
    ensures |img.bytes| > MaxUploadBytes ==> !ok
    ensures img.format.None? ==> !ok
  {
    match img.format
    case None => false
    case Some(f) =>
      if AsciiLower(f) !in AllowedFormats then false
      else if |img.bytes| > MaxUploadBytes then false
      else true
  }

  /** Lower-casing is idempotent, so the decoded-format check ignores case. */
  lemma AsciiLowerIdempotent(s: string)
    ensures AsciiLower(AsciiLower(s)) == AsciiLower(s)
  {
  }

  lemma ValidateImageIgnoresCase(bytes: seq<byte>, f: string)
    ensures ValidateImage(Image(bytes, Some(f))) == ValidateImage(Image(bytes, Some(AsciiLower(f))))
  {
    AsciiLowerIdempotent(f);
  }

  /** A decoded image small enough and reported as "JPEG" or "PNG" passes. */
  lemma ValidateImageAcceptsDecoderNames(bytes: seq<byte>)
    requires |bytes| <= MaxUploadBytes
    ensures ValidateImage(Image(bytes, Some("JPEG")))
    ensures ValidateImage(Image(bytes, Some("PNG")))
    ensures !ValidateImage(Image(bytes, Some("GIF")))
  {
    assert AsciiLower("JPEG") == "jpeg";
    assert AsciiLower("PNG") == "png";
    assert AsciiLower("GIF") == "gif";
  }
}
