/**
 * The server's authoritative upload checks: multer's `fileFilter` (a MIME
 * allowlist) and its `limits.fileSize` (5 MiB).
 */
module Validation {
  import opened Strings

  const AllowedTypes: seq<string> := ["image/jpeg", "image/jpg", "image/png", "image/gif", "image/webp"]

  /** `5 * 1024 * 1024` bytes. */
  const MaxFileSize: nat := 5 * 1024 * 1024

  const InvalidTypeMessage: string := "Invalid file type. Only JPEG, PNG, GIF, and WebP images are allowed."

  datatype FilterDecision = Accept | Reject(message: string)

  /** `fileFilter`: accept exactly the listed image types, otherwise fail with the invalid-type error. */
  function FileFilter(mimetype: string): (d: FilterDecision)
    ensures d.Accept? <==>
      mimetype == "image/jpeg" || mimetype == "image/jpg" || mimetype == "image/png" ||
      mimetype == "image/gif" || mimetype == "image/webp"
    ensures d.Reject? ==> d.message == InvalidTypeMessage
  {
    if mimetype in AllowedTypes then Accept else Reject(InvalidTypeMessage)
  }

  /** Multer raises its size error only once a file has more bytes than the limit. */
  predicate WithinSizeLimit(size: nat)
  {
    size <= MaxFileSize
  }

  lemma SizeLimitBoundary()
    ensures WithinSizeLimit(5242880) && !WithinSizeLimit(5242881)
  {
  }

  /** Every accepted type is an `image/` type, and common other types are refused. */
  lemma AcceptedAreImages(mimetype: string)
    ensures FileFilter(mimetype).Accept? ==> StartsWith(mimetype, "image/")
    ensures FileFilter("application/pdf").Reject? && FileFilter("image/svg+xml").Reject?
    ensures FileFilter("IMAGE/PNG").Reject?
  {
  }
}
