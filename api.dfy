/**
 * The JSON shapes the server sends and the browser reads: an HTTP status with
 * either an `{error}` object, the upload receipt, or the `{images}` listing.
 */
module Api {

  /** Public URL under which the static handler serves a stored file. */
  function UploadsPath(filename: string): (p: string)
    ensures |p| == |filename| + 9 && p[..9] == "/uploads/" && p[9..] == filename
  {
    "/uploads/" + filename
  }

  /** One gallery entry, rebuilt from the directory on every listing request. */
  datatype ImageRecord = ImageRecord(filename: string, path: string, size: nat, uploadedAt: int)

  datatype Body =
    | ErrorBody(error: string)
    | UploadedBody(message: string, filename: string, originalName: string, size: nat, path: string)
    | ImagesBody(images: seq<ImageRecord>)

  datatype Response = Response(status: nat, body: Body)
}
