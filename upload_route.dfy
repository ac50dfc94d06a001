/**
 * `POST /api/upload`: the rate limiter, multer's single-file middleware with
 * the filter, size limit and disk storage, the handler that answers with the
 * upload receipt, and the error middleware that turns failures into `{error}`.
 */
module UploadRoute {
  import opened Wrappers
  import opened Api
  import opened Naming
  import opened Validation

  /** Settings of the upload rate limiter; the per-client counting lives in `express-rate-limit`. */
  const RateWindowMs: nat := 15 * 60 * 1000
  const RateMaxRequests: nat := 20
  const RateLimitStatus: nat := 429
  const RateLimitMessage: string := "Too many upload requests, please try again later."

  /** The multipart field `upload.single` reads. */
  const FieldName: string := "image"

  const NoFileMessage: string := "No file uploaded"
  const SizeTooLargeMessage: string := "File size too large. Maximum size is 5MB."
  const UploadedMessage: string := "File uploaded successfully"

  /** Multer error codes and the messages multer gives them. */
  const LimitFileSize: string := "LIMIT_FILE_SIZE"
  const LimitUnexpectedFile: string := "LIMIT_UNEXPECTED_FILE"
  const FileTooLarge: string := "File too large"
  const UnexpectedField: string := "Unexpected field"

  /** The file part of a multipart request, as multer sees it before storing it. */
  datatype Part = Part(field: string, originalName: string, mimetype: string, size: nat)

  /** An error passed to `next`: a `MulterError` with its code, or any other `Error`. */
  datatype Failure = MulterFailure(code: string, message: string) | PlainFailure(message: string)

  /** `req.file` after multer has written the upload to disk. */
  datatype StoredFile = StoredFile(filename: string, originalName: string, size: nat)

  datatype MulterResult = Passed(file: Option<StoredFile>) | Failed(err: Failure)

  /**
   * `upload.single('image')`: a part without a file name is skipped as if no
   * file had been sent, a part under another field is refused, then the
   * filter looks at the MIME type before any byte is read, then the size
   * limit applies while the body streams, then the disk write may fail.
   * `millis` and `rand` stand for `Date.now()` and
   * `Math.round(Math.random() * 1E9)`; `writeError` for a failing write.
   */
  function RunMulter(part: Option<Part>, millis: nat, rand: nat, writeError: Option<string>): (m: MulterResult)
    ensures part.None? ==> m == Passed(None)
    ensures part.Some? && part.value.originalName == "" ==> m == Passed(None)
    ensures part.Some? && part.value.originalName != "" && part.value.field != FieldName ==>
      m == Failed(MulterFailure(LimitUnexpectedFile, UnexpectedField))
    ensures part.Some? && part.value.originalName != "" && part.value.field == FieldName &&
            FileFilter(part.value.mimetype).Reject? ==>
      m == Failed(PlainFailure(InvalidTypeMessage))
    ensures part.Some? && part.value.originalName != "" && part.value.field == FieldName &&
            FileFilter(part.value.mimetype).Accept? && !WithinSizeLimit(part.value.size) ==>
      m == Failed(MulterFailure(LimitFileSize, FileTooLarge))
    ensures part.Some? && Acceptable(part.value) && writeError.Some? ==>
      m == Failed(PlainFailure(writeError.value))
    ensures part.Some? && Acceptable(part.value) && writeError.None? ==>
      m == Passed(Some(StoredFile(StoredName(millis, rand, part.value.originalName), part.value.originalName, part.value.size)))
  {
    match part
    case None => Passed(None)
    case Some(p) =>
      if p.originalName == "" then Passed(None)
      else if p.field != FieldName then Failed(MulterFailure(LimitUnexpectedFile, UnexpectedField))
      else match FileFilter(p.mimetype)
        case Reject(msg) => Failed(PlainFailure(msg))
        case Accept =>
          if !WithinSizeLimit(p.size) then Failed(MulterFailure(LimitFileSize, FileTooLarge))
          else if writeError.Some? then Failed(PlainFailure(writeError.value))
          else Passed(Some(StoredFile(StoredName(millis, rand, p.originalName), p.originalName, p.size)))
  }

  /** The route handler: no file is a client error, a stored file is answered with its receipt. */
  function RespondUpload(file: Option<StoredFile>): (r: Response)
    ensures file.None? ==> r == Response(400, ErrorBody(NoFileMessage))
    ensures file.Some? ==>
      r == Response(200, UploadedBody(UploadedMessage, file.value.filename, file.value.originalName,
                                      file.value.size, "/uploads/" + file.value.filename))
  {
    match file
    case None => Response(400, ErrorBody(NoFileMessage))
    case Some(f) => Response(200, UploadedBody(UploadedMessage, f.filename, f.originalName, f.size, UploadsPath(f.filename)))
  }

  /** The error middleware: every error becomes a 400 carrying its own message, except multer's size error. */
  function HandleError(err: Failure): (r: Response)
    ensures r.status == 400 && r.body.ErrorBody?
    ensures err.MulterFailure? && err.code == LimitFileSize ==> r.body.error == SizeTooLargeMessage
    ensures !(err.MulterFailure? && err.code == LimitFileSize) ==> r.body.error == err.message
  {
    match err
    case MulterFailure(code, msg) =>
      if code == LimitFileSize then Response(400, ErrorBody(SizeTooLargeMessage))
      else Response(400, ErrorBody(msg))
    case PlainFailure(msg) => Response(400, ErrorBody(msg))
  }

  /** What the server will store: a named file in the right field, of an allowed type, within the size limit. */
  predicate Acceptable(p: Part)
  {
    p.originalName != "" && p.field == FieldName && FileFilter(p.mimetype).Accept? && WithinSizeLimit(p.size)
  }

  datatype UploadOutcome = UploadOutcome(response: Response, stored: Option<StoredFile>)

  /**
   * One upload request through the whole route; `limited` is the rate
   * limiter's verdict for this client. The outcome is the response and the
   * file left in the upload directory, if any.
   */
  function Upload(limited: bool, part: Option<Part>, millis: nat, rand: nat, writeError: Option<string>): (o: UploadOutcome)
    ensures o.response.status == 200 || o.response.status == 400 || o.response.status == 429
    ensures o.stored.Some? <==> o.response.status == 200
    ensures o.response.status == 200 <==> !limited && part.Some? && Acceptable(part.value) && writeError.None?
    ensures o.response.status == 200 ==>
      var name := StoredName(millis, rand, part.value.originalName);
      && o.stored == Some(StoredFile(name, part.value.originalName, part.value.size))
      && o.response.body == UploadedBody(UploadedMessage, name, part.value.originalName, part.value.size, "/uploads/" + name)
    ensures limited ==> o.response == Response(RateLimitStatus, ErrorBody(RateLimitMessage))
    ensures !limited ==> o.response.status != RateLimitStatus
    ensures !limited && (part.None? || part.value.originalName == "") ==>
      o.response == Response(400, ErrorBody(NoFileMessage))
    ensures !limited && part.Some? && part.value.originalName != "" && part.value.field != FieldName ==>
      o.response == Response(400, ErrorBody(UnexpectedField))
    ensures !limited && part.Some? && part.value.originalName != "" && part.value.field == FieldName &&
            FileFilter(part.value.mimetype).Reject? ==>
      o.response == Response(400, ErrorBody(InvalidTypeMessage))
    ensures !limited && part.Some? && part.value.originalName != "" && part.value.field == FieldName &&
            FileFilter(part.value.mimetype).Accept? && !WithinSizeLimit(part.value.size) ==>
      o.response == Response(400, ErrorBody(SizeTooLargeMessage))
    ensures !limited && part.Some? && Acceptable(part.value) && writeError.Some? ==>
      o.response == Response(400, ErrorBody(writeError.value))
  {
    if limited then UploadOutcome(Response(RateLimitStatus, ErrorBody(RateLimitMessage)), None)
    else match RunMulter(part, millis, rand, writeError)
      case Failed(err) => UploadOutcome(HandleError(err), None)
      case Passed(file) => UploadOutcome(RespondUpload(file), file)
  }

  /** A 10-byte PNG called `cat pic!.png` is stored as `<millis>-<rand>-cat_pic_.png`. */
  lemma CatPictureExample(millis: nat, rand: nat, name: string)
    requires name == "cat pic!.png"
    ensures var o := Upload(false, Some(Part(FieldName, name, "image/png", 10)), millis, rand, None);
      && o.response.status == 200
      && o.response.body.path == "/uploads/" + Strings.Decimal(millis) + "-" + Strings.Decimal(rand) + "-cat_pic_.png"
      && o.response.body.size == 10
  {
    var p := Part(FieldName, name, "image/png", 10);
    assert Acceptable(p);
    AcceptedReceipt(p, millis, rand);
    StoredNameExample(millis, rand, name);
    ConcatAssoc("/uploads/", Strings.Decimal(millis) + "-" + Strings.Decimal(rand), "-cat_pic_.png");
  }

  lemma ConcatAssoc(a: string, b: string, c: string)
    ensures a + (b + c) == a + b + c
  {
  }

  lemma AcceptedReceipt(p: Part, millis: nat, rand: nat)
    requires Acceptable(p)
    ensures var o := Upload(false, Some(p), millis, rand, None);
      && o.response.status == 200
      && o.response.body.path == "/uploads/" + StoredName(millis, rand, p.originalName)
      && o.response.body.size == p.size
  {
  }

  /** A PDF is refused with the type message and nothing is written. */
  lemma PdfExample(millis: nat, rand: nat, size: nat)
    ensures var o := Upload(false, Some(Part(FieldName, "doc.pdf", "application/pdf", size)), millis, rand, None);
      o.response == Response(400, ErrorBody(InvalidTypeMessage)) && o.stored.None?
  {
  }
}
