/**
 * The browser script's decisions: the advisory `validateFile` check, which of
 * the dropped files is taken, and which gallery view `loadGallery` shows.
 */
module Client {
  import opened Wrappers
  import opened Strings
  import opened Api
  import Validation
  import UploadRoute
  import Gallery

  /** The browser's own copy of the allowlist and of the 5 MB limit. */
  const ClientAllowedTypes: seq<string> := ["image/jpeg", "image/jpg", "image/png", "image/gif", "image/webp"]
  const ClientMaxSize: nat := 5 * 1024 * 1024

  const ClientTypeMessage: string := "Invalid file type. Please select a JPEG, PNG, GIF, or WebP image."
  const ClientSizeMessage: string := "File size too large. Maximum size is 5MB."

  /** A `File` object as the page sees it: its name, declared type and size in bytes. */
  datatype ClientFile = ClientFile(name: string, mime: string, size: nat)

  /** `validateFile`'s return value, with the message it shows when it returns false. */
  datatype Verdict = Valid | Invalid(message: string)

  /** `validateFile`: the type is checked first, the size second. */
  function ValidateFile(f: ClientFile): (v: Verdict)
    ensures v.Valid? <==> Validation.FileFilter(f.mime).Accept? && Validation.WithinSizeLimit(f.size)
    ensures Validation.FileFilter(f.mime).Reject? ==> v == Invalid(ClientTypeMessage)
    ensures Validation.FileFilter(f.mime).Accept? && !Validation.WithinSizeLimit(f.size) ==>
      v == Invalid(UploadRoute.SizeTooLargeMessage)
  {
    if f.mime !in ClientAllowedTypes then Invalid(ClientTypeMessage)
    else if f.size > ClientMaxSize then Invalid(ClientSizeMessage)
    else Valid
  }

  /** A file that fails both checks is reported for its type, never for its size. */
  lemma TypeCheckedBeforeSize(f: ClientFile)
    requires f.mime !in ClientAllowedTypes && f.size > ClientMaxSize
    ensures ValidateFile(f) == Invalid(ClientTypeMessage)
  {
  }

  /**
   * The client check is advisory but never stricter nor looser than the
   * server: a named file it accepts, sent as the `image` field by a client
   * that is not rate limited, is stored when the write succeeds, and a file
   * it refuses is refused by the server too.
   */
  lemma ClientAgreesWithServer(f: ClientFile, millis: nat, rand: nat)
    ensures var o := UploadRoute.Upload(false, Some(UploadRoute.Part(UploadRoute.FieldName, f.name, f.mime, f.size)), millis, rand, None);
      && (f.name != "" ==> (ValidateFile(f).Valid? <==> o.response.status == 200))
      && (o.response.status == 200 ==> ValidateFile(f).Valid?)
  {
  }

  /** What the drop handler does with the files of a drop event. */
  datatype DropResult = Ignored | Refused(message: string) | Chosen(file: ClientFile)

  /**
   * The drop handler: only the first dropped file is looked at, it is ignored
   * silently unless its type starts with `image/`, and otherwise it goes
   * through `validateFile`.
   */
  function OnDrop(files: seq<ClientFile>): (d: DropResult)
    ensures d.Chosen? <==> |files| > 0 && ValidateFile(files[0]).Valid?
    ensures d.Chosen? ==> d.file == files[0]
    ensures d.Refused? ==> |files| > 0 && StartsWith(files[0].mime, "image/") && ValidateFile(files[0]) == Invalid(d.message)
    ensures d == Ignored <==> |files| == 0 || !StartsWith(files[0].mime, "image/")
  {
    if |files| == 0 then Ignored
    else
      var f := files[0];
      if !StartsWith(f.mime, "image/") then Ignored
      else match ValidateFile(f)
        case Valid => Chosen(f)
        case Invalid(msg) => Refused(msg)
  }

  /** Files after the first one never influence a drop. */
  lemma OnDropFirstOnly(files: seq<ClientFile>, more: seq<ClientFile>)
    requires |files| > 0
    ensures OnDrop(files + more) == OnDrop(files[..1])
  {
    assert (files + more)[0] == files[..1][0];
  }

  /** The JSON the page gets back from `/api/images`, or a failed fetch or parse. */
  datatype Fetched = FetchFailed | Parsed(images: Option<seq<ImageRecord>>)

  /** `response.json()` on a server answer: `data.images` is present only in a listing. */
  function ReadListing(r: Response): (f: Fetched)
    ensures r.body.ImagesBody? ==> f == Parsed(Some(r.body.images))
    ensures !r.body.ImagesBody? ==> f == Parsed(None)
  {
    match r.body
    case ImagesBody(images) => Parsed(Some(images))
    case _ => Parsed(None)
  }

  datatype GalleryView = ShowImages(images: seq<ImageRecord>) | ShowEmpty | ShowLoadError

  /** `loadGallery`'s choice of view. */
  function LoadGallery(f: Fetched): (v: GalleryView)
    ensures v == ShowEmpty <==> f.Parsed? && (f.images.None? || |f.images.value| == 0)
    ensures v == ShowLoadError <==> f.FetchFailed?
    ensures v.ShowImages? ==> f == Parsed(Some(v.images)) && |v.images| > 0
  {
    match f
    case FetchFailed => ShowLoadError
    case Parsed(images) =>
      if images.Some? && |images.value| > 0 then ShowImages(images.value) else ShowEmpty
  }

  /**
   * `fetch` does not fail on a 500 answer, so a listing the server could not
   * read is shown as an empty gallery, not as a load error.
   */
  lemma ServerErrorShowsEmptyGallery()
    ensures LoadGallery(ReadListing(Response(500, ErrorBody(Gallery.ReadDirError)))) == ShowEmpty
  {
  }
}
