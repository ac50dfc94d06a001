# Image upload server: verified model of its decision core

This project models, in Dafny, the decisions of a small image-upload web
application: an Express server (`server.js`) that stores uploaded images
through multer and lists them as a gallery, and the browser script
(`public/script.js`) that checks files before sending them and renders the
gallery.

What is modelled:

- **Stored file names** (`Naming`): the multer `filename` callback. The
  original name is sanitized by replacing every character outside
  `[A-Za-z0-9.-]` with `_`. The stored name is
  `<millis>-<random>-<sanitized name>`. `Date.now()` and
  `Math.round(Math.random() * 1E9)` are parameters. Numbers are rendered in
  decimal (`Strings.Decimal`), with a parser proved to be its inverse.
- **Server validation** (`Validation`): the `fileFilter` MIME allowlist
  (`image/jpeg`, `image/jpg`, `image/png`, `image/gif`, `image/webp`) and
  multer's 5 × 1024 × 1024-byte file-size limit.
- **The upload route** (`UploadRoute`): the rate limiter's verdict (a
  parameter), then multer's single-file middleware for the field `image`
  (a part without a file name is skipped, then the field check, the filter,
  the size limit and the disk write), then either
  the route handler (`No file uploaded`, or the receipt with
  `path = "/uploads/" + filename`) or the error middleware (multer's
  `LIMIT_FILE_SIZE` becomes the 5MB message; every other error keeps its own
  message; all are status 400).
- **The gallery listing** (`Gallery`): `GET /api/images`. The directory
  listing is an `Option<seq<string>>` (`None` when `readdir` fails). The stat
  results are a map from entry name to size and modification time (a missing
  name is a failing `stat`). The placeholder `.gitkeep` is dropped, one
  record is built per remaining entry, and the records are sorted in place in
  an array by an insertion sort, newest first. A failure at any step gives
  500 `Failed to read uploads directory`.
- **The browser checks** (`Client`): `validateFile` (type before size, with
  its own copy of the allowlist and the limit), the drop handler's choice of
  the first file with an `image/` type, and `loadGallery`'s choice between
  the gallery, the empty-gallery view and the load-error view.

Behaviour of the code worth knowing, which the model keeps:

- A failing disk write reaches the error middleware as an ordinary `Error`.
  The answer is therefore status 400 with that error's message, not a
  500-class status.
- The browser's invalid-type message differs from the server's. The
  browser's size message is the same as the server's.
- Multer writes to `uploads/` relative to the working directory (server.js:19), while the listing reads the `uploads` directory beside `server.js` (server.js:11, 78). The round trip from upload to listing (`Gallery.UploadedFileIsListed`) assumes the two are the same directory, which holds when the server is started from its own directory.
- A listing the server could not read is answered with status 500, and
  `fetch` does not fail on that status. The browser then finds no `images`
  field and shows the empty gallery, not the load-error view
  (`Client.ServerErrorShowsEmptyGallery`).

## Model

| member | source | states |
|---|---|---|
| `Strings.Decimal` | server.js:23 | The rendering of `Date.now()` and of the random token is a non-empty string of decimal digits with no leading zero. |
| `Strings.ParseDecimalInverse` | server.js:23 | Reading the rendered digits back gives the number, so different numbers render differently. |
| `Api.UploadsPath` | server.js:88 | The public path is `/uploads/` followed by the unchanged file name. |
| `Naming.Sanitize` | server.js:24 | Length is preserved. Each character in `[A-Za-z0-9.-]` stays at its position, and every other character becomes `_`. |
| `Naming.SanitizeIsSafe` | server.js:24 | Every character of a sanitized name is a letter, a digit, `.`, `-` or `_`. |
| `Naming.SanitizeIdempotent` | server.js:24 | Sanitizing an already sanitized name changes nothing. |
| `Naming.SanitizeFixedPoints` | server.js:24 | A name is unchanged exactly when all of its characters are letters, digits, `.`, `-` or `_`. |
| `Naming.SanitizeHasNoSeparator` | server.js:24 | No `/` or `\` survives sanitizing. |
| `Naming.SanitizeTraversalExample` | server.js:24 | `../../etc/passwd` becomes `.._.._etc_passwd`. |
| `Naming.SanitizeSpaceExample` | server.js:24 | `cat pic!.png` becomes `cat_pic_.png`. |
| `Naming.StoredName` | server.js:21-26 | The stored name starts with a digit and uses only safe characters, with no path separator. It ends with the sanitized original name. |
| `Naming.StoredNameInjective` | server.js:23-25 | Equal stored names imply equal time stamps, equal random tokens and equal sanitized names, so only a repeated (time, token) pair can collide. |
| `Naming.StoredNameExample` | server.js:23-25 | `cat pic!.png` is stored as `<millis>-<rand>-cat_pic_.png`. |
| `Validation.FileFilter` | server.js:30-37 | Accepts exactly the five listed image types. Anything else is rejected with the invalid-type message. |
| `Validation.SizeLimitBoundary` | server.js:42-44 | A file of exactly 5242880 bytes is within the limit, and one of 5242881 bytes is not. |
| `Validation.AcceptedAreImages` | server.js:31-36 | Every accepted type starts with `image/`. `application/pdf`, `image/svg+xml` and an upper-case `IMAGE/PNG` are rejected. |
| `UploadRoute.RunMulter` | server.js:17-45 | One outcome per path through `upload.single('image')`. An unnamed part counts as no file. Another field fails with `LIMIT_UNEXPECTED_FILE`. A disallowed type fails with the filter's invalid-type error. An oversize file fails with `LIMIT_FILE_SIZE`. A failed write fails with its own error. Otherwise the file is stored under `StoredName` with its original name and size. |
| `UploadRoute.RespondUpload` | server.js:62-72 | No file gives 400 `No file uploaded`. A stored file gives 200 with the success message, its stored name, original name, size and `"/uploads/" + filename`. |
| `UploadRoute.HandleError` | server.js:104-117 | Every error gives status 400 with an `error` field. Multer's `LIMIT_FILE_SIZE` gives the 5MB message, and every other error keeps its own message. |
| `UploadRoute.Upload` | server.js:61-73 | Status 200 exactly when all of these hold: the client is not rate limited, a named file came in the `image` field, its type is allowed, its size is within the limit, and the write succeeded. The model reports a stored file only with status 200, and a 200 always stores one. A partial file left by a failed write is not modelled. A 200 receipt carries the stored name, the original name and size unchanged, and `path = "/uploads/" + filename`. The error answers: 429 only when rate limited; 400 `No file uploaded` for no file or an unnamed one; 400 `Unexpected field` for another field; 400 with the type message for a bad type, whatever the size; 400 with the size message for an allowed oversize file; 400 with the write error's own message when the write fails. |
| `UploadRoute.CatPictureExample` | server.js:61-72 | A 10-byte PNG named `cat pic!.png` is accepted with path `/uploads/<millis>-<rand>-cat_pic_.png` and size 10. |
| `UploadRoute.PdfExample` | server.js:30-37 | A PDF is refused with status 400 and the type message, and nothing is stored. |
| `Gallery.Visible` | server.js:81-82 | The filtered entries are the directory's entries with every `.gitkeep` removed, counted with multiplicity. Nothing else is removed. |
| `Gallery.Records` | server.js:83-92 | There is one record per entry, in directory order. Each record carries the entry's name, its `/uploads/` path, and the size and modification time from its own stat result. |
| `Gallery.RecordsMatchEntries` | server.js:83-92 | Every built record carries its entry's name, `/uploads/` path, stat size and modification time. Every entry has its record. |
| `Gallery.SortNewestFirst` | server.js:95 | After the in-place sort the array is ordered by `uploadedAt`, newest first, and holds the same records as before. |
| `Gallery.ListImages` | server.js:76-101 | Status 200 exactly when the directory was read and every non-placeholder entry was statted, otherwise 500 with the fixed message. A 200 listing is newest first and is a permutation of the records of the non-placeholder entries. |
| `Gallery.ListedRecordsAreEntries` | server.js:81-92 | Every listed record describes a real non-placeholder entry with its own size and modification time. |
| `Gallery.ListingSize` | server.js:81-94 | A listing has exactly as many records as there are entries left after dropping `.gitkeep`; with `Gallery.Visible` that is the number of entries minus the `.gitkeep` ones. |
| `Gallery.EveryEntryListed` | server.js:81-92 | Every entry other than `.gitkeep` appears in the listing with its `/uploads/` path. |
| `Gallery.NewestFirstIsUnique` | server.js:95 | When modification times are distinct, two newest-first arrangements of the same records are equal, so the order is fully determined. |
| `Gallery.ThreeUploadsNewestFirst` | server.js:95 | Uploads made at t1 < t2 < t3 are listed as [t3, t2, t1]. |
| `Gallery.UploadedFileIsListed` | server.js:66-92 | Take an accepted upload and a listing whose directory holds the stored file and whose stat reports the uploaded size. That listing has a record with the receipt's `path` and `size`. The stored name is never `.gitkeep`, so the filter cannot drop it. |
| `Client.ValidateFile` | public/script.js:93-108 | Accepts exactly when the server's filter accepts the type and the size is within the server's limit. A bad type gets the browser's type message, and an allowed type that is too large gets the size message. |
| `Client.TypeCheckedBeforeSize` | public/script.js:97-105 | A file failing both checks is reported with the type message. |
| `Client.ClientAgreesWithServer` | public/script.js:94-95 | Take a client that is not rate limited, sends the file as `image`, and whose write succeeds. For a named file, the browser accepts it exactly when the server answers 200. Whenever the server answers 200, the browser accepted the file. |
| `Client.OnDrop` | public/script.js:37-52 | Only the first dropped file is considered. A drop is ignored, with no message, exactly when there is no file or its type does not start with `image/`. Otherwise the file is chosen exactly when `validateFile` accepts it, and refused with `validateFile`'s message when it does not. |
| `Client.OnDropFirstOnly` | public/script.js:41 | Files after the first never change what a drop does. |
| `Client.ReadListing` | public/script.js:147-148 | For a listing answer, `data.images` is exactly the server's list of records. For any other answer, `data.images` is absent. |
| `Client.LoadGallery` | public/script.js:150-157 | The empty-gallery view is shown exactly when `images` is missing or empty. The load-error view is shown exactly when the fetch failed. Otherwise the listed images are shown. |
| `Client.ServerErrorShowsEmptyGallery` | public/script.js:145-157 | A 500 answer from the listing shows the empty gallery, not the load error. |

## Left out

- Rate limiting: the per-client counting of `express-rate-limit` is not shown in the source. Its verdict is the parameter `limited`, and its settings (15-minute window, 20 requests, status 429, message) are recorded as constants.
- Disk and directory I/O (`mkdirSync`, `readdir`, `stat`, multer's streamed write and its clean-up of a partial file): directory contents, stat results and write failures are inputs.
- `Date.now()` and `Math.random()` are parameters. Uniqueness of stored names is only probabilistic. The model proves that names collide only when the (time, token) pair repeats.
- The concurrent `Promise.all` over `stat` calls is modelled as one sequential map. Any failing `stat` fails the whole listing, as `Promise.all` does.
- Gallery.SortNewestFirst: proves the order and the permutation, but not the stability of JavaScript's `Array.prototype.sort` for records with equal modification times.
- Naming.Sanitize: strings are sequences of Unicode scalar values. JavaScript's regular expression works on UTF-16 code units, so a character outside the Basic Multilingual Plane becomes two `_` there and one `_` here. Multer's decoding of the original file name is not modelled.
- UploadRoute.Upload: `writeError` stands for a write that fails after the whole body has arrived within the size limit. In multer the write and the size limit are independent events, and the first to fire decides the error. So an early write failure, such as a directory that cannot be opened, is reported for an oversize file too; the model gives the size message instead. A partial file left behind by a failed write is not modelled either: the model never reports a stored file for a failed upload.
- Multer internals beyond what the route relies on: the busboy rules that reduce a client-supplied name such as `..` or `dir/` to an empty name are not modelled. The model takes the name after that step and skips a part whose name is empty.
- Other multer internals: only the `image` field check (`LIMIT_UNEXPECTED_FILE`), the filter, the size limit and the write are modelled. Requests with several file parts are not modelled.
- The error middleware's `next()` branch for a missing error is not modelled, because Express calls error middleware only with an error.
- `uploadedAt` is the stat's modification time as an integer number of milliseconds. The server sends a JavaScript `Date`, which `res.json` writes as an ISO 8601 string. The JSON encoding is not modelled. The sort compares the same millisecond values either way.
- Express routing, static file serving of `public/` and `/uploads/`, `app.listen` and the `PORT` setting.
- All browser DOM work: previews (`FileReader`), messages and their timers, button state, the `change` and `submit` handlers, `escapeHtml`, the HTML of the gallery, the KB size display (floating point) and locale date formatting.
