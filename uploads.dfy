/** The two multipart upload configurations (backend/config/multer.js) and the
    way their errors reach the client: through the central error middleware on
    the report routes, through handleMulterError on the notice route
    (backend/routes/noticeRoutes.js). */
module Uploads {
  import opened Common

  /** What the upload step sees of a file: its declared MIME type and its size in bytes. */
  datatype File = File(mimetype: string, size: nat)

  /** The generic configuration (report images and completion images). */
  const GenericMimeTypes: set<string> := {"image/jpeg", "image/png", "image/gif", "application/pdf"}
  const GenericSizeLimit: nat := 10 * 1024 * 1024
  const GenericTypeError: string := "Invalid file type. Only images and PDFs are allowed."

  /** The notice configuration (notice attachments). */
  const NoticeMimeType: string := "application/pdf"
  const NoticeSizeLimit: nat := 1 * 1024 * 1024
  const NoticeTypeError: string := "Only PDF files are allowed for notices"

  /** An upload failure: a code ("" for the file filters' plain errors) and a message. */
  datatype UploadError = UploadError(code: string, message: string)

  /** The error the upload library raises for a file over the size limit. */
  const LimitFileSize: UploadError := UploadError("LIMIT_FILE_SIZE", "File too large")

  /** The upload step for the generic configuration: no file passes through
      untouched; otherwise the MIME filter runs first and the size limit second. */
  function GenericUpload(file: Option<File>): (err: Option<UploadError>)
    ensures err.None? <==>
      file.None? || (file.value.mimetype in GenericMimeTypes && file.value.size <= GenericSizeLimit)
    ensures file.Some? && file.value.mimetype !in GenericMimeTypes ==>
      err == Some(UploadError("", GenericTypeError))
    ensures file.Some? && file.value.mimetype in GenericMimeTypes && file.value.size > GenericSizeLimit ==>
      err == Some(LimitFileSize)
  {
    match file
    case None => None
    case Some(f) =>
      if f.mimetype !in GenericMimeTypes then Some(UploadError("", GenericTypeError))
      else if f.size > GenericSizeLimit then Some(LimitFileSize)
      else None
  }

  /** The upload step for the notice configuration: only PDFs up to 1 MiB. */
  function NoticeUpload(file: Option<File>): (err: Option<UploadError>)
    ensures err.None? <==>
      file.None? || (file.value.mimetype == NoticeMimeType && file.value.size <= NoticeSizeLimit)
    ensures file.Some? && file.value.mimetype != NoticeMimeType ==>
      err == Some(UploadError("", NoticeTypeError))
    ensures file.Some? && file.value.mimetype == NoticeMimeType && file.value.size > NoticeSizeLimit ==>
      err == Some(LimitFileSize)
  {
    match file
    case None => None
    case Some(f) =>
      if f.mimetype != NoticeMimeType then Some(UploadError("", NoticeTypeError))
      else if f.size > NoticeSizeLimit then Some(LimitFileSize)
      else None
  }

  /** The notice route's error handler: every upload error becomes a 400; an
      oversized file gets a fixed message, any other error its own message or
      a generic one when it has none. */
  function HandleMulterError(err: UploadError): (r: Response)
    ensures r.BadRequest? && r.error != ""
    ensures err.code == "LIMIT_FILE_SIZE" ==> r.error == "PDF file size must be less than 1MB"
    ensures err.code != "LIMIT_FILE_SIZE" ==>
      r.error == (if err.message != "" then err.message else "File upload error")
  {
    if err.code == "LIMIT_FILE_SIZE" then BadRequest("PDF file size must be less than 1MB")
    else if err.message == NoticeTypeError then BadRequest(err.message)
    else BadRequest(if err.message != "" then err.message else "File upload error")
  }

  /** Every refusal of the notice upload step reaches the client as one of two
      400 answers, never as a server error. */
  lemma NoticeUploadRefusals(file: Option<File>)
    requires NoticeUpload(file).Some?
    ensures HandleMulterError(NoticeUpload(file).value) in
      {BadRequest("PDF file size must be less than 1MB"), BadRequest(NoticeTypeError)}
  {
  }

  /** A file the notice configuration accepts is also accepted by the generic
      one: the notice rules are strictly tighter. */
  lemma NoticeRulesTighter(file: Option<File>)
    ensures NoticeUpload(file).None? ==> GenericUpload(file).None?
  {
  }
}
