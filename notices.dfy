/** Notices (backend/controllers/noticeController.js behind
    backend/routes/noticeRoutes.js): creation with its checks and defaults,
    the choice of e-mail recipients, the three listings, the PDF view and
    download lookups, and deletion. The notices collection is a map from
    notice id to notice. */
module Notices {
  import opened Common
  import opened NoticeModel
  import Uploads
  import Routes

  type Board = map<Id, Notice>

  datatype NoticeOutcome = NoticeOutcome(response: Response, notices: Board)

  /** Every stored notice passed the schema's checks. */
  predicate BoardValid(notices: Board)
  {
    forall id :: id in notices ==> Wellformed(notices[id])
  }

  const PdfOnlyError := "Only PDF files are allowed"

  /** The notice a successful create stores. */
  function NewNotice(caller: Caller, title: string, description: string, audience: Audience,
                     uploaded: Option<Url>, now: int): (n: Notice)
    ensures n.isActive && n.title == title && n.createdBy == caller.id && n.audience == audience
    ensures n.description.None? <==> description == ""
    ensures n.description.Some? ==> n.description.value == description
    ensures n.pdfUrl == uploaded
  {
    Notice(title, if description != "" then Some(description) else None, uploaded, audience, caller.id, true, now)
  }

  /** createNotice: `file` is what the upload step let through, `uploaded`
      the media store's answer for it, `newId` the id of the new document. */
  function CreateNotice(notices: Board, caller: Caller, newId: Id, title: string, description: string,
                        audience: string, file: Option<Uploads.File>, uploaded: Option<Url>, now: int): (o: NoticeOutcome)
    requires newId !in notices
    ensures title == "" ==> o.response == BadRequest("Title is required")
    ensures title != "" && file.Some? && file.value.mimetype != Uploads.NoticeMimeType ==>
      o.response == BadRequest(PdfOnlyError)
    ensures o.response.Created? <==>
      && title != "" && caller.id != ""
      && (file.Some? ==> file.value.mimetype == Uploads.NoticeMimeType && uploaded.Some?)
      && (audience == "" || ParseAudience(audience).Some?)
    ensures !o.response.Created? ==> o.notices == notices
    ensures o.response.Created? ==>
      && o.response == Created(newId)
      && o.notices == notices[newId := NewNotice(caller, title, description,
                                                 if audience == "" then PublicAudience else ParseAudience(audience).value,
                                                 if file.Some? then uploaded else None, now)]
    ensures BoardValid(notices) ==> BoardValid(o.notices)
  {
    if title == "" then NoticeOutcome(BadRequest("Title is required"), notices)
    else if file.Some? && file.value.mimetype != Uploads.NoticeMimeType then NoticeOutcome(BadRequest(PdfOnlyError), notices)
    else if file.Some? && uploaded.None? then NoticeOutcome(ServerError(UploadFailed), notices)
    else
      var name := if audience == "" then "public" else audience;
      var parsed := ParseAudience(name);
      if parsed.None? then NoticeOutcome(ServerError(ValidationFailed), notices)
      else
        var n := NewNotice(caller, title, description, parsed.value, if file.Some? then uploaded else None, now);
        if !Wellformed(n) then NoticeOutcome(ServerError(ValidationFailed), notices)
        else NoticeOutcome(Created(newId), notices[newId := n])
  }

  /** POST /notices as routed: the authority guard, the notice upload step and
      its error handler, then createNotice. */
  function PostNotice(notices: Board, caller: Caller, newId: Id, title: string, description: string,
                      audience: string, file: Option<Uploads.File>, uploaded: Option<Url>, now: int): (o: NoticeOutcome)
    requires newId !in notices
    ensures caller.role != Authority ==> o == NoticeOutcome(RoleDenied, notices)
    ensures caller.role == Authority && Uploads.NoticeUpload(file).Some? ==>
      o == NoticeOutcome(Uploads.HandleMulterError(Uploads.NoticeUpload(file).value), notices)
    ensures caller.role == Authority && Uploads.NoticeUpload(file).None? ==>
      o == CreateNotice(notices, caller, newId, title, description, audience, file, uploaded, now)
  {
    if !Routes.Admits(Routes.GuardOf(Routes.CreateNotice), Some(caller)) then NoticeOutcome(RoleDenied, notices)
    else
      var err := Uploads.NoticeUpload(file);
      if err.Some? then NoticeOutcome(Uploads.HandleMulterError(err.value), notices)
      else CreateNotice(notices, caller, newId, title, description, audience, file, uploaded, now)
  }

  /** Through the route, the upload step refuses a non-PDF before the handler
      runs: the handler's own PDF check never answers, and a non-PDF file
      wins over a missing title. */
  lemma HandlerPdfCheckUnreachable(notices: Board, caller: Caller, newId: Id, title: string, description: string,
                                   audience: string, file: Option<Uploads.File>, uploaded: Option<Url>, now: int)
    requires newId !in notices
    ensures PostNotice(notices, caller, newId, title, description, audience, file, uploaded, now).response
      != BadRequest(PdfOnlyError)
    ensures caller.role == Authority && file.Some? && file.value.mimetype != Uploads.NoticeMimeType ==>
      PostNotice(notices, caller, newId, title, description, audience, file, uploaded, now).response
        == BadRequest(Uploads.NoticeTypeError)
  {
    var err := Uploads.NoticeUpload(file);
    if caller.role == Authority && err.Some? {
      Uploads.NoticeUploadRefusals(file);
    }
  }

  /** A document of the workers collection (backend/models/Worker.js): the
      account it belongs to and a work history. It has no e-mail field and
      no isActive field. */
  datatype WorkerRecord = WorkerRecord(user: Id)

  /** The `email` a selected worker record carries: undefined, as the
      schema has no such field. */
  function RecordEmail(w: WorkerRecord): (email: Option<string>)
    ensures email.None?
  {
    None
  }

  /** The addresses of the active accounts with the given role. */
  function ActiveEmails(accounts: map<Id, Account>, role: Role): (r: set<string>)
    ensures forall e :: e in r <==> exists id :: id in accounts && accounts[id].role == role && accounts[id].isActive && accounts[id].email == e
  {
    set id | id in accounts && accounts[id].role == role && accounts[id].isActive :: accounts[id].email
  }

  /** The `to` values the mailer receives for a new notice, as written
      (None for an undefined address): the active citizens for a public (or
      absent) audience; for a worker audience, whatever the worker records
      the query returns carry. */
  function RecipientsAsWritten(accounts: map<Id, Account>, workers: seq<WorkerRecord>, audience: string): (r: set<Option<string>>)
    ensures audience == "" || audience == "public" ==> forall e :: Some(e) in r <==> e in ActiveEmails(accounts, User)
    ensures audience == "worker" ==> forall e :: Some(e) !in r
  {
    if audience == "public" || audience == "" then set e | e in ActiveEmails(accounts, User) :: Some(e)
    else if audience == "worker" then set w | w in workers :: RecordEmail(w)
    else {}
  }

  /** A worker notice reaches no active worker account. */
  lemma WorkerNoticeReachesNobody(accounts: map<Id, Account>, workers: seq<WorkerRecord>, id: Id)
    requires id in accounts && accounts[id].role == Worker && accounts[id].isActive
    ensures Some(accounts[id].email) !in RecipientsAsWritten(accounts, workers, "worker")
    ensures accounts[id].email in Recipients(accounts, "worker")
  {
  }

  /** The recipients as intended: the active accounts of the audience's role.
      E-mail delivery is a no-op that never fails; the notice is saved and
      the answer is 201 whoever the recipients are. */
  function Recipients(accounts: map<Id, Account>, audience: string): (r: set<string>)
    ensures audience == "" || audience == "public" ==> r == ActiveEmails(accounts, User)
    ensures audience == "worker" ==> r == ActiveEmails(accounts, Worker)
    ensures audience != "" && audience != "public" && audience != "worker" ==> r == {}
  {
    if audience == "public" || audience == "" then ActiveEmails(accounts, User)
    else if audience == "worker" then ActiveEmails(accounts, Worker)
    else {}
  }

  /** getPublicNotices. */
  function PublicNotices(notices: Board): (ids: set<Id>)
    ensures forall id :: id in ids <==> id in notices && notices[id].audience == PublicAudience && notices[id].isActive
  {
    set id | id in notices && notices[id].audience == PublicAudience && notices[id].isActive
  }

  /** getWorkerNotices: worker notices only, public ones excluded. */
  function WorkerNotices(notices: Board): (ids: set<Id>)
    ensures forall id :: id in ids <==> id in notices && notices[id].audience == WorkerAudience && notices[id].isActive
  {
    set id | id in notices && notices[id].audience == WorkerAudience && notices[id].isActive
  }

  /** getAllNotices: every notice, active or not. */
  function AllNotices(notices: Board): (ids: set<Id>)
    ensures ids == notices.Keys
  {
    set id | id in notices
  }

  /** The two audience listings never share a notice, and together they are
      exactly the active notices. */
  lemma ListingsPartitionActive(notices: Board)
    ensures PublicNotices(notices) !! WorkerNotices(notices)
    ensures PublicNotices(notices) + WorkerNotices(notices)
      == set id | id in AllNotices(notices) && notices[id].isActive
  {
  }

  /** What view and download answer: a refusal, or the stored PDF streamed,
      with an attachment file name for the download. */
  datatype PdfAnswer = PdfRefused(response: Response) | Stream(pdfUrl: Url, filename: Option<string>)

  function PdfLookup(notices: Board, id: Id): (a: PdfAnswer)
    ensures id !in notices ==> a == PdfRefused(NotFound("Notice not found"))
    ensures id in notices && (notices[id].pdfUrl.None? || notices[id].pdfUrl.value == "") ==>
      a == PdfRefused(NotFound("No PDF attached to this notice"))
    ensures a.Stream? <==> id in notices && notices[id].pdfUrl.Some? && notices[id].pdfUrl.value != ""
    ensures a.Stream? ==> a == Stream(notices[id].pdfUrl.value, None)
  {
    if id !in notices then PdfRefused(NotFound("Notice not found"))
    else if notices[id].pdfUrl.None? || notices[id].pdfUrl.value == "" then
      PdfRefused(NotFound("No PDF attached to this notice"))
    else Stream(notices[id].pdfUrl.value, None)
  }

  /** viewNoticePdf: 404 for an unknown notice or one without a PDF;
      otherwise the stored PDF, streamed inline. View and download refuse
      the same requests in the same words and stream the same address. */
  function ViewPdf(notices: Board, id: Id): (a: PdfAnswer)
    ensures id !in notices ==> a == PdfRefused(NotFound("Notice not found"))
    ensures a.Stream? <==> id in notices && notices[id].pdfUrl.Some? && notices[id].pdfUrl.value != ""
    ensures a.Stream? ==> a.pdfUrl == notices[id].pdfUrl.value && a.filename.None?
    ensures a.Stream? <==> DownloadPdf(notices, id).Stream?
    ensures a.PdfRefused? ==> a == DownloadPdf(notices, id)
    ensures a.Stream? ==> a.pdfUrl == DownloadPdf(notices, id).pdfUrl
  {
    PdfLookup(notices, id)
  }

  /** downloadNoticePdf: the same lookup, streamed as `notice-<id>.pdf`. */
  function DownloadPdf(notices: Board, id: Id): (a: PdfAnswer)
    ensures a.PdfRefused? <==> PdfLookup(notices, id).PdfRefused?
    ensures a.PdfRefused? ==> a == PdfLookup(notices, id)
    ensures a.Stream? ==> a.pdfUrl == PdfLookup(notices, id).pdfUrl && a.filename == Some("notice-" + id + ".pdf")
  {
    var v := PdfLookup(notices, id);
    if v.PdfRefused? then v else Stream(v.pdfUrl, Some("notice-" + id + ".pdf"))
  }

  /** deleteNotice: a hard delete. */
  function DeleteNotice(notices: Board, id: Id): (o: NoticeOutcome)
    ensures id !in notices ==> o == NoticeOutcome(NotFound("Notice not found"), notices)
    ensures id in notices ==> o.response == Ok && o.notices.Keys == notices.Keys - {id}
    ensures forall other :: other in o.notices ==> other in notices && o.notices[other] == notices[other]
    ensures BoardValid(notices) ==> BoardValid(o.notices)
  {
    if id !in notices then NoticeOutcome(NotFound("Notice not found"), notices)
    else NoticeOutcome(Ok, notices - {id})
  }

  /** A freshly created public notice is listed publicly until deleted; once
      deleted no listing or PDF lookup finds it. */
  lemma CreateThenDelete(notices: Board, caller: Caller, newId: Id, title: string, description: string,
                         file: Option<Uploads.File>, uploaded: Option<Url>, now: int)
    requires newId !in notices
    requires CreateNotice(notices, caller, newId, title, description, "", file, uploaded, now).response.Created?
    ensures newId in PublicNotices(CreateNotice(notices, caller, newId, title, description, "", file, uploaded, now).notices)
    ensures
      var after := DeleteNotice(CreateNotice(notices, caller, newId, title, description, "", file, uploaded, now).notices, newId);
      && after.notices == notices
      && newId !in AllNotices(after.notices)
      && PdfLookup(after.notices, newId) == PdfRefused(NotFound("Notice not found"))
  {
    var created := CreateNotice(notices, caller, newId, title, description, "", file, uploaded, now);
    assert created.notices - {newId} == notices;
  }

  /** The notices collection as the handlers change it. */
  class NoticeBoard {
    var notices: Board

    ghost predicate Valid()
      reads this
    {
      BoardValid(notices)
    }

    constructor ()
      ensures Valid() && notices == map[]
    {
      notices := map[];
    }

    /** createNotice. */
    method Create(caller: Caller, newId: Id, title: string, description: string, audience: string,
                  file: Option<Uploads.File>, uploaded: Option<Url>, now: int) returns (response: Response)
      requires Valid() && newId !in notices
      modifies this
      ensures Valid()
      ensures NoticeOutcome(response, notices) ==
        CreateNotice(old(notices), caller, newId, title, description, audience, file, uploaded, now)
    {
      if title == "" {
        return BadRequest("Title is required");
      }
      var pdfUrl: Option<Url> := None;
      if file.Some? {
        if file.value.mimetype != Uploads.NoticeMimeType {
          return BadRequest(PdfOnlyError);
        }
        if uploaded.None? {
          return ServerError(UploadFailed);
        }
        pdfUrl := uploaded;
      }
      var parsed := ParseAudience(if audience == "" then "public" else audience);
      if parsed.None? {
        return ServerError(ValidationFailed);
      }
      var notice := Notice(title, if description != "" then Some(description) else None, pdfUrl,
                           parsed.value, caller.id, true, now);
      if !Wellformed(notice) {
        return ServerError(ValidationFailed);
      }
      notices := notices[newId := notice];
      response := Created(newId);
    }

    /** deleteNotice. */
    method Delete(id: Id) returns (response: Response)
      requires Valid()
      modifies this
      ensures Valid()
      ensures NoticeOutcome(response, notices) == DeleteNotice(old(notices), id)
    {
      if id !in notices {
        return NotFound("Notice not found");
      }
      notices := notices - {id};
      response := Ok;
    }
  }
}
