/** The report lifecycle as pure step functions over the report collection
    (backend/controllers/reportController.js and workerController.js). Each
    function is one handler, including the role guard its route puts in
    front of it, taken as one atomic step: it returns the response and the
    collection after the call. The store class in report_store.dfy performs
    the same steps in place and is proved equal to these functions. */
module Lifecycle {
  import opened Common
  import opened ReportModel
  import T = TimelineModel
  import Uploads
  import Routes

  /** The reports collection, keyed by document id. */
  type Store = map<Id, Report>

  datatype Outcome = Outcome(response: Response, reports: Store)

  /** The `location` field of a create request once parsed; None for an
      absent or falsy latitude or longitude. */
  datatype LocationInput = LocationInput(address: string, latitude: Option<real>, longitude: Option<real>)

  /** The `location` field of a create request: absent, or a value that
      parses to something falsy (NoLocation); a string that is not JSON
      (Unparsable: JSON.parse throws); or a parsed location. A parsed value
      without an address has address "". */
  datatype LocationField = NoLocation | Unparsable | Parsed(value: LocationInput)

  /** `x || null` on a coordinate: zero is falsy and is stored as null. */
  function OrNull(x: Option<real>): (r: Option<real>)
    ensures r.Some? <==> x.Some? && x.value != 0.0
    ensures r.Some? ==> r == x
  {
    if x.Some? && x.value != 0.0 then x else None
  }

  /** The unique index on issueId. */
  predicate UniqueIssueIds(reports: Store)
  {
    forall a, b :: a in reports && b in reports && reports[a].issueId == reports[b].issueId ==> a == b
  }

  predicate IssueIdFree(reports: Store, issueId: string)
  {
    forall other :: other in reports ==> reports[other].issueId != issueId
  }

  /** A completed report always carries the worker's completion photo. */
  predicate CompletedWithProof(r: Report)
  {
    r.status == Completed ==> r.completionImage.Some?
  }

  /** What every report in the collection satisfies between requests. */
  predicate ReportValid(r: Report)
  {
    Wellformed(r) && StatusAgreesWithTimeline(r) && CompletedWithProof(r)
  }

  predicate StoreValid(reports: Store)
  {
    && (forall id :: id in reports ==> ReportValid(reports[id]))
    && UniqueIssueIds(reports)
  }

  /** How the collection may change across a request: no report disappears,
      issueId, author and creation time never change, and a timeline only
      grows at its end. */
  predicate Evolves(before: Store, after: Store)
  {
    forall id :: id in before ==>
      && id in after
      && after[id].issueId == before[id].issueId
      && after[id].createdBy == before[id].createdBy
      && after[id].createdAt == before[id].createdAt
      && before[id].timeline <= after[id].timeline
  }

  /** save(): schema validation first, then the unique index on issueId. */
  function Save(reports: Store, id: Id, r: Report, success: Response): (o: Outcome)
    requires !success.ServerError?
    ensures o.response == success <==>
      Wellformed(r) && forall other :: other in reports && other != id ==> reports[other].issueId != r.issueId
    ensures o.response == success ==> o.reports == reports[id := r]
    ensures o.response != success ==> o.reports == reports && o.response.ServerError?
  {
    if !Wellformed(r) then Outcome(ServerError(ValidationFailed), reports)
    else if exists other :: other in reports && other != id && reports[other].issueId == r.issueId then
      Outcome(ServerError(DuplicateIssueId), reports)
    else Outcome(success, reports[id := r])
  }

  /** Replacing a report by a version with the same issueId, author and
      creation time and a longer timeline is an allowed evolution. */
  lemma ReplaceEvolves(reports: Store, id: Id, r: Report)
    requires id in reports
    requires r.issueId == reports[id].issueId && r.createdBy == reports[id].createdBy
    requires r.createdAt == reports[id].createdAt && reports[id].timeline <= r.timeline
    ensures Evolves(reports, reports[id := r])
  {
  }

  /** Replacing a report of a valid collection by a valid version with the
      same issueId keeps the collection valid, and no other report shares
      that issueId. */
  lemma ReplaceKeepsValid(reports: Store, id: Id, r: Report)
    requires id in reports && StoreValid(reports) && ReportValid(r)
    requires r.issueId == reports[id].issueId
    ensures forall other :: other in reports && other != id ==> reports[other].issueId != r.issueId
    ensures StoreValid(reports[id := r])
  {
    forall other | other in reports && other != id
      ensures reports[other].issueId != r.issueId
    {
      assert reports[other].issueId != reports[id].issueId;
    }
    var after := reports[id := r];
    forall a, b | a in after && b in after && after[a].issueId == after[b].issueId
      ensures a == b
    {
      if a != id && b != id {
        assert reports[a].issueId == reports[b].issueId;
      }
    }
  }

  /** The fields a report is submitted with, which no later request changes. */
  predicate SameSubmission(a: Report, b: Report)
  {
    && a.issueId == b.issueId && a.title == b.title && a.description == b.description
    && a.image == b.image && a.location == b.location && a.createdBy == b.createdBy
    && a.createdAt == b.createdAt
  }

  /** A well-formed report that gains one entry stays well-formed exactly
      when the entry is. */
  lemma AppendedWellformed(before: Report, r: Report, e: T.Entry)
    requires Wellformed(before) && SameSubmission(before, r) && r.timeline == before.timeline + [e]
    ensures Wellformed(r) <==> T.Wellformed(e)
  {
    assert r.timeline[|r.timeline| - 1] == e;
  }

  /** A report that keeps its submission and gains well-formed timeline
      entries stays valid, provided its status is the one the timeline ends
      on and a completion keeps its proof. */
  lemma AppendKeepsValid(before: Report, r: Report, added: seq<T.Entry>)
    requires SameSubmission(before, r) && r.timeline == before.timeline + added
    ensures
      && ReportValid(before)
      && (forall i :: 0 <= i < |added| ==> T.Wellformed(added[i]))
      && StatusAgreesWithTimeline(r) && CompletedWithProof(r)
      ==> ReportValid(r)
  {
    if ReportValid(before) && forall i :: 0 <= i < |added| ==> T.Wellformed(added[i]) {
      forall i | 0 <= i < |r.timeline|
        ensures T.Wellformed(r.timeline[i])
      {
        if i >= |before.timeline| {
          assert r.timeline[i] == added[i - |before.timeline|];
        }
      }
    }
  }

  /** The timeline event a status update records. */
  function AuthorityKind(s: Status): (k: T.Kind)
    ensures StatusSetBy(k) == Some(s)
    ensures s != Rejected ==> T.KindName(k) == StatusName(s)
  {
    match s
    case Pending => T.Pending
    case Approved => T.Approved
    case InProgress => T.InProgress
    case Completed => T.Completed
    case Rejected => T.RejectedByAuthority
  }

  /** The worker's reason: the free text when the reason type is `Other`,
      the reason type otherwise. The free text may be absent (None, the
      JavaScript undefined). */
  function WorkerReason(reasonType: string, reasonText: Option<string>): (reason: Option<string>)
    ensures reasonType == "Other" ==> reason == reasonText
    ensures reasonType != "Other" ==> reason == Some(reasonType)
  {
    if reasonType == "Other" then reasonText else Some(reasonType)
  }

  /** A reason as a template literal renders it: undefined becomes the text
      "undefined". */
  function Rendered(reason: Option<string>): (text: string)
    ensures reason.Some? ==> text == reason.value
    ensures reason.None? ==> text == "undefined"
  {
    if reason.Some? then reason.value else "undefined"
  }

  /** `{ reason }` as meta. */
  function ReasonMeta(reason: Option<string>): (m: T.Meta)
    ensures reason.Some? ==> m == T.Reason(reason.value)
    ensures reason.None? ==> m == T.UndefinedReason
  {
    if reason.Some? then T.Reason(reason.value) else T.UndefinedReason
  }

  /** The entry a worker's rejection appends. */
  function WorkerRejectEntry(reasonType: string, reasonText: Option<string>, actor: Id, now: int): (e: T.Entry)
    ensures e.kind == T.RejectedByWorker && e.actor == actor && e.createdAt == now
    ensures e.message == "Report rejected by worker - Reason: " + Rendered(WorkerReason(reasonType, reasonText))
    ensures e.meta == ReasonMeta(WorkerReason(reasonType, reasonText))
    ensures actor != "" ==> T.Wellformed(e)
  {
    var reason := WorkerReason(reasonType, reasonText);
    T.Entry(T.RejectedByWorker, "Report rejected by worker - Reason: " + Rendered(reason), actor, ReasonMeta(reason), now)
  }

  /** The reason recorded for a rejection: the free text when the reason type
      is `Other`, the reason type otherwise. The authority's and the worker's
      rejections pick their reason by the same rule whenever the free text is
      given. */
  function RejectReason(reasonType: string, reasonText: string): (reason: string)
    ensures reason == "" ==> reasonType == "" || (reasonType == "Other" && reasonText == "")
    ensures WorkerReason(reasonType, Some(reasonText)) == Some(reason)
  {
    if reasonType == "Other" then reasonText else reasonType
  }

  /** The conditions under which createReport stores the new report: the
      upload step passes, the location parses, the required fields and the
      image are there, the media store answers, and the document validates
      and takes a free issueId. */
  predicate CreateStores(reports: Store, caller: Caller, issueId: string, title: string, description: string,
                         location: LocationField, file: Option<Uploads.File>, uploaded: Option<Url>)
  {
    && Uploads.GenericUpload(file).None? && file.Some? && uploaded.Some? && uploaded.value != ""
    && title != "" && description != "" && location.Parsed? && location.value.address != ""
    && issueId != "" && caller.id != "" && IssueIdFree(reports, issueId)
  }

  /** The report createReport stores. */
  function NewReport(caller: Caller, issueId: string, title: string, description: string,
                     loc: LocationInput, image: Url, now: int): (r: Report)
    ensures r.status == Pending && r.priority == Low && r.assignedTo.None? && r.upvotedBy == {}
    ensures r.createdBy == caller.id && r.createdAt == now && r.image == image
    ensures r.timeline == [T.Entry(T.Pending, "Report submitted", caller.id, T.NoMeta, now)]
  {
    Report(issueId, title, description, image, None, None,
           Location(loc.address, OrNull(loc.latitude), OrNull(loc.longitude)),
           Low, Pending, caller.id, None, {},
           [T.Entry(T.Pending, "Report submitted", caller.id, T.NoMeta, now)], now)
  }

  /** POST /reports. The upload step runs first (its errors reach the central
      error handler); then the location string is parsed, and a parse error
      is a 500 before any 400. `uploaded` is the media store's answer for the
      image (None when it fails); `newId` is the id the database gives the
      document. After the save the caller's account is loaded for the
      confirmation e-mail, whose template reads the name: without the
      account that throws, and the answer is a 500 with the report stored. */
  function CreateReport(reports: Store, accounts: map<Id, Account>, caller: Caller, newId: Id, issueId: string,
                        title: string, description: string, location: LocationField,
                        file: Option<Uploads.File>, uploaded: Option<Url>, now: int): (o: Outcome)
    requires newId !in reports
    ensures Uploads.GenericUpload(file).Some? ==>
      o == Outcome(ServerError(UploadRejected(Uploads.GenericUpload(file).value.message)), reports)
    ensures Uploads.GenericUpload(file).None? && location.Unparsable? ==>
      o == Outcome(ServerError(MalformedLocation), reports)
    ensures Uploads.GenericUpload(file).None? && !location.Unparsable?
            && (title == "" || description == "" || location.NoLocation?) ==>
      o == Outcome(BadRequest("Missing required fields"), reports)
    ensures Uploads.GenericUpload(file).None? && title != "" && description != "" && location.Parsed? && file.None? ==>
      o == Outcome(BadRequest("Image is required"), reports)
    ensures !CreateStores(reports, caller, issueId, title, description, location, file, uploaded) ==>
      o.reports == reports && !o.response.Created?
    ensures CreateStores(reports, caller, issueId, title, description, location, file, uploaded) ==>
      && o.reports == reports[newId := NewReport(caller, issueId, title, description, location.value, uploaded.value, now)]
      && o.response == if caller.id in accounts then Created(newId) else ServerError(MissingAccount)
    ensures Evolves(reports, o.reports)
  {
    var uploadError := Uploads.GenericUpload(file);
    if uploadError.Some? then Outcome(ServerError(UploadRejected(uploadError.value.message)), reports)
    else if location.Unparsable? then Outcome(ServerError(MalformedLocation), reports)
    else if title == "" || description == "" || location.NoLocation? then Outcome(BadRequest("Missing required fields"), reports)
    else if file.None? then Outcome(BadRequest("Image is required"), reports)
    else if uploaded.None? then Outcome(ServerError(UploadFailed), reports)
    else
      var r := NewReport(caller, issueId, title, description, location.value, uploaded.value, now);
      var saved := Save(reports, newId, r, Created(newId));
      if saved.response.Created? && caller.id !in accounts then Outcome(ServerError(MissingAccount), saved.reports)
      else saved
  }

  /** Creating a report keeps the collection valid: the new report is
      pending with the one entry that says so, and its issueId is free. */
  lemma CreateReportKeepsValid(reports: Store, accounts: map<Id, Account>, caller: Caller, newId: Id, issueId: string,
                               title: string, description: string, location: LocationField,
                               file: Option<Uploads.File>, uploaded: Option<Url>, now: int)
    requires newId !in reports && StoreValid(reports)
    ensures StoreValid(CreateReport(reports, accounts, caller, newId, issueId, title, description, location, file, uploaded, now).reports)
  {
    var o := CreateReport(reports, accounts, caller, newId, issueId, title, description, location, file, uploaded, now);
    if CreateStores(reports, caller, issueId, title, description, location, file, uploaded) {
      var r := o.reports[newId];
      assert o.reports == reports[newId := r];
      LatestStatusAfterStatusEntry([], r.timeline[0]);
      assert [] + [r.timeline[0]] == r.timeline;
      assert ReportValid(r);
      forall a, b | a in o.reports && b in o.reports && o.reports[a].issueId == o.reports[b].issueId
        ensures a == b
      {
        if a != newId && b != newId {
          assert reports[a].issueId == reports[b].issueId;
        }
      }
    }
  }

  /** The entry a status update appends: the event of the new status, a
      message naming the requested status and the reason when there is one,
      and the reason as meta exactly when it is non-empty. */
  function StatusEntry(s: Status, requested: string, reason: string, actor: Id, now: int): (e: T.Entry)
    ensures StatusSetBy(e.kind) == Some(s)
    ensures e.meta == (if reason != "" then T.Reason(reason) else T.NoMeta)
    ensures e.message == "Status updated to " + requested + (if reason != "" then " - Reason: " + reason else "")
    ensures e.actor == actor && e.createdAt == now
    ensures actor != "" ==> T.Wellformed(e)
  {
    T.Entry(AuthorityKind(s),
            "Status updated to " + requested + (if reason != "" then " - Reason: " + reason else ""),
            actor,
            if reason != "" then T.Reason(reason) else T.NoMeta,
            now)
  }

  /** The checks of a status update that need no database: a status must be
      given, an authority may not ask for `completed`, and a rejection needs a
      reason type, in this order. */
  function StatusRequestError(role: Role, status: string, reasonType: string): (err: Option<Response>)
    ensures status == "" ==> err == Some(BadRequest("Status is required"))
    ensures status != "" && role == Authority && status == "completed" ==>
      err == Some(Forbidden("Authority cannot mark report as completed. Workers complete with proof."))
    ensures status == "rejected" && reasonType == "" ==> err == Some(BadRequest("Reject reason is required"))
    ensures err.None? <==>
      status != "" && !(role == Authority && status == "completed") && !(status == "rejected" && reasonType == "")
  {
    if status == "" then Some(BadRequest("Status is required"))
    else if role == Authority && status == "completed" then
      Some(Forbidden("Authority cannot mark report as completed. Workers complete with proof."))
    else if status == "rejected" && reasonType == "" then Some(BadRequest("Reject reason is required"))
    else None
  }

  /** PATCH /reports/:id/status (authority only). */
  function UpdateStatus(reports: Store, caller: Caller, id: Id, status: string, priority: string,
                        reasonType: string, reasonText: string, now: int): (o: Outcome)
    ensures caller.role != Authority ==> o == Outcome(RoleDenied, reports)
    ensures caller.role == Authority && StatusRequestError(caller.role, status, reasonType).Some? ==>
      o == Outcome(StatusRequestError(caller.role, status, reasonType).value, reports)
    ensures caller.role == Authority && StatusRequestError(caller.role, status, reasonType).None? && id !in reports ==>
      o == Outcome(NotFound("Report not found"), reports)
    ensures (caller.role == Authority && StatusRequestError(caller.role, status, reasonType).None? && id in reports
             && (ParseStatus(status).None? || (priority != "" && ParsePriority(priority).None?))) ==>
      o == Outcome(ServerError(ValidationFailed), reports)
    ensures o.response != Ok ==> o.reports == reports
    ensures o.response == Ok ==>
      && caller.role == Authority && StatusRequestError(caller.role, status, reasonType).None?
      && id in reports && ParseStatus(status).Some? && (priority == "" || ParsePriority(priority).Some?)
      && var old_ := reports[id];
         var reason := RejectReason(reasonType, reasonText);
         o.reports == reports[id := old_.(
           status := ParseStatus(status).value,
           priority := if priority == "" then old_.priority else ParsePriority(priority).value,
           timeline := old_.timeline + [StatusEntry(ParseStatus(status).value, status, reason, caller.id, now)])]
    ensures Evolves(reports, o.reports)
  {
    var requestError := StatusRequestError(caller.role, status, reasonType);
    assert Routes.Admits(Routes.GuardOf(Routes.UpdateStatus), Some(caller)) <==> caller.role == Authority;
    if !Routes.Admits(Routes.GuardOf(Routes.UpdateStatus), Some(caller)) then Outcome(RoleDenied, reports)
    else if requestError.Some? then Outcome(requestError.value, reports)
    else if id !in reports then Outcome(NotFound("Report not found"), reports)
    else StatusSaved(reports, caller, id, status, priority, reasonType, reasonText, now)
  }

  /** The part of a status update after the lookup: the schema's enum checks
      on status and priority, then the save of the updated report. */
  function StatusSaved(reports: Store, caller: Caller, id: Id, status: string, priority: string,
                       reasonType: string, reasonText: string, now: int): (o: Outcome)
    requires id in reports
    ensures ParseStatus(status).None? || (priority != "" && ParsePriority(priority).None?) ==>
      o == Outcome(ServerError(ValidationFailed), reports)
    ensures o.response != Ok ==> o.reports == reports
    ensures o.response == Ok ==>
      && ParseStatus(status).Some? && (priority == "" || ParsePriority(priority).Some?)
      && var old_ := reports[id];
         var reason := RejectReason(reasonType, reasonText);
         o.reports == reports[id := old_.(
           status := ParseStatus(status).value,
           priority := if priority == "" then old_.priority else ParsePriority(priority).value,
           timeline := old_.timeline + [StatusEntry(ParseStatus(status).value, status, reason, caller.id, now)])]
    ensures Evolves(reports, o.reports)
  {
    var parsedStatus := ParseStatus(status);
    var parsedPriority := if priority == "" then None else ParsePriority(priority);
    if parsedStatus.None? || (priority != "" && parsedPriority.None?) then
      Outcome(ServerError(ValidationFailed), reports)
    else
      var reason := RejectReason(reasonType, reasonText);
      var entry := StatusEntry(parsedStatus.value, status, reason, caller.id, now);
      var old_ := reports[id];
      var r := old_.(status := parsedStatus.value,
                     priority := if priority == "" then old_.priority else parsedPriority.value,
                     timeline := old_.timeline + [entry]);
      ReplaceEvolves(reports, id, r);
      Save(reports, id, r, Ok)
  }

  /** A status update keeps the collection valid. */
  lemma UpdateStatusKeepsValid(reports: Store, caller: Caller, id: Id, status: string, priority: string,
                               reasonType: string, reasonText: string, now: int)
    requires StoreValid(reports)
    ensures StoreValid(UpdateStatus(reports, caller, id, status, priority, reasonType, reasonText, now).reports)
  {
    var o := UpdateStatus(reports, caller, id, status, priority, reasonType, reasonText, now);
    if o.response == Ok {
      var old_ := reports[id];
      var parsed := ParseStatus(status).value;
      var entry := StatusEntry(parsed, status, RejectReason(reasonType, reasonText), caller.id, now);
      var r := old_.(status := parsed,
                     priority := if priority == "" then old_.priority else ParsePriority(priority).value,
                     timeline := old_.timeline + [entry]);
      assert o.reports == reports[id := r];
      assert Wellformed(r) by {
        assert r.timeline[|r.timeline| - 1] == entry;
      }
      LatestStatusAfterStatusEntry(old_.timeline, entry);
      AppendKeepsValid(old_, r, [entry]);
      ReplaceKeepsValid(reports, id, r);
    }
  }

  /** On a valid collection a status update succeeds exactly when an
      authority with an id names an existing report, a status of the schema
      other than `completed`, a reason type for a rejection and, if any, a
      priority of the schema. */
  lemma UpdateStatusSucceeds(reports: Store, caller: Caller, id: Id, status: string, priority: string,
                             reasonType: string, reasonText: string, now: int)
    requires StoreValid(reports)
    ensures UpdateStatus(reports, caller, id, status, priority, reasonType, reasonText, now).response == Ok <==>
      && caller.role == Authority && caller.id != "" && id in reports
      && ParseStatus(status).Some? && status != "completed" && !(status == "rejected" && reasonType == "")
      && (priority == "" || ParsePriority(priority).Some?)
  {
    var o := UpdateStatus(reports, caller, id, status, priority, reasonType, reasonText, now);
    if caller.role == Authority && StatusRequestError(caller.role, status, reasonType).None? && id in reports
       && ParseStatus(status).Some? && (priority == "" || ParsePriority(priority).Some?) {
      var old_ := reports[id];
      var entry := StatusEntry(ParseStatus(status).value, status, RejectReason(reasonType, reasonText), caller.id, now);
      var r := old_.(status := ParseStatus(status).value,
                     priority := if priority == "" then old_.priority else ParsePriority(priority).value,
                     timeline := old_.timeline + [entry]);
      assert r.timeline[|r.timeline| - 1] == entry;
      assert forall other :: other in reports && other != id ==> reports[other].issueId != r.issueId;
      if caller.id != "" {
        assert Wellformed(r);
      } else {
        assert !T.Wellformed(r.timeline[|r.timeline| - 1]);
      }
    }
  }

  /** PATCH /reports/:id/assign (authority only); `accounts` is the users
      collection. */
  function Assign(reports: Store, accounts: map<Id, Account>, caller: Caller, id: Id, workerId: Id, now: int): (o: Outcome)
    ensures caller.role != Authority ==> o == Outcome(RoleDenied, reports)
    ensures caller.role == Authority && workerId == "" ==> o == Outcome(BadRequest("Worker ID is required"), reports)
    ensures caller.role == Authority && workerId != "" && id !in reports ==>
      o == Outcome(NotFound("Report not found"), reports)
    ensures (caller.role == Authority && workerId != "" && id in reports
             && (workerId !in accounts || accounts[workerId].role != Worker)) ==>
      o == Outcome(NotFound("Worker not found"), reports)
    ensures o.response != Ok ==> o.reports == reports
    ensures o.response == Ok ==>
      && id in reports && workerId in accounts
      && o.reports == reports[id := reports[id].(
           assignedTo := Some(workerId),
           timeline := reports[id].timeline + [T.Entry(
             T.AssignedToWorker, "Assigned to worker " + accounts[workerId].name,
             caller.id, T.AssignedWorker(workerId), now)])]
    ensures Evolves(reports, o.reports)
  {
    if !Routes.Admits(Routes.GuardOf(Routes.AssignWorker), Some(caller)) then Outcome(RoleDenied, reports)
    else if workerId == "" then Outcome(BadRequest("Worker ID is required"), reports)
    else if id !in reports then Outcome(NotFound("Report not found"), reports)
    else if workerId !in accounts || accounts[workerId].role != Worker then Outcome(NotFound("Worker not found"), reports)
    else
      var entry := T.Entry(T.AssignedToWorker, "Assigned to worker " + accounts[workerId].name,
                           caller.id, T.AssignedWorker(workerId), now);
      var old_ := reports[id];
      var r := old_.(assignedTo := Some(workerId), timeline := old_.timeline + [entry]);
      ReplaceEvolves(reports, id, r);
      Save(reports, id, r, Ok)
  }

  /** On a valid collection an assignment succeeds exactly when an
      authority with an id names an existing report and a worker of the
      users collection. */
  lemma AssignSucceeds(reports: Store, accounts: map<Id, Account>, caller: Caller, id: Id, workerId: Id, now: int)
    requires StoreValid(reports)
    ensures Assign(reports, accounts, caller, id, workerId, now).response == Ok <==>
      && caller.role == Authority && caller.id != "" && workerId != "" && id in reports
      && workerId in accounts && accounts[workerId].role == Worker
  {
    if caller.role == Authority && workerId != "" && id in reports && workerId in accounts && accounts[workerId].role == Worker {
      var old_ := reports[id];
      var entry := T.Entry(T.AssignedToWorker, "Assigned to worker " + accounts[workerId].name,
                           caller.id, T.AssignedWorker(workerId), now);
      var r := old_.(assignedTo := Some(workerId), timeline := old_.timeline + [entry]);
      assert r.timeline[|r.timeline| - 1] == entry;
      assert forall other :: other in reports && other != id ==> reports[other].issueId != r.issueId;
      if caller.id != "" {
        assert Wellformed(r);
      } else {
        assert !T.Wellformed(r.timeline[|r.timeline| - 1]);
      }
    }
  }

  /** An assignment keeps the collection valid. */
  lemma AssignKeepsValid(reports: Store, accounts: map<Id, Account>, caller: Caller, id: Id, workerId: Id, now: int)
    requires StoreValid(reports)
    ensures StoreValid(Assign(reports, accounts, caller, id, workerId, now).reports)
  {
    var o := Assign(reports, accounts, caller, id, workerId, now);
    if o.response == Ok {
      var old_ := reports[id];
      var entry := T.Entry(T.AssignedToWorker, "Assigned to worker " + accounts[workerId].name,
                           caller.id, T.AssignedWorker(workerId), now);
      var r := old_.(assignedTo := Some(workerId), timeline := old_.timeline + [entry]);
      assert o.reports == reports[id := r];
      assert Wellformed(r) by {
        assert r.timeline[|r.timeline| - 1] == entry;
      }
      LatestStatusAfterOtherEntry(old_.timeline, entry);
      AppendKeepsValid(old_, r, [entry]);
      ReplaceKeepsValid(reports, id, r);
    }
  }

  /** PATCH /reports/:id/complete (worker only). The upload step runs before
      the handler; `uploaded` is the media store's answer for the photo. */
  function Complete(reports: Store, accounts: map<Id, Account>, caller: Caller, id: Id,
                    file: Option<Uploads.File>, completionNote: string, uploaded: Option<Url>, now: int): (o: Outcome)
    ensures caller.role != Worker ==> o == Outcome(RoleDenied, reports)
    ensures caller.role == Worker && Uploads.GenericUpload(file).Some? ==>
      o == Outcome(ServerError(UploadRejected(Uploads.GenericUpload(file).value.message)), reports)
    ensures caller.role == Worker && Uploads.GenericUpload(file).None? && file.None? ==>
      o == Outcome(BadRequest("Completion image is required"), reports)
    ensures caller.role == Worker && file.Some? && Uploads.GenericUpload(file).None? && id !in reports ==>
      o == Outcome(NotFound("Report not found"), reports)
    ensures caller.role == Worker && file.Some? && Uploads.GenericUpload(file).None? && id in reports ==>
      && (reports[id].assignedTo.None? ==> o == Outcome(ServerError(MissingAssignee), reports))
      && (reports[id].assignedTo.Some? && reports[id].assignedTo.value != caller.id ==>
            o == Outcome(Forbidden("Only assigned worker can complete this report"), reports))
    ensures o.response != Ok ==> o.reports == reports
    ensures o.response == Ok ==>
      && id in reports && uploaded.Some? && caller.id in accounts && reports[id].assignedTo == Some(caller.id)
      && o.reports == reports[id := reports[id].(
           completionImage := Some(uploaded.value),
           completionNote := if completionNote != "" then Some(completionNote) else reports[id].completionNote,
           status := Completed,
           timeline := reports[id].timeline + [T.Entry(
             T.Completed, "Work completed by " + accounts[caller.id].name, caller.id, T.NoMeta, now)])]
    ensures Evolves(reports, o.reports)
  {
    var uploadError := Uploads.GenericUpload(file);
    if !Routes.Admits(Routes.GuardOf(Routes.CompleteReport), Some(caller)) then Outcome(RoleDenied, reports)
    else if uploadError.Some? then Outcome(ServerError(UploadRejected(uploadError.value.message)), reports)
    else if file.None? then Outcome(BadRequest("Completion image is required"), reports)
    else if id !in reports then Outcome(NotFound("Report not found"), reports)
    else if reports[id].assignedTo.None? then Outcome(ServerError(MissingAssignee), reports)
    else if reports[id].assignedTo.value != caller.id then
      Outcome(Forbidden("Only assigned worker can complete this report"), reports)
    else if uploaded.None? then Outcome(ServerError(UploadFailed), reports)
    else if caller.id !in accounts then Outcome(ServerError(MissingAccount), reports)
    else
      var entry := T.Entry(T.Completed, "Work completed by " + accounts[caller.id].name, caller.id, T.NoMeta, now);
      var old_ := reports[id];
      var r := old_.(completionImage := Some(uploaded.value),
                     completionNote := if completionNote != "" then Some(completionNote) else old_.completionNote,
                     status := Completed,
                     timeline := old_.timeline + [entry]);
      ReplaceEvolves(reports, id, r);
      Save(reports, id, r, Ok)
  }

  /** On a valid collection a completion succeeds exactly when the assigned
      worker, with an id and an account, sends an accepted photo that the
      media store takes. */
  lemma CompleteSucceeds(reports: Store, accounts: map<Id, Account>, caller: Caller, id: Id,
                         file: Option<Uploads.File>, completionNote: string, uploaded: Option<Url>, now: int)
    requires StoreValid(reports)
    ensures Complete(reports, accounts, caller, id, file, completionNote, uploaded, now).response == Ok <==>
      && caller.role == Worker && caller.id != "" && file.Some? && Uploads.GenericUpload(file).None?
      && id in reports && reports[id].assignedTo == Some(caller.id)
      && uploaded.Some? && caller.id in accounts
  {
    if && caller.role == Worker && file.Some? && Uploads.GenericUpload(file).None?
       && id in reports && reports[id].assignedTo == Some(caller.id) && uploaded.Some? && caller.id in accounts {
      var old_ := reports[id];
      var entry := T.Entry(T.Completed, "Work completed by " + accounts[caller.id].name, caller.id, T.NoMeta, now);
      var r := old_.(completionImage := Some(uploaded.value),
                     completionNote := if completionNote != "" then Some(completionNote) else old_.completionNote,
                     status := Completed,
                     timeline := old_.timeline + [entry]);
      assert r.timeline[|r.timeline| - 1] == entry;
      assert forall other :: other in reports && other != id ==> reports[other].issueId != r.issueId;
      if caller.id != "" {
        assert Wellformed(r);
      } else {
        assert !T.Wellformed(r.timeline[|r.timeline| - 1]);
      }
    }
  }

  /** A completion keeps the collection valid: the completed report carries
      its photo. */
  lemma CompleteKeepsValid(reports: Store, accounts: map<Id, Account>, caller: Caller, id: Id,
                           file: Option<Uploads.File>, completionNote: string, uploaded: Option<Url>, now: int)
    requires StoreValid(reports)
    ensures StoreValid(Complete(reports, accounts, caller, id, file, completionNote, uploaded, now).reports)
  {
    var o := Complete(reports, accounts, caller, id, file, completionNote, uploaded, now);
    if o.response == Ok {
      var old_ := reports[id];
      var entry := T.Entry(T.Completed, "Work completed by " + accounts[caller.id].name, caller.id, T.NoMeta, now);
      var r := old_.(completionImage := Some(uploaded.value),
                     completionNote := if completionNote != "" then Some(completionNote) else old_.completionNote,
                     status := Completed,
                     timeline := old_.timeline + [entry]);
      assert o.reports == reports[id := r];
      assert Wellformed(r) by {
        assert r.timeline[|r.timeline| - 1] == entry;
      }
      LatestStatusAfterStatusEntry(old_.timeline, entry);
      AppendKeepsValid(old_, r, [entry]);
      ReplaceKeepsValid(reports, id, r);
    }
  }

  /** The upvoter set after the caller toggles their vote. */
  function Toggle(voters: set<Id>, voter: Id): (r: set<Id>)
    ensures voter in r <==> voter !in voters
    ensures forall other :: other != voter ==> (other in r <==> other in voters)
  {
    if voter in voters then voters - {voter} else voters + {voter}
  }

  /** POST /reports/:id/upvote (any authenticated caller). */
  function Upvote(reports: Store, caller: Caller, id: Id): (o: Outcome)
    ensures id !in reports ==> o == Outcome(NotFound("Report not found"), reports)
    ensures !o.response.Toggled? ==> o.reports == reports
    ensures o.response.Toggled? ==>
      && id in reports
      && o.reports == reports[id := reports[id].(upvotedBy := Toggle(reports[id].upvotedBy, caller.id))]
      && o.response == Toggled(caller.id !in reports[id].upvotedBy, |Toggle(reports[id].upvotedBy, caller.id)|)
    ensures Evolves(reports, o.reports)
  {
    if id !in reports then Outcome(NotFound("Report not found"), reports)
    else
      var old_ := reports[id];
      var r := old_.(upvotedBy := Toggle(old_.upvotedBy, caller.id));
      ReplaceEvolves(reports, id, r);
      Save(reports, id, r, Toggled(caller.id !in old_.upvotedBy, |r.upvotedBy|))
  }

  /** On a valid collection an upvote of an existing report always toggles. */
  lemma UpvoteSucceeds(reports: Store, caller: Caller, id: Id)
    requires StoreValid(reports) && id in reports
    ensures Upvote(reports, caller, id).response.Toggled?
  {
    assert forall other :: other in reports && other != id ==> reports[other].issueId != reports[id].issueId;
    UpvoteToggles(reports, caller, id);
  }

  /** An upvote keeps the collection valid. */
  lemma UpvoteKeepsValid(reports: Store, caller: Caller, id: Id)
    requires StoreValid(reports)
    ensures StoreValid(Upvote(reports, caller, id).reports)
  {
    var o := Upvote(reports, caller, id);
    if o.response.Toggled? {
      var r := reports[id].(upvotedBy := Toggle(reports[id].upvotedBy, caller.id));
      assert o.reports == reports[id := r];
      ReplaceKeepsValid(reports, id, r);
    }
  }

  /** PATCH /worker/reports/:id/accept (worker only): the one handler that
      checks the current status. */
  function Accept(reports: Store, caller: Caller, id: Id, now: int): (o: Outcome)
    ensures caller.role != Worker ==> o == Outcome(RoleDenied, reports)
    ensures caller.role == Worker && id !in reports ==> o == Outcome(NotFound("Report not found"), reports)
    ensures caller.role == Worker && id in reports ==>
      && (reports[id].assignedTo.None? ==> o == Outcome(ServerError(MissingAssignee), reports))
      && (reports[id].assignedTo.Some? && reports[id].assignedTo.value != caller.id ==>
            o == Outcome(Forbidden("Not assigned to you"), reports))
      && (reports[id].assignedTo == Some(caller.id) && reports[id].status !in {Pending, Approved} ==>
            o == Outcome(BadRequest("Cannot accept report in current status"), reports))
    ensures o.response != Ok ==> o.reports == reports
    ensures o.response == Ok ==>
      && id in reports && reports[id].assignedTo == Some(caller.id) && reports[id].status in {Pending, Approved}
      && o.reports == reports[id := reports[id].(
           status := InProgress,
           timeline := reports[id].timeline + [
             T.Entry(T.AcceptedByWorker, "Report accepted by worker", caller.id, T.NoMeta, now),
             T.Entry(T.InProgress, "Work in progress", caller.id, T.NoMeta, now)])]
    ensures Evolves(reports, o.reports)
  {
    if !Routes.Admits(Routes.GuardOf(Routes.AcceptReport), Some(caller)) then Outcome(RoleDenied, reports)
    else if id !in reports then Outcome(NotFound("Report not found"), reports)
    else if reports[id].assignedTo.None? then Outcome(ServerError(MissingAssignee), reports)
    else if reports[id].assignedTo.value != caller.id then Outcome(Forbidden("Not assigned to you"), reports)
    else if reports[id].status !in {Pending, Approved} then
      Outcome(BadRequest("Cannot accept report in current status"), reports)
    else
      var accepted := T.Entry(T.AcceptedByWorker, "Report accepted by worker", caller.id, T.NoMeta, now);
      var working := T.Entry(T.InProgress, "Work in progress", caller.id, T.NoMeta, now);
      var old_ := reports[id];
      var r := old_.(status := InProgress, timeline := old_.timeline + [accepted, working]);
      ReplaceEvolves(reports, id, r);
      Save(reports, id, r, Ok)
  }

  /** On a valid collection an accept succeeds exactly when the assigned
      worker, with an id, accepts a pending or approved report. */
  lemma AcceptSucceeds(reports: Store, caller: Caller, id: Id, now: int)
    requires StoreValid(reports)
    ensures Accept(reports, caller, id, now).response == Ok <==>
      && caller.role == Worker && caller.id != "" && id in reports
      && reports[id].assignedTo == Some(caller.id) && reports[id].status in {Pending, Approved}
  {
    if caller.role == Worker && id in reports && reports[id].assignedTo == Some(caller.id)
       && reports[id].status in {Pending, Approved} {
      var old_ := reports[id];
      var accepted := T.Entry(T.AcceptedByWorker, "Report accepted by worker", caller.id, T.NoMeta, now);
      var working := T.Entry(T.InProgress, "Work in progress", caller.id, T.NoMeta, now);
      var r := old_.(status := InProgress, timeline := old_.timeline + [accepted, working]);
      assert r.timeline[|r.timeline| - 1] == working;
      assert forall other :: other in reports && other != id ==> reports[other].issueId != r.issueId;
      if caller.id != "" {
        assert Wellformed(r);
      } else {
        assert !T.Wellformed(r.timeline[|r.timeline| - 1]);
      }
    }
  }

  /** An accept keeps the collection valid. */
  lemma AcceptKeepsValid(reports: Store, caller: Caller, id: Id, now: int)
    requires StoreValid(reports)
    ensures StoreValid(Accept(reports, caller, id, now).reports)
  {
    var o := Accept(reports, caller, id, now);
    if o.response == Ok {
      var old_ := reports[id];
      var accepted := T.Entry(T.AcceptedByWorker, "Report accepted by worker", caller.id, T.NoMeta, now);
      var working := T.Entry(T.InProgress, "Work in progress", caller.id, T.NoMeta, now);
      var r := old_.(status := InProgress, timeline := old_.timeline + [accepted, working]);
      assert o.reports == reports[id := r];
      assert Wellformed(r) by {
        assert r.timeline[|r.timeline| - 1] == working;
      }
      assert old_.timeline + [accepted, working] == (old_.timeline + [accepted]) + [working];
      LatestStatusAfterStatusEntry(old_.timeline + [accepted], working);
      AppendKeepsValid(old_, r, [accepted, working]);
      ReplaceKeepsValid(reports, id, r);
    }
  }

  /** PATCH /worker/reports/:id/reject (worker only). The reason type is
      checked before the report is looked up; the current status is not checked. */
  function RejectByWorker(reports: Store, caller: Caller, id: Id, reasonType: string, reasonText: Option<string>, now: int): (o: Outcome)
    ensures caller.role != Worker ==> o == Outcome(RoleDenied, reports)
    ensures caller.role == Worker && reasonType == "" ==> o == Outcome(BadRequest("Reject reason is required"), reports)
    ensures caller.role == Worker && reasonType != "" && id !in reports ==>
      o == Outcome(NotFound("Report not found"), reports)
    ensures caller.role == Worker && reasonType != "" && id in reports ==>
      && (reports[id].assignedTo.None? ==> o == Outcome(ServerError(MissingAssignee), reports))
      && (reports[id].assignedTo.Some? && reports[id].assignedTo.value != caller.id ==>
            o == Outcome(Forbidden("Not assigned to you"), reports))
    ensures o.response != Ok ==> o.reports == reports
    ensures o.response == Ok ==>
      && id in reports && reports[id].assignedTo == Some(caller.id)
      && o.reports == reports[id := reports[id].(
           status := Rejected,
           timeline := reports[id].timeline + [WorkerRejectEntry(reasonType, reasonText, caller.id, now)])]
    ensures Evolves(reports, o.reports)
  {
    if !Routes.Admits(Routes.GuardOf(Routes.RejectReport), Some(caller)) then Outcome(RoleDenied, reports)
    else if reasonType == "" then Outcome(BadRequest("Reject reason is required"), reports)
    else if id !in reports then Outcome(NotFound("Report not found"), reports)
    else if reports[id].assignedTo.None? then Outcome(ServerError(MissingAssignee), reports)
    else if reports[id].assignedTo.value != caller.id then Outcome(Forbidden("Not assigned to you"), reports)
    else
      var entry := WorkerRejectEntry(reasonType, reasonText, caller.id, now);
      var old_ := reports[id];
      var r := old_.(status := Rejected, timeline := old_.timeline + [entry]);
      ReplaceEvolves(reports, id, r);
      Save(reports, id, r, Ok)
  }

  /** On a valid collection a worker's rejection succeeds exactly when the
      assigned worker, with an id, gives a reason type. */
  lemma RejectByWorkerSucceeds(reports: Store, caller: Caller, id: Id, reasonType: string, reasonText: Option<string>, now: int)
    requires StoreValid(reports)
    ensures RejectByWorker(reports, caller, id, reasonType, reasonText, now).response == Ok <==>
      && caller.role == Worker && caller.id != "" && reasonType != "" && id in reports
      && reports[id].assignedTo == Some(caller.id)
  {
    if caller.role == Worker && reasonType != "" && id in reports && reports[id].assignedTo == Some(caller.id) {
      var old_ := reports[id];
      var entry := WorkerRejectEntry(reasonType, reasonText, caller.id, now);
      var r := old_.(status := Rejected, timeline := old_.timeline + [entry]);
      assert RejectByWorker(reports, caller, id, reasonType, reasonText, now) == Save(reports, id, r, Ok);
      AppendedWellformed(old_, r, entry);
      assert forall other :: other in reports && other != id ==> reports[other].issueId != r.issueId;
    }
  }

  /** A worker's rejection keeps the collection valid. */
  lemma RejectByWorkerKeepsValid(reports: Store, caller: Caller, id: Id, reasonType: string, reasonText: Option<string>, now: int)
    requires StoreValid(reports)
    ensures StoreValid(RejectByWorker(reports, caller, id, reasonType, reasonText, now).reports)
  {
    var o := RejectByWorker(reports, caller, id, reasonType, reasonText, now);
    if o.response == Ok {
      var old_ := reports[id];
      var entry := WorkerRejectEntry(reasonType, reasonText, caller.id, now);
      var r := old_.(status := Rejected, timeline := old_.timeline + [entry]);
      assert o.reports == reports[id := r];
      assert Wellformed(r) by {
        assert r.timeline[|r.timeline| - 1] == entry;
      }
      LatestStatusAfterStatusEntry(old_.timeline, entry);
      AppendKeepsValid(old_, r, [entry]);
      ReplaceKeepsValid(reports, id, r);
    }
  }

  /** A worker who picks `Other` and writes nothing, and whose rejection
      succeeds (RejectByWorkerSucceeds says when), records the text
      "undefined" as the reason and an undefined reason as meta. */
  lemma RejectWithoutTextSaysUndefined(reports: Store, caller: Caller, id: Id, now: int)
    requires RejectByWorker(reports, caller, id, "Other", None, now).response == Ok
    ensures var o := RejectByWorker(reports, caller, id, "Other", None, now);
      && id in o.reports && o.reports[id].status == Rejected && |o.reports[id].timeline| > 0
      && var last := o.reports[id].timeline[|o.reports[id].timeline| - 1];
         last.message == "Report rejected by worker - Reason: undefined" && last.meta == T.UndefinedReason
  {
    var o := RejectByWorker(reports, caller, id, "Other", None, now);
    var entry := WorkerRejectEntry("Other", None, caller.id, now);
    var t := o.reports[id].timeline;
    assert t == reports[id].timeline + [entry];
    assert t[|t| - 1] == entry;
  }

  /** Toggling the same voter twice gives the set back. */
  lemma ToggleTwice(voters: set<Id>, voter: Id)
    ensures Toggle(Toggle(voters, voter), voter) == voters
  {
  }

  /** An upvote toggles the caller's vote on a well-formed report whose
      issueId no other report has. */
  lemma UpvoteToggles(reports: Store, caller: Caller, id: Id)
    requires id in reports && Wellformed(reports[id])
    requires forall other :: other in reports && other != id ==> reports[other].issueId != reports[id].issueId
    ensures var voters := Toggle(reports[id].upvotedBy, caller.id);
      Upvote(reports, caller, id) ==
        Outcome(Toggled(caller.id !in reports[id].upvotedBy, |voters|), reports[id := reports[id].(upvotedBy := voters)])
  {
  }

  /** Upvoting twice restores the upvoter set: the second call undoes the
      first. A valid collection meets the requirements. */
  lemma UpvoteTwiceRestores(reports: Store, caller: Caller, id: Id)
    requires id in reports && Wellformed(reports[id])
    requires forall other :: other in reports && other != id ==> reports[other].issueId != reports[id].issueId
    ensures Upvote(Upvote(reports, caller, id).reports, caller, id).reports == reports
    ensures Upvote(reports, caller, id).response.upvoted != Upvote(Upvote(reports, caller, id).reports, caller, id).response.upvoted
  {
    var r0 := reports[id];
    var once := r0.(upvotedBy := Toggle(r0.upvotedBy, caller.id));
    UpvoteToggles(reports, caller, id);
    var first := reports[id := once];
    assert first[id] == once;
    UpvoteToggles(first, caller, id);
    ToggleTwice(r0.upvotedBy, caller.id);
    assert once.(upvotedBy := Toggle(once.upvotedBy, caller.id)) == r0;
  }
}
