/** The reports collection as the handlers of backend/controllers/reportController.js
    and workerController.js use it: each handler loads a report, assigns its
    fields one by one, pushes onto its timeline and saves it. Every method is
    proved to leave the collection and to answer exactly as the matching step
    function of module Lifecycle, whose properties are proved there. */
module ReportStore {
  import opened Common
  import opened ReportModel
  import T = TimelineModel
  import Uploads
  import Routes
  import L = Lifecycle

  class Store {
    var reports: map<Id, Report>

    /** Every stored report is well formed, agrees with its timeline and, when
        completed, carries its proof; issueIds are unique. */
    ghost predicate Valid()
      reads this
    {
      L.StoreValid(reports)
    }

    constructor ()
      ensures Valid() && reports == map[]
    {
      reports := map[];
    }

    /** report.save(): schema validation, then the unique index on issueId. */
    method Save(id: Id, r: Report, success: Response) returns (response: Response)
      requires !success.ServerError?
      modifies this
      ensures L.Outcome(response, reports) == L.Save(old(reports), id, r, success)
    {
      if !Wellformed(r) {
        return ServerError(ValidationFailed);
      }
      if exists other :: other in reports && other != id && reports[other].issueId == r.issueId {
        return ServerError(DuplicateIssueId);
      }
      reports := reports[id := r];
      response := success;
    }

    /** createReport: `issueId` is the generated id, `uploaded` the media
        store's answer for the image, `newId` the id of the new document,
        `accounts` the users collection the confirmation e-mail reads. */
    method CreateReport(accounts: map<Id, Account>, caller: Caller, newId: Id, issueId: string, title: string,
                        description: string, location: L.LocationField, file: Option<Uploads.File>,
                        uploaded: Option<Url>, now: int) returns (response: Response)
      requires Valid() && newId !in reports
      modifies this
      ensures Valid()
      ensures L.Outcome(response, reports) ==
        L.CreateReport(old(reports), accounts, caller, newId, issueId, title, description, location, file, uploaded, now)
    {
      L.CreateReportKeepsValid(reports, accounts, caller, newId, issueId, title, description, location, file, uploaded, now);
      var uploadError := Uploads.GenericUpload(file);
      if uploadError.Some? {
        return ServerError(UploadRejected(uploadError.value.message));
      }
      if location.Unparsable? {
        return ServerError(MalformedLocation);
      }
      if title == "" || description == "" || location.NoLocation? {
        return BadRequest("Missing required fields");
      }
      if file.None? {
        return BadRequest("Image is required");
      }
      if uploaded.None? {
        return ServerError(UploadFailed);
      }
      var report := L.NewReport(caller, issueId, title, description, location.value, uploaded.value, now);
      response := Save(newId, report, Created(newId));
      if response.Created? && caller.id !in accounts {
        response := ServerError(MissingAccount);
      }
    }

    /** updateReportStatus, behind the authority guard. */
    method UpdateStatus(caller: Caller, id: Id, status: string, priority: string,
                        reasonType: string, reasonText: string, now: int) returns (response: Response)
      requires Valid()
      modifies this
      ensures Valid()
      ensures L.Outcome(response, reports) ==
        L.UpdateStatus(old(reports), caller, id, status, priority, reasonType, reasonText, now)
    {
      ghost var outcome := L.UpdateStatus(reports, caller, id, status, priority, reasonType, reasonText, now);
      L.UpdateStatusKeepsValid(reports, caller, id, status, priority, reasonType, reasonText, now);
      if !Routes.Admits(Routes.GuardOf(Routes.UpdateStatus), Some(caller)) {
        return RoleDenied;
      }
      ghost var requestError := L.StatusRequestError(caller.role, status, reasonType);
      if status == "" {
        assert requestError == Some(BadRequest("Status is required"));
        return BadRequest("Status is required");
      }
      if caller.role == Authority && status == "completed" {
        assert requestError == Some(Forbidden("Authority cannot mark report as completed. Workers complete with proof."));
        return Forbidden("Authority cannot mark report as completed. Workers complete with proof.");
      }
      if status == "rejected" && reasonType == "" {
        assert requestError == Some(BadRequest("Reject reason is required"));
        return BadRequest("Reject reason is required");
      }
      assert requestError.None?;
      if id !in reports {
        return NotFound("Report not found");
      }
      var report := reports[id];
      var reason := L.RejectReason(reasonType, reasonText);
      var newStatus := ParseStatus(status);
      var newPriority := ParsePriority(priority);
      if newStatus.None? || (priority != "" && newPriority.None?) {
        return ServerError(ValidationFailed);
      }
      var entry := L.StatusEntry(newStatus.value, status, reason, caller.id, now);
      report := report.(status := newStatus.value);
      if priority != "" {
        report := report.(priority := newPriority.value);
      }
      report := report.(timeline := report.timeline + [entry]);
      response := Save(id, report, Ok);
      assert reports == outcome.reports;
    }

    /** assignWorker, behind the authority guard; `accounts` is the users
        collection. */
    method Assign(accounts: map<Id, Account>, caller: Caller, id: Id, workerId: Id, now: int) returns (response: Response)
      requires Valid()
      modifies this
      ensures Valid()
      ensures L.Outcome(response, reports) == L.Assign(old(reports), accounts, caller, id, workerId, now)
    {
      L.AssignKeepsValid(reports, accounts, caller, id, workerId, now);
      if !Routes.Admits(Routes.GuardOf(Routes.AssignWorker), Some(caller)) {
        return RoleDenied;
      }
      if workerId == "" {
        return BadRequest("Worker ID is required");
      }
      if id !in reports {
        return NotFound("Report not found");
      }
      if workerId !in accounts || accounts[workerId].role != Worker {
        return NotFound("Worker not found");
      }
      var report := reports[id];
      report := report.(assignedTo := Some(workerId));
      var entry := T.Entry(T.AssignedToWorker, "Assigned to worker " + accounts[workerId].name,
                           caller.id, T.AssignedWorker(workerId), now);
      report := report.(timeline := report.timeline + [entry]);
      response := Save(id, report, Ok);
    }

    /** completeReport, behind the worker guard and the generic upload step. */
    method Complete(accounts: map<Id, Account>, caller: Caller, id: Id, file: Option<Uploads.File>,
                    completionNote: string, uploaded: Option<Url>, now: int) returns (response: Response)
      requires Valid()
      modifies this
      ensures Valid()
      ensures L.Outcome(response, reports) ==
        L.Complete(old(reports), accounts, caller, id, file, completionNote, uploaded, now)
    {
      L.CompleteKeepsValid(reports, accounts, caller, id, file, completionNote, uploaded, now);
      if !Routes.Admits(Routes.GuardOf(Routes.CompleteReport), Some(caller)) {
        return RoleDenied;
      }
      var uploadError := Uploads.GenericUpload(file);
      if uploadError.Some? {
        return ServerError(UploadRejected(uploadError.value.message));
      }
      if file.None? {
        return BadRequest("Completion image is required");
      }
      if id !in reports {
        return NotFound("Report not found");
      }
      var report := reports[id];
      if report.assignedTo.None? {
        return ServerError(MissingAssignee);
      }
      if report.assignedTo.value != caller.id {
        return Forbidden("Only assigned worker can complete this report");
      }
      if uploaded.None? {
        return ServerError(UploadFailed);
      }
      report := report.(completionImage := Some(uploaded.value));
      if completionNote != "" {
        report := report.(completionNote := Some(completionNote));
      }
      report := report.(status := Completed);
      if caller.id !in accounts {
        return ServerError(MissingAccount);
      }
      var entry := T.Entry(T.Completed, "Work completed by " + accounts[caller.id].name, caller.id, T.NoMeta, now);
      report := report.(timeline := report.timeline + [entry]);
      response := Save(id, report, Ok);
    }

    /** upvoteReport: removes the caller from the upvoters if present, adds
        them otherwise. */
    method Upvote(caller: Caller, id: Id) returns (response: Response)
      requires Valid()
      modifies this
      ensures Valid()
      ensures L.Outcome(response, reports) == L.Upvote(old(reports), caller, id)
    {
      L.UpvoteKeepsValid(reports, caller, id);
      if id !in reports {
        return NotFound("Report not found");
      }
      var report := reports[id];
      var wasAbsent := caller.id !in report.upvotedBy;
      if !wasAbsent {
        report := report.(upvotedBy := report.upvotedBy - {caller.id});
      } else {
        report := report.(upvotedBy := report.upvotedBy + {caller.id});
      }
      response := Save(id, report, Toggled(wasAbsent, |report.upvotedBy|));
    }

    /** acceptReport, behind the worker guard. */
    method Accept(caller: Caller, id: Id, now: int) returns (response: Response)
      requires Valid()
      modifies this
      ensures Valid()
      ensures L.Outcome(response, reports) == L.Accept(old(reports), caller, id, now)
    {
      L.AcceptKeepsValid(reports, caller, id, now);
      if !Routes.Admits(Routes.GuardOf(Routes.AcceptReport), Some(caller)) {
        return RoleDenied;
      }
      if id !in reports {
        return NotFound("Report not found");
      }
      var report := reports[id];
      if report.assignedTo.None? {
        return ServerError(MissingAssignee);
      }
      if report.assignedTo.value != caller.id {
        return Forbidden("Not assigned to you");
      }
      if report.status != Pending && report.status != Approved {
        return BadRequest("Cannot accept report in current status");
      }
      ghost var before := report.timeline;
      report := report.(status := InProgress);
      report := report.(timeline := report.timeline + [T.Entry(T.AcceptedByWorker, "Report accepted by worker", caller.id, T.NoMeta, now)]);
      report := report.(timeline := report.timeline + [T.Entry(T.InProgress, "Work in progress", caller.id, T.NoMeta, now)]);
      assert report.timeline == before + [T.Entry(T.AcceptedByWorker, "Report accepted by worker", caller.id, T.NoMeta, now),
                                          T.Entry(T.InProgress, "Work in progress", caller.id, T.NoMeta, now)];
      response := Save(id, report, Ok);
    }

    /** rejectReport (by the assigned worker), behind the worker guard. */
    method RejectByWorker(caller: Caller, id: Id, reasonType: string, reasonText: Option<string>, now: int)
      returns (response: Response)
      requires Valid()
      modifies this
      ensures Valid()
      ensures L.Outcome(response, reports) == L.RejectByWorker(old(reports), caller, id, reasonType, reasonText, now)
    {
      L.RejectByWorkerKeepsValid(reports, caller, id, reasonType, reasonText, now);
      if !Routes.Admits(Routes.GuardOf(Routes.RejectReport), Some(caller)) {
        return RoleDenied;
      }
      if reasonType == "" {
        return BadRequest("Reject reason is required");
      }
      if id !in reports {
        return NotFound("Report not found");
      }
      var report := reports[id];
      if report.assignedTo.None? {
        return ServerError(MissingAssignee);
      }
      if report.assignedTo.value != caller.id {
        return Forbidden("Not assigned to you");
      }
      report := report.(status := Rejected);
      var entry := L.WorkerRejectEntry(reasonType, reasonText, caller.id, now);
      report := report.(timeline := report.timeline + [entry]);
      response := Save(id, report, Ok);
    }
  }
}
