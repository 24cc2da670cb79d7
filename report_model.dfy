/** The report document (backend/models/Report.js). */
module ReportModel {
  import opened Common
  import TimelineModel

  /** The five values of Report.status; a new report is `pending`. */
  datatype Status = Pending | Approved | InProgress | Completed | Rejected

  /** The values the schema's enum lists for status. */
  const StatusEnum: seq<string> := ["pending", "approved", "inprogress", "completed", "rejected"]

  /** The stored name of a status: one of the schema's enum values. */
  function StatusName(s: Status): (name: string)
    ensures name in StatusEnum
  {
    match s
    case Pending => "pending"
    case Approved => "approved"
    case InProgress => "inprogress"
    case Completed => "completed"
    case Rejected => "rejected"
  }

  /** The schema's enum check on status. */
  function ParseStatus(name: string): (s: Option<Status>)
    ensures s.Some? ==> StatusName(s.value) == name
    ensures s.None? ==> forall x: Status :: StatusName(x) != name
    ensures s.Some? <==> name in StatusEnum
  {
    if name == "pending" then Some(Pending)
    else if name == "approved" then Some(Approved)
    else if name == "inprogress" then Some(InProgress)
    else if name == "completed" then Some(Completed)
    else if name == "rejected" then Some(Rejected)
    else None
  }

  /** Every status name is accepted back as that status, so distinct
      statuses have distinct names. */
  lemma StatusNameRoundTrip(s: Status)
    ensures ParseStatus(StatusName(s)) == Some(s)
  {
  }

  /** The three values of Report.priority; a new report is `low`. */
  datatype Priority = Low | Medium | High

  /** The values the schema's enum lists for priority. */
  const PriorityEnum: seq<string> := ["low", "medium", "high"]

  /** The stored name of a priority: one of the schema's enum values. */
  function PriorityName(p: Priority): (name: string)
    ensures name in PriorityEnum
  {
    match p
    case Low => "low"
    case Medium => "medium"
    case High => "high"
  }

  /** The schema's enum check on priority. */
  function ParsePriority(name: string): (p: Option<Priority>)
    ensures p.Some? ==> PriorityName(p.value) == name
    ensures p.None? ==> forall x: Priority :: PriorityName(x) != name
    ensures p.Some? <==> name in PriorityEnum
  {
    if name == "low" then Some(Low)
    else if name == "medium" then Some(Medium)
    else if name == "high" then Some(High)
    else None
  }

  /** Every priority name is accepted back as that priority. */
  lemma PriorityNameRoundTrip(p: Priority)
    ensures ParsePriority(PriorityName(p)) == Some(p)
  {
  }

  /** location.address is required; latitude and longitude default to null. */
  datatype Location = Location(address: string, latitude: Option<real>, longitude: Option<real>)

  datatype Report = Report(
    issueId: string,
    title: string,
    description: string,
    image: Url,
    completionImage: Option<Url>,
    completionNote: Option<string>,
    location: Location,
    priority: Priority,
    status: Status,
    createdBy: Id,
    assignedTo: Option<Id>,
    upvotedBy: set<Id>,
    timeline: seq<TimelineModel.Entry>,
    createdAt: int)

  /** The virtual upvotesCount: how many accounts upvoted the report; zero
      exactly when nobody has. */
  function UpvotesCount(r: Report): (n: nat)
    ensures n == 0 <==> r.upvotedBy == {}
  {
    |r.upvotedBy|
  }

  /** Adding a new vote raises the count by one; withdrawing a vote lowers it by one. */
  lemma VoteChangesCountByOne(r: Report, u: Id)
    ensures u !in r.upvotedBy ==> UpvotesCount(r.(upvotedBy := r.upvotedBy + {u})) == UpvotesCount(r) + 1
    ensures u in r.upvotedBy ==> UpvotesCount(r.(upvotedBy := r.upvotedBy - {u})) == UpvotesCount(r) - 1
  {
  }

  /** The schema's required fields are present (non-empty), here and in every
      embedded timeline entry. save() refuses a document that is not. */
  predicate Wellformed(r: Report)
  {
    && r.issueId != ""
    && r.title != ""
    && r.description != ""
    && r.image != ""
    && r.location.address != ""
    && r.createdBy != ""
    && forall i :: 0 <= i < |r.timeline| ==> TimelineModel.Wellformed(r.timeline[i])
  }

  /** The report status an event leaves behind, or None for the two events that
      do not change the status (assignment, and acceptance which is always
      followed by an `inprogress` event). */
  function StatusSetBy(k: TimelineModel.Kind): Option<Status>
  {
    match k
    case Pending => Some(Pending)
    case Approved => Some(Approved)
    case RejectedByAuthority => Some(Rejected)
    case AssignedToWorker => None
    case AcceptedByWorker => None
    case RejectedByWorker => Some(Rejected)
    case InProgress => Some(InProgress)
    case Completed => Some(Completed)
  }

  /** The status set by the latest status-bearing entry of a timeline. */
  function LatestStatus(timeline: seq<TimelineModel.Entry>): Option<Status>
  {
    if timeline == [] then None
    else
      var s := StatusSetBy(timeline[|timeline| - 1].kind);
      if s.Some? then s else LatestStatus(timeline[..|timeline| - 1])
  }

  /** The head-level status agrees with the latest status-bearing timeline entry. */
  predicate StatusAgreesWithTimeline(r: Report)
  {
    LatestStatus(r.timeline) == Some(r.status)
  }

  /** Appending an entry that sets a status makes that status the latest one. */
  lemma LatestStatusAfterStatusEntry(t: seq<TimelineModel.Entry>, e: TimelineModel.Entry)
    requires StatusSetBy(e.kind).Some?
    ensures LatestStatus(t + [e]) == StatusSetBy(e.kind)
  {
  }

  /** Appending an entry that sets no status keeps the latest status. */
  lemma LatestStatusAfterOtherEntry(t: seq<TimelineModel.Entry>, e: TimelineModel.Entry)
    requires StatusSetBy(e.kind).None?
    ensures LatestStatus(t + [e]) == LatestStatus(t)
  {
    assert (t + [e])[..|t|] == t;
  }
}
