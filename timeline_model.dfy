/** The audit record embedded in a report (backend/models/TimelineEntry.js). */
module TimelineModel {
  import opened Common

  /** The eight event kinds a timeline entry may record. They refine the five
      report statuses with how a transition happened. */
  datatype Kind =
    | Pending
    | Approved
    | RejectedByAuthority
    | AssignedToWorker
    | AcceptedByWorker
    | RejectedByWorker
    | InProgress
    | Completed

  /** The values the schema's enum lists for an entry's status. */
  const KindEnum: seq<string> := [
    "pending", "approved", "rejected_by_authority", "assigned_to_worker",
    "accepted_by_worker", "rejected_by_worker", "inprogress", "completed"]

  /** The stored name of a kind: one of the schema's enum values. */
  function KindName(k: Kind): (name: string)
    ensures name in KindEnum
  {
    match k
    case Pending => "pending"
    case Approved => "approved"
    case RejectedByAuthority => "rejected_by_authority"
    case AssignedToWorker => "assigned_to_worker"
    case AcceptedByWorker => "accepted_by_worker"
    case RejectedByWorker => "rejected_by_worker"
    case InProgress => "inprogress"
    case Completed => "completed"
  }

  /** The schema's enum check: a name is accepted exactly when it names a kind. */
  function ParseKind(name: string): (k: Option<Kind>)
    ensures k.Some? ==> KindName(k.value) == name
    ensures k.None? ==> forall x: Kind :: KindName(x) != name
    ensures k.Some? <==> name in KindEnum
  {
    if name == "pending" then Some(Pending)
    else if name == "approved" then Some(Approved)
    else if name == "rejected_by_authority" then Some(RejectedByAuthority)
    else if name == "assigned_to_worker" then Some(AssignedToWorker)
    else if name == "accepted_by_worker" then Some(AcceptedByWorker)
    else if name == "rejected_by_worker" then Some(RejectedByWorker)
    else if name == "inprogress" then Some(InProgress)
    else if name == "completed" then Some(Completed)
    else None
  }

  /** The free-form `meta` payload, as the handlers fill it: no payload (the
      schema default null), a rejection reason, a rejection whose reason is
      undefined (`{ reason: undefined }`), or the id of the assigned worker. */
  datatype Meta = NoMeta | Reason(reason: string) | UndefinedReason | AssignedWorker(workerId: Id)

  /** One entry: its kind, a human-readable message, who triggered it, its
      payload and its own creation time. */
  datatype Entry = Entry(kind: Kind, message: string, actor: Id, meta: Meta, createdAt: int)

  /** The schema's required fields: message and by (here `actor`, since `by` is a Dafny keyword). */
  predicate Wellformed(e: Entry)
  {
    e.message != "" && e.actor != ""
  }
}
