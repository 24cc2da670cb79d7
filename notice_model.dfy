/** The notice document (backend/models/Notice.js). */
module NoticeModel {
  import opened Common

  /** audience: 'public' (the default) or 'worker'. */
  datatype Audience = PublicAudience | WorkerAudience

  /** The values the schema's enum lists for audience. */
  const AudienceEnum: seq<string> := ["public", "worker"]

  /** The stored name of an audience: one of the schema's enum values. */
  function AudienceName(a: Audience): (name: string)
    ensures name in AudienceEnum
  {
    match a
    case PublicAudience => "public"
    case WorkerAudience => "worker"
  }

  /** The schema's enum check on audience. */
  function ParseAudience(name: string): (a: Option<Audience>)
    ensures a.Some? ==> AudienceName(a.value) == name
    ensures a.None? ==> forall x: Audience :: AudienceName(x) != name
    ensures a.Some? <==> name in AudienceEnum
  {
    if name == "public" then Some(PublicAudience)
    else if name == "worker" then Some(WorkerAudience)
    else None
  }

  /** A notice. description and pdfUrl default to null; isActive to true. */
  datatype Notice = Notice(
    title: string,
    description: Option<string>,
    pdfUrl: Option<Url>,
    audience: Audience,
    createdBy: Id,
    isActive: bool,
    createdAt: int)

  /** The schema's required fields: title and createdBy. */
  predicate Wellformed(n: Notice)
  {
    n.title != "" && n.createdBy != ""
  }
}
