/** The comment document (backend/models/Comment.js). */
module CommentModel {
  import opened Common

  /** authorRoleTag: 'authority', 'worker', or null (Option.None) for citizens. */
  datatype RoleTag = AuthorityTag | WorkerTag

  /** A comment on a report. parentComment None (the default null) marks a
      top-level comment; Some(id) a reply. */
  datatype Comment = Comment(
    id: Id,
    report: Id,
    author: Id,
    authorRoleTag: Option<RoleTag>,
    parentComment: Option<Id>,
    content: string,
    createdAt: int)

  /** The schema's required fields: report, author and content. */
  predicate Wellformed(c: Comment)
  {
    c.report != "" && c.author != "" && c.content != ""
  }
}
