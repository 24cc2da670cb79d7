/** Comments on a report (backend/controllers/commentController.js): the role
    tag, the one-comment and one-reply limits for everybody but authorities,
    and the listing of a report's comments, newest first. */
module Comments {
  import opened Common
  import opened CommentModel
  import Ordering

  /** determineRoleTag: authorities and workers are tagged, citizens are not. */
  function DetermineRoleTag(role: Role): (tag: Option<RoleTag>)
    ensures tag == Some(AuthorityTag) <==> role == Authority
    ensures tag == Some(WorkerTag) <==> role == Worker
    ensures tag.None? <==> role == User
  {
    match role
    case Authority => Some(AuthorityTag)
    case Worker => Some(WorkerTag)
    case User => None
  }

  /** `parentComment || parentCommentId || null`: the first of the two fields
      that is given. The parent's existence is not checked. */
  function ParentOf(parentComment: string, parentCommentId: string): (p: Option<Id>)
    ensures p.None? <==> parentComment == "" && parentCommentId == ""
    ensures p.Some? ==> p.value != "" && p.value in {parentComment, parentCommentId}
    ensures parentComment != "" ==> p == Some(parentComment)
  {
    if parentComment != "" then Some(parentComment)
    else if parentCommentId != "" then Some(parentCommentId)
    else None
  }

  predicate IsReply(c: Comment)
  {
    c.parentComment.Some?
  }

  /** The comments a limit counts together: same report, same author, and
      both replies or both top-level. */
  predicate InSlot(c: Comment, report: Id, author: Id, reply: bool)
  {
    c.report == report && c.author == author && IsReply(c) == reply
  }

  /** countDocuments({report, author, parentComment: reply ? {$ne: null} : null}). */
  function CountIn(cs: seq<Comment>, report: Id, author: Id, reply: bool): (n: nat)
    ensures n <= |cs|
    ensures n == 0 <==> forall i :: 0 <= i < |cs| ==> !InSlot(cs[i], report, author, reply)
  {
    if cs == [] then 0
    else
      var last := cs[|cs| - 1];
      var before := CountIn(cs[..|cs| - 1], report, author, reply);
      assert forall i :: 0 <= i < |cs| - 1 ==> cs[i] == cs[..|cs| - 1][i];
      before + (if InSlot(last, report, author, reply) then 1 else 0)
  }

  /** The limits the handler enforces, as an invariant of the collection: two
      comments without the authority tag never share a slot. */
  predicate WithinLimits(cs: seq<Comment>)
  {
    forall i, j :: 0 <= i < j < |cs| && cs[i].authorRoleTag != Some(AuthorityTag)
      && cs[j].authorRoleTag != Some(AuthorityTag) && cs[i].report == cs[j].report && cs[i].author == cs[j].author
      ==> IsReply(cs[i]) != IsReply(cs[j])
  }

  datatype CommentOutcome = CommentOutcome(response: Response, comments: seq<Comment>)

  /** The comment a successful create stores. */
  function NewComment(newId: Id, reportId: Id, author: Id, role: Role, content: string,
                      parentComment: string, parentCommentId: string, now: int): (c: Comment)
    ensures c.authorRoleTag == DetermineRoleTag(role)
    ensures c.parentComment == ParentOf(parentComment, parentCommentId)
    ensures c.report == reportId && c.author == author && c.content == content && c.id == newId
  {
    Comment(newId, reportId, author, DetermineRoleTag(role), ParentOf(parentComment, parentCommentId), content, now)
  }

  /** createComment on the comments collection `cs`. `reportIds` are the
      existing reports; `accounts` the users collection, from which the role
      is read. */
  function CreateComment(cs: seq<Comment>, reportIds: set<Id>, accounts: map<Id, Account>, caller: Caller,
                         newId: Id, reportId: Id, content: string, parentComment: string,
                         parentCommentId: string, now: int): (o: CommentOutcome)
    ensures content == "" ==> o == CommentOutcome(BadRequest("Content is required"), cs)
    ensures content != "" && reportId !in reportIds ==> o == CommentOutcome(NotFound("Report not found"), cs)
    ensures content != "" && reportId in reportIds && caller.id !in accounts ==>
      o == CommentOutcome(ServerError(MissingAccount), cs)
    ensures content != "" && reportId in reportIds && caller.id in accounts && accounts[caller.id].role != Authority ==>
      var reply := ParentOf(parentComment, parentCommentId).Some?;
      CountIn(cs, reportId, caller.id, reply) >= 1 ==>
        o == CommentOutcome(Forbidden(if reply then "Only one reply allowed per report"
                                      else "Only one comment allowed per report"), cs)
    ensures o.response.Created? <==>
      && content != "" && reportId in reportIds && reportId != "" && caller.id in accounts && caller.id != ""
      && (accounts[caller.id].role == Authority
          || CountIn(cs, reportId, caller.id, ParentOf(parentComment, parentCommentId).Some?) == 0)
    ensures !o.response.Created? ==> o.comments == cs
    ensures o.response.Created? ==>
      && caller.id in accounts && o.response == Created(newId)
      && o.comments == cs + [NewComment(newId, reportId, caller.id, accounts[caller.id].role, content,
                                        parentComment, parentCommentId, now)]
    ensures WithinLimits(cs) ==> WithinLimits(o.comments)
  {
    if content == "" then CommentOutcome(BadRequest("Content is required"), cs)
    else if reportId !in reportIds then CommentOutcome(NotFound("Report not found"), cs)
    else if caller.id !in accounts then CommentOutcome(ServerError(MissingAccount), cs)
    else
      var role := accounts[caller.id].role;
      var reply := ParentOf(parentComment, parentCommentId).Some?;
      if role != Authority && CountIn(cs, reportId, caller.id, reply) >= 1 then
        CommentOutcome(Forbidden(if reply then "Only one reply allowed per report"
                                 else "Only one comment allowed per report"), cs)
      else
        var c := NewComment(newId, reportId, caller.id, role, content, parentComment, parentCommentId, now);
        if !Wellformed(c) then CommentOutcome(ServerError(ValidationFailed), cs)
        else
          assert role != Authority ==> forall i :: 0 <= i < |cs| ==> !InSlot(cs[i], reportId, caller.id, reply);
          CommentOutcome(Created(newId), cs + [c])
  }

  /** The comments of one report, in collection order. */
  function OfReport(cs: seq<Comment>, reportId: Id): (r: seq<Comment>)
    ensures forall c :: c in r <==> c in cs && c.report == reportId
    ensures multiset(r) <= multiset(cs)
  {
    if cs == [] then []
    else
      var last := cs[|cs| - 1];
      assert cs == cs[..|cs| - 1] + [last];
      OfReport(cs[..|cs| - 1], reportId) + (if last.report == reportId then [last] else [])
  }

  function CreatedAt(c: Comment): int
  {
    c.createdAt
  }

  /** getComments: 404 for a missing report, otherwise that report's comments,
      newest first. */
  function GetComments(cs: seq<Comment>, reportIds: set<Id>, reportId: Id): (r: Option<seq<Comment>>)
    ensures r.None? <==> reportId !in reportIds
    ensures r.Some? ==>
      && Ordering.SortedDesc(r.value, CreatedAt)
      && multiset(r.value) == multiset(OfReport(cs, reportId))
      && forall c :: c in r.value <==> c in cs && c.report == reportId
  {
    if reportId !in reportIds then None
    else
      var sorted := Ordering.SortDesc(OfReport(cs, reportId), CreatedAt);
      assert forall c :: c in sorted <==> c in multiset(sorted);
      Some(sorted)
  }

  /** The comments collection, to which createComment appends. */
  class CommentBoard {
    var comments: seq<Comment>

    ghost predicate Valid()
      reads this
    {
      WithinLimits(comments)
    }

    constructor ()
      ensures Valid() && comments == []
    {
      comments := [];
    }

    /** countDocuments over the collection. */
    method Count(report: Id, author: Id, reply: bool) returns (n: nat)
      ensures n == CountIn(comments, report, author, reply)
    {
      n := 0;
      var i := 0;
      while i < |comments|
        invariant 0 <= i <= |comments|
        invariant n == CountIn(comments[..i], report, author, reply)
      {
        assert comments[..i + 1][..i] == comments[..i];
        if InSlot(comments[i], report, author, reply) {
          n := n + 1;
        }
        i := i + 1;
      }
      assert comments[..i] == comments;
    }

    method Create(reportIds: set<Id>, accounts: map<Id, Account>, caller: Caller, newId: Id, reportId: Id,
                  content: string, parentComment: string, parentCommentId: string, now: int)
      returns (response: Response)
      requires Valid()
      modifies this
      ensures Valid()
      ensures CommentOutcome(response, comments) ==
        CreateComment(old(comments), reportIds, accounts, caller, newId, reportId, content,
                      parentComment, parentCommentId, now)
    {
      if content == "" {
        return BadRequest("Content is required");
      }
      if reportId !in reportIds {
        return NotFound("Report not found");
      }
      if caller.id !in accounts {
        return ServerError(MissingAccount);
      }
      var user := accounts[caller.id];
      var roleTag := DetermineRoleTag(user.role);
      if user.role != Authority {
        var isReply := parentComment != "" || parentCommentId != "";
        if isReply {
          var replyCount := Count(reportId, caller.id, true);
          if replyCount >= 1 {
            return Forbidden("Only one reply allowed per report");
          }
        } else {
          var topLevelCount := Count(reportId, caller.id, false);
          if topLevelCount >= 1 {
            return Forbidden("Only one comment allowed per report");
          }
        }
      }
      var comment := Comment(newId, reportId, caller.id, roleTag, ParentOf(parentComment, parentCommentId), content, now);
      if !Wellformed(comment) {
        return ServerError(ValidationFailed);
      }
      comments := comments + [comment];
      response := Created(newId);
    }

    /** The report's comments in collection order, gathered one by one; the
        listing hands them to the database sort. */
    method CommentsOf(reportId: Id) returns (mine: seq<Comment>)
      ensures mine == OfReport(comments, reportId)
    {
      mine := [];
      var i := 0;
      while i < |comments|
        invariant 0 <= i <= |comments|
        invariant mine == OfReport(comments[..i], reportId)
      {
        assert comments[..i + 1][..i] == comments[..i];
        if comments[i].report == reportId {
          mine := mine + [comments[i]];
        }
        i := i + 1;
      }
      assert comments[..i] == comments;
    }
  }

  /** The limit in action: once a non-authority author's comment (or reply)
      on a report is stored, the same author's next one of the same kind on
      that report is refused. */
  lemma SecondInSlotRefused(cs: seq<Comment>, reportIds: set<Id>, accounts: map<Id, Account>, caller: Caller,
                            newId: Id, reportId: Id, content: string, parentComment: string,
                            parentCommentId: string, now: int,
                            newId2: Id, content2: string, parentComment2: string, parentCommentId2: string, now2: int)
    requires caller.id in accounts && accounts[caller.id].role != Authority
    requires CreateComment(cs, reportIds, accounts, caller, newId, reportId, content,
                           parentComment, parentCommentId, now).response.Created?
    requires content2 != ""
    requires ParentOf(parentComment2, parentCommentId2).Some? == ParentOf(parentComment, parentCommentId).Some?
    ensures
      var first := CreateComment(cs, reportIds, accounts, caller, newId, reportId, content,
                                 parentComment, parentCommentId, now);
      CreateComment(first.comments, reportIds, accounts, caller, newId2, reportId, content2,
                    parentComment2, parentCommentId2, now2).response.Forbidden?
  {
    var first := CreateComment(cs, reportIds, accounts, caller, newId, reportId, content,
                               parentComment, parentCommentId, now);
    var reply := ParentOf(parentComment, parentCommentId).Some?;
    var last := first.comments[|first.comments| - 1];
    assert InSlot(last, reportId, caller.id, reply);
  }
}
