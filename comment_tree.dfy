/** The comment section of a report page (frontend/src/components/comments.jsx):
    the one-level tree built from the fetched list, the caller's comment and
    reply counts that gate the forms, and the slices that are shown. */
module CommentTree {
  import opened Common
  import opened CommentModel
  import Text
  import Comments

  /** `parentComment` as the browser sees it: `null`, a raw id, or a populated
      object whose `_id` may be absent. `typeof null` is "object", so a null
      parent takes the object branch and yields undefined. */
  datatype ParentRef = NullParent | RawId(raw: string) | Embedded(inner: Option<Id>)

  /** `author`: a populated object or a raw id. */
  datatype AuthorRef = AuthorObj(objId: Option<Id>) | AuthorRaw(rawId: Id)

  datatype ClientComment = ClientComment(id: Id, author: AuthorRef, parent: ParentRef)

  /** The user the client holds after login. */
  datatype ClientUser = ClientUser(id: Id, role: Role)

  /** The parent id the tree builder computes; only a truthy one counts. */
  function ParentId(p: ParentRef): (r: Option<Id>)
    ensures r.Some? ==> r.value != ""
    ensures p.NullParent? ==> r.None?
  {
    match p
    case NullParent => None
    case RawId(s) => if s != "" then Some(s) else None
    case Embedded(inner) => if inner.Some? && inner.value != "" then inner else None
  }

  /** `!!c.parentComment`: an object, even one without `_id`, is truthy. */
  predicate HasParent(c: ClientComment)
  {
    match c.parent
    case NullParent => false
    case RawId(s) => s != ""
    case Embedded(_) => true
  }

  function Ids(list: seq<ClientComment>): set<Id>
  {
    set i | 0 <= i < |list| :: list[i].id
  }

  predicate UniqueIds(list: seq<ClientComment>)
  {
    forall i, j :: 0 <= i < j < |list| ==> list[i].id != list[j].id
  }

  /** Where the builder puts a comment: under its parent when the parent's
      id is one of the keys, at the root (None) otherwise, orphans included. */
  function Placement(c: ClientComment, keys: set<Id>): (slot: Option<Id>)
    ensures slot.Some? <==> ParentId(c.parent).Some? && ParentId(c.parent).value in keys
    ensures slot.Some? ==> slot == ParentId(c.parent)
  {
    var p := ParentId(c.parent);
    if p.Some? && p.value in keys then p else None
  }

  /** The ids placed in `slot`, in list order: the roots for None, the
      replies of `p` for Some(p). */
  function Placed(list: seq<ClientComment>, keys: set<Id>, slot: Option<Id>): (r: seq<Id>)
    ensures |r| <= |list|
  {
    if list == [] then []
    else
      var last := list[|list| - 1];
      var init := list[..|list| - 1];
      var before := Placed(init, keys, slot);
      assert forall i :: 0 <= i < |init| ==> init[i] == list[i];
      before + (if Placement(last, keys) == slot then [last.id] else [])
  }

  /** An id is placed in a slot iff a comment with that id belongs there. */
  lemma {:induction false} PlacedMembers(list: seq<ClientComment>, keys: set<Id>, slot: Option<Id>)
    ensures forall x :: x in Placed(list, keys, slot) <==>
      exists i :: 0 <= i < |list| && list[i].id == x && Placement(list[i], keys) == slot
  {
    if list != [] {
      var init := list[..|list| - 1];
      PlacedMembers(init, keys, slot);
      assert forall i :: 0 <= i < |init| ==> init[i] == list[i];
    }
  }

  lemma PlacedSnoc(list: seq<ClientComment>, c: ClientComment, keys: set<Id>, slot: Option<Id>)
    ensures Placed(list + [c], keys, slot) == Placed(list, keys, slot) + (if Placement(c, keys) == slot then [c.id] else [])
  {
    assert (list + [c])[..|list|] == list;
  }

  lemma IdsSnoc(list: seq<ClientComment>, i: nat)
    requires i < |list|
    ensures Ids(list[..i + 1]) == Ids(list[..i]) + {list[i].id}
  {
    forall x | x in Ids(list[..i + 1]) ensures x in Ids(list[..i]) + {list[i].id} {
      var k :| 0 <= k < i + 1 && list[..i + 1][k].id == x;
      if k < i { assert list[..i][k].id == x; }
    }
    forall x | x in Ids(list[..i]) ensures x in Ids(list[..i + 1]) {
      var k :| 0 <= k < i && list[..i][k].id == x;
      assert list[..i + 1][k].id == x;
    }
  }

  /** The first pass of buildCommentTree: an empty reply list for every id. */
  method EmptySlots(list: seq<ClientComment>) returns (replies: map<Id, seq<Id>>)
    ensures replies.Keys == Ids(list)
    ensures forall p :: p in replies ==> replies[p] == []
  {
    replies := map[];
    for i := 0 to |list|
      invariant replies.Keys == Ids(list[..i])
      invariant forall p :: p in replies ==> replies[p] == []
    {
      IdsSnoc(list, i);
      replies := replies[list[i].id := []];
    }
    assert list[..|list|] == list;
  }

  /** The tree built so far holds the placements of the comments `done`. */
  predicate Built(done: seq<ClientComment>, keys: set<Id>, roots: seq<Id>, replies: map<Id, seq<Id>>)
  {
    && replies.Keys == keys
    && roots == Placed(done, keys, None)
    && forall p :: p in replies ==> replies[p] == Placed(done, keys, Some(p))
  }

  /** One step of the second pass: the next comment goes under its parent
      when that parent is a key, and to the roots otherwise. */
  lemma PlaceNext(done: seq<ClientComment>, c: ClientComment, keys: set<Id>, roots: seq<Id>, replies: map<Id, seq<Id>>)
    requires Built(done, keys, roots, replies)
    ensures var parent := ParentId(c.parent);
      parent.Some? && parent.value in replies ==>
        Built(done + [c], keys, roots, replies[parent.value := replies[parent.value] + [c.id]])
    ensures var parent := ParentId(c.parent);
      !(parent.Some? && parent.value in replies) ==> Built(done + [c], keys, roots + [c.id], replies)
  {
    PlacedSnoc(done, c, keys, None);
    forall p | p in replies {
      PlacedSnoc(done, c, keys, Some(p));
    }
  }

  /** buildCommentTree, with each node identified by its id: `roots` in
      order, and for every comment id the ids of its replies in order. */
  method BuildCommentTree(list: seq<ClientComment>) returns (roots: seq<Id>, replies: map<Id, seq<Id>>)
    ensures roots == Placed(list, Ids(list), None)
    ensures replies.Keys == Ids(list)
    ensures forall p :: p in replies ==> replies[p] == Placed(list, Ids(list), Some(p))
  {
    replies := EmptySlots(list);
    ghost var keys := Ids(list);
    roots := [];
    for i := 0 to |list|
      invariant Built(list[..i], keys, roots, replies)
    {
      var c := list[i];
      assert list[..i + 1] == list[..i] + [c];
      PlaceNext(list[..i], c, keys, roots, replies);
      var parent := ParentId(c.parent);
      if parent.Some? && parent.value in replies {
        replies := replies[parent.value := replies[parent.value] + [c.id]];
      } else {
        roots := roots + [c.id];
      }
    }
    assert list[..|list|] == list;
  }

  /** With distinct ids, every comment is placed exactly once: once in the
      slot it belongs to and in no other. */
  lemma {:induction false} PlacedExactlyOnce(list: seq<ClientComment>, keys: set<Id>, k: nat, slot: Option<Id>)
    requires UniqueIds(list) && k < |list|
    ensures multiset(Placed(list, keys, slot))[list[k].id] == if slot == Placement(list[k], keys) then 1 else 0
  {
    var init := list[..|list| - 1];
    var last := list[|list| - 1];
    assert list == init + [last];
    PlacedSnoc(init, last, keys, slot);
    if k < |list| - 1 {
      assert UniqueIds(init);
      assert init[k] == list[k];
      PlacedExactlyOnce(init, keys, k, slot);
      assert last.id != list[k].id;
    } else {
      assert forall i :: 0 <= i < |init| ==> init[i].id != last.id;
      PlacedMembers(init, keys, slot);
      assert last.id !in Placed(init, keys, slot);
    }
  }

  /** Input order is kept in every slot: the placements of a list split in
      two are those of the first part followed by those of the second. */
  lemma {:induction false} PlacedKeepsOrder(a: seq<ClientComment>, b: seq<ClientComment>, keys: set<Id>, slot: Option<Id>)
    ensures Placed(a + b, keys, slot) == Placed(a, keys, slot) + Placed(b, keys, slot)
  {
    if b == [] {
      assert a + b == a;
    } else {
      var init := b[..|b| - 1];
      var last := b[|b| - 1];
      var tail := if Placement(last, keys) == slot then [last.id] else [];
      assert b == init + [last];
      calc {
        Placed(a + b, keys, slot);
      == { assert a + b == (a + init) + [last]; PlacedSnoc(a + init, last, keys, slot); }
        Placed(a + init, keys, slot) + tail;
      == { PlacedKeepsOrder(a, init, keys, slot); }
        (Placed(a, keys, slot) + Placed(init, keys, slot)) + tail;
      == { PlacedSnoc(init, last, keys, slot); }
        Placed(a, keys, slot) + Placed(b, keys, slot);
      }
    }
  }

  /** `c.author?._id === myId || c.author === myId`. */
  predicate AuthoredBy(c: ClientComment, myId: Option<Id>)
  {
    match c.author
    case AuthorObj(o) => o == myId
    case AuthorRaw(s) => myId == Some(s)
  }

  function MyId(user: Option<ClientUser>): Option<Id>
  {
    if user.Some? then Some(user.value.id) else None
  }

  /** myTopLevelCount (reply = false) and myReplyCount (reply = true). */
  function MyCount(comments: seq<ClientComment>, myId: Option<Id>, reply: bool): (n: nat)
    ensures n <= |comments|
    ensures n == 0 <==> forall i :: 0 <= i < |comments| ==> !(AuthoredBy(comments[i], myId) && HasParent(comments[i]) == reply)
  {
    if comments == [] then 0
    else
      var init := comments[..|comments| - 1];
      var last := comments[|comments| - 1];
      assert forall i :: 0 <= i < |init| ==> init[i] == comments[i];
      MyCount(init, myId, reply) + (if AuthoredBy(last, myId) && HasParent(last) == reply then 1 else 0)
  }

  /** canPostTopLevel (reply = false) and canPostReply (reply = true). */
  function CanPost(user: Option<ClientUser>, comments: seq<ClientComment>, reply: bool): (ok: bool)
    ensures ok <==> user.None? || user.value.role == Authority || MyCount(comments, MyId(user), reply) == 0
  {
    user.None? || user.value.role == Authority || MyCount(comments, MyId(user), reply) < 1
  }

  /** A stored comment as the listing sends it: the author populated, the
      parent a raw id or null. */
  function ToClient(c: Comment): ClientComment
  {
    ClientComment(c.id, AuthorObj(Some(c.author)),
                  if c.parentComment.Some? then RawId(c.parentComment.value) else NullParent)
  }

  function ToClientAll(cs: seq<Comment>): (r: seq<ClientComment>)
    ensures |r| == |cs| && forall i :: 0 <= i < |cs| ==> r[i] == ToClient(cs[i])
  {
    if cs == [] then [] else [ToClient(cs[0])] + ToClientAll(cs[1..])
  }

  /** On a list of one report's comments whose parents are real ids, the
      client's counts are the server's counts. */
  lemma {:induction false} CountsAgree(cs: seq<Comment>, report: Id, author: Id, reply: bool)
    requires forall i :: 0 <= i < |cs| ==> cs[i].report == report
    requires forall i :: 0 <= i < |cs| ==> cs[i].parentComment != Some("")
    ensures MyCount(ToClientAll(cs), Some(author), reply) == Comments.CountIn(cs, report, author, reply)
  {
    if cs != [] {
      var init := cs[..|cs| - 1];
      assert ToClientAll(cs)[..|cs| - 1] == ToClientAll(init);
      CountsAgree(init, report, author, reply);
    }
  }

  /** So the forms a signed-in non-authority user sees are offered exactly
      when the server would not refuse on the limit. */
  lemma GateAgreesWithServer(cs: seq<Comment>, report: Id, user: ClientUser, reply: bool)
    requires forall i :: 0 <= i < |cs| ==> cs[i].report == report
    requires forall i :: 0 <= i < |cs| ==> cs[i].parentComment != Some("")
    requires user.role != Authority
    ensures CanPost(Some(user), ToClientAll(cs), reply) <==> Comments.CountIn(cs, report, user.id, reply) == 0
  {
    CountsAgree(cs, report, user.id, reply);
  }

  /** `!text.trim()` stops the submit. */
  function ShouldSubmit(text: string): (submit: bool)
    ensures submit <==> !Text.IsBlank(text)
  {
    Text.Trim(text) != ""
  }

  /** A submitted text always passes the server's content check. */
  lemma SubmittedHasContent(text: string)
    requires ShouldSubmit(text)
    ensures text != ""
  {
    assert |Text.Trim(text)| <= |text|;
  }

  const InitiallyShown := 5

  /** The roots rendered: all, or the first five until expanded. */
  function VisibleRoots(roots: seq<Id>, showAll: bool): (r: seq<Id>)
    ensures showAll ==> r == roots
    ensures !showAll ==> |r| == if |roots| <= InitiallyShown then |roots| else InitiallyShown
    ensures r <= roots
  {
    if showAll || |roots| <= InitiallyShown then roots else roots[..InitiallyShown]
  }

  /** The "View more comments (n)" count, shown when there are more than five
      roots and the list is collapsed. */
  function MoreComments(roots: seq<Id>, showAll: bool): (n: Option<nat>)
    ensures n.Some? <==> |roots| > InitiallyShown && !showAll
  {
    if |roots| > InitiallyShown && !showAll then Some(|roots| - InitiallyShown) else None
  }

  /** The collapsed view and its "view more" count account for every root. */
  lemma CollapsedCoversAll(roots: seq<Id>)
    ensures |VisibleRoots(roots, false)| + (if MoreComments(roots, false).Some? then MoreComments(roots, false).value else 0) == |roots|
    ensures MoreComments(roots, false).Some? ==> VisibleRoots(roots, false) + roots[InitiallyShown..] == roots
  {
  }

  /** The replies rendered under one comment: the first always, the rest
      when expanded, and the "View n more repl(y|ies)" count otherwise. */
  function ShownReplies(replies: seq<Id>, expanded: bool): (r: seq<Id>)
    ensures r <= replies
    ensures |replies| > 0 ==> |r| > 0 && r[0] == replies[0]
    ensures expanded ==> r == replies
  {
    if expanded || |replies| == 0 then replies else replies[..1]
  }

  function MoreReplies(replies: seq<Id>, expanded: bool): (n: Option<nat>)
    ensures n.Some? ==> n.value >= 1 && |ShownReplies(replies, expanded)| + n.value == |replies|
    ensures n.None? ==> ShownReplies(replies, expanded) == replies
  {
    if !expanded && |replies| > 1 then Some(|replies| - 1) else None
  }

  function ReplySuffix(n: nat): string
  {
    if n > 1 then "ies" else "y"
  }
}
