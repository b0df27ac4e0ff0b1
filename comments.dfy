/**
 * The comment routes (src/routes/comments.js): create on a post, list a
 * post's comments newest first, and update or delete a comment, both gated
 * on a lookup by id and author.
 */
module Comments {
  import opened Common
  import opened Seqs
  import opened Schema
  import opened Store
  import opened Http

  const NotFoundOrUnauthorized: string := "Comment not found or unauthorized"
  const CommentDeleted: string := "Comment deleted successfully"

  /** The ownership gate `findFirst({ where: { id, userId } })` finds a row. */
  predicate Wrote(comments: seq<Comment>, caller: int, id: int) {
    exists c :: c in comments && c.id == id && c.userId == caller
  }

  /** A post's comments, `orderBy: { createdAt: 'desc' }`. */
  function Thread(comments: seq<Comment>, postId: int): (r: seq<Comment>)
    ensures forall c :: c in r <==> c in comments && c.postId == postId
    ensures NewestFirst(r, CommentCreatedAt)
    ensures multiset(r) == multiset(Filter(comments, CommentOnPost(postId)))
  {
    SortNewestFirst(Filter(comments, CommentOnPost(postId)), CommentCreatedAt)
  }

  /** With distinct ids, a thread lists each of the post's comments exactly once. */
  lemma ThreadCount(comments: seq<Comment>, postId: int)
    requires Increasing(comments, CommentId)
    ensures |Thread(comments, postId)| == |set c | c in comments && c.postId == postId :: c.id|
  {
    var f := Filter(comments, CommentOnPost(postId));
    FilterIncreasing(comments, CommentOnPost(postId), CommentId);
    DistinctKeysCount(f, CommentId);
    var onPost := set c | c in comments && c.postId == postId :: c.id;
    forall i | i in onPost ensures i in KeysOf(f, CommentId) {
      var c :| c in comments && c.postId == postId && c.id == i;
      assert c in f;
    }
    assert KeysOf(f, CommentId) == onPost;
  }

  /** GET /comments/post/:postId. */
  function ListComments(t: Tables, postId: int): (r: Response)
    ensures r.status == 200 && r.body.CommentList?
    ensures forall c :: c in r.body.comments <==> c in t.comments && c.postId == postId
    ensures NewestFirst(r.body.comments, CommentCreatedAt)
  {
    Response(200, CommentList(Thread(t.comments, postId)))
  }

  /** POST /comments/:postId: the caller comments on the post; `now` is the row's createdAt. */
  method CreateComment(db: Db, caller: int, postId: int, content: string, now: int) returns (res: Response)
    requires db.Valid()
    modifies db
    ensures db.Valid()
    ensures !(IsUser(old(db.users), caller) && IsPost(old(db.posts), postId)) ==>
      res == Response(500, ErrorOf(KnownRequestError(ForeignKeyViolation))) && unchanged(db)
    ensures IsUser(old(db.users), caller) && IsPost(old(db.posts), postId) ==>
      && res == Response(201, CommentBody(Comment(old(db.next.comment), content, caller, postId, now)))
      && db.Snapshot() == old(db.Snapshot()).(comments := old(db.comments) + [res.body.comment])
      && db.next == old(db.next).(comment := old(db.next.comment) + 1)
  {
    var r := db.CreateComment(content, caller, postId, now);
    match r
    case Ok(c) => res := Response(201, CommentBody(c));
    case Err(e) => res := Response(500, ErrorOf(e));
  }

  /** `comment.update({ where: { id } })` changes the row the gate found, since ids are unique. */
  lemma CommentById(comments: seq<Comment>, id: int, c: Comment)
    requires Increasing(comments, CommentId)
    requires c in comments && c.id == id
    ensures FindFirst(comments, CommentWithId(id)) == Some(c)
  {
    var f := FindFirst(comments, CommentWithId(id));
    assert CommentWithId(id)(c);
    IncreasingUnique(comments, CommentId, f.value, c);
  }

  /** PUT /comments/:id: only the author may change a comment's content. */
  method UpdateComment(db: Db, caller: int, id: int, content: string) returns (res: Response)
    requires db.Valid()
    modifies db
    ensures db.Valid()
    ensures !Wrote(old(db.comments), caller, id) ==>
      res == Response(404, Message(NotFoundOrUnauthorized)) && unchanged(db)
    ensures Wrote(old(db.comments), caller, id) ==>
      && res.status == 200 && res.body.CommentBody?
      && res.body.comment.id == id && res.body.comment.userId == caller && res.body.comment.content == content
      && res.body.comment in db.comments
      && db.Snapshot() == old(db.Snapshot()).(comments := WithContent(old(db.comments), id, content))
      && db.next == old(db.next)
  {
    var owned := FindFirst(db.comments, CommentOwnedBy(id, caller));
    if !Wrote(db.comments, caller, id) {
      return Response(404, Message(NotFoundOrUnauthorized));
    }
    assert owned.Some? && CommentOwnedBy(id, caller)(owned.value);
    CommentById(db.comments, id, owned.value);
    var r := db.UpdateComment(id, content);
    res := Response(200, CommentBody(r.value));
  }

  /** Updating a comment changes no other row. */
  lemma UpdateTouchesOneRow(comments: seq<Comment>, id: int, content: string)
    requires Increasing(comments, CommentId)
    ensures forall k :: 0 <= k < |comments| && comments[k].id != id ==>
      WithContent(comments, id, content)[k] == comments[k]
    ensures forall j, k ::
      (0 <= j < |comments| && 0 <= k < |comments| && j != k && WithContent(comments, id, content)[j] != comments[j])
      ==> WithContent(comments, id, content)[k] == comments[k]
  {
    var r := WithContent(comments, id, content);
    forall j, k | 0 <= j < |comments| && 0 <= k < |comments| && j != k && r[j] != comments[j]
      ensures r[k] == comments[k]
    {
      assert comments[j].id == id;
      if j < k { assert comments[j].id < comments[k].id; } else { assert comments[k].id < comments[j].id; }
    }
  }

  /** DELETE /comments/:id: only the author may delete a comment. */
  method DeleteComment(db: Db, caller: int, id: int) returns (res: Response)
    requires db.Valid()
    modifies db
    ensures db.Valid()
    ensures !Wrote(old(db.comments), caller, id) ==>
      res == Response(404, Message(NotFoundOrUnauthorized)) && unchanged(db)
    ensures Wrote(old(db.comments), caller, id) ==>
      && res == Response(200, Message(CommentDeleted))
      && db.Snapshot() == old(db.Snapshot()).(comments := Filter(old(db.comments), Not(CommentWithId(id))))
      && db.next == old(db.next)
  {
    var owned := FindFirst(db.comments, CommentOwnedBy(id, caller));
    if !Wrote(db.comments, caller, id) {
      return Response(404, Message(NotFoundOrUnauthorized));
    }
    assert owned.Some? && CommentOwnedBy(id, caller)(owned.value);
    assert IsComment(db.comments, id);
    var err := db.DeleteComment(id);
    res := Response(200, Message(CommentDeleted));
  }

  /** A delete removes exactly one row, the one with that id. */
  lemma DeleteRemovesOne(comments: seq<Comment>, id: int)
    requires Increasing(comments, CommentId) && IsComment(comments, id)
    ensures |Filter(comments, Not(CommentWithId(id)))| == |comments| - 1
    ensures forall c :: c in Filter(comments, Not(CommentWithId(id))) <==> c in comments && c.id != id
  {
    forall x, y | x in comments && y in comments && CommentWithId(id)(x) && CommentWithId(id)(y) ensures x == y {
      IncreasingUnique(comments, CommentId, x, y);
    }
    var w :| w in comments && w.id == id;
    assert CommentWithId(id)(w);
    FilterOutOne(comments, CommentWithId(id), CommentId);
  }
}
