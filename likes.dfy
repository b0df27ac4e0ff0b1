/**
 * The like routes (src/routes/likes.js): like a post as the caller, list a
 * post's likes, and remove the caller's like by the `(userId, postId)` key.
 */
module Likes {
  import opened Common
  import opened Seqs
  import opened Schema
  import opened Store
  import opened Http

  const AlreadyLiked: string := "Post already liked"
  const LikeRemoved: string := "Like removed successfully"

  /** POST /likes/:postId. A duplicate is a 400; any other failure is a 500 with the error. */
  method LikePost(db: Db, caller: int, postId: int) returns (res: Response)
    requires db.Valid()
    modifies db
    ensures db.Valid()
    ensures HasLike(old(db.likes), caller, postId) ==>
      res == Response(400, Message(AlreadyLiked)) && unchanged(db)
    ensures !HasLike(old(db.likes), caller, postId) && !(IsUser(old(db.users), caller) && IsPost(old(db.posts), postId)) ==>
      res == Response(500, ErrorOf(KnownRequestError(ForeignKeyViolation))) && unchanged(db)
    ensures !HasLike(old(db.likes), caller, postId) && IsUser(old(db.users), caller) && IsPost(old(db.posts), postId) ==>
      && res == Response(201, LikeBody(Like(old(db.next.like), caller, postId)))
      && db.Snapshot() == old(db.Snapshot()).(likes := old(db.likes) + [res.body.like])
      && db.next == old(db.next).(like := old(db.next.like) + 1)
  {
    var r := db.CreateLike(caller, postId);
    match r
    case Ok(like) => res := Response(201, LikeBody(like));
    case Err(e) =>
      if e.KnownRequestError? && e.code == UniqueViolation {
        res := Response(400, Message(AlreadyLiked));
      } else {
        res := Response(500, ErrorOf(e));
      }
  }

  /** The schema's `@@unique([userId, postId])`: a user likes a post at most once. */
  lemma AtMostOneLike(t: Tables, userId: int, postId: int)
    requires Consistent(t)
    ensures |Filter(t.likes, LikeKey(userId, postId))| <= 1
    ensures |Filter(t.likes, LikeKey(userId, postId))| == 1 <==> HasLike(t.likes, userId, postId)
  {
    var f := Filter(t.likes, LikeKey(userId, postId));
    FilterIncreasing(t.likes, LikeKey(userId, postId), LikeId);
    if HasLike(t.likes, userId, postId) {
      var l :| l in t.likes && l.userId == userId && l.postId == postId;
      assert l in f;
    }
    if f != [] {
      DistinctKeysCount(f, LikeId);
      forall k | k in KeysOf(f, LikeId) ensures k == LikeId(f[0]) {
        var x :| x in f && LikeId(x) == k;
        assert f[0] in f;
      }
      assert KeysOf(f, LikeId) == {LikeId(f[0])};
      assert f[0] in f;
    }
  }

  /** GET /likes/post/:postId: exactly the likes on the post, in table order. */
  function ListLikes(t: Tables, postId: int): (r: Response)
    ensures r.status == 200 && r.body.LikeList?
    ensures forall l :: l in r.body.likes <==> l in t.likes && l.postId == postId
  {
    Response(200, LikeList(Filter(t.likes, LikeOnPost(postId))))
  }

  /** DELETE /likes/:postId: without a like to remove, the error is a 500. */
  method Unlike(db: Db, caller: int, postId: int) returns (res: Response)
    requires db.Valid()
    modifies db
    ensures db.Valid()
    ensures !HasLike(old(db.likes), caller, postId) ==>
      res == Response(500, ErrorOf(KnownRequestError(RecordNotFound))) && unchanged(db)
    ensures HasLike(old(db.likes), caller, postId) ==>
      && res == Response(200, Message(LikeRemoved))
      && db.Snapshot() == old(db.Snapshot()).(likes := Filter(old(db.likes), Not(LikeKey(caller, postId))))
      && db.next == old(db.next)
  {
    var err := db.DeleteLike(caller, postId);
    match err
    case None => res := Response(200, Message(LikeRemoved));
    case Some(e) => res := Response(500, ErrorOf(e));
  }

  /** Unlike removes one row, the caller's like on the post; every other like stays. */
  lemma UnlikeRemovesOne(t: Tables, caller: int, postId: int)
    requires Consistent(t) && HasLike(t.likes, caller, postId)
    ensures |Filter(t.likes, Not(LikeKey(caller, postId)))| == |t.likes| - 1
    ensures forall l :: l in t.likes && (l.userId != caller || l.postId != postId) ==>
      l in Filter(t.likes, Not(LikeKey(caller, postId)))
    ensures !HasLike(Filter(t.likes, Not(LikeKey(caller, postId))), caller, postId)
  {
    var l :| l in t.likes && l.userId == caller && l.postId == postId;
    assert LikeKey(caller, postId)(l);
    FilterOutOne(t.likes, LikeKey(caller, postId), LikeId);
  }

  /** Liking a post not yet liked and then unliking it gives back the like table. */
  lemma LikeThenUnlike(likes: seq<Like>, like: Like)
    requires !HasLike(likes, like.userId, like.postId)
    ensures Filter(likes + [like], Not(LikeKey(like.userId, like.postId))) == likes
  {
    var keep := Not(LikeKey(like.userId, like.postId));
    FilterAppend(likes, [like], keep);
    FilterAll(likes, keep);
    FilterNone([like], keep);
  }
}
