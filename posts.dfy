/**
 * The post routes (src/routes/posts.js): create a post with uploaded images,
 * list every post, read one post with its comments, and delete one's own
 * post. A listed or read post carries `liked`, whether the viewer likes it,
 * in place of the viewer's like rows, and `_count` of all its likes and
 * comments.
 */
module Posts {
  import opened Common
  import opened Seqs
  import opened Schema
  import opened Store
  import opened Http
  import opened Upload
  import opened Comments

  const PostCreatedMessage: string := "Post created successfully"
  const PostNotFound: string := "Post not found"
  const PostDeleted: string := "Post deleted successfully"

  /** The `file` column of an image: the server's base URL, "/uploads/", the stored name. */
  function ImageUrl(base: string, filename: string): string {
    base + "/uploads/" + filename
  }

  function ImageUrls(base: string, stored: seq<StoredFile>): (r: seq<string>)
    ensures |r| == |stored|
    ensures forall i :: 0 <= i < |stored| ==> r[i] == ImageUrl(base, stored[i].filename)
  {
    seq(|stored|, i requires 0 <= i < |stored| => ImageUrl(base, stored[i].filename))
  }

  /**
   * POST /posts: the upload middleware runs first and may answer alone; then
   * the post and its images are created. `multipart` tells whether the body
   * was multipart, without which the parser leaves `req.files` unset and the
   * handler throws. `clock[i]` is the clock when file i arrived, `now` when
   * the row is written.
   */
  method CreatePost(
    db: Db, caller: int, content: string, base: string, multipart: bool,
    files: seq<IncomingFile>, clock: seq<nat>, now: int) returns (res: Response)
    requires db.Valid() && |clock| == |files|
    modifies db
    ensures db.Valid()
    ensures !multipart ==> res == Response(500, ErrorOf(FilesMissing)) && unchanged(db)
    ensures multipart && Receive(files, clock).Err? ==>
      && res.status == 400
      && Respond(res) == HandleUploadError(Some(Receive(files, clock).error))
      && unchanged(db)
    ensures multipart && |files| > MaxFileCount ==> res.status == 400 && unchanged(db)
    ensures multipart && Receive(files, clock).Ok? && !IsUser(old(db.users), caller) ==>
      res == Response(500, ErrorOf(KnownRequestError(ForeignKeyViolation))) && unchanged(db)
    ensures multipart && Receive(files, clock).Ok? && IsUser(old(db.users), caller) ==>
      && res == Response(201, PostCreated(PostCreatedMessage, old(db.next.post)))
      && db.Snapshot() == old(db.Snapshot()).(
           posts := old(db.posts) + [Post(old(db.next.post), content, caller, now)],
           images := old(db.images) + NewImages(old(db.next.image), ImageUrls(base, Receive(files, clock).value), old(db.next.post)))
      && db.next == old(db.next).(post := old(db.next.post) + 1, image := old(db.next.image) + |files|)
  {
    if !multipart {
      return Response(500, ErrorOf(FilesMissing));
    }
    var received := Receive(files, clock);
    match received
    case Err(e) =>
      res := HandleUploadError(Some(e)).response;
    case Ok(stored) =>
      var r := db.CreatePost(content, caller, ImageUrls(base, stored), now);
      match r
      case Ok(post) => res := Response(201, PostCreated(PostCreatedMessage, post.id));
      case Err(e) => res := Response(500, ErrorOf(e));
  }

  /** The new post's images are exactly one per file, in upload order, each with the file's URL. */
  lemma CreatedPostImages(t: Tables, next: Counters, base: string, files: seq<IncomingFile>, clock: seq<nat>)
    requires Consistent(t) && Below(t, next)
    requires |clock| == |files| && Receive(files, clock).Ok?
    ensures var added := NewImages(next.image, ImageUrls(base, Receive(files, clock).value), next.post);
      && Filter(t.images + added, ImageOnPost(next.post)) == added
      && |added| == |files|
      && forall i :: 0 <= i < |files| ==>
           files[i].mimetype in MimeTypes &&
           added[i].file == ImageUrl(base, StoredName(clock[i], files[i].mimetype))
  {
    var added := NewImages(next.image, ImageUrls(base, Receive(files, clock).value), next.post);
    FilterAppend(t.images, added, ImageOnPost(next.post));
    forall i | i in t.images ensures !ImageOnPost(next.post)(i) {
      var p :| p in t.posts && p.id == i.postId;
    }
    FilterNone(t.images, ImageOnPost(next.post));
    FilterAll(added, ImageOnPost(next.post));
    forall i | 0 <= i < |files| ensures files[i].mimetype in MimeTypes {
      assert files[i] in files;
    }
  }

  /** A post as listed: `liked` replaces the viewer's likes, `_count` counts everyone's. */
  function View(t: Tables, viewer: int, p: Post): (v: PostView)
    ensures v.post == p
    ensures forall i :: i in v.images <==> i in t.images && i.postId == p.id
    ensures v.liked <==> HasLike(t.likes, viewer, p.id)
  {
    var mine := Filter(Filter(t.likes, LikeOnPost(p.id)), LikeBy(viewer));
    assert HasLike(t.likes, viewer, p.id) ==> mine != [] by {
      if HasLike(t.likes, viewer, p.id) {
        var l :| l in t.likes && l.userId == viewer && l.postId == p.id;
        assert l in mine;
      }
    }
    assert mine != [] ==> mine[0] in mine;
    PostView(
      p,
      Filter(t.images, ImageOnPost(p.id)),
      |mine| > 0,
      |Filter(t.likes, LikeOnPost(p.id))|,
      |Filter(t.comments, CommentOnPost(p.id))|)
  }

  /** A post's like rows are as many as the users who like it: one like per user and post. */
  lemma LikersCount(t: Tables, postId: int)
    requires Consistent(t)
    ensures |Filter(t.likes, LikeOnPost(postId))| == |set l | l in t.likes && l.postId == postId :: l.userId|
  {
    var f := Filter(t.likes, LikeOnPost(postId));
    FilterIncreasing(t.likes, LikeOnPost(postId), LikeId);
    forall i, j | 0 <= i < j < |f| ensures LikeUser(f[i]) != LikeUser(f[j]) {
      assert f[i] in f && f[j] in f;
      assert LikeId(f[i]) < LikeId(f[j]);
    }
    DistinctKeysCount(f, LikeUser);
    var likers := set l | l in t.likes && l.postId == postId :: l.userId;
    forall u | u in likers ensures u in KeysOf(f, LikeUser) {
      var l :| l in t.likes && l.postId == postId && l.userId == u;
      assert l in f;
    }
    assert KeysOf(f, LikeUser) == likers;
  }

  /** `_count.likes` is the number of users who like the post; `_count.comments` the number of its comments. */
  lemma CountsAreEveryones(t: Tables, viewer: int, p: Post)
    requires Consistent(t)
    ensures View(t, viewer, p).likeCount == |set l | l in t.likes && l.postId == p.id :: l.userId|
    ensures View(t, viewer, p).commentCount == |set c | c in t.comments && c.postId == p.id :: c.id|
  {
    LikersCount(t, p.id);
    ThreadCount(t.comments, p.id);
  }

  /** The response rows of a list of views. */
  function Rows(views: seq<PostView>): (r: seq<Post>)
    ensures |r| == |views| && forall i :: 0 <= i < |views| ==> r[i] == views[i].post
  {
    seq(|views|, i requires 0 <= i < |views| => views[i].post)
  }

  /** Each of `posts` as the viewer sees it, in the same order. */
  function Views(t: Tables, viewer: int, posts: seq<Post>): (r: seq<PostView>)
    ensures Rows(r) == posts
    ensures forall i :: 0 <= i < |r| ==> r[i] == View(t, viewer, posts[i])
  {
    var r := seq(|posts|, i requires 0 <= i < |posts| => View(t, viewer, posts[i]));
    assert Rows(r) == posts;
    r
  }

  /** GET /posts: every post, newest first, each seen by the viewer. */
  function Feed(t: Tables, viewer: int): (r: Response)
    ensures r.status == 200 && r.body.PostList?
    ensures multiset(Rows(r.body.posts)) == multiset(t.posts)
    ensures forall i, j :: 0 <= i < j < |r.body.posts| ==>
      r.body.posts[i].post.createdAt >= r.body.posts[j].post.createdAt
    ensures forall i :: 0 <= i < |r.body.posts| ==> r.body.posts[i] == View(t, viewer, r.body.posts[i].post)
  {
    var sorted := SortNewestFirst(t.posts, PostCreatedAt);
    var views := Views(t, viewer, sorted);
    assert forall i :: 0 <= i < |views| ==> views[i].post == sorted[i];
    Response(200, PostList(views))
  }

  /** GET /posts/:postId: a missing post is thrown by `findFirstOrThrow` and answered as a 500. */
  function GetPost(t: Tables, viewer: int, id: int): (r: Response)
    ensures r.status == 500 <==> !IsPost(t.posts, id)
    ensures r.status == 500 ==> r.body == ErrorOf(KnownRequestError(RecordNotFound))
    ensures r.status != 500 ==>
      && r.status == 200 && r.body.PostBody?
      && r.body.detail.post in t.posts && r.body.detail.post.id == id
      && (forall c :: c in r.body.detail.comments <==> c in t.comments && c.postId == id)
      && NewestFirst(r.body.detail.comments, CommentCreatedAt)
      && (forall i :: i in r.body.detail.images <==> i in t.images && i.postId == id)
      && (r.body.detail.liked <==> HasLike(t.likes, viewer, id))
  {
    match FindFirst(t.posts, PostWithId(id))
    case None => Response(500, ErrorOf(KnownRequestError(RecordNotFound)))
    case Some(p) =>
      var v := View(t, viewer, p);
      Response(200, PostBody(PostDetail(p, v.images, Thread(t.comments, p.id), v.liked, v.likeCount, v.commentCount)))
  }

  /** A post read alone agrees with the same post in the list. */
  lemma GetPostAgreesWithFeed(t: Tables, viewer: int, id: int)
    requires IsPost(t.posts, id)
    ensures var d := GetPost(t, viewer, id).body.detail;
      exists v :: v in Feed(t, viewer).body.posts &&
        v == PostView(d.post, d.images, d.liked, d.likeCount, d.commentCount)
  {
    var p := FindFirst(t.posts, PostWithId(id)).value;
    var v := View(t, viewer, p);
    var d := GetPost(t, viewer, id).body.detail;
    assert d == PostDetail(p, v.images, Thread(t.comments, p.id), v.liked, v.likeCount, v.commentCount);
    var views := Feed(t, viewer).body.posts;
    var rows := Rows(views);
    assert p in multiset(rows) by {
      assert p in multiset(t.posts);
    }
    var i :| 0 <= i < |rows| && rows[i] == p;
    assert views[i] == v && views[i] in views;
    assert v == PostView(d.post, d.images, d.liked, d.likeCount, d.commentCount);
  }

  /** The ownership gate `findFirst({ where: { id, userId } })` finds a row. */
  predicate Owns(posts: seq<Post>, caller: int, id: int) {
    exists p :: p in posts && p.id == id && p.userId == caller
  }

  /** DELETE /posts/:id: only the author may delete a post; its dependants go with it. */
  method DeletePost(db: Db, caller: int, id: int) returns (res: Response)
    requires db.Valid()
    modifies db
    ensures db.Valid()
    ensures !Owns(old(db.posts), caller, id) ==>
      res == Response(404, Message(PostNotFound)) && unchanged(db)
    ensures Owns(old(db.posts), caller, id) ==>
      && res == Response(200, Message(PostDeleted))
      && db.Snapshot() == WithoutPost(old(db.Snapshot()), id)
      && db.next == old(db.next)
  {
    var found := FindFirst(db.posts, PostOwnedBy(id, caller));
    if !Owns(db.posts, caller, id) {
      return Response(404, Message(PostNotFound));
    }
    assert found.Some? && PostOwnedBy(id, caller)(found.value);
    var err := db.DeletePost(found.value.id);
    match err
    case None => res := Response(200, Message(PostDeleted));
    case Some(e) => res := Response(500, ErrorOf(e));
  }

  /** Deleting a post removes it and everything attached to it, and leaves every other post and its dependants as they were. */
  lemma DeleteScope(t: Tables, id: int, q: Post)
    requires q in t.posts && q.id != id
    ensures var r := WithoutPost(t, id);
      && !IsPost(r.posts, id)
      && Filter(r.images, ImageOnPost(id)) == []
      && q in r.posts
      && Filter(r.images, ImageOnPost(q.id)) == Filter(t.images, ImageOnPost(q.id))
      && Filter(r.likes, LikeOnPost(q.id)) == Filter(t.likes, LikeOnPost(q.id))
      && Filter(r.comments, CommentOnPost(q.id)) == Filter(t.comments, CommentOnPost(q.id))
  {
    var r := WithoutPost(t, id);
    FilterNone(r.images, ImageOnPost(id));
    FilterFilter(t.images, Not(ImageOnPost(id)), ImageOnPost(q.id));
    FilterFilter(t.likes, Not(LikeOnPost(id)), LikeOnPost(q.id));
    FilterFilter(t.comments, Not(CommentOnPost(id)), CommentOnPost(q.id));
  }
}
