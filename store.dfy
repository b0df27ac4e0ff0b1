/**
 * The database the route handlers share, with the client operations they
 * call. Each operation makes explicit what the database does behind the
 * client: autoincrement ids, the unique constraints (error P2002), the
 * relations (error P2003), the lookup of the row an update or delete names
 * (error P2025), and the cascade from a post to its dependants.
 */
module Store {
  import opened Common
  import opened Seqs
  import opened Crypto
  import opened Schema

  /** The five tables and the next autoincrement id of each. */
  class Db {
    var users: seq<User>
    var posts: seq<Post>
    var images: seq<Image>
    var likes: seq<Like>
    var comments: seq<Comment>
    var next: Counters

    /** The tables as a value, for the read-only queries. */
    function Snapshot(): Tables
      reads this
    {
      Tables(users, posts, images, likes, comments)
    }

    /** Every schema constraint holds and every counter is ahead of its table. */
    ghost predicate Valid()
      reads this
    {
      Consistent(Snapshot()) && Below(Snapshot(), next)
    }

    /** An empty database; autoincrement starts at 1. */
    constructor ()
      ensures Valid()
      ensures Snapshot() == Tables([], [], [], [], [])
      ensures next == Counters(1, 1, 1, 1, 1)
    {
      users, posts, images, likes, comments := [], [], [], [], [];
      next := Counters(1, 1, 1, 1, 1);
    }

    /** user.create: a new row with no fullname, unless the username is taken. */
    method CreateUser(username: string, password: Hash, now: int) returns (r: Result<User, Error>)
      requires Valid()
      modifies this
      ensures Valid()
      ensures UsernameTaken(old(users), username) ==>
        r == Err(KnownRequestError(UniqueViolation)) && unchanged(this)
      ensures !UsernameTaken(old(users), username) ==>
        && r == Ok(User(old(next.user), username, None, password, now))
        && Snapshot() == old(Snapshot()).(users := old(users) + [r.value])
        && next == old(next).(user := old(next.user) + 1)
    {
      if UsernameTaken(users, username) {
        return Err(KnownRequestError(UniqueViolation));
      }
      var user := User(next.user, username, None, password, now);
      AddUserConsistent(Snapshot(), next, user);
      users := users + [user];
      next := next.(user := next.user + 1);
      r := Ok(user);
    }

    /** post.create with nested images: the post and one image per file, in file order, in one step. */
    method CreatePost(content: string, userId: int, files: seq<string>, now: int) returns (r: Result<Post, Error>)
      requires Valid()
      modifies this
      ensures Valid()
      ensures !IsUser(old(users), userId) ==>
        r == Err(KnownRequestError(ForeignKeyViolation)) && unchanged(this)
      ensures IsUser(old(users), userId) ==>
        && r == Ok(Post(old(next.post), content, userId, now))
        && Snapshot() == old(Snapshot()).(
             posts := old(posts) + [r.value],
             images := old(images) + NewImages(old(next.image), files, r.value.id))
        && next == old(next).(post := old(next.post) + 1, image := old(next.image) + |files|)
    {
      if !IsUser(users, userId) {
        return Err(KnownRequestError(ForeignKeyViolation));
      }
      var post := Post(next.post, content, userId, now);
      var added := NewImages(next.image, files, post.id);
      AddPostConsistent(Snapshot(), next, post, files);
      posts := posts + [post];
      images := images + added;
      next := next.(post := next.post + 1, image := next.image + |files|);
      r := Ok(post);
    }

    /** post.delete: removes the post, and by cascade its images, likes and comments. */
    method DeletePost(id: int) returns (err: Option<Error>)
      requires Valid()
      modifies this
      ensures Valid()
      ensures !IsPost(old(posts), id) ==>
        err == Some(KnownRequestError(RecordNotFound)) && unchanged(this)
      ensures IsPost(old(posts), id) ==>
        err == None && Snapshot() == WithoutPost(old(Snapshot()), id) && next == old(next)
    {
      if !IsPost(posts, id) {
        return Some(KnownRequestError(RecordNotFound));
      }
      RemovePost(id);
      err := None;
    }

    /** The cascade of a post that exists. */
    method RemovePost(id: int)
      requires Valid()
      modifies this
      ensures Valid()
      ensures Snapshot() == WithoutPost(old(Snapshot()), id)
      ensures next == old(next)
    {
      var t := WithoutPost(Snapshot(), id);
      WithoutPostConsistent(Snapshot(), next, id);
      posts, images, likes, comments := t.posts, t.images, t.likes, t.comments;
      assert Snapshot() == t;
    }

    /** like.create: refused by the (userId, postId) unique constraint, then by the relations. */
    method CreateLike(userId: int, postId: int) returns (r: Result<Like, Error>)
      requires Valid()
      modifies this
      ensures Valid()
      ensures HasLike(old(likes), userId, postId) ==>
        r == Err(KnownRequestError(UniqueViolation)) && unchanged(this)
      ensures !HasLike(old(likes), userId, postId) && !(IsUser(old(users), userId) && IsPost(old(posts), postId)) ==>
        r == Err(KnownRequestError(ForeignKeyViolation)) && unchanged(this)
      ensures !HasLike(old(likes), userId, postId) && IsUser(old(users), userId) && IsPost(old(posts), postId) ==>
        && r == Ok(Like(old(next.like), userId, postId))
        && Snapshot() == old(Snapshot()).(likes := old(likes) + [r.value])
        && next == old(next).(like := old(next.like) + 1)
    {
      if HasLike(likes, userId, postId) {
        return Err(KnownRequestError(UniqueViolation));
      }
      if !IsUser(users, userId) || !IsPost(posts, postId) {
        return Err(KnownRequestError(ForeignKeyViolation));
      }
      var like := Like(next.like, userId, postId);
      AddLikeConsistent(Snapshot(), next, like);
      likes := likes + [like];
      next := next.(like := next.like + 1);
      r := Ok(like);
    }

    /** like.delete by the compound key userId_postId. */
    method DeleteLike(userId: int, postId: int) returns (err: Option<Error>)
      requires Valid()
      modifies this
      ensures Valid()
      ensures !HasLike(old(likes), userId, postId) ==>
        err == Some(KnownRequestError(RecordNotFound)) && unchanged(this)
      ensures HasLike(old(likes), userId, postId) ==>
        && err == None
        && Snapshot() == old(Snapshot()).(likes := Filter(old(likes), Not(LikeKey(userId, postId))))
        && next == old(next)
    {
      if !HasLike(likes, userId, postId) {
        return Some(KnownRequestError(RecordNotFound));
      }
      RemoveLikesConsistent(Snapshot(), next, Not(LikeKey(userId, postId)));
      likes := Filter(likes, Not(LikeKey(userId, postId)));
      err := None;
    }

    /** comment.create: refused by the relations when the author or the post does not exist. */
    method CreateComment(content: string, userId: int, postId: int, now: int) returns (r: Result<Comment, Error>)
      requires Valid()
      modifies this
      ensures Valid()
      ensures !(IsUser(old(users), userId) && IsPost(old(posts), postId)) ==>
        r == Err(KnownRequestError(ForeignKeyViolation)) && unchanged(this)
      ensures IsUser(old(users), userId) && IsPost(old(posts), postId) ==>
        && r == Ok(Comment(old(next.comment), content, userId, postId, now))
        && Snapshot() == old(Snapshot()).(comments := old(comments) + [r.value])
        && next == old(next).(comment := old(next.comment) + 1)
    {
      if !IsUser(users, userId) || !IsPost(posts, postId) {
        return Err(KnownRequestError(ForeignKeyViolation));
      }
      var comment := Comment(next.comment, content, userId, postId, now);
      AddCommentConsistent(Snapshot(), next, comment);
      comments := comments + [comment];
      next := next.(comment := next.comment + 1);
      r := Ok(comment);
    }

    /** comment.update of `content` by id; returns the updated row. */
    method UpdateComment(id: int, content: string) returns (r: Result<Comment, Error>)
      requires Valid()
      modifies this
      ensures Valid()
      ensures !IsComment(old(comments), id) ==>
        r == Err(KnownRequestError(RecordNotFound)) && unchanged(this)
      ensures IsComment(old(comments), id) ==>
        && r.Ok? && r.value in comments
        && r.value == FindFirst(old(comments), CommentWithId(id)).value.(content := content)
        && Snapshot() == old(Snapshot()).(comments := WithContent(old(comments), id, content))
        && next == old(next)
    {
      if !IsComment(comments, id) {
        return Err(KnownRequestError(RecordNotFound));
      }
      var found := FindFirst(comments, CommentWithId(id));
      UpdatedComment(comments, id, content);
      Rewrite(id, content);
      r := Ok(found.value.(content := content));
    }

    /** The update of a comment that exists. */
    method Rewrite(id: int, content: string)
      requires Valid()
      modifies this
      ensures Valid()
      ensures Snapshot() == old(Snapshot()).(comments := WithContent(old(comments), id, content))
      ensures next == old(next)
    {
      WithContentConsistent(Snapshot(), next, id, content);
      ghost var t := Snapshot().(comments := WithContent(comments, id, content));
      comments := WithContent(comments, id, content);
      assert Snapshot() == t;
    }

    /** comment.delete by id. */
    method DeleteComment(id: int) returns (err: Option<Error>)
      requires Valid()
      modifies this
      ensures Valid()
      ensures !IsComment(old(comments), id) ==>
        err == Some(KnownRequestError(RecordNotFound)) && unchanged(this)
      ensures IsComment(old(comments), id) ==>
        && err == None
        && Snapshot() == old(Snapshot()).(comments := Filter(old(comments), Not(CommentWithId(id))))
        && next == old(next)
    {
      if !IsComment(comments, id) {
        return Some(KnownRequestError(RecordNotFound));
      }
      RemoveCommentsConsistent(Snapshot(), next, Not(CommentWithId(id)));
      comments := Filter(comments, Not(CommentWithId(id)));
      err := None;
    }
  }
}
