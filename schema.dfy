/**
 * The five tables the routes read and write (User, Post, Image, Like,
 * Comment), the `where` clauses the routes filter them by, the constraints
 * the database enforces, and the errors the routes catch.
 */
module Schema {
  import opened Common
  import opened Seqs
  import opened Crypto

  datatype User = User(id: int, username: string, fullname: Option<string>, password: Hash, createdAt: int)
  datatype Post = Post(id: int, content: string, userId: int, createdAt: int)
  datatype Image = Image(id: int, file: string, postId: int)
  datatype Like = Like(id: int, userId: int, postId: int)
  datatype Comment = Comment(id: int, content: string, userId: int, postId: int, createdAt: int)

  /** A snapshot of the whole database. */
  datatype Tables = Tables(
    users: seq<User>, posts: seq<Post>, images: seq<Image>, likes: seq<Like>, comments: seq<Comment>)

  /** The next value of each table's autoincrement id. */
  datatype Counters = Counters(user: int, post: int, image: int, like: int, comment: int)

  /**
   * An error a route catches: the database client's known request error with
   * its code, jsonwebtoken's refusal of an absent or empty secret, or the
   * TypeError of mapping over `req.files` when no multipart body was parsed.
   */
  datatype Error = KnownRequestError(code: string) | SecretMissing | FilesMissing

  /** Unique constraint failed. */
  const UniqueViolation: string := "P2002"
  /** Foreign key constraint failed. */
  const ForeignKeyViolation: string := "P2003"
  /** A record the operation depends on does not exist. */
  const RecordNotFound: string := "P2025"

  // Row keys

  function UserId(u: User): int { u.id }
  function PostId(p: Post): int { p.id }
  function ImageId(i: Image): int { i.id }
  function LikeId(l: Like): int { l.id }
  function LikeUser(l: Like): int { l.userId }
  function LikePostId(l: Like): int { l.postId }
  function CommentId(c: Comment): int { c.id }
  function PostCreatedAt(p: Post): int { p.createdAt }
  function CommentCreatedAt(c: Comment): int { c.createdAt }

  // The `where` clauses of the routes

  function UserNamed(username: string): User -> bool { (u: User) => u.username == username }
  function UserWithId(id: int): User -> bool { (u: User) => u.id == id }
  function PostWithId(id: int): Post -> bool { (p: Post) => p.id == id }
  function PostOwnedBy(id: int, userId: int): Post -> bool { (p: Post) => p.id == id && p.userId == userId }
  function PostBy(userId: int): Post -> bool { (p: Post) => p.userId == userId }
  function ImageOnPost(postId: int): Image -> bool { (i: Image) => i.postId == postId }
  function LikeOnPost(postId: int): Like -> bool { (l: Like) => l.postId == postId }
  function LikeBy(userId: int): Like -> bool { (l: Like) => l.userId == userId }
  function LikeKey(userId: int, postId: int): Like -> bool { (l: Like) => l.userId == userId && l.postId == postId }
  function CommentOnPost(postId: int): Comment -> bool { (c: Comment) => c.postId == postId }
  function CommentBy(userId: int): Comment -> bool { (c: Comment) => c.userId == userId }
  function CommentWithId(id: int): Comment -> bool { (c: Comment) => c.id == id }
  function CommentOwnedBy(id: int, userId: int): Comment -> bool { (c: Comment) => c.id == id && c.userId == userId }

  // Existence of rows

  predicate IsUser(users: seq<User>, id: int) { exists u :: u in users && u.id == id }
  predicate IsPost(posts: seq<Post>, id: int) { exists p :: p in posts && p.id == id }
  predicate IsComment(comments: seq<Comment>, id: int) { exists c :: c in comments && c.id == id }
  predicate UsernameTaken(users: seq<User>, username: string) { exists u :: u in users && u.username == username }
  predicate HasLike(likes: seq<Like>, userId: int, postId: int) {
    exists l :: l in likes && l.userId == userId && l.postId == postId
  }

  /** The constraints of the schema: autoincrement ids, `@unique` username, `@@unique([userId, postId])` on likes, and the relations. */
  predicate Consistent(t: Tables) {
    && Increasing(t.users, UserId)
    && Increasing(t.posts, PostId)
    && Increasing(t.images, ImageId)
    && Increasing(t.likes, LikeId)
    && Increasing(t.comments, CommentId)
    && (forall a, b :: a in t.users && b in t.users && a.username == b.username ==> a == b)
    && (forall a, b :: a in t.likes && b in t.likes && a.userId == b.userId && a.postId == b.postId ==> a == b)
    && (forall p :: p in t.posts ==> IsUser(t.users, p.userId))
    && (forall i :: i in t.images ==> IsPost(t.posts, i.postId))
    && (forall l :: l in t.likes ==> IsUser(t.users, l.userId) && IsPost(t.posts, l.postId))
    && (forall c :: c in t.comments ==> IsUser(t.users, c.userId) && IsPost(t.posts, c.postId))
  }

  /** Every id in use is below the next value of its counter. */
  predicate Below(t: Tables, next: Counters) {
    && (forall u :: u in t.users ==> u.id < next.user)
    && (forall p :: p in t.posts ==> p.id < next.post)
    && (forall i :: i in t.images ==> i.id < next.image)
    && (forall l :: l in t.likes ==> l.id < next.like)
    && (forall c :: c in t.comments ==> c.id < next.comment)
  }

  /** The image rows a nested `images: { create: [...] }` inserts, ids from `first` on. */
  function NewImages(first: int, files: seq<string>, postId: int): (r: seq<Image>)
    ensures |r| == |files| && forall i :: 0 <= i < |r| ==> r[i].file == files[i]
    ensures forall im :: im in r ==> im.postId == postId && first <= im.id < first + |files|
    ensures Increasing(r, ImageId)
  {
    seq(|files|, i requires 0 <= i < |files| => Image(first + i, files[i], postId))
  }

  /**
   * The database after deleting post `id`: the post goes, and with it, by the
   * cascade on each relation, its images, likes and comments.
   */
  function WithoutPost(t: Tables, id: int): (r: Tables)
    ensures r.users == t.users
    ensures forall p :: p in r.posts <==> p in t.posts && p.id != id
    ensures forall i :: i in r.images <==> i in t.images && i.postId != id
    ensures forall l :: l in r.likes <==> l in t.likes && l.postId != id
    ensures forall c :: c in r.comments <==> c in t.comments && c.postId != id
  {
    Tables(
      t.users,
      Filter(t.posts, Not(PostWithId(id))),
      Filter(t.images, Not(ImageOnPost(id))),
      Filter(t.likes, Not(LikeOnPost(id))),
      Filter(t.comments, Not(CommentOnPost(id))))
  }

  /** Deleting a post with its dependants keeps every constraint, and every id stays below its counter. */
  lemma WithoutPostConsistent(t: Tables, next: Counters, id: int)
    requires Consistent(t) && Below(t, next)
    ensures Consistent(WithoutPost(t, id)) && Below(WithoutPost(t, id), next)
  {
    var r := WithoutPost(t, id);
    FilterIncreasing(t.posts, Not(PostWithId(id)), PostId);
    FilterIncreasing(t.images, Not(ImageOnPost(id)), ImageId);
    FilterIncreasing(t.likes, Not(LikeOnPost(id)), LikeId);
    FilterIncreasing(t.comments, Not(CommentOnPost(id)), CommentId);
    forall pid | pid != id && IsPost(t.posts, pid) ensures IsPost(r.posts, pid) {
      var p :| p in t.posts && p.id == pid;
      assert p in r.posts;
    }
  }

  /** comment.update: the row with that id gets the new content; every other column and row stays. */
  function WithContent(comments: seq<Comment>, id: int, content: string): (r: seq<Comment>)
    ensures |r| == |comments|
    ensures forall k :: 0 <= k < |r| ==>
      && r[k].id == comments[k].id
      && r[k].userId == comments[k].userId
      && r[k].postId == comments[k].postId
      && r[k].createdAt == comments[k].createdAt
      && r[k].content == (if comments[k].id == id then content else comments[k].content)
  {
    seq(|comments|, k requires 0 <= k < |comments| =>
      if comments[k].id == id then comments[k].(content := content) else comments[k])
  }

  /** The first comment with the id exists, and the update turns it into a row with the new content. */
  lemma UpdatedComment(comments: seq<Comment>, id: int, content: string)
    requires IsComment(comments, id)
    ensures FindFirst(comments, CommentWithId(id)).Some?
    ensures FindFirst(comments, CommentWithId(id)).value.(content := content) in WithContent(comments, id, content)
  {
    var w :| w in comments && w.id == id;
    assert CommentWithId(id)(w);
    var c := FindFirst(comments, CommentWithId(id)).value;
    var k :| 0 <= k < |comments| && comments[k] == c;
    assert WithContent(comments, id, content)[k] == c.(content := content);
  }

  /** Changing a comment's content keeps every constraint and every id. */
  lemma WithContentConsistent(t: Tables, next: Counters, id: int, content: string)
    requires Consistent(t) && Below(t, next)
    ensures Consistent(t.(comments := WithContent(t.comments, id, content)))
    ensures Below(t.(comments := WithContent(t.comments, id, content)), next)
  {
    var r := WithContent(t.comments, id, content);
    forall c | c in r ensures exists d :: d in t.comments && d.id == c.id && d.userId == c.userId && d.postId == c.postId {
      var k :| 0 <= k < |r| && r[k] == c;
      assert t.comments[k] in t.comments;
    }
  }

  /** Inserting a user with a fresh id and a free username keeps every constraint. */
  lemma AddUserConsistent(t: Tables, next: Counters, u: User)
    requires Consistent(t) && Below(t, next)
    requires u.id == next.user && !UsernameTaken(t.users, u.username)
    ensures Consistent(t.(users := t.users + [u]))
    ensures Below(t.(users := t.users + [u]), next.(user := next.user + 1))
  {
    AppendIncreasing(t.users, [u], UserId);
    var r := t.(users := t.users + [u]);
    forall id | IsUser(t.users, id) ensures IsUser(r.users, id) {
      var w :| w in t.users && w.id == id;
      assert w in r.users;
    }
  }

  /** Inserting a post by an existing user, with its new images, keeps every constraint. */
  lemma AddPostConsistent(t: Tables, next: Counters, p: Post, files: seq<string>)
    requires Consistent(t) && Below(t, next)
    requires p.id == next.post && IsUser(t.users, p.userId)
    ensures Consistent(t.(posts := t.posts + [p], images := t.images + NewImages(next.image, files, p.id)))
    ensures Below(t.(posts := t.posts + [p], images := t.images + NewImages(next.image, files, p.id)),
                  next.(post := next.post + 1, image := next.image + |files|))
  {
    var added := NewImages(next.image, files, p.id);
    AppendIncreasing(t.posts, [p], PostId);
    AppendIncreasing(t.images, added, ImageId);
    var r := t.(posts := t.posts + [p], images := t.images + added);
    assert IsPost(r.posts, p.id) by { assert p in r.posts; }
    forall id | IsPost(t.posts, id) ensures IsPost(r.posts, id) {
      var w :| w in t.posts && w.id == id;
      assert w in r.posts;
    }
  }

  /** Inserting a like by an existing user on an existing post, for a pair not yet liked, keeps every constraint. */
  lemma AddLikeConsistent(t: Tables, next: Counters, l: Like)
    requires Consistent(t) && Below(t, next)
    requires l.id == next.like && IsUser(t.users, l.userId) && IsPost(t.posts, l.postId)
    requires !HasLike(t.likes, l.userId, l.postId)
    ensures Consistent(t.(likes := t.likes + [l]))
    ensures Below(t.(likes := t.likes + [l]), next.(like := next.like + 1))
  {
    AppendIncreasing(t.likes, [l], LikeId);
    var r := t.(likes := t.likes + [l]);
    forall a, b | a in r.likes && b in r.likes && a.userId == b.userId && a.postId == b.postId
      ensures a == b
    {
      if a != l && b != l {
        assert a in t.likes && b in t.likes;
      }
    }
    forall x | x in r.likes ensures IsUser(r.users, x.userId) && IsPost(r.posts, x.postId) {
      if x != l {
        assert x in t.likes;
      }
    }
  }

  /** Removing like rows keeps every constraint. */
  lemma RemoveLikesConsistent(t: Tables, next: Counters, keep: Like -> bool)
    requires Consistent(t) && Below(t, next)
    ensures Consistent(t.(likes := Filter(t.likes, keep)))
    ensures Below(t.(likes := Filter(t.likes, keep)), next)
  {
    FilterIncreasing(t.likes, keep, LikeId);
  }

  /** Inserting a comment by an existing user on an existing post keeps every constraint. */
  lemma AddCommentConsistent(t: Tables, next: Counters, c: Comment)
    requires Consistent(t) && Below(t, next)
    requires c.id == next.comment && IsUser(t.users, c.userId) && IsPost(t.posts, c.postId)
    ensures Consistent(t.(comments := t.comments + [c]))
    ensures Below(t.(comments := t.comments + [c]), next.(comment := next.comment + 1))
  {
    AppendIncreasing(t.comments, [c], CommentId);
  }

  /** Removing comment rows keeps every constraint. */
  lemma RemoveCommentsConsistent(t: Tables, next: Counters, keep: Comment -> bool)
    requires Consistent(t) && Below(t, next)
    ensures Consistent(t.(comments := Filter(t.comments, keep)))
    ensures Below(t.(comments := Filter(t.comments, keep)), next)
  {
    FilterIncreasing(t.comments, keep, CommentId);
  }
}
