/**
 * The auth routes (src/routes/auth.js): register a user with a hashed
 * password, log in for a signed token, and read the caller's profile with the
 * counts of their posts, likes and comments.
 */
module Auth {
  import opened Common
  import opened Seqs
  import opened Crypto
  import opened Schema
  import opened Store
  import opened Http

  const UserCreated: string := "User created successfully"
  const UserNotFound: string := "User not found"
  const InvalidPassword: string := "Invalid password"

  /**
   * POST /auth/register. `salt` is the salt bcrypt draws; `fullname` is
   * accepted from the body but not written. Every failure is a 500.
   */
  method Register(
    db: Db, username: string, password: string, fullname: Option<string>,
    salt: string, now: int) returns (res: Response)
    requires db.Valid()
    modifies db
    ensures db.Valid()
    ensures UsernameTaken(old(db.users), username) ==>
      res == Response(500, ErrorOf(KnownRequestError(UniqueViolation))) && unchanged(db)
    ensures !UsernameTaken(old(db.users), username) ==>
      && res == Response(201, Message(UserCreated))
      && db.Snapshot() == old(db.Snapshot()).(users := old(db.users) +
           [User(old(db.next.user), username, None, HashPassword(password, SaltRounds, salt), now)])
      && db.next == old(db.next).(user := old(db.next.user) + 1)
  {
    var hashed := HashPassword(password, SaltRounds, salt);
    var r := db.CreateUser(username, hashed, now);
    match r
    case Ok(_) => res := Response(201, Message(UserCreated));
    case Err(e) => res := Response(500, ErrorOf(e));
  }

  /** A secret jsonwebtoken signs with: it refuses an absent or empty one. */
  predicate Usable(secret: Option<string>) { secret.Some? && secret.value != "" }

  /** POST /auth/login. `secret` is the JWT_SECRET environment variable; signing without a usable one throws. */
  function Login(t: Tables, username: string, password: string, secret: Option<string>): (r: Response)
    ensures r.status in {200, 401, 404, 500}
    ensures r.status == 404 <==> !UsernameTaken(t.users, username)
    ensures r.status == 404 ==> r.body == Message(UserNotFound)
    ensures r.status == 401 ==> r.body == Message(InvalidPassword)
    ensures r.status == 500 ==> r.body == ErrorOf(SecretMissing) && !Usable(secret)
    ensures r.body.TokenBody? <==> r.status == 200
    ensures r.status == 200 ==> Usable(secret)
    ensures r.status == 200 ==>
      exists u :: u in t.users && u.username == username && Compare(password, u.password) &&
        r.body.token == Sign(Payload(u.id), secret.value, TokenLifetime)
  {
    match FindFirst(t.users, UserNamed(username))
    case None => Response(404, Message(UserNotFound))
    case Some(u) =>
      if !Compare(password, u.password) then Response(401, Message(InvalidPassword))
      else if !Usable(secret) then Response(500, ErrorOf(SecretMissing))
      else Response(200, TokenBody(Sign(Payload(u.id), secret.value, TokenLifetime)))
  }

  /** Usernames being unique, the outcome of a login is decided by the one user with that name. */
  lemma LoginOutcome(t: Tables, u: User, password: string, secret: Option<string>)
    requires Consistent(t) && u in t.users
    ensures !Compare(password, u.password) ==>
      Login(t, u.username, password, secret) == Response(401, Message(InvalidPassword))
    ensures Compare(password, u.password) && !Usable(secret) ==>
      Login(t, u.username, password, secret) == Response(500, ErrorOf(SecretMissing))
    ensures Compare(password, u.password) && Usable(secret) ==>
      Login(t, u.username, password, secret) == Response(200, TokenBody(Sign(Payload(u.id), secret.value, TokenLifetime)))
  {
    assert UserNamed(u.username)(u);
    var w := FindFirst(t.users, UserNamed(u.username)).value;
    assert w.username == u.username;
  }

  /** A user who just registered can log in with the same password, for a token carrying the new id if the secret is usable. */
  lemma LoginAfterRegister(t: Tables, next: Counters, username: string, password: string, salt: string, now: int, secret: Option<string>)
    requires Consistent(t) && Below(t, next) && !UsernameTaken(t.users, username)
    ensures Usable(secret) ==>
      Login(t.(users := t.users + [User(next.user, username, None, HashPassword(password, SaltRounds, salt), now)]),
            username, password, secret)
      == Response(200, TokenBody(Sign(Payload(next.user), secret.value, TokenLifetime)))
    ensures !Usable(secret) ==>
      Login(t.(users := t.users + [User(next.user, username, None, HashPassword(password, SaltRounds, salt), now)]),
            username, password, secret)
      == Response(500, ErrorOf(SecretMissing))
  {
    var u := User(next.user, username, None, HashPassword(password, SaltRounds, salt), now);
    AddUserConsistent(t, next, u);
    CompareAcceptsOwnHash(password, SaltRounds, salt);
    LoginOutcome(t.(users := t.users + [u]), u, password, secret);
  }

  /** GET /auth/profile: the selected columns, never the password, and `_count` of the caller's rows. */
  function GetProfile(t: Tables, caller: int): (r: Response)
    ensures r.status == 404 <==> !IsUser(t.users, caller)
    ensures r.status == 404 ==> r.body == Message(UserNotFound)
    ensures r.status != 404 ==>
      && r.status == 200 && r.body.ProfileBody? && r.body.profile.id == caller
      && exists u :: u in t.users && u.id == caller && r.body.profile.username == u.username &&
           r.body.profile.fullname == u.fullname && r.body.profile.createdAt == u.createdAt
  {
    match FindFirst(t.users, UserWithId(caller))
    case None => Response(404, Message(UserNotFound))
    case Some(u) =>
      Response(200, ProfileBody(Profile(
        u.id, u.username, u.fullname, u.createdAt,
        |Filter(t.posts, PostBy(u.id))|, |Filter(t.likes, LikeBy(u.id))|, |Filter(t.comments, CommentBy(u.id))|)))
  }

  /** `_count.posts`: one per post the user wrote, ids being unique. */
  lemma PostsByCount(posts: seq<Post>, userId: int)
    requires Increasing(posts, PostId)
    ensures |Filter(posts, PostBy(userId))| == |set p | p in posts && p.userId == userId :: p.id|
  {
    var f := Filter(posts, PostBy(userId));
    FilterIncreasing(posts, PostBy(userId), PostId);
    DistinctKeysCount(f, PostId);
    var mine := set p | p in posts && p.userId == userId :: p.id;
    forall i | i in mine ensures i in KeysOf(f, PostId) {
      var p :| p in posts && p.userId == userId && p.id == i;
      assert p in f;
    }
    assert KeysOf(f, PostId) == mine;
  }

  /** `_count.likes`: one per post the user likes, by the unique `(userId, postId)` pair. */
  lemma LikesByCount(likes: seq<Like>, userId: int)
    requires Increasing(likes, LikeId)
    requires forall a, b :: a in likes && b in likes && a.userId == b.userId && a.postId == b.postId ==> a == b
    ensures |Filter(likes, LikeBy(userId))| == |set l | l in likes && l.userId == userId :: l.postId|
  {
    var f := Filter(likes, LikeBy(userId));
    FilterIncreasing(likes, LikeBy(userId), LikeId);
    forall i, j | 0 <= i < j < |f| ensures LikePostId(f[i]) != LikePostId(f[j]) {
      assert f[i] in f && f[j] in f;
      assert LikeId(f[i]) < LikeId(f[j]);
    }
    DistinctKeysCount(f, LikePostId);
    var liked := set l | l in likes && l.userId == userId :: l.postId;
    forall i | i in liked ensures i in KeysOf(f, LikePostId) {
      var l :| l in likes && l.userId == userId && l.postId == i;
      assert l in f;
    }
    assert KeysOf(f, LikePostId) == liked;
  }

  /** `_count.comments`: one per comment the user wrote, ids being unique. */
  lemma CommentsByCount(comments: seq<Comment>, userId: int)
    requires Increasing(comments, CommentId)
    ensures |Filter(comments, CommentBy(userId))| == |set c | c in comments && c.userId == userId :: c.id|
  {
    var f := Filter(comments, CommentBy(userId));
    FilterIncreasing(comments, CommentBy(userId), CommentId);
    DistinctKeysCount(f, CommentId);
    var mine := set c | c in comments && c.userId == userId :: c.id;
    forall i | i in mine ensures i in KeysOf(f, CommentId) {
      var c :| c in comments && c.userId == userId && c.id == i;
      assert c in f;
    }
    assert KeysOf(f, CommentId) == mine;
  }

  /** A profile counts the caller's own posts, the posts they like and their comments. */
  lemma ProfileCounts(t: Tables, caller: int)
    requires Consistent(t) && IsUser(t.users, caller)
    ensures var p := GetProfile(t, caller).body.profile;
      && p.postCount == |set q | q in t.posts && q.userId == caller :: q.id|
      && p.likeCount == |set l | l in t.likes && l.userId == caller :: l.postId|
      && p.commentCount == |set c | c in t.comments && c.userId == caller :: c.id|
  {
    PostsByCount(t.posts, caller);
    LikesByCount(t.likes, caller);
    CommentsByCount(t.comments, caller);
  }

  /** A user inserted with the next id is the one `findUnique({ where: { id } })` finds. */
  lemma FreshUserFound(t: Tables, next: Counters, u: User)
    requires Consistent(t) && Below(t, next)
    requires u.id == next.user && !UsernameTaken(t.users, u.username)
    ensures FindFirst(t.users + [u], UserWithId(u.id)) == Some(u)
  {
    AddUserConsistent(t, next, u);
    assert UserWithId(u.id)(u) && u in t.users + [u];
    var w := FindFirst(t.users + [u], UserWithId(u.id)).value;
    IncreasingUnique(t.users + [u], UserId, w, u);
  }

  /** No post, like or comment belongs to an id no user has yet been given. */
  lemma NothingByFreshId(t: Tables, next: Counters)
    requires Consistent(t) && Below(t, next)
    ensures Filter(t.posts, PostBy(next.user)) == []
    ensures Filter(t.likes, LikeBy(next.user)) == []
    ensures Filter(t.comments, CommentBy(next.user)) == []
  {
    forall p | p in t.posts ensures !PostBy(next.user)(p) {
      var o :| o in t.users && o.id == p.userId;
    }
    forall l | l in t.likes ensures !LikeBy(next.user)(l) {
      var o :| o in t.users && o.id == l.userId;
    }
    forall c | c in t.comments ensures !CommentBy(next.user)(c) {
      var o :| o in t.users && o.id == c.userId;
    }
    FilterNone(t.posts, PostBy(next.user));
    FilterNone(t.likes, LikeBy(next.user));
    FilterNone(t.comments, CommentBy(next.user));
  }

  /** A user who just registered has no fullname and no posts, likes or comments. */
  lemma ProfileAfterRegister(t: Tables, next: Counters, username: string, password: string, salt: string, now: int)
    requires Consistent(t) && Below(t, next) && !UsernameTaken(t.users, username)
    ensures GetProfile(t.(users := t.users + [User(next.user, username, None, HashPassword(password, SaltRounds, salt), now)]), next.user)
         == Response(200, ProfileBody(Profile(next.user, username, None, now, 0, 0, 0)))
  {
    var u := User(next.user, username, None, HashPassword(password, SaltRounds, salt), now);
    FreshUserFound(t, next, u);
    NothingByFreshId(t, next);
  }
}
