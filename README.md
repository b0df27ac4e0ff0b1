# Social backend core, modelled in Dafny

This project models the request handlers of a small social-media backend:
- registration and login;
- posts with up to five uploaded images;
- likes and comments;
- the upload middleware that validates, names and limits the image files.

The database behind the handlers is one class, `Store.Db`. It holds five tables (users, posts, images, likes, comments) and an autoincrement counter for each. It makes explicit what the database client does implicitly:
- the unique username and the unique `(userId, postId)` pair on likes (error `P2002`);
- the relations from posts, images, likes and comments to their user and post (error `P2003`);
- the lookup of the row an update or delete names (error `P2025`);
- the cascade from a deleted post to its images, likes and comments.

Every `Db` method keeps `Valid()`. That means ids strictly increase in every table, both unique constraints hold, every relation points at an existing row, and every id is below its counter.

The handlers follow the source's own form:
- Handlers that write (register, create post, delete post, like, unlike, create, update and delete comment) are methods on a `Db`. They state the response and the whole new state for each branch.
- Handlers that only read (login, profile, list posts, get one post, list likes, list comments) are functions of a `Tables` snapshot.
- The upload middleware is pure functions.

Inputs the source gets from its environment are parameters:
- the caller's id (resolved by the auth middleware);
- the clock (`Date.now()` per file, and the row's `createdAt`);
- bcrypt's salt;
- the JWT secret (absent or empty means the signing call throws);
- whether the request body was multipart (without it the parser leaves `req.files` unset and the create handler throws);
- the request's `protocol://host` prefix.

Where the documented API and the code disagree, the model follows the code:
- A `GET /posts/:postId` for a missing id answers 500. The documentation says 404, but `findFirstOrThrow` throws into the generic catch (`Posts.GetPost`).
- Registration does not store the `fullname` it receives, so a new profile has no fullname (`Auth.ProfileAfterRegister`).

## Model

| member | source | states |
|---|---|---|
| Seqs.Filter | src/routes/likes.js:60-63 | a `where` filter keeps exactly the rows that satisfy it, never more rows than the table |
| Seqs.FindFirst | src/routes/posts.js:199-207 | `findFirst` finds nothing iff no row matches; otherwise it returns the first matching row of the table |
| Seqs.SortNewestFirst | src/routes/comments.js:58-66 | `orderBy: { createdAt: 'desc' }` returns a permutation of the rows with non-increasing keys |
| Seqs.InsertKeepsOrder | src/routes/comments.js:65 | inserting a row at its place keeps a newest-first sequence newest first |
| Seqs.FilterOutOne | src/routes/comments.js:110-112 | with increasing ids, removing the single row a condition selects shortens the table by exactly one |
| Seqs.DistinctKeysCount | src/routes/posts.js:87-92 | rows with pairwise distinct keys have as many keys as rows, the basis of the `_count` lemmas |
| Crypto.HashPassword | src/routes/auth.js:39 | the stored hash carries the cost factor 10 and the salt, and has no plaintext field |
| Crypto.CompareAcceptsOwnHash | src/routes/auth.js:92 | comparing a password with the hash made from it succeeds |
| Crypto.Sign | src/routes/auth.js:97 | the token carries the payload `{ id }` and the lifetime it was signed with |
| Schema.WithoutPost | src/routes/posts.js:221-224 | deleting a post keeps the users and removes exactly that post and the images, likes and comments on it |
| Schema.WithoutPostConsistent | src/routes/posts.js:221-224 | the cascade keeps every schema constraint and every id below its counter |
| Schema.WithContent | src/routes/comments.js:84-92 | `comment.update` changes the content of the row with that id, and no other column or row |
| Schema.WithContentConsistent | src/routes/comments.js:84-92 | updating a comment keeps every constraint and counter |
| Schema.UpdatedComment | src/routes/comments.js:84-92 | an existing comment is found by id and appears with the new content after the update |
| Schema.AddUserConsistent | src/routes/auth.js:40-45 | inserting a user with a fresh id and a free username keeps every constraint of `Schema.Consistent`: increasing ids in every table, the unique username, the unique `(userId, postId)` pair on likes, and every relation pointing at an existing row |
| Schema.NewImages | src/routes/posts.js:49-53 | the nested create inserts one image per file, carrying that file's URL, on the new post, with consecutive fresh ids from the image counter |
| Schema.AddPostConsistent | src/routes/posts.js:45-55 | inserting a post with its nested images keeps every constraint |
| Schema.AddLikeConsistent | src/routes/likes.js:26-31 | inserting a like for a new pair, with existing user and post, keeps every constraint |
| Schema.RemoveLikesConsistent | src/routes/likes.js:90-97 | removing likes keeps every constraint |
| Schema.AddCommentConsistent | src/routes/comments.js:37-48 | inserting a comment by an existing user on an existing post keeps every constraint |
| Schema.RemoveCommentsConsistent | src/routes/comments.js:110-112 | removing comments keeps every constraint |
| Store.Db.CreateUser | src/routes/auth.js:40-45 | a taken username fails with P2002 and changes nothing; otherwise one user is appended with the next id and no fullname |
| Store.Db.CreatePost | src/routes/posts.js:45-55 | an unknown author fails with P2003 and changes nothing; otherwise one post and one image per file, in file order, are appended |
| Store.Db.DeletePost | src/routes/posts.js:222-224 | a missing post fails with P2025 and changes nothing; otherwise the database becomes `WithoutPost` of itself |
| Store.Db.CreateLike | src/routes/likes.js:26-31 | a liked pair fails with P2002, a missing user or post with P2003, both changing nothing; otherwise one like is appended |
| Store.Db.DeleteLike | src/routes/likes.js:90-97 | without a like on the pair it fails with P2025 and changes nothing; otherwise the pair's like is removed |
| Store.Db.CreateComment | src/routes/comments.js:37-48 | a missing user or post fails with P2003 and changes nothing; otherwise one comment is appended |
| Store.Db.UpdateComment | src/routes/comments.js:84-92 | a missing id fails with P2025 and changes nothing; otherwise the found row's content changes and the row is returned |
| Store.Db.DeleteComment | src/routes/comments.js:110-112 | a missing id fails with P2025 and changes nothing; otherwise the rows with that id are removed |
| Upload.FileFilter | src/middleware/upload.js:24-30 | a file is accepted iff its type is one of the five image types; otherwise the fixed "Invalid file type…" error |
| Upload.Extension | src/middleware/upload.js:5-11 | jpeg and jpg map to `jpg`; every other accepted type maps to its own subtype |
| Upload.Decimal | src/middleware/upload.js:19 | a number written into a string is a non-empty run of digits |
| Upload.DecimalValue | src/middleware/upload.js:19 | reading those digits back gives the number |
| Upload.StoredName | src/middleware/upload.js:17-20 | the stored name is the timestamp's digits, ".", the extension of the type: splitting it at the first "." gives back both the clock reading and the extension |
| Upload.FileError | src/middleware/upload.js:24-39 | a file raises no error iff fewer than five came before it and it is `Upload.Acceptable` (one of the five image types, at most 5 MiB); otherwise the count error comes first, then the file filter's, then the size error |
| Upload.ReceiveFrom | src/middleware/upload.js:33-39 | files are stored in order iff at most five arrive and all are acceptable; otherwise the error is that of the first file the parser refuses, all files before it passing |
| Upload.Receive | src/routes/posts.js:37 | `upload.array("images", 5)` stores every file, file i named from clock reading i, iff at most five acceptable files arrive; otherwise the error is that of the first file refused, in the order count, type, size |
| Upload.HandleUploadError | src/middleware/upload.js:42-52 | no error passes on; the size error answers 400 "File too large. Max size is 5MB."; any other answers 400 with its message |
| Upload.SizeLimitBoundary | src/middleware/upload.js:37 | a file of exactly 5 MiB is stored; one byte more is refused and answered with the size message |
| Comments.Thread | src/routes/comments.js:58-66 | a post's comments are exactly the rows on that post, newest first |
| Comments.ThreadCount | src/routes/comments.js:58-66 | each comment on the post appears once |
| Comments.ListComments | src/routes/comments.js:56-71 | the list answers 200 with exactly the post's comments, newest first |
| Comments.CreateComment | src/routes/comments.js:35-53 | 201 with a comment by the caller on the post with the content, appended to the table with the next id, the counter advanced; 500 and no change when user or post is missing |
| Comments.CommentById | src/routes/comments.js:84-92 | with unique ids, the update by id hits the row the ownership gate found |
| Comments.UpdateComment | src/routes/comments.js:74-97 | without a comment of that id by the caller (`Comments.Wrote`, the `findFirst` gate), 404 "Comment not found or unauthorized" and no change; otherwise 200 with the caller's comment carrying the new content, and only that content changes |
| Comments.UpdateTouchesOneRow | src/routes/comments.js:84-92 | an update changes at most one row, and none whose id differs |
| Comments.DeleteComment | src/routes/comments.js:100-117 | the same 404 under the same condition and no change; otherwise 200 and the comment with that id is gone |
| Comments.DeleteRemovesOne | src/routes/comments.js:110-112 | a delete removes exactly one row, and keeps every row with another id |
| Likes.LikePost | src/routes/likes.js:24-40 | 201 with the caller's new like, appended with the next id, the counter advanced; 400 "Post already liked" on a duplicate; 500 with the error otherwise; no change on failure |
| Likes.AtMostOneLike | src/routes/likes.js:34-35 | in a valid database a user has at most one like on a post, and exactly one iff they like it |
| Likes.ListLikes | src/routes/likes.js:58-68 | 200 with exactly the likes whose post matches |
| Likes.Unlike | src/routes/likes.js:88-102 | without a like, 500 with P2025 and no change; otherwise 200, the caller's like on the post is removed and the counters are kept |
| Likes.UnlikeRemovesOne | src/routes/likes.js:90-97 | unlike removes one row, the caller's like, and keeps every other user's like |
| Likes.LikeThenUnlike | src/routes/likes.js:26-97 | liking an unliked post and unliking it gives back the original like table |
| Posts.ImageUrls | src/routes/posts.js:50-52 | one URL per stored file, in order, each `Posts.ImageUrl`: the base, "/uploads/", the stored name |
| Posts.CreatePost | src/routes/posts.js:35-61 | a body that is not multipart answers 500 with no change; an upload error answers 400 through the error handler before anything is written, as do more than five files; an unknown author gets 500; otherwise 201 with the new post id, the post and its images appended, and the post and image counters advanced |
| Posts.CreatedPostImages | src/routes/posts.js:45-55 | the new post's images are exactly one per uploaded file, in upload order, each with the file's URL |
| Posts.View | src/routes/posts.js:100-104 | a listed post carries its images, and `liked` iff the viewer has a like on it |
| Posts.LikersCount | src/routes/posts.js:87-92 | a post has as many like rows as users who like it |
| Posts.CountsAreEveryones | src/routes/posts.js:87-92 | `_count.likes` is the number of users who like the post and `_count.comments` the number of its comments, not just the viewer's |
| Posts.Feed | src/routes/posts.js:75-110 | 200 with every post exactly once, ordered by createdAt descending, each as the viewer sees it |
| Posts.GetPost | src/routes/posts.js:132-175 | 500 with P2025 iff the post is missing; otherwise 200 with that post, its images, exactly its comments newest first, and `liked` iff the viewer likes it |
| Posts.GetPostAgreesWithFeed | src/routes/posts.js:134-169 | a post read alone shows the same images, `liked` and counts as in the list |
| Posts.DeletePost | src/routes/posts.js:197-230 | without a post of that id by the caller (`Posts.Owns`, the `findFirst` gate), 404 "Post not found" and no change; otherwise 200 and the post is deleted with its dependants |
| Posts.DeleteScope | src/routes/posts.js:221-224 | the deleted post and its images are gone; every other post keeps its images, likes and comments |
| Auth.Register | src/routes/auth.js:37-50 | a taken username answers 500 with no change; otherwise 201 and one user with the next id, the username and a cost-10 hash, no fullname, the counter advanced |
| Auth.Login | src/routes/auth.js:83-102 | 404 "User not found" iff no user has the name; 401 "Invalid password"; 500 without a usable (present, non-empty) secret; 200 iff a token for a matching user's id, 24h |
| Auth.LoginOutcome | src/routes/auth.js:85-98 | usernames being unique, the named user's password and the secret decide between 401, 500 and a token for that user's id |
| Auth.LoginAfterRegister | src/routes/auth.js:39-98 | a user who just registered logs in with the same password for a token with the new id, or gets 500 when the secret is absent or empty |
| Auth.GetProfile | src/routes/auth.js:139-166 | 404 "User not found" iff no user has the id; otherwise 200 with that user's id, username, fullname and createdAt and no password; `Auth.ProfileCounts` states its counts |
| Auth.PostsByCount | src/routes/auth.js:148-150 | a user's post rows are as many as the distinct ids of the posts they wrote |
| Auth.LikesByCount | src/routes/auth.js:148-151 | by the unique `(userId, postId)` pair, a user's like rows are as many as the posts they like |
| Auth.CommentsByCount | src/routes/auth.js:148-152 | a user's comment rows are as many as the distinct ids of the comments they wrote |
| Auth.ProfileCounts | src/routes/auth.js:139-162 | in a valid database the profile's `_count` is the number of posts the caller wrote, of posts they like and of comments they wrote |
| Auth.FreshUserFound | src/routes/auth.js:141-142 | the lookup by id finds a user inserted with the next id |
| Auth.NothingByFreshId | src/routes/auth.js:148-154 | no post, like or comment belongs to an id not yet given to a user |
| Auth.ProfileAfterRegister | src/routes/auth.js:141-162 | a new user's profile has no fullname and zero posts, likes and comments |

## Left out

- Filesystem effects are not modelled. This covers multer's writes to `uploads/` and the `fs.unlink` calls when a post is deleted. Unlink failures are swallowed, so the tables do not depend on them.
- Multer's internals are not modelled; only what the route relies on is. The processing order is an assumption: the sixth file of the field is refused ("Unexpected field"), then the file filter runs, then the size limit ("File too large").
- Posts.CreatePost, Upload.Receive: two other parser errors are not modelled. A text field longer than the parser's default field-size limit of 1 MiB (only `fileSize` is configured, src/middleware/upload.js:36-38) aborts the upload with LIMIT_FIELD_VALUE, answered 400 "Field value too long" with no post created; the model takes `content` of any length and promises 201. A file part in a field other than `images` is refused with LIMIT_UNEXPECTED_FILE, answered 400 "Unexpected field"; an `IncomingFile` has no field name, so such a request has no form in the model.
- Upload.Receive: a failed upload stores nothing in the model; files multer already wrote before the error are filesystem effects and are left out.
- Posts.DeletePost, Comments.UpdateComment, Comments.DeleteComment: `parseInt` of a non-numeric path id (NaN) is not modelled, and path ids are unbounded integers. The id columns of the database have a fixed width (the schema is not part of this model). For a path id outside that range the client throws on the ownership query (src/routes/posts.js:199-203, src/routes/comments.js:76-78 and 102-104), and the catch answers 500 where these contracts promise 404. The model assumes path ids lie within the id column's range.
- Body fields are not modelled as missing (undefined). Each is a string.
- Crypto.HashPassword: bcrypt is a placeholder digest. No cryptographic property is claimed beyond the cost factor, the salt and the self-match of `Crypto.CompareAcceptsOwnHash`.
- Crypto.Sign: the token is a value carrying payload and lifetime. Expiry timing and signature checking are not modelled.
- The auth middleware is not part of this model; the caller's id is an input.
- Two files stored in the same millisecond get the same name. The model does not claim that stored names are unique.
- The `user` selects that shape responses (username, fullname, or `name`) are not modelled. Only the userId linkage of rows is. The model assumes these queries succeed: the selects of `name` at src/routes/comments.js:62 and 89 and src/routes/likes.js:62 need a `name` column on User, which the schema (not part of this model) may lack. Without one the database client rejects them, and listing comments, listing likes and updating a comment would answer 500, the update not taking place.
- Upload.Extension, Upload.FileFilter: a MIME type looked up through the object prototype chain (such as `constructor`) is not modelled, neither in the extension lookup nor in the file filter's acceptance test at src/middleware/upload.js:25. The allow-list is a map of the five types.
- Schema.WithoutPost: the cascade to likes and comments is an assumption about the database schema, which is not part of this model; the source's own comment at src/routes/posts.js:221 names only the images.
- Autoincrement ids are modelled without gaps: a failed insert leaves every counter unchanged. PostgreSQL, which src/config/database.js:10 names, consumes a sequence value even when an insert fails on a constraint, so after such a failure real ids run ahead of the model's. The routes treat ids as opaque.
- Likes.ListLikes: the order of the returned likes is not stated. No `orderBy` is given, so the database's order is unspecified.
- Posts.Feed: the relative order of posts with equal createdAt is not stated, for the same reason.
- Comments.UpdateComment: the ownership gate is modelled by the existence of a matching row, which is what `findFirst` tests. A failing `comment.update` after a passing gate cannot happen in a valid database, so it is not a branch.
- Posts.DeletePost: a failing `post.delete` after a passing gate is kept as a 500 branch, but it cannot happen in a valid database.
- Concurrency between requests, Express routing, async plumbing and `Promise.all` are not modelled.
- src/app.js, src/config/database.js and prisma/seed.ts are not part of this model.
