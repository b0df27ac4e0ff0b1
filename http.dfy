/**
 * The responses the routes send: a status code and a JSON body. Each body
 * shape is a constructor; a post view carries `liked` and the two counts in
 * place of the viewer's like rows, and a profile has no password field.
 */
module Http {
  import opened Common
  import opened Crypto
  import opened Schema

  /** A post as listed: its row, its images, whether the viewer likes it, and `_count`. */
  datatype PostView = PostView(post: Post, images: seq<Image>, liked: bool, likeCount: nat, commentCount: nat)

  /** A single post: as listed, plus its comments. */
  datatype PostDetail = PostDetail(
    post: Post, images: seq<Image>, comments: seq<Comment>, liked: bool, likeCount: nat, commentCount: nat)

  /** The selected user columns and `_count` of posts, likes and comments. */
  datatype Profile = Profile(
    id: int, username: string, fullname: Option<string>, createdAt: int,
    postCount: nat, likeCount: nat, commentCount: nat)

  datatype Body =
    | Message(text: string)                    // { message }
    | ErrorOf(error: Error)                    // { message: error.message } of a caught error
    | PostCreated(text: string, postId: int)   // { message, postId }
    | PostList(posts: seq<PostView>)
    | PostBody(detail: PostDetail)
    | LikeBody(like: Like)
    | LikeList(likes: seq<Like>)
    | CommentBody(comment: Comment)
    | CommentList(comments: seq<Comment>)
    | TokenBody(token: Token)                  // { token }
    | ProfileBody(profile: Profile)

  datatype Response = Response(status: int, body: Body)
}
