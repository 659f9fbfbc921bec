/** The entities of the social graph and the constraints the database
    schema declares for them (keys, required columns, maximum lengths).
    Timestamps are UTC `DateTime` values written as a count of 100 ns ticks. */
module Entities {
  import opened Text

  type Instant = int

  /** A post row. Its comments, likes, saves and images are rows of their
      own tables that point back at `postId`. */
  datatype Post = Post(postId: string, userId: string, content: string, title: string, createdAt: Instant)

  datatype PostImage = PostImage(imageId: string, postId: string, imageUrl: string, createdAt: Instant)

  datatype Comment = Comment(commentId: string, postId: string, userId: string, content: string, createdAt: Instant)

  /** The composite primary key `(PostId, UserId)` shared by likes and saved posts. */
  datatype PostUser = PostUser(postId: string, userId: string)

  datatype Like = Like(postId: string, userId: string, createdAt: Instant)
  {
    function Key(): PostUser { PostUser(postId, userId) }
  }

  datatype SavedPost = SavedPost(postId: string, userId: string, createdAt: Instant)
  {
    function Key(): PostUser { PostUser(postId, userId) }
  }

  /** The composite primary key `(FollowerUserId, FollowedUserId)` of a follow edge. */
  datatype FollowEdge = FollowEdge(followerUserId: string, followedUserId: string)

  datatype Follower = Follower(followerUserId: string, followedUserId: string, createdAt: Instant)
  {
    function Key(): FollowEdge { FollowEdge(followerUserId, followedUserId) }
  }

  /** The parts of an identity user the core reads or writes. */
  datatype User = User(id: string, userName: string, bio: Option<string>, profilePictureUrl: Option<string>)

  /** A comment as a query loads it: with the user name of its author. */
  datatype LoadedComment = LoadedComment(comment: Comment, userName: string)

  /** A post together with what a query loads for it: its author and the
      collections that point back at it. */
  datatype PostGraph = PostGraph(
    post: Post,
    author: User,
    images: seq<PostImage>,
    comments: seq<LoadedComment>,
    likes: set<Like>,
    saved: set<SavedPost>)

  /** What a validating constructor produces: the object, or the
      `ArgumentNullException` it throws, naming the null parameter. */
  datatype Constructed<T> = Created(value: T) | ArgumentNull(paramName: string)

  /** `new Post(userId, content, title)`: the three arguments are checked for
      null in that order; `PostId` defaults to a fresh GUID and `CreatedAt`
      to the current UTC time, both supplied here. The new post's
      collections are empty: it owns no row in any other table yet. */
  function NewPost(userId: Option<string>, content: Option<string>, title: Option<string>,
                   freshId: string, now: Instant): (r: Constructed<Post>)
    ensures r.ArgumentNull? <==> userId.None? || content.None? || title.None?
    ensures r.ArgumentNull? ==>
      r.paramName == (if userId.None? then "userId" else if content.None? then "content" else "title")
    ensures r.Created? ==>
      r.value.userId == userId.value && r.value.content == content.value && r.value.title == title.value
      && r.value.postId == freshId && r.value.createdAt == now
  {
    if userId.None? then ArgumentNull("userId")
    else if content.None? then ArgumentNull("content")
    else if title.None? then ArgumentNull("title")
    else Created(Post(freshId, userId.value, content.value, title.value, now))
  }

  /** `new SavedPost(postId, userId)`: both checked for null, in that order. */
  function NewSavedPost(postId: Option<string>, userId: Option<string>, now: Instant): (r: Constructed<SavedPost>)
    ensures r.ArgumentNull? <==> postId.None? || userId.None?
    ensures r.ArgumentNull? ==> r.paramName == (if postId.None? then "postId" else "userId")
    ensures r.Created? ==> r.value.Key() == PostUser(postId.value, userId.value) && r.value.createdAt == now
  {
    if postId.None? then ArgumentNull("postId")
    else if userId.None? then ArgumentNull("userId")
    else Created(SavedPost(postId.value, userId.value, now))
  }

  /* ---------- declared column bounds ---------- */

  const MaxIdLength := 36
  const MaxPostContentLength := 2000
  const MaxPostTitleLength := 200
  const MaxCommentContentLength := 500
  const MaxImageUrlLength := 256

  /** The maximum lengths the schema and the data annotations declare for a post. */
  predicate PostFitsSchema(p: Post)
  {
    |p.postId| <= MaxIdLength && |p.userId| <= MaxIdLength
    && |p.content| <= MaxPostContentLength && |p.title| <= MaxPostTitleLength
  }

  predicate CommentFitsSchema(c: Comment)
  {
    |c.commentId| <= MaxIdLength && |c.postId| <= MaxIdLength && |c.userId| <= MaxIdLength
    && |c.content| <= MaxCommentContentLength
  }

  predicate ImageFitsSchema(i: PostImage)
  {
    |i.imageId| <= MaxIdLength && |i.postId| <= MaxIdLength && |i.imageUrl| <= MaxImageUrlLength
  }

  predicate SavedPostFitsSchema(s: SavedPost)
  {
    |s.postId| <= MaxIdLength && |s.userId| <= MaxIdLength
  }

  /** A post built from arguments within the declared bounds, with a GUID
      string (36 characters) as its id, fits the schema. */
  lemma NewPostFitsSchema(userId: string, content: string, title: string, freshId: string, now: Instant)
    requires |userId| <= MaxIdLength && |content| <= MaxPostContentLength && |title| <= MaxPostTitleLength
    requires |freshId| == 36
    ensures NewPost(Some(userId), Some(content), Some(title), freshId, now).Created?
    ensures PostFitsSchema(NewPost(Some(userId), Some(content), Some(title), freshId, now).value)
  {
  }

  lemma NewSavedPostFitsSchema(postId: string, userId: string, now: Instant)
    requires |postId| <= MaxIdLength && |userId| <= MaxIdLength
    ensures NewSavedPost(Some(postId), Some(userId), now).Created?
    ensures SavedPostFitsSchema(NewSavedPost(Some(postId), Some(userId), now).value)
  {
  }
}
