/** The view models the controllers build from loaded posts: the post card
    with its viewer flags and counts, its comments oldest first, and the
    profile page. */
module ViewModels {
  import opened Text
  import opened Entities
  import opened Seqs
  import opened TimeFormat
  import opened SocialGraph

  datatype CommentViewModel = CommentViewModel(
    isCreatedByCurrentUser: bool,
    commentId: string,
    userName: string,
    content: string,
    createdAt: Instant,
    timeSincePosted: string)

  datatype PostViewModel = PostViewModel(
    postId: string,
    content: string,
    images: seq<PostImage>,
    userName: string,
    profilePicture: Option<string>,
    isLikedByCurrentUser: bool,
    isSavedByCurrentUser: bool,
    isOwnedByCurrentUser: bool,
    homeFeed: bool,
    likeCount: int,
    commentCount: int,
    comments: seq<CommentViewModel>)

  datatype EditPostViewModel = EditPostViewModel(postId: string, content: string, images: seq<PostImage>)

  datatype ProfileViewModel = ProfileViewModel(
    user: User,
    posts: seq<PostViewModel>,
    isCurrentUserProfile: bool,
    isFollowing: bool)

  /** Which `CalculateTimeSincePosted` labels the comments: the post
      controller's, which clamps future timestamps, or the profile
      controller's, which does not. */
  datatype Labeller = PostLabels | ProfileLabels

  function Since(f: Labeller, createdAt: Instant, now: Instant): string
  {
    match f
    case PostLabels => SinceClamped(createdAt, now)
    case ProfileLabels => SinceUnclamped(createdAt, now)
  }

  /** `x.UserId == currentUserId`, where the current user id may be null and
      then equals no stored id. */
  predicate IsViewer(userId: string, viewer: Option<string>)
  {
    viewer == Some(userId)
  }

  function CommentTime(c: LoadedComment): int
  {
    c.comment.createdAt
  }

  function CommentView(c: LoadedComment, viewer: Option<string>, now: Instant, f: Labeller): CommentViewModel
  {
    CommentViewModel(IsViewer(c.comment.userId, viewer), c.comment.commentId, c.userName,
                     c.comment.content, c.comment.createdAt, Since(f, c.comment.createdAt, now))
  }

  /** `Comments.OrderBy(c => c.CreatedAt).Select(...)`. */
  function CommentViews(cs: seq<LoadedComment>, viewer: Option<string>, now: Instant, f: Labeller): seq<CommentViewModel>
  {
    Map(SortBy(cs, CommentTime), c => CommentView(c, viewer, now, f))
  }

  /** The `PostViewModel` initialiser shared by `GetPostViewModelById`, the
      `SavedPosts` projection and the profile page. */
  function PostView(g: PostGraph, viewer: Option<string>, homeFeed: bool, now: Instant, f: Labeller): PostViewModel
  {
    PostViewModel(
      g.post.postId, g.post.content, g.images, g.author.userName, g.author.profilePictureUrl,
      exists l :: l in g.likes && IsViewer(l.userId, viewer),
      exists s :: s in g.saved && IsViewer(s.userId, viewer),
      IsViewer(g.post.userId, viewer),
      homeFeed, |g.likes|, |g.comments|,
      CommentViews(g.comments, viewer, now, f))
  }

  /** The `SavedPosts` projection: the saved flag is written as `true`
      instead of being computed, and the card is never a home-feed card. */
  function SavedPostView(g: PostGraph, userId: string, now: Instant): PostViewModel
  {
    PostView(g, Some(userId), false, now, PostLabels).(isSavedByCurrentUser := true)
  }

  /** The `ProfileViewModel` of the `Profile` action. */
  function ProfileView(user: User, gs: seq<PostGraph>, viewer: Option<string>, isFollowing: bool, now: Instant): ProfileViewModel
  {
    ProfileViewModel(user, Map(gs, g => PostView(g, viewer, false, now, ProfileLabels)),
                     IsViewer(user.id, viewer), isFollowing)
  }

  /* ---------- what the view models mean ---------- */

  /** The comments of a card are the post's comments, each once, oldest
      first; each is marked as the viewer's exactly when the viewer wrote
      it, since it is the `CommentView` of one of them. */
  lemma CommentsInOrder(cs: seq<LoadedComment>, viewer: Option<string>, now: Instant, f: Labeller)
    ensures var r := CommentViews(cs, viewer, now, f);
      && |r| == |cs|
      && (forall i, j :: 0 <= i < j < |r| ==> r[i].createdAt <= r[j].createdAt)
      && (forall c :: c in cs ==> exists i :: 0 <= i < |r| && r[i] == CommentView(c, viewer, now, f))
      && (forall i :: 0 <= i < |r| ==> exists c :: c in cs && r[i] == CommentView(c, viewer, now, f))
  {
    var r := CommentViews(cs, viewer, now, f);
    CommentViewsSorted(cs, viewer, now, f);
    CommentViewsCover(cs, viewer, now, f);
    CommentViewsFrom(cs, viewer, now, f);
    assert forall i :: 0 <= i < |r| ==> exists c :: c in cs && r[i] == CommentView(c, viewer, now, f);
  }

  lemma CommentViewsSorted(cs: seq<LoadedComment>, viewer: Option<string>, now: Instant, f: Labeller)
    ensures var r := CommentViews(cs, viewer, now, f);
      && |r| == |cs|
      && forall i, j :: 0 <= i < j < |r| ==> r[i].createdAt <= r[j].createdAt
  {
    var sorted := SortBy(cs, CommentTime);
    var r := CommentViews(cs, viewer, now, f);
    PermutationFacts(sorted, cs);
    forall i, j | 0 <= i < j < |r| ensures r[i].createdAt <= r[j].createdAt {
      assert CommentTime(sorted[i]) <= CommentTime(sorted[j]);
    }
  }

  lemma CommentViewsCover(cs: seq<LoadedComment>, viewer: Option<string>, now: Instant, f: Labeller)
    ensures var r := CommentViews(cs, viewer, now, f);
      forall c :: c in cs ==> exists i :: 0 <= i < |r| && r[i] == CommentView(c, viewer, now, f)
  {
    var sorted := SortBy(cs, CommentTime);
    var r := CommentViews(cs, viewer, now, f);
    PermutationFacts(sorted, cs);
    forall c | c in cs ensures exists i :: 0 <= i < |r| && r[i] == CommentView(c, viewer, now, f) {
      var i :| 0 <= i < |sorted| && sorted[i] == c;
      assert r[i] == CommentView(c, viewer, now, f);
    }
  }

  lemma CommentViewsFrom(cs: seq<LoadedComment>, viewer: Option<string>, now: Instant, f: Labeller)
    ensures var r := CommentViews(cs, viewer, now, f);
      forall i :: 0 <= i < |r| ==> exists c :: c in cs && r[i] == CommentView(c, viewer, now, f)
  {
    var sorted := SortBy(cs, CommentTime);
    var r := CommentViews(cs, viewer, now, f);
    PermutationFacts(sorted, cs);
    forall i | 0 <= i < |r| ensures exists c :: c in cs && r[i] == CommentView(c, viewer, now, f) {
      assert sorted[i] in cs;
    }
  }

  /** `v` is a card for the post stored under `postId`, seen by `viewer`:
      the store's answer to "has the viewer liked / saved this post", one
      like per user who liked it, every image of the post, the author's
      name and picture, each comment of the post shown once as its
      `CommentView` and nothing else, the comments oldest first, and
      ownership exactly when the viewer wrote the post. */
  ghost predicate CardOf(db: Db, postId: string, viewer: Option<string>, homeFeed: bool, now: Instant, f: Labeller, v: PostViewModel)
    requires postId in db.posts && db.posts[postId].userId in db.users
  {
    && v.postId == postId && v.content == db.posts[postId].content
    && v.userName == db.users[db.posts[postId].userId].userName
    && v.profilePicture == db.users[db.posts[postId].userId].profilePictureUrl
    && Lists(v.images, ImagesOf(db, postId))
    && (v.isLikedByCurrentUser <==> viewer.Some? && IsPostLikedByUser(db, postId, viewer.value))
    && (v.isSavedByCurrentUser <==> viewer.Some? && IsPostSavedByUser(db, postId, viewer.value))
    && (v.isOwnedByCurrentUser <==> viewer == Some(db.posts[postId].userId))
    && v.likeCount == |Likers(LikesOf(db, postId))|
    && v.commentCount == |CommentsOf(db, postId)| == |v.comments|
    && (forall i, j :: 0 <= i < j < |v.comments| ==> v.comments[i].createdAt <= v.comments[j].createdAt)
    && (forall c :: c in CommentsOf(db, postId) ==>
          exists i :: 0 <= i < |v.comments| && v.comments[i] == CommentView(c, viewer, now, f))
    && (forall i :: 0 <= i < |v.comments| ==>
          exists c :: c in CommentsOf(db, postId) && v.comments[i] == CommentView(c, viewer, now, f))
    && v.homeFeed == homeFeed
  }

  /** A card built from a post as a query loads it is a card for that post. */
  lemma PostViewMeaning(db: Db, postId: string, g: PostGraph, viewer: Option<string>, homeFeed: bool, now: Instant, f: Labeller)
    requires KeysMatch(db) && IsGraphOf(db, postId, g)
    ensures CardOf(db, postId, viewer, homeFeed, now, f, PostView(g, viewer, homeFeed, now, f))
  {
    if viewer.Some? {
      MarkersOfPost(db, postId, viewer.value);
    }
    LikeCountIsLikers(db, postId);
    ListsSize(g.comments, CommentsOf(db, postId));
    CommentViewsSorted(g.comments, viewer, now, f);
    CommentViewsCover(g.comments, viewer, now, f);
    CommentViewsFrom(g.comments, viewer, now, f);
  }

  /** The `true` written by the `SavedPosts` projection is what the post
      controller would have computed: every post it shows is saved by the
      viewer. */
  lemma SavedViewAgrees(db: Db, userId: string, g: PostGraph, now: Instant)
    requires KeysMatch(db) && IsGraphOf(db, g.post.postId, g)
    requires PostUser(g.post.postId, userId) in db.saved
    ensures SavedPostView(g, userId, now) == PostView(g, Some(userId), false, now, PostLabels)
  {
    MarkersOfPost(db, g.post.postId, userId);
    SavedIffKeyPresent(db, g.post.postId, userId);
  }

  /** The profile page and the post controller build the same card except
      for the time labels, and the labels agree too when no comment is
      dated in the future. */
  lemma ProfileAndFeedAgree(g: PostGraph, viewer: Option<string>, now: Instant)
    ensures var a := PostView(g, viewer, false, now, ProfileLabels);
      var b := PostView(g, viewer, false, now, PostLabels);
      && a.(comments := b.comments) == b
      && |a.comments| == |b.comments|
      && (forall i :: 0 <= i < |a.comments| ==>
            a.comments[i].(timeSincePosted := b.comments[i].timeSincePosted) == b.comments[i])
    ensures (forall c :: c in g.comments ==> c.comment.createdAt <= now) ==>
      PostView(g, viewer, false, now, ProfileLabels) == PostView(g, viewer, false, now, PostLabels)
  {
    LabelsOnlyDiffer(g.comments, viewer, now);
    if forall c :: c in g.comments ==> c.comment.createdAt <= now {
      PastLabelsAgree(g.comments, viewer, now);
    }
  }

  lemma LabelsOnlyDiffer(cs: seq<LoadedComment>, viewer: Option<string>, now: Instant)
    ensures var a := CommentViews(cs, viewer, now, ProfileLabels);
      var b := CommentViews(cs, viewer, now, PostLabels);
      && |a| == |b|
      && forall i :: 0 <= i < |a| ==> a[i].(timeSincePosted := b[i].timeSincePosted) == b[i]
  {
  }

  lemma PastLabelsAgree(cs: seq<LoadedComment>, viewer: Option<string>, now: Instant)
    requires forall c :: c in cs ==> c.comment.createdAt <= now
    ensures CommentViews(cs, viewer, now, ProfileLabels) == CommentViews(cs, viewer, now, PostLabels)
  {
    var sorted := SortBy(cs, CommentTime);
    PermutationFacts(sorted, cs);
    var a := CommentViews(cs, viewer, now, ProfileLabels);
    var b := CommentViews(cs, viewer, now, PostLabels);
    forall i | 0 <= i < |a| ensures a[i] == b[i] {
      assert sorted[i] in cs;
      ClampAgreesOnPast(sorted[i].comment.createdAt, now);
    }
  }

  /** The profile page marks the profile as the viewer's own exactly when
      the viewer is its user, and shows one card per loaded post, in the
      loaded order, none of them a home-feed card. */
  lemma ProfileViewMeaning(user: User, gs: seq<PostGraph>, viewer: Option<string>, isFollowing: bool, now: Instant)
    ensures var p := ProfileView(user, gs, viewer, isFollowing, now);
      && (p.isCurrentUserProfile <==> viewer.Some? && viewer.value == user.id)
      && |p.posts| == |gs|
      && (forall i :: 0 <= i < |gs| ==> p.posts[i].postId == gs[i].post.postId && !p.posts[i].homeFeed)
      && p.isFollowing == isFollowing
  {
  }
}
