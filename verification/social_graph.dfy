/** The database as a value: one map per table, keyed by the table's primary
    key, the constraints the schema declares (keys, foreign keys, the unique
    user name), and what each insert or delete does to the tables, cascades
    and restrictions included. The repository class is proved against these
    functions. */
module SocialGraph {
  import opened Text
  import opened Entities
  import opened Seqs

  datatype Db = Db(
    users: map<string, User>,
    posts: map<string, Post>,
    images: map<string, PostImage>,
    comments: map<string, Comment>,
    likes: map<PostUser, Like>,
    saved: map<PostUser, SavedPost>,
    follows: map<FollowEdge, Follower>)

  /* ---------- the schema's constraints ---------- */

  /* Every row is stored under its own primary key. */

  ghost predicate UsersKeyed(users: map<string, User>)
  {
    forall id :: id in users ==> users[id].id == id
  }

  ghost predicate PostsKeyed(posts: map<string, Post>)
  {
    forall id :: id in posts ==> posts[id].postId == id
  }

  ghost predicate ImagesKeyed(images: map<string, PostImage>)
  {
    forall id :: id in images ==> images[id].imageId == id
  }

  ghost predicate CommentsKeyed(comments: map<string, Comment>)
  {
    forall id :: id in comments ==> comments[id].commentId == id
  }

  ghost predicate LikesKeyed(likes: map<PostUser, Like>)
  {
    forall k :: k in likes ==> likes[k].Key() == k
  }

  ghost predicate SavedKeyed(saved: map<PostUser, SavedPost>)
  {
    forall k :: k in saved ==> saved[k].Key() == k
  }

  ghost predicate FollowsKeyed(follows: map<FollowEdge, Follower>)
  {
    forall e :: e in follows ==> follows[e].Key() == e
  }

  ghost predicate KeysMatch(db: Db)
  {
    && UsersKeyed(db.users) && PostsKeyed(db.posts) && ImagesKeyed(db.images)
    && CommentsKeyed(db.comments) && LikesKeyed(db.likes) && SavedKeyed(db.saved)
    && FollowsKeyed(db.follows)
  }

  /* Every required foreign key names an existing row. */

  ghost predicate PostsReferToUsers(posts: map<string, Post>, users: map<string, User>)
  {
    forall id :: id in posts ==> posts[id].userId in users
  }

  ghost predicate ImagesReferToPosts(images: map<string, PostImage>, posts: map<string, Post>)
  {
    forall id :: id in images ==> images[id].postId in posts
  }

  ghost predicate CommentsReferToRows(comments: map<string, Comment>, posts: map<string, Post>, users: map<string, User>)
  {
    forall id :: id in comments ==> comments[id].postId in posts && comments[id].userId in users
  }

  ghost predicate MarkersReferToRows<V>(markers: map<PostUser, V>, posts: map<string, Post>, users: map<string, User>)
  {
    forall k :: k in markers ==> k.postId in posts && k.userId in users
  }

  ghost predicate EdgesReferToUsers(follows: map<FollowEdge, Follower>, users: map<string, User>)
  {
    forall e :: e in follows ==> e.followerUserId in users && e.followedUserId in users
  }

  ghost predicate ForeignKeys(db: Db)
  {
    && PostsReferToUsers(db.posts, db.users)
    && ImagesReferToPosts(db.images, db.posts)
    && CommentsReferToRows(db.comments, db.posts, db.users)
    && MarkersReferToRows(db.likes, db.posts, db.users)
    && MarkersReferToRows(db.saved, db.posts, db.users)
    && EdgesReferToUsers(db.follows, db.users)
  }

  /** The unique index on the user name. */
  ghost predicate UniqueUserNames(users: map<string, User>)
  {
    forall a, b :: a in users && b in users && users[a].userName == users[b].userName ==> a == b
  }

  ghost predicate Consistent(db: Db)
  {
    KeysMatch(db) && ForeignKeys(db) && UniqueUserNames(db.users)
  }

  /** Removing a key that was just added gives the map back. */
  lemma RemoveAdded<K, V>(m: map<K, V>, k: K, v: V)
    requires k !in m
    ensures m[k := v] - {k} == m
  {
    assert (m[k := v] - {k}).Keys == m.Keys;
  }

  /* ---------- likes ---------- */

  /** `IsPostLikedByUserAsync`: some like row has this post and this user. */
  predicate IsPostLikedByUser(db: Db, postId: string, userId: string)
  {
    exists l :: l in db.likes.Values && l.postId == postId && l.userId == userId
  }

  /** Because `(PostId, UserId)` is the key, asking for a matching row is
      asking whether the key is present. */
  lemma LikedIffKeyPresent(db: Db, postId: string, userId: string)
    requires KeysMatch(db)
    ensures IsPostLikedByUser(db, postId, userId) <==> PostUser(postId, userId) in db.likes
  {
    var k := PostUser(postId, userId);
    if k in db.likes {
      assert db.likes[k] in db.likes.Values;
    }
    if IsPostLikedByUser(db, postId, userId) {
      var l :| l in db.likes.Values && l.postId == postId && l.userId == userId;
      var k' :| k' in db.likes && db.likes[k'] == l;
      assert k' == k;
    }
  }

  /** `AddLikeAsync` is accepted by the database when the key is new and both
      foreign keys resolve. */
  predicate CanInsertLike(db: Db, postId: string, userId: string)
  {
    PostUser(postId, userId) !in db.likes && postId in db.posts && userId in db.users
  }

  function InsertLike(db: Db, postId: string, userId: string, now: Instant): Db
  {
    db.(likes := db.likes[PostUser(postId, userId) := Like(postId, userId, now)])
  }

  /** `RemoveLikeAsync`: the matching row, if any, is removed. */
  function DeleteLike(db: Db, postId: string, userId: string): Db
  {
    db.(likes := db.likes - {PostUser(postId, userId)})
  }

  /** An accepted like insert keeps the schema, makes the post liked by the
      user, and changes no other like and no other table. */
  lemma InsertLikeEffect(db: Db, postId: string, userId: string, now: Instant)
    requires Consistent(db) && CanInsertLike(db, postId, userId)
    ensures var r := InsertLike(db, postId, userId, now);
      && Consistent(r)
      && IsPostLikedByUser(r, postId, userId)
      && r.likes - {PostUser(postId, userId)} == db.likes
      && r.(likes := db.likes) == db
  {
    var r := InsertLike(db, postId, userId, now);
    LikedIffKeyPresent(r, postId, userId);
    RemoveAdded(db.likes, PostUser(postId, userId), Like(postId, userId, now));
  }

  /** A like delete keeps the schema, leaves the post not liked by the user,
      touches no other like and no other table, and does nothing when the
      user had not liked the post. */
  lemma DeleteLikeEffect(db: Db, postId: string, userId: string)
    requires KeysMatch(db)
    ensures var r := DeleteLike(db, postId, userId);
      && !IsPostLikedByUser(r, postId, userId)
      && (forall k :: k in db.likes && k != PostUser(postId, userId) ==> k in r.likes && r.likes[k] == db.likes[k])
      && r.(likes := db.likes) == db
      && (!IsPostLikedByUser(db, postId, userId) ==> r == db)
  {
    var r := DeleteLike(db, postId, userId);
    LikedIffKeyPresent(r, postId, userId);
    LikedIffKeyPresent(db, postId, userId);
    if !IsPostLikedByUser(db, postId, userId) {
      assert r.likes == db.likes;
    }
  }

  lemma DeleteLikeKeepsSchema(db: Db, postId: string, userId: string)
    requires Consistent(db)
    ensures Consistent(DeleteLike(db, postId, userId))
  {
  }

  /** Liking and then unliking restores the like table exactly. */
  lemma LikeRoundTrip(db: Db, postId: string, userId: string, now: Instant)
    requires CanInsertLike(db, postId, userId)
    ensures DeleteLike(InsertLike(db, postId, userId, now), postId, userId) == db
  {
    RemoveAdded(db.likes, PostUser(postId, userId), Like(postId, userId, now));
  }

  /* ---------- saved posts ---------- */

  /** `IsPostSavedByUserAsync`: some saved-post row has this post and this user. */
  predicate IsPostSavedByUser(db: Db, postId: string, userId: string)
  {
    exists s :: s in db.saved.Values && s.postId == postId && s.userId == userId
  }

  lemma SavedIffKeyPresent(db: Db, postId: string, userId: string)
    requires KeysMatch(db)
    ensures IsPostSavedByUser(db, postId, userId) <==> PostUser(postId, userId) in db.saved
  {
    var k := PostUser(postId, userId);
    if k in db.saved {
      assert db.saved[k] in db.saved.Values;
    }
    if IsPostSavedByUser(db, postId, userId) {
      var s :| s in db.saved.Values && s.postId == postId && s.userId == userId;
      var k' :| k' in db.saved && db.saved[k'] == s;
      assert k' == k;
    }
  }

  predicate CanInsertSaved(db: Db, postId: string, userId: string)
  {
    PostUser(postId, userId) !in db.saved && postId in db.posts && userId in db.users
  }

  /** `AddSavedPostAsync`: the row is built by the `SavedPost` constructor. */
  function InsertSaved(db: Db, postId: string, userId: string, now: Instant): Db
  {
    var row := NewSavedPost(Some(postId), Some(userId), now).value;
    db.(saved := db.saved[row.Key() := row])
  }

  function DeleteSaved(db: Db, postId: string, userId: string): Db
  {
    db.(saved := db.saved - {PostUser(postId, userId)})
  }

  lemma InsertSavedEffect(db: Db, postId: string, userId: string, now: Instant)
    requires Consistent(db) && CanInsertSaved(db, postId, userId)
    ensures var r := InsertSaved(db, postId, userId, now);
      && Consistent(r)
      && IsPostSavedByUser(r, postId, userId)
      && r.saved[PostUser(postId, userId)].createdAt == now
      && r.saved - {PostUser(postId, userId)} == db.saved
      && r.(saved := db.saved) == db
  {
    var r := InsertSaved(db, postId, userId, now);
    SavedIffKeyPresent(r, postId, userId);
    RemoveAdded(db.saved, PostUser(postId, userId), SavedPost(postId, userId, now));
  }

  lemma DeleteSavedEffect(db: Db, postId: string, userId: string)
    requires KeysMatch(db)
    ensures var r := DeleteSaved(db, postId, userId);
      && !IsPostSavedByUser(r, postId, userId)
      && (forall k :: k in db.saved && k != PostUser(postId, userId) ==> k in r.saved && r.saved[k] == db.saved[k])
      && r.(saved := db.saved) == db
      && (!IsPostSavedByUser(db, postId, userId) ==> r == db)
  {
    var r := DeleteSaved(db, postId, userId);
    SavedIffKeyPresent(r, postId, userId);
    SavedIffKeyPresent(db, postId, userId);
    if !IsPostSavedByUser(db, postId, userId) {
      assert r.saved == db.saved;
    }
  }

  lemma DeleteSavedKeepsSchema(db: Db, postId: string, userId: string)
    requires Consistent(db)
    ensures Consistent(DeleteSaved(db, postId, userId))
  {
  }

  lemma SavedRoundTrip(db: Db, postId: string, userId: string, now: Instant)
    requires CanInsertSaved(db, postId, userId)
    ensures DeleteSaved(InsertSaved(db, postId, userId, now), postId, userId) == db
  {
    RemoveAdded(db.saved, PostUser(postId, userId), SavedPost(postId, userId, now));
  }

  /* ---------- follower edges ---------- */

  /** `IsFollowingAsync`: some edge goes from `followerUserId` to `followedUserId`. */
  predicate IsFollowing(db: Db, followerUserId: string, followedUserId: string)
  {
    exists f :: f in db.follows.Values && f.followerUserId == followerUserId && f.followedUserId == followedUserId
  }

  lemma FollowingIffKeyPresent(db: Db, a: string, b: string)
    requires KeysMatch(db)
    ensures IsFollowing(db, a, b) <==> FollowEdge(a, b) in db.follows
  {
    var k := FollowEdge(a, b);
    if k in db.follows {
      assert db.follows[k] in db.follows.Values;
    }
    if IsFollowing(db, a, b) {
      var f :| f in db.follows.Values && f.followerUserId == a && f.followedUserId == b;
      var k' :| k' in db.follows && db.follows[k'] == f;
      assert k' == k;
    }
  }

  /** `AddFollowerAsync` has no self-follow guard: only the key and the two
      foreign keys decide. */
  predicate CanInsertFollow(db: Db, followerUserId: string, followedUserId: string)
  {
    FollowEdge(followerUserId, followedUserId) !in db.follows
    && followerUserId in db.users && followedUserId in db.users
  }

  function InsertFollow(db: Db, followerUserId: string, followedUserId: string, now: Instant): Db
  {
    var edge := FollowEdge(followerUserId, followedUserId);
    db.(follows := db.follows[edge := Follower(followerUserId, followedUserId, now)])
  }

  function DeleteFollow(db: Db, followerUserId: string, followedUserId: string): Db
  {
    db.(follows := db.follows - {FollowEdge(followerUserId, followedUserId)})
  }

  /** `GetFollowersAsync`: the users at the source of an edge into `userId`. */
  function Followers(db: Db, userId: string): set<User>
  {
    set e | e in db.follows && e.followedUserId == userId && e.followerUserId in db.users
      :: db.users[e.followerUserId]
  }

  /** `GetFollowingAsync`: the users at the target of an edge out of `userId`. */
  function Following(db: Db, userId: string): set<User>
  {
    set e | e in db.follows && e.followerUserId == userId && e.followedUserId in db.users
      :: db.users[e.followedUserId]
  }

  /** A user is among `u`'s followers exactly when that user follows `u`, and
      among those `u` follows exactly when `u` follows that user. */
  lemma FollowersMeanFollowing(db: Db, u: string, v: User)
    requires Consistent(db)
    ensures v in Followers(db, u) <==> v.id in db.users && db.users[v.id] == v && IsFollowing(db, v.id, u)
    ensures v in Following(db, u) <==> v.id in db.users && db.users[v.id] == v && IsFollowing(db, u, v.id)
  {
    FollowingIffKeyPresent(db, v.id, u);
    FollowingIffKeyPresent(db, u, v.id);
    if v in Followers(db, u) {
      var e :| e in db.follows && e.followedUserId == u && e.followerUserId in db.users && db.users[e.followerUserId] == v;
      assert e == FollowEdge(v.id, u);
    }
    if v in Following(db, u) {
      var e :| e in db.follows && e.followerUserId == u && e.followedUserId in db.users && db.users[e.followedUserId] == v;
      assert e == FollowEdge(u, v.id);
    }
  }

  /** Edges are directed: `a` following `b` says nothing about `b` following `a`. */
  lemma FollowIsDirected(db: Db, a: string, b: string, now: Instant)
    requires Consistent(db) && a != b && CanInsertFollow(db, a, b) && !IsFollowing(db, b, a)
    ensures IsFollowing(InsertFollow(db, a, b, now), a, b)
    ensures !IsFollowing(InsertFollow(db, a, b, now), b, a)
  {
    var r := InsertFollow(db, a, b, now);
    FollowingIffKeyPresent(db, b, a);
    FollowingIffKeyPresent(r, a, b);
    FollowingIffKeyPresent(r, b, a);
  }

  lemma InsertFollowEffect(db: Db, a: string, b: string, now: Instant)
    requires Consistent(db) && CanInsertFollow(db, a, b)
    ensures var r := InsertFollow(db, a, b, now);
      && Consistent(r)
      && IsFollowing(r, a, b)
      && r.follows - {FollowEdge(a, b)} == db.follows
      && r.(follows := db.follows) == db
  {
    var r := InsertFollow(db, a, b, now);
    FollowingIffKeyPresent(r, a, b);
    RemoveAdded(db.follows, FollowEdge(a, b), Follower(a, b, now));
  }

  lemma DeleteFollowEffect(db: Db, a: string, b: string)
    requires KeysMatch(db)
    ensures var r := DeleteFollow(db, a, b);
      && !IsFollowing(r, a, b)
      && (forall e :: e in db.follows && e != FollowEdge(a, b) ==> e in r.follows && r.follows[e] == db.follows[e])
      && r.(follows := db.follows) == db
      && (!IsFollowing(db, a, b) ==> r == db)
  {
    var r := DeleteFollow(db, a, b);
    FollowingIffKeyPresent(r, a, b);
    FollowingIffKeyPresent(db, a, b);
    if !IsFollowing(db, a, b) {
      assert r.follows == db.follows;
    }
  }

  lemma DeleteFollowKeepsSchema(db: Db, a: string, b: string)
    requires Consistent(db)
    ensures Consistent(DeleteFollow(db, a, b))
  {
  }

  lemma FollowRoundTrip(db: Db, a: string, b: string, now: Instant)
    requires CanInsertFollow(db, a, b)
    ensures DeleteFollow(InsertFollow(db, a, b, now), a, b) == db
  {
    RemoveAdded(db.follows, FollowEdge(a, b), Follower(a, b, now));
  }

  /* ---------- posts and their images ---------- */

  /** No two distinct images of `imgs` share an id. */
  predicate ImageIdsDistinct(imgs: seq<PostImage>)
  {
    forall x, y :: x in imgs && y in imgs && x.imageId == y.imageId ==> x == y
  }

  /** The rows that `imgs` adds to the image table. */
  function ImageRows(imgs: seq<PostImage>): map<string, PostImage>
    requires ImageIdsDistinct(imgs)
  {
    map x | x in imgs :: x.imageId := x
  }

  /** `AddPostAsync` stores the post together with the images attached to it;
      the database accepts this when the post id and every image id are new,
      the author exists and every image points at the new post. */
  predicate CanInsertPost(db: Db, post: Post, imgs: seq<PostImage>)
  {
    && post.postId !in db.posts && post.userId in db.users
    && ImageIdsDistinct(imgs)
    && (forall x :: x in imgs ==> x.postId == post.postId && x.imageId !in db.images)
  }

  function InsertPost(db: Db, post: Post, imgs: seq<PostImage>): Db
    requires ImageIdsDistinct(imgs)
  {
    db.(posts := db.posts[post.postId := post], images := db.images + ImageRows(imgs))
  }

  /** An accepted post insert keeps the schema; afterwards the post is stored
      and its images are exactly the ones it carried. */
  lemma InsertPostEffect(db: Db, post: Post, imgs: seq<PostImage>)
    requires Consistent(db) && CanInsertPost(db, post, imgs)
    ensures var r := InsertPost(db, post, imgs);
      && Consistent(r)
      && post.postId in r.posts && r.posts[post.postId] == post
      && (forall x :: x in r.images.Values && x.postId == post.postId <==> x in imgs)
      && r.posts - {post.postId} == db.posts
      && r.(posts := db.posts, images := db.images) == db
  {
    var r := InsertPost(db, post, imgs);
    InsertPostConsistent(db, post, imgs);
    forall x | x in r.images.Values && x.postId == post.postId ensures x in imgs {
      var k :| k in r.images && r.images[k] == x;
    }
    forall x | x in imgs ensures x in r.images.Values {
      assert x.imageId in ImageRows(imgs);
      assert r.images[x.imageId] == x;
    }
    RemoveAdded(db.posts, post.postId, post);
  }

  lemma InsertPostConsistent(db: Db, post: Post, imgs: seq<PostImage>)
    requires Consistent(db) && CanInsertPost(db, post, imgs)
    ensures Consistent(InsertPost(db, post, imgs))
  {
  }

  /** `DeletePostAsync` removes the post, and the cascades declared on the
      comment, like, image and saved-post foreign keys remove every row that
      points at it. */
  function DeletePost(db: Db, postId: string): Db
  {
    db.(posts := db.posts - {postId},
        images := map k | k in db.images && db.images[k].postId != postId :: db.images[k],
        comments := map k | k in db.comments && db.comments[k].postId != postId :: db.comments[k],
        likes := map k | k in db.likes && k.postId != postId :: db.likes[k],
        saved := map k | k in db.saved && k.postId != postId :: db.saved[k])
  }

  /** After the cascade no image, comment, like or saved post refers to the
      deleted post, every row of every other post survives unchanged, users
      and follower edges are untouched, and the schema still holds. */
  lemma DeletePostCascade(db: Db, postId: string)
    requires Consistent(db)
    ensures var r := DeletePost(db, postId);
      && Consistent(r)
      && postId !in r.posts
      && (forall x :: x in r.images.Values ==> x.postId != postId)
      && (forall c :: c in r.comments.Values ==> c.postId != postId)
      && (forall k :: k in r.likes ==> k.postId != postId)
      && (forall k :: k in r.saved ==> k.postId != postId)
      && (forall k :: k in db.images && db.images[k].postId != postId ==> k in r.images && r.images[k] == db.images[k])
      && (forall k :: k in db.comments && db.comments[k].postId != postId ==> k in r.comments && r.comments[k] == db.comments[k])
      && (forall k :: k in db.likes && k.postId != postId ==> k in r.likes && r.likes[k] == db.likes[k])
      && (forall k :: k in db.saved && k.postId != postId ==> k in r.saved && r.saved[k] == db.saved[k])
      && r.users == db.users && r.follows == db.follows
  {
    DeletePostKeys(db, postId);
    DeletePostForeignKeys(db, postId);
  }

  lemma DeletePostKeys(db: Db, postId: string)
    requires KeysMatch(db)
    ensures KeysMatch(DeletePost(db, postId))
  {
  }

  lemma DeletePostForeignKeys(db: Db, postId: string)
    requires ForeignKeys(db)
    ensures ForeignKeys(DeletePost(db, postId))
  {
  }

  /** Deleting a post that does not exist changes nothing: by the foreign
      keys, no row can point at it. */
  lemma DeleteMissingPost(db: Db, postId: string)
    requires Consistent(db) && postId !in db.posts
    ensures DeletePost(db, postId) == db
  {
    NothingRefersToMissingPost(db, postId);
  }

  lemma NothingRefersToMissingPost(db: Db, postId: string)
    requires postId !in db.posts
    requires ImagesReferToPosts(db.images, db.posts)
    requires CommentsReferToRows(db.comments, db.posts, db.users)
    requires MarkersReferToRows(db.likes, db.posts, db.users)
    requires MarkersReferToRows(db.saved, db.posts, db.users)
    ensures DeletePost(db, postId) == db
  {
    var r := DeletePost(db, postId);
    assert r.posts == db.posts;
    assert r.images == db.images by {
      assert r.images.Keys == db.images.Keys;
    }
    assert r.comments == db.comments by {
      assert r.comments.Keys == db.comments.Keys;
    }
    assert r.likes == db.likes by {
      assert r.likes.Keys == db.likes.Keys;
    }
    assert r.saved == db.saved by {
      assert r.saved.Keys == db.saved.Keys;
    }
  }

  /** `UpdatePostAsync(post, imagesToDelete, imagesToAdd)`: the post row is
      replaced, the listed images are removed and the new ones inserted. */
  predicate CanUpdatePost(db: Db, post: Post, add: seq<PostImage>)
  {
    && post.postId in db.posts && post.userId in db.users
    && ImageIdsDistinct(add)
    && (forall x :: x in add ==> x.postId == post.postId && x.imageId !in db.images)
  }

  function UpdatePost(db: Db, post: Post, delete: set<string>, add: seq<PostImage>): Db
    requires ImageIdsDistinct(add)
  {
    var kept := map k | k in db.images && k !in delete :: db.images[k];
    db.(posts := db.posts[post.postId := post], images := kept + ImageRows(add))
  }

  /** An accepted update keeps the schema; the post's images afterwards are
      its old ones minus the deleted ones, plus the added ones. */
  lemma UpdatePostEffect(db: Db, post: Post, delete: set<string>, add: seq<PostImage>)
    requires Consistent(db) && CanUpdatePost(db, post, add)
    ensures var r := UpdatePost(db, post, delete, add);
      && Consistent(r)
      && r.posts[post.postId] == post
      && (forall x :: x in r.images.Values && x.postId == post.postId <==>
            x in add || (x in db.images.Values && x.postId == post.postId && x.imageId !in delete))
      && r.(posts := db.posts, images := db.images) == db
  {
    var r := UpdatePost(db, post, delete, add);
    UpdatePostConsistent(db, post, delete, add);
    forall x | x in r.images.Values && x.postId == post.postId
      ensures x in add || (x in db.images.Values && x.imageId !in delete)
    {
      var k :| k in r.images && r.images[k] == x;
      if k !in ImageRows(add) {
        assert db.images[k] == x && x.imageId == k;
      }
    }
    forall x | x in add ensures x in r.images.Values {
      assert x.imageId in ImageRows(add);
      assert r.images[x.imageId] == x;
    }
    forall x | x in db.images.Values && x.postId == post.postId && x.imageId !in delete
      ensures x in r.images.Values
    {
      var k :| k in db.images && db.images[k] == x;
      assert x.imageId == k;
      assert k !in ImageRows(add);
      assert r.images[k] == x;
    }
  }

  lemma UpdatePostConsistent(db: Db, post: Post, delete: set<string>, add: seq<PostImage>)
    requires Consistent(db) && CanUpdatePost(db, post, add)
    ensures Consistent(UpdatePost(db, post, delete, add))
  {
  }

  /** With nothing to delete or add, an update only replaces the post row. */
  lemma UpdateWithoutImages(db: Db, post: Post)
    ensures UpdatePost(db, post, {}, []) == db.(posts := db.posts[post.postId := post])
  {
    assert ImageRows([]) == map[];
    assert (map k | k in db.images && k !in {} :: db.images[k]) == db.images;
  }

  /* ---------- comments ---------- */

  predicate CanInsertComment(db: Db, c: Comment)
  {
    c.commentId !in db.comments && c.postId in db.posts && c.userId in db.users
  }

  /** `AddCommentAsync`. */
  function InsertComment(db: Db, c: Comment): Db
  {
    db.(comments := db.comments[c.commentId := c])
  }

  /** `DeleteCommentAsync`: the comment with that id, if any, is removed,
      whoever wrote it. */
  function DeleteComment(db: Db, commentId: string): Db
  {
    db.(comments := db.comments - {commentId})
  }

  /** `EditCommentAsync`: the comment with that id, if any, gets the new text. */
  function EditComment(db: Db, commentId: string, content: string): Db
  {
    if commentId in db.comments then
      db.(comments := db.comments[commentId := db.comments[commentId].(content := content)])
    else db
  }

  lemma InsertCommentEffect(db: Db, c: Comment)
    requires Consistent(db) && CanInsertComment(db, c)
    ensures var r := InsertComment(db, c);
      && Consistent(r)
      && c in r.comments.Values
      && r.comments - {c.commentId} == db.comments
      && DeleteComment(r, c.commentId) == db
  {
    var r := InsertComment(db, c);
    assert r.comments[c.commentId] == c;
    RemoveAdded(db.comments, c.commentId, c);
  }

  lemma DeleteCommentEffect(db: Db, commentId: string)
    requires Consistent(db)
    ensures var r := DeleteComment(db, commentId);
      && Consistent(r)
      && (forall c :: c in r.comments.Values ==> c.commentId != commentId)
      && (forall k :: k in db.comments && k != commentId ==> k in r.comments && r.comments[k] == db.comments[k])
      && r.(comments := db.comments) == db
      && (commentId !in db.comments ==> r == db)
  {
    var r := DeleteComment(db, commentId);
    if commentId !in db.comments {
      assert r.comments == db.comments;
    }
  }

  lemma EditCommentEffect(db: Db, commentId: string, content: string)
    requires Consistent(db)
    ensures var r := EditComment(db, commentId, content);
      && Consistent(r)
      && r.comments.Keys == db.comments.Keys
      && (commentId in db.comments ==>
            r.comments[commentId] == db.comments[commentId].(content := content))
      && (forall k :: k in db.comments && k != commentId ==> r.comments[k] == db.comments[k])
      && r.(comments := db.comments) == db
  {
  }

  /* ---------- users ---------- */

  /** The follower foreign keys are `Restrict`: a user who follows or is
      followed by anyone cannot be deleted. */
  predicate CanDeleteUser(db: Db, userId: string)
  {
    userId in db.users
    && forall e :: e in db.follows ==> e.followerUserId != userId && e.followedUserId != userId
  }

  predicate PostOwnedBy(db: Db, postId: string, userId: string)
  {
    postId in db.posts && db.posts[postId].userId == userId
  }

  /** Deleting a user cascades to the user's posts (and, through them, to
      their images, comments, likes and saves) and to the user's own
      comments, likes and saves. */
  function DeleteUser(db: Db, userId: string): Db
  {
    db.(users := db.users - {userId},
        posts := map k | k in db.posts && db.posts[k].userId != userId :: db.posts[k],
        images := map k | k in db.images && !PostOwnedBy(db, db.images[k].postId, userId) :: db.images[k],
        comments := map k | k in db.comments && db.comments[k].userId != userId
                             && !PostOwnedBy(db, db.comments[k].postId, userId) :: db.comments[k],
        likes := map k | k in db.likes && k.userId != userId && !PostOwnedBy(db, k.postId, userId) :: db.likes[k],
        saved := map k | k in db.saved && k.userId != userId && !PostOwnedBy(db, k.postId, userId) :: db.saved[k])
  }

  /** When the restriction allows it, the cascade leaves a consistent
      database in which nothing refers to the deleted user. */
  lemma DeleteUserCascade(db: Db, userId: string)
    requires Consistent(db) && CanDeleteUser(db, userId)
    ensures var r := DeleteUser(db, userId);
      && Consistent(r)
      && userId !in r.users
      && (forall p :: p in r.posts.Values ==> p.userId != userId)
      && (forall c :: c in r.comments.Values ==> c.userId != userId)
      && (forall k :: k in r.likes ==> k.userId != userId)
      && (forall k :: k in r.saved ==> k.userId != userId)
      && r.follows == db.follows
  {
    DeleteUserKeys(db, userId);
    DeleteUserForeignKeys(db, userId);
  }

  lemma DeleteUserKeys(db: Db, userId: string)
    requires KeysMatch(db) && UniqueUserNames(db.users)
    ensures KeysMatch(DeleteUser(db, userId)) && UniqueUserNames(DeleteUser(db, userId).users)
  {
  }

  lemma DeleteUserForeignKeys(db: Db, userId: string)
    requires ForeignKeys(db) && CanDeleteUser(db, userId)
    ensures ForeignKeys(DeleteUser(db, userId))
  {
  }

  /** The profile edit stores a new bio and picture URL on the user row and
      changes nothing else about the user. */
  function SetProfile(db: Db, userId: string, bio: Option<string>, picture: Option<string>): Db
    requires userId in db.users
  {
    db.(users := db.users[userId := db.users[userId].(bio := bio, profilePictureUrl := picture)])
  }

  lemma SetProfileEffect(db: Db, userId: string, bio: Option<string>, picture: Option<string>)
    requires Consistent(db) && userId in db.users
    ensures var r := SetProfile(db, userId, bio, picture);
      && Consistent(r)
      && r.users.Keys == db.users.Keys
      && r.users[userId].bio == bio && r.users[userId].profilePictureUrl == picture
      && r.users[userId].id == userId && r.users[userId].userName == db.users[userId].userName
      && (forall k :: k in db.users && k != userId ==> r.users[k] == db.users[k])
      && r.(users := db.users) == db
  {
    var r := SetProfile(db, userId, bio, picture);
    assert r.users.Keys == db.users.Keys;
    forall a, b | a in r.users && b in r.users && r.users[a].userName == r.users[b].userName
      ensures a == b
    {
      assert r.users[a].userName == db.users[a].userName;
      assert r.users[b].userName == db.users[b].userName;
    }
  }

  /* ---------- a post with its collections ---------- */

  /** `post.Images`: the image rows that point at the post. */
  function ImagesOf(db: Db, postId: string): set<PostImage>
  {
    set x | x in db.images.Values && x.postId == postId
  }

  /** `post.Comments`, each with `Comment.User.UserName`. */
  function CommentsOf(db: Db, postId: string): set<LoadedComment>
  {
    set c | c in db.comments.Values && c.postId == postId && c.userId in db.users
      :: LoadedComment(c, db.users[c.userId].userName)
  }

  /** `post.Likes`. */
  function LikesOf(db: Db, postId: string): set<Like>
  {
    set l | l in db.likes.Values && l.postId == postId
  }

  /** `post.SavedPosts`. */
  function SavedOf(db: Db, postId: string): set<SavedPost>
  {
    set s | s in db.saved.Values && s.postId == postId
  }

  /** A post that has just been accepted has no comments, no likes and no
      saves yet: every such row must already refer to a stored post. */
  lemma NewPostStartsEmpty(db: Db, post: Post, imgs: seq<PostImage>)
    requires Consistent(db) && CanInsertPost(db, post, imgs)
    ensures var r := InsertPost(db, post, imgs);
      CommentsOf(r, post.postId) == {} && LikesOf(r, post.postId) == {} && SavedOf(r, post.postId) == {}
  {
  }

  /** A saved-post row is stored under its own key, and its post exists. */
  lemma SavedRowStored(db: Db, s: SavedPost)
    requires Consistent(db) && s in db.saved.Values
    ensures s.Key() in db.saved && db.saved[s.Key()] == s && s.postId in db.posts
  {
    var k :| k in db.saved && db.saved[k] == s;
  }

  /** `g` is the post stored under `postId` with everything that refers to it. */
  ghost predicate IsGraphOf(db: Db, postId: string, g: PostGraph)
  {
    && postId in db.posts && g.post == db.posts[postId]
    && g.post.userId in db.users && g.author == db.users[g.post.userId]
    && Lists(g.images, ImagesOf(db, postId))
    && Lists(g.comments, CommentsOf(db, postId))
    && g.likes == LikesOf(db, postId)
    && g.saved == SavedOf(db, postId)
  }

  /** A user has liked a post exactly when one of the post's likes is theirs;
      likewise for saves. */
  lemma MarkersOfPost(db: Db, postId: string, userId: string)
    ensures (exists l :: l in LikesOf(db, postId) && l.userId == userId) <==> IsPostLikedByUser(db, postId, userId)
    ensures (exists s :: s in SavedOf(db, postId) && s.userId == userId) <==> IsPostSavedByUser(db, postId, userId)
  {
    if IsPostLikedByUser(db, postId, userId) {
      var l :| l in db.likes.Values && l.postId == postId && l.userId == userId;
      assert l in LikesOf(db, postId);
    }
    if IsPostSavedByUser(db, postId, userId) {
      var s :| s in db.saved.Values && s.postId == postId && s.userId == userId;
      assert s in SavedOf(db, postId);
    }
  }

  /** Under the key constraint, a post has one like per user who liked it. */
  lemma LikeCountIsLikers(db: Db, postId: string)
    requires KeysMatch(db)
    ensures |LikesOf(db, postId)| == |Likers(LikesOf(db, postId))|
  {
    var ls := LikesOf(db, postId);
    forall a, b | a in ls && b in ls && a.userId == b.userId ensures a == b {
      var ka :| ka in db.likes && db.likes[ka] == a;
      var kb :| kb in db.likes && db.likes[kb] == b;
      assert ka == a.Key() && kb == b.Key();
    }
    DistinctLikers(ls);
  }

  /** The users behind a set of likes. */
  function Likers(ls: set<Like>): set<string>
  {
    set l | l in ls :: l.userId
  }

  lemma {:induction false} DistinctLikers(ls: set<Like>)
    requires forall a, b :: a in ls && b in ls && a.userId == b.userId ==> a == b
    ensures |ls| == |Likers(ls)|
    decreases |ls|
  {
    if ls != {} {
      var a :| a in ls;
      var rest := ls - {a};
      DistinctLikers(rest);
      assert Likers(ls) == Likers(rest) + {a.userId};
      assert a.userId !in Likers(rest);
    }
  }
}
