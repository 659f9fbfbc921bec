/** The two repositories over one database context. Every write changes the
    tables in place; a write the database would reject (a duplicate primary
    key, a foreign key that names no row) is the exception it throws, reported
    here as `ok == false` with the tables unchanged. Each method is proved
    against the function of `SocialGraph` that says what it does to the
    tables, and keeps the schema's constraints. */
module Repositories {
  import opened Text
  import opened Entities
  import opened Seqs
  import opened SocialGraph

  /** `GetUserdataById`: the user, or the `KeyNotFoundException` it throws. */
  datatype Lookup<T> = Found(value: T) | KeyNotFound(message: string)

  /** `Posts.OrderByDescending(p => p.CreatedAt)` sorts by this key ascending. */
  function NewestFirst(g: PostGraph): int
  {
    -g.post.createdAt
  }

  /** `SavedPosts.OrderByDescending(sp => sp.CreatedAt)`. */
  function SavedNewestFirst(s: SavedPost): int
  {
    -s.createdAt
  }

  /** The keys of the image rows to remove. */
  function ImageIds(imgs: seq<PostImage>): set<string>
  {
    set x | x in imgs :: x.imageId
  }

  function SavedPostId(s: SavedPost): string
  {
    s.postId
  }

  /** The database context: one field per table. */
  class Store {
    var users: map<string, User>
    var posts: map<string, Post>
    var images: map<string, PostImage>
    var comments: map<string, Comment>
    var likes: map<PostUser, Like>
    var saved: map<PostUser, SavedPost>
    var follows: map<FollowEdge, Follower>

    /** The tables as one value. */
    function Tables(): Db
      reads this
    {
      Db(users, posts, images, comments, likes, saved, follows)
    }

    ghost predicate Valid()
      reads this
    {
      Consistent(Tables())
    }

    constructor (db: Db)
      requires Consistent(db)
      ensures Valid() && Tables() == db
    {
      users, posts, images, comments := db.users, db.posts, db.images, db.comments;
      likes, saved, follows := db.likes, db.saved, db.follows;
    }

    /* ---------- PostRepository: posts ---------- */

    /** Loads the post stored under `postId` with its author and collections. */
    method LoadGraph(postId: string) returns (g: PostGraph)
      requires Valid() && postId in posts
      ensures g.post.postId == postId && IsGraphOf(Tables(), postId, g)
    {
      var post := posts[postId];
      var imgs := ListOf(ImagesOf(Tables(), postId));
      var cmts := ListOf(CommentsOf(Tables(), postId));
      g := PostGraph(post, users[post.userId], imgs, cmts, LikesOf(Tables(), postId), SavedOf(Tables(), postId));
    }

    /** Loads each post of `ids` in turn. */
    method LoadGraphs(ids: seq<string>) returns (gs: seq<PostGraph>)
      requires Valid() && forall i :: 0 <= i < |ids| ==> ids[i] in posts
      ensures |gs| == |ids|
      ensures forall i :: 0 <= i < |ids| ==> gs[i].post.postId == ids[i] && IsGraphOf(Tables(), ids[i], gs[i])
    {
      gs := [];
      var n := 0;
      while n < |ids|
        invariant n <= |ids| && |gs| == n
        invariant forall i :: 0 <= i < n ==> gs[i].post.postId == ids[i] && IsGraphOf(Tables(), ids[i], gs[i])
      {
        var g := LoadGraph(ids[n]);
        gs := gs + [g];
        n := n + 1;
      }
    }

    /** `GetPostByIdAsync`: the post with that id and its collections, or
        null when there is none. */
    method GetPostById(postId: string) returns (g: Option<PostGraph>)
      requires Valid()
      ensures g.None? <==> postId !in posts
      ensures g.Some? ==> IsGraphOf(Tables(), postId, g.value)
    {
      if postId in posts {
        var loaded := LoadGraph(postId);
        g := Some(loaded);
      } else {
        g := None;
      }
    }

    /** `GetAllPostsAsync`: every post once, newest first. */
    method GetAllPosts() returns (gs: seq<PostGraph>)
      requires Valid()
      ensures |gs| == |posts|
      ensures forall i :: 0 <= i < |gs| ==> IsGraphOf(Tables(), gs[i].post.postId, gs[i])
      ensures forall id :: id in posts <==> exists i :: 0 <= i < |gs| && gs[i].post.postId == id
      ensures forall i, j :: 0 <= i < j < |gs| ==> gs[i].post.createdAt >= gs[j].post.createdAt
    {
      var ids := ListOf(posts.Keys);
      var loaded := LoadGraphs(ids);
      gs := SortBy(loaded, NewestFirst);
      PermutationFacts(gs, loaded);
      GraphsSurvivePermutation(Tables(), loaded, gs);
      forall id | id in posts ensures exists i :: 0 <= i < |gs| && gs[i].post.postId == id {
        assert id in ids;
        var m :| 0 <= m < |ids| && ids[m] == id;
        assert loaded[m] in gs;
      }
      forall i, j | 0 <= i < j < |gs| ensures gs[i].post.createdAt >= gs[j].post.createdAt {
        assert NewestFirst(gs[i]) <= NewestFirst(gs[j]);
      }
    }

    /** `GetPostsByUserAsync`, which the repository declares but does not
        implement: the user's posts with their collections, in no particular
        order. */
    method GetPostsByUser(userId: string) returns (gs: seq<PostGraph>)
      requires Valid()
      ensures forall i :: 0 <= i < |gs| ==> IsGraphOf(Tables(), gs[i].post.postId, gs[i]) && gs[i].post.userId == userId
      ensures forall id :: id in posts && posts[id].userId == userId <==>
        exists i :: 0 <= i < |gs| && gs[i].post.postId == id
      ensures forall i, j :: 0 <= i < j < |gs| ==> gs[i].post.postId != gs[j].post.postId
    {
      var mine := set id | id in posts && posts[id].userId == userId;
      var ids := ListOf(mine);
      forall i | 0 <= i < |ids| ensures ids[i] in posts && posts[ids[i]].userId == userId {
        assert ids[i] in ids;
      }
      gs := LoadGraphs(ids);
      forall id | id in posts && posts[id].userId == userId ensures exists i :: 0 <= i < |gs| && gs[i].post.postId == id {
        assert id in mine;
        assert id in ids;
        var m :| 0 <= m < |ids| && ids[m] == id;
      }
    }

    /** `GetSavedPostsByUserIdAsync`, declared but not implemented: the posts
        the user saved, most recently saved first. */
    method GetSavedPostsByUserId(userId: string) returns (gs: seq<PostGraph>)
      requires Valid()
      ensures forall i :: 0 <= i < |gs| ==> IsGraphOf(Tables(), gs[i].post.postId, gs[i])
      ensures forall id :: PostUser(id, userId) in saved <==> exists i :: 0 <= i < |gs| && gs[i].post.postId == id
      ensures forall i, j :: 0 <= i < j < |gs| ==>
        saved[PostUser(gs[i].post.postId, userId)].createdAt >= saved[PostUser(gs[j].post.postId, userId)].createdAt
      ensures forall i, j :: 0 <= i < j < |gs| ==> gs[i].post.postId != gs[j].post.postId
    {
      var marks := SavedMarksNewestFirst(userId);
      var ids := Map(marks, SavedPostId);
      gs := LoadGraphs(ids);
      forall id | PostUser(id, userId) in saved ensures exists i :: 0 <= i < |gs| && gs[i].post.postId == id {
        var i :| 0 <= i < |marks| && marks[i].postId == id;
        assert gs[i].post.postId == ids[i];
      }
    }

    /** The user's saved-post rows, most recent first. */
    method SavedMarksNewestFirst(userId: string) returns (sorted: seq<SavedPost>)
      requires Valid()
      ensures forall i :: 0 <= i < |sorted| ==>
        && sorted[i].postId in posts
        && PostUser(sorted[i].postId, userId) in saved
        && saved[PostUser(sorted[i].postId, userId)] == sorted[i]
      ensures forall id :: PostUser(id, userId) in saved ==> exists i :: 0 <= i < |sorted| && sorted[i].postId == id
      ensures forall i, j :: 0 <= i < j < |sorted| ==> sorted[i].createdAt >= sorted[j].createdAt
      ensures forall i, j :: 0 <= i < j < |sorted| ==> sorted[i].postId != sorted[j].postId
    {
      var marks := ListOf(set s | s in saved.Values && s.userId == userId);
      sorted := SortBy(marks, SavedNewestFirst);
      PermutationFacts(sorted, marks);
      PermutationDistinct(sorted, marks);
      forall i | 0 <= i < |sorted| ensures sorted[i].postId in posts &&
        PostUser(sorted[i].postId, userId) in saved && saved[PostUser(sorted[i].postId, userId)] == sorted[i] {
        assert sorted[i] in marks;
        SavedRowStored(Tables(), sorted[i]);
      }
      forall id | PostUser(id, userId) in saved ensures exists i :: 0 <= i < |sorted| && sorted[i].postId == id {
        var s := saved[PostUser(id, userId)];
        assert s in marks;
        var i :| 0 <= i < |sorted| && sorted[i] == s;
      }
      forall i, j | 0 <= i < j < |sorted| ensures sorted[i].createdAt >= sorted[j].createdAt {
        assert SavedNewestFirst(sorted[i]) <= SavedNewestFirst(sorted[j]);
      }
    }

    /** `AddPostAsync`: the post and the images attached to it. */
    method AddPost(post: Post, imgs: seq<PostImage>) returns (ok: bool)
      requires Valid()
      modifies this
      ensures Valid()
      ensures ok == CanInsertPost(old(Tables()), post, imgs)
      ensures Tables() == if ok then InsertPost(old(Tables()), post, imgs) else old(Tables())
    {
      ok := CanInsertPost(Tables(), post, imgs);
      if ok {
        InsertPostEffect(Tables(), post, imgs);
        posts, images := posts[post.postId := post], images + ImageRows(imgs);
      }
    }

    /** `UpdatePostAsync(post, imagesToDelete, imagesToAdd)`, which the
        controller calls but the repository does not implement: the post row
        is replaced and the image rows exchanged, as one accepted write. */
    method UpdatePost(post: Post, delete: seq<PostImage>, add: seq<PostImage>) returns (ok: bool)
      requires Valid()
      modifies this
      ensures Valid()
      ensures ok == CanUpdatePost(old(Tables()), post, add)
      ensures Tables() == if ok then SocialGraph.UpdatePost(old(Tables()), post, ImageIds(delete), add) else old(Tables())
    {
      ok := CanUpdatePost(Tables(), post, add);
      if ok {
        UpdatePostEffect(Tables(), post, ImageIds(delete), add);
        var r := SocialGraph.UpdatePost(Tables(), post, ImageIds(delete), add);
        posts, images := r.posts, r.images;
      }
    }

    /** `DeletePostAsync`: removes the post when it is found, and the cascade
        removes its images, comments, likes and saves. */
    method DeletePost(postId: string)
      requires Valid()
      modifies this
      ensures Valid()
      ensures Tables() == SocialGraph.DeletePost(old(Tables()), postId)
    {
      DeletePostCascade(Tables(), postId);
      var r := SocialGraph.DeletePost(Tables(), postId);
      posts, images, comments, likes, saved := r.posts, r.images, r.comments, r.likes, r.saved;
    }

    /* ---------- PostRepository: comments ---------- */

    /** `AddCommentAsync`. */
    method AddComment(c: Comment) returns (ok: bool)
      requires Valid()
      modifies this
      ensures Valid()
      ensures ok == CanInsertComment(old(Tables()), c)
      ensures Tables() == if ok then InsertComment(old(Tables()), c) else old(Tables())
    {
      ok := CanInsertComment(Tables(), c);
      if ok {
        InsertCommentEffect(Tables(), c);
        comments := comments[c.commentId := c];
      }
    }

    /** `DeleteCommentAsync`: removes the comment when it is found. */
    method DeleteComment(commentId: string)
      requires Valid()
      modifies this
      ensures Valid()
      ensures Tables() == SocialGraph.DeleteComment(old(Tables()), commentId)
    {
      DeleteCommentEffect(Tables(), commentId);
      if commentId in comments {
        comments := comments - {commentId};
      }
    }

    /** `EditCommentAsync`, called by the controller but not implemented by
        the repository: the comment's text is replaced when it is found. */
    method EditComment(commentId: string, content: string)
      requires Valid()
      modifies this
      ensures Valid()
      ensures Tables() == SocialGraph.EditComment(old(Tables()), commentId, content)
    {
      EditCommentEffect(Tables(), commentId, content);
      if commentId in comments {
        comments := comments[commentId := comments[commentId].(content := content)];
      }
    }

    /* ---------- PostRepository: likes ---------- */

    /** `AddLikeAsync`: the database accepts the row only under a new key
        whose post and user exist. */
    method AddLike(postId: string, userId: string, now: Instant) returns (ok: bool)
      requires Valid()
      modifies this
      ensures Valid()
      ensures ok == CanInsertLike(old(Tables()), postId, userId)
      ensures Tables() == if ok then InsertLike(old(Tables()), postId, userId, now) else old(Tables())
    {
      ok := CanInsertLike(Tables(), postId, userId);
      if ok {
        InsertLikeEffect(Tables(), postId, userId, now);
        likes := likes[PostUser(postId, userId) := Like(postId, userId, now)];
      }
    }

    /** `RemoveLikeAsync`: removes the matching like when there is one. */
    method RemoveLike(postId: string, userId: string)
      requires Valid()
      modifies this
      ensures Valid()
      ensures Tables() == DeleteLike(old(Tables()), postId, userId)
    {
      DeleteLikeKeepsSchema(Tables(), postId, userId);
      if PostUser(postId, userId) in likes {
        likes := likes - {PostUser(postId, userId)};
      } else {
        assert likes - {PostUser(postId, userId)} == likes;
      }
    }

    /** `IsPostLikedByUserAsync`, answered by a key lookup. */
    method IsPostLiked(postId: string, userId: string) returns (liked: bool)
      requires Valid()
      ensures liked <==> IsPostLikedByUser(Tables(), postId, userId)
    {
      LikedIffKeyPresent(Tables(), postId, userId);
      liked := PostUser(postId, userId) in likes;
    }

    /* ---------- UserRepository ---------- */

    /** `GetUserdataById`: the user, or the exception naming the missing id. */
    method GetUserdataById(userId: string) returns (r: Lookup<User>)
      requires Valid()
      ensures r.Found? <==> userId in users
      ensures r.Found? ==> r.value == users[userId] && r.value.id == userId
      ensures r.KeyNotFound? ==> r.message == "User with ID '" + userId + "' not found."
    {
      if userId in users {
        r := Found(users[userId]);
      } else {
        r := KeyNotFound("User with ID '" + userId + "' not found.");
      }
    }

    /** `GetFollowersAsync`: one user per edge into `userId`. */
    method GetFollowers(userId: string) returns (r: seq<User>)
      requires Valid()
      ensures forall v :: v in r <==> v.id in users && users[v.id] == v && IsFollowing(Tables(), v.id, userId)
      ensures forall i, j :: 0 <= i < j < |r| ==> r[i] != r[j]
    {
      r := ListOf(Followers(Tables(), userId));
      forall v ensures v in r <==> v.id in users && users[v.id] == v && IsFollowing(Tables(), v.id, userId) {
        FollowersMeanFollowing(Tables(), userId, v);
      }
    }

    /** `GetFollowingAsync`: one user per edge out of `userId`. */
    method GetFollowing(userId: string) returns (r: seq<User>)
      requires Valid()
      ensures forall v :: v in r <==> v.id in users && users[v.id] == v && IsFollowing(Tables(), userId, v.id)
      ensures forall i, j :: 0 <= i < j < |r| ==> r[i] != r[j]
    {
      r := ListOf(Following(Tables(), userId));
      forall v ensures v in r <==> v.id in users && users[v.id] == v && IsFollowing(Tables(), userId, v.id) {
        FollowersMeanFollowing(Tables(), userId, v);
      }
    }

    /** `AddFollowerAsync`: the edge from `followerUserId` to
        `followedUserId`; no guard against following oneself. */
    method AddFollower(followerUserId: string, followedUserId: string, now: Instant) returns (ok: bool)
      requires Valid()
      modifies this
      ensures Valid()
      ensures ok == CanInsertFollow(old(Tables()), followerUserId, followedUserId)
      ensures Tables() == if ok then InsertFollow(old(Tables()), followerUserId, followedUserId, now) else old(Tables())
    {
      ok := CanInsertFollow(Tables(), followerUserId, followedUserId);
      if ok {
        InsertFollowEffect(Tables(), followerUserId, followedUserId, now);
        follows := follows[FollowEdge(followerUserId, followedUserId) := Follower(followerUserId, followedUserId, now)];
      }
    }

    /** `RemoveFollowerAsync`: removes the edge when there is one. */
    method RemoveFollower(followerUserId: string, followedUserId: string)
      requires Valid()
      modifies this
      ensures Valid()
      ensures Tables() == DeleteFollow(old(Tables()), followerUserId, followedUserId)
    {
      DeleteFollowKeepsSchema(Tables(), followerUserId, followedUserId);
      if FollowEdge(followerUserId, followedUserId) in follows {
        follows := follows - {FollowEdge(followerUserId, followedUserId)};
      } else {
        assert follows - {FollowEdge(followerUserId, followedUserId)} == follows;
      }
    }

    /** `IsFollowingAsync`, answered by a key lookup. */
    method IsFollowingUser(followerUserId: string, followedUserId: string) returns (following: bool)
      requires Valid()
      ensures following <==> IsFollowing(Tables(), followerUserId, followedUserId)
    {
      FollowingIffKeyPresent(Tables(), followerUserId, followedUserId);
      following := FollowEdge(followerUserId, followedUserId) in follows;
    }

    /** `AddSavedPostAsync`. */
    method AddSavedPost(postId: string, userId: string, now: Instant) returns (ok: bool)
      requires Valid()
      modifies this
      ensures Valid()
      ensures ok == CanInsertSaved(old(Tables()), postId, userId)
      ensures Tables() == if ok then InsertSaved(old(Tables()), postId, userId, now) else old(Tables())
    {
      ok := CanInsertSaved(Tables(), postId, userId);
      if ok {
        InsertSavedEffect(Tables(), postId, userId, now);
        var row := NewSavedPost(Some(postId), Some(userId), now).value;
        saved := saved[row.Key() := row];
      }
    }

    /** `RemoveSavedPostAsync`: removes the saved post when there is one. */
    method RemoveSavedPost(postId: string, userId: string)
      requires Valid()
      modifies this
      ensures Valid()
      ensures Tables() == DeleteSaved(old(Tables()), postId, userId)
    {
      DeleteSavedKeepsSchema(Tables(), postId, userId);
      if PostUser(postId, userId) in saved {
        saved := saved - {PostUser(postId, userId)};
      } else {
        assert saved - {PostUser(postId, userId)} == saved;
      }
    }

    /** `IsPostSavedByUserAsync`, answered by a key lookup. */
    method IsPostSaved(postId: string, userId: string) returns (isSaved: bool)
      requires Valid()
      ensures isSaved <==> IsPostSavedByUser(Tables(), postId, userId)
    {
      SavedIffKeyPresent(Tables(), postId, userId);
      isSaved := PostUser(postId, userId) in saved;
    }

    /** `UserManager.UpdateAsync` after the profile edit: the user's bio and
        picture URL are stored. */
    method UpdateProfile(userId: string, bio: Option<string>, picture: Option<string>)
      requires Valid() && userId in users
      modifies this
      ensures Valid()
      ensures Tables() == SetProfile(old(Tables()), userId, bio, picture)
    {
      SetProfileEffect(Tables(), userId, bio, picture);
      users := users[userId := users[userId].(bio := bio, profilePictureUrl := picture)];
    }
  }

  /** Reordering loaded graphs keeps each one a graph of its own post. */
  lemma GraphsSurvivePermutation(db: Db, loaded: seq<PostGraph>, gs: seq<PostGraph>)
    requires multiset(gs) == multiset(loaded)
    requires forall i :: 0 <= i < |loaded| ==> IsGraphOf(db, loaded[i].post.postId, loaded[i])
    ensures forall i :: 0 <= i < |gs| ==> IsGraphOf(db, gs[i].post.postId, gs[i])
  {
    forall i | 0 <= i < |gs| ensures IsGraphOf(db, gs[i].post.postId, gs[i]) {
      assert gs[i] in multiset(loaded);
      var m :| 0 <= m < |loaded| && loaded[m] == gs[i];
    }
  }
}
