/** The decisions of the post controller: which checks run in which order,
    what reaches the store and the upload folder, and what comes back.
    The signed-in user's id and name, the clock, fresh GUIDs and the outcome
    of repository calls the repository does not implement are parameters. */
module PostActions {
  import opened Text
  import opened Entities
  import opened Seqs
  import opened Paths
  import opened SocialGraph
  import opened Repositories
  import opened FileStorage
  import opened ViewModels
  import opened Results

  /** An `IFormFile`: the client's file name and the length of its content. */
  datatype FormFile = FormFile(fileName: string, length: int)

  /** A stored upload: the file written and the image row that refers to it. */
  datatype Upload = Upload(path: string, image: PostImage)

  /* ---------- validating and storing uploads ---------- */

  /** The errors `CreatePost` records before it looks at any file. */
  function CreatePostErrors(content: Option<string>, files: seq<FormFile>): set<string>
  {
    (if IsNullOrWhiteSpace(content) then {"Content"} else {})
    + (if files == [] then {"ImageFiles"} else {})
  }

  /** Each check records its own error, independently of the other. */
  lemma CreatePostErrorsMeaning(content: Option<string>, files: seq<FormFile>)
    ensures var e := CreatePostErrors(content, files);
      && ("Content" in e <==> IsNullOrWhiteSpace(content))
      && ("ImageFiles" in e <==> files == [])
      && e <= {"Content", "ImageFiles"}
      && (e == {} <==> !IsNullOrWhiteSpace(content) && files != [])
  {
  }

  /** Both errors fire together for a blank text and no files. */
  lemma CreatePostBothErrors()
    ensures CreatePostErrors(Some(" "), []) == {"Content", "ImageFiles"}
    ensures CreatePostErrors(None, []) == {"Content", "ImageFiles"}
  {
  }

  /** A file the upload loop refuses: it has content but not an image
      extension. Empty files are skipped, not refused. */
  predicate Refused(f: FormFile, os: Platform)
  {
    f.length > 0 && !IsImageFile(f.fileName, os)
  }

  /** The position of the first refused file, or `|files|` when there is none. */
  function FirstRefused(files: seq<FormFile>, os: Platform): (k: nat)
    ensures k <= |files|
    ensures forall i :: 0 <= i < k ==> !Refused(files[i], os)
    ensures k < |files| ==> Refused(files[k], os)
  {
    if files == [] then 0
    else if Refused(files[0], os) then 0
    else 1 + FirstRefused(files[1..], os)
  }

  /** The first refused file is the only index with no refused file before
      it and a refused file at it. */
  lemma FirstRefusedUnique(files: seq<FormFile>, os: Platform, i: nat)
    requires i < |files| && Refused(files[i], os)
    requires forall j :: 0 <= j < i ==> !Refused(files[j], os)
    ensures FirstRefused(files, os) == i
  {
  }

  /** A file that is not refused is passed over by the search. */
  lemma FirstRefusedPast(files: seq<FormFile>, os: Platform, i: nat)
    requires i < |files| && i <= FirstRefused(files, os) && !Refused(files[i], os)
    ensures i + 1 <= FirstRefused(files, os)
  {
  }

  /** What one accepted file becomes: `{guid}_{GetFileName(name)}` written
      under `uploads`, and an image row with the URL `/uploads/{fileName}`. */
  function UploadOf(file: FormFile, guid: string, imageId: string, postId: string,
                    webRoot: string, os: Platform, now: Instant): Upload
  {
    var fileName := UploadFileName(guid, file.fileName, os);
    Upload(PostImageFilePath(webRoot, fileName, os), PostImage(imageId, postId, PostImageUrl(fileName), now))
  }

  /** The uploads made for `files`, in order, skipping the empty ones. The
      i-th file gets the i-th fresh GUID and image id. */
  function Uploads(files: seq<FormFile>, guids: seq<string>, imageIds: seq<string>, postId: string,
                   webRoot: string, os: Platform, now: Instant): seq<Upload>
    requires |guids| == |files| && |imageIds| == |files|
    decreases |files|
  {
    if files == [] then []
    else
      var n := |files| - 1;
      var before := Uploads(files[..n], guids[..n], imageIds[..n], postId, webRoot, os, now);
      if files[n].length > 0 then before + [UploadOf(files[n], guids[n], imageIds[n], postId, webRoot, os, now)]
      else before
  }

  function WrittenPaths(ups: seq<Upload>): set<string>
  {
    set u | u in ups :: u.path
  }

  lemma WrittenPathsSnoc(ups: seq<Upload>, u: Upload)
    ensures WrittenPaths(ups + [u]) == WrittenPaths(ups) + {u.path}
  {
    forall p | p in WrittenPaths(ups + [u]) ensures p in WrittenPaths(ups) + {u.path} {
      var v :| v in ups + [u] && v.path == p;
      if v != u { assert v in ups; }
    }
  }

  function NewImages(ups: seq<Upload>): seq<PostImage>
  {
    Map(ups, (u: Upload) => u.image)
  }

  /** The files `DeleteImageFile` removes for a set of image rows. */
  function DeletedPaths(imgs: set<PostImage>, webRoot: string, os: Platform): set<string>
  {
    MapSet(imgs, (x: PostImage) => UrlToFilePath(webRoot, x.imageUrl, os))
  }

  lemma DeletedPathsAdd(imgs: set<PostImage>, x: PostImage, webRoot: string, os: Platform)
    ensures DeletedPaths(imgs + {x}, webRoot, os) == DeletedPaths(imgs, webRoot, os) + {UrlToFilePath(webRoot, x.imageUrl, os)}
  {
    MapSetAdd(imgs, x, (y: PostImage) => UrlToFilePath(webRoot, y.imageUrl, os));
  }

  lemma DeletedPathsPrefix(imgs: seq<PostImage>, i: nat, webRoot: string, os: Platform)
    requires i < |imgs|
    ensures DeletedPaths(Elems(imgs[..i + 1]), webRoot, os)
            == DeletedPaths(Elems(imgs[..i]), webRoot, os) + {UrlToFilePath(webRoot, imgs[i].imageUrl, os)}
  {
    assert imgs[..i + 1] == imgs[..i] + [imgs[i]];
    ElemsSnoc(imgs[..i], imgs[i]);
    DeletedPathsAdd(Elems(imgs[..i]), imgs[i], webRoot, os);
  }

  /** The ids of a post's image rows. */
  function ImageIdsOf(db: Db, postId: string): set<string>
  {
    set x | x in ImagesOf(db, postId) :: x.imageId
  }

  /** A GUID string: non-empty and without a path separator. */
  predicate GuidLike(g: string, os: Platform)
  {
    g != [] && forall k :: 0 <= k < |g| ==> !IsSep(g[k], os)
  }

  /** A stored upload belongs to its post and its URL leads back to its file. */
  predicate Traceable(u: Upload, postId: string, webRoot: string, os: Platform)
  {
    u.image.postId == postId && UrlToFilePath(webRoot, u.image.imageUrl, os) == u.path
  }

  lemma UploadOfTraceable(file: FormFile, guid: string, imageId: string, postId: string,
                          webRoot: string, os: Platform, now: Instant)
    requires GuidLike(guid, os)
    ensures Traceable(UploadOf(file, guid, imageId, postId, webRoot, os, now), postId, webRoot, os)
  {
    UploadRoundTrip(webRoot, guid, file.fileName, os);
  }

  /** Adding one more file adds at most its own upload. */
  lemma UploadsStep(files: seq<FormFile>, guids: seq<string>, imageIds: seq<string>, i: nat,
                    postId: string, webRoot: string, os: Platform, now: Instant)
    requires |guids| == |files| && |imageIds| == |files| && i < |files|
    ensures Uploads(files[..i + 1], guids[..i + 1], imageIds[..i + 1], postId, webRoot, os, now)
         == Uploads(files[..i], guids[..i], imageIds[..i], postId, webRoot, os, now)
            + (if files[i].length > 0 then [UploadOf(files[i], guids[i], imageIds[i], postId, webRoot, os, now)] else [])
  {
    assert files[..i + 1][..i] == files[..i];
    assert guids[..i + 1][..i] == guids[..i];
    assert imageIds[..i + 1][..i] == imageIds[..i];
  }

  /** The uploads for all files are those for all but the last, then the
      last file's own upload when it has content. */
  lemma UploadsLast(files: seq<FormFile>, guids: seq<string>, imageIds: seq<string>,
                    postId: string, webRoot: string, os: Platform, now: Instant)
    requires |guids| == |files| && |imageIds| == |files| && files != []
    ensures var n := |files| - 1;
      Uploads(files, guids, imageIds, postId, webRoot, os, now)
      == Uploads(files[..n], guids[..n], imageIds[..n], postId, webRoot, os, now)
         + (if files[n].length > 0 then [UploadOf(files[n], guids[n], imageIds[n], postId, webRoot, os, now)] else [])
  {
  }

  lemma AllTraceableAppend(a: seq<Upload>, b: seq<Upload>, postId: string, webRoot: string, os: Platform)
    requires forall u :: u in a ==> Traceable(u, postId, webRoot, os)
    requires forall u :: u in b ==> Traceable(u, postId, webRoot, os)
    ensures forall u :: u in a + b ==> Traceable(u, postId, webRoot, os)
  {
  }

  /** Every stored image row points at the post it was made for and its URL
      leads `DeleteImageFile` back to the very file that was written. */
  lemma {:induction false} UploadsRoundTrip(files: seq<FormFile>, guids: seq<string>, imageIds: seq<string>,
                                            postId: string, webRoot: string, os: Platform, now: Instant)
    requires |guids| == |files| && |imageIds| == |files|
    requires forall i :: 0 <= i < |guids| ==> GuidLike(guids[i], os)
    ensures forall u :: u in Uploads(files, guids, imageIds, postId, webRoot, os, now) ==> Traceable(u, postId, webRoot, os)
    decreases |files|
  {
    if files != [] {
      var n := |files| - 1;
      UploadsRoundTrip(files[..n], guids[..n], imageIds[..n], postId, webRoot, os, now);
      UploadsLast(files, guids, imageIds, postId, webRoot, os, now);
      if files[n].length > 0 {
        UploadOfTraceable(files[n], guids[n], imageIds[n], postId, webRoot, os, now);
      }
      AllTraceableAppend(Uploads(files[..n], guids[..n], imageIds[..n], postId, webRoot, os, now),
        if files[n].length > 0 then [UploadOf(files[n], guids[n], imageIds[n], postId, webRoot, os, now)] else [],
        postId, webRoot, os);
    }
  }

  /** Empty files produce nothing: with only empty files, nothing is
      uploaded. */
  lemma {:induction false} EmptyFilesSkipped(files: seq<FormFile>, guids: seq<string>, imageIds: seq<string>,
                                             postId: string, webRoot: string, os: Platform, now: Instant)
    requires |guids| == |files| && |imageIds| == |files|
    requires forall i :: 0 <= i < |files| ==> files[i].length <= 0
    ensures Uploads(files, guids, imageIds, postId, webRoot, os, now) == []
    decreases |files|
  {
    if files != [] {
      var n := |files| - 1;
      EmptyFilesSkipped(files[..n], guids[..n], imageIds[..n], postId, webRoot, os, now);
    }
  }

  /** One upload per non-empty file, never more than there are files. */
  lemma {:induction false} UploadsCount(files: seq<FormFile>, guids: seq<string>, imageIds: seq<string>,
                                        postId: string, webRoot: string, os: Platform, now: Instant)
    requires |guids| == |files| && |imageIds| == |files|
    ensures |Uploads(files, guids, imageIds, postId, webRoot, os, now)| == NonEmptyCount(files) <= |files|
    decreases |files|
  {
    if files != [] {
      var n := |files| - 1;
      UploadsCount(files[..n], guids[..n], imageIds[..n], postId, webRoot, os, now);
    }
  }

  function NonEmptyCount(files: seq<FormFile>): nat
    decreases |files|
  {
    if files == [] then 0
    else NonEmptyCount(files[..|files| - 1]) + (if files[|files| - 1].length > 0 then 1 else 0)
  }

  /** The example from the controller tests: a `.txt` file is refused. */
  lemma TextFileRefused(os: Platform)
    ensures Refused(FormFile("notes.txt", 10), os)
  {
    var name := "notes.txt";
    assert name[|name| - 1] == 't';
    LastCharMismatch(name, ".jpg");
    LastCharMismatch(name, ".jpeg");
    LastCharMismatch(name, ".png");
    IsImageFileIff(name, os);
  }

  /* ---------- the controller ---------- */

  class PostController {
    const store: Store
    const disk: FileStore

    constructor (store: Store, disk: FileStore)
      ensures this.store == store && this.disk == disk
    {
      this.store, this.disk := store, disk;
    }

    /** The upload loop of `CreatePost` and `EditPost`: empty files are
        skipped; each other file is checked, written, and turned into an
        image row, until a refused file stops the loop. */
    method SaveUploads(files: seq<FormFile>, guids: seq<string>, imageIds: seq<string>, postId: string, now: Instant)
      returns (ups: seq<Upload>, accepted: bool)
      requires |guids| == |files| && |imageIds| == |files|
      modifies disk
      ensures accepted <==> FirstRefused(files, disk.os) == |files|
      ensures var k := FirstRefused(files, disk.os);
        ups == Uploads(files[..k], guids[..k], imageIds[..k], postId, disk.webRoot, disk.os, now)
      ensures disk.files == old(disk.files) + WrittenPaths(ups)
    {
      ghost var k := FirstRefused(files, disk.os);
      ups := [];
      var i := 0;
      while i < |files|
        invariant i <= k
        invariant ups == Uploads(files[..i], guids[..i], imageIds[..i], postId, disk.webRoot, disk.os, now)
        invariant disk.files == old(disk.files) + WrittenPaths(ups)
      {
        if Refused(files[i], disk.os) {
          assert k == i;
          return ups, false;
        }
        FirstRefusedPast(files, disk.os, i);
        ups := SaveNext(files, guids, imageIds, i, postId, now, ups, old(disk.files));
        i := i + 1;
      }
      assert files[..i] == files && guids[..i] == guids && imageIds[..i] == imageIds;
      accepted := true;
    }

    /** Writes one accepted file under `uploads` and returns its image row. */
    method SaveUpload(file: FormFile, guid: string, imageId: string, postId: string, now: Instant) returns (u: Upload)
      modifies disk
      ensures u == UploadOf(file, guid, imageId, postId, disk.webRoot, disk.os, now)
      ensures disk.files == old(disk.files) + {u.path}
    {
      u := UploadOf(file, guid, imageId, postId, disk.webRoot, disk.os, now);
      disk.Write(u.path);
    }

    /** One step of the upload loop, for a file that is not refused. */
    method SaveNext(files: seq<FormFile>, guids: seq<string>, imageIds: seq<string>, i: nat, postId: string,
                    now: Instant, ups: seq<Upload>, ghost base: set<string>)
      returns (next: seq<Upload>)
      requires |guids| == |files| && |imageIds| == |files| && i < |files|
      requires ups == Uploads(files[..i], guids[..i], imageIds[..i], postId, disk.webRoot, disk.os, now)
      requires disk.files == base + WrittenPaths(ups)
      modifies disk
      ensures next == Uploads(files[..i + 1], guids[..i + 1], imageIds[..i + 1], postId, disk.webRoot, disk.os, now)
      ensures disk.files == base + WrittenPaths(next)
    {
      UploadsStep(files, guids, imageIds, i, postId, disk.webRoot, disk.os, now);
      if files[i].length > 0 {
        var u := SaveUpload(files[i], guids[i], imageIds[i], postId, now);
        WrittenPathsSnoc(ups, u);
        next := ups + [u];
      } else {
        next := ups;
        assert ups + [] == ups;
      }
    }

    /** `GetPostViewModelById`: the card of the post, or null when there is
        no such post. */
    method GetPostViewModelById(postId: string, homeFeed: bool, viewer: Option<string>, now: Instant)
      returns (m: Option<PostViewModel>)
      requires store.Valid()
      ensures m.None? <==> postId !in store.posts
      ensures m.Some? ==> CardOf(store.Tables(), postId, viewer, homeFeed, now, PostLabels, m.value)
    {
      var g := store.GetPostById(postId);
      if g.None? {
        return None;
      }
      PostViewMeaning(store.Tables(), postId, g.value, viewer, homeFeed, now, PostLabels);
      m := Some(PostView(g.value, viewer, homeFeed, now, PostLabels));
    }

    /** `CreatePost` (POST). The post is built by the three-argument
        constructor with an empty title. */
    method CreatePost(content: Option<string>, imageFiles: seq<FormFile>, userId: Option<string>,
                      userName: Option<string>, freshPostId: string, guids: seq<string>,
                      imageIds: seq<string>, now: Instant)
      returns (r: ActionResult)
      requires store.Valid()
      requires |guids| == |imageFiles| && |imageIds| == |imageFiles|
      modifies store, disk
      ensures store.Valid()
      ensures CreatePostErrors(content, imageFiles) != {} ==>
        r == FormPage(CreatePostErrors(content, imageFiles))
        && store.Tables() == old(store.Tables()) && disk.files == old(disk.files)
      ensures CreatePostErrors(content, imageFiles) == {} && userId.None? ==>
        r == ServerError && store.Tables() == old(store.Tables()) && disk.files == old(disk.files)
      ensures CreatePostErrors(content, imageFiles) == {} && userId.Some? ==>
        var k := FirstRefused(imageFiles, disk.os);
        var ups := Uploads(imageFiles[..k], guids[..k], imageIds[..k], freshPostId, disk.webRoot, disk.os, now);
        var post := Post(freshPostId, userId.value, content.value, "", now);
        && disk.files == old(disk.files) + WrittenPaths(ups)
        && (k < |imageFiles| ==> r == FormPage({"ImageFiles"}) && store.Tables() == old(store.Tables()))
        && (k == |imageFiles| ==>
              var ok := CanInsertPost(old(store.Tables()), post, NewImages(ups));
              && store.Tables() == (if ok then InsertPost(old(store.Tables()), post, NewImages(ups)) else old(store.Tables()))
              && r == (if ok then RedirectToProfile(userName) else FormPage({})))
    {
      var errors := CreatePostErrors(content, imageFiles);
      if errors != {} {
        return FormPage(errors);
      }
      var built := NewPost(userId, content, Some(""), freshPostId, now);
      if built.ArgumentNull? {
        return ServerError;
      }
      var post := built.value;
      var ups, accepted := SaveUploads(imageFiles, guids, imageIds, post.postId, now);
      if !accepted {
        return FormPage({"ImageFiles"});
      }
      assert imageFiles[..|imageFiles|] == imageFiles;
      var ok := store.AddPost(post, NewImages(ups));
      if !ok {
        return FormPage({});
      }
      r := RedirectToProfile(userName);
    }

    /** `ToggleLike`: unauthenticated first, then a missing post; otherwise
        the like is added when the user has none on the post, and removed
        when they have one. A like the database refuses is an exception. */
    method ToggleLike(postId: string, homeFeed: bool, userId: Option<string>, now: Instant) returns (r: ActionResult)
      requires store.Valid()
      modifies store
      ensures store.Valid()
      ensures IsNullOrWhiteSpace(userId) ==> r == Unauthorized && store.Tables() == old(store.Tables())
      ensures !IsNullOrWhiteSpace(userId) && postId !in old(store.posts) ==>
        r == NotFound && store.Tables() == old(store.Tables())
      ensures !IsNullOrWhiteSpace(userId) && postId in old(store.posts) ==>
        var before := old(store.Tables());
        if IsPostLikedByUser(before, postId, userId.value) then
          store.Tables() == DeleteLike(before, postId, userId.value) && r.PostPartial?
        else if CanInsertLike(before, postId, userId.value) then
          store.Tables() == InsertLike(before, postId, userId.value, now) && r.PostPartial?
        else
          store.Tables() == before && r == ServerError
      ensures r.PostPartial? ==>
        (IsPostLikedByUser(store.Tables(), postId, userId.value) <==> !IsPostLikedByUser(old(store.Tables()), postId, userId.value))
        && r.card.Some? && CardOf(store.Tables(), postId, userId, homeFeed, now, PostLabels, r.card.value)
    {
      if IsNullOrWhiteSpace(userId) {
        return Unauthorized;
      }
      var uid := userId.value;
      ghost var before := store.Tables();
      var loaded := store.GetPostById(postId);
      if loaded.None? {
        return NotFound;
      }
      MarkersOfPost(before, postId, uid);
      if !exists l :: l in loaded.value.likes && l.userId == uid {
        var ok := store.AddLike(postId, uid, now);
        if !ok {
          return ServerError;
        }
        InsertLikeEffect(before, postId, uid, now);
      } else {
        store.RemoveLike(postId, uid);
        DeleteLikeEffect(before, postId, uid);
      }
      var card := GetPostViewModelById(postId, homeFeed, userId, now);
      r := PostPartial(card);
    }

    /** `ToggleSave`: the same flow over saved posts. */
    method ToggleSave(postId: string, homeFeed: bool, userId: Option<string>, now: Instant) returns (r: ActionResult)
      requires store.Valid()
      modifies store
      ensures store.Valid()
      ensures IsNullOrWhiteSpace(userId) ==> r == Unauthorized && store.Tables() == old(store.Tables())
      ensures !IsNullOrWhiteSpace(userId) && postId !in old(store.posts) ==>
        r == NotFound && store.Tables() == old(store.Tables())
      ensures !IsNullOrWhiteSpace(userId) && postId in old(store.posts) ==>
        var before := old(store.Tables());
        if IsPostSavedByUser(before, postId, userId.value) then
          store.Tables() == DeleteSaved(before, postId, userId.value) && r.PostPartial?
        else if CanInsertSaved(before, postId, userId.value) then
          store.Tables() == InsertSaved(before, postId, userId.value, now) && r.PostPartial?
        else
          store.Tables() == before && r == ServerError
      ensures r.PostPartial? ==>
        (IsPostSavedByUser(store.Tables(), postId, userId.value) <==> !IsPostSavedByUser(old(store.Tables()), postId, userId.value))
        && r.card.Some? && CardOf(store.Tables(), postId, userId, homeFeed, now, PostLabels, r.card.value)
    {
      if IsNullOrWhiteSpace(userId) {
        return Unauthorized;
      }
      var uid := userId.value;
      ghost var before := store.Tables();
      var loaded := store.GetPostById(postId);
      if loaded.None? {
        return NotFound;
      }
      MarkersOfPost(before, postId, uid);
      if !exists s :: s in loaded.value.saved && s.userId == uid {
        var ok := store.AddSavedPost(postId, uid, now);
        if !ok {
          return ServerError;
        }
        InsertSavedEffect(before, postId, uid, now);
      } else {
        store.RemoveSavedPost(postId, uid);
        DeleteSavedEffect(before, postId, uid);
      }
      var card := GetPostViewModelById(postId, homeFeed, userId, now);
      r := PostPartial(card);
    }

    /** `EditPost` (GET): unauthenticated, then missing, then not the
        owner's; otherwise the form holds the post's text and images. */
    method EditPostForm(postId: string, userId: Option<string>) returns (r: ActionResult)
      requires store.Valid()
      ensures IsNullOrEmpty(userId) ==> r == Unauthorized
      ensures !IsNullOrEmpty(userId) && postId !in store.posts ==> r == NotFound
      ensures !IsNullOrEmpty(userId) && postId in store.posts && store.posts[postId].userId != userId.value ==> r == Forbid
      ensures !IsNullOrEmpty(userId) && postId in store.posts && store.posts[postId].userId == userId.value ==>
        r.EditPostPage? && r.form.postId == postId && r.form.content == store.posts[postId].content
        && Lists(r.form.images, ImagesOf(store.Tables(), postId))
    {
      if IsNullOrEmpty(userId) {
        return Unauthorized;
      }
      var loaded := store.GetPostById(postId);
      if loaded.None? {
        return NotFound;
      }
      var g := loaded.value;
      if g.post.userId != userId.value {
        return Forbid;
      }
      r := EditPostPage(EditPostViewModel(g.post.postId, g.post.content, g.images));
    }

    /** Deletes the files of the given images, in order. */
    method DeleteImageFiles(imgs: seq<PostImage>)
      modifies disk
      ensures disk.files == old(disk.files) - DeletedPaths(Elems(imgs), disk.webRoot, disk.os)
    {
      var i := 0;
      while i < |imgs|
        invariant i <= |imgs|
        invariant disk.files == old(disk.files) - DeletedPaths(Elems(imgs[..i]), disk.webRoot, disk.os)
      {
        DeleteNext(imgs, i, old(disk.files));
        i := i + 1;
      }
      assert imgs[..i] == imgs;
    }

    /** One step of the deletion loop. */
    method DeleteNext(imgs: seq<PostImage>, i: nat, ghost base: set<string>)
      requires i < |imgs|
      requires disk.files == base - DeletedPaths(Elems(imgs[..i]), disk.webRoot, disk.os)
      modifies disk
      ensures disk.files == base - DeletedPaths(Elems(imgs[..i + 1]), disk.webRoot, disk.os)
    {
      DeletedPathsPrefix(imgs, i, disk.webRoot, disk.os);
      disk.DeleteImageFile(imgs[i].imageUrl);
    }

    /** `EditPost` (POST) as written. With new files it deletes every old
        image file first and only then checks the new files, so a refused
        file leaves the post pointing at images whose files are gone. There
        is no ownership check. */
    method EditPost(postId: string, content: Option<string>, imageFiles: Option<seq<FormFile>>,
                    userId: Option<string>, userName: Option<string>, guids: seq<string>,
                    imageIds: seq<string>, now: Instant)
      returns (r: ActionResult)
      requires store.Valid()
      requires imageFiles.Some? ==> |guids| == |imageFiles.value| && |imageIds| == |imageFiles.value|
      modifies store, disk
      ensures store.Valid()
      ensures IsNullOrEmpty(userId) ==> r == Unauthorized && store.Tables() == old(store.Tables()) && disk.files == old(disk.files)
      ensures !IsNullOrEmpty(userId) && IsNullOrWhiteSpace(content) ==>
        r == RedirectToEditPost(postId) && store.Tables() == old(store.Tables()) && disk.files == old(disk.files)
      ensures !IsNullOrEmpty(userId) && !IsNullOrWhiteSpace(content) && postId !in old(store.posts) ==>
        r == NotFound && store.Tables() == old(store.Tables()) && disk.files == old(disk.files)
      ensures !IsNullOrEmpty(userId) && !IsNullOrWhiteSpace(content) && postId in old(store.posts) ==>
        var before := old(store.Tables());
        var post := before.posts[postId].(content := content.value);
        var replacing := imageFiles.Some? && imageFiles.value != [];
        if !replacing then
          var ok := CanUpdatePost(before, post, []);
          && disk.files == old(disk.files)
          && store.Tables() == (if ok then SocialGraph.UpdatePost(before, post, {}, []) else before)
          && r == (if ok then RedirectToProfile(userName) else RedirectToEditPost(postId))
        else
          var files := imageFiles.value;
          var k := FirstRefused(files, disk.os);
          var ups := Uploads(files[..k], guids[..k], imageIds[..k], postId, disk.webRoot, disk.os, now);
          && disk.files == old(disk.files) - DeletedPaths(ImagesOf(before, postId), disk.webRoot, disk.os) + WrittenPaths(ups)
          && (k < |files| ==> r == RedirectToEditPost(postId) && store.Tables() == before)
          && (k == |files| ==>
                var ok := CanUpdatePost(before, post, NewImages(ups));
                && store.Tables() == (if ok then SocialGraph.UpdatePost(before, post, ImageIdsOf(before, postId), NewImages(ups)) else before)
                && r == (if ok then RedirectToProfile(userName) else RedirectToEditPost(postId)))
    {
      if IsNullOrEmpty(userId) {
        return Unauthorized;
      }
      if IsNullOrWhiteSpace(content) {
        return RedirectToEditPost(postId);
      }
      ghost var before := store.Tables();
      var loaded := store.GetPostById(postId);
      if loaded.None? {
        return NotFound;
      }
      var g := loaded.value;
      var post := g.post.(content := content.value);
      var toDelete: seq<PostImage> := [];
      var toAdd: seq<PostImage> := [];
      if imageFiles.Some? && imageFiles.value != [] {
        DeleteImageFiles(g.images);
        toDelete := g.images;
        var ups, accepted := SaveUploads(imageFiles.value, guids, imageIds, postId, now);
        if !accepted {
          return RedirectToEditPost(postId);
        }
        assert imageFiles.value[..|imageFiles.value|] == imageFiles.value;
        toAdd := NewImages(ups);
        assert ImageIds(toDelete) == ImageIdsOf(before, postId);
      } else {
        assert ImageIds(toDelete) == {};
      }
      var ok := store.UpdatePost(post, toDelete, toAdd);
      if !ok {
        return RedirectToEditPost(postId);
      }
      r := RedirectToProfile(userName);
    }

    /** `EditPost` (POST) with the checks first: every new file is checked
        before anything is written or deleted, and the old image files are
        deleted only once the update has been stored. */
    method EditPostValidated(postId: string, content: Option<string>, imageFiles: Option<seq<FormFile>>,
                             userId: Option<string>, userName: Option<string>, guids: seq<string>,
                             imageIds: seq<string>, now: Instant)
      returns (r: ActionResult)
      requires store.Valid()
      requires imageFiles.Some? ==> |guids| == |imageFiles.value| && |imageIds| == |imageFiles.value|
      modifies store, disk
      ensures store.Valid()
      ensures r != RedirectToProfile(userName) ==> store.Tables() == old(store.Tables())
      ensures r != RedirectToProfile(userName) ==> old(disk.files) <= disk.files
      ensures imageFiles.Some? && FirstRefused(imageFiles.value, disk.os) < |imageFiles.value| ==>
        store.Tables() == old(store.Tables()) && disk.files == old(disk.files)
      ensures (imageFiles.Some? && FirstRefused(imageFiles.value, disk.os) < |imageFiles.value|
               && ImagesHaveFiles(old(store.Tables()), old(disk.files), disk.webRoot, disk.os)) ==>
        ImagesHaveFiles(store.Tables(), disk.files, disk.webRoot, disk.os)
      ensures !IsNullOrEmpty(userId) && !IsNullOrWhiteSpace(content) && postId in old(store.posts) ==>
        var before := old(store.Tables());
        var post := before.posts[postId].(content := content.value);
        var replacing := imageFiles.Some? && imageFiles.value != [];
        if !replacing then
          var ok := CanUpdatePost(before, post, []);
          && disk.files == old(disk.files)
          && store.Tables() == (if ok then SocialGraph.UpdatePost(before, post, {}, []) else before)
          && r == (if ok then RedirectToProfile(userName) else RedirectToEditPost(postId))
        else
          var files := imageFiles.value;
          var ups := Uploads(files, guids, imageIds, postId, disk.webRoot, disk.os, now);
          FirstRefused(files, disk.os) == |files| ==>
            var ok := CanUpdatePost(before, post, NewImages(ups));
            && store.Tables() == (if ok then SocialGraph.UpdatePost(before, post, ImageIdsOf(before, postId), NewImages(ups)) else before)
            && disk.files == (if ok then old(disk.files) + WrittenPaths(ups) - DeletedPaths(ImagesOf(before, postId), disk.webRoot, disk.os)
                              else old(disk.files) + WrittenPaths(ups))
            && r == (if ok then RedirectToProfile(userName) else RedirectToEditPost(postId))
    {
      if IsNullOrEmpty(userId) {
        return Unauthorized;
      }
      if IsNullOrWhiteSpace(content) {
        return RedirectToEditPost(postId);
      }
      ghost var before := store.Tables();
      var loaded := store.GetPostById(postId);
      if loaded.None? {
        return NotFound;
      }
      var g := loaded.value;
      var post := g.post.(content := content.value);
      var replacing := imageFiles.Some? && imageFiles.value != [];
      if replacing && FirstRefused(imageFiles.value, disk.os) < |imageFiles.value| {
        return RedirectToEditPost(postId);
      }
      if replacing {
        assert Elems(g.images) == ImagesOf(before, postId);
        assert ImageIds(g.images) == ImageIdsOf(before, postId);
        var ok := ReplaceImages(post, g.images, imageFiles.value, guids, imageIds, now);
        r := if ok then RedirectToProfile(userName) else RedirectToEditPost(postId);
      } else {
        assert ImageIds([]) == {};
        var ok := store.UpdatePost(post, [], []);
        r := if ok then RedirectToProfile(userName) else RedirectToEditPost(postId);
      }
    }

    /** The corrected image exchange: the new files, all already checked,
        are written; the update is stored; and only when it was accepted
        are the old files deleted. */
    method ReplaceImages(post: Post, oldImages: seq<PostImage>, files: seq<FormFile>, guids: seq<string>,
                         imageIds: seq<string>, now: Instant)
      returns (ok: bool)
      requires store.Valid()
      requires |guids| == |files| && |imageIds| == |files|
      requires FirstRefused(files, disk.os) == |files|
      modifies store, disk
      ensures store.Valid()
      ensures var ups := Uploads(files, guids, imageIds, post.postId, disk.webRoot, disk.os, now);
        && ok == CanUpdatePost(old(store.Tables()), post, NewImages(ups))
        && store.Tables() == (if ok then SocialGraph.UpdatePost(old(store.Tables()), post, ImageIds(oldImages), NewImages(ups))
                              else old(store.Tables()))
        && disk.files == (if ok then old(disk.files) + WrittenPaths(ups) - DeletedPaths(Elems(oldImages), disk.webRoot, disk.os)
                          else old(disk.files) + WrittenPaths(ups))
    {
      var ups, accepted := SaveUploads(files, guids, imageIds, post.postId, now);
      assert files[..|files|] == files && guids[..|files|] == guids && imageIds[..|files|] == imageIds;
      ok := store.UpdatePost(post, oldImages, NewImages(ups));
      if ok {
        DeleteImageFiles(oldImages);
      }
    }

    /** `AddComment`: unauthenticated first; a blank comment shows the card
        again unchanged; a comment the database refuses is a bad request. */
    method AddComment(postId: string, content: Option<string>, homeFeed: bool, userId: Option<string>,
                      commentId: string, now: Instant)
      returns (r: ActionResult)
      requires store.Valid()
      modifies store
      ensures store.Valid()
      ensures IsNullOrWhiteSpace(userId) ==> r == Unauthorized && store.Tables() == old(store.Tables())
      ensures !IsNullOrWhiteSpace(userId) && IsNullOrWhiteSpace(content) ==>
        && r.PostPartial? && (r.card.None? <==> postId !in store.posts) && store.Tables() == old(store.Tables())
        && (r.card.Some? ==> CardOf(store.Tables(), postId, userId, homeFeed, now, PostLabels, r.card.value))
      ensures !IsNullOrWhiteSpace(userId) && !IsNullOrWhiteSpace(content) ==>
        var c := Comment(commentId, postId, userId.value, content.value, now);
        var ok := CanInsertComment(old(store.Tables()), c);
        && store.Tables() == (if ok then InsertComment(old(store.Tables()), c) else old(store.Tables()))
        && (ok ==> r.PostPartial? && r.card.Some? && CardOf(store.Tables(), postId, userId, homeFeed, now, PostLabels, r.card.value))
        && (!ok ==> r == BadRequest)
    {
      if IsNullOrWhiteSpace(userId) {
        return Unauthorized;
      }
      if IsNullOrWhiteSpace(content) {
        var card := GetPostViewModelById(postId, homeFeed, userId, now);
        return PostPartial(card);
      }
      var c := Comment(commentId, postId, userId.value, content.value, now);
      var ok := store.AddComment(c);
      if !ok {
        return BadRequest;
      }
      var card := GetPostViewModelById(postId, homeFeed, userId, now);
      r := PostPartial(card);
    }

    /** `DeleteComment`: unauthenticated first; otherwise the repository
        removes the comment with that id, whoever wrote it, unless it
        reports a failure (`fault`). */
    method DeleteComment(postId: string, commentId: string, homeFeed: bool, userId: Option<string>,
                         fault: bool, now: Instant)
      returns (r: ActionResult)
      requires store.Valid()
      modifies store
      ensures store.Valid()
      ensures IsNullOrWhiteSpace(userId) ==> r == Unauthorized && store.Tables() == old(store.Tables())
      ensures !IsNullOrWhiteSpace(userId) && fault ==> r == BadRequest && store.Tables() == old(store.Tables())
      ensures !IsNullOrWhiteSpace(userId) && !fault ==>
        store.Tables() == SocialGraph.DeleteComment(old(store.Tables()), commentId)
        && (forall c :: c in store.comments.Values ==> c.commentId != commentId)
        && r.PostPartial? && (r.card.None? <==> postId !in store.posts)
        && (r.card.Some? ==> CardOf(store.Tables(), postId, userId, homeFeed, now, PostLabels, r.card.value))
    {
      if IsNullOrWhiteSpace(userId) {
        return Unauthorized;
      }
      if fault {
        return BadRequest;
      }
      DeleteCommentEffect(store.Tables(), commentId);
      store.DeleteComment(commentId);
      var card := GetPostViewModelById(postId, homeFeed, userId, now);
      r := PostPartial(card);
    }

    /** `EditComment`: unauthenticated, then blank text, then a failure the
        repository reports (`fault`); otherwise the comment gets the new
        text, whoever wrote it. */
    method EditComment(postId: string, commentId: string, content: Option<string>, homeFeed: bool,
                       userId: Option<string>, fault: bool, now: Instant)
      returns (r: ActionResult)
      requires store.Valid()
      modifies store
      ensures store.Valid()
      ensures IsNullOrWhiteSpace(userId) ==> r == Unauthorized && store.Tables() == old(store.Tables())
      ensures !IsNullOrWhiteSpace(userId) && IsNullOrWhiteSpace(content) ==>
        r == InvalidRequest({"Content"}) && store.Tables() == old(store.Tables())
      ensures !IsNullOrWhiteSpace(userId) && !IsNullOrWhiteSpace(content) && fault ==>
        r == BadRequest && store.Tables() == old(store.Tables())
      ensures !IsNullOrWhiteSpace(userId) && !IsNullOrWhiteSpace(content) && !fault ==>
        store.Tables() == SocialGraph.EditComment(old(store.Tables()), commentId, content.value)
        && (commentId in store.comments ==> store.comments[commentId].content == content.value)
        && r.PostPartial? && (r.card.None? <==> postId !in store.posts)
        && (r.card.Some? ==> CardOf(store.Tables(), postId, userId, homeFeed, now, PostLabels, r.card.value))
    {
      if IsNullOrWhiteSpace(userId) {
        return Unauthorized;
      }
      if IsNullOrWhiteSpace(content) {
        return InvalidRequest({"Content"});
      }
      if fault {
        return BadRequest;
      }
      store.EditComment(commentId, content.value);
      var card := GetPostViewModelById(postId, homeFeed, userId, now);
      r := PostPartial(card);
    }

    /** `DeletePost`: unauthenticated, then missing, then not the owner's;
        the image files are deleted before the repository is asked to
        delete the post, so a failure there (`fault`) leaves the post
        without its files. */
    method DeletePost(postId: string, homeFeed: bool, userId: Option<string>, userName: Option<string>, fault: bool)
      returns (r: ActionResult)
      requires store.Valid()
      modifies store, disk
      ensures store.Valid()
      ensures IsNullOrEmpty(userId) ==>
        r == Unauthorized && store.Tables() == old(store.Tables()) && disk.files == old(disk.files)
      ensures !IsNullOrEmpty(userId) && postId !in old(store.posts) ==>
        r == NotFound && store.Tables() == old(store.Tables()) && disk.files == old(disk.files)
      ensures !IsNullOrEmpty(userId) && postId in old(store.posts) && old(store.posts)[postId].userId != userId.value ==>
        r == Forbid && store.Tables() == old(store.Tables()) && disk.files == old(disk.files)
      ensures !IsNullOrEmpty(userId) && postId in old(store.posts) && old(store.posts)[postId].userId == userId.value ==>
        && disk.files == old(disk.files) - DeletedPaths(ImagesOf(old(store.Tables()), postId), disk.webRoot, disk.os)
        && store.Tables() == (if fault then old(store.Tables()) else SocialGraph.DeletePost(old(store.Tables()), postId))
        && r == (if fault then BadRequest else if homeFeed then RedirectToHome else RedirectToProfile(userName))
    {
      if IsNullOrEmpty(userId) {
        return Unauthorized;
      }
      var loaded := store.GetPostById(postId);
      if loaded.None? {
        return NotFound;
      }
      var g := loaded.value;
      if g.post.userId != userId.value {
        return Forbid;
      }
      DeleteImageFiles(g.images);
      if fault {
        return BadRequest;
      }
      store.DeletePost(postId);
      if homeFeed {
        return RedirectToHome;
      }
      r := RedirectToProfile(userName);
    }

    /** `SavedPosts`: the cards of the posts the user saved, most recently
        saved first, each marked as saved. */
    method SavedPosts(userId: Option<string>, now: Instant) returns (r: ActionResult)
      requires store.Valid()
      ensures IsNullOrEmpty(userId) ==> r == NotFound
      ensures !IsNullOrEmpty(userId) ==> r.SavedPostsPage?
      ensures r.SavedPostsPage? ==>
        var db := store.Tables();
        var uid := userId.value;
        && (forall id :: PostUser(id, uid) in db.saved <==> exists i :: 0 <= i < |r.posts| && r.posts[i].postId == id)
        && (forall i :: 0 <= i < |r.posts| ==>
              r.posts[i].postId in db.posts && db.posts[r.posts[i].postId].userId in db.users
              && CardOf(db, r.posts[i].postId, userId, false, now, PostLabels, r.posts[i]) && r.posts[i].isSavedByCurrentUser)
        && (forall i, j :: 0 <= i < j < |r.posts| ==>
              db.saved[PostUser(r.posts[i].postId, uid)].createdAt >= db.saved[PostUser(r.posts[j].postId, uid)].createdAt)
        && (forall i, j :: 0 <= i < j < |r.posts| ==> r.posts[i].postId != r.posts[j].postId)
    {
      if IsNullOrEmpty(userId) {
        return NotFound;
      }
      var uid := userId.value;
      var gs := store.GetSavedPostsByUserId(uid);
      var cards := Map(gs, g => SavedPostView(g, uid, now));
      forall i | 0 <= i < |gs|
        ensures cards[i].postId == gs[i].post.postId
        ensures CardOf(store.Tables(), gs[i].post.postId, userId, false, now, PostLabels, cards[i])
      {
        SavedViewAgrees(store.Tables(), uid, gs[i], now);
        PostViewMeaning(store.Tables(), gs[i].post.postId, gs[i], userId, false, now, PostLabels);
      }
      forall i | 0 <= i < |gs| ensures cards[i].isSavedByCurrentUser {
      }
      r := SavedPostsPage(cards);
    }
  }

  /* ---------- what went wrong in EditPost ---------- */

  /** Every image row has its file under the web root. */
  ghost predicate ImagesHaveFiles(db: Db, files: set<string>, webRoot: string, os: Platform)
  {
    forall k :: k in db.images ==> UrlToFilePath(webRoot, db.images[k].imageUrl, os) in files
  }

  /** One user, one post with one image whose file exists. */
  function ExampleDb(): Db
  {
    Db(map["u" := User("u", "ann", None, None)],
       map["p" := Post("p", "u", "hello", "", 0)],
       map["i" := PostImage("i", "p", "/uploads/a.png", 0)],
       map[], map[], map[], map[])
  }

  lemma ExampleDbConsistent()
    ensures Consistent(ExampleDb())
  {
  }

  lemma ExampleImages()
    ensures ImagesOf(ExampleDb(), "p") == {PostImage("i", "p", "/uploads/a.png", 0)}
  {
    var db := ExampleDb();
    var image := PostImage("i", "p", "/uploads/a.png", 0);
    assert db.images["i"] == image;
    assert image in db.images.Values;
    forall x | x in ImagesOf(db, "p") ensures x == image {
      var k :| k in db.images && db.images[k] == x;
    }
  }

  /** The as-written `EditPost` on that post with a single `.txt` file: the
      file is refused after the old image file has been deleted, the
      database keeps the image row, and the row no longer has a file. The
      corrected `EditPostValidated` leaves both untouched on the same
      request. */
  lemma EditPostAsWrittenLosesImage()
    ensures var db := ExampleDb();
      var files := {UrlToFilePath("/www", "/uploads/a.png", Unix)};
      var request := [FormFile("notes.txt", 10)];
      var k := FirstRefused(request, Unix);
      var after := files - DeletedPaths(ImagesOf(db, "p"), "/www", Unix)
                   + WrittenPaths(Uploads(request[..k], ["g"][..k], ["j"][..k], "p", "/www", Unix, 0));
      && Consistent(db)
      && ImagesHaveFiles(db, files, "/www", Unix)
      && k == 0 && k < |request|
      && !ImagesHaveFiles(db, after, "/www", Unix)
  {
    var db := ExampleDb();
    ExampleDbConsistent();
    ExampleRequestWritesNothing();
    ExampleDeletedPaths();
    assert db.images["i"].imageUrl == "/uploads/a.png";
  }

  /** The same request sent through the controller itself: a store holding
      the example post and a disk holding its one image file. The action
      answers with the edit page again, the image row is still stored, and
      its file is gone. */
  method EditPostLosesImageFile() returns (r: ActionResult, rowKept: bool, fileKept: bool)
    ensures r == RedirectToEditPost("p") && rowKept && !fileKept
  {
    ExampleDbConsistent();
    ExampleEditRequest();
    var path := UrlToFilePath("/www", "/uploads/a.png", Unix);
    var store := new Store(ExampleDb());
    var disk := new FileStore("/www", Unix, {path});
    var controller := new PostController(store, disk);
    r := controller.EditPost("p", Some("edited"), Some([FormFile("notes.txt", 10)]),
                             Some("u"), Some("ann"), ["g"], ["j"], 0);
    rowKept := "i" in store.images && store.images["i"].imageUrl == "/uploads/a.png";
    fileKept := path in disk.files;
  }

  /** What `EditPost`'s contract needs to know about the example request:
      it passes the user and content checks, names a stored post, is
      refused at its first file, and leaves no file behind. */
  lemma ExampleEditRequest()
    ensures var files := [FormFile("notes.txt", 10)];
      var k := FirstRefused(files, Unix);
      var path := UrlToFilePath("/www", "/uploads/a.png", Unix);
      && !IsNullOrEmpty(Some("u")) && !IsNullOrWhiteSpace(Some("edited"))
      && "p" in ExampleDb().posts && k == 0 && k < |files|
      && {path} - DeletedPaths(ImagesOf(ExampleDb(), "p"), "/www", Unix)
           + WrittenPaths(Uploads(files[..k], ["g"][..k], ["j"][..k], "p", "/www", Unix, 0)) == {}
  {
    assert !IsWhiteSpace("edited"[0]);
    ExampleRequestWritesNothing();
    ExampleDeletedPaths();
  }

  /** The `.txt` request is refused at its first file, before anything is
      written. */
  lemma ExampleRequestWritesNothing()
    ensures var request := [FormFile("notes.txt", 10)];
      var k := FirstRefused(request, Unix);
      && k == 0
      && WrittenPaths(Uploads(request[..k], ["g"][..k], ["j"][..k], "p", "/www", Unix, 0)) == {}
  {
    var request := [FormFile("notes.txt", 10)];
    TextFileRefused(Unix);
    assert FirstRefused(request, Unix) == 0;
    assert request[..0] == [] && ["g"][..0] == [] && ["j"][..0] == [];
    assert Uploads([], [], [], "p", "/www", Unix, 0) == [];
    assert WrittenPaths([]) == {};
  }

  /** Deleting the example post's images deletes the one image file. */
  lemma ExampleDeletedPaths()
    ensures DeletedPaths(ImagesOf(ExampleDb(), "p"), "/www", Unix) == {UrlToFilePath("/www", "/uploads/a.png", Unix)}
  {
    var image := PostImage("i", "p", "/uploads/a.png", 0);
    ExampleImages();
    DeletedPathsAdd({}, image, "/www", Unix);
    assert DeletedPaths({}, "/www", Unix) == {};
    assert {} + {image} == {image};
  }
}
