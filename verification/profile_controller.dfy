/** The decisions of the profile controller: which user a profile page is
    for, the profile edit with its picture upload, and following. The
    signed-in user's id and name, the clock, the fresh GUID and the outcome
    of `UserManager.UpdateAsync` are parameters. */
module ProfileActions {
  import opened Text
  import opened Entities
  import opened Paths
  import opened SocialGraph
  import opened Repositories
  import opened FileStorage
  import opened ViewModels
  import opened Results
  import opened PostActions

  /** Some stored user has the name `name`. */
  predicate HasUserNamed(db: Db, name: string)
  {
    exists id :: id in db.users && db.users[id].userName == name
  }

  /** The name whose profile is shown: the requested one, or the signed-in
      user's when none was requested. */
  function ProfileName(username: Option<string>, currentUserName: Option<string>): Option<string>
  {
    if IsNullOrEmpty(username) then currentUserName else username
  }

  /** `_userManager.GetUserAsync(User)`: the signed-in user's row, if any. */
  function CurrentUser(db: Db, currentUserId: Option<string>): Option<User>
  {
    if currentUserId.Some? && currentUserId.value in db.users then Some(db.users[currentUserId.value]) else None
  }

  /** The stored file of the user's current picture, when the URL is not
      empty. */
  function OldPicturePath(user: Option<User>, webRoot: string, os: Platform): set<string>
  {
    if user.Some? && !IsNullOrEmpty(user.value.profilePictureUrl)
    then {UrlToFilePath(webRoot, user.value.profilePictureUrl.value, os)} else {}
  }

  /** Where the uploaded picture is written. */
  function PicturePath(file: FormFile, guid: string, webRoot: string, os: Platform): string
  {
    ProfilePictureFilePath(webRoot, UploadFileName(guid, file.fileName, os), os)
  }

  /** The URL stored for an uploaded picture leads `DeleteImageFile` back
      to the file that was written. */
  lemma PictureRoundTrip(file: FormFile, guid: string, webRoot: string, os: Platform)
    requires GuidLike(guid, os)
    ensures UrlToFilePath(webRoot, ProfilePictureUrl(UploadFileName(guid, file.fileName, os)), os)
         == PicturePath(file, guid, webRoot, os)
  {
    UploadRoundTrip(webRoot, guid, file.fileName, os);
  }

  /** The files after an edit that passed validation: the new picture
      written, then the old one deleted. */
  function FilesAfterEdit(files: set<string>, user: Option<User>, imageFile: Option<FormFile>, guid: string,
                          webRoot: string, os: Platform): set<string>
  {
    if imageFile.None? then files
    else files + {PicturePath(imageFile.value, guid, webRoot, os)} - OldPicturePath(user, webRoot, os)
  }

  /** The picture URL an edit stores. */
  function PictureAfterEdit(user: User, imageFile: Option<FormFile>, guid: string, os: Platform): Option<string>
  {
    if imageFile.Some? then Some(ProfilePictureUrl(UploadFileName(guid, imageFile.value.fileName, os)))
    else user.profilePictureUrl
  }

  class ProfileController {
    const store: Store
    const disk: FileStore

    constructor (store: Store, disk: FileStore)
      ensures this.store == store && this.disk == disk
    {
      this.store, this.disk := store, disk;
    }

    /** `_userManager.Users.FirstOrDefault(u => u.UserName == name)`; the
        unique index on user names makes the answer unique. */
    method UserNamed(name: Option<string>) returns (u: Option<User>)
      requires store.Valid()
      ensures u.Some? <==> name.Some? && HasUserNamed(store.Tables(), name.value)
      ensures u.Some? ==> u.value.id in store.users && store.users[u.value.id] == u.value && u.value.userName == name.value
      ensures u.Some? ==> forall id :: id in store.users && store.users[id].userName == name.value ==> id == u.value.id
    {
      if name.Some? && HasUserNamed(store.Tables(), name.value) {
        var id :| id in store.users && store.users[id].userName == name.value;
        u := Some(store.users[id]);
      } else {
        u := None;
      }
    }

    /** `Profile`: a requested name nobody has is not found; with no name
        the signed-in user's own profile is shown, and a missing user there
        is an exception. The page lists every post of the user as a card
        seen by the signed-in user. */
    method Profile(username: Option<string>, currentUserName: Option<string>, currentUserId: Option<string>, now: Instant)
      returns (r: ActionResult)
      requires store.Valid()
      ensures var db := store.Tables(); var name := ProfileName(username, currentUserName);
        && (r == NotFound <==> !IsNullOrEmpty(username) && !HasUserNamed(db, username.value))
        && (r.ProfilePage? <==> name.Some? && HasUserNamed(db, name.value))
        && (r.NotFound? || r.ProfilePage? || r == ServerError)
      ensures r.ProfilePage? ==>
        var db := store.Tables(); var p := r.profile; var name := ProfileName(username, currentUserName);
        && name.Some? && p.user.userName == name.value && p.user.id in db.users && db.users[p.user.id] == p.user
        && (p.isCurrentUserProfile <==> currentUserId == Some(p.user.id))
        && (p.isFollowing <==> currentUserId.Some? && IsFollowing(db, currentUserId.value, p.user.id))
        && (forall id :: id in db.posts && db.posts[id].userId == p.user.id <==>
              exists i :: 0 <= i < |p.posts| && p.posts[i].postId == id)
        && (forall i :: 0 <= i < |p.posts| ==>
              p.posts[i].postId in db.posts && db.posts[p.posts[i].postId].userId == p.user.id
              && CardOf(db, p.posts[i].postId, currentUserId, false, now, ProfileLabels, p.posts[i]))
    {
      if !IsNullOrEmpty(username) {
        if !HasUserNamed(store.Tables(), username.value) {
          return NotFound;
        }
      }
      var name := ProfileName(username, currentUserName);
      var user := UserNamed(name);
      if user.None? {
        return ServerError;
      }
      var u := user.value;
      var gs := store.GetPostsByUser(u.id);
      var isFollowing := false;
      if currentUserId.Some? {
        isFollowing := store.IsFollowingUser(currentUserId.value, u.id);
      }
      var view := ProfileView(u, gs, currentUserId, isFollowing, now);
      forall i | 0 <= i < |gs|
        ensures view.posts[i].postId == gs[i].post.postId
        ensures CardOf(store.Tables(), gs[i].post.postId, currentUserId, false, now, ProfileLabels, view.posts[i])
      {
        PostViewMeaning(store.Tables(), gs[i].post.postId, gs[i], currentUserId, false, now, ProfileLabels);
      }
      r := ProfilePage(view);
    }

    /** Writes the new profile picture under `uploads/profile_pictures`,
        then deletes the signed-in user's old picture when its URL is
        non-empty. With no signed-in user the
        action fails right after the write. */
    method ChangePicture(user: Option<User>, fileName: string)
      modifies disk
      ensures disk.files == old(disk.files) + {ProfilePictureFilePath(disk.webRoot, fileName, disk.os)}
                           - OldPicturePath(user, disk.webRoot, disk.os)
    {
      var written := ProfilePictureFilePath(disk.webRoot, fileName, disk.os);
      ghost var gone := OldPicturePath(user, disk.webRoot, disk.os);
      ghost var before := disk.files;
      disk.Write(written);
      if user.Some? && !IsNullOrEmpty(user.value.profilePictureUrl) {
        disk.DeleteImageFile(user.value.profilePictureUrl.value);
      } else {
        assert gone == {};
      }
    }

    /** `Edit` (POST): an invalid form or a file that is not an image shows
        the form again and changes nothing. Otherwise the new picture is
        written, the old one deleted when its URL is non-empty, and the bio
        and picture URL stored, unless the update fails. */
    method Edit(modelValid: bool, bio: Option<string>, imageFile: Option<FormFile>, currentUserId: Option<string>,
                guid: string, updateSucceeds: bool)
      returns (r: ActionResult)
      requires store.Valid()
      modifies store, disk
      ensures store.Valid()
      ensures !modelValid ==>
        r == FormPage({""}) && store.Tables() == old(store.Tables()) && disk.files == old(disk.files)
      ensures modelValid && imageFile.Some? && !IsImageFile(imageFile.value.fileName, disk.os) ==>
        r == FormPage({"ImageFile"}) && store.Tables() == old(store.Tables()) && disk.files == old(disk.files)
      ensures modelValid && (imageFile.None? || IsImageFile(imageFile.value.fileName, disk.os)) ==>
        disk.files == FilesAfterEdit(old(disk.files), CurrentUser(old(store.Tables()), currentUserId), imageFile, guid, disk.webRoot, disk.os)
      ensures modelValid && (imageFile.None? || IsImageFile(imageFile.value.fileName, disk.os)) ==>
        var user := CurrentUser(old(store.Tables()), currentUserId);
        && (user.None? ==> r == ServerError && store.Tables() == old(store.Tables()))
        && (user.Some? && !updateSucceeds ==> r == FormPage({""}) && store.Tables() == old(store.Tables()))
        && (user.Some? && updateSucceeds ==>
              r == RedirectToProfile(Some(user.value.userName))
              && store.Tables() == SetProfile(old(store.Tables()), user.value.id, bio, PictureAfterEdit(user.value, imageFile, guid, disk.os)))
      ensures r.RedirectToProfile? && imageFile.Some? && GuidLike(guid, disk.os) ==>
        && currentUserId.Some? && currentUserId.value in store.users
        && store.users[currentUserId.value].profilePictureUrl.Some?
        && UrlToFilePath(disk.webRoot, store.users[currentUserId.value].profilePictureUrl.value, disk.os)
           == PicturePath(imageFile.value, guid, disk.webRoot, disk.os)
    {
      if !modelValid {
        return FormPage({""});
      }
      ghost var before := store.Tables();
      var user := CurrentUser(store.Tables(), currentUserId);
      var picture := if user.Some? then user.value.profilePictureUrl else None;
      if imageFile.Some? {
        if !IsImageFile(imageFile.value.fileName, disk.os) {
          return FormPage({"ImageFile"});
        }
        var fileName := UploadFileName(guid, imageFile.value.fileName, disk.os);
        ChangePicture(user, fileName);
        picture := Some(ProfilePictureUrl(fileName));
        if GuidLike(guid, disk.os) {
          PictureRoundTrip(imageFile.value, guid, disk.webRoot, disk.os);
        }
      }
      if user.None? {
        return ServerError;
      }
      if !updateSucceeds {
        return FormPage({""});
      }
      SetProfileEffect(store.Tables(), user.value.id, bio, picture);
      store.UpdateProfile(user.value.id, bio, picture);
      r := RedirectToProfile(Some(user.value.userName));
    }

    /** `Follow`: the signed-in user follows the named user. A missing user
        on either side leaves a null key, which the database refuses with an
        exception; so does an edge that is already stored. */
    method Follow(username: Option<string>, currentUserId: Option<string>, now: Instant) returns (r: ActionResult)
      requires store.Valid()
      modifies store
      ensures store.Valid()
      ensures var before := old(store.Tables());
        if currentUserId.Some? && username.Some? && HasUserNamed(before, username.value) then
          exists target :: target in before.users && before.users[target].userName == username.value
            && var ok := CanInsertFollow(before, currentUserId.value, target);
            && store.Tables() == (if ok then InsertFollow(before, currentUserId.value, target, now) else before)
            && r == (if ok then RedirectToProfile(username) else ServerError)
        else
          r == ServerError && store.Tables() == before
      ensures r.RedirectToProfile? ==>
        r.userName == username && currentUserId.Some? && username.Some?
        && exists target :: target in store.users && store.users[target].userName == username.value
             && IsFollowing(store.Tables(), currentUserId.value, target)
    {
      var target := UserNamed(username);
      if target.None? || currentUserId.None? {
        return ServerError;
      }
      var t := target.value.id;
      var ok := store.AddFollower(currentUserId.value, t, now);
      if !ok {
        return ServerError;
      }
      InsertFollowEffect(old(store.Tables()), currentUserId.value, t, now);
      r := RedirectToProfile(username);
    }

    /** `Unfollow`: removes the edge from the signed-in user to the named
        user when both exist; it always redirects to the named profile. */
    method Unfollow(username: Option<string>, currentUserId: Option<string>) returns (r: ActionResult)
      requires store.Valid()
      modifies store
      ensures store.Valid()
      ensures r == RedirectToProfile(username)
      ensures var before := old(store.Tables());
        if currentUserId.Some? && username.Some? && HasUserNamed(before, username.value) then
          exists target :: target in before.users && before.users[target].userName == username.value
            && store.Tables() == DeleteFollow(before, currentUserId.value, target)
            && !IsFollowing(store.Tables(), currentUserId.value, target)
        else
          store.Tables() == before
    {
      var target := UserNamed(username);
      if target.Some? && currentUserId.Some? {
        DeleteFollowEffect(store.Tables(), currentUserId.value, target.value.id);
        store.RemoveFollower(currentUserId.value, target.value.id);
      }
      r := RedirectToProfile(username);
    }
  }
}
