# ITPE3200X social feed — a Dafny model

ITPE3200X is an ASP.NET Core web application where users publish image
posts. Other users can like, save and comment on a post, follow each other
and edit their profile. This project models the core of that application:

- **The database (`SocialGraph`, `Entities`).** It is a value with one map per
  table, keyed by the primary key the EF Core model snapshot declares. The
  invariant `Consistent` states the key, foreign-key and unique-user-name
  constraints. Every write is a function on that value: inserts, deletes
  with their cascades, and the restriction on follower edges. Lemmas prove
  what each write does and that it keeps `Consistent`.
- **The repositories (`Repositories.Store`).** `PostRepository` and
  `UserRepository` become one class that holds the tables as mutable map
  fields. Every method is proved against the `SocialGraph` functions. A write
  reports `ok` exactly when the database would accept it; otherwise the
  tables stay as they were.
- **The web root (`FileStorage.FileStore`).** It is the set of file paths the
  controllers create and delete.
- **The two controllers (`PostActions`, `ProfileActions`).** Each action is a
  method on a class holding the store and the web root. It returns an
  `ActionResult` and states, branch by branch, the response, the new tables
  and the new set of files.
- **The pure helpers.**
  - `TimeFormat`: the two `CalculateTimeSincePosted`.
  - `Paths`: `Path.GetExtension`, `Path.GetFileName`, `Path.Combine`, upload
    names and URLs, and the URL-to-path conversion of `DeleteImageFile`.
  - `ViewModels`: the `PostViewModel` and `ProfileViewModel` projections.
  - `Text`: `IsNullOrWhiteSpace`, `ToLowerInvariant`, `TrimStart`, `Replace`
    and integer formatting.

Inputs the application reads from its environment are parameters of the
model:

- the clock (`now`);
- fresh GUIDs and generated ids;
- the signed-in user's id and name;
- the web root and the directory separator (`Platform`).

## Model

| member | source | states |
|---|---|---|
| Entities.NewPost | ITPE3200X/Models/Post.cs:33-38 | the constructor throws `ArgumentNullException` exactly when one of user id, content and title is null, naming the first null one in declaration order; otherwise the post carries those three values, the fresh id and the creation time |
| Entities.NewSavedPost | ITPE3200X/Models/SavedPost.cs:22-27 | throws exactly when post id or user id is null, naming `postId` first; otherwise the row's key is (post, user) and its time is the creation time |
| Entities.NewPostFitsSchema | ITPE3200X/Models/Post.cs:8-23 | a post built from arguments within the declared lengths (ids 36, content 2000, title 200) and a 36-character GUID satisfies every length the schema declares |
| Entities.NewSavedPostFitsSchema | ITPE3200X/Models/SavedPost.cs:8-16 | a saved post built from ids of at most 36 characters is created and fits the schema |
| Text.EmptyIsBlank | ITPE3200X/Controllers/PostController.cs:605 | a null or empty string is also null-or-white-space, so the `IsNullOrEmpty` guards of some actions reject a subset of what the `IsNullOrWhiteSpace` guards reject |
| Text.ToLower | ITPE3200X/Controllers/PostController.cs:117 | keeps the length, lower-cases each ASCII capital and leaves every other character alone; `ToLowerInvariant` agrees with this on ASCII |
| Text.ToLowerAppend | ITPE3200X/Controllers/PostController.cs:117 | lower-casing distributes over concatenation |
| Text.TrimStart | ITPE3200X/Controllers/PostController.cs:584 | the result is a suffix of the input, does not start with the trimmed character, and everything removed was that character |
| Text.ReplaceChar | ITPE3200X/Controllers/PostController.cs:584 | `Replace` keeps the length and replaces exactly the positions holding the old character |
| Text.ReplaceCharAppend | ITPE3200X/Controllers/PostController.cs:584 | replacement distributes over concatenation |
| Text.ReplaceCharAbsent | ITPE3200X/Controllers/PostController.cs:584 | replacing a character that does not occur changes nothing |
| Text.NatToStringRoundTrip | ITPE3200X/Controllers/PostController.cs:178 | the decimal rendering of a count is a non-empty digit string that parses back to the same number |
| Text.IntToStringRoundTrip | ITPE3200X/Controllers/ProfileController.cs:97 | the rendering of a possibly negative count (with a leading `-`) parses back to the same integer |
| TimeFormat.TruncDiv | ITPE3200X/Controllers/ProfileController.cs:97 | the `(int)` cast of a quotient truncates toward zero: for a non-negative numerator it is the floor, for a negative one it is between the exact quotient and zero |
| TimeFormat.AgeOfMeaning | ITPE3200X/Controllers/PostController.cs:164-188 | for an elapsed time of zero or more, minutes are used exactly below one hour, hours exactly from one hour up to one day, days from one day on, and the count is the whole number of those units elapsed (under 60 minutes, 1 to 23 hours, at least one day) |
| TimeFormat.FutureClampsToZero | ITPE3200X/Controllers/PostController.cs:166-172 | in the post controller a creation time in the future is labelled "0 m ago" |
| TimeFormat.ClampedNeverNegative | ITPE3200X/Controllers/PostController.cs:166-188 | the post controller's label never carries a negative count |
| TimeFormat.UnclampedNegative | ITPE3200X/Controllers/ProfileController.cs:91-98 | without the clamp a future timestamp lands in the minutes branch with a count of zero or below, the truncated quotient of the time still to come |
| TimeFormat.ClampAgreesOnPast | ITPE3200X/Controllers/ProfileController.cs:91-107 | the two controllers label every past or present timestamp identically |
| TimeFormat.Boundaries | ITPE3200X/Controllers/PostController.cs:174-187 | exactly one hour is "1 h ago", exactly one day is "1 d ago", one tick less is "59 m ago" and "23 h ago" |
| TimeFormat.MinutesExample | ITPE3200X/Controllers/PostController.cs:176-179 | thirty minutes ago is "30 m ago" |
| TimeFormat.HoursExample | ITPE3200X/Controllers/PostController.cs:180-183 | ten hours ago is "10 h ago" |
| TimeFormat.DaysExample | ITPE3200X/Controllers/PostController.cs:184-187 | two days ago is "2 d ago" |
| TimeFormat.FutureExample | ITPE3200X/Controllers/PostController.cs:166-172 | five minutes in the future is "0 m ago" |
| TimeFormat.RenderRoundTrip | ITPE3200X/Controllers/PostController.cs:174-187 | a label can be read back to the count and unit it was made from, so no two ages share a label |
| Paths.GetExtension | ITPE3200X/Controllers/PostController.cs:117 | `Path.GetExtension` is empty or a suffix of the name of at least two characters starting with the dot |
| Paths.ExtensionScan | ITPE3200X/Controllers/PostController.cs:117 | the scan from any position returns the empty string or such a suffix |
| Paths.ScanSkipsPlain | ITPE3200X/Controllers/PostController.cs:117 | characters that are neither a dot nor a separator do not change the extension found |
| Paths.IsImageFileIff | ITPE3200X/Controllers/PostController.cs:114-120 | a file is accepted as an image exactly when its name ends, ignoring case, in ".jpg", ".jpeg" or ".png" |
| Paths.AcceptedEndsPermitted | ITPE3200X/Controllers/ProfileController.cs:205-216 | every accepted name ends in one of the permitted extensions, ignoring case |
| Paths.PermittedEndingsAccepted | ITPE3200X/Controllers/ProfileController.cs:205-216 | every name ending in a permitted extension, ignoring case, is accepted |
| Paths.AcceptedHasEnding | ITPE3200X/Controllers/PostController.cs:114-120 | an accepted name's lower-cased extension is one of the permitted ones and ends the name |
| Paths.EndingAccepted | ITPE3200X/Controllers/PostController.cs:114-120 | a name that ends in a permitted extension, ignoring case, is accepted |
| Paths.EndingIsExtension | ITPE3200X/Controllers/PostController.cs:117 | a dot followed by lower-case letters that ends a name (compared ignoring case) is exactly what `Path.GetExtension` returns |
| Paths.ExtensionlessRejected | ITPE3200X/Controllers/PostController.cs:117-119 | a name without a dot, or ending in a dot, has an empty extension and is refused |
| Paths.UpperCaseAccepted | ITPE3200X/Controllers/PostController.cs:117 | "Photo.JPG" is accepted because the extension is lower-cased before comparison |
| Paths.GetFileName | ITPE3200X/Controllers/PostController.cs:79 | `Path.GetFileName` is the longest suffix without a separator: a suffix, separator-free, preceded by a separator when shorter than the path |
| Paths.CombineRelative | ITPE3200X/Controllers/PostController.cs:80-81 | `Path.Combine` with a relative second part is the first part, a separator when it lacks one, then the second part |
| Paths.UploadFileNameIsPlain | ITPE3200X/Controllers/PostController.cs:79 | the stored file name `{guid}_{name}` contains no separator and does not start with one |
| Paths.UrlToFilePathOfRooted | ITPE3200X/Controllers/PostController.cs:578-596 | `DeleteImageFile` maps "/rel" to the web root joined with `rel`, its slashes turned into the platform separator |
| Paths.JoinPrefixFolder | ITPE3200X/Controllers/PostController.cs:80-81 | combining the web root with a plain folder, and then with a name, is plain concatenation with separators |
| Paths.ReplaceAfterFolder | ITPE3200X/Controllers/PostController.cs:584 | turning slashes into separators in "folder/rest" handles the folder and the rest separately |
| Paths.FolderRoundTrip | ITPE3200X/Controllers/PostController.cs:79-96 | the URL stored for a file in a folder leads `DeleteImageFile` back to the path that was written |
| Paths.PostImageRoundTrip | ITPE3200X/Controllers/PostController.cs:79-96 | for a post image, the path derived from the stored URL "/uploads/{name}" is the path the upload wrote |
| Paths.ProfilePictureRoundTrip | ITPE3200X/Controllers/ProfileController.cs:146-169 | for a profile picture, the path derived from "/uploads/profile_pictures/{name}" is the path the upload wrote |
| Paths.ProfileUrlShape | ITPE3200X/Controllers/ProfileController.cs:169 | the profile picture URL is "/" followed by the two folders and the name, joined by slashes |
| Paths.NestedReplace | ITPE3200X/Controllers/ProfileController.cs:185-191 | the separators of a two-folder URL are replaced folder by folder |
| Paths.NestedJoin | ITPE3200X/Controllers/ProfileController.cs:147-148 | combining the root with two folders and then the name gives the same string as the replaced URL |
| Paths.UploadRoundTrip | ITPE3200X/Controllers/PostController.cs:79-96 | for any GUID without separators and any client file name, the stored post image URL leads back to the written path |
| SocialGraph.LikedIffKeyPresent | ITPE3200X/DAL/Repositories/PostRepository.cs:98-102 | when rows sit under their own keys, a post is liked by a user exactly when the (post, user) key is in the like table |
| SocialGraph.InsertLikeEffect | ITPE3200X/DAL/Repositories/PostRepository.cs:80-85 | an accepted like keeps the schema, makes the post liked by that user, and changes no other like and no other table |
| SocialGraph.DeleteLikeEffect | ITPE3200X/DAL/Repositories/PostRepository.cs:87-96 | after removal the post is not liked by that user, every other like and every other table is unchanged, and nothing changes when there was no like |
| SocialGraph.DeleteLikeKeepsSchema | ITPE3200X/DAL/Repositories/PostRepository.cs:87-96 | removing a like keeps every constraint |
| SocialGraph.LikeRoundTrip | ITPE3200X/DAL/Repositories/PostRepository.cs:80-96 | liking and then unliking an unliked post restores the database exactly |
| SocialGraph.SavedIffKeyPresent | ITPE3200X/DAL/Repositories/UserRepository.cs:95-99 | a post is saved by a user exactly when the (post, user) key is in the saved table |
| SocialGraph.InsertSavedEffect | ITPE3200X/DAL/Repositories/UserRepository.cs:76-81 | an accepted save keeps the schema, makes the post saved by that user, and changes nothing else |
| SocialGraph.DeleteSavedEffect | ITPE3200X/DAL/Repositories/UserRepository.cs:83-92 | after removal the post is not saved by that user and nothing else changes; nothing changes when it was not saved |
| SocialGraph.DeleteSavedKeepsSchema | ITPE3200X/DAL/Repositories/UserRepository.cs:83-92 | removing a save keeps every constraint |
| SocialGraph.SavedRoundTrip | ITPE3200X/DAL/Repositories/UserRepository.cs:76-92 | saving and then unsaving restores the database exactly |
| SocialGraph.FollowingIffKeyPresent | ITPE3200X/DAL/Repositories/UserRepository.cs:69-73 | a user follows another exactly when that directed edge is in the follower table |
| SocialGraph.FollowersMeanFollowing | ITPE3200X/DAL/Repositories/UserRepository.cs:33-49 | a user is among the followers of `u` exactly when it is a stored user that follows `u`; likewise for the users `u` follows |
| SocialGraph.FollowIsDirected | ITPE3200X/Migrations/ApplicationDbContextModelSnapshot.cs:129-147 | following someone does not make them follow back |
| SocialGraph.InsertFollowEffect | ITPE3200X/DAL/Repositories/UserRepository.cs:51-56 | an accepted follow keeps the schema, adds exactly that edge and changes nothing else |
| SocialGraph.DeleteFollowEffect | ITPE3200X/DAL/Repositories/UserRepository.cs:58-67 | after an unfollow that edge is gone, every other edge and table is unchanged, and nothing changes when there was no edge |
| SocialGraph.DeleteFollowKeepsSchema | ITPE3200X/DAL/Repositories/UserRepository.cs:58-67 | removing an edge keeps every constraint |
| SocialGraph.FollowRoundTrip | ITPE3200X/DAL/Repositories/UserRepository.cs:51-67 | following and then unfollowing restores the database exactly |
| SocialGraph.InsertPostEffect | ITPE3200X/DAL/Repositories/PostRepository.cs:40-44 | an accepted post insert keeps the schema; the post is stored, its images are exactly the ones it carried, and no other post or table changes |
| SocialGraph.InsertPostConsistent | ITPE3200X/Migrations/ApplicationDbContextModelSnapshot.cs:435-455 | a post with a known author whose new images point at it keeps every constraint |
| SocialGraph.DeletePostCascade | ITPE3200X/Migrations/ApplicationDbContextModelSnapshot.cs:378-474 | deleting a post cascades: no image, comment, like or save refers to it afterwards, every row of every other post survives unchanged, users and follower edges are untouched, and the schema holds |
| SocialGraph.DeletePostKeys | ITPE3200X/DAL/Repositories/PostRepository.cs:52-60 | the cascade keeps every row under its key |
| SocialGraph.DeletePostForeignKeys | ITPE3200X/Migrations/ApplicationDbContextModelSnapshot.cs:378-474 | the cascade leaves no dangling foreign key |
| SocialGraph.DeleteMissingPost | ITPE3200X/DAL/Repositories/PostRepository.cs:54-59 | deleting a post that does not exist changes nothing |
| SocialGraph.NothingRefersToMissingPost | ITPE3200X/DAL/Repositories/PostRepository.cs:54-59 | when the foreign keys hold, the cascade of a missing post removes nothing |
| SocialGraph.UpdatePostEffect | ITPE3200X/Controllers/PostController.cs:401 | an accepted update keeps the schema, stores the new post row, and leaves the post with its old images minus the deleted ones plus the added ones; other tables are unchanged |
| SocialGraph.UpdatePostConsistent | ITPE3200X/Controllers/PostController.cs:401 | an accepted update keeps every constraint |
| SocialGraph.UpdateWithoutImages | ITPE3200X/DAL/Repositories/PostRepository.cs:46-50 | with nothing to delete or add, the update only replaces the post row |
| SocialGraph.InsertCommentEffect | ITPE3200X/DAL/Repositories/PostRepository.cs:63-67 | an accepted comment keeps the schema, is stored, changes no other comment, and deleting it again restores the database |
| SocialGraph.DeleteCommentEffect | ITPE3200X/DAL/Repositories/PostRepository.cs:69-77 | after deletion no comment has that id, every other comment and table is unchanged, and a missing id changes nothing |
| SocialGraph.EditCommentEffect | ITPE3200X/Controllers/PostController.cs:509 | an edit keeps the schema and the comment ids, gives the comment the new text, and changes no other comment or table |
| SocialGraph.DeleteUserCascade | ITPE3200X/Migrations/ApplicationDbContextModelSnapshot.cs:378-474 | when no follower edge blocks it (those keys are `Restrict`), deleting a user keeps the schema and leaves no post, comment, like or save of that user |
| SocialGraph.DeleteUserKeys | ITPE3200X/Migrations/ApplicationDbContextModelSnapshot.cs:84-90 | deleting a user keeps every row under its key and user names unique |
| SocialGraph.DeleteUserForeignKeys | ITPE3200X/Migrations/ApplicationDbContextModelSnapshot.cs:397-414 | with the restriction satisfied, the cascade leaves no dangling foreign key |
| SocialGraph.SetProfileEffect | ITPE3200X/Controllers/ProfileController.cs:163-175 | a profile update keeps the schema, sets the user's bio and picture URL, keeps id and user name, and changes no other user or table |
| SocialGraph.NewPostStartsEmpty | ITPE3200X/Models/Post.cs:27-30 | a post that has just been accepted has no comments, likes or saves |
| SocialGraph.SavedRowStored | ITPE3200X/Migrations/ApplicationDbContextModelSnapshot.cs:457-473 | a saved-post row is stored under its own (post, user) key and its post exists |
| SocialGraph.MarkersOfPost | ITPE3200X/Controllers/PostController.cs:142-143 | a like or save of the post by a user exists among the post's likes or saves exactly when the repository's check says so |
| SocialGraph.LikeCountIsLikers | ITPE3200X/Controllers/PostController.cs:146 | under the key constraint the like count equals the number of distinct users who liked the post |
| SocialGraph.DistinctLikers | ITPE3200X/Migrations/ApplicationDbContextModelSnapshot.cs:162 | likes that are distinct per user are as many as their users |
| Repositories.Store.constructor | ITPE3200X/DAL/Repositories/PostRepository.cs:16-26 | the store opens on a consistent database |
| Repositories.Store.LoadGraph | ITPE3200X/DAL/Repositories/PostRepository.cs:16-26 | loads the stored post with its author, every image, every comment with its author's name, its likes and its saves |
| Repositories.Store.LoadGraphs | ITPE3200X/DAL/Repositories/PostRepository.cs:28-38 | loads each requested post, in the order requested |
| Repositories.Store.GetPostById | ITPE3200X/DAL/Repositories/PostRepository.cs:16-26 | null exactly when no post has the id; otherwise the loaded post |
| Repositories.Store.GetAllPosts | ITPE3200X/DAL/Repositories/PostRepository.cs:28-38 | every post exactly once, loaded, newest first |
| Repositories.Store.GetPostsByUser | ITPE3200X/Controllers/ProfileController.cs:50 | exactly the user's posts, each once, loaded |
| Repositories.Store.GetSavedPostsByUserId | ITPE3200X/DAL/Repositories/IUserRepository.cs:15 | exactly the posts the user saved, each loaded once, most recently saved first |
| Repositories.Store.SavedMarksNewestFirst | ITPE3200X/DAL/Repositories/IUserRepository.cs:15 | the user's saved rows, each stored and pointing at a stored post, all of them, each post once, latest save first |
| Repositories.Store.AddPost | ITPE3200X/DAL/Repositories/PostRepository.cs:40-44 | reports success exactly when the database accepts the post and its images; then the tables are the insert, otherwise unchanged |
| Repositories.Store.UpdatePost | ITPE3200X/Controllers/PostController.cs:401 | reports success exactly when the update is accepted; then the post row is replaced and the listed images are removed and the new ones added |
| Repositories.Store.DeletePost | ITPE3200X/DAL/Repositories/PostRepository.cs:52-60 | the tables become the cascade delete of the post |
| Repositories.Store.AddComment | ITPE3200X/Controllers/PostController.cs:440-447 | the boolean the controller reads from `AddCommentAsync` is true exactly when the comment is accepted; the comment is then stored as `PostRepository.cs:63-67` stores it |
| Repositories.Store.DeleteComment | ITPE3200X/DAL/Repositories/PostRepository.cs:69-77 | the comment with that id, if any, is removed |
| Repositories.Store.EditComment | ITPE3200X/Controllers/PostController.cs:509 | the comment with that id, if any, gets the new text |
| Repositories.Store.AddLike | ITPE3200X/DAL/Repositories/PostRepository.cs:80-85 | reports success exactly when the like is accepted (new key, known post and user); then it is stored |
| Repositories.Store.RemoveLike | ITPE3200X/DAL/Repositories/PostRepository.cs:87-96 | the matching like, if any, is removed |
| Repositories.Store.IsPostLiked | ITPE3200X/DAL/Repositories/PostRepository.cs:98-102 | true exactly when some like row has this post and this user |
| Repositories.Store.GetUserdataById | ITPE3200X/DAL/Repositories/UserRepository.cs:17-30 | found exactly when the id is stored, returning that user; otherwise `KeyNotFoundException` with the message naming the id |
| Repositories.Store.GetFollowers | ITPE3200X/DAL/Repositories/UserRepository.cs:33-40 | exactly the stored users that follow the user, without repetition |
| Repositories.Store.GetFollowing | ITPE3200X/DAL/Repositories/UserRepository.cs:42-49 | exactly the stored users the user follows, without repetition |
| Repositories.Store.AddFollower | ITPE3200X/DAL/Repositories/UserRepository.cs:51-56 | reports success exactly when the edge is new and both users exist; then the edge is stored |
| Repositories.Store.RemoveFollower | ITPE3200X/DAL/Repositories/UserRepository.cs:58-67 | the matching edge, if any, is removed |
| Repositories.Store.IsFollowingUser | ITPE3200X/DAL/Repositories/UserRepository.cs:69-73 | true exactly when that directed edge is stored |
| Repositories.Store.AddSavedPost | ITPE3200X/DAL/Repositories/UserRepository.cs:76-81 | reports success exactly when the save is accepted; then it is stored |
| Repositories.Store.RemoveSavedPost | ITPE3200X/DAL/Repositories/UserRepository.cs:83-92 | the matching save, if any, is removed |
| Repositories.Store.IsPostSaved | ITPE3200X/DAL/Repositories/UserRepository.cs:95-99 | true exactly when some saved row has this post and this user |
| Repositories.Store.UpdateProfile | ITPE3200X/Controllers/ProfileController.cs:173-175 | the user's bio and picture URL are replaced |
| Repositories.GraphsSurvivePermutation | ITPE3200X/DAL/Repositories/PostRepository.cs:36 | reordering loaded posts keeps each of them a faithful load |
| FileStorage.FileStore.constructor | ITPE3200X/Controllers/PostController.cs:18-29 | the web root, separator and files given |
| FileStorage.FileStore.Write | ITPE3200X/Controllers/PostController.cs:90-93 | after `FileMode.Create` the file exists |
| FileStorage.FileStore.DeleteImageFile | ITPE3200X/Controllers/PostController.cs:578-596 | the file the URL maps to is gone afterwards, and a missing file leaves the files unchanged |
| ViewModels.CommentsInOrder | ITPE3200X/Controllers/PostController.cs:148-159 | a card's comments are the post's comments, as many, each once, oldest first |
| ViewModels.CommentViewsSorted | ITPE3200X/Controllers/PostController.cs:149 | the comments are ordered by creation time, ascending |
| ViewModels.CommentViewsCover | ITPE3200X/Controllers/PostController.cs:148-159 | every comment of the post appears on the card |
| ViewModels.CommentViewsFrom | ITPE3200X/Controllers/PostController.cs:148-159 | every comment on the card is the view of one of the post's comments |
| ViewModels.PostViewMeaning | ITPE3200X/Controllers/PostController.cs:135-160 | the card of a loaded post has its id, content, author name and picture and all its images; liked and saved exactly when the store says the viewer did; owned exactly when the viewer wrote it; one like per liker; exactly the post's comments, each as its comment card, oldest first |
| ViewModels.SavedViewAgrees | ITPE3200X/Controllers/PostController.cs:619-644 | for a post the user did save, writing `IsSavedByCurrentUser = true` gives the same card as computing it |
| ViewModels.ProfileAndFeedAgree | ITPE3200X/Controllers/ProfileController.cs:52-78 | the profile page and the post controller build the same card except for time labels, and the same card outright when no comment is in the future |
| ViewModels.LabelsOnlyDiffer | ITPE3200X/Controllers/ProfileController.cs:65-77 | the two controllers' comment lists differ at most in the time label |
| ViewModels.PastLabelsAgree | ITPE3200X/Controllers/ProfileController.cs:91-107 | with no comment in the future the two comment lists are equal |
| ViewModels.ProfileViewMeaning | ITPE3200X/Controllers/ProfileController.cs:80-86 | the profile marks it as the viewer's own exactly when the viewer is that user, lists one card per post in order, none a home-feed card, and carries the follow flag |
| PostActions.CreatePostErrorsMeaning | ITPE3200X/Controllers/PostController.cs:44-60 | the create form reports "Content" exactly when the content is null or white space, "ImageFiles" exactly when no file was sent, and nothing else |
| PostActions.CreatePostBothErrors | ITPE3200X/Controllers/PostController.cs:44-60 | blank content with no files reports both errors |
| PostActions.FirstRefused | ITPE3200X/Controllers/PostController.cs:67-77 | the position of the first non-empty file that is not an image, or the count of files when there is none |
| PostActions.FirstRefusedUnique | ITPE3200X/Controllers/PostController.cs:67-77 | the first refused position is unique |
| PostActions.FirstRefusedPast | ITPE3200X/Controllers/PostController.cs:67-77 | an accepted file before the first refused one moves the bound past it |
| PostActions.DeletedPathsAdd | ITPE3200X/Controllers/PostController.cs:554-557 | deleting one more image's file removes one more path |
| PostActions.UploadOfTraceable | ITPE3200X/Controllers/PostController.cs:79-97 | one upload's stored URL leads back to the path written, and its image points at the post |
| PostActions.UploadsRoundTrip | ITPE3200X/Controllers/PostController.cs:67-99 | every saved upload is traceable: its URL leads back to its written file and its image belongs to the post |
| PostActions.EmptyFilesSkipped | ITPE3200X/Controllers/PostController.cs:69 | empty files produce no upload |
| PostActions.UploadsCount | ITPE3200X/Controllers/PostController.cs:67-99 | one upload per non-empty file, never more than the files sent |
| PostActions.UploadsStep | ITPE3200X/Controllers/PostController.cs:67-99 | a further file adds one upload when it is non-empty and none otherwise |
| PostActions.TextFileRefused | ITPE3200X/Controllers/PostController.cs:67-77 | a non-empty "notes.txt" is refused |
| PostActions.PostController.constructor | ITPE3200X/Controllers/PostController.cs:18-29 | the controller holds the given store and web root |
| PostActions.PostController.SaveUploads | ITPE3200X/Controllers/PostController.cs:67-99 | accepts exactly when no file is refused; writes exactly the uploads of the files before the first refused one |
| PostActions.PostController.SaveUpload | ITPE3200X/Controllers/PostController.cs:79-97 | writes the file of one upload and returns it |
| PostActions.PostController.GetPostViewModelById | ITPE3200X/Controllers/PostController.cs:123-161 | null exactly when the post does not exist, otherwise its card for the viewer |
| PostActions.PostController.CreatePost | ITPE3200X/Controllers/PostController.cs:42-111 | form errors return the form with nothing changed; a missing user id is a server error; a refused file returns the form after earlier files were written; otherwise the post and its images are inserted and the action redirects to the profile when the database accepts them |
| PostActions.PostController.ToggleLike | ITPE3200X/Controllers/PostController.cs:193-228 | unauthorized without a user, not found without the post; otherwise a like is removed or added, so the liked state flips, and the refreshed card is returned |
| PostActions.PostController.ToggleSave | ITPE3200X/Controllers/PostController.cs:233-268 | the same for saves: the saved state flips and the refreshed card is returned |
| PostActions.PostController.EditPostForm | ITPE3200X/Controllers/PostController.cs:273-309 | unauthorized, not found or forbidden for someone other than the author; otherwise the form with the post's content and all its images |
| PostActions.PostController.DeleteImageFiles | ITPE3200X/Controllers/PostController.cs:554-557 | deletes exactly the files the images' URLs map to |
| PostActions.PostController.EditPost | ITPE3200X/Controllers/PostController.cs:314-410 | as written: when new files are sent, the old images' files are deleted before the new files are validated, so a refused file leaves the post without files for its images |
| PostActions.PostController.EditPostValidated | ITPE3200X/Controllers/PostController.cs:314-410 | corrected order: a refused file changes neither tables nor files, every image keeps its file, and old files are deleted only after the update is accepted |
| PostActions.PostController.ReplaceImages | ITPE3200X/Controllers/PostController.cs:364-401 | after validation: writes the uploads, updates the post and deletes the old files exactly when the update is accepted |
| PostActions.PostController.AddComment | ITPE3200X/Controllers/PostController.cs:415-453 | unauthorized without a user; blank content changes nothing and returns the post's card for the viewer, or none when the post is missing; otherwise the comment is inserted and the refreshed card returned, or a bad request when the database refuses it |
| PostActions.PostController.DeleteComment | ITPE3200X/Controllers/PostController.cs:458-481 | unauthorized without a user; otherwise the comment is removed and the refreshed card (null if the post is gone) returned, or a bad request when the repository reports failure |
| PostActions.PostController.EditComment | ITPE3200X/Controllers/PostController.cs:486-521 | unauthorized without a user, "Content" error on blank text, otherwise the comment gets the text and the card is returned, or a bad request on repository failure |
| PostActions.PostController.DeletePost | ITPE3200X/Controllers/PostController.cs:527-575 | unauthorized, not found or forbidden for others; for the author the image files are deleted, then the post with its cascade, redirecting home or to the profile |
| PostActions.PostController.SavedPosts | ITPE3200X/Controllers/PostController.cs:601-647 | not found without a user; otherwise exactly one card per saved post, each post once, marked saved, latest save first |
| PostActions.ExampleDbConsistent | ITPE3200X/Controllers/PostController.cs:314-410 | the example database of the finding satisfies every constraint |
| PostActions.ExampleImages | ITPE3200X/Controllers/PostController.cs:357 | the example post has exactly one image |
| PostActions.EditPostAsWrittenLosesImage | ITPE3200X/Controllers/PostController.cs:355-373 | in a consistent database where every image has its file, an edit sending only "notes.txt" is refused, yet leaves the post's image without a file |
| PostActions.EditPostLosesImageFile | ITPE3200X/Controllers/PostController.cs:355-373 | the controller action itself, on a store holding one post with one image and a disk holding that image's file, answers an edit sending only "notes.txt" with the edit page, keeps the image row and loses its file |
| PostActions.ExampleEditRequest | ITPE3200X/Controllers/PostController.cs:320-373 | the example request passes the user and content checks, names a stored post, is refused at its first file and leaves no file behind |
| PostActions.ExampleRequestWritesNothing | ITPE3200X/Controllers/PostController.cs:364-373 | the refused request writes no file |
| PostActions.ExampleDeletedPaths | ITPE3200X/Controllers/PostController.cs:357-361 | the deletion loop removes the example image's file |
| ProfileActions.PictureRoundTrip | ITPE3200X/Controllers/ProfileController.cs:146-169 | the stored picture URL leads `DeleteImageFile` back to the file the upload wrote |
| ProfileActions.ProfileController.constructor | ITPE3200X/Controllers/ProfileController.cs:17-28 | the controller holds the given store and web root |
| ProfileActions.ProfileController.UserNamed | ITPE3200X/Controllers/ProfileController.cs:48 | the user with that name, which is unique, or none |
| ProfileActions.ProfileController.Profile | ITPE3200X/Controllers/ProfileController.cs:31-89 | not found exactly for a named user that does not exist; the page exactly when the resolved name exists, showing that user, all their posts as cards, own-profile exactly for the viewer, and the follow flag from the store; a server error otherwise |
| ProfileActions.ProfileController.ChangePicture | ITPE3200X/Controllers/ProfileController.cs:157-166 | the new picture file exists and the old one is deleted |
| ProfileActions.ProfileController.Edit | ITPE3200X/Controllers/ProfileController.cs:125-183 | invalid model or non-image file returns the form with nothing changed; otherwise the picture is written and the old one deleted, then bio and picture are stored when the update succeeds, and the stored URL leads back to the written file |
| ProfileActions.ProfileController.Follow | ITPE3200X/Controllers/ProfileController.cs:218-225 | follows the user with that name when the edge is accepted and redirects, the viewer then following them; a server error otherwise |
| ProfileActions.ProfileController.Unfollow | ITPE3200X/Controllers/ProfileController.cs:227-234 | always redirects; removes the edge to the named user when there is one |

## Left out

- File contents, streams and `Directory.CreateDirectory` are not modelled. The web root is only the set of existing paths, and I/O errors are not modelled either.
- `DeleteImageFile` catches every exception and only logs it; the model has no failing deletes.
- Logging (`ILogger`, `Console.WriteLine`) is left out. It does not change any result.
- The clock, `Guid.NewGuid` and the database-generated ids are parameters (`now`, `guids`, `imageIds`, `freshPostId`, `commentId`). Each is a fresh value from the caller.
- ASP.NET Identity (`UserManager`) is reduced to three things: the signed-in user's id and name as parameters, the user table, and `UpdateAsync` as the `updateSucceeds` parameter of `ProfileActions.ProfileController.Edit`.
- `NormalizedUserName`, whose unique index the schema declares, is modelled as the user name itself. Case folding is not modelled.
- `ModelState` is reduced to the set of error keys. Model binding's own validation is the `modelValid` parameter of the profile edit.
- The controllers call repository members that the repository does not declare. Each is modelled as follows:
  - a boolean `AddPostAsync` becomes `Repositories.Store.AddPost`, which reports acceptance;
  - a three-argument `UpdatePostAsync` becomes `Repositories.Store.UpdatePost`;
  - `GetPostsByUserAsync` becomes `Repositories.Store.GetPostsByUser`;
  - `GetSavedPostsByUserIdAsync`, declared only in `IUserRepository` and not implemented, becomes `Repositories.Store.GetSavedPostsByUserId`;
  - a boolean `AddCommentAsync` (PostController.cs:441) becomes `Repositories.Store.AddComment`, which reports acceptance; the repository's own `AddCommentAsync` returns nothing.
- The post controller calls `AddSavedPostAsync`, `RemoveSavedPostAsync` and `GetSavedPostsByUserIdAsync` on `IPostRepository` (PostController.cs:256, 261, 610), which declares none of them. The model gives them to the one store: `Repositories.Store.AddSavedPost`, `Repositories.Store.RemoveSavedPost` and `Repositories.Store.GetSavedPostsByUserId`.
- Three controller actions also call repository members that are not declared, and each takes a `fault` parameter for the boolean those members return:
  - `PostActions.PostController.DeletePost` calls `DeletePostAsync(postId, userId)`;
  - `PostActions.PostController.DeleteComment` calls `DeleteCommentAsync(commentId, userId)`;
  - `PostActions.PostController.EditComment` calls `EditCommentAsync`.
  When no fault is reported, the effect is the implemented deletion or edit by id. Comment ownership is not checked, because the implemented repository does not check it.
- PostActions.PostController.CreatePost calls a two-argument `Post` constructor that the class does not declare. The model uses the declared three-argument one with an empty title.
- Lazy loading is switched on (Program.cs:13), so navigation collections are complete. Queries are modelled as loading every related row; `Include` and tracking are not modelled.
- The enumeration order of queries without `OrderBy`:
  - for `GetPostsByUser`, `GetFollowers` and `GetFollowing`, any order is allowed;
  - `post.Images` is kept as a sequence in an unspecified order.
- The maximum column lengths are stated (`Entities.PostFitsSchema` and its neighbours) and proved for the constructors. A write that exceeds them is not refused, because the controllers never check them and the database's refusal is not modelled.
- Deleting a user has no repository method. `SocialGraph.DeleteUser` models only the cascade and restriction the schema declares for it.
- The GET actions `CreatePost` and `Edit` only render a view and are not modelled. `HomeController` is not part of this model.
- `Path.IsPathRooted` and `Path.Combine` are modelled for Unix and Windows separators. Drive letters and UNC roots are not modelled.
- `Follow` and `Unfollow` find the target with `FirstOrDefault` by user name. The model relies on the unique user-name index, so there is one such user.
- Text.ToLower: only ASCII capitals are lower-cased. `ToLowerInvariant` also lower-cases other letters; of those, only U+0130 and U+212A become ASCII letters ('i' and 'k'). Neither occurs in ".jpg", ".jpeg" or ".png", so `IsImageFile` decides the same way.
- TimeFormat.AgeOf: `TotalMinutes`, `TotalHours` and `TotalDays` are doubles. The model divides the integer tick count exactly, so it does not capture a double quotient that rounds up to the next whole unit. That can only happen for spans of decades.
- Paths.GetFileName: on Windows, .NET also ends a drive-letter root at its colon, so "C:a.png" names "a.png". The model splits only at `/` and `\`.
- TimeFormat.UnclampedNegative: the profile controller casts `TotalMinutes` to `int` without a clamp (ProfileController.cs:97). For a creation time more than 2^31 minutes (about 4,083 years) in the future that value is outside the `int` range, and C# leaves the cast's result unspecified. The lemma states the exact truncated quotient for every future timestamp, so it does not capture that out-of-range cast.
- Repositories.Store.GetSavedPostsByUserId: `IUserRepository.cs:15` only declares the member. No implementation exists and nothing in the source fixes an order; the model chooses latest save first.
- ProfileActions.ProfileController.Edit: an invalid model returns `FormPage({""})`. The error keys that model binding itself added are not carried over; `modelValid` stands for all of them.
- Like.cs and Follower.cs are not part of this model; their constructors appear only as the rows `InsertLike` and `InsertFollow` create.

## Findings

| source | as written | input that shows it | evidently intended | confidence | as-written member | corrected member |
|---|---|---|---|---|---|---|
| ITPE3200X/Controllers/PostController.cs:355-373 | when new files are sent, the files of the post's current images are deleted (357-361) before the new files are validated (364-373); a refused file returns early, and the database still lists the old images | a post with one image "/uploads/a.png" whose file exists; an edit that sends one non-empty file "notes.txt" | validate every new file before deleting anything, and delete the old files only once the update is accepted | not executed | PostActions.EditPostAsWrittenLosesImage | PostActions.PostController.EditPostValidated |
