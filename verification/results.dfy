/** What a controller action returns, reduced to what the model can tell
    apart: the status, the view and its model, or the redirect target. */
module Results {
  import opened Text
  import opened ViewModels

  datatype ActionResult =
    | Unauthorized
    | NotFound
    | Forbid
    | BadRequest
      /** `BadRequest(ModelState)`, carrying the keys of the recorded errors. */
    | InvalidRequest(errors: set<string>)
      /** An exception the action does not catch: the framework answers 500. */
    | ServerError
      /** A form shown again (`View()`, `View(model)`), with the keys of the
          recorded errors. */
    | FormPage(errors: set<string>)
    | EditPostPage(form: EditPostViewModel)
      /** `PartialView("_PostPartial", model)`; the model is null when the
          post is gone. */
    | PostPartial(card: Option<PostViewModel>)
    | SavedPostsPage(posts: seq<PostViewModel>)
    | ProfilePage(profile: ProfileViewModel)
    | RedirectToEditPost(postId: string)
    | RedirectToProfile(userName: Option<string>)
    | RedirectToHome
}
