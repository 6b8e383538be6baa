# Blogicum: visibility and ownership rules, in Dafny

Blogicum is a small blog. Users write posts, file them under categories and
locations, and comment on each other's posts. This project models the rules
that decide who sees a post and who may change posts and comments, and the
record store those rules read and write.

- `tables.dfy` (module `Tables`): a table is a sequence of rows. It defines
  lookups by a key column (`Find`), unique constraints (`DistinctBy`),
  filtering (`Filter`) and a stable sort (`SortBy`), with their proofs.
- `models.dfy` (module `Models`): the records `User`, `Category`,
  `Location`, `Post` and `Comment`. It also holds the display strings, the
  post's field defaults, the database constraints (`Consistent`) and the
  class `Store`. The store keeps one `seq` field per table. Its methods are
  the row-level saves and deletes, with the `on_delete` rules of each
  foreign key.
- `views.dfy` (module `Views`): the post detail page, the index, category
  and profile listings, and pagination, all as functions of the tables and
  the clock `now`. It also has the six handlers that write, as methods on a
  `Store`.
- `properties.dfy` (module `Properties`): lemmas that relate several
  operations to each other.

A requester is `Option<UserId>`, where `None` is an anonymous visitor.
Time is an integer. The pub_date ordering `order_by('-pub_date')` becomes a
stable sort on the key `-pubDate`.

The model follows the code as written. In particular:
- Only a comment's author finds the comment to edit or delete it. Staff get
  not-found too, because the lookup filters on `author=request.user`. The
  staff checks in both `form_valid` overrides run after that lookup and can
  never fire. `CommentDeleteView.form_valid` is never called at all under
  Django 3.2, where a POST to a `DeleteView` goes to `delete()`.
- The index compares `pub_date < now` strictly. The detail and category
  pages use `<=`.
- On a post without a category, the detail page fails instead of saying
  not-found (see Findings).
- Tie order among equal dates is not defined by the code. The model keeps
  table order.
- A non-author's edit attempt goes to the post's page. A non-author's
  delete attempt goes to the index.
- The edit view looks up the post before it checks the login. So a missing
  post is not-found even for an anonymous visitor, and an anonymous
  visitor is sent to the post, not to the login page.

## Model

| member | source | states |
|---|---|---|
| `Models.Truncated` | blogicum/blog/models.py:8 | `s[:LIMIT]` is a prefix of `s` of length at most 30; it is `s` itself when `s` is short and exactly 30 long otherwise |
| `Models.CategoryStr` | blogicum/blog/models.py:27-28 | a category prints as a prefix of its title, at most 30 characters, the whole title when it is short |
| `Models.LocationStr` | blogicum/blog/models.py:41-42 | a location prints as its full name, not truncated |
| `Models.PostStr` | blogicum/blog/models.py:90-91 | a post prints as a prefix of its title, at most 30 characters, the whole title when it is short |
| `Models.PostDefaults` | blogicum/blog/models.py:57-65 | a post built from defaults alone is published, dated `now`, and has no category or location |
| `Models.PostsBy` | blogicum/blog/models.py:46-50 | the set of ids of the posts a user wrote: every post by the user is in it, and nothing else is |
| `Models.ClearCategory` | blogicum/blog/models.py:73-78 | SET_NULL on a category: every post stays in place; references to that category become null, and nothing else changes |
| `Models.ClearLocation` | blogicum/blog/models.py:66-72 | SET_NULL on a location: every post stays in place; references to that location become null, and nothing else changes |
| `Models.Store.InsertPost` | blogicum/blog/views.py:66-68 | saving a new post appends it under a fresh id, keeps the constraints, and changes no other table |
| `Models.Store.UpdatePost` | blogicum/blog/views.py:89-90 | saving an existing post replaces that row only, keeps the constraints, and changes no other table |
| `Models.Store.DeletePost` | blogicum/blog/models.py:95-96 | deleting a post removes that row and, by CASCADE, exactly the comments on it; the constraints hold afterwards |
| `Models.Store.InsertComment` | blogicum/blog/models.py:100-101 | saving a new comment appends it under a fresh id with `pub_date = now` (auto_now_add) |
| `Models.Store.UpdateComment` | blogicum/blog/models.py:94-101 | saving an existing comment replaces that row only; no date is stamped |
| `Models.Store.DeleteComment` | blogicum/blog/views.py:187-190 | deleting a comment removes exactly that row |
| `Models.Store.DeleteCategory` | blogicum/blog/models.py:73-78 | deleting a category removes it, keeps every post and nulls the references to it; the constraints hold afterwards |
| `Models.Store.DeleteLocation` | blogicum/blog/models.py:66-72 | deleting a location removes it, keeps every post and nulls the references to it; the constraints hold afterwards |
| `Models.Store.DeleteUser` | blogicum/blog/models.py:46-98 | deleting a user removes their posts, their comments, and every comment on their posts, and leaves no dangling reference |
| `Views.ApplyPostForm` | blogicum/blog/forms.py:21-22 | a post form sets title, text, pub_date, location and category only; id, author and is_published are kept |
| `Views.ValidFormResolves` | blogicum/blog/models.py:66-78 | a valid post form names only existing categories and locations, so the saved post's foreign keys resolve |
| `Views.CommentCount` | blogicum/blog/views.py:204 | `num_comments` is at most the number of comments, and is zero exactly when no comment is on the post |
| `Views.PostComments` | blogicum/blog/views.py:124-127 | the comments under a post are exactly the comments on it, oldest first; there are `num_comments` of them |
| `Views.PostDetailAsWritten` | blogicum/blog/views.py:108-117 | the detail page as the code computes it. A missing post is not-found. The post is shown exactly when the requester is its author, or it is published, not future-dated and in a published category. It fails exactly when a non-author asks for a published, past-dated post whose category cannot be dereferenced |
| `Views.PostDetail` | blogicum/blog/views.py:108-117 | the corrected detail page: shown exactly when the author asks or the post is public; not-found otherwise; never a failure |
| `Views.Listing` | blogicum/blog/views.py:204 | filter, `order_by('-pub_date')` and `annotate`: the rows are exactly the matching posts, each with its multiplicity; they are newest first, and each carries its comment count |
| `Views.Index` | blogicum/blog/views.py:200-204 | the index holds exactly the published posts with pub_date strictly before `now` in a published category, newest first, each with its comment count |
| `Views.CategoryPosts` | blogicum/blog/views.py:212-218 | not-found unless the slug names a published category; otherwise exactly that category's published posts with pub_date at or before `now`, newest first, with comment counts |
| `Views.Profile` | blogicum/blog/views.py:31-35 | not-found unless the username exists; otherwise exactly that user's posts, drafts and future posts included, newest first, with comment counts; the requester is not an input |
| `Views.Page` | blogicum/blog/views.py:205-207 | a page is a run of at most 10 consecutive rows of the listing, starting at row 10 times the page index |
| `Views.CreatePostView` | blogicum/blog/views.py:63-74 | anonymous visitors go to log in and an invalid form is shown again; neither changes anything. A valid form appends one post authored by the requester, published by default, and redirects to the requester's profile |
| `Views.EditPostView` | blogicum/blog/views.py:85-101 | a missing post is not-found. Anyone but the author, anonymous included, is redirected to the post with nothing changed. For the author, a valid form changes only the form's fields of that one post |
| `Views.PostDeleteView` | blogicum/blog/views.py:140-145 | anonymous visitors go to log in and a missing post is not-found. A non-author is redirected to the index with nothing deleted. The author's post and its comments are deleted, and the author goes to their profile |
| `Views.AddCommentView` | blogicum/blog/views.py:149-157 | anonymous visitors go to log in and a missing post is not-found. Otherwise a valid form appends one comment on the URL's post, by the requester, dated `now`; visibility is not checked. Valid or not, the requester goes back to the post |
| `Views.OwnComment` | blogicum/blog/views.py:168-171 | the comment lookup succeeds exactly for the comment's author; staff status plays no part |
| `Views.EditCommentView` | blogicum/blog/views.py:168-177 | anonymous visitors go to log in and a non-author is not-found. For the author, a valid form changes that comment's text only, keeping its date, and redirects to the comment's own post, whatever post the URL names |
| `Views.CommentDeleteView` | blogicum/blog/views.py:187-190 | anonymous visitors go to log in and a non-author is not-found. For the author, exactly that comment is deleted and the author is redirected to its post |
| `Properties.AuthorAlwaysSeesOwnPost` | blogicum/blog/views.py:111 | the author is shown their own post whatever its flag, date or category |
| `Properties.ScheduledPostHiddenUntilDue` | blogicum/blog/views.py:110-113 | a future-dated post is not-found for anyone but its author; once its date comes it is shown exactly when it is published and its category is published |
| `Properties.IndexPostIsViewable` | blogicum/blog/views.py:200-204 | every post listed on the index opens on the detail page for every requester |
| `Properties.CategoryPostIsViewable` | blogicum/blog/views.py:213-218 | every post listed on a category page opens on the detail page for every requester |
| `Properties.PostDatedNowOnlyOnCategoryPage` | blogicum/blog/views.py:200-218 | a published post in a published category dated exactly `now` is on its category page but not on the index |
| `Properties.ProfileListsEveryPostOfItsUser` | blogicum/blog/views.py:32-35 | every post a user wrote is on their profile page, with no condition on its flag or date |
| `Properties.UncategorisedPostFailsDetail` | blogicum/blog/views.py:110-117 | for a published, past-dated post without a category, asked for by a non-author, the code fails and the corrected view says not-found |
| `Properties.UncategorisedPostWitness` | blogicum/blog/views.py:113 | a one-post store with an anonymous requester in which the code fails |
| `Properties.CategoryDeletionExposesFailure` | blogicum/blog/models.py:73-78 | after a category is deleted, each published past post that was in it fails on the detail page for every non-author |
| `Properties.DetailAgreesExceptOnFailure` | blogicum/blog/views.py:108-117 | whenever the code does not fail, it gives the same answer as the corrected view |
| `Properties.CommentCountAfterAdd` | blogicum/blog/views.py:152-156 | adding a comment raises its post's `num_comments` by one and leaves every other post's count alone |
| `Properties.CommentCountIsNumberOfComments` | blogicum/blog/views.py:204 | `num_comments` of a post equals the number of positions in the comment table whose comment is on that post |
| `Properties.CommentCountAfterPostDeletion` | blogicum/blog/models.py:95-96 | after the cascade from deleting a post, its comment count is zero and every other post's count is unchanged |
| `Properties.PageHoldsRow` | blogicum/blog/views.py:36-38 | row `i` of a listing is row `i mod 10` of page `i div 10`, so the pages together cover the listing |
| `Properties.UserDeletionKeepsExactly` | blogicum/blog/models.py:95-98 | after a user is deleted, a comment survives exactly when the user wrote neither the comment nor its post |
| `Properties.CategoryDeletionKeepsPosts` | blogicum/blog/models.py:73-78 | deleting a category keeps every post: an unaffected post stays as it was, and an affected one stays with its category nulled |

## Left out

- `Views.Page`: pages are counted from 0, and an index past the end gives an empty page. Django's `get_page` sends a missing or non-numeric page number to page 1 and an out-of-range one to the last page. That library code is not part of this model.
- Tie order: posts with equal `pub_date` keep their table order. The code leaves their order to the database.
- Form validation is reduced to these rules: a required, non-empty title of at most 256 characters; non-empty text; a category that is required and exists; and a location that is optional but exists when given. Whitespace stripping and image validation are left out.
- Images and file storage: the `image` field is not modelled.
- The GET handlers that only render a form or a confirmation page, the templates, `EditProfileView` (a stock edit of the user's own fields) and the debugging output are left out.
- The URL routing, the admin registrations and the migration history are left out.
- Authentication and sessions are given, not modelled: the requester is an input. A signed-in requester is assumed to be a row of the user table. The login redirect is `RedirectToLogin`, without its `next` parameter.
- `timezone.now()` is the integer parameter `now`. Time zones are not modelled.
- Transactions and concurrent requests are left out. Each handler runs alone on the store.
- Creating and editing users, categories and locations happen through the admin and registration, and are not modelled. The store is any state that satisfies `Store.Valid()`.
- The `created_at` field and the `is_published` default of categories and locations come from a shared base model. That base model is not part of this model.
- `Views.UsernameOf` returns `""` for an unknown user id. For a signed-in requester this case never happens.

## Findings

| source | as written | input that shows it | evidently intended | confidence | as-written member | corrected member |
|---|---|---|---|---|---|---|
| blogicum/blog/views.py:110-117 | `post.category.is_published` is evaluated even when `post.category` is None, which raises AttributeError (a server error) | a published post with `pub_date <= now` whose category was deleted (SET_NULL), requested by anyone but its author | answer not-found, as for any other post that is not public | high; not executed | `Views.PostDetailAsWritten` (shown by `Properties.UncategorisedPostWitness` and `Properties.CategoryDeletionExposesFailure`) | `Views.PostDetail` (never fails; shown exactly when `MayView` holds) |
