# Blog posts and comments: a verified model of the request handling

This project models the post and comment actions of a small server-rendered
blogging application, together with the seeding step that creates its two
fixed roles.

- **Data model** (`blog_model.dfy`, module `BlogModel`): a post row
  (`Post`, with id, created, optional updated, title, slug, body, optional
  media URL and published flag), a comment row (`Comment`, with author,
  owning post id, body and created), the objects Create and Edit bind from
  their forms (`NewPost`, `PostEdit`), and the outcomes an action returns
  (`Outcome`): bad request, not found, an unhandled exception
  (`ServerError`), a post view, a details view with comments, a paged list,
  a redisplayed form with its field errors, or a redirect. The module also
  holds the string rules the actions rely on: ordinal substring search,
  `string.IsNullOrWhiteSpace`, and the file-name part of an upload path.
- **Queries** (`blog_queries.dfy`, module `BlogQueries`): first-match
  lookup, the smallest id among the posts with a slug, a post's comments,
  the four-way OR search filter, ordering by creation time, and the page
  window of a paged list.
- **Controller** (`blog_posts_controller.dfy`, class
  `BlogPostsController.BlogPostsController`): the store is three fields.
  These are the posts table, the comments table and the next value of the
  identity column. The read-only actions (`Index`, `Details`,
  `DetailsSlug`, and the GET forms of Edit and Delete) are functions of
  those fields. The actions that change data (`Create`, `Edit`,
  `DeleteConfirmed`, `CreateComment`) are methods. Their contracts give the
  new tables exactly, and relate them to what the read-only actions show
  afterwards.
- **Seeding** (`configuration.dfy`, module `Configuration`): `Seed` works
  on a role-name table and a user-name table. It adds Admin and then
  Moderator, each only when no role of that name exists. It builds an
  admin user object but never adds it.

Inputs that come from outside `BlogPostsController` and `Configuration.Seed` are parameters. These are the
model-state verdict, the current time, the current user's id, the slug
function `StringUtilities.URLFriendly` and the image check
`ImageUploadValidator.IsWebFriendlyImage`. The last two are function-typed
parameters, so nothing is assumed about their algorithms, except that each
is a function of its argument.

Some behaviour follows the code as written rather than what the
application's design suggests:

- A new post's Created might be expected to be stamped at insert time.
  The Create action never assigns Created, and Created is not among the
  bound fields. The model therefore stores `DefaultCreated`, the type's
  default value.
- Edit and confirmed Delete have no guard for a missing id. The code
  dereferences the missing post (Edit) or removes a null entity (Delete),
  and both throw. The model answers `ServerError` and leaves the store as
  it was.
- The paged list throws for a page number below 1. `Index` answers
  `ServerError` for such a page. A page past the end is empty, not an
  error.
- `CreateComment` picks its post with an unordered `FirstOrDefault`, while
  `DetailsSlug` orders by id. The model takes the first post in table
  order for the comment. Once two posts share a slug (Edit does not stop
  that, see `EditCanDuplicateSlug`), the page the redirect leads to may
  show a different post from the one that got the comment. So
  `CreateComment` only promises the comment appears there when slugs are
  unique.

## Model

| member | source | states |
|---|---|---|
| `BlogModel.FileName` | BlogApplication/Controllers/BlogPostsController.cs:97 | the stored file name is the longest suffix of the client's path that holds no directory or volume separator |
| `BlogQueries.FirstIndex` | BlogApplication/Controllers/BlogPostsController.cs:186-188 | FirstOrDefault finds nothing exactly when no row matches; otherwise it finds a matching row with no match before it |
| `BlogQueries.IndexOfIdUnique` | BlogApplication/Controllers/BlogPostsController.cs:45 | with unique ids, looking up a post's id finds that post's row |
| `BlogQueries.MinIdWithSlug` | BlogApplication/Controllers/BlogPostsController.cs:60-64 | a post is found exactly when some post has the slug; the found post has the slug and the smallest id among those that do |
| `BlogQueries.MinIdWithSlugSole` | BlogApplication/Controllers/BlogPostsController.cs:60-64 | when only one row has a slug, the slug lookup returns that row |
| `BlogQueries.CommentsOf` | BlogApplication/Controllers/BlogPostsController.cs:61 | a post's loaded comments are exactly the comments whose owning post id is the post's id, each with as many copies as the comments table holds |
| `BlogQueries.Filter` | BlogApplication/Controllers/BlogPostsController.cs:30-31 | a post is kept exactly when its title, body or slug contains the search, or one of its comments' bodies does; each kept post keeps its number of copies |
| `BlogQueries.InsertByCreated` | BlogApplication/Controllers/BlogPostsController.cs:26 | inserting a post into a list sorted by creation time gives a sorted list holding the same posts plus the new one |
| `BlogQueries.SortByCreated` | BlogApplication/Controllers/BlogPostsController.cs:26 | the ordered list is sorted ascending by creation time and is a permutation of its input |
| `BlogQueries.Listing` | BlogApplication/Controllers/BlogPostsController.cs:26-32 | the listed posts are sorted by creation time; a blank search lists a permutation of all posts, a non-blank one exactly the matching posts |
| `BlogQueries.PageStart` | BlogApplication/Controllers/BlogPostsController.cs:33 | the first page skips nothing; with one item per page, page n skips n - 1 items |
| `BlogQueries.PageItems` | BlogApplication/Controllers/BlogPostsController.cs:33 | a page holds the items after all earlier pages, at most a page size of them, in list order, and nothing past the end |
| `BlogQueries.SingleItemPages` | BlogApplication/Controllers/BlogPostsController.cs:24-25 | with one item per page, page n is exactly the n-th listed post, or empty past the end |
| `BlogQueries.ContainsIffOccurs` | BlogApplication/Controllers/BlogPostsController.cs:30-31 | the substring test holds exactly when the search occurs at some position of the text |
| `BlogQueries.CommentHitListsPost` | BlogApplication/Controllers/BlogPostsController.cs:31 | a search found in one of a post's comment bodies lists that post |
| `BlogPostsController.RemoveAtKeepsOthers` | BlogApplication/Controllers/BlogPostsController.cs:171-172 | removing a post's row leaves one row fewer with unique ids, no row with the removed id, and every row with another id |
| `BlogPostsController.EditCanDuplicateSlug` | BlogApplication/Controllers/BlogPostsController.cs:135-142 | whenever the form carries the slug of another post, Edit's field copy leaves two posts with the same slug, because it checks no slugs |
| `BlogPostsController.BlogPostsController.constructor` | BlogApplication/Controllers/BlogPostsController.cs:19 | the controller's context opens over whatever the database holds: any posts table with unique ids, any comments table, and the next identity value above every id a post has or a comment refers to |
| `BlogPostsController.BlogPostsController.Index` | BlogApplication/Controllers/BlogPostsController.cs:22-36 | a page below 1 throws; otherwise page n (1 when absent) of one post is the n-th post of the creation-ordered listing, or empty past the end; every listed post matches a non-blank search; the search string is handed back |
| `BlogPostsController.BlogPostsController.Details` | BlogApplication/Controllers/BlogPostsController.cs:39-51 | no id is a bad request; an id no post has is not found; otherwise the post with that id is shown |
| `BlogPostsController.BlogPostsController.EditForm` | BlogApplication/Controllers/BlogPostsController.cs:112-124 | the GET Edit action answers exactly what Details answers for the same id |
| `BlogPostsController.BlogPostsController.DeleteForm` | BlogApplication/Controllers/BlogPostsController.cs:152-164 | the GET Delete action answers exactly what Details answers for the same id |
| `BlogPostsController.BlogPostsController.DetailsSlug` | BlogApplication/Controllers/BlogPostsController.cs:54-70 | no slug is a bad request; a slug no post has is not found; otherwise the post with that slug and the smallest id is shown, with exactly its comments |
| `BlogPostsController.BlogPostsController.Create` | BlogApplication/Controllers/BlogPostsController.cs:83-109 | an invalid model redisplays the form and adds nothing; a derived slug already in use adds nothing and redisplays the form, with that slug and a Title error; otherwise exactly one post is appended under a new id, with the derived slug, the default Created and the upload path as media URL when the image is accepted; a validator accepting a missing upload throws; slugs stay unique if they were, and the new post is what its slug shows, with no comments |
| `BlogPostsController.BlogPostsController.AddPost` | BlogApplication/Controllers/BlogPostsController.cs:103-104 | the new row is appended under the next identity value, which moves on by one; the store stays consistent; a post whose slug no other post has is what its slug shows, with no comments, and unique slugs stay unique |
| `BlogPostsController.BlogPostsController.Edit` | BlogApplication/Controllers/BlogPostsController.cs:131-149 | an invalid model redisplays the form and changes nothing; an id no post has throws and changes nothing; otherwise that post gets the form's body, media URL, published flag, slug and title and updated = now, while its id, created, the comments and all other posts stay, and Details shows the edited post |
| `BlogPostsController.BlogPostsController.DeleteConfirmed` | BlogApplication/Controllers/BlogPostsController.cs:169-175 | an id no post has throws and changes nothing; otherwise exactly the post with that id is removed, Details for it is then not found, and Details for every other id answers as before |
| `BlogPostsController.BlogPostsController.CreateComment` | BlogApplication/Controllers/BlogPostsController.cs:179-205 | no slug is a bad request and an unknown slug is not found, both adding nothing; otherwise exactly one comment by the current user, at now, with the given body, is appended to the first post with the slug, and the answer redirects to that slug's details, which with unique slugs show the new comment; posts never change, and the store stays consistent (the comment refers to an existing post, so to an id below the next identity value) |
| `Configuration.EnsureRole` | BlogApplication/Migrations/Configuration.cs:30-33 | after ensuring a role, its name is present; the table keeps every earlier role in place, grows by at most one name, and gains no duplicate |
| `Configuration.EnsureRoleIdempotent` | BlogApplication/Migrations/Configuration.cs:35-38 | ensuring the same role twice gives the same table as ensuring it once |
| `Configuration.SeededRolesIdempotent` | BlogApplication/Migrations/Configuration.cs:30-38 | seeding an already seeded role table changes nothing |
| `Configuration.SeededRolesKeepsOthers` | BlogApplication/Migrations/Configuration.cs:30-38 | seeding keeps every earlier role in its place and adds no name other than Admin and Moderator |
| `Configuration.SeedContext.Seed` | BlogApplication/Migrations/Configuration.cs:20-48 | afterwards Admin and Moderator exist, no earlier role is removed or moved, no other name is added, no duplicate appears, and the users are unchanged |
| `Configuration.SeedTwice` | BlogApplication/Migrations/Configuration.cs:30-38 | running Seed twice leaves the same roles as running it once |

## Left out

- Framework behaviour is not modelled. This covers HTTPS-only routing, anti-forgery tokens, the `[Authorize]` check before `CreateComment`, view rendering and routing of redirects, and `Dispose`. A view or redirect is only an `Outcome` tag.
- GET Create only returns an empty form and reads no data, so it has no member.
- Writing the upload to disk (`Server.MapPath`, `SaveAs`) is file I/O. Only the resulting media URL is kept, and a failing write is not modelled.
- `BlogModel.FileName`: throwing on invalid path characters (as `Path.GetFileName` does) is not modelled. Only the separator rule is.
- `StringUtilities.URLFriendly` and `ImageUploadValidator.IsWebFriendlyImage` are not part of this model. They are function-typed parameters of `Create`.
- `ModelState.IsValid`, `DateTime.Now` and `User.Identity.GetUserId()` are method inputs. Timestamps are plain integers, with no clock arithmetic.
- Timestamps are compared with nothing, so "updated is not earlier than created" is not stated; Edit only promises updated = now.
- Null strings in bound forms are not modelled: every bound title, slug and body is a string. Only the media URL and the updated time are optional.
- The store's collation is not modelled: no case-insensitive or trailing-blank-insensitive comparison. Searches and slug comparisons are ordinal.
- The SQL store leaves the order of posts with equal creation times unspecified, and likewise the row an unordered `FirstOrDefault` returns. The model uses table order for both.
- Validation errors the model binder adds are not modelled. A redisplayed form lists only the errors the action itself adds.
- Comment ids and the eager loading of each comment's author are not modelled. No action reads either.
- Whether deleting a post cascades to its comments depends on a schema that is not part of this model. The model keeps the comments. Ids are never reused, so they never attach to a later post: the store invariant keeps every id a comment refers to below the next identity value, and `Create` shows the new post with no comments.
- Paged-list details beyond the page's items, number, size and total count are not modelled, such as page count and next/previous flags.
- Concurrency is out of scope for a sequential model, including the race between two creates that check the same slug.
- Of the identity store, only role names and user names are modelled. `RoleManager` and `UserManager` internals are not.
- `MediaURL` and `MediaUrl` on BlogPost are one optional media URL field in the model.
