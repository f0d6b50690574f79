/** The records of the blog's store, the bound form objects the post actions
    receive, the outcomes they return, and the small string rules the actions
    rely on (substring search, blank search strings, upload file names). */
module BlogModel {

  datatype Option<+T> = None | Some(value: T)

  /** A point in time, handed in by the caller; nothing here does clock arithmetic. */
  type Timestamp = int

  /** default(DateTimeOffset), the value a Created property holds when nothing assigns it. */
  const DefaultCreated: Timestamp := 0

  /** One row of the posts table (BlogPost). */
  datatype Post = Post(
    id: int,
    created: Timestamp,
    updated: Option<Timestamp>,
    title: string,
    slug: string,
    body: string,
    mediaUrl: Option<string>,
    published: bool)

  /** One row of the comments table; `blogPostId` is the owning post's id. */
  datatype Comment = Comment(authorId: string, blogPostId: int, body: string, created: Timestamp)

  /** What Create binds from the form: Id, Title, Body, MediaUrl and Published. */
  datatype NewPost = NewPost(id: int, title: string, body: string, mediaUrl: Option<string>, published: bool)
  {
    /** The bound object as a form view shows it; Slug is set only once it was derived. */
    function AsDraft(slug: Option<string>): Draft {
      Draft(id, title, slug, body, mediaUrl, published)
    }
  }

  /** What Edit binds from the form: Id, Title, Slug, Body, MediaUrl and Published. */
  datatype PostEdit = PostEdit(id: int, title: string, slug: string, body: string, mediaUrl: Option<string>, published: bool)
  {
    /** The bound object as a form view shows it. */
    function AsDraft(): Draft {
      Draft(id, title, Some(slug), body, mediaUrl, published)
    }
  }

  /** A submitted post as a redisplayed form shows it. */
  datatype Draft = Draft(id: int, title: string, slug: Option<string>, body: string, mediaUrl: Option<string>, published: bool)

  /** A field-level validation message added to the model state. */
  datatype FieldError = FieldError(field: string, message: string)

  /** The error Create records when the derived slug is already used. */
  const DuplicateSlug: FieldError := FieldError("Title", "This slug already exist")

  /** An uploaded file; `fileName` is the name the client sent, possibly with a path. */
  datatype Upload = Upload(fileName: string)

  /** The public path under which uploaded images are served. */
  const UploadsPath: string := "/Uploads/"

  /** One page of a paged listing. */
  datatype Page = Page(items: seq<Post>, pageNumber: int, pageSize: int, totalItemCount: nat)

  /** What an action answers. */
  datatype Outcome =
    | BadRequest                                        // HTTP 400
    | NotFound                                          // HTTP 404
    | ServerError                                       // an unhandled exception, HTTP 500; nothing saved
    | PostView(post: Post)                              // a view of one post
    | PostDetails(post: Post, comments: seq<Comment>)   // the details view with the post's comments loaded
    | ListView(page: Page, searchString: Option<string>)
    | FormView(draft: Draft, errors: seq<FieldError>)   // the submitted form redisplayed; `errors` lists only
                                                        // the errors the action itself adds, not the binder's
    | RedirectToIndex
    | RedirectToDetailsSlug(slug: string)

  /** `sub` occurs in `text` at some position (ordinal comparison). */
  predicate Contains(text: string, sub: string)
    decreases |text|
  {
    sub <= text || (|text| > 0 && Contains(text[1..], sub))
  }

  /** The characters Char.IsWhiteSpace accepts: the Unicode space, line and
      paragraph separators, and the controls U+0009 to U+000D and U+0085. The set
      follows the Unicode data of the .NET Framework runtimes, from before Unicode 6.3,
      in which U+180E (Mongolian vowel separator) was still a space separator. */
  predicate IsWhiteSpace(c: char) {
    var n := c as int;
    n == 0x20 || 0x09 <= n <= 0x0D || n == 0x85 || n == 0xA0 || n == 0x1680 || n == 0x180E
    || 0x2000 <= n <= 0x200A || n == 0x2028 || n == 0x2029 || n == 0x202F
    || n == 0x205F || n == 0x3000
  }

  /** string.IsNullOrWhiteSpace: absent, or made only of white space (so also empty). */
  predicate IsNullOrWhiteSpace(s: Option<string>) {
    s.None? || forall i :: 0 <= i < |s.value| ==> IsWhiteSpace(s.value[i])
  }

  /** The separators Path.GetFileName recognises: directory, alternative directory and volume. */
  predicate IsPathSeparator(c: char) {
    c == '\\' || c == '/' || c == ':'
  }

  /** Path.GetFileName: what follows the last separator, or the whole path when there is none. */
  function FileName(path: string): (r: string)
    ensures |r| <= |path| && r == path[|path| - |r|..]
    ensures forall i :: 0 <= i < |r| ==> !IsPathSeparator(r[i])
    ensures |r| < |path| ==> IsPathSeparator(path[|path| - |r| - 1])
    decreases |path|
  {
    if |path| == 0 then ""
    else if IsPathSeparator(path[|path| - 1]) then ""
    else FileName(path[..|path| - 1]) + [path[|path| - 1]]
  }
}
