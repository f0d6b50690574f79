/** The post and comment actions of the blog, over an in-memory copy of the
    store: the posts table, the comments table and the next identity value.
    Index, Details, DetailsSlug and the GET forms of Edit and Delete only read
    the store; Create, Edit, DeleteConfirmed and CreateComment change it. */
module BlogPostsController {
  import opened BlogModel
  import opened BlogQueries

  /** Index shows one post per page. */
  const PageSize: int := 1

  /** The page Index shows: the requested one, or the first when none is given. */
  function PageNumber(page: Option<int>): int {
    if page.Some? then page.value else 1
  }

  /** A stored post after Edit has copied the five editable fields of `form` onto it at time `now`. */
  function Edited(p: Post, form: PostEdit, now: Timestamp): Post {
    p.(body := form.body, mediaUrl := form.mediaUrl, published := form.published,
       slug := form.slug, title := form.title, updated := Some(now))
  }

  /** The MediaUrl Create stores: the uploaded file's public path when the image was
      accepted, the submitted value otherwise. */
  function StoredMediaUrl(form: NewPost, image: Option<Upload>, accepted: bool): Option<string> {
    if accepted && image.Some? then Some(UploadsPath + FileName(image.value.fileName)) else form.mediaUrl
  }

  /** The table without its row `i`. */
  function RemoveAt(posts: seq<Post>, i: nat): seq<Post>
    requires i < |posts|
  {
    posts[..i] + posts[i + 1..]
  }

  /** Removing row `i` of a table with unique ids leaves one row fewer, still with unique ids:
      exactly the rows whose id differs from the removed one. */
  lemma RemoveAtKeepsOthers(posts: seq<Post>, i: nat)
    requires UniqueIds(posts) && i < |posts|
    ensures UniqueIds(RemoveAt(posts, i)) && |RemoveAt(posts, i)| == |posts| - 1
    ensures forall j :: 0 <= j < |RemoveAt(posts, i)| ==> RemoveAt(posts, i)[j].id != posts[i].id
    ensures forall q :: q in RemoveAt(posts, i) <==> q in posts && q.id != posts[i].id
  {
  }

  /** Editing row `i` keeps every row's id, so the ids stay unique, and the lookup of any
      other id finds the same, unchanged row as before. */
  lemma EditKeepsOtherRows(posts: seq<Post>, i: nat, form: PostEdit, now: Timestamp)
    requires UniqueIds(posts) && i < |posts|
    ensures var edited := posts[i := Edited(posts[i], form, now)];
      && UniqueIds(edited)
      && (forall j :: 0 <= j < |posts| ==> edited[j].id == posts[j].id)
      && forall id :: id != posts[i].id ==>
           && IndexOfId(edited, id) == IndexOfId(posts, id)
           && (IndexOfId(posts, id).Some? ==> edited[IndexOfId(posts, id).value] == posts[IndexOfId(posts, id).value])
  {
    var edited := posts[i := Edited(posts[i], form, now)];
    assert forall j :: 0 <= j < |posts| ==> edited[j].id == posts[j].id;
    forall id | id != posts[i].id
      ensures IndexOfId(edited, id) == IndexOfId(posts, id)
    {
      if IndexOfId(posts, id).Some? {
        IndexOfIdUnique(edited, IndexOfId(posts, id).value);
      }
    }
  }

  /** Edit can give two posts the same slug: it does not check slugs, so a form carrying
      another post's slug leaves two rows sharing it. */
  lemma EditCanDuplicateSlug(posts: seq<Post>, i: nat, j: nat, form: PostEdit, now: Timestamp)
    requires i < |posts| && j < |posts| && i != j
    requires form.slug == posts[j].slug
    ensures !UniqueSlugs(posts[i := Edited(posts[i], form, now)])
  {
    var edited := posts[i := Edited(posts[i], form, now)];
    assert edited[i].slug == edited[j].slug;
    if i < j { assert !UniqueSlugs(edited); } else { assert !UniqueSlugs(edited); }
  }

  /** A consistent store: ids are unique, and every post id and every post id a comment
      refers to is lower than the next identity value, so a new post never inherits
      earlier comments. */
  predicate ConsistentStore(posts: seq<Post>, comments: seq<Comment>, nextId: int) {
    && UniqueIds(posts)
    && (forall i :: 0 <= i < |posts| ==> posts[i].id < nextId)
    && (forall k :: 0 <= k < |comments| ==> comments[k].blogPostId < nextId)
  }

  /** A post id no comment refers to has no comments to show. */
  lemma NoCommentsYet(comments: seq<Comment>, postId: int)
    requires forall k :: 0 <= k < |comments| ==> comments[k].blogPostId != postId
    ensures CommentsOf(comments, postId) == []
  {
  }

  /** Appending a post under the next identity value to a table whose ids and comment
      references are all lower keeps ids unique and below the new next value, and the
      slug lookup of a slug no earlier post has finds the new post with no comments. */
  lemma AppendUnderNextId(posts: seq<Post>, comments: seq<Comment>, nextId: int, post: Post)
    requires ConsistentStore(posts, comments, nextId)
    requires post.id == nextId && !SlugTaken(posts, post.slug)
    ensures ConsistentStore(posts + [post], comments, nextId + 1)
    ensures MinIdWithSlug(posts + [post], post.slug) == Some(post)
    ensures CommentsOf(comments, post.id) == []
    ensures UniqueSlugs(posts) ==> UniqueSlugs(posts + [post])
  {
    var after := posts + [post];
    assert forall i :: 0 <= i < |posts| ==> after[i] == posts[i];
    MinIdWithSlugSole(after, |posts|);
    NoCommentsYet(comments, post.id);
  }

  class BlogPostsController {
    /** The posts table. */
    var posts: seq<Post>
    /** The comments table. */
    var comments: seq<Comment>
    /** The id the store's identity column gives the next inserted post. */
    var nextId: int

    /** The fields form a consistent store. */
    ghost predicate Valid()
      reads this
    {
      ConsistentStore(posts, comments, nextId)
    }

    /** A controller over the store as the database holds it when the request starts:
        its posts, its comments, and the next value of the posts' identity column. */
    constructor (posts0: seq<Post>, comments0: seq<Comment>, nextId0: int)
      requires ConsistentStore(posts0, comments0, nextId0)
      ensures Valid() && posts == posts0 && comments == comments0 && nextId == nextId0
    {
      posts, comments, nextId := posts0, comments0, nextId0;
    }

    /** GET Index: page `page` (the first when absent) of the posts, ordered by creation
        time and, for a search that is not blank, only those that match it. */
    function Index(page: Option<int>, search: Option<string>): (r: Outcome)
      reads this
      ensures PageNumber(page) < 1 <==> r == ServerError
      ensures PageNumber(page) >= 1 ==>
        && r.ListView?
        && r.searchString == search
        && r.page.pageNumber == PageNumber(page)
        && r.page.pageSize == 1
        && r.page.totalItemCount == |Listing(posts, comments, search)|
        && r.page.items == (if PageNumber(page) <= |Listing(posts, comments, search)|
                            then [Listing(posts, comments, search)[PageNumber(page) - 1]] else [])
      ensures r.ListView? ==> forall p :: p in r.page.items ==>
        p in posts && (IsNullOrWhiteSpace(search) || Matches(p, comments, search.value))
      ensures r.ListView? && IsNullOrWhiteSpace(search) ==> r.page.totalItemCount == |posts|
    {
      var n := PageNumber(page);
      if n < 1 then ServerError
      else
        var list := Listing(posts, comments, search);
        SingleItemPages(list, n);
        ListView(Page(PageItems(list, n, PageSize), n, PageSize, |list|), search)
    }

    /** GET Details: no id is a bad request, an id no post has is not found,
        otherwise the post with that id is shown. */
    function Details(id: Option<int>): (r: Outcome)
      reads this
      ensures r == BadRequest || r == NotFound || r.PostView?
      ensures r == BadRequest <==> id.None?
      ensures r == NotFound <==> id.Some? && forall i :: 0 <= i < |posts| ==> posts[i].id != id.value
      ensures r.PostView? ==> id.Some? && r.post in posts && r.post.id == id.value
      ensures id.Some? && UniqueIds(posts) ==>
        forall i :: 0 <= i < |posts| && posts[i].id == id.value ==> r == PostView(posts[i])
    {
      if id.None? then BadRequest
      else match IndexOfId(posts, id.value)
        case None => NotFound
        case Some(i) => PostView(posts[i])
    }

    /** GET Edit: the same lookup as Details. */
    function EditForm(id: Option<int>): (r: Outcome)
      reads this
      ensures r == Details(id)
    {
      Details(id)
    }

    /** GET Delete: the same lookup as Details. */
    function DeleteForm(id: Option<int>): (r: Outcome)
      reads this
      ensures r == Details(id)
    {
      Details(id)
    }

    /** GET DetailsSlug: no slug is a bad request, a slug no post has is not found,
        otherwise the post with that slug and the smallest id is shown with its comments. */
    function DetailsSlug(slug: Option<string>): (r: Outcome)
      reads this
      ensures r == BadRequest || r == NotFound || r.PostDetails?
      ensures r == BadRequest <==> slug.None?
      ensures r == NotFound <==> slug.Some? && !SlugTaken(posts, slug.value)
      ensures r.PostDetails? ==> slug.Some? && r.post in posts && r.post.slug == slug.value
      ensures r.PostDetails? ==>
        forall i :: 0 <= i < |posts| && posts[i].slug == slug.value ==> r.post.id <= posts[i].id
      ensures r.PostDetails? ==> forall c :: c in r.comments <==> c in comments && c.blogPostId == r.post.id
    {
      if slug.None? then BadRequest
      else match MinIdWithSlug(posts, slug.value)
        case None => NotFound
        case Some(p) => PostDetails(p, CommentsOf(comments, p.id))
    }

    /** POST Create. An invalid model, or a title whose slug a stored post already has,
        redisplays the form and adds nothing; otherwise the post is stored under a new id
        with the derived slug, and an accepted image gives it the upload's public path. */
    method Create(form: NewPost, modelValid: bool, image: Option<Upload>,
                  isWebFriendlyImage: Option<Upload> -> bool, urlFriendly: string -> string)
      returns (r: Outcome)
      requires Valid()
      modifies this`posts, this`nextId
      ensures Valid()
      ensures !modelValid ==>
        r == FormView(form.AsDraft(None), []) && posts == old(posts) && nextId == old(nextId)
      ensures modelValid && SlugTaken(old(posts), urlFriendly(form.title)) ==>
        && r == FormView(form.AsDraft(Some(urlFriendly(form.title))), [DuplicateSlug])
        && posts == old(posts) && nextId == old(nextId)
      ensures modelValid && !SlugTaken(old(posts), urlFriendly(form.title))
              && isWebFriendlyImage(image) && image.None? ==>
        r == ServerError && posts == old(posts) && nextId == old(nextId)
      ensures modelValid && !SlugTaken(old(posts), urlFriendly(form.title))
              && !(isWebFriendlyImage(image) && image.None?) ==>
        && r == RedirectToIndex
        && nextId == old(nextId) + 1
        && posts == old(posts) + [Post(old(nextId), DefaultCreated, None, form.title, urlFriendly(form.title),
                                       form.body, StoredMediaUrl(form, image, isWebFriendlyImage(image)),
                                       form.published)]
      ensures r == RedirectToIndex ==>
        DetailsSlug(Some(urlFriendly(form.title))) == PostDetails(posts[|posts| - 1], [])
      ensures UniqueSlugs(old(posts)) ==> UniqueSlugs(posts)
    {
      if !modelValid {
        return FormView(form.AsDraft(None), []);
      }
      var slug := urlFriendly(form.title);
      if SlugTaken(posts, slug) {
        return FormView(form.AsDraft(Some(slug)), [DuplicateSlug]);
      }
      var accepted := isWebFriendlyImage(image);
      if accepted && image.None? {
        // reading the file name of a missing upload throws
        return ServerError;
      }
      // an accepted upload is saved and its public path becomes the media URL
      var mediaUrl := StoredMediaUrl(form, image, accepted);
      AddPost(Post(nextId, DefaultCreated, None, form.title, slug, form.body, mediaUrl, form.published));
      r := RedirectToIndex;
    }

    /** Add and SaveChanges for a new post: the row is stored under the next identity
        value, which then moves on; a post whose slug no other post has is what its slug
        shows, still without comments. */
    method AddPost(post: Post)
      requires Valid() && post.id == nextId && !SlugTaken(posts, post.slug)
      modifies this`posts, this`nextId
      ensures Valid()
      ensures posts == old(posts) + [post] && nextId == old(nextId) + 1
      ensures DetailsSlug(Some(post.slug)) == PostDetails(post, [])
      ensures UniqueSlugs(old(posts)) ==> UniqueSlugs(posts)
    {
      AppendUnderNextId(posts, comments, nextId, post);
      posts := posts + [post];
      nextId := nextId + 1;
    }

    /** POST Edit. With a valid model the stored post with the form's id gets the form's
        body, media URL, published flag, slug and title and is stamped updated at `now`;
        no slug check is made, and an id no post has throws. An invalid model redisplays
        the form. */
    method Edit(form: PostEdit, modelValid: bool, now: Timestamp) returns (r: Outcome)
      requires Valid()
      modifies this`posts
      ensures Valid() && comments == old(comments) && nextId == old(nextId)
      ensures !modelValid ==> r == FormView(form.AsDraft(), []) && posts == old(posts)
      ensures modelValid && IndexOfId(old(posts), form.id).None? ==> r == ServerError && posts == old(posts)
      ensures modelValid && IndexOfId(old(posts), form.id).Some? ==>
        var i := IndexOfId(old(posts), form.id).value;
        r == RedirectToIndex && posts == old(posts)[i := Edited(old(posts)[i], form, now)]
      ensures r == RedirectToIndex ==>
        && old(Details(Some(form.id))).PostView?
        && Details(Some(form.id)) == PostView(Edited(old(Details(Some(form.id))).post, form, now))
      ensures forall id :: id != form.id ==> Details(Some(id)) == old(Details(Some(id)))
    {
      if !modelValid {
        return FormView(form.AsDraft(), []);
      }
      var found := IndexOfId(posts, form.id);
      if found.None? {
        // the missing post is dereferenced
        return ServerError;
      }
      var i := found.value;
      EditKeepsOtherRows(posts, i, form, now);
      posts := posts[i := Edited(posts[i], form, now)];
      r := RedirectToIndex;
    }

    /** POST Delete: removes the post with id `id`; an id no post has throws. */
    method DeleteConfirmed(id: int) returns (r: Outcome)
      requires Valid()
      modifies this`posts
      ensures Valid() && comments == old(comments) && nextId == old(nextId)
      ensures IndexOfId(old(posts), id).None? ==> r == ServerError && posts == old(posts)
      ensures IndexOfId(old(posts), id).Some? ==>
        r == RedirectToIndex && posts == RemoveAt(old(posts), IndexOfId(old(posts), id).value)
      ensures r == RedirectToIndex ==> Details(Some(id)) == NotFound && |posts| == |old(posts)| - 1
      ensures forall other :: other != id ==> Details(Some(other)) == old(Details(Some(other)))
    {
      var found := IndexOfId(posts, id);
      if found.None? {
        // removing a missing post throws
        return ServerError;
      }
      var i := found.value;
      ghost var before := posts;
      RemoveAtKeepsOthers(posts, i);
      posts := RemoveAt(posts, i);
      forall other | other != id ensures Details(Some(other)) == old(Details(Some(other))) {
        if k :| 0 <= k < |before| && before[k].id == other {
          assert before[k] in posts;
        }
      }
      r := RedirectToIndex;
    }

    /** POST CreateComment: no slug is a bad request and a slug no post has is not found;
        otherwise a comment by `userId`, made at `now`, is added to the first post with that
        slug and the caller is sent to that slug's details page. */
    method CreateComment(slug: Option<string>, body: string, userId: string, now: Timestamp)
      returns (r: Outcome)
      requires Valid()
      modifies this`comments
      ensures Valid()
      ensures slug.None? ==> r == BadRequest && comments == old(comments)
      ensures slug.Some? && !SlugTaken(posts, slug.value) ==> r == NotFound && comments == old(comments)
      ensures slug.Some? && SlugTaken(posts, slug.value) ==>
        && FirstIndex(posts, (p: Post) => p.slug == slug.value).Some?
        && var owner := posts[FirstIndex(posts, (p: Post) => p.slug == slug.value).value];
           r == RedirectToDetailsSlug(slug.value)
           && comments == old(comments) + [Comment(userId, owner.id, body, now)]
      ensures r.RedirectToDetailsSlug? && UniqueSlugs(posts) ==>
        && DetailsSlug(slug).PostDetails?
        && Comment(userId, DetailsSlug(slug).post.id, body, now) in DetailsSlug(slug).comments
    {
      if slug.None? {
        return BadRequest;
      }
      var found := FirstIndex(posts, (p: Post) => p.slug == slug.value);
      if found.None? {
        return NotFound;
      }
      var owner := posts[found.value];
      comments := comments + [Comment(userId, owner.id, body, now)];
      if UniqueSlugs(posts) {
        MinIdWithSlugSole(posts, found.value);
      }
      r := RedirectToDetailsSlug(slug.value);
    }
  }
}
