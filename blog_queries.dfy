/** The queries the post actions run against the posts and comments tables:
    first-match lookup, lookup of the smallest id with a slug, the search filter,
    ordering by creation time, and the page window of a paged list. */
module BlogQueries {
  import opened BlogModel

  /** No two rows of the posts table share an id (it is the primary key). */
  predicate UniqueIds(posts: seq<Post>) {
    forall i, j :: 0 <= i < j < |posts| ==> posts[i].id != posts[j].id
  }

  /** No two rows of the posts table share a slug. */
  predicate UniqueSlugs(posts: seq<Post>) {
    forall i, j :: 0 <= i < j < |posts| ==> posts[i].slug != posts[j].slug
  }

  /** Some stored post has the slug `slug` (the Any query Create runs). */
  predicate SlugTaken(posts: seq<Post>, slug: string) {
    exists i :: 0 <= i < |posts| && posts[i].slug == slug
  }

  /** The index of the first row that satisfies `wanted`, as FirstOrDefault finds it. */
  function FirstIndex(posts: seq<Post>, wanted: Post -> bool): (r: Option<nat>)
    ensures r.None? <==> forall i :: 0 <= i < |posts| ==> !wanted(posts[i])
    ensures r.Some? ==> r.value < |posts| && wanted(posts[r.value])
    ensures r.Some? ==> forall i :: 0 <= i < r.value ==> !wanted(posts[i])
    decreases |posts|
  {
    if |posts| == 0 then None
    else if wanted(posts[0]) then Some(0)
    else match FirstIndex(posts[1..], wanted)
      case None => None
      case Some(k) => Some(k + 1)
  }

  /** The index of the row whose id is `id` (what Find looks up by primary key). */
  function IndexOfId(posts: seq<Post>, id: int): Option<nat> {
    FirstIndex(posts, (p: Post) => p.id == id)
  }

  /** With unique ids, the row found for `id` is the only one that has it. */
  lemma IndexOfIdUnique(posts: seq<Post>, i: nat)
    requires UniqueIds(posts) && i < |posts|
    ensures IndexOfId(posts, posts[i].id) == Some(i)
  {
  }

  /** The post with `slug` whose id is smallest, as Where(Slug == slug).OrderBy(Id).FirstOrDefault() finds it. */
  function MinIdWithSlug(posts: seq<Post>, slug: string): (r: Option<Post>)
    ensures r.Some? <==> SlugTaken(posts, slug)
    ensures r.Some? ==> r.value in posts && r.value.slug == slug
    ensures r.Some? ==> forall i :: 0 <= i < |posts| && posts[i].slug == slug ==> r.value.id <= posts[i].id
    decreases |posts|
  {
    if |posts| == 0 then None
    else
      var rest := MinIdWithSlug(posts[1..], slug);
      assert forall i :: 1 <= i < |posts| ==> posts[i] == posts[1..][i - 1];
      if posts[0].slug != slug then rest
      else if rest.Some? && rest.value.id < posts[0].id then rest
      else Some(posts[0])
  }

  /** When row `i` alone has its slug, the smallest-id match is that row, whichever row a query meets first. */
  lemma MinIdWithSlugSole(posts: seq<Post>, i: nat)
    requires i < |posts|
    requires forall j :: 0 <= j < |posts| && j != i ==> posts[j].slug != posts[i].slug
    ensures MinIdWithSlug(posts, posts[i].slug) == Some(posts[i])
  {
  }

  /** The comments whose owning post is `postId`, in table order (a post's Comments collection). */
  function CommentsOf(comments: seq<Comment>, postId: int): (r: seq<Comment>)
    ensures forall c :: c in r <==> c in comments && c.blogPostId == postId
    ensures forall c :: multiset(r)[c] == if c.blogPostId == postId then multiset(comments)[c] else 0
    ensures |r| <= |comments|
    decreases |comments|
  {
    if |comments| == 0 then []
    else
      var rest := CommentsOf(comments[1..], postId);
      assert comments == [comments[0]] + comments[1..];
      assert forall c :: c in comments <==> c == comments[0] || c in comments[1..];
      if comments[0].blogPostId == postId then [comments[0]] + rest else rest
  }

  /** The search condition of Index: Title, Body or Slug contains `search`, or the
      body of one of the post's comments does. */
  predicate Matches(p: Post, comments: seq<Comment>, search: string) {
    || Contains(p.title, search)
    || Contains(p.body, search)
    || Contains(p.slug, search)
    || exists i :: 0 <= i < |comments| && comments[i].blogPostId == p.id && Contains(comments[i].body, search)
  }

  /** The posts that match `search`, in table order. */
  function Filter(posts: seq<Post>, comments: seq<Comment>, search: string): (r: seq<Post>)
    ensures forall p :: p in r <==> p in posts && Matches(p, comments, search)
    ensures forall p :: multiset(r)[p] == if Matches(p, comments, search) then multiset(posts)[p] else 0
    decreases |posts|
  {
    if |posts| == 0 then []
    else
      var rest := Filter(posts[1..], comments, search);
      assert posts == [posts[0]] + posts[1..];
      if Matches(posts[0], comments, search) then [posts[0]] + rest else rest
  }

  /** Ascending by creation time. */
  predicate SortedByCreated(s: seq<Post>) {
    forall i, j :: 0 <= i < j < |s| ==> s[i].created <= s[j].created
  }

  /** Places `p` before the first post of the sorted `s` not created earlier than it. */
  function InsertByCreated(p: Post, s: seq<Post>): (r: seq<Post>)
    requires SortedByCreated(s)
    ensures SortedByCreated(r)
    ensures multiset(r) == multiset(s) + multiset{p}
    ensures |r| == |s| + 1 && (r[0] == p || (|s| > 0 && r[0] == s[0]))
    decreases |s|
  {
    if |s| == 0 then [p]
    else if p.created <= s[0].created then [p] + s
    else
      var rest := InsertByCreated(p, s[1..]);
      assert s == [s[0]] + s[1..];
      [s[0]] + rest
  }

  /** The posts of `s` ordered by creation time; posts created at the same time keep their table order. */
  function SortByCreated(s: seq<Post>): (r: seq<Post>)
    ensures SortedByCreated(r)
    ensures multiset(r) == multiset(s)
    decreases |s|
  {
    if |s| == 0 then []
    else
      assert s == [s[0]] + s[1..];
      InsertByCreated(s[0], SortByCreated(s[1..]))
  }

  /** The list Index pages through: all posts for a blank search, the matching ones otherwise,
      ordered by creation time. */
  function Listing(posts: seq<Post>, comments: seq<Comment>, search: Option<string>): (r: seq<Post>)
    ensures SortedByCreated(r)
    ensures IsNullOrWhiteSpace(search) ==> multiset(r) == multiset(posts)
    ensures !IsNullOrWhiteSpace(search) ==>
      forall p :: multiset(r)[p] == if Matches(p, comments, search.value) then multiset(posts)[p] else 0
    ensures forall p :: p in r <==> p in posts && (IsNullOrWhiteSpace(search) || Matches(p, comments, search.value))
  {
    if IsNullOrWhiteSpace(search) then
      var r := SortByCreated(posts);
      assert forall p :: p in r <==> p in multiset(r);
      r
    else SortByCreated(Filter(posts, comments, search.value))
  }

  /** How many items come before page `pageNumber` when pages hold `pageSize` items. */
  function PageStart(pageNumber: int, pageSize: int): (r: nat)
    requires pageNumber >= 1 && pageSize >= 1
    ensures pageNumber == 1 ==> r == 0
    ensures pageSize == 1 ==> r == pageNumber - 1
  {
    var earlier: nat := pageNumber - 1;
    earlier * pageSize
  }

  /** The items of page `pageNumber` when pages hold `pageSize` items: skip the earlier pages, take one page. */
  function PageItems(list: seq<Post>, pageNumber: int, pageSize: int): (r: seq<Post>)
    requires pageNumber >= 1 && pageSize >= 1
    ensures |r| == if |list| <= PageStart(pageNumber, pageSize) then 0
                   else if |list| - PageStart(pageNumber, pageSize) < pageSize then |list| - PageStart(pageNumber, pageSize)
                   else pageSize
    ensures forall k :: 0 <= k < |r| ==> r[k] == list[PageStart(pageNumber, pageSize) + k]
  {
    var skip := PageStart(pageNumber, pageSize);
    if |list| <= skip then []
    else if |list| < skip + pageSize then list[skip..]
    else list[skip..skip + pageSize]
  }

  /** With one item per page, page n holds exactly the n-th item, or nothing past the end. */
  lemma SingleItemPages(list: seq<Post>, n: int)
    requires n >= 1
    ensures PageItems(list, n, 1) == if n <= |list| then [list[n - 1]] else []
  {
  }

  /** `sub` occurs in `text` starting at position `i`. */
  predicate OccursAt(text: string, sub: string, i: nat) {
    i + |sub| <= |text| && text[i..i + |sub|] == sub
  }

  /** Contains agrees with the positional reading of a substring test, in both directions. */
  lemma {:induction false} ContainsIffOccurs(text: string, sub: string)
    ensures Contains(text, sub) <==> exists i: nat :: OccursAt(text, sub, i)
    decreases |text|
  {
    if sub <= text {
      assert OccursAt(text, sub, 0);
    } else if |text| == 0 {
      assert forall i: nat :: !OccursAt(text, sub, i);
    } else {
      ContainsIffOccurs(text[1..], sub);
      forall i: nat | OccursAt(text[1..], sub, i) ensures OccursAt(text, sub, i + 1) {
        assert text[1..][i..i + |sub|] == text[i + 1..i + 1 + |sub|];
      }
      forall i: nat | OccursAt(text, sub, i) ensures i > 0 && OccursAt(text[1..], sub, i - 1) {
        assert text[1..][i - 1..i - 1 + |sub|] == text[i..i + |sub|];
      }
    }
  }

  /** A search text found in the body of a comment lists that comment's post. */
  lemma CommentHitListsPost(posts: seq<Post>, comments: seq<Comment>, p: Post, c: Comment, search: string)
    requires p in posts && c in comments && c.blogPostId == p.id
    requires Contains(c.body, search)
    ensures p in Listing(posts, comments, Some(search))
  {
  }
}
