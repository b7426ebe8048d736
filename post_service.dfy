/**
 * The post service: the paged, filtered listing of `getAll`, and the `post_tags` rows that
 * `create` and `update` write beside a post.
 *
 * For the listing, the `posts` table is a sequence of rows already in `created_at`
 * descending order (the order the query asks for). The posts and their tag links written
 * by `create`/`update` live in a class holding both tables, as column maps keyed by id.
 * The two views of `posts` are separate: nothing relates a listing to earlier writes.
 * Results of the database calls are parameters.
 */
module PostService {
  import opened Wrappers
  import Ints
  import opened Database
  import Slug

  /** The `status` argument of `getAll`. */
  datatype Status = All | Published | Draft

  /** The arguments of `getAll`; an absent one takes its default. */
  datatype GetAllArgs = GetAllArgs(
    page: Option<int>,
    pageSize: Option<int>,
    search: Option<string>,
    status: Option<Status>)

  /** The arguments after the destructuring defaults. */
  datatype Resolved = Resolved(page: int, pageSize: int, search: string, status: Status)

  /** Page 1, ten rows per page, no search and every status, for whatever is absent. */
  function Resolve(args: GetAllArgs): (r: Resolved)
    ensures args.page.None? ==> r.page == 1
    ensures args.pageSize.None? ==> r.pageSize == 10
    ensures args.search.None? ==> r.search == ""
    ensures args.status.None? ==> r.status == All
    ensures args.page.Some? ==> r.page == args.page.value
    ensures args.pageSize.Some? ==> r.pageSize == args.pageSize.value
    ensures args.search.Some? ==> r.search == args.search.value
    ensures args.status.Some? ==> r.status == args.status.value
  {
    Resolved(args.page.GetOr(1), args.pageSize.GetOr(10), args.search.GetOr(""), args.status.GetOr(All))
  }

  /** `getAll({})` lists the first ten posts of any status, unfiltered by title. */
  lemma DefaultArguments()
    ensures Resolve(GetAllArgs(None, None, None, None)) == Resolved(1, 10, "", All)
  {
  }

  /** The query `getAll` sends: an inclusive row range and the optional filters. */
  datatype Query = Query(from: int, to: int, titleFilter: Option<string>, publishedFilter: Option<bool>)

  /** `range((page - 1) * pageSize, page * pageSize - 1)`: the inclusive bounds of a page. */
  function PageBounds(page: int, pageSize: int): (int, int) {
    ((page - 1) * pageSize, page * pageSize - 1)
  }

  /** A page's bounds hold `pageSize` indices, and the next page starts right after it. */
  lemma PagesAreAdjacent(page: int, pageSize: int)
    ensures PageBounds(page, pageSize).1 - PageBounds(page, pageSize).0 + 1 == pageSize
    ensures PageBounds(page + 1, pageSize).0 == PageBounds(page, pageSize).1 + 1
  {
    assert page * pageSize == (page - 1) * pageSize + pageSize;
  }

  /** Two different pages of a positive size share no index. */
  lemma PagesAreDisjoint(p: int, q: int, pageSize: int, i: int)
    requires pageSize > 0 && p < q
    requires PageBounds(p, pageSize).0 <= i <= PageBounds(p, pageSize).1
    ensures !(PageBounds(q, pageSize).0 <= i <= PageBounds(q, pageSize).1)
  {
    var gap := q - 1 - p;
    assert (q - 1) * pageSize == p * pageSize + gap * pageSize;
    Ints.MulNonNegative(gap, pageSize);
  }


  /**
   * The query of `getAll`: the range of the requested page, a title filter only for a
   * non-empty search, and a `published` filter for "published" (true) and "draft" (false).
   */
  function QueryOf(args: GetAllArgs): (query: Query)
    ensures var a := Resolve(args);
      (query.from, query.to) == PageBounds(a.page, a.pageSize)
    ensures Resolve(args).search == "" <==> query.titleFilter.None?
    ensures query.titleFilter.Some? ==> query.titleFilter.value == Resolve(args).search
    ensures Resolve(args).status == All <==> query.publishedFilter.None?
    ensures Resolve(args).status == Published <==> query.publishedFilter == Some(true)
    ensures Resolve(args).status == Draft <==> query.publishedFilter == Some(false)
  {
    var a := Resolve(args);
    Query(
      PageBounds(a.page, a.pageSize).0,
      PageBounds(a.page, a.pageSize).1,
      if a.search == "" then None else Some(a.search),
      match a.status
      case All => None
      case Published => Some(true)
      case Draft => Some(false))
  }

  /** Builds the query of `getAll` filter by filter, as the service chains the builder calls. */
  method BuildQuery(args: GetAllArgs) returns (query: Query)
    ensures query == QueryOf(args)
  {
    var a := Resolve(args);
    var (from, to) := PageBounds(a.page, a.pageSize);
    query := Query(from, to, None, None);
    if a.search != "" {
      query := query.(titleFilter := Some(a.search));
    }
    if a.status == Published {
      query := query.(publishedFilter := Some(true));
    } else if a.status == Draft {
      query := query.(publishedFilter := Some(false));
    }
  }

  /** The columns of a `posts` row that the listing looks at. */
  datatype PostRow = PostRow(id: string, viTitle: string, published: bool)

  /** `sub` occurs in `s` starting at position `i`. */
  predicate OccursAt(s: string, sub: string, i: int) {
    0 <= i <= |s| - |sub| && s[i..i + |sub|] == sub
  }

  /** `sub` occurs in `s` at some position. */
  predicate ContainsSubstring(s: string, sub: string) {
    exists i :: 0 <= i <= |s| - |sub| && OccursAt(s, sub, i)
  }

  /** `ilike '%search%'`: `search` occurs in `title`, ignoring case. */
  predicate ILikeContains(title: string, search: string) {
    ContainsSubstring(Slug.Lower(title), Slug.Lower(search))
  }

  /** A row passes the query's filters. */
  predicate Matches(query: Query, row: PostRow) {
    && (query.titleFilter.Some? ==> ILikeContains(row.viTitle, query.titleFilter.value))
    && (query.publishedFilter.Some? ==> row.published == query.publishedFilter.value)
  }

  /** The rows passing the filters, in table order; `count: "exact"` counts these. */
  function Filtered(query: Query, table: seq<PostRow>): (r: seq<PostRow>)
    ensures |r| <= |table|
    ensures forall i :: 0 <= i < |r| ==> Matches(query, r[i]) && r[i] in table
    ensures forall i :: 0 <= i < |table| && Matches(query, table[i]) ==> table[i] in r
  {
    if table == [] then []
    else if Matches(query, table[0]) then [table[0]] + Filtered(query, table[1..])
    else Filtered(query, table[1..])
  }

  /**
   * The rows at positions `from` to `to` inclusive that exist. A window that starts before
   * position 0 or ends before it starts is empty.
   */
  function Window(rows: seq<PostRow>, from: int, to: int): (r: seq<PostRow>)
    ensures |r| <= if from <= to then to - from + 1 else 0
    ensures 0 <= from <= to && to < |rows| ==> r == rows[from..to + 1]
  {
    if 0 <= from <= to then rows[Ints.Min(from, |rows|)..Ints.Min(to + 1, |rows|)] else []
  }

  /** The first `n` pages of `pageSize` rows, one after another. */
  function FirstPages(rows: seq<PostRow>, pageSize: int, n: nat): seq<PostRow> {
    if n == 0 then []
    else
      var (from, to) := PageBounds(n, pageSize);
      FirstPages(rows, pageSize, n - 1) + Window(rows, from, to)
  }

  /**
   * Paging loses and repeats nothing: the first `n` pages, read in order, are exactly the
   * first `n * pageSize` rows (or all of them).
   */
  lemma {:induction false} FirstPagesArePrefix(rows: seq<PostRow>, pageSize: int, n: nat)
    requires pageSize > 0
    ensures FirstPages(rows, pageSize, n) == rows[..Ints.Min(n * pageSize, |rows|)]
  {
    if n > 0 {
      FirstPagesArePrefix(rows, pageSize, n - 1);
      assert n * pageSize == (n - 1) * pageSize + pageSize;
      var a, b := Ints.Min((n - 1) * pageSize, |rows|), Ints.Min(n * pageSize, |rows|);
      assert rows[..b] == rows[..a] + rows[a..b];
    }
  }

  /** What the database answers: `data` and `count` may be null, `error` may be set. */
  datatype Response = Response(data: Option<seq<PostRow>>, count: Option<int>, error: Option<StoreError>)

  /** The page `getAll` returns. */
  datatype PostPage = PostPage(posts: seq<PostRow>, total: int)

  /** The tail of `getAll`: throw the error, otherwise default null data to [] and a null count to 0. */
  function Unwrap(response: Response): (r: Result<PostPage, StoreError>)
    ensures response.error.Some? <==> r.Err?
    ensures r.Err? ==> r.error == response.error.value
    ensures r.Ok? && response.data.None? ==> r.value.posts == []
    ensures r.Ok? && response.data.Some? ==> r.value.posts == response.data.value
    ensures r.Ok? && response.count.None? ==> r.value.total == 0
    ensures r.Ok? && response.count.Some? ==> r.value.total == response.count.value
  {
    match response.error
    case Some(e) => Err(e)
    case None => Ok(PostPage(response.data.GetOr([]), response.count.GetOr(0)))
  }

  /**
   * The database's answer to `query` over `table`: the requested window of the matching
   * rows and the count of all of them, or the given failure.
   */
  function Execute(query: Query, table: seq<PostRow>, failure: Option<StoreError>): Response {
    var matching := Filtered(query, table);
    Response(Some(Window(matching, query.from, query.to)), Some(|matching|), failure)
  }

  /**
   * `getAll`: the requested page of the matching posts and the number of all matching
   * posts, or the database's error.
   */
  method GetAll(args: GetAllArgs, table: seq<PostRow>, failure: Option<StoreError>)
    returns (r: Result<PostPage, StoreError>)
    ensures r.Err? <==> failure.Some?
    ensures r.Err? ==> r.error == failure.value
    ensures r.Ok? ==> var q := QueryOf(args);
      && r.value.posts == Window(Filtered(q, table), q.from, q.to)
      && r.value.total == |Filtered(q, table)|
    ensures r.Ok? ==> forall i :: 0 <= i < |r.value.posts| ==> r.value.posts[i] in table
    ensures r.Ok? ==> |r.value.posts| <= Resolve(args).pageSize || (Resolve(args).pageSize <= 0 && r.value.posts == [])
    ensures r.Ok? && Resolve(args).status == Published ==>
      forall i :: 0 <= i < |r.value.posts| ==> r.value.posts[i].published
    ensures r.Ok? && Resolve(args).status == Draft ==>
      forall i :: 0 <= i < |r.value.posts| ==> !r.value.posts[i].published
    ensures r.Ok? && Resolve(args).search != "" ==>
      forall i :: 0 <= i < |r.value.posts| ==> ILikeContains(r.value.posts[i].viTitle, Resolve(args).search)
    ensures r.Ok? && Resolve(args).search == "" && Resolve(args).status == All ==> r.value.total == |table|
  {
    var query := BuildQuery(args);
    PagesAreAdjacent(Resolve(args).page, Resolve(args).pageSize);
    WindowOfMatching(query, table);
    if query.titleFilter.None? && query.publishedFilter.None? {
      FilteredUnfiltered(query, table);
    }
    r := Unwrap(Execute(query, table, failure));
  }

  /** Every row of the returned window passes the filters and comes from the table. */
  lemma WindowOfMatching(query: Query, table: seq<PostRow>)
    ensures var page := Window(Filtered(query, table), query.from, query.to);
      forall i :: 0 <= i < |page| ==> Matches(query, page[i]) && page[i] in table
  {
    var matching := Filtered(query, table);
    var page := Window(matching, query.from, query.to);
    if 0 <= query.from <= query.to {
      var a := Ints.Min(query.from, |matching|);
      forall i | 0 <= i < |page| ensures Matches(query, page[i]) && page[i] in table {
        assert page[i] == matching[a + i];
      }
    }
  }

  /** Without a title or status filter every row matches. */
  lemma {:induction false} FilteredUnfiltered(query: Query, table: seq<PostRow>)
    requires query.titleFilter.None? && query.publishedFilter.None?
    ensures Filtered(query, table) == table
  {
    if table != [] {
      FilteredUnfiltered(query, table[1..]);
    }
  }

  /** A `post_tags` row linking a post to a tag. */
  datatype PostTag = PostTag(postId: string, tagId: string)

  /** `tagIds.map(tagId => ({ post_id: postId, tag_id: tagId }))`. */
  function PostTagRows(postId: string, tagIds: seq<string>): (rows: seq<PostTag>)
    ensures |rows| == |tagIds|
  {
    seq(|tagIds|, i requires 0 <= i < |tagIds| => PostTag(postId, tagIds[i]))
  }

  /** The tag ids linked to `postId`, in row order. */
  function TagIdsOf(rows: seq<PostTag>, postId: string): seq<string> {
    if rows == [] then []
    else (if rows[0].postId == postId then [rows[0].tagId] else []) + TagIdsOf(rows[1..], postId)
  }

  /** The rows not linked to `postId`: `delete().eq("post_id", postId)`. */
  function WithoutPost(rows: seq<PostTag>, postId: string): (r: seq<PostTag>)
    ensures |r| <= |rows|
    ensures forall i :: 0 <= i < |r| ==> r[i].postId != postId && r[i] in rows
  {
    if rows == [] then []
    else if rows[0].postId == postId then WithoutPost(rows[1..], postId)
    else [rows[0]] + WithoutPost(rows[1..], postId)
  }

  lemma {:induction false} TagIdsOfAppend(a: seq<PostTag>, b: seq<PostTag>, postId: string)
    ensures TagIdsOf(a + b, postId) == TagIdsOf(a, postId) + TagIdsOf(b, postId)
  {
    if a == [] {
      assert a + b == b;
    } else {
      assert (a + b)[0] == a[0] && (a + b)[1..] == a[1..] + b;
      TagIdsOfAppend(a[1..], b, postId);
    }
  }

  /**
   * The rows built for `postId` link it to exactly `tagIds`, in order, and link no other
   * post to anything.
   */
  lemma {:induction false} TagIdsOfPostTagRows(postId: string, tagIds: seq<string>, other: string)
    ensures TagIdsOf(PostTagRows(postId, tagIds), postId) == tagIds
    ensures other != postId ==> TagIdsOf(PostTagRows(postId, tagIds), other) == []
  {
    if tagIds != [] {
      var rows := PostTagRows(postId, tagIds);
      assert rows[0] == PostTag(postId, tagIds[0]);
      assert rows[1..] == PostTagRows(postId, tagIds[1..]);
      TagIdsOfPostTagRows(postId, tagIds[1..], other);
    }
  }

  /** Deleting a post's links removes all of its tags and keeps every other post's. */
  lemma {:induction false} TagIdsOfWithoutPost(rows: seq<PostTag>, postId: string, other: string)
    ensures TagIdsOf(WithoutPost(rows, postId), postId) == []
    ensures other != postId ==> TagIdsOf(WithoutPost(rows, postId), other) == TagIdsOf(rows, other)
  {
    if rows != [] {
      TagIdsOfWithoutPost(rows[1..], postId, other);
      if rows[0].postId != postId {
        assert ([rows[0]] + WithoutPost(rows[1..], postId))[1..] == WithoutPost(rows[1..], postId);
      }
    }
  }

  /** A post's columns by name (the `languages`, `slug`, `published` ... values). */
  type Columns = map<string, string>

  /** `const { id, ...updateData } = post`: the id, and the columns without it. */
  function SplitId(post: Columns): (r: (string, Columns))
    requires "id" in post
    ensures "id" !in r.1
    ensures r.1["id" := r.0] == post
    ensures forall k :: k in r.1 ==> r.1[k] == post[k]
  {
    (post["id"], post - {"id"})
  }

  /** The `posts` table keyed by id, and the `post_tags` links. */
  class PostStore {
    var posts: map<string, Columns>
    var postTags: seq<PostTag>

    constructor()
      ensures posts == map[] && postTags == []
    {
      posts := map[];
      postTags := [];
    }

    /** The tag ids linked to `postId`. */
    function TagsOf(postId: string): seq<string>
      reads this
    {
      TagIdsOf(postTags, postId)
    }

    /**
     * `create(post, tagIds)`: inserts the post under the id the database assigns, then one
     * link per tag id. A failed post insert changes nothing; a failed link insert is
     * reported, with the post already stored.
     */
    method Create(post: Columns, tagIds: seq<string>, newId: string,
                  insertFailure: Option<StoreError>, linkFailure: Option<StoreError>)
      returns (r: Result<string, StoreError>)
      modifies this
      ensures insertFailure.Some? ==>
        r == Err(insertFailure.value) && posts == old(posts) && postTags == old(postTags)
      ensures insertFailure.None? && newId in old(posts) ==>
        r == Err(StoreError(UniqueViolationCode)) && posts == old(posts) && postTags == old(postTags)
      ensures insertFailure.None? && newId !in old(posts) ==> posts == old(posts)[newId := post]
      ensures insertFailure.None? && newId !in old(posts) && tagIds == [] ==>
        r == Ok(newId) && postTags == old(postTags)
      ensures insertFailure.None? && newId !in old(posts) && tagIds != [] && linkFailure.Some? ==>
        r == Err(linkFailure.value) && postTags == old(postTags)
      ensures insertFailure.None? && newId !in old(posts) && tagIds != [] && linkFailure.None? ==>
        r == Ok(newId) && postTags == old(postTags) + PostTagRows(newId, tagIds)
    {
      if insertFailure.Some? {
        return Err(insertFailure.value);
      }
      if newId in posts {
        return Err(StoreError(UniqueViolationCode));
      }
      posts := posts[newId := post];
      if |tagIds| > 0 {
        if linkFailure.Some? {
          return Err(linkFailure.value);
        }
        postTags := postTags + PostTagRows(newId, tagIds);
      }
      return Ok(newId);
    }

    /**
     * `update(post, tagIds)`: writes every column but `id` into the row with that id (none
     * when there is no such row), then, when `tagIds` is given, deletes the post's links and
     * inserts the new ones. Failures of the two link writes are not checked: they leave the
     * links as they were at that step and the update still succeeds.
     */
    method Update(post: Columns, tagIds: Option<seq<string>>, updateFailure: Option<StoreError>,
                  deleteFails: bool, insertFails: bool)
      returns (r: Result<(), StoreError>)
      requires "id" in post
      modifies this
      ensures var (id, data) := SplitId(post);
        && (updateFailure.Some? ==> r == Err(updateFailure.value) && posts == old(posts) && postTags == old(postTags))
        && (updateFailure.None? ==> r == Ok(()))
        && (updateFailure.None? && id in old(posts) ==> posts == old(posts)[id := old(posts)[id] + data])
        && (updateFailure.None? && id !in old(posts) ==> posts == old(posts))
        && (updateFailure.None? && tagIds.None? ==> postTags == old(postTags))
        && (updateFailure.None? && tagIds.Some? ==>
              var kept := if deleteFails then old(postTags) else WithoutPost(old(postTags), id);
              var added := if tagIds.value == [] || insertFails then [] else PostTagRows(id, tagIds.value);
              postTags == kept + added)
    {
      var (id, data) := SplitId(post);
      if updateFailure.Some? {
        return Err(updateFailure.value);
      }
      if id in posts {
        posts := posts[id := posts[id] + data];
      }
      if tagIds.Some? {
        if !deleteFails {
          postTags := WithoutPost(postTags, id);
        }
        if |tagIds.value| > 0 && !insertFails {
          postTags := postTags + PostTagRows(id, tagIds.value);
        }
      }
      return Ok(());
    }
  }

  /**
   * After a successful tag replacement by `update`, the post is linked to exactly the given
   * tags and every other post keeps its links.
   */
  lemma ReplacedTags(old_: seq<PostTag>, id: string, tagIds: seq<string>, other: string)
    ensures var now := WithoutPost(old_, id) + (if tagIds == [] then [] else PostTagRows(id, tagIds));
      && TagIdsOf(now, id) == tagIds
      && (other != id ==> TagIdsOf(now, other) == TagIdsOf(old_, other))
  {
    var added := if tagIds == [] then [] else PostTagRows(id, tagIds);
    TagIdsOfAppend(WithoutPost(old_, id), added, id);
    TagIdsOfAppend(WithoutPost(old_, id), added, other);
    TagIdsOfWithoutPost(old_, id, other);
    TagIdsOfPostTagRows(id, tagIds, other);
  }

  /** After a successful `create` with tags, the new post is linked to exactly those tags. */
  lemma CreatedTags(old_: seq<PostTag>, newId: string, tagIds: seq<string>)
    requires TagIdsOf(old_, newId) == []
    ensures TagIdsOf(old_ + PostTagRows(newId, tagIds), newId) == tagIds
  {
    TagIdsOfAppend(old_, PostTagRows(newId, tagIds), newId);
    TagIdsOfPostTagRows(newId, tagIds, newId);
  }
}
