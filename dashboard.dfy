/** The admin dashboard's figures: published and draft counts, total views, total posts. */
module Dashboard {
  import opened Wrappers
  import Seqs

  /** A post row as the dashboard reads it; `view_count` may be absent. */
  datatype DashPost = DashPost(id: string, published: bool, viewCount: Option<int>)

  /** `posts?.filter(p => p.published).length || 0`. */
  function PublishedCount(posts: Option<seq<DashPost>>): nat {
    match posts
    case None => 0
    case Some(ps) => |Seqs.Filter(ps, (p: DashPost) => p.published)|
  }

  /** `posts?.filter(p => !p.published).length || 0`. */
  function DraftCount(posts: Option<seq<DashPost>>): nat {
    match posts
    case None => 0
    case Some(ps) => |Seqs.Filter(ps, (p: DashPost) => !p.published)|
  }

  /** Every post is either published or a draft: the two counts add up to the number of posts. */
  lemma CountsPartitionPosts(posts: Option<seq<DashPost>>)
    ensures PublishedCount(posts) + DraftCount(posts) == if posts.None? then 0 else |posts.value|
  {
    if posts.Some? {
      Seqs.FilterComplementLengths(posts.value, (p: DashPost) => p.published, (p: DashPost) => !p.published);
    }
  }

  /** `p.view_count || 0`: an absent view count counts as 0. */
  function ViewsOf(p: DashPost): int {
    p.viewCount.GetOr(0)
  }

  /** `reduce((sum, p) => sum + (p.view_count || 0), 0)`. */
  function SumViews(posts: seq<DashPost>): int {
    if posts == [] then 0 else ViewsOf(posts[0]) + SumViews(posts[1..])
  }

  /** `posts?.reduce(...) || 0`: no posts give 0 views. */
  function TotalViews(posts: Option<seq<DashPost>>): (total: int)
    ensures posts.None? ==> total == 0
  {
    match posts
    case None => 0
    case Some(ps) => SumViews(ps)
  }

  /** The sum over two lists of posts is the sum of their sums, whatever the order of reduction. */
  lemma {:induction false} SumViewsAppend(a: seq<DashPost>, b: seq<DashPost>)
    ensures SumViews(a + b) == SumViews(a) + SumViews(b)
  {
    if a == [] {
      assert a + b == b;
    } else {
      assert (a + b)[0] == a[0] && (a + b)[1..] == a[1..] + b;
      SumViewsAppend(a[1..], b);
    }
  }

  /** A post without a view count adds nothing to the total. */
  lemma MissingViewCountAddsNothing(a: seq<DashPost>, p: DashPost, b: seq<DashPost>)
    requires p.viewCount.None?
    ensures SumViews(a + [p] + b) == SumViews(a + b)
  {
    SumViewsAppend(a + [p], b);
    SumViewsAppend(a, [p]);
    SumViewsAppend(a, b);
  }

  /** With non-negative view counts the total is at least the views of any one post. */
  lemma {:induction false} TotalViewsBoundsEachPost(posts: seq<DashPost>, i: nat)
    requires forall j :: 0 <= j < |posts| ==> ViewsOf(posts[j]) >= 0
    requires i < |posts|
    ensures SumViews(posts) >= ViewsOf(posts[i]) >= 0
  {
    SumViewsNonNegative(posts[1..]);
    if i > 0 {
      TotalViewsBoundsEachPost(posts[1..], i - 1);
    }
  }

  lemma {:induction false} SumViewsNonNegative(posts: seq<DashPost>)
    requires forall j :: 0 <= j < |posts| ==> ViewsOf(posts[j]) >= 0
    ensures SumViews(posts) >= 0
  {
    if posts != [] {
      SumViewsNonNegative(posts[1..]);
    }
  }

  /** `totalPosts || 0`: the "total posts" card shows 0 when the total is missing. */
  function DisplayedTotalPosts(totalPosts: Option<int>): (shown: int)
    ensures totalPosts.None? ==> shown == 0
    ensures totalPosts.Some? ==> shown == totalPosts.value
  {
    totalPosts.GetOr(0)
  }
}
