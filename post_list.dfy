/**
 * The home page's latest-posts list: each post becomes a card (Vietnamese content first,
 * English otherwise), posts with neither are dropped, the first card is featured and the
 * rest form the grid.
 */
module PostList {
  import opened Wrappers
  import PostsGrid

  /** The part of a language's content a card shows. */
  datatype LanguageContent = LanguageContent(title: string, excerpt: string)

  /** A post as the list receives it; `thumbnail` and `tags` may be absent. */
  datatype ListPost = ListPost(
    id: string,
    slug: string,
    vi: Option<LanguageContent>,
    en: Option<LanguageContent>,
    thumbnail: Option<string>,
    tags: Option<seq<PostsGrid.TagRef>>)

  /** The props of a post card; the formatted date is left out. */
  datatype Card = Card(
    title: string,
    excerpt: string,
    readTime: string,
    tags: seq<string>,
    imageUrl: string,
    slug: string,
    originalId: string)

  const DefaultImage: string := "https://images.unsplash.com/photo-1516116216624-53e697fedbea?w=800&h=600&fit=crop"
  const ReadTime: string := "5 phút đọc"

  /** `post.tags?.map(t => t.name) || []`. */
  function TagNames(tags: Option<seq<PostsGrid.TagRef>>): (names: seq<string>)
    ensures tags.None? ==> names == []
    ensures tags.Some? ==> |names| == |tags.value|
    ensures tags.Some? ==> forall i :: 0 <= i < |names| ==> names[i] == tags.value[i].name
  {
    match tags
    case None => []
    case Some(ts) => seq(|ts|, i requires 0 <= i < |ts| => ts[i].name)
  }

  /** `post.thumbnail || DefaultImage`: an absent or empty thumbnail gives the default image. */
  function ImageUrl(thumbnail: Option<string>): (url: string)
    ensures thumbnail.None? || thumbnail.value == "" ==> url == DefaultImage
    ensures thumbnail.Some? && thumbnail.value != "" ==> url == thumbnail.value
    ensures url != ""
  {
    if thumbnail.Some? && thumbnail.value != "" then thumbnail.value else DefaultImage
  }

  /** `transformPost` followed by the `originalId` spread: no card for a post with no content. */
  function TransformPost(post: ListPost): (card: Option<Card>)
    ensures card.None? <==> post.vi.None? && post.en.None?
    ensures post.vi.Some? ==>
      card.Some? && card.value.title == post.vi.value.title && card.value.excerpt == post.vi.value.excerpt
    ensures post.vi.None? && post.en.Some? ==>
      card.Some? && card.value.title == post.en.value.title && card.value.excerpt == post.en.value.excerpt
    ensures card.Some? ==> card.value.originalId == post.id && card.value.slug == post.slug
    ensures card.Some? ==> card.value.tags == TagNames(post.tags) && card.value.imageUrl == ImageUrl(post.thumbnail)
  {
    var lang := if post.vi.Some? then post.vi else post.en;
    match lang
    case None => None
    case Some(l) => Some(Card(l.title, l.excerpt, ReadTime, TagNames(post.tags), ImageUrl(post.thumbnail), post.slug, post.id))
  }

  /** `posts.map(...).filter(p => p !== null)`: the cards of the posts that have content, in order. */
  function FormattedPosts(posts: seq<ListPost>): (cards: seq<Card>)
    ensures |cards| <= |posts|
  {
    if posts == [] then []
    else
      match TransformPost(posts[0])
      case None => FormattedPosts(posts[1..])
      case Some(c) => [c] + FormattedPosts(posts[1..])
  }

  /** Formatting a list in two parts is formatting each part. */
  lemma {:induction false} FormattedAppend(a: seq<ListPost>, b: seq<ListPost>)
    ensures FormattedPosts(a + b) == FormattedPosts(a) + FormattedPosts(b)
  {
    if a == [] {
      assert a + b == b;
    } else {
      assert (a + b)[0] == a[0] && (a + b)[1..] == a[1..] + b;
      FormattedAppend(a[1..], b);
    }
  }

  /** When every post has content, each card is the card of the post at the same position. */
  lemma {:induction false} FormattedKeepsEveryPost(posts: seq<ListPost>)
    requires forall i :: 0 <= i < |posts| ==> posts[i].vi.Some? || posts[i].en.Some?
    ensures |FormattedPosts(posts)| == |posts|
    ensures forall i :: 0 <= i < |posts| ==> Some(FormattedPosts(posts)[i]) == TransformPost(posts[i])
  {
    if posts != [] {
      FormattedKeepsEveryPost(posts[1..]);
    }
  }

  /** A post with no content never produces a card. */
  lemma {:induction false} ContentlessPostsDropped(posts: seq<ListPost>)
    requires forall i :: 0 <= i < |posts| ==> posts[i].vi.None? && posts[i].en.None?
    ensures FormattedPosts(posts) == []
  {
    if posts != [] {
      ContentlessPostsDropped(posts[1..]);
    }
  }

  /** `formattedPosts[0]`: the featured card, if there is any card. */
  function Featured(cards: seq<Card>): Option<Card> {
    if cards == [] then None else Some(cards[0])
  }

  /** `formattedPosts.slice(1)`: every card after the first. */
  function Regular(cards: seq<Card>): seq<Card> {
    if cards == [] then [] else cards[1..]
  }

  /** The featured card followed by the regular ones is the whole formatted list, in order. */
  lemma FeaturedThenRegular(cards: seq<Card>)
    ensures (if Featured(cards).Some? then [Featured(cards).value] else []) + Regular(cards) == cards
    ensures |Regular(cards)| == if cards == [] then 0 else |cards| - 1
  {
    if cards != [] {
      assert [cards[0]] + cards[1..] == cards;
    }
  }

  /** `!posts || posts.length === 0`: the "no posts yet" message replaces the list. */
  predicate ShowsEmptyMessage(posts: Option<seq<ListPost>>) {
    posts.None? || |posts.value| == 0
  }

  /** `posts.length > 7`, on the list that was rendered. */
  predicate ShowsLoadMore(posts: Option<seq<ListPost>>) {
    !ShowsEmptyMessage(posts) && |posts.value| > 7
  }

  /**
   * The button depends on the number of posts received, not of cards: eight posts of which
   * only one has content still show it, and a list whose posts all lack content shows
   * neither cards nor the empty message.
   */
  lemma LoadMoreCountsReceivedPosts(posts: seq<ListPost>)
    requires |posts| > 7
    ensures ShowsLoadMore(Some(posts)) && !ShowsEmptyMessage(Some(posts))
    ensures (forall i :: 0 <= i < |posts| ==> posts[i].vi.None? && posts[i].en.None?) ==>
      Featured(FormattedPosts(posts)).None? && Regular(FormattedPosts(posts)) == []
  {
    if forall i :: 0 <= i < |posts| ==> posts[i].vi.None? && posts[i].en.None? {
      ContentlessPostsDropped(posts);
    }
  }
}
