/** The blog grid's tag filter: the posts shown for the tag the visitor selected. */
module PostsGrid {
  import opened Wrappers
  import Seqs

  /** A tag attached to a post: its id and display name. */
  datatype TagRef = TagRef(id: string, name: string)

  /** A post as the grid sees it; `tags` is absent when the post was loaded without them. */
  datatype GridPost = GridPost(id: string, tags: Option<seq<TagRef>>)

  /** `post.tags?.some(tag => tag.id === tagId)`: false when the post has no tag list. */
  predicate HasTag(post: GridPost, tagId: string) {
    post.tags.Some? && exists i :: 0 <= i < |post.tags.value| && post.tags.value[i].id == tagId
  }

  /** A selection filters only when it is a non-empty id; null and "" show every post. */
  predicate Filters(selected: Option<string>) {
    selected.Some? && selected.value != ""
  }

  /**
   * `filteredPosts`: without a selection every post, in order; with one, exactly the posts
   * carrying the selected tag, in their original order.
   */
  function FilteredPosts(allPosts: seq<GridPost>, selected: Option<string>): (r: seq<GridPost>)
    ensures !Filters(selected) ==> r == allPosts
    ensures Filters(selected) ==> forall i :: 0 <= i < |r| ==> HasTag(r[i], selected.value) && r[i] in allPosts
    ensures Filters(selected) ==>
      forall i :: 0 <= i < |allPosts| && HasTag(allPosts[i], selected.value) ==> allPosts[i] in r
    ensures Seqs.IsSubsequence(r, allPosts)
  {
    if Filters(selected) then
      Seqs.Filter(allPosts, p => HasTag(p, selected.value))
    else
      SubsequenceOfItself(allPosts);
      allPosts
  }

  lemma {:induction false} SubsequenceOfItself(s: seq<GridPost>)
    ensures Seqs.IsSubsequence(s, s)
  {
    if s != [] {
      SubsequenceOfItself(s[1..]);
    }
  }

  /** The "no post found" panel appears when nothing is left to show. */
  predicate ShowsNotFound(allPosts: seq<GridPost>, selected: Option<string>) {
    |FilteredPosts(allPosts, selected)| == 0
  }

  /**
   * With a tag selected, the panel appears exactly when no post carries that tag; without
   * one, exactly when there are no posts at all.
   */
  lemma NotFoundIffNoPostHasTag(allPosts: seq<GridPost>, selected: Option<string>)
    ensures Filters(selected) ==>
      (ShowsNotFound(allPosts, selected) <==> forall i :: 0 <= i < |allPosts| ==> !HasTag(allPosts[i], selected.value))
    ensures !Filters(selected) ==> (ShowsNotFound(allPosts, selected) <==> allPosts == [])
  {
    var r := FilteredPosts(allPosts, selected);
    if Filters(selected) && |r| > 0 {
      assert HasTag(r[0], selected.value);
      var j :| 0 <= j < |allPosts| && allPosts[j] == r[0];
      assert HasTag(allPosts[j], selected.value);
    }
  }
}
