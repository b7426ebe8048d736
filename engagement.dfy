/**
 * The engagement service's like/dislike table (`post_likes`) and the operations over it:
 * the like/dislike counts of a post, a visitor's current reaction, and the toggle that
 * inserts, flips or retracts that reaction.
 *
 * The table is keyed by (post id, user id), so a visitor holds at most one reaction per
 * post by construction. Results of the database calls (a failed read, a rejected write)
 * are parameters of the operations.
 */
module Engagement {
  import opened Wrappers
  import opened Database

  type PostId = string
  type UserId = string
  type Key = (PostId, UserId)

  /** The `like_type` column: "like" or "dislike". */
  datatype LikeType = Like | Dislike

  function Other(t: LikeType): LikeType {
    if t == Like then Dislike else Like
  }

  datatype LikeStats = LikeStats(likes: nat, dislikes: nat)

  /** What the read of the caller's existing row returned. */
  datatype FetchResult = Fetched | FetchFailed(error: StoreError)

  /** The caller's reaction to `post` recorded in `rows`, if any. */
  function Reaction(rows: map<Key, LikeType>, post: PostId, user: UserId): Option<LikeType> {
    if (post, user) in rows then Some(rows[(post, user)]) else None
  }

  /**
   * The per-(post, user) state machine of `toggleLike`: choosing the reaction one already
   * holds retracts it, anything else makes the chosen reaction current.
   */
  function NextReaction(current: Option<LikeType>, desired: LikeType): Option<LikeType> {
    if current == Some(desired) then None else Some(desired)
  }

  /** `rows` with the (post, user) entry set to `r`: deleted for None, inserted or updated otherwise. */
  function WithReaction(rows: map<Key, LikeType>, key: Key, r: Option<LikeType>): (m: map<Key, LikeType>)
    ensures Reaction(m, key.0, key.1) == r
    ensures forall k :: k != key ==> (k in m <==> k in rows)
    ensures forall k :: k != key && k in m ==> m[k] == rows[k]
  {
    match r
    case None => rows - {key}
    case Some(t) => rows[key := t]
  }

  /** The rows of `post`: what `select(...).eq("post_id", post)` returns. */
  function PostRows(rows: map<Key, LikeType>, post: PostId): set<Key> {
    set k | k in rows && k.0 == post
  }

  /** The rows of `post` whose reaction is `t`, one per user. */
  function RowsOf(rows: map<Key, LikeType>, post: PostId, t: LikeType): set<Key> {
    set k | k in rows && k.0 == post && rows[k] == t
  }

  /** The like and dislike counts of `post`. */
  function Stats(rows: map<Key, LikeType>, post: PostId): LikeStats {
    LikeStats(|RowsOf(rows, post, Like)|, |RowsOf(rows, post, Dislike)|)
  }

  /** The rows among `ks` whose reaction is `t`: the part of the count folded so far. */
  function Matching(rows: map<Key, LikeType>, ks: set<Key>, t: LikeType): set<Key> {
    set k | k in ks && k in rows && rows[k] == t
  }

  /**
   * No user is counted both as liking and as disliking a post, and every row of the post
   * is counted once: likes + dislikes is the number of rows of the post.
   */
  lemma StatsPartitionRows(rows: map<Key, LikeType>, post: PostId)
    ensures RowsOf(rows, post, Like) !! RowsOf(rows, post, Dislike)
    ensures Stats(rows, post).likes + Stats(rows, post).dislikes == |PostRows(rows, post)|
  {
    var l, d := RowsOf(rows, post, Like), RowsOf(rows, post, Dislike);
    assert PostRows(rows, post) == l + d by {
      forall k | k in PostRows(rows, post) ensures k in l + d {
        if rows[k] == Like { assert k in l; } else { assert k in d; }
      }
    }
    assert |l + d| == |l| + |d| - |l * d|;
    assert l * d == {};
  }

  /** After a write to `key`, the rows of reaction `t` are the old ones, minus `key`, plus `key` if it now holds `t`. */
  lemma RowsOfAfterWrite(rows: map<Key, LikeType>, key: Key, r: Option<LikeType>, post: PostId, t: LikeType)
    ensures RowsOf(WithReaction(rows, key, r), post, t)
      == (RowsOf(rows, post, t) - {key}) + (if key.0 == post && r == Some(t) then {key} else {})
  {
    var m := WithReaction(rows, key, r);
    var lhs := RowsOf(m, post, t);
    var rhs := (RowsOf(rows, post, t) - {key}) + (if key.0 == post && r == Some(t) then {key} else {});
    forall k | k in lhs ensures k in rhs {
      if k != key { assert k in rows && rows[k] == t; }
    }
    forall k | k in rhs ensures k in lhs {
      if k != key { assert k in m && m[k] == t; }
    }
  }

  /**
   * Setting the reaction of one (post, user) pair changes the count of reaction `t` for that
   * post by one for the row it removes and one for the row it adds, and changes no other
   * post's counts.
   */
  lemma CountAfterWrite(rows: map<Key, LikeType>, key: Key, r: Option<LikeType>, post: PostId, t: LikeType)
    ensures |RowsOf(WithReaction(rows, key, r), post, t)|
      == |RowsOf(rows, post, t)|
         - (if key.0 == post && Reaction(rows, key.0, key.1) == Some(t) then 1 else 0)
         + (if key.0 == post && r == Some(t) then 1 else 0)
  {
    var before := RowsOf(rows, post, t);
    RowsOfAfterWrite(rows, key, r, post, t);
    assert key in before <==> key.0 == post && Reaction(rows, key.0, key.1) == Some(t);
    CardinalityAfterSwap(before, key, key.0 == post && r == Some(t));
  }

  /** Removing `x` from a set and then adding it back when `add` holds changes the size by at most one each way. */
  lemma CardinalityAfterSwap(s: set<Key>, x: Key, add: bool)
    ensures |(s - {x}) + (if add then {x} else {})|
      == |s| - (if x in s then 1 else 0) + (if add then 1 else 0)
  {
    var kept := s - {x};
    if x in s {
      assert s == kept + {x};
    } else {
      assert kept == s;
    }
    if add {
      assert x !in kept;
    } else {
      assert kept + {} == kept;
    }
  }

  /** Toggling one visitor's reaction leaves every other post's counts unchanged. */
  lemma ToggleKeepsOtherPostStats(rows: map<Key, LikeType>, post: PostId, user: UserId, t: LikeType, other: PostId)
    requires other != post
    ensures Stats(WithReaction(rows, (post, user), NextReaction(Reaction(rows, post, user), t)), other)
      == Stats(rows, other)
  {
    var r := NextReaction(Reaction(rows, post, user), t);
    CountAfterWrite(rows, (post, user), r, other, Like);
    CountAfterWrite(rows, (post, user), r, other, Dislike);
  }

  /**
   * From no reaction, a like followed by a dislike leaves the post with one more dislike and
   * the same number of likes as before the first toggle.
   */
  lemma LikeThenDislikeStats(rows: map<Key, LikeType>, post: PostId, user: UserId)
    requires Reaction(rows, post, user) == None
    ensures var liked := WithReaction(rows, (post, user), NextReaction(None, Like));
      var flipped := WithReaction(liked, (post, user), NextReaction(Reaction(liked, post, user), Dislike));
      && Reaction(flipped, post, user) == Some(Dislike)
      && Stats(flipped, post) == LikeStats(Stats(rows, post).likes, Stats(rows, post).dislikes + 1)
  {
    var key := (post, user);
    var liked := WithReaction(rows, key, Some(Like));
    var flipped := WithReaction(liked, key, Some(Dislike));
    CountAfterWrite(rows, key, Some(Like), post, Like);
    CountAfterWrite(rows, key, Some(Like), post, Dislike);
    CountAfterWrite(liked, key, Some(Dislike), post, Like);
    CountAfterWrite(liked, key, Some(Dislike), post, Dislike);
  }

  /**
   * Toggling the same reaction twice restores the previous state, unless the previous state
   * was the other reaction (which the first toggle replaced and the second then retracts).
   */
  lemma ToggleTwiceRestores(current: Option<LikeType>, t: LikeType)
    ensures NextReaction(NextReaction(current, t), t) == current <==> current != Some(Other(t))
    ensures NextReaction(NextReaction(None, t), t) == None
  {
    match current
    case None =>
    case Some(c) =>
      if c == t {
        assert NextReaction(current, t) == None;
      } else {
        assert c == Other(t);
      }
  }

  /** Choosing a like and then a dislike ends in a dislike, whatever the starting state. */
  lemma LikeThenDislikeEndsDisliked(current: Option<LikeType>)
    ensures NextReaction(NextReaction(current, Like), Dislike) == Some(Dislike)
  {
  }

  /** The `post_likes` table. */
  class LikeTable {
    var rows: map<Key, LikeType>

    constructor ()
      ensures rows == map[]
    {
      rows := map[];
    }

    /**
     * `getLikeStats`: folds over the post's rows counting likes and dislikes; a failed query
     * yields zero counts.
     */
    method GetLikeStats(postId: PostId, queryOk: bool) returns (stats: LikeStats)
      ensures queryOk ==> stats.likes == |RowsOf(rows, postId, Like)|
      ensures queryOk ==> stats.dislikes == |RowsOf(rows, postId, Dislike)|
      ensures !queryOk ==> stats == LikeStats(0, 0)
    {
      if !queryOk {
        return LikeStats(0, 0);
      }
      var data := PostRows(rows, postId);
      var todo := data;
      ghost var done: set<Key> := {};
      var likes, dislikes := 0, 0;
      while todo != {}
        invariant todo <= data && done == data - todo
        invariant likes == |Matching(rows, done, Like)|
        invariant dislikes == |Matching(rows, done, Dislike)|
        decreases todo
      {
        var k :| k in todo;
        ghost var l0, d0 := Matching(rows, done, Like), Matching(rows, done, Dislike);
        if rows[k] == Like {
          likes := likes + 1;
          assert Matching(rows, done + {k}, Like) == l0 + {k};
          assert Matching(rows, done + {k}, Dislike) == d0;
        }
        if rows[k] == Dislike {
          dislikes := dislikes + 1;
          assert Matching(rows, done + {k}, Dislike) == d0 + {k};
          assert Matching(rows, done + {k}, Like) == l0;
        }
        todo := todo - {k};
        done := done + {k};
      }
      assert Matching(rows, done, Like) == RowsOf(rows, postId, Like);
      assert Matching(rows, done, Dislike) == RowsOf(rows, postId, Dislike);
      stats := LikeStats(likes, dislikes);
    }

    /** `getUserLike`: the caller's reaction, or null when there is none or the query failed. */
    function GetUserLike(postId: PostId, userId: UserId, queryOk: bool): (r: Option<LikeType>)
      reads this
      ensures !queryOk ==> r == None
      ensures queryOk ==> (r == None <==> (postId, userId) !in rows)
      ensures queryOk && r.Some? ==> rows[(postId, userId)] == r.value
    {
      if queryOk then Reaction(rows, postId, userId) else None
    }

    /**
     * `toggleLike`: reads the caller's row, then deletes it (same reaction chosen again),
     * updates it (the other reaction chosen) or inserts one (no row). `fetch` is what the read
     * returned and `write` the database's answer to the write (None: accepted). A read error
     * other than PGRST116 is thrown before anything is written; with PGRST116 the read yields
     * no row and the insert path is taken.
     */
    method ToggleLike(postId: PostId, userId: UserId, likeType: LikeType, fetch: FetchResult, write: Option<StoreError>)
      returns (outcome: Result<(), StoreError>)
      modifies this
      // a read error other than "no single row" is thrown and nothing is written
      ensures fetch.FetchFailed? && fetch.error.code != NoSingleRowCode ==>
        outcome == Err(fetch.error) && rows == old(rows)
      // the same reaction again: the row is deleted
      ensures fetch.Fetched? && Reaction(old(rows), postId, userId) == Some(likeType) ==>
        if write.None? then outcome.Ok? && rows == old(rows) - {(postId, userId)}
        else outcome == Err(write.value) && rows == old(rows)
      // the other reaction: the row is updated in place, no row is added
      ensures fetch.Fetched? && Reaction(old(rows), postId, userId) == Some(Other(likeType)) ==>
        if write.None? then outcome.Ok? && rows == old(rows)[(postId, userId) := likeType] && |rows| == |old(rows)|
        else outcome == Err(write.value) && rows == old(rows)
      // no row seen: one row holding the requested type is inserted
      ensures (fetch.Fetched? || fetch.error.code == NoSingleRowCode) && (postId, userId) !in old(rows) ==>
        if write.None? then outcome.Ok? && rows == old(rows)[(postId, userId) := likeType] && |rows| == |old(rows)| + 1
        else outcome == Err(write.value) && rows == old(rows)
      // a read that reported no row although one exists: the insert breaks the key's uniqueness
      ensures fetch.FetchFailed? && fetch.error.code == NoSingleRowCode && (postId, userId) in old(rows) ==>
        outcome == Err(StoreError(UniqueViolationCode)) && rows == old(rows)
      // in summary: success applies the state machine to this key alone; failure changes nothing
      ensures outcome.Ok? ==>
        rows == WithReaction(old(rows), (postId, userId), NextReaction(Reaction(old(rows), postId, userId), likeType))
      ensures outcome.Err? ==> rows == old(rows)
    {
      var key := (postId, userId);
      var existing: Option<LikeType> := None;
      match fetch {
        case FetchFailed(e) =>
          if e.code != NoSingleRowCode {
            return Err(e);
          }
        case Fetched =>
          existing := Reaction(rows, postId, userId);
      }

      if existing == Some(likeType) {
        if write.Some? {
          return Err(write.value);
        }
        rows := rows - {key};
        return Ok(());
      }

      if existing.Some? {
        if write.Some? {
          return Err(write.value);
        }
        rows := rows[key := likeType];
        return Ok(());
      }

      if key in rows {
        return Err(StoreError(UniqueViolationCode));
      }
      if write.Some? {
        return Err(write.value);
      }
      rows := rows[key := likeType];
      outcome := Ok(());
    }
  }

  /** A first like is counted and shown; liking again retracts it. */
  method LikeAndRetractScenario() {
    var table := new LikeTable();
    var s := table.GetLikeStats("p1", true);
    assert RowsOf(table.rows, "p1", Like) == {};
    assert RowsOf(table.rows, "p1", Dislike) == {};
    assert s == LikeStats(0, 0);

    var o := table.ToggleLike("p1", "u1", Like, Fetched, None);
    assert table.rows == map[("p1", "u1") := Like];
    assert RowsOf(table.rows, "p1", Like) == {("p1", "u1")};
    assert RowsOf(table.rows, "p1", Dislike) == {};
    s := table.GetLikeStats("p1", true);
    assert s == LikeStats(1, 0);
    assert table.GetUserLike("p1", "u1", true) == Some(Like);

    o := table.ToggleLike("p1", "u1", Like, Fetched, None);
    assert table.rows == map[];
    assert RowsOf(table.rows, "p1", Like) == {};
    s := table.GetLikeStats("p1", true);
    assert s.likes == 0;
    assert table.GetUserLike("p1", "u1", true) == None;
  }

  /** Two visitors' reactions on one post are counted separately. */
  method TwoVisitorsScenario() {
    var table := new LikeTable();
    var o := table.ToggleLike("p2", "u1", Like, Fetched, None);
    o := table.ToggleLike("p2", "u2", Dislike, Fetched, None);
    assert table.rows == map[("p2", "u1") := Like, ("p2", "u2") := Dislike];
    assert RowsOf(table.rows, "p2", Like) == {("p2", "u1")};
    assert RowsOf(table.rows, "p2", Dislike) == {("p2", "u2")};
    var s := table.GetLikeStats("p2", true);
    assert s == LikeStats(1, 1);
    assert table.GetUserLike("p2", "u1", true) == Some(Like);
    assert table.GetUserLike("p2", "u2", true) == Some(Dislike);
  }
}
