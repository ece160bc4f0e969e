/**
 * The order of `getPosts` (server/controllers/posts.js): every stored post,
 * sorted by `createdAt` descending, as `Post.find().sort({ createdAt: -1 })`
 * returns them.
 */
module Listing {
  import opened PostSchema

  /** The ids in `ids` name posts of `m` and go from newest to oldest. */
  predicate NewestFirst(m: map<PostId, Post>, ids: seq<PostId>)
  {
    && (forall i :: 0 <= i < |ids| ==> ids[i] in m)
    && (forall i, j :: 0 <= i < j < |ids| ==> m[ids[i]].createdAt >= m[ids[j]].createdAt)
  }

  /** A finite non-empty set of ids has a largest element. */
  lemma {:induction false} LargestExists(keys: set<PostId>)
    requires keys != {}
    ensures exists k :: k in keys && forall j :: j in keys ==> j <= k
  {
    var x :| x in keys;
    if keys != {x} {
      LargestExists(keys - {x});
      var y :| y in keys - {x} && forall j :: j in keys - {x} ==> j <= y;
      assert x in keys && y in keys;
      if x <= y {
        forall j | j in keys ensures j <= y {
          if j != x {
            assert j in keys - {x};
          }
        }
      } else {
        forall j | j in keys ensures j <= x {
          if j != x {
            assert j in keys - {x};
          }
        }
      }
    } else {
      assert forall j :: j in keys ==> j <= x;
    }
  }

  /** The largest id of a non-empty set: the sort takes keys out in this order. */
  function Largest(keys: set<PostId>): (k: PostId)
    requires keys != {}
    ensures k in keys && forall j :: j in keys ==> j <= k
  {
    LargestExists(keys);
    var k :| k in keys && forall j :: j in keys ==> j <= k;
    k
  }

  /** Prepending a post no older than any in a newest-first list keeps it newest-first. */
  lemma PrependNewest(m: map<PostId, Post>, k: PostId, ids: seq<PostId>)
    requires k in m && NewestFirst(m, ids)
    requires forall i :: 0 <= i < |ids| ==> m[ids[i]].createdAt <= m[k].createdAt
    ensures NewestFirst(m, [k] + ids)
  {
  }

  /** Places `k` into the newest-first list `ids`, before every older post. */
  function Insert(m: map<PostId, Post>, k: PostId, ids: seq<PostId>): (r: seq<PostId>)
    requires k in m && NewestFirst(m, ids)
    ensures |r| == |ids| + 1
    ensures forall i :: 0 <= i < |r| ==> r[i] == k || r[i] in ids
    ensures multiset(r) == multiset(ids) + multiset{k}
    ensures NewestFirst(m, r)
  {
    if ids == [] || m[k].createdAt >= m[ids[0]].createdAt then
      PrependNewest(m, k, ids);
      [k] + ids
    else
      var first, rest := ids[0], Insert(m, k, ids[1..]);
      assert ids == [first] + ids[1..];
      forall i | 0 <= i < |rest| ensures m[rest[i]].createdAt <= m[first].createdAt {
        if rest[i] != k {
          var n :| 0 <= n < |ids[1..]| && ids[1..][n] == rest[i];
          assert ids[n + 1] == rest[i];
        }
      }
      PrependNewest(m, first, rest);
      [first] + rest
  }

  /** The ids in `keys` sorted by the `createdAt` of their posts, newest first. */
  function SortNewestFirst(m: map<PostId, Post>, keys: set<PostId>): (ids: seq<PostId>)
    requires keys <= m.Keys
    ensures multiset(ids) == multiset(keys)
    ensures NewestFirst(m, ids)
    decreases keys
  {
    if keys == {} then []
    else
      var k := Largest(keys);
      assert keys == (keys - {k}) + {k};
      Insert(m, k, SortNewestFirst(m, keys - {k}))
  }

  /**
   * A list whose multiset is that of a set lists each member of the set
   * exactly once.
   */
  lemma ListsSetOnce(ids: seq<PostId>, keys: set<PostId>)
    requires multiset(ids) == multiset(keys)
    ensures |ids| == |keys|
    ensures forall k :: k in keys ==> k in ids
    ensures forall i, j :: 0 <= i < j < |ids| ==> ids[i] != ids[j]
  {
    assert |multiset(ids)| == |multiset(keys)|;
    forall k | k in keys ensures k in ids {
      assert k in multiset(keys);
    }
    forall i, j | 0 <= i < j < |ids| ensures ids[i] != ids[j] {
      assert ids == ids[..j] + ids[j..];
      assert ids[i] in ids[..j] && ids[j] in ids[j..];
      assert multiset(ids)[ids[i]] == multiset(ids[..j])[ids[i]] + multiset(ids[j..])[ids[i]];
      assert multiset(ids)[ids[i]] <= 1;
    }
  }

  /** Each post of `m` is stored under its own id. */
  predicate KeyedById(m: map<PostId, Post>)
  {
    forall k :: k in m ==> m[k].id == k
  }

  /**
   * `Post.find().sort({ createdAt: -1 })`: each post of the collection
   * exactly once, newest first.
   */
  function PostsNewestFirst(m: map<PostId, Post>): (r: seq<Post>)
    requires KeyedById(m)
    ensures |r| == |m|
    ensures forall i :: 0 <= i < |r| ==> r[i].id in m && m[r[i].id] == r[i]
    ensures forall k :: k in m ==> m[k] in r
    ensures forall i, j :: 0 <= i < j < |r| ==> r[i].id != r[j].id
    ensures forall i, j :: 0 <= i < j < |r| ==> r[i].createdAt >= r[j].createdAt
  {
    var ids := SortNewestFirst(m, m.Keys);
    ListsSetOnce(ids, m.Keys);
    var r := seq(|ids|, i requires 0 <= i < |ids| => m[ids[i]]);
    assert forall i :: 0 <= i < |r| ==> r[i].id == ids[i];
    forall k | k in m ensures m[k] in r {
      var i :| 0 <= i < |ids| && ids[i] == k;
      assert r[i] == m[k];
    }
    r
  }
}
