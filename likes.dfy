/**
 * The like toggle of `likePost` (server/controllers/posts.js): the user is
 * filtered out of `likes` when present, and pushed once otherwise.
 */
module Likes {
  import opened PostSchema

  /** No user id occurs twice in a `likes` list. */
  predicate NoDuplicates(s: seq<UserId>)
  {
    forall i, j :: 0 <= i < j < |s| ==> s[i] != s[j]
  }

  /**
   * `likes.filter(id => id.toString() !== u.toString())`: every occurrence
   * of `u` is dropped and every other id keeps its multiplicity.
   */
  function RemoveAll(s: seq<UserId>, u: UserId): (r: seq<UserId>)
    ensures u !in r
    ensures multiset(r) == multiset(s)[u := 0]
    ensures |r| == |s| - multiset(s)[u]
    ensures u !in s ==> r == s
  {
    if s == [] then []
    else
      assert s == [s[0]] + s[1..];
      if s[0] == u then RemoveAll(s[1..], u)
      else [s[0]] + RemoveAll(s[1..], u)
  }

  /** Filtering keeps the order: it distributes over concatenation. */
  lemma {:induction false} RemoveAllAppend(a: seq<UserId>, b: seq<UserId>, u: UserId)
    ensures RemoveAll(a + b, u) == RemoveAll(a, u) + RemoveAll(b, u)
  {
    if a == [] {
      assert a + b == b;
    } else {
      assert (a + b)[1..] == a[1..] + b;
      RemoveAllAppend(a[1..], b, u);
    }
  }

  /** The new `likes` after user `u` presses like on a post. */
  function Toggle(likes: seq<UserId>, u: UserId): (r: seq<UserId>)
    ensures u in r <==> u !in likes
    ensures forall x :: x != u ==> multiset(r)[x] == multiset(likes)[x]
    ensures u !in likes ==> multiset(r)[u] == 1 && |r| == |likes| + 1
    ensures u in likes ==> |r| == |likes| - multiset(likes)[u]
    ensures NoDuplicates(likes) ==> NoDuplicates(r)
  {
    if u in likes then
      RemoveAllKeepsNoDuplicates(likes, u);
      RemoveAll(likes, u)
    else
      likes + [u]
  }

  /**
   * Toggling twice gives back the same set of users; when `u` had not
   * liked the post the list itself is restored, and when `u` occurred at
   * most once the like count is restored.
   */
  lemma ToggleTwice(likes: seq<UserId>, u: UserId)
    ensures forall x :: x in Toggle(Toggle(likes, u), u) <==> x in likes
    ensures u !in likes ==> Toggle(Toggle(likes, u), u) == likes
    ensures multiset(likes)[u] <= 1 ==> |Toggle(Toggle(likes, u), u)| == |likes|
    ensures NoDuplicates(likes) ==> multiset(Toggle(Toggle(likes, u), u)) == multiset(likes)
  {
    if u !in likes {
      RemoveAllAppend(likes, [u], u);
      assert RemoveAll([u], u) == [];
    } else {
      var once := RemoveAll(likes, u);
      assert Toggle(once, u) == once + [u];
      forall x ensures x in once + [u] <==> x in likes {
        assert x in once <==> multiset(once)[x] > 0;
        assert x in likes <==> multiset(likes)[x] > 0;
      }
      if NoDuplicates(likes) {
        NoDuplicatesCount(likes, u);
      }
    }
  }

  /** The tail of a list without duplicates has none, and lacks the head. */
  lemma NoDuplicatesTail(s: seq<UserId>)
    requires s != [] && NoDuplicates(s)
    ensures NoDuplicates(s[1..]) && s[0] !in s[1..]
  {
  }

  /** Filtering a user out never introduces a duplicate. */
  lemma {:induction false} RemoveAllKeepsNoDuplicates(s: seq<UserId>, u: UserId)
    ensures NoDuplicates(s) ==> NoDuplicates(RemoveAll(s, u))
  {
    if s != [] && NoDuplicates(s) {
      NoDuplicatesTail(s);
      RemoveAllKeepsNoDuplicates(s[1..], u);
      var rest := RemoveAll(s[1..], u);
      if s[0] != u {
        assert s[0] !in rest by {
          assert multiset(rest)[s[0]] <= multiset(s[1..])[s[0]];
        }
        var r := [s[0]] + rest;
        forall i, j | 0 <= i < j < |r| ensures r[i] != r[j] {
          assert r[j] == rest[j - 1];
          if i > 0 {
            assert r[i] == rest[i - 1];
          }
        }
      }
    }
  }

  /** In a list without duplicates an id occurs at most once. */
  lemma {:induction false} NoDuplicatesCount(s: seq<UserId>, u: UserId)
    requires NoDuplicates(s)
    ensures multiset(s)[u] <= 1
  {
    if s != [] {
      assert s == [s[0]] + s[1..];
      NoDuplicatesTail(s);
      NoDuplicatesCount(s[1..], u);
    }
  }
}
