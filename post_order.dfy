/**
 * The newest-first ordering of the post list: the comparator the listing
 * hands to `Array.prototype.sort`, and a sort that uses it.
 */
module PostOrder {
  import opened Posts

  /** `new Date(p.date)` is a valid date. */
  predicate Dated(lib: DateLib, p: BlogPost) {
    lib.toTime(p.date).Some?
  }

  /** `new Date(a.date) < new Date(b.date)`; any comparison with an Invalid Date is false. */
  predicate OlderThan(lib: DateLib, a: BlogPost, b: BlogPost) {
    Dated(lib, a) && Dated(lib, b) && lib.toTime(a.date).value < lib.toTime(b.date).value
  }

  /** The comparator: 1 (b goes first) when a is strictly older, -1 otherwise. It never answers 0. */
  function Compare(lib: DateLib, a: BlogPost, b: BlogPost): (r: int)
    ensures r == 1 || r == -1
    ensures r == 1 <==> OlderThan(lib, a, b)
  {
    if OlderThan(lib, a, b) then 1 else -1
  }

  /**
   * On equal times, or when either date is invalid, the comparator asks for
   * each post to go before the other, so the sort's order among such posts
   * is the engine's choice.
   */
  lemma CompareOnTies(lib: DateLib, a: BlogPost, b: BlogPost)
    requires !Dated(lib, a) || !Dated(lib, b) || lib.toTime(a.date) == lib.toTime(b.date)
    ensures Compare(lib, a, b) == -1 && Compare(lib, b, a) == -1
  {
  }

  /** Every post's date converts to a valid time. */
  predicate AllDated(lib: DateLib, posts: seq<BlogPost>) {
    forall i :: 0 <= i < |posts| ==> Dated(lib, posts[i])
  }

  /** No post is strictly older than a post after it. */
  predicate NewestFirst(lib: DateLib, posts: seq<BlogPost>) {
    forall i, j :: 0 <= i < j < |posts| ==> !OlderThan(lib, posts[i], posts[j])
  }

  /** Inserts `p` before the first post the comparator does not put ahead of it. */
  function Insert(lib: DateLib, p: BlogPost, sorted: seq<BlogPost>): (r: seq<BlogPost>)
    ensures multiset(r) == multiset(sorted) + multiset{p}
    ensures |r| == |sorted| + 1
  {
    if sorted == [] then [p]
    else if Compare(lib, p, sorted[0]) < 0 then [p] + sorted
    else
      assert sorted == [sorted[0]] + sorted[1..];
      [sorted[0]] + Insert(lib, p, sorted[1..])
  }

  /** The listing's `.sort(...)`: a permutation of its input, newest first whenever every date is valid. */
  function SortNewestFirst(lib: DateLib, posts: seq<BlogPost>): (r: seq<BlogPost>)
    ensures multiset(r) == multiset(posts)
    ensures |r| == |posts|
    ensures AllDated(lib, posts) ==> NewestFirst(lib, r)
  {
    if posts == [] then []
    else
      assert posts == [posts[0]] + posts[1..];
      var rest := SortNewestFirst(lib, posts[1..]);
      // Both branches insert the same way; the split only scopes the ordering lemmas to the dated case.
      if AllDated(lib, posts) then
        AllDatedPermutation(lib, posts[1..], rest);
        InsertKeepsNewestFirst(lib, posts[0], rest);
        Insert(lib, posts[0], rest)
      else
        Insert(lib, posts[0], rest)
  }

  /** Reordering posts does not change whether all their dates are valid. */
  lemma AllDatedPermutation(lib: DateLib, a: seq<BlogPost>, b: seq<BlogPost>)
    requires multiset(a) == multiset(b)
    requires AllDated(lib, a)
    ensures AllDated(lib, b)
  {
    forall i | 0 <= i < |b| ensures Dated(lib, b[i]) {
      assert b[i] in multiset(a);
      var k :| 0 <= k < |a| && a[k] == b[i];
    }
  }

  /** Putting a post in front of a newest-first list keeps it newest first when the post is older than none of it. */
  lemma ConsKeepsNewestFirst(lib: DateLib, x: BlogPost, rest: seq<BlogPost>)
    requires NewestFirst(lib, rest)
    requires forall j :: 0 <= j < |rest| ==> !OlderThan(lib, x, rest[j])
    ensures NewestFirst(lib, [x] + rest)
  {
    var r := [x] + rest;
    forall i, j | 0 <= i < j < |r| ensures !OlderThan(lib, r[i], r[j]) {
      assert r[j] == rest[j - 1];
      if i > 0 {
        assert r[i] == rest[i - 1];
      }
    }
  }

  /** Inserting a dated post into a newest-first list of dated posts keeps it newest first. */
  lemma {:induction false} InsertKeepsNewestFirst(lib: DateLib, p: BlogPost, sorted: seq<BlogPost>)
    requires Dated(lib, p) && AllDated(lib, sorted) && NewestFirst(lib, sorted)
    ensures NewestFirst(lib, Insert(lib, p, sorted))
  {
    if sorted == [] {
    } else if Compare(lib, p, sorted[0]) < 0 {
      forall j | 0 <= j < |sorted| ensures !OlderThan(lib, p, sorted[j]) {
        assert Dated(lib, sorted[0]) && Dated(lib, sorted[j]);
        assert j == 0 || !OlderThan(lib, sorted[0], sorted[j]);
      }
      ConsKeepsNewestFirst(lib, p, sorted);
    } else {
      var tail := sorted[1..];
      assert AllDated(lib, tail) by {
        forall k | 0 <= k < |tail| ensures Dated(lib, tail[k]) {
          assert tail[k] == sorted[k + 1];
        }
      }
      assert NewestFirst(lib, tail) by {
        forall i, j | 0 <= i < j < |tail| ensures !OlderThan(lib, tail[i], tail[j]) {
          assert tail[i] == sorted[i + 1] && tail[j] == sorted[j + 1];
        }
      }
      InsertKeepsNewestFirst(lib, p, tail);
      var rest := Insert(lib, p, tail);
      forall j | 0 <= j < |rest| ensures !OlderThan(lib, sorted[0], rest[j]) {
        assert rest[j] in multiset(rest);
        if rest[j] != p {
          assert rest[j] in multiset(tail);
          var k :| 0 <= k < |tail| && tail[k] == rest[j];
          assert tail[k] == sorted[k + 1];
        }
      }
      ConsKeepsNewestFirst(lib, sorted[0], rest);
    }
  }

  /** Every post's date is valid and no two different posts carry the same time. */
  predicate DistinctTimes(lib: DateLib, posts: seq<BlogPost>) {
    && AllDated(lib, posts)
    && forall i, j :: 0 <= i < |posts| && 0 <= j < |posts| && posts[i] != posts[j]
         ==> lib.toTime(posts[i].date) != lib.toTime(posts[j].date)
  }

  /** Two newest-first permutations of posts with distinct times start with the same post. */
  lemma HeadsAgree(lib: DateLib, a: seq<BlogPost>, b: seq<BlogPost>)
    requires multiset(a) == multiset(b) && |a| > 0
    requires DistinctTimes(lib, a)
    requires NewestFirst(lib, a) && NewestFirst(lib, b)
    ensures |b| == |a| && a[0] == b[0]
  {
    AllDatedPermutation(lib, a, b);
    assert |b| == |multiset(b)| == |multiset(a)| == |a|;
    assert b[0] in multiset(a);
    var m :| 0 <= m < |a| && a[m] == b[0];
    assert a[0] in multiset(b);
    var k :| 0 <= k < |b| && b[k] == a[0];
    assert m == 0 || k == 0 || a[0] == a[m];
  }

  /** Dropping the first post keeps a list newest first and its times distinct. */
  lemma TailKeepsOrder(lib: DateLib, a: seq<BlogPost>)
    requires |a| > 0
    ensures NewestFirst(lib, a) ==> NewestFirst(lib, a[1..])
    ensures DistinctTimes(lib, a) ==> DistinctTimes(lib, a[1..])
  {

  }

  /**
   * When no two dates tie, a newest-first order of a set of posts is unique:
   * two newest-first permutations of each other are equal.
   */
  lemma {:induction false} NewestFirstUnique(lib: DateLib, a: seq<BlogPost>, b: seq<BlogPost>)
    requires multiset(a) == multiset(b)
    requires DistinctTimes(lib, a)
    requires NewestFirst(lib, a) && NewestFirst(lib, b)
    ensures a == b
  {
    if |a| == 0 {
      assert |multiset(b)| == 0;
    } else {
      HeadsAgree(lib, a, b);
      var ta, tb := a[1..], b[1..];
      assert a == [a[0]] + ta && b == [b[0]] + tb;
      assert multiset(ta) == multiset(a) - multiset{a[0]};
      assert multiset(tb) == multiset(b) - multiset{b[0]};
      TailKeepsOrder(lib, a);
      TailKeepsOrder(lib, b);
      NewestFirstUnique(lib, ta, tb);
    }
  }

  /**
   * When no two dates tie, the model's sort agrees with every sort that
   * respects the comparator, whatever algorithm the JavaScript engine uses.
   */
  lemma SortIsTheNewestFirstOrder(lib: DateLib, posts: seq<BlogPost>, other: seq<BlogPost>)
    requires DistinctTimes(lib, posts)
    requires multiset(other) == multiset(posts)
    requires NewestFirst(lib, other)
    ensures SortNewestFirst(lib, posts) == other
  {
    var sorted := SortNewestFirst(lib, posts);
    forall i, j | 0 <= i < |sorted| && 0 <= j < |sorted| && sorted[i] != sorted[j]
      ensures lib.toTime(sorted[i].date) != lib.toTime(sorted[j].date)
    {
      assert sorted[i] in multiset(posts) && sorted[j] in multiset(posts);
      var x :| 0 <= x < |posts| && posts[x] == sorted[i];
      var y :| 0 <= y < |posts| && posts[y] == sorted[j];
    }
    AllDatedPermutation(lib, posts, sorted);
    NewestFirstUnique(lib, sorted, other);
  }
}
