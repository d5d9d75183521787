/** Sorting by an integer key, for elements whose keys are distinct. */
module Sorting {

  ghost predicate DistinctKeys<T>(s: seq<T>, key: T -> int) {
    forall i, j :: 0 <= i < j < |s| ==> key(s[i]) != key(s[j])
  }

  predicate IncreasingKeys<T>(s: seq<T>, key: T -> int) {
    forall i, j :: 0 <= i < j < |s| ==> key(s[i]) < key(s[j])
  }

  lemma DistinctAppend<T(!new)>(s: seq<T>, x: T, key: T -> int)
    requires DistinctKeys(s, key) && forall y | y in s :: key(y) != key(x)
    ensures DistinctKeys(s + [x], key)
  {
    forall i | 0 <= i < |s| ensures key(s[i]) != key(x) { assert s[i] in s; }
  }

  function InsertBy<T(!new)>(sorted: seq<T>, x: T, key: T -> int): (s: seq<T>)
    ensures forall y :: y in s <==> y == x || y in sorted
  {
    if sorted == [] || key(x) >= key(sorted[|sorted| - 1]) then sorted + [x]
    else
      assert sorted == sorted[..|sorted| - 1] + [sorted[|sorted| - 1]];
      InsertBy(sorted[..|sorted| - 1], x, key) + [sorted[|sorted| - 1]]
  }

  function SortBy<T(!new)>(s: seq<T>, key: T -> int): (r: seq<T>)
    ensures forall y :: y in r <==> y in s
  {
    if s == [] then []
    else
      assert s == s[..|s| - 1] + [s[|s| - 1]];
      InsertBy(SortBy(s[..|s| - 1], key), s[|s| - 1], key)
  }

  lemma {:induction false} InsertIncreasing<T(!new)>(sorted: seq<T>, x: T, key: T -> int)
    requires IncreasingKeys(sorted, key) && forall y | y in sorted :: key(y) != key(x)
    ensures IncreasingKeys(InsertBy(sorted, x, key), key)
  {
    if sorted != [] {
      var init, last := sorted[..|sorted| - 1], sorted[|sorted| - 1];
      assert last in sorted;
      if key(x) >= key(last) {
        var s := sorted + [x];
        forall i, j | 0 <= i < j < |s| ensures key(s[i]) < key(s[j]) {
          if j == |sorted| && i < |sorted| - 1 { assert key(sorted[i]) < key(last); }
        }
      } else {
        InsertIncreasing(init, x, key);
        var s := InsertBy(init, x, key);
        forall i | 0 <= i < |s| ensures key(s[i]) < key(last) {
          assert s[i] in s;
          if s[i] != x {
            var k :| 0 <= k < |init| && init[k] == s[i];
            assert key(sorted[k]) < key(last);
          }
        }
      }
    }
  }

  lemma {:induction false} SortIncreasing<T(!new)>(s: seq<T>, key: T -> int)
    requires DistinctKeys(s, key)
    ensures IncreasingKeys(SortBy(s, key), key)
  {
    if s != [] {
      var init, last := s[..|s| - 1], s[|s| - 1];
      SortIncreasing(init, key);
      forall y | y in SortBy(init, key) ensures key(y) != key(last) {
        assert y in init;
        var k :| 0 <= k < |init| && init[k] == y;
        assert key(s[k]) != key(s[|s| - 1]);
      }
      InsertIncreasing(SortBy(init, key), last, key);
    }
  }

  lemma HeadIn<T>(s: seq<T>)
    requires s != []
    ensures s[0] in s
  {
  }

  /** Two increasing sequences with the same elements are equal. */
  lemma {:induction false} IncreasingUnique<T(!new)>(s: seq<T>, t: seq<T>, key: T -> int)
    requires IncreasingKeys(s, key) && IncreasingKeys(t, key) && forall y :: y in s <==> y in t
    ensures s == t
  {
    if s == [] {
      if t != [] {
        HeadIn(t);
        assert false;
      }
    } else {
      assert s[0] in s;
      assert s[0] in t;
      var m, n := |s| - 1, |t| - 1;
      LastIsLargest(s, t, key);
      LastIsLargest(t, s, key);
      var a, b := s[..m], t[..n];
      forall y ensures y in a <==> y in b {
        WithoutLast(s, y, key);
        WithoutLast(t, y, key);
      }
      IncreasingUnique(a, b, key);
      assert s == a + [s[m]] && t == b + [t[n]];
    }
  }

  lemma AtMostLast<T(!new)>(s: seq<T>, y: T, key: T -> int)
    requires IncreasingKeys(s, key) && y in s
    ensures key(y) <= key(s[|s| - 1]) && (key(y) == key(s[|s| - 1]) ==> y == s[|s| - 1])
  {
  }

  lemma LastIsLargest<T(!new)>(s: seq<T>, t: seq<T>, key: T -> int)
    requires IncreasingKeys(s, key) && IncreasingKeys(t, key) && s != [] && t != [] && forall y :: y in s <==> y in t
    ensures s[|s| - 1] == t[|t| - 1]
  {
    var x, y := s[|s| - 1], t[|t| - 1];
    assert x in s && y in t;
    AtMostLast(t, x, key);
    AtMostLast(s, y, key);
  }

  lemma WithoutLast<T(!new)>(s: seq<T>, y: T, key: T -> int)
    requires IncreasingKeys(s, key) && s != []
    ensures y in s[..|s| - 1] <==> y in s && y != s[|s| - 1]
  {
    var a, last := s[..|s| - 1], s[|s| - 1];
    assert s == a + [last];
    if y in a {
      var k :| 0 <= k < |a| && a[k] == y;
      assert key(s[k]) < key(last);
    }
  }

  // ---------------------------------------------------------------- keys that may repeat

  ghost predicate OrderedKeys<T>(s: seq<T>, key: T -> int) {
    forall i, j :: 0 <= i < j < |s| ==> key(s[i]) <= key(s[j])
  }

  lemma {:induction false} InsertOrdered<T(!new)>(sorted: seq<T>, x: T, key: T -> int)
    requires OrderedKeys(sorted, key)
    ensures OrderedKeys(InsertBy(sorted, x, key), key)
  {
    if sorted != [] && key(x) < key(sorted[|sorted| - 1]) {
      var init, last := sorted[..|sorted| - 1], sorted[|sorted| - 1];
      InsertOrdered(init, x, key);
      var s := InsertBy(init, x, key);
      forall i | 0 <= i < |s| ensures key(s[i]) <= key(last) {
        assert s[i] in s;
        if s[i] != x {
          var k :| 0 <= k < |init| && init[k] == s[i];
          assert key(sorted[k]) <= key(last);
        }
      }
    }
  }

  lemma {:induction false} SortOrdered<T(!new)>(s: seq<T>, key: T -> int)
    ensures OrderedKeys(SortBy(s, key), key)
  {
    if s != [] {
      var init, last := s[..|s| - 1], s[|s| - 1];
      SortOrdered(init, key);
      InsertOrdered(SortBy(init, key), last, key);
    }
  }

  lemma {:induction false} InsertKeepsAll<T(!new)>(sorted: seq<T>, x: T, key: T -> int)
    ensures multiset(InsertBy(sorted, x, key)) == multiset(sorted) + multiset{x}
  {
    if sorted != [] && key(x) < key(sorted[|sorted| - 1]) {
      var init, last := sorted[..|sorted| - 1], sorted[|sorted| - 1];
      InsertKeepsAll(init, x, key);
      assert sorted == init + [last];
    }
  }

  lemma {:induction false} SortKeepsAll<T(!new)>(s: seq<T>, key: T -> int)
    ensures multiset(SortBy(s, key)) == multiset(s)
  {
    if s != [] {
      var init, last := s[..|s| - 1], s[|s| - 1];
      SortKeepsAll(init, key);
      InsertKeepsAll(SortBy(init, key), last, key);
      assert s == init + [last];
    }
  }

  /** Whether two neighbours have the same key. */
  predicate AdjacentDiffer<T>(s: seq<T>, key: T -> int) {
    forall i :: 0 < i < |s| ==> key(s[i - 1]) != key(s[i])
  }

  lemma {:induction false} OrderedDiffering<T>(s: seq<T>, key: T -> int)
    requires OrderedKeys(s, key) && AdjacentDiffer(s, key)
    ensures IncreasingKeys(s, key)
  {
    forall i, j | 0 <= i < j < |s| ensures key(s[i]) < key(s[j]) {
      assert key(s[j - 1]) != key(s[j]) && key(s[j - 1]) <= key(s[j]);
    }
  }

  lemma TwoPlaces<T>(s: seq<T>, i: nat, j: nat)
    requires i < j < |s| && s[i] == s[j]
    ensures multiset(s)[s[i]] >= 2
  {
    assert s == s[..j] + s[j..];
    assert s[..j][i] in multiset(s[..j]) && s[j..][0] in multiset(s[j..]);
  }

  lemma {:induction false} IncreasingOnce<T>(s: seq<T>, x: T, key: T -> int)
    requires IncreasingKeys(s, key)
    ensures multiset(s)[x] <= 1
  {
    if s != [] {
      var init := s[..|s| - 1];
      IncreasingOnce(init, x, key);
      assert s == init + [s[|s| - 1]];
      assert s[|s| - 1] !in init;
    }
  }

  /** The neighbours of a sorted sequence differ exactly when all keys of the sequence do. */
  lemma SortedNeighbours<T(!new)>(s: seq<T>, key: T -> int)
    ensures AdjacentDiffer(SortBy(s, key), key) <==> DistinctKeys(s, key)
    ensures DistinctKeys(s, key) ==> IncreasingKeys(SortBy(s, key), key)
  {
    var r := SortBy(s, key);
    if DistinctKeys(s, key) {
      SortIncreasing(s, key);
    }
    if AdjacentDiffer(r, key) {
      SortOrdered(s, key);
      SortKeepsAll(s, key);
      OrderedDiffering(r, key);
      forall i, j | 0 <= i < j < |s| ensures key(s[i]) != key(s[j]) {
        if key(s[i]) == key(s[j]) {
          assert s[i] in s && s[j] in s;
          var a :| 0 <= a < |r| && r[a] == s[i];
          var b :| 0 <= b < |r| && r[b] == s[j];
          assert a == b;
          TwoPlaces(s, i, j);
          IncreasingOnce(r, s[i], key);
          assert false;
        }
      }
    }
  }
}
