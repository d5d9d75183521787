/** Permutations of an initial segment of the naturals, and sums that do not depend on their order. */
module Permutations {

  ghost predicate IsInjective(p: seq<nat>) {
    forall i, k | 0 <= i < k < |p| :: p[i] != p[k]
  }

  ghost predicate IsPermutation(p: seq<nat>) {
    (forall i | 0 <= i < |p| :: p[i] < |p|) && IsInjective(p)
  }

  ghost function Sum(s: seq<real>): real {
    if s == [] then 0.0 else Sum(s[..|s| - 1]) + s[|s| - 1]
  }

  ghost function Gather(v: seq<real>, p: seq<nat>): (r: seq<real>)
    requires forall i | 0 <= i < |p| :: p[i] < |v|
    ensures |r| == |p| && forall i | 0 <= i < |p| :: r[i] == v[p[i]]
  {
    seq(|p|, i requires 0 <= i < |p| => v[p[i]])
  }

  /** An injective sequence of numbers below n has at most n elements; if it has n, every number occurs. */
  lemma {:induction false} Pigeonhole(p: seq<nat>, n: nat)
    requires IsInjective(p) && forall i | 0 <= i < |p| :: p[i] < n
    ensures |p| <= n
    ensures |p| == n ==> forall x | 0 <= x < n :: x in p
    decreases n
  {
    if |p| > 0 && n <= p[0] {
      assert false;
    } else if k :| 0 <= k < |p| && p[k] == n - 1 {
      var q := p[..k] + p[k + 1..];
      Pigeonhole(q, n - 1);
      assert forall x :: x in q ==> x in p;
    } else if n > 0 {
      Pigeonhole(p, n - 1);
    }
  }

  lemma {:induction false} SumReplace(s: seq<real>, k: nat, x: real)
    requires k < |s|
    ensures Sum(s[k := x]) == Sum(s) - s[k] + x
  {
    var n := |s| - 1;
    if k == n {
      assert s[k := x][..n] == s[..n];
    } else {
      SumReplace(s[..n], k, x);
      assert s[k := x][..n] == s[..n][k := x];
    }
  }

  /** Drops the largest number from a permutation, moving the last entry into its place. */
  ghost function DropLargest(p: seq<nat>, k: nat): (q: seq<nat>)
    requires k < |p| && p[k] == |p| - 1 && IsPermutation(p)
    ensures |q| == |p| - 1 && IsPermutation(q)
    ensures forall i | 0 <= i < |q| :: q[i] == if i == k then p[|p| - 1] else p[i]
  {
    var q := p[..|p| - 1];
    if k < |p| - 1 then q[k := p[|p| - 1]] else q
  }

  lemma DropLargestSum(v: seq<real>, p: seq<nat>, k: nat)
    requires |p| == |v| && k < |p| && p[k] == |p| - 1 && IsPermutation(p)
    ensures Sum(Gather(v, p)) == Sum(Gather(v[..|v| - 1], DropLargest(p, k))) + v[|v| - 1]
  {
    var n := |v| - 1;
    var g, h := Gather(v, p), Gather(v[..n], DropLargest(p, k));
    if k == n {
      assert g[..n] == h;
    } else {
      SumReplace(h, k, v[n]);
      assert g[..n] == h[k := v[n]];
    }
  }

  /** Reading a vector through a permutation does not change its sum. */
  lemma {:induction false} SumPermuted(v: seq<real>, p: seq<nat>)
    requires |p| == |v| && IsPermutation(p)
    ensures Sum(Gather(v, p)) == Sum(v)
    decreases |v|
  {
    if |v| > 0 {
      Pigeonhole(p, |v|);
      assert |v| - 1 in p;
      var k :| 0 <= k < |p| && p[k] == |v| - 1;
      DropLargestSum(v, p, k);
      SumPermuted(v[..|v| - 1], DropLargest(p, k));
    }
  }

  lemma {:induction false} SumMonotone(a: seq<real>, b: seq<real>)
    requires |a| == |b| && forall i | 0 <= i < |a| :: a[i] <= b[i]
    ensures Sum(a) <= Sum(b)
    ensures (exists i :: 0 <= i < |a| && a[i] < b[i]) ==> Sum(a) < Sum(b)
  {
    if a != [] {
      var n := |a| - 1;
      SumMonotone(a[..n], b[..n]);
      if i :| 0 <= i < n && a[i] < b[i] {
        assert a[..n][i] < b[..n][i];
      }
    }
  }

  lemma {:induction false} SumAdd(a: seq<real>, b: seq<real>, c: seq<real>)
    requires |a| == |b| == |c| && forall i | 0 <= i < |a| :: c[i] == a[i] + b[i]
    ensures Sum(c) == Sum(a) + Sum(b)
  {
    if a != [] {
      SumAdd(a[..|a| - 1], b[..|a| - 1], c[..|a| - 1]);
    }
  }
}
