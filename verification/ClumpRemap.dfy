/** The chain of guide remaps behind a clump module, and the decoding of guide ids from a map's colour. */
module ClumpRemap {
  import opened Arithmetic
  import opened Bytes
  import opened Wrappers

  /** What identifies a guide across the stages: its face and the bits of its coordinates. */
  datatype Identity = Identity(face: word32, u: word32, v: word32)

  /** One point of a strand: its position and its radius. */
  datatype Point = Point(x: real, y: real, z: real, radius: real)

  const INVALID: nat := 0xffff_ffff

  // ---------------------------------------------------------------- order-preserving filters

  /** The positions kept, in order. */
  function Kept(keep: seq<bool>): (p: seq<nat>)
    ensures forall k | 0 <= k < |p| :: p[k] < |keep| && keep[p[k]]
    ensures forall i, k | 0 <= i < k < |p| :: p[i] < p[k]
    ensures forall i | 0 <= i < |keep| && keep[i] :: i in p
  {
    if keep == [] then []
    else
      var n := |keep| - 1;
      var init := Kept(keep[..n]);
      if keep[n] then init + [n] else init
  }

  function Filtered<T>(s: seq<T>, keep: seq<bool>): (r: seq<T>)
    requires |s| == |keep|
    ensures |r| == |Kept(keep)| && forall k | 0 <= k < |r| :: r[k] == s[Kept(keep)[k]]
  {
    if keep == [] then []
    else
      var n := |keep| - 1;
      var init := Filtered(s[..n], keep[..n]);
      if keep[n] then init + [s[n]] else init
  }

  /** The flags of a stage that looks at an element's identity only. */
  function Flags(s: seq<Identity>, test: Identity -> bool): (r: seq<bool>)
    ensures |r| == |s|
  {
    seq(|s|, k requires 0 <= k < |s| => test(s[k]))
  }

  lemma {:induction false} KeptAtMost(keep: seq<bool>)
    ensures |Kept(keep)| <= |keep|
  {
    if keep != [] { KeptAtMost(keep[..|keep| - 1]); }
  }

  lemma FilterStep<T>(s: seq<T>, keep: seq<bool>, k: nat)
    requires |s| == |keep| && k < |s|
    ensures Kept(keep[..k + 1]) == if keep[k] then Kept(keep[..k]) + [k] else Kept(keep[..k])
    ensures Filtered(s[..k + 1], keep[..k + 1])
         == if keep[k] then Filtered(s[..k], keep[..k]) + [s[k]] else Filtered(s[..k], keep[..k])
  {
    assert s[..k + 1][..k] == s[..k] && keep[..k + 1][..k] == keep[..k];
  }

  // ---------------------------------------------------------------- partial maps between stages

  /**
   A remap from s to t: each element goes to an element with the same identity or nowhere, in order,
   and every element of t is reached.
   */
  ghost predicate Remaps(m: seq<nat>, s: seq<Identity>, t: seq<Identity>) {
    && |m| == |s| && |t| <= INVALID
    && (forall i | 0 <= i < |m| && m[i] != INVALID :: m[i] < |t| && t[m[i]] == s[i])
    && (forall i, k | 0 <= i < k < |m| && m[i] != INVALID && m[k] != INVALID :: m[i] < m[k])
    && (forall j | 0 <= j < |t| :: j in m)
  }

  /** Every element of the target is reached exactly once. */
  lemma RemapsOnce(m: seq<nat>, s: seq<Identity>, t: seq<Identity>, j: nat) returns (i: nat)
    requires Remaps(m, s, t) && j < |t|
    ensures i < |m| && m[i] == j && forall k | 0 <= k < |m| && m[k] == j :: k == i
  {
    assert j in m;
    i :| 0 <= i < |m| && m[i] == j;
  }

  ghost function Composed(m: seq<nat>, n: seq<nat>): (r: seq<nat>)
    requires forall i | 0 <= i < |m| && m[i] != INVALID :: m[i] < |n|
    ensures |r| == |m|
  {
    seq(|m|, i requires 0 <= i < |m| => if m[i] == INVALID then INVALID else n[m[i]])
  }

  /** Remaps compose. */
  lemma RemapsCompose(m: seq<nat>, n: seq<nat>, s: seq<Identity>, t: seq<Identity>, u: seq<Identity>)
    requires Remaps(m, s, t) && Remaps(n, t, u)
    ensures Remaps(Composed(m, n), s, u)
  {
    var r := Composed(m, n);
    forall j | 0 <= j < |u| ensures j in r {
      assert j in n;
      var k :| 0 <= k < |n| && n[k] == j;
      assert k in m;
      var i :| 0 <= i < |m| && m[i] == k;
      assert r[i] == j;
    }
  }

  // ---------------------------------------------------------------- where a remap sends each guide

  ghost predicate Increasing(p: seq<nat>) {
    forall i, k | 0 <= i < k < |p| :: p[i] < p[k]
  }

  /** The remap of n elements that sends the j-th of some places to j and all else nowhere. */
  ghost predicate Places(m: seq<nat>, n: nat, p: seq<nat>) {
    && |m| == n && |p| <= INVALID && Increasing(p)
    && (forall j | 0 <= j < |p| :: p[j] < n && m[p[j]] == j)
    && (forall i | 0 <= i < n && m[i] != INVALID :: i in p)
  }

  /** A remap determines its places. */
  lemma PlacesUnique(m: seq<nat>, n: nat, p: seq<nat>, q: seq<nat>)
    requires Places(m, n, p) && Places(m, n, q)
    ensures p == q
  {
    PlacesBegin(m, n, p, q);
    PlacesBegin(m, n, q, p);
  }

  lemma PlacesBegin(m: seq<nat>, n: nat, p: seq<nat>, q: seq<nat>)
    requires Places(m, n, p) && Places(m, n, q)
    ensures |p| <= |q| && forall j | 0 <= j < |p| :: q[j] == p[j]
  {
    forall j | 0 <= j < |p| ensures j < |q| && q[j] == p[j] { assert m[p[j]] == j && p[j] in q; }
    if p != [] {
      var j := |p| - 1;
      assert m[p[j]] == j && p[j] in q;
    }
  }

  /** Places among places. */
  ghost function Through(p: seq<nat>, q: seq<nat>): (r: seq<nat>)
    requires forall j | 0 <= j < |q| :: q[j] < |p|
    ensures |r| == |q| && forall j | 0 <= j < |q| :: r[j] == p[q[j]]
  {
    seq(|q|, j requires 0 <= j < |q| => p[q[j]])
  }

  lemma PlacesCompose(m: seq<nat>, next: seq<nat>, n: nat, p: seq<nat>, q: seq<nat>)
    requires Places(m, n, p) && Places(next, |p|, q)
    requires forall i | 0 <= i < |m| && m[i] != INVALID :: m[i] < |next|
    ensures Places(Composed(m, next), n, Through(p, q))
  {
    var r, t := Composed(m, next), Through(p, q);
    forall i | 0 <= i < n && r[i] != INVALID ensures i in t {
      assert i in p;
      var j :| 0 <= j < |p| && p[j] == i;
      assert m[p[j]] == j && j in q;
      var k :| 0 <= k < |q| && q[k] == j;
      assert t[k] == i;
    }
  }

  // ---------------------------------------------------------------- the greedy match

  /** The first index behind the first j places. */
  ghost function After(q: seq<nat>, j: nat): nat
    requires j <= |q|
  {
    if j == 0 then 0 else q[j - 1] + 1
  }

  /** Each place is the first one behind the previous place where s agrees with t. */
  ghost predicate Greedy(q: seq<nat>, s: seq<Identity>, t: seq<Identity>) {
    && |q| <= |t| && Increasing(q)
    && (forall j | 0 <= j < |q| :: q[j] < |s| && s[q[j]] == t[j])
    && (forall j, i {:trigger s[i], t[j]} | 0 <= j < |q| && After(q, j) <= i < q[j] :: s[i] != t[j])
  }

  /** Between two kept elements, no dropped one has the identity of the second. */
  ghost predicate Separated(s: seq<Identity>, keep: seq<bool>) {
    |s| == |keep| &&
    forall i, k | 0 <= i < k < |s| && keep[k] && (forall l | i <= l < k :: !keep[l]) :: s[i] != s[k]
  }

  /** A stage that looks at identities only keeps or drops equal elements together. */
  lemma IdentitySeparates(s: seq<Identity>, test: Identity -> bool)
    ensures Separated(s, Flags(s, test))
  {
    var keep := Flags(s, test);
    forall i, k | 0 <= i < k < |s| && keep[k] && (forall l | i <= l < k :: !keep[l]) ensures s[i] != s[k] {
      assert !keep[i];
    }
  }

  /** A greedy match onto the kept elements finds each at its own place exactly when they are separated. */
  lemma GreedyExactly(q: seq<nat>, s: seq<Identity>, keep: seq<bool>)
    requires |s| == |keep| && Greedy(q, s, Filtered(s, keep)) && |q| == |Kept(keep)|
    ensures q == Kept(keep) <==> Separated(s, keep)
  {
    var p := Kept(keep);
    if Separated(s, keep) {
      GreedyFollows(q, s, keep, |p|);
    }
    if q == p {
      forall i, k | 0 <= i < k < |s| && keep[k] && (forall l | i <= l < k :: !keep[l]) ensures s[i] != s[k] {
        GreedySeparates(s, keep, i, k);
      }
    }
  }

  /** The place of a kept element is behind the kept elements before a gap. */
  lemma GapBelow(keep: seq<bool>, i: nat, j: nat)
    requires j < |Kept(keep)| && i < Kept(keep)[j] && forall l | i <= l < Kept(keep)[j] :: !keep[l]
    ensures After(Kept(keep), j) <= i
  {
    if j > 0 { assert keep[Kept(keep)[j - 1]]; }
  }

  lemma GreedySeparates(s: seq<Identity>, keep: seq<bool>, i: nat, k: nat)
    requires |s| == |keep| && Greedy(Kept(keep), s, Filtered(s, keep))
    requires i < k < |s| && keep[k] && forall l | i <= l < k :: !keep[l]
    ensures s[i] != s[k]
  {
    assert k in Kept(keep);
    var j :| 0 <= j < |Kept(keep)| && Kept(keep)[j] == k;
    GapBelow(keep, i, j);
    assert Filtered(s, keep)[j] == s[k];
  }

  /** No kept element lies between two neighbouring ones. */
  lemma NoneBetween(keep: seq<bool>, j: nat, l: nat)
    requires j < |Kept(keep)| && After(Kept(keep), j) <= l < Kept(keep)[j]
    ensures !keep[l]
  {
    hide Kept, After;
    var p := Kept(keep);
    assert Increasing(p);
    NotAmong(p, j, l);
    assert keep[l] ==> l in p;
  }

  lemma NotAmong(p: seq<nat>, j: nat, l: nat)
    requires Increasing(p) && j < |p| && After(p, j) <= l < p[j]
    ensures l !in p
  {
    forall k | 0 <= k < |p| ensures p[k] != l {
      if k < j { assert p[k] <= p[j - 1]; } else { assert p[j] <= p[k]; }
    }
  }

  lemma {:induction false} GreedyFollows(q: seq<nat>, s: seq<Identity>, keep: seq<bool>, n: nat)
    requires |s| == |keep| && Greedy(q, s, Filtered(s, keep)) && n <= |q| == |Kept(keep)| && Separated(s, keep)
    ensures forall j | 0 <= j < n :: q[j] == Kept(keep)[j]
  {
    hide Greedy, Separated, Kept, Filtered;
    if n > 0 {
      GreedyFollows(q, s, keep, n - 1);
      GreedyAt(q, s, keep, n - 1);
    }
  }

  /** Behind the same place, the next place is the same too. */
  lemma GreedyAt(q: seq<nat>, s: seq<Identity>, keep: seq<bool>, j: nat)
    requires |s| == |keep| && Greedy(q, s, Filtered(s, keep)) && j < |q| == |Kept(keep)| && Separated(s, keep)
    requires After(q, j) == After(Kept(keep), j)
    ensures q[j] == Kept(keep)[j]
  {
    hide Greedy, Separated, Kept, Filtered, After;
    var p := Kept(keep);
    KeptAfter(s, keep, j);
    FirstAgreement(q, s, Filtered(s, keep), j, p[j]);
    if q[j] < p[j] { SeparatedAt(s, keep, q[j], p[j]); }
  }

  lemma SeparatedAt(s: seq<Identity>, keep: seq<bool>, i: nat, k: nat)
    requires Separated(s, keep) && i < k < |s| && keep[k] && forall l | i <= l < k :: !keep[l]
    ensures s[i] != s[k]
  {
  }

  lemma KeptAfter(s: seq<Identity>, keep: seq<bool>, j: nat)
    requires |s| == |keep| && j < |Kept(keep)|
    ensures After(Kept(keep), j) <= Kept(keep)[j] < |s| && keep[Kept(keep)[j]]
    ensures Filtered(s, keep)[j] == s[Kept(keep)[j]]
    ensures forall l | After(Kept(keep), j) <= l < Kept(keep)[j] :: !keep[l]
  {
    hide Filtered;
    BehindPlaces(Kept(keep), j);
    forall l | After(Kept(keep), j) <= l < Kept(keep)[j] ensures !keep[l] { NoneBetween(keep, j, l); }
  }

  lemma FirstAgreement(q: seq<nat>, s: seq<Identity>, t: seq<Identity>, j: nat, i: nat)
    requires Greedy(q, s, t) && j < |q| && After(q, j) <= i < |s| && s[i] == t[j]
    ensures After(q, j) <= q[j] <= i && s[q[j]] == t[j]
  {
    BehindPlaces(q, j);
  }

  lemma BehindPlaces(q: seq<nat>, j: nat)
    requires Increasing(q) && j < |q|
    ensures After(q, j) <= q[j]
  {
    if j > 0 { assert q[j - 1] < q[j]; }
  }

  /** A greedy match onto what a test of identities keeps finds every element at its own place. */
  lemma GreedyOnFlags(q: seq<nat>, s: seq<Identity>, test: Identity -> bool)
    requires Greedy(q, s, Filtered(s, Flags(s, test))) && |q| == |Kept(Flags(s, test))|
    ensures q == Kept(Flags(s, test))
  {
    hide Greedy, Kept, Filtered, Separated;
    IdentitySeparates(s, test);
    GreedyExactly(q, s, Flags(s, test));
  }

  lemma GreedyStart(q: seq<nat>, s: seq<Identity>, t: seq<Identity>)
    requires Greedy(q, s, t) && q != [] && |s| > 0 && s[0] == t[0]
    ensures q[0] == 0
  {
  }

  /**
   With equal identities a culled guide is taken for its double: of two equal guides the first is dropped, and
   every greedy match sends that one to the survivor and the survivor nowhere.
   */
  lemma DoublesAreConfused(id: Identity, q: seq<nat>, m: seq<nat>)
    requires var s, keep := [id, id], [false, true];
      Greedy(q, s, Filtered(s, keep)) && |q| == |Kept(keep)| && Places(m, |s|, q)
    ensures m == [0, INVALID]
  {
    var s, keep := [id, id], [false, true];
    assert keep[..1] == [false] && keep[..1][..0] == [];
    assert Kept([false]) == [] by { assert [false][..0] == []; }
    assert Kept(keep) == [1];
    assert Filtered(s, keep)[0] == id;
    GreedyStart(q, s, Filtered(s, keep));
    assert m[q[0]] == 0 && q == [0];
  }

  // ---------------------------------------------------------------- the stages

  /** Keeps the associated guides of the point file and records where each went. */
  method Prefilter(ids: seq<Identity>, associated: Identity -> bool)
    returns (ok: bool, valid: seq<Identity>, remap: seq<nat>)
    ensures ok <==> |Kept(Flags(ids, associated))| <= INVALID
    ensures ok ==> valid == Filtered(ids, Flags(ids, associated)) && Remaps(remap, ids, valid)
    ensures ok ==> Places(remap, |ids|, Kept(Flags(ids, associated)))
  {
    valid, remap := [], [];
    ghost var keep := Flags(ids, associated);
    NothingPrefiltered(ids, keep);
    hide Prefiltered, Kept, Filtered, Remaps, Places;
    for k := 0 to |ids|
      invariant |valid| <= INVALID && Prefiltered(ids, keep, k, valid, remap)
    {
      if associated(ids[k]) && |valid| >= INVALID {
        TooMany(ids, keep, k, valid, remap);
        return false, [], [];
      }
      PrefilterStep(ids, keep, k, valid, remap);
      if associated(ids[k]) {
        remap := remap + [|valid|];
        valid := valid + [ids[k]];
      } else {
        remap := remap + [INVALID];
      }
    }
    PrefilterDone(ids, keep, valid, remap);
    ok := true;
  }

  /** The first k guides, prefiltered. */
  ghost predicate Prefiltered(ids: seq<Identity>, keep: seq<bool>, k: nat, valid: seq<Identity>, remap: seq<nat>) {
    && k <= |ids| == |keep| && valid == Filtered(ids[..k], keep[..k]) && Remaps(remap, ids[..k], valid)
    && Places(remap, k, Kept(keep[..k]))
  }

  lemma NothingPrefiltered(ids: seq<Identity>, keep: seq<bool>)
    requires |ids| == |keep|
    ensures Prefiltered(ids, keep, 0, [], [])
  {
  }

  lemma PrefilterStep(ids: seq<Identity>, keep: seq<bool>, k: nat, valid: seq<Identity>, remap: seq<nat>)
    requires Prefiltered(ids, keep, k, valid, remap) && k < |ids|
    ensures keep[k] && |valid| < INVALID ==>
      Prefiltered(ids, keep, k + 1, valid + [ids[k]], remap + [|valid|])
    ensures !keep[k] ==> Prefiltered(ids, keep, k + 1, valid, remap + [INVALID])
  {
    hide Remaps, Kept, Filtered, Places;
    FilterStep(ids, keep, k);
    assert ids[..k] + [ids[k]] == ids[..k + 1];
    if keep[k] {
      if |valid| < INVALID {
        RemapPush(remap, ids[..k], valid, ids[k]);
        PlacesPush(remap, k, Kept(keep[..k]));
      }
    } else {
      RemapSkip(remap, ids[..k], valid, ids[k]);
      PlacesSkip(remap, k, Kept(keep[..k]));
    }
  }

  lemma PlacesPush(m: seq<nat>, n: nat, p: seq<nat>)
    requires Places(m, n, p) && |p| < INVALID
    ensures Places(m + [|p|], n + 1, p + [n])
  {
    var r, t := m + [|p|], p + [n];
    forall i | 0 <= i < n + 1 && r[i] != INVALID ensures i in t {
      if i == n { assert t[|p|] == n; } else { assert i in p; }
    }
  }

  lemma PlacesSkip(m: seq<nat>, n: nat, p: seq<nat>)
    requires Places(m, n, p)
    ensures Places(m + [INVALID], n + 1, p)
  {
    forall i | 0 <= i < n + 1 && (m + [INVALID])[i] != INVALID ensures i in p { assert m[i] != INVALID; }
  }

  lemma TooMany(ids: seq<Identity>, keep: seq<bool>, k: nat, valid: seq<Identity>, remap: seq<nat>)
    requires Prefiltered(ids, keep, k, valid, remap) && k < |ids| && keep[k] && |valid| >= INVALID
    ensures |Kept(keep)| > INVALID
  {
    FilterStep(ids, keep, k);
    KeptMonotone(keep, k + 1);
    hide Remaps, Kept, Filtered, Places;
  }

  lemma PrefilterDone(ids: seq<Identity>, keep: seq<bool>, valid: seq<Identity>, remap: seq<nat>)
    requires Prefiltered(ids, keep, |ids|, valid, remap) && |valid| <= INVALID
    ensures |Kept(keep)| <= INVALID && valid == Filtered(ids, keep) && Remaps(remap, ids, valid)
    ensures Places(remap, |ids|, Kept(keep))
  {
    assert ids[..|ids|] == ids && keep[..|ids|] == keep;
    hide Remaps, Kept, Filtered, Places;
  }

  lemma {:induction false} KeptMonotone(keep: seq<bool>, k: nat)
    requires k <= |keep|
    ensures |Kept(keep[..k])| <= |Kept(keep)|
  {
    if k == |keep| {
      assert keep[..k] == keep;
    } else {
      KeptMonotone(keep[..|keep| - 1], k);
      assert keep[..|keep| - 1][..k] == keep[..k];
    }
  }

  lemma RemapPush(m: seq<nat>, s: seq<Identity>, t: seq<Identity>, id: Identity)
    requires Remaps(m, s, t) && |t| < INVALID
    ensures Remaps(m + [|t|], s + [id], t + [id])
  {
    var r := m + [|t|];
    forall j | 0 <= j < |t| + 1 ensures j in r {
      if j < |t| { assert j in m; } else { assert r[|m|] == j; }
    }
  }

  lemma RemapSkip(m: seq<nat>, s: seq<Identity>, t: seq<Identity>, id: Identity)
    requires Remaps(m, s, t)
    ensures Remaps(m + [INVALID], s + [id], t)
  {
    var r := m + [INVALID];
    forall j | 0 <= j < |t| ensures j in r { assert j in m; }
  }

  /** The explicit roots: a sample that no guide influences is skipped. */
  method ExplicitRoots(samples: seq<Identity>, influenced: Identity -> bool) returns (roots: seq<Identity>)
    ensures roots == Filtered(samples, Flags(samples, influenced))
  {
    roots := [];
    ghost var keep := Flags(samples, influenced);
    for k := 0 to |samples|
      invariant roots == Filtered(samples[..k], keep[..k])
    {
      assert samples[..k + 1][..k] == samples[..k] && keep[..k + 1][..k] == keep[..k];
      if !influenced(samples[k]) { continue; }
      roots := roots + [samples[k]];
    }
    assert samples[..|samples|] == samples && keep[..|samples|] == keep;
  }

  /**
   The matched part of a greedy match: every element of t before `found` has its place among the first n of s,
   and those places are the greedy ones.
   */
  ghost predicate Matched(m: seq<nat>, s: seq<Identity>, t: seq<Identity>, n: nat, q: seq<nat>) {
    && |m| == |s| && n <= |s| && |t| <= INVALID
    && Greedy(q, s, t) && Places(m, |s|, q) && After(q, |q|) <= n
    && (forall i | After(q, |q|) <= i < n && |q| < |t| :: s[i] != t[|q|])
  }

  lemma MatchOne(m: seq<nat>, s: seq<Identity>, t: seq<Identity>, n: nat, q: seq<nat>)
    requires Matched(m, s, t, n, q) && n < |s| && |q| < |t| && s[n] == t[|q|]
    ensures Matched(m[n := |q|], s, t, n + 1, q + [n])
  {
    GreedyPush(q, s, t, n);
    PlacesSet(m, |s|, q, n);
    hide Greedy, Places;
  }

  lemma GreedyPush(q: seq<nat>, s: seq<Identity>, t: seq<Identity>, n: nat)
    requires Greedy(q, s, t) && After(q, |q|) <= n < |s| && |q| < |t| && s[n] == t[|q|]
    requires forall i | After(q, |q|) <= i < n :: s[i] != t[|q|]
    ensures Greedy(q + [n], s, t)
  {
    var p := q + [n];
    IncreasingPush(q, n);
    forall j | 0 <= j < |p| ensures p[j] < |s| && s[p[j]] == t[j] {
      if j < |q| { AgreesAt(q, s, t, j); }
    }
    hide Increasing;
    forall j, i {:trigger s[i], t[j]} | 0 <= j < |p| && After(p, j) <= i < p[j] ensures s[i] != t[j] {
      if j < |q| { NotBefore(q, s, t, j, i); }
    }
    GreedyFrom(p, s, t);
    hide Greedy;
  }

  lemma AgreesAt(q: seq<nat>, s: seq<Identity>, t: seq<Identity>, j: nat)
    requires Greedy(q, s, t) && j < |q|
    ensures q[j] < |s| && s[q[j]] == t[j]
  {
    hide Increasing, After;
  }

  lemma GreedyFrom(p: seq<nat>, s: seq<Identity>, t: seq<Identity>)
    requires |p| <= |t| && Increasing(p) && forall j | 0 <= j < |p| :: p[j] < |s| && s[p[j]] == t[j]
    requires forall j, i {:trigger s[i], t[j]} | 0 <= j < |p| && After(p, j) <= i < p[j] :: s[i] != t[j]
    ensures Greedy(p, s, t)
  {
    hide Increasing;
  }

  lemma IncreasingPush(q: seq<nat>, n: nat)
    requires Increasing(q) && After(q, |q|) <= n
    ensures Increasing(q + [n])
  {
    forall j | 0 <= j < |q| ensures q[j] < n { assert q[j] <= q[|q| - 1]; }
  }

  lemma NotBefore(q: seq<nat>, s: seq<Identity>, t: seq<Identity>, j: nat, i: nat)
    requires Greedy(q, s, t) && j < |q| && After(q, j) <= i < q[j]
    ensures s[i] != t[j]
  {
  }

  lemma PlacesSet(m: seq<nat>, n: nat, q: seq<nat>, at: nat)
    requires Places(m, n, q) && After(q, |q|) <= at < n && |q| < INVALID
    ensures Places(m[at := |q|], n, q + [at])
  {
    var r, p := m[at := |q|], q + [at];
    forall j | 0 <= j < |q| ensures q[j] < at { assert q[j] <= q[|q| - 1]; }
    forall i | 0 <= i < n && r[i] != INVALID ensures i in p {
      if i == at { assert p[|q|] == at; } else { assert i in q; }
    }
  }

  lemma MatchedAll(m: seq<nat>, s: seq<Identity>, t: seq<Identity>, n: nat, q: seq<nat>)
    requires Matched(m, s, t, n, q) && |q| == |t|
    ensures Remaps(m, s, t) && Greedy(q, s, t) && Places(m, |s|, q)
  {
    forall j | 0 <= j < |t| ensures j in m { assert m[q[j]] == j; }
    forall i | 0 <= i < |m| && m[i] != INVALID ensures m[i] < |t| && t[m[i]] == s[i] && q[m[i]] == i { assert i in q; }
  }

  lemma NothingMatched(s: seq<Identity>, t: seq<Identity>)
    requires |t| <= INVALID
    ensures Matched(seq(|s|, _ => INVALID), s, t, 0, [])
  {
  }

  lemma MatchNone(m: seq<nat>, s: seq<Identity>, t: seq<Identity>, n: nat, q: seq<nat>)
    requires Matched(m, s, t, n, q) && n < |s| && (|q| < |t| ==> s[n] != t[|q|])
    ensures Matched(m, s, t, n + 1, q)
  {
  }

  /**
   Matches the roots back to the samples they came from, walking over the samples. Because the roots are a
   filtered copy, the walk always reaches the last root; because they were filtered by identity, each
   root is found at its own sample.
   */
  method MatchAssociated(samples: seq<Identity>, roots: seq<Identity>, ghost influenced: Identity -> bool)
    returns (ok: bool, m: seq<nat>)
    requires roots == Filtered(samples, Flags(samples, influenced)) && |samples| <= INVALID
    ensures ok && Remaps(m, samples, roots) && Places(m, |samples|, Kept(Flags(samples, influenced)))
  {
    hide Matched, Kept, Filtered, Remaps, Flags, Greedy, Places;
    ghost var keep := Flags(samples, influenced);
    ghost var p := Embedding(samples, roots, keep);
    NothingMatched(samples, roots);
    m := seq(|samples|, _ => INVALID);
    var found: nat, source: nat := 0, 0;
    ghost var q: seq<nat> := [];
    while source < |samples| && found < |roots|
      invariant source <= |samples| && found <= |roots| && |m| == |samples| && |q| == found
      invariant Matched(m, samples, roots, source, q)
      invariant found < |roots| ==> source <= p[found]
    {
      if samples[source] == roots[found] {
        MatchOne(m, samples, roots, source, q);
        m := m[source := found];
        found := found + 1;
        q := q + [source];
      } else {
        MatchNone(m, samples, roots, source, q);
      }
      source := source + 1;
    }
    if found != |roots| { return false, []; }
    MatchedAll(m, samples, roots, source, q);
    GreedyOnFlags(q, samples, influenced);
    ok := true;
  }

  /** Where the elements of a filtered list come from. */
  lemma Embedding(s: seq<Identity>, t: seq<Identity>, keep: seq<bool>) returns (p: seq<nat>)
    requires |s| == |keep| && t == Filtered(s, keep) && |s| <= INVALID
    ensures |p| == |t| == |Kept(keep)| <= INVALID
    ensures forall k | 0 <= k < |t| :: p[k] < |s| && s[p[k]] == t[k]
    ensures forall k | 0 <= k < |t| - 1 :: p[k] < p[k + 1]
  {
    KeptAtMost(keep);
    p := Kept(keep);
    hide Kept, Filtered;
  }

  /** The same match from the other side: for each surviving axis, the source walks on until it agrees. */
  method MatchRuntime(roots: seq<Identity>, axes: seq<Identity>, ghost keep: seq<bool>)
    returns (ok: bool, m: seq<nat>, ghost q: seq<nat>)
    requires |roots| == |keep| && axes == Filtered(roots, keep) && |roots| <= INVALID
    ensures ok && Remaps(m, roots, axes)
    ensures |q| == |axes| && Greedy(q, roots, axes) && Places(m, |roots|, q)
  {
    hide Matched, Kept, Filtered, Remaps, Greedy, Places;
    ghost var p := Embedding(roots, axes, keep);
    NothingMatched(roots, axes);
    m := seq(|roots|, _ => INVALID);
    var source: nat := 0;
    q := [];
    for guide := 0 to |axes|
      invariant source <= |roots| && |m| == |roots| && |q| == guide && Matched(m, roots, axes, source, q)
      invariant guide < |axes| ==> source <= p[guide]
    {
      while source < |roots| && axes[guide] != roots[source]
        invariant source <= p[guide] && Matched(m, roots, axes, source, q)
      {
        MatchNone(m, roots, axes, source, q);
        source := source + 1;
      }
      if source == |roots| { return false, [], []; }
      MatchOne(m, roots, axes, source, q);
      m := m[source := guide];
      q := q + [source];
      source := source + 1;
    }
    MatchedAll(m, roots, axes, source, q);
    ok := true;
  }

  /** Sends every valid entry of a remap on through the next one. */
  method Follow(remap: array<nat>, next: seq<nat>, ghost s: seq<Identity>, ghost t: seq<Identity>, ghost u: seq<Identity>)
    returns (ok: bool)
    requires Remaps(remap[..], s, t) && Remaps(next, t, u)
    modifies remap
    ensures ok && Remaps(remap[..], s, u) && remap[..] == Composed(old(remap[..]), next)
  {
    ghost var m := remap[..];
    ghost var r := Composed(m, next);
    for k := 0 to remap.Length
      invariant forall i | 0 <= i < k :: remap[i] == r[i]
      invariant forall i | k <= i < remap.Length :: remap[i] == m[i]
    {
      if remap[k] == INVALID { continue; }
      if remap[k] >= |next| { return false; }
      remap[k] := next[remap[k]];
    }
    assert remap[..] == r;
    RemapsCompose(m, next, s, t, u);
    ok := true;
  }

  // ---------------------------------------------------------------- compaction in place

  /** Where the points of a strand start. */
  function Start(strand: nat, cvs: nat): (k: nat) {
    Positive(strand, cvs);
    strand * cvs
  }

  lemma Starts(strand: nat, strands: nat, cvs: nat)
    ensures Start(strand + 1, cvs) == Start(strand, cvs) + cvs && Start(0, cvs) == 0
    ensures strand <= strands ==> Start(strand, cvs) <= Start(strands, cvs)
  {
    Spread(strand, 1, cvs);
    Spread(strands - strand, strand, cvs);
    if strand <= strands { Positive(strands - strand, cvs); }
  }

  /** The points of the strands at some positions, one strand after the other. */
  function PointsOf(points: seq<Point>, cvs: nat, strands: seq<nat>): (r: seq<Point>)
    requires forall k | 0 <= k < |strands| :: Start(strands[k], cvs) + cvs <= |points|
    ensures |r| == Start(|strands|, cvs)
  {
    Starts(|strands| - if strands == [] then 0 else 1, 0, cvs);
    if strands == [] then []
    else
      var n := |strands| - 1;
      PointsOf(points, cvs, strands[..n]) + points[Start(strands[n], cvs)..Start(strands[n], cvs) + cvs]
  }

  lemma PointsPush(points: seq<Point>, cvs: nat, strands: seq<nat>, k: nat)
    requires forall i | 0 <= i < |strands| :: Start(strands[i], cvs) + cvs <= |points|
    requires Start(k, cvs) + cvs <= |points|
    ensures PointsOf(points, cvs, strands + [k]) == PointsOf(points, cvs, strands) + points[Start(k, cvs)..Start(k, cvs) + cvs]
  {
    hide Start;
    assert (strands + [k])[..|strands|] == strands;
  }

  /** Copies one strand's points down to an earlier place. */
  method MovePoints(points: array<Point>, from: nat, to: nat, cvs: nat)
    requires to + cvs <= from && from + cvs <= points.Length
    modifies points
    ensures points[..to] == old(points[..to])
    ensures points[to..to + cvs] == old(points[from..from + cvs])
    ensures points[to + cvs..] == old(points[to + cvs..])
  {
    for cv := 0 to cvs
      invariant points[..to] == old(points[..to])
      invariant points[to..to + cv] == old(points[from..from + cv])
      invariant points[to + cv..] == old(points[to + cv..])
    {
      points[to + cv] := points[from + cv];
    }
  }

  /** The first `write` strands are the kept ones among the first `read`, and the rest is untouched. */
  ghost predicate Compacted(roots: seq<Identity>, points: seq<Point>, was: seq<Identity>, had: seq<Point>, cvs: nat,
                               kept: seq<nat>, read: nat) {
    && |roots| == |was| && read <= |was| && |points| == |had| == Start(|was|, cvs) && |kept| <= read
    && (forall k | 0 <= k < |kept| :: kept[k] < read && Start(kept[k], cvs) + cvs <= |had|)
    && (forall k | 0 <= k < |kept| :: roots[k] == was[kept[k]])
    && roots[read..] == was[read..]
    && Start(|kept|, cvs) <= Start(read, cvs) <= |had|
    && points[..Start(|kept|, cvs)] == PointsOf(had, cvs, kept)
    && points[Start(read, cvs)..] == had[Start(read, cvs)..]
  }

  lemma CompactSkip(roots: seq<Identity>, points: seq<Point>, was: seq<Identity>, had: seq<Point>, cvs: nat, kept: seq<nat>, read: nat)
    requires Compacted(roots, points, was, had, cvs, kept, read) && read < |was|
    ensures Compacted(roots, points, was, had, cvs, kept, read + 1)
  {
    Starts(read, |was|, cvs);
    Starts(read + 1, |was|, cvs);
    hide Start, PointsOf;
    var a := Start(read, cvs);
    assert points[a + cvs..] == points[a..][cvs..] && had[a + cvs..] == had[a..][cvs..];
    assert roots[read + 1..] == roots[read..][1..] && was[read + 1..] == was[read..][1..];
  }

  /** Taking one more strand: its root and its points end up right behind the strands kept before. */
  lemma CompactTake(roots: seq<Identity>, points: seq<Point>, was: seq<Identity>, had: seq<Point>, cvs: nat, kept: seq<nat>,
                       read: nat, newRoots: seq<Identity>, newPoints: seq<Point>)
    requires Compacted(roots, points, was, had, cvs, kept, read) && read < |was|
    requires newRoots == roots[|kept| := roots[read]] && |newPoints| == |points|
    requires Start(|kept|, cvs) + cvs <= Start(read, cvs) + cvs <= |points|
    requires newPoints[..Start(|kept|, cvs)] == points[..Start(|kept|, cvs)]
    requires newPoints[Start(|kept|, cvs)..Start(|kept|, cvs) + cvs] == points[Start(read, cvs)..Start(read, cvs) + cvs]
    requires newPoints[Start(|kept|, cvs) + cvs..] == points[Start(|kept|, cvs) + cvs..]
    ensures Compacted(newRoots, newPoints, was, had, cvs, kept + [read], read + 1)
  {
    Starts(read, |was|, cvs);
    Starts(read + 1, |was|, cvs);
    Starts(|kept|, read, cvs);
    Starts(|kept| + 1, read + 1, cvs);
    hide Start;
    PointsPush(had, cvs, kept, read);
    hide PointsOf;
    var (w, a) := (Start(|kept|, cvs), Start(read, cvs));
    MovedPart(points, newPoints, had, w, a, cvs);
    assert roots[read] == roots[read..][0] && was[read] == was[read..][0];
    assert newRoots[read + 1..] == roots[read..][1..] && was[read + 1..] == was[read..][1..];
  }

  /** A part moved down from a to w, with the points before and behind it unchanged. */
  lemma MovedPart<T>(points: seq<T>, newPoints: seq<T>, had: seq<T>, w: nat, a: nat, n: nat)
    requires |newPoints| == |points| == |had| && w <= a && a + n <= |points| && points[a..] == had[a..]
    requires newPoints[..w] == points[..w] && newPoints[w..w + n] == points[a..a + n] && newPoints[w + n..] == points[w + n..]
    ensures newPoints[..w + n] == points[..w] + had[a..a + n]
    ensures newPoints[a + n..] == had[a + n..]
  {
    assert newPoints[..w + n] == newPoints[..w] + newPoints[w..w + n];
    assert points[a..a + n] == points[a..][..n] && had[a..a + n] == had[a..][..n];
    assert newPoints[a + n..] == newPoints[w + n..][a - w..] && points[a + n..] == points[w + n..][a - w..];
    assert points[a + n..] == points[a..][n..] && had[a + n..] == had[a..][n..];
  }

  method CompactStrands(roots: array<Identity>, points: array<Point>, cvs: nat, keep: seq<bool>) returns (write: nat)
    requires |keep| == roots.Length && points.Length == Start(roots.Length, cvs)
    modifies roots, points
    ensures write == |Kept(keep)|
    ensures Compacted(roots[..], points[..], old(roots[..]), old(points[..]), cvs, Kept(keep), roots.Length)
  {
    ghost var (was, had) := (roots[..], points[..]);
    write := 0;
    NothingCompacted(was, had, cvs);
    assert Kept(keep[..0]) == [];
    hide Compacted, Start, Kept, Filtered, PointsOf;
    ghost var kept: seq<nat> := [];
    for read := 0 to roots.Length
      invariant kept == Kept(keep[..read]) && write == |kept|
      invariant Compacted(roots[..], points[..], was, had, cvs, kept, read)
    {
      FilterStep(was, keep, read);
      if keep[read] {
        TakeStrand(roots, points, cvs, read, write, was, had, kept);
        write := write + 1;
        kept := kept + [read];
      } else {
        CompactSkip(roots[..], points[..], was, had, cvs, kept, read);
      }
    }
    assert keep[..roots.Length] == keep;
  }

  /**
   Compacts the kept strands to the front, each with its root and its points. What remains at the front
   is exactly the kept strands in order.
   */
  method Compact(roots: array<Identity>, points: array<Point>, cvs: nat, keep: seq<bool>) returns (write: nat)
    requires |keep| == roots.Length && points.Length == Start(roots.Length, cvs)
    modifies roots, points
    ensures write == |Kept(keep)| <= roots.Length && Start(write, cvs) <= points.Length
    ensures roots[..write] == Filtered(old(roots[..]), keep)
    ensures forall k | 0 <= k < |Kept(keep)| :: Start(Kept(keep)[k], cvs) + cvs <= points.Length
    ensures points[..Start(write, cvs)] == PointsOf(old(points[..]), cvs, Kept(keep))
  {
    hide Compacted, Start, Kept, Filtered, PointsOf;
    ghost var (was, had) := (roots[..], points[..]);
    write := CompactStrands(roots, points, cvs, keep);
    CompactDone(roots[..], points[..], was, had, cvs, keep);
  }

  /** Moves one strand, root and points, to the end of the compacted part. */
  method TakeStrand(roots: array<Identity>, points: array<Point>, cvs: nat, read: nat, write: nat,
                       ghost was: seq<Identity>, ghost had: seq<Point>, ghost kept: seq<nat>)
    requires Compacted(roots[..], points[..], was, had, cvs, kept, read) && write == |kept| && read < |was|
    modifies roots, points
    ensures Compacted(roots[..], points[..], was, had, cvs, kept + [read], read + 1)
  {
    ghost var (now, held) := (roots[..], points[..]);
    CompactBounds(now, held, was, had, cvs, kept, read);
    hide Compacted, Start;
    if write != read {
      MovePoints(points, Start(read, cvs), Start(write, cvs), cvs);
      roots[write] := roots[read];
    }
    assert roots[..] == now[write := now[read]];
    CompactTake(now, held, was, had, cvs, kept, read, roots[..], points[..]);
  }

  lemma NothingCompacted(was: seq<Identity>, had: seq<Point>, cvs: nat)
    requires |had| == Start(|was|, cvs)
    ensures Compacted(was, had, was, had, cvs, [], 0)
  {
    Starts(0, |was|, cvs);
  }

  lemma CompactBounds(roots: seq<Identity>, points: seq<Point>, was: seq<Identity>, had: seq<Point>, cvs: nat, kept: seq<nat>, read: nat)
    requires Compacted(roots, points, was, had, cvs, kept, read) && read < |was|
    ensures |kept| <= read && Start(read, cvs) + cvs <= |points| && |points| == |had| && |roots| == |was|
    ensures Start(|kept|, cvs) <= Start(read, cvs) && (|kept| < read ==> Start(|kept|, cvs) + cvs <= Start(read, cvs))
  {
    Starts(read, |was|, cvs);
    Starts(read + 1, |was|, cvs);
    Starts(|kept|, read, cvs);
    Starts(|kept| + 1, read, cvs);
  }

  lemma CompactDone(roots: seq<Identity>, points: seq<Point>, was: seq<Identity>, had: seq<Point>, cvs: nat, keep: seq<bool>)
    requires |keep| == |was| && Compacted(roots, points, was, had, cvs, Kept(keep), |was|)
    ensures |Kept(keep)| <= |roots| && Start(|Kept(keep)|, cvs) <= |points|
    ensures roots[..|Kept(keep)|] == Filtered(was, keep)
    ensures forall k | 0 <= k < |Kept(keep)| :: Start(Kept(keep)[k], cvs) + cvs <= |had|
    ensures points[..Start(|Kept(keep)|, cvs)] == PointsOf(had, cvs, Kept(keep))
  {
    hide Kept, Filtered, PointsOf, Start;
  }

  // ---------------------------------------------------------------- the whole chain

  /** The points of the kept strands stand at the front, in order. */
  ghost predicate Culled(was: seq<Point>, now: seq<Point>, cvs: nat, kept: seq<bool>) {
    && Start(|Kept(kept)|, cvs) <= |now|
    && (forall k | 0 <= k < |Kept(kept)| :: Start(Kept(kept)[k], cvs) + cvs <= |was|)
    && now[..Start(|Kept(kept)|, cvs)] == PointsOf(was, cvs, Kept(kept))
  }

  /** The guides that the prefilter leaves, and the roots that the region filter leaves of them. */
  ghost function ValidOf(ids: seq<Identity>, associated: Identity -> bool): seq<Identity> {
    Filtered(ids, Flags(ids, associated))
  }

  ghost function RootsOf(ids: seq<Identity>, associated: Identity -> bool, influenced: Identity -> bool): seq<Identity> {
    Filtered(ValidOf(ids, associated), Flags(ValidOf(ids, associated), influenced))
  }

  /** Where the guides behind the roots stand in the point file. */
  ghost function RootPlaces(ids: seq<Identity>, associated: Identity -> bool, influenced: Identity -> bool): seq<nat> {
    Through(Kept(Flags(ids, associated)), Kept(Flags(ValidOf(ids, associated), influenced)))
  }

  /** Where the guides behind the surviving axes stand in the point file. */
  ghost function AxisPlaces(ids: seq<Identity>, associated: Identity -> bool, influenced: Identity -> bool, kept: seq<bool>)
      : seq<nat>
    requires |kept| == |RootsOf(ids, associated, influenced)|
  {
    Through(RootPlaces(ids, associated, influenced), Kept(kept))
  }

  /** Sending places on through the greedy places gives the axes' own places exactly when these are the kept ones. */
  lemma ExactRemap(remap: seq<nat>, n: nat, p: seq<nat>, q: seq<nat>, kept: seq<bool>)
    requires Increasing(p) && |kept| == |p| && forall j | 0 <= j < |q| :: q[j] < |p|
    requires Places(remap, n, Through(p, q))
    ensures Places(remap, n, Through(p, Kept(kept))) <==> q == Kept(kept)
  {
    var k := Kept(kept);
    hide Kept, Places;
    if Places(remap, n, Through(p, k)) {
      PlacesUnique(remap, n, Through(p, q), Through(p, k));
      var a, b := Through(p, q), Through(p, k);
      assert |a| == |q| && |b| == |k|;
      forall j | 0 <= j < |q| ensures q[j] == k[j] { assert a[j] == b[j]; }
    }
  }

  /** The remap after both matches, and when it is exact. */
  lemma ChainExact(ids: seq<Identity>, associated: Identity -> bool, influenced: Identity -> bool, kept: seq<bool>,
                   first: seq<nat>, second: seq<nat>, third: seq<nat>, remap: seq<nat>, q: seq<nat>)
    requires var (valid, roots) := (ValidOf(ids, associated), RootsOf(ids, associated, influenced));
      && |kept| == |roots| && |first| == |ids| && |second| == |valid|
      && Remaps(first, ids, valid) && Places(first, |ids|, Kept(Flags(ids, associated)))
      && Remaps(second, valid, roots) && Places(second, |valid|, Kept(Flags(valid, influenced)))
      && Greedy(q, roots, Filtered(roots, kept)) && |q| == |Kept(kept)| && Places(third, |roots|, q)
      && remap == Composed(Composed(first, second), third)
    ensures Places(remap, |ids|, AxisPlaces(ids, associated, influenced, kept))
      <==> Separated(RootsOf(ids, associated, influenced), kept)
  {
    var (valid, roots) := (ValidOf(ids, associated), RootsOf(ids, associated, influenced));
    var p := RootPlaces(ids, associated, influenced);
    RemapsCompose(first, second, ids, valid, roots);
    hide Kept, Filtered, Separated, Greedy;
    PlacesCompose(first, second, |ids|, Kept(Flags(ids, associated)), Kept(Flags(valid, influenced)));
    PlacesCompose(Composed(first, second), third, |ids|, p, q);
    ExactRemap(remap, |ids|, p, q, kept);
    GreedyExactly(q, roots, kept);
  }

  /**
   The remap of a clump module: prefilter, region filter, culling in place, and the two greedy matches.
   It fails only when the point file has too many guides or a stage leaves none; no match ever fails.
   On success every guide goes to an axis with its own face and coordinate bits or nowhere, and every
   axis is the target of exactly one guide. The axis is the guide's own for all guides exactly when the
   culling separates equal roots.
   */
  method BuildRemap(ids: seq<Identity>, associated: Identity -> bool, influenced: Identity -> bool, kept: seq<bool>,
                       points: array<Point>, cvs: nat)
    returns (ok: bool, remap: seq<nat>, axes: seq<Identity>)
    requires |kept| == |RootsOf(ids, associated, influenced)| && points.Length == Start(|kept|, cvs)
    modifies points
    ensures ok <==> 0 < |ValidOf(ids, associated)| <= INVALID && 0 < |RootsOf(ids, associated, influenced)|
    ensures ok ==> axes == Filtered(RootsOf(ids, associated, influenced), kept)
    ensures ok ==> Remaps(remap, ids, axes)
    ensures ok ==> (Places(remap, |ids|, AxisPlaces(ids, associated, influenced, kept))
                    <==> Separated(RootsOf(ids, associated, influenced), kept))
    ensures ok ==> Culled(old(points[..]), points[..], cvs, kept)
  {
    hide Kept, Filtered, Remaps, Start, PointsOf, Places, Greedy, Separated, Flags, Composed, AxisPlaces, Culled;
    ok, remap, axes := false, [], [];
    var fits, valid, prefiltered := Prefilter(ids, associated);
    if !fits || valid == [] { return; }
    var roots := ExplicitRoots(valid, influenced);
    if roots == [] { return; }
    var compact := new nat[|prefiltered|](k requires 0 <= k < |prefiltered| => prefiltered[k]);
    assert compact[..] == prefiltered;
    var matched, toAssociated := MatchAssociated(valid, roots, influenced);
    var followed := Follow(compact, toAssociated, ids, valid, roots);
    KeptAtMost(Flags(valid, influenced));
    var matchedRuntime, toRuntime;
    ghost var q;
    matchedRuntime, axes, toRuntime, q := CullAndMatch(roots, kept, points, cvs);
    var followedRuntime := Follow(compact, toRuntime, ids, roots, axes);
    ok := matched && followed && matchedRuntime && followedRuntime;
    remap := compact[..];
    SameLengths(prefiltered, ids, valid);
    SameLengths(toAssociated, valid, roots);
    ChainExact(ids, associated, influenced, kept, prefiltered, toAssociated, toRuntime, remap, q);
  }

  /** Culls a copy of the roots with their points, and matches what survives back to the roots. */
  method CullAndMatch(roots: seq<Identity>, kept: seq<bool>, points: array<Point>, cvs: nat)
    returns (ok: bool, axes: seq<Identity>, m: seq<nat>, ghost q: seq<nat>)
    requires |kept| == |roots| <= INVALID && points.Length == Start(|kept|, cvs)
    modifies points
    ensures ok && axes == Filtered(roots, kept) && Remaps(m, roots, axes)
    ensures |q| == |axes| && Greedy(q, roots, axes) && Places(m, |roots|, q)
    ensures Culled(old(points[..]), points[..], cvs, kept)
  {
    hide Kept, Filtered, Remaps, Start, PointsOf, Places, Greedy;
    var strands := new Identity[|roots|](k requires 0 <= k < |roots| => roots[k]);
    assert strands[..] == roots;
    var count := Compact(strands, points, cvs, kept);
    axes := strands[..count];
    ok, m, q := MatchRuntime(roots, axes, kept);
  }

  lemma SameLengths(m: seq<nat>, s: seq<Identity>, t: seq<Identity>)
    requires Remaps(m, s, t)
    ensures |m| == |s|
  {
  }

  // ---------------------------------------------------------------- guide ids in a colour map

  function Pow8(n: nat): (p: nat)
    ensures p > 0
  {
    if n == 0 then 1 else 8 * Pow8(n - 1)
  }

  /** The lowest bits of the three channels, inverted, as one octal digit. */
  function Digit(r: nat, g: nat, b: nat): nat {
    4 * (1 - b % 2) + 2 * (1 - g % 2) + (1 - r % 2)
  }

  /** The number whose octal digits are those of the channels' bits, the lowest bits first. */
  function Rounds(r: nat, g: nat, b: nat, n: nat): nat {
    if n == 0 then 0 else Digit(r, g, b) * Pow8(n - 1) + Rounds(r / 2, g / 2, b / 2, n - 1)
  }

  lemma {:induction false} RoundsBelow(r: nat, g: nat, b: nat, n: nat)
    ensures Rounds(r, g, b, n) < Pow8(n)
  {
    if n > 0 {
      RoundsBelow(r / 2, g / 2, b / 2, n - 1);
      DigitBelow(Digit(r, g, b), Rounds(r / 2, g / 2, b / 2, n - 1), Pow8(n - 1));
    }
  }

  lemma DigitBelow(d: nat, rest: nat, p: nat)
    requires d < 8 && rest < p
    ensures d * p + rest < 8 * p
  {
    Spread(7 - d, d, p);
    Positive(7 - d, p);
  }

  /** Channels with n bits each and the number they decode to determine each other. */
  lemma {:induction false} RoundsInjective(r: nat, g: nat, b: nat, x: nat, y: nat, z: nat, n: nat)
    requires r < Pow2(n) && g < Pow2(n) && b < Pow2(n) && x < Pow2(n) && y < Pow2(n) && z < Pow2(n)
    requires Rounds(r, g, b, n) == Rounds(x, y, z, n)
    ensures r == x && g == y && b == z
  {
    if n > 0 {
      var p := Pow8(n - 1);
      var s, t := Rounds(r / 2, g / 2, b / 2, n - 1), Rounds(x / 2, y / 2, z / 2, n - 1);
      assert Digit(r, g, b) * p + s == Digit(x, y, z) * p + t;
      hide Rounds, Quotient, Rest, Pow8, Digit;
      RoundsBelow(r / 2, g / 2, b / 2, n - 1);
      RoundsBelow(x / 2, y / 2, z / 2, n - 1);
      SplitUnique(Digit(r, g, b), s, p);
      SplitUnique(Digit(x, y, z), t, p);
      DigitBits(r, g, b, x, y, z);
      RoundsInjective(r / 2, g / 2, b / 2, x / 2, y / 2, z / 2, n - 1);
    }
  }

  lemma DigitBits(r: nat, g: nat, b: nat, x: nat, y: nat, z: nat)
    requires Digit(r, g, b) == Digit(x, y, z)
    ensures r % 2 == x % 2 && g % 2 == y % 2 && b % 2 == z % 2
  {
  }

  /** Every number of n octal digits is the decoding of some channels. */
  lemma {:induction false} RoundsSurjective(v: nat, n: nat) returns (r: nat, g: nat, b: nat)
    requires v < Pow8(n)
    ensures r < Pow2(n) && g < Pow2(n) && b < Pow2(n) && Rounds(r, g, b, n) == v
  {
    if n == 0 {
      r, g, b := 0, 0, 0;
    } else {
      var p := Pow8(n - 1);
      Split(v, p);
      QuotientBelow(v, p, 8);
      var d := Quotient(v, p);
      var x, y, z := RoundsSurjective(Rest(v, p), n - 1);
      r, g, b := 2 * x + (1 - d % 2), 2 * y + (1 - d / 2 % 2), 2 * z + (1 - d / 4);
      DigitOf(d, x, y, z);
      assert Rounds(r, g, b, n) == Digit(r, g, b) * p + Rounds(x, y, z, n - 1);
      hide Quotient, Rest, Pow8, Rounds, Digit;
    }
  }

  lemma DigitOf(d: nat, x: nat, y: nat, z: nat)
    requires d < 8
    ensures var (r, g, b) := (2 * x + (1 - d % 2), 2 * y + (1 - d / 2 % 2), 2 * z + (1 - d / 4));
      Digit(r, g, b) == d && r / 2 == x && g / 2 == y && b / 2 == z
  {
  }

  /** Black is the id zero; every other colour decodes by its bits. */
  function DecodedId(r: nat, g: nat, b: nat): nat {
    if r == 0 && g == 0 && b == 0 then 0 else Rounds(r, g, b, 8)
  }

  /**
   The colours other than black decode one-to-one onto the ids below 2^24 - 1: the id that black would
   have is the one that is given up.
   */
  lemma DecodingIsBijection(r: byte, g: byte, b: byte, x: byte, y: byte, z: byte)
    requires !(r == 0 && g == 0 && b == 0) && !(x == 0 && y == 0 && z == 0)
    ensures DecodedId(r, g, b) < 0xff_ffff
    ensures DecodedId(r, g, b) == DecodedId(x, y, z) ==> r == x && g == y && b == z
  {
    BlackValue();
    RoundsBelow(r, g, b, 8);
    hide Rounds, Pow8, Pow2;
    if Rounds(r, g, b, 8) == Rounds(0, 0, 0, 8) { RoundsInjective(r, g, b, 0, 0, 0, 8); }
    if Rounds(r, g, b, 8) == Rounds(x, y, z, 8) { RoundsInjective(r, g, b, x, y, z, 8); }
  }

  lemma BlackValue()
    ensures Rounds(0, 0, 0, 8) == 0xff_ffff && Pow8(8) == 0x100_0000 && Pow2(8) == 256
  {
    BlackRounds(8);
    assert Pow8(4) == 0x1000;
    assert Pow8(8) == 8 * (8 * (8 * (8 * Pow8(4))));
    assert Pow2(4) == 16;
  }

  lemma {:induction false} BlackRounds(n: nat)
    ensures Rounds(0, 0, 0, n) == Pow8(n) - 1
  {
    if n > 0 { BlackRounds(n - 1); }
  }

  /** And every id below 2^24 - 1 is some colour's. */
  lemma EveryIdHasColour(id: nat) returns (r: byte, g: byte, b: byte)
    requires id < 0xff_ffff
    ensures !(r == 0 && g == 0 && b == 0) && DecodedId(r, g, b) == id
  {
    BlackValue();
    hide Rounds, Pow8, Pow2;
    r, g, b := RoundsSurjective(id, 8);
  }

  /** The bits of a channel, three places apart, the lowest one first. */
  function SpreadBits(c: nat, n: nat): nat {
    if n == 0 then 0 else c % 2 * Pow8(n - 1) + SpreadBits(c / 2, n - 1)
  }

  /** The decoding is what the spread channels leave of all ones: red in the lowest places, then green, then blue. */
  lemma {:induction false} RoundsSpread(r: nat, g: nat, b: nat, n: nat)
    ensures Rounds(r, g, b, n) == Pow8(n) - 1 - (SpreadBits(r, n) + 2 * SpreadBits(g, n) + 4 * SpreadBits(b, n))
  {
    if n > 0 {
      RoundsSpread(r / 2, g / 2, b / 2, n - 1);
      DigitTimes(r % 2, g % 2, b % 2, Pow8(n - 1));
    }
  }

  lemma DigitTimes(r: nat, g: nat, b: nat, p: nat)
    requires r < 2 && g < 2 && b < 2
    ensures (1 - r + 2 * (1 - g) + 4 * (1 - b)) * p == 7 * p - (r * p + 2 * (g * p) + 4 * (b * p))
  {
  }

  /** The spread bits of a byte in numbers. */
  function SpreadByte(c: byte): nat {
    c % 2 * 0x20_0000 + c / 2 % 2 * 0x4_0000 + c / 4 % 2 * 0x8000 + c / 8 % 2 * 0x1000
    + c / 16 % 2 * 0x200 + c / 32 % 2 * 0x40 + c / 64 % 2 * 8 + c / 128 % 2
  }

  lemma SpreadIs(c: byte)
    ensures SpreadBits(c, 8) == SpreadByte(c)
  {
    hide *;
    Powers();
    Halves(c);
    SpreadStep(c, 8, 0x20_0000);
    SpreadStep(c / 2, 7, 0x4_0000);
    SpreadStep(c / 4, 6, 0x8000);
    SpreadStep(c / 8, 5, 0x1000);
    SpreadStep(c / 16, 4, 0x200);
    SpreadStep(c / 32, 3, 0x40);
    SpreadStep(c / 64, 2, 8);
    SpreadStep(c / 128, 1, 1);
    SpreadSum(c, SpreadBits(c, 8));
  }

  lemma SpreadSum(c: byte, sum: nat)
    requires sum == c % 2 * 0x20_0000 + (c / 2 % 2 * 0x4_0000 + (c / 4 % 2 * 0x8000 + (c / 8 % 2 * 0x1000
      + (c / 16 % 2 * 0x200 + (c / 32 % 2 * 0x40 + (c / 64 % 2 * 8 + c / 128 % 2 * 1))))))
    ensures sum == SpreadByte(c)
  {
  }

  lemma Halves(c: byte)
    ensures c / 2 / 2 == c / 4 && c / 4 / 2 == c / 8 && c / 8 / 2 == c / 16 && c / 16 / 2 == c / 32
    ensures c / 32 / 2 == c / 64 && c / 64 / 2 == c / 128 && SpreadBits(c / 128 / 2, 0) == 0
  {
  }

  lemma Powers()
    ensures Pow8(0) == 1 && Pow8(1) == 8 && Pow8(2) == 0x40 && Pow8(3) == 0x200 && Pow8(4) == 0x1000
    ensures Pow8(5) == 0x8000 && Pow8(6) == 0x4_0000 && Pow8(7) == 0x20_0000
  {
    assert Pow8(1) == 8;
    assert Pow8(2) == 0x40;
    assert Pow8(3) == 0x200;
    assert Pow8(4) == 0x1000;
    assert Pow8(5) == 0x8000;
    assert Pow8(6) == 0x4_0000;
  }

  lemma SpreadStep(c: nat, n: nat, p: nat)
    requires n > 0 && Pow8(n - 1) == p
    ensures SpreadBits(c, n) == c % 2 * p + SpreadBits(c / 2, n - 1)
  {
  }

  /** Decoding in numbers: black is zero, and otherwise the spread channels are taken from 2^24 - 1. */
  lemma DecodingIsSpread(r: byte, g: byte, b: byte)
    ensures DecodedId(r, g, b)
         == if r == 0 && g == 0 && b == 0 then 0 else 0xff_ffff - (SpreadByte(r) + 2 * SpreadByte(g) + 4 * SpreadByte(b))
  {
    BlackValue();
    RoundsSpread(r, g, b, 8);
    SpreadIs(r);
    SpreadIs(g);
    SpreadIs(b);
    hide Rounds, Pow8, SpreadBits, SpreadByte;
  }

  /** The bit loop: one channel after the other, from the last to the first. */
  method DecodeRgbId(red: byte, green: byte, blue: byte) returns (result: nat)
    ensures result == DecodedId(red, green, blue)
    ensures result == if red == 0 && green == 0 && blue == 0 then 0
                      else 0xff_ffff - (SpreadByte(red) + 2 * SpreadByte(green) + 4 * SpreadByte(blue))
  {
    DecodingIsSpread(red, green, blue);
    hide SpreadByte;
    if red == 0 && green == 0 && blue == 0 { return 0; }
    var r: nat, g: nat, b: nat := red, green, blue;
    result := 0;
    assert Shifted(0, r, g, b, 8) == Rounds(r, g, b, 8);
    hide Rounds, Pow8, Shifted;
    var left: nat := 8;
    while left > 0
      invariant Shifted(result, r, g, b, left) == Rounds(red, green, blue, 8)
    {
      RoundStep(result, r, g, b, left);
      result := result * 2 + (1 - b % 2);
      result := result * 2 + (1 - g % 2);
      result := result * 2 + (1 - r % 2);
      r, g, b := r / 2, g / 2, b / 2;
      left := left - 1;
    }
    NoRounds(result, r, g, b);
  }

  /** A partial result followed by the rounds still to come. */
  function Shifted(result: nat, r: nat, g: nat, b: nat, left: nat): int {
    result * Pow8(left) + Rounds(r, g, b, left)
  }

  lemma NoRounds(result: nat, r: nat, g: nat, b: nat)
    ensures Shifted(result, r, g, b, 0) == result
  {
  }

  lemma RoundStep(result: nat, r: nat, g: nat, b: nat, left: nat)
    requires left > 0
    ensures Shifted(8 * result + Digit(r, g, b), r / 2, g / 2, b / 2, left - 1) == Shifted(result, r, g, b, left)
  {
    Spread(8 * result, Digit(r, g, b), Pow8(left - 1));
    Associate(result, 8, Pow8(left - 1));
  }
}
