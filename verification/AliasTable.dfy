/** The alias table that samples triangles in proportion to their area. */
module AliasTable {
  import opened Wrappers
  import opened Permutations

  /** A slot keeps its own triangle with probability `keep` and otherwise yields `other`. */
  datatype Entry = Entry(keep: real, other: nat)

  // ---------------------------------------------------------------- what a table does

  /** What one slot gives to triangle i beyond what the slot keeps for itself. */
  function Given(e: Entry, i: nat): real {
    if e.other == i then 1.0 - e.keep else 0.0
  }

  /** All that the slots give to triangle i. */
  function Received(table: seq<Entry>, i: nat): real {
    if table == [] then 0.0
    else Received(table[..|table| - 1], i) + Given(table[|table| - 1], i)
  }

  /** The mass of a triangle, out of as many units as there are slots. */
  function Mass(table: seq<Entry>, i: nat): real
    requires i < |table|
  {
    table[i].keep + Received(table, i)
  }

  /** The weight of each triangle, scaled so that the mean is one. */
  ghost function Target(areas: seq<real>, i: nat): real
    requires i < |areas| && Sum(areas) > 0.0
  {
    ScaledWeight(areas[i], |areas|, Sum(areas))
  }

  // ---------------------------------------------------------------- sums over a work list

  function ListTotal(s: seq<real>, list: seq<nat>): real
    requires forall k | 0 <= k < |list| :: list[k] < |s|
  {
    if list == [] then 0.0 else ListTotal(s, list[..|list| - 1]) + s[list[|list| - 1]]
  }

  lemma {:induction false} ListTotalKept(s: seq<real>, t: seq<real>, list: seq<nat>)
    requires |s| == |t| && forall k | 0 <= k < |list| :: list[k] < |s| && s[list[k]] == t[list[k]]
    ensures ListTotal(s, list) == ListTotal(t, list)
  {
    if list != [] { ListTotalKept(s, t, list[..|list| - 1]); }
  }

  lemma ListTotalPush(s: seq<real>, list: seq<nat>, i: nat)
    requires (forall k | 0 <= k < |list| :: list[k] < |s|) && i < |s|
    ensures ListTotal(s, list + [i]) == ListTotal(s, list) + s[i]
  {
    assert (list + [i])[..|list|] == list;
  }

  /** A list whose weights are all at least one and add up to its length has only ones. */
  lemma {:induction false} AllOnes(s: seq<real>, list: seq<nat>)
    requires forall k | 0 <= k < |list| :: list[k] < |s| && s[list[k]] >= 1.0
    ensures ListTotal(s, list) >= |list| as real
    ensures ListTotal(s, list) == |list| as real ==> forall k | 0 <= k < |list| :: s[list[k]] == 1.0
  {
    if list != [] {
      var init := list[..|list| - 1];
      AllOnes(s, init);
      if ListTotal(s, list) == |list| as real {
        forall k | 0 <= k < |list| ensures s[list[k]] == 1.0 {
          if k < |init| { assert s[init[k]] == 1.0; }
        }
      }
    }
  }

  /** A list whose weights are all below one adds up to less than its length. */
  lemma {:induction false} AllBelow(s: seq<real>, list: seq<nat>)
    requires forall k | 0 <= k < |list| :: list[k] < |s| && s[list[k]] < 1.0
    ensures ListTotal(s, list) <= |list| as real
    ensures list != [] ==> ListTotal(s, list) < |list| as real
  {
    if list != [] { AllBelow(s, list[..|list| - 1]); }
  }

  lemma {:induction false} ReceivedUpdate(table: seq<Entry>, s: nat, e: Entry, i: nat)
    requires s < |table|
    ensures Received(table[s := e], i) == Received(table, i) - Given(table[s], i) + Given(e, i)
  {
    var n := |table| - 1;
    if s < n {
      ReceivedUpdate(table[..n], s, e, i);
      assert table[s := e][..n] == table[..n][s := e];
    } else {
      assert table[s := e][..n] == table[..n];
    }
  }

  lemma {:induction false} NothingReceived(table: seq<Entry>, i: nat)
    requires forall k | 0 <= k < |table| :: table[k].keep == 1.0
    ensures Received(table, i) == 0.0
  {
    if table != [] { NothingReceived(table[..|table| - 1], i); }
  }

  lemma {:induction false} SumNonNegative(s: seq<real>)
    requires forall k | 0 <= k < |s| :: s[k] >= 0.0
    ensures Sum(s) >= 0.0
  {
    if s != [] { SumNonNegative(s[..|s| - 1]); }
  }

  lemma {:induction false} SumScaled(s: seq<real>, t: seq<real>, f: real)
    requires |s| == |t| && forall k | 0 <= k < |s| :: t[k] == s[k] * f
    ensures Sum(t) == Sum(s) * f
  {
    if s != [] { SumScaled(s[..|s| - 1], t[..|t| - 1], f); }
  }

  // ---------------------------------------------------------------- the construction's invariant

  /** The triangles still in the work lists, each of them once. */
  ghost predicate Listed(n: nat, small: seq<nat>, large: seq<nat>) {
    && (forall k | 0 <= k < |small| :: small[k] < n)
    && (forall k | 0 <= k < |large| :: large[k] < n)
    && (forall i, j | 0 <= i < j < |small| :: small[i] != small[j])
    && (forall i, j | 0 <= i < j < |large| :: large[i] != large[j])
    && (forall i, j | 0 <= i < |small| && 0 <= j < |large| :: small[i] != large[j])
  }

  /** The two lists hold the light and the heavy triangles, and their weights add up to their number. */
  ghost predicate Balanced(scaled: seq<real>, small: seq<nat>, large: seq<nat>) {
    && Listed(|scaled|, small, large)
    && (forall k | 0 <= k < |small| :: 0.0 <= scaled[small[k]] < 1.0)
    && (forall k | 0 <= k < |large| :: scaled[large[k]] >= 1.0)
    && ListTotal(scaled, small) + ListTotal(scaled, large) == (|small| + |large|) as real
  }

  /**
   `plan` is the table with every listed triangle still keeping its whole slot. What a triangle
   has received plus its current weight is its target; a finished slot's weight is what it keeps.
   */
  ghost predicate Conserved(target: seq<real>, scaled: seq<real>, plan: seq<Entry>, small: seq<nat>, large: seq<nat>) {
    && |target| == |scaled| == |plan|
    && (forall i | 0 <= i < |plan| :: scaled[i] + Received(plan, i) == target[i])
    && (forall i | 0 <= i < |plan| ::
          if i in small || i in large then plan[i] == Entry(1.0, i)
          else plan[i].keep == scaled[i] && 0.0 <= scaled[i] < 1.0 && plan[i].other < |plan|)
  }

  /** One pairing keeps every triangle's mass: what the heavy one loses, the light one's slot gives it. */
  lemma PairConserves(target: seq<real>, scaled: seq<real>, plan: seq<Entry>, small: seq<nat>, large: seq<nat>)
    requires Balanced(scaled, small, large) && Conserved(target, scaled, plan, small, large)
    requires small != [] && large != []
    ensures var s, l := small[|small| - 1], large[|large| - 1];
      var rest := scaled[l := scaled[l] + scaled[s] - 1.0];
      var more := plan[s := Entry(scaled[s], l)];
      var (a, b) := (small[..|small| - 1], large[..|large| - 1]);
      && (rest[l] < 1.0 ==> Conserved(target, rest, more, a + [l], b))
      && (rest[l] >= 1.0 ==> Conserved(target, rest, more, a, b + [l]))
  {
    hide Received, ListTotal;
    var s, l := small[|small| - 1], large[|large| - 1];
    var rest := scaled[l := scaled[l] + scaled[s] - 1.0];
    var more := plan[s := Entry(scaled[s], l)];
    assert s in small && l in large && s != l;
    forall i | 0 <= i < |plan| ensures rest[i] + Received(more, i) == target[i] {
      ReceivedUpdate(plan, s, Entry(scaled[s], l), i);
    }
    var (a, b) := (small[..|small| - 1], large[..|large| - 1]);
    forall i | 0 <= i < |plan|
      ensures i in a + [l] || i in b <==> i in a || i in b + [l]
      ensures (i in a || i in b + [l]) <==> (i in small || i in large) && i != s
    {
      StillListed(small, large, i);
    }
  }

  lemma StillListed(small: seq<nat>, large: seq<nat>, i: nat)
    requires small != [] && large != [] && exists n :: Listed(n, small, large)
    ensures var s, l := small[|small| - 1], large[|large| - 1];
      var (a, b) := (small[..|small| - 1], large[..|large| - 1]);
      && (i in a + [l] || i in b <==> i in a || i in b + [l])
      && ((i in a || i in b + [l]) <==> (i in small || i in large) && i != s)
  {
    var n :| Listed(n, small, large);
    var s, l := small[|small| - 1], large[|large| - 1];
    var (a, b) := (small[..|small| - 1], large[..|large| - 1]);
    assert small == a + [s] && large == b + [l];
    assert s !in a && s !in large;
  }

  lemma PairListed(n: nat, small: seq<nat>, large: seq<nat>)
    requires Listed(n, small, large) && small != [] && large != []
    ensures var l := large[|large| - 1];
      var (a, b) := (small[..|small| - 1], large[..|large| - 1]);
      && Listed(n, a + [l], b) && Listed(n, a, b + [l])
      && (forall k | 0 <= k < |a| :: a[k] != l) && (forall k | 0 <= k < |b| :: b[k] != l)
  {
    assert large == large[..|large| - 1] + [large[|large| - 1]];
  }

  ghost predicate Inside(n: nat, list: seq<nat>) {
    forall k | 0 <= k < |list| :: list[k] < n
  }

  /** Lowering one weight outside a list and appending it there. */
  lemma PushLowered(scaled: seq<real>, rest: seq<real>, list: seq<nat>, l: nat)
    requires l < |scaled| && |rest| == |scaled| && rest == scaled[l := rest[l]]
    requires Inside(|scaled|, list) && forall k | 0 <= k < |list| :: list[k] != l
    ensures Inside(|rest|, list + [l])
    ensures ListTotal(rest, list) == ListTotal(scaled, list)
    ensures ListTotal(rest, list + [l]) == ListTotal(scaled, list) + rest[l]
  {
    hide ListTotal;
    ListTotalKept(scaled, rest, list);
    ListTotalPush(rest, list, l);
  }

  lemma PairTotals(scaled: seq<real>, rest: seq<real>, a: seq<nat>, s: nat, b: seq<nat>, l: nat)
    requires s < |scaled| && l < |scaled| && |rest| == |scaled|
    requires rest == scaled[l := scaled[l] + scaled[s] - 1.0]
    requires Inside(|scaled|, a) && Inside(|scaled|, b)
    requires (forall k | 0 <= k < |a| :: a[k] != l) && (forall k | 0 <= k < |b| :: b[k] != l)
    ensures Inside(|rest|, a + [l]) && Inside(|rest|, b + [l])
    ensures Inside(|scaled|, a + [s]) && Inside(|scaled|, b + [l])
    ensures var before := ListTotal(scaled, a + [s]) + ListTotal(scaled, b + [l]);
      && ListTotal(rest, a + [l]) + ListTotal(rest, b) == before - 1.0
      && ListTotal(rest, a) + ListTotal(rest, b + [l]) == before - 1.0
  {
    hide ListTotal;
    ListTotalPush(scaled, a, s);
    ListTotalPush(scaled, b, l);
    PushLowered(scaled, rest, a, l);
    PushLowered(scaled, rest, b, l);
  }

  /** One pairing finishes one triangle and takes exactly one unit out of the lists. */
  lemma PairBalances(scaled: seq<real>, small: seq<nat>, large: seq<nat>)
    requires Balanced(scaled, small, large) && small != [] && large != []
    ensures var s, l := small[|small| - 1], large[|large| - 1];
      var rest := scaled[l := scaled[l] + scaled[s] - 1.0];
      var (a, b) := (small[..|small| - 1], large[..|large| - 1]);
      && (rest[l] < 1.0 ==> Balanced(rest, a + [l], b))
      && (rest[l] >= 1.0 ==> Balanced(rest, a, b + [l]))
  {
    hide ListTotal;
    var s, l := small[|small| - 1], large[|large| - 1];
    var rest := scaled[l := scaled[l] + scaled[s] - 1.0];
    var (a, b) := (small[..|small| - 1], large[..|large| - 1]);
    PairListed(|scaled|, small, large);
    PairTotals(scaled, rest, a, s, b, l);
    assert small == a + [s] && large == b + [l];
  }

  // ---------------------------------------------------------------- the construction

  /** The scaled weights, and their even mean. */
  lemma ScaledTargets(areas: seq<real>, target: seq<real>)
    requires (forall k | 0 <= k < |areas| :: areas[k] >= 0.0) && Sum(areas) > 0.0
    requires |target| == |areas| && forall k | 0 <= k < |areas| :: target[k] == Target(areas, k)
    ensures Sum(target) == |areas| as real
    ensures forall k | 0 <= k < |target| :: target[k] >= 0.0
  {
    hide Sum;
    var n, total := |areas| as real, Sum(areas);
    forall k | 0 <= k < |areas| ensures target[k] == areas[k] * (n / total) && target[k] >= 0.0 {
      ScaleOne(areas[k], n, total);
      assert target[k] == Target(areas, k);
    }
    SumScaled(areas, target, n / total);
    ScaleOne(total, n, total);
    Cancel(n, total);
  }

  lemma Cancel(n: real, total: real)
    requires total > 0.0
    ensures total * (n / total) == n
  {
  }

  lemma ScaleOne(a: real, n: real, total: real)
    requires a >= 0.0 && n >= 0.0 && total > 0.0
    ensures a * n / total == a * (n / total) && a * n / total >= 0.0
  {
  }

  method ScaleWeights(areas: seq<real>) returns (scaled: array<real>, total: real)
    requires forall k | 0 <= k < |areas| :: areas[k] >= 0.0
    ensures fresh(scaled) && scaled.Length == |areas| && total == Sum(areas)
    ensures total > 0.0 ==> forall k | 0 <= k < |areas| :: scaled[k] == Target(areas, k)
  {
    scaled, total := SumWeights(areas);
    hide Sum;
    if total > 0.0 {
      for i := 0 to |areas|
        invariant forall k | 0 <= k < i :: scaled[k] == Target(areas, k)
        invariant forall k | i <= k < |areas| :: scaled[k] == areas[k]
      {
        scaled[i] := ScaledWeight(scaled[i], |areas|, total);
        assert scaled[i] == Target(areas, i);
        hide ScaledWeight, Target;
      }
    }
  }

  function ScaledWeight(area: real, n: nat, total: real): real
    requires total > 0.0
  {
    area * n as real / total
  }

  method SumWeights(areas: seq<real>) returns (scaled: array<real>, total: real)
    ensures fresh(scaled) && scaled[..] == areas && total == Sum(areas)
  {
    var n := |areas|;
    scaled := new real[n];
    total := 0.0;
    for i := 0 to n
      invariant total == Sum(areas[..i])
      invariant scaled[..i] == areas[..i]
    {
      assert areas[..i + 1][..i] == areas[..i];
      scaled[i] := areas[i];
      total := total + areas[i];
    }
    assert areas[..n] == areas;
  }

  /** The first i triangles, classified. */
  ghost predicate Classified(s: seq<real>, i: nat, small: seq<nat>, large: seq<nat>) {
    && i <= |s| && Listed(i, small, large)
    && (forall k | 0 <= k < |small| :: 0.0 <= s[small[k]] < 1.0)
    && (forall k | 0 <= k < |large| :: s[large[k]] >= 1.0)
    && (forall k | 0 <= k < i :: k in small || k in large)
    && |small| + |large| == i && ListTotal(s, small) + ListTotal(s, large) == Sum(s[..i])
  }

  lemma ClassifyTotals(s: seq<real>, i: nat, small: seq<nat>, large: seq<nat>)
    requires i < |s| && Inside(|s|, small) && Inside(|s|, large)
    requires ListTotal(s, small) + ListTotal(s, large) == Sum(s[..i])
    ensures Inside(|s|, small + [i]) && Inside(|s|, large + [i])
    ensures ListTotal(s, small + [i]) + ListTotal(s, large) == Sum(s[..i + 1])
    ensures ListTotal(s, small) + ListTotal(s, large + [i]) == Sum(s[..i + 1])
  {
    assert s[..i + 1][..i] == s[..i];
    assert Sum(s[..i + 1]) == Sum(s[..i]) + s[i];
    hide ListTotal, Sum;
    ListTotalPush(s, small, i);
    ListTotalPush(s, large, i);
  }

  lemma ClassifyOne(s: seq<real>, i: nat, small: seq<nat>, large: seq<nat>)
    requires i < |s| && s[i] >= 0.0 && Classified(s, i, small, large)
    ensures s[i] < 1.0 ==> Classified(s, i + 1, small + [i], large)
    ensures s[i] >= 1.0 ==> Classified(s, i + 1, small, large + [i])
  {
    ListedOne(i, small, large);
    hide ListTotal, Sum, Listed;
    ClassifyTotals(s, i, small, large);
    forall k | 0 <= k < i + 1 ensures (k in small + [i] || k in large) && (k in small || k in large + [i]) {
      if k < i { assert k in small || k in large; } else { assert (small + [i])[|small|] == i && (large + [i])[|large|] == i; }
    }
  }

  lemma ListedOne(i: nat, small: seq<nat>, large: seq<nat>)
    requires Listed(i, small, large)
    ensures Listed(i + 1, small + [i], large) && Listed(i + 1, small, large + [i])
    ensures Inside(i, small) && Inside(i, large)
  {
  }

  lemma NoneClassified(s: seq<real>)
    ensures Classified(s, 0, [], [])
  {
  }

  lemma AllClassified(s: seq<real>, small: seq<nat>, large: seq<nat>)
    requires Classified(s, |s|, small, large) && Sum(s) == |s| as real
    ensures Balanced(s, small, large)
    ensures forall i | 0 <= i < |s| :: i in small || i in large
  {
    hide ListTotal, Sum;
    assert s[..|s|] == s;
  }

  method Classify(scaled: array<real>) returns (small: seq<nat>, large: seq<nat>)
    requires forall k | 0 <= k < scaled.Length :: scaled[k] >= 0.0
    requires Sum(scaled[..]) == scaled.Length as real
    ensures Balanced(scaled[..], small, large)
    ensures forall i | 0 <= i < scaled.Length :: i in small || i in large
  {
    small, large := [], [];
    ghost var s := scaled[..];
    NoneClassified(s);
    hide Classified, Balanced;
    for i := 0 to scaled.Length
      invariant Classified(s, i, small, large)
    {
      ClassifyOne(s, i, small, large);
      if scaled[i] < 1.0 { small := small + [i]; } else { large := large + [i]; }
    }
    AllClassified(s, small, large);
  }

  /**
   Builds the table. Every triangle's mass is its area's share, every probability lies in [0, 1],
   and only a set of triangles without area is refused.
   */
  method MakeAliasTable(areas: seq<real>) returns (r: Option<seq<Entry>>)
    requires forall k | 0 <= k < |areas| :: areas[k] >= 0.0
    ensures r.None? <==> Sum(areas) == 0.0
    ensures r.Some? ==> |r.value| == |areas| && Sum(areas) > 0.0
    ensures r.Some? ==> forall i | 0 <= i < |areas| :: 0.0 <= r.value[i].keep <= 1.0 && r.value[i].other < |areas|
    ensures r.Some? ==> |r.value| == |areas| && Sum(areas) > 0.0
                        && forall i | 0 <= i < |areas| :: Mass(r.value, i) == Target(areas, i)
  {
    hide Target, Sum, Mass, Received, Progress, Balanced, Conserved;
    SumNonNegative(areas);
    var scaled, total := ScaleWeights(areas);
    if !(total > 0.0) { return None; }
    ghost var target := scaled[..];
    ScaledTargets(areas, target);
    var small: seq<nat>, large: seq<nat> := Classify(scaled);
    var table := new Entry[|areas|](_ => Entry(0.0, 0));
    ghost var plan := InitialPlan(target, small, large, table[..]);
    small, large, plan := PairUp(scaled, table, target, small, large, plan);
    Finish(target, scaled[..], plan, small, large, table[..]);
    KeepWhole(table, plan, small, large);
    KeepWhole(table, plan, [], small);
    assert table[..] == plan;
    r := Some(table[..]);
  }

  /** Pairs the last light triangle with the last heavy one until a list runs out. */
  method PairUp(scaled: array<real>, table: array<Entry>, ghost target: seq<real>, light: seq<nat>, heavy: seq<nat>,
                ghost initial: seq<Entry>)
    returns (small: seq<nat>, large: seq<nat>, ghost plan: seq<Entry>)
    requires Progress(target, scaled[..], initial, light, heavy, table[..])
    modifies scaled, table
    ensures Progress(target, scaled[..], plan, small, large, table[..]) && (small == [] || large == [])
  {
    hide Progress;
    small, large, plan := light, heavy, initial;
    while small != [] && large != []
      invariant Progress(target, scaled[..], plan, small, large, table[..])
      decreases |small| + |large|
    {
      ProgressFacts(target, scaled[..], plan, small, large, table[..]);
      Pairing(target, scaled[..], plan, small, large, table[..]);
      var s: nat, l: nat := small[|small| - 1], large[|large| - 1];
      ghost var (was, had) := (scaled[..], table[..]);
      small, large := small[..|small| - 1], large[..|large| - 1];
      table[s] := Entry(scaled[s], l);
      plan := plan[s := Entry(scaled[s], l)];
      scaled[l] := scaled[l] + scaled[s] - 1.0;
      assert scaled[..] == was[l := was[l] + was[s] - 1.0];
      assert table[..] == had[s := Entry(was[s], l)];
      if scaled[l] < 1.0 { small := small + [l]; } else { large := large + [l]; }
    }
  }

  /** Before the first pairing every triangle keeps its whole slot. */
  lemma InitialPlan(target: seq<real>, small: seq<nat>, large: seq<nat>, table: seq<Entry>) returns (plan: seq<Entry>)
    requires Balanced(target, small, large) && |table| == |target|
    requires forall i | 0 <= i < |target| :: i in small || i in large
    ensures |plan| == |target| && Progress(target, target, plan, small, large, table)
  {
    hide Balanced;
    var n := |target|;
    plan := seq(n, i requires 0 <= i < n => Entry(1.0, i));
    forall i | 0 <= i < n ensures Received(plan, i) == 0.0 { NothingReceived(plan, i); }
    hide Received;
  }

  /** The construction's invariant, with the table filled in for every finished triangle. */
  ghost predicate Progress(target: seq<real>, scaled: seq<real>, plan: seq<Entry>, small: seq<nat>, large: seq<nat>,
                           table: seq<Entry>) {
    && Balanced(scaled, small, large) && Conserved(target, scaled, plan, small, large)
    && |table| == |plan| && forall i | 0 <= i < |plan| && i !in small && i !in large :: table[i] == plan[i]
  }

  lemma ProgressFacts(target: seq<real>, scaled: seq<real>, plan: seq<Entry>, small: seq<nat>, large: seq<nat>, table: seq<Entry>)
    requires Progress(target, scaled, plan, small, large, table)
    ensures |target| == |scaled| == |plan| == |table| && Inside(|plan|, small) && Inside(|plan|, large)
    ensures small != [] && large != [] ==> small[|small| - 1] != large[|large| - 1]
  {
    hide Received, ListTotal;
  }

  lemma Pairing(target: seq<real>, scaled: seq<real>, plan: seq<Entry>, small: seq<nat>, large: seq<nat>, table: seq<Entry>)
    requires Progress(target, scaled, plan, small, large, table) && small != [] && large != []
    ensures |target| == |scaled| == |plan| == |table| && Inside(|plan|, small) && Inside(|plan|, large)
    ensures var s, l := small[|small| - 1], large[|large| - 1];
      var rest := scaled[l := scaled[l] + scaled[s] - 1.0];
      var more := plan[s := Entry(scaled[s], l)];
      var (a, b) := (small[..|small| - 1], large[..|large| - 1]);
      var filled := table[s := Entry(scaled[s], l)];
      && (rest[l] < 1.0 ==> Progress(target, rest, more, a + [l], b, filled))
      && (rest[l] >= 1.0 ==> Progress(target, rest, more, a, b + [l], filled))
  {
    ProgressFacts(target, scaled, plan, small, large, table);
    hide Received, ListTotal, Listed;
    var s, l := small[|small| - 1], large[|large| - 1];
    PairBalances(scaled, small, large);
    PairConserves(target, scaled, plan, small, large);
    assert Listed(|scaled|, small, large);
    var (a, b) := (small[..|small| - 1], large[..|large| - 1]);
    var more := plan[s := Entry(scaled[s], l)];
    var filled := table[s := Entry(scaled[s], l)];
    forall i: nat | i < |plan|
      ensures i !in a + [l] && i !in b ==> filled[i] == more[i]
      ensures i !in a && i !in b + [l] ==> filled[i] == more[i]
    {
      StillListed(small, large, i);
    }
    hide Balanced, Conserved;
  }

  /** When a list runs out, what is left keeps its whole slot and every triangle has its target. */
  lemma Finish(target: seq<real>, scaled: seq<real>, plan: seq<Entry>, small: seq<nat>, large: seq<nat>, table: seq<Entry>)
    requires Progress(target, scaled, plan, small, large, table) && (small == [] || large == [])
    ensures |target| == |plan| == |table| && small == [] && Inside(|plan|, large)
    ensures forall i | 0 <= i < |plan| :: Mass(plan, i) == target[i] && 0.0 <= plan[i].keep <= 1.0 && plan[i].other < |plan|
    ensures forall i | 0 <= i < |plan| && i in large :: plan[i] == Entry(1.0, i)
    ensures forall i | 0 <= i < |plan| && i !in small && i !in large :: table[i] == plan[i]
  {
    ProgressFacts(target, scaled, plan, small, large, table);
    hide Received, ListTotal, Listed, Mass;
    Leftovers(scaled, small, large);
    FinishedMass(target, scaled, plan, small, large);
  }

  /** Every listed triangle keeps its whole slot. */
  method KeepWhole(table: array<Entry>, ghost plan: seq<Entry>, ghost others: seq<nat>, list: seq<nat>)
    requires |plan| == table.Length && Inside(table.Length, list)
    requires forall i | 0 <= i < |plan| && i in list :: plan[i] == Entry(1.0, i)
    requires forall i | 0 <= i < |plan| && i !in others && i !in list :: table[i] == plan[i]
    modifies table
    ensures forall i | 0 <= i < |plan| && i !in others :: table[i] == plan[i]
  {
    for k := 0 to |list|
      invariant forall i | 0 <= i < |plan| && i !in others && (i !in list || i in list[..k]) :: table[i] == plan[i]
    {
      assert list[k] in list;
      table[list[k]] := Entry(1.0, list[k]);
    }
  }

  /** Whatever is left in the lists at the end has a weight of exactly one, and no light triangle is left. */
  lemma Leftovers(scaled: seq<real>, small: seq<nat>, large: seq<nat>)
    requires Balanced(scaled, small, large) && (small == [] || large == [])
    ensures small == []
    ensures forall k | 0 <= k < |large| :: large[k] < |scaled| && scaled[large[k]] == 1.0
  {
    AllBelow(scaled, small);
    AllOnes(scaled, large);
  }

  /** Once the leftovers weigh one, the plan gives every triangle its target. */
  lemma FinishedMass(target: seq<real>, scaled: seq<real>, plan: seq<Entry>, small: seq<nat>, large: seq<nat>)
    requires Conserved(target, scaled, plan, small, large) && small == []
    requires forall k | 0 <= k < |large| :: large[k] < |scaled| && scaled[large[k]] == 1.0
    ensures forall i | 0 <= i < |plan| :: Mass(plan, i) == target[i] && 0.0 <= plan[i].keep <= 1.0 && plan[i].other < |plan|
    ensures forall i | 0 <= i < |plan| && i in large :: plan[i] == Entry(1.0, i)
  {
    hide Received;
  }
}
