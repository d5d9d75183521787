/**
 Minimum-cost one-to-one assignment of description guides to cached curves: shortest
 augmenting paths over row and column potentials, with every cost a real number.
 Rows and columns are numbered from 1; column 0 stands for the row being inserted.
 */
module Assignment {
  import opened Permutations

  const INCOMPATIBLE_COST := 1000000.0

  /** A double that may be infinite. */
  datatype Distance = Finite(v: real) | Infinite {
    predicate Below(d: Distance) {
      Finite? && (d.Infinite? || v < d.v)
    }

    function Less(delta: real): Distance {
      if Finite? then Finite(v - delta) else Infinite
    }
  }

  datatype Outcome = Assigned(mapping: seq<nat>) | Incompatible | NonFiniteDelta

  type Matrix = seq<seq<real>>

  ghost predicate Square(cost: Matrix) {
    forall i | 0 <= i < |cost| :: |cost[i]| == |cost|
  }

  /** The cost of pairing guide i with curve p[i] for every i. */
  ghost function Total(cost: Matrix, p: seq<nat>): real
    requires Square(cost) && |p| == |cost| && IsPermutation(p)
  {
    Sum(seq(|p|, i requires 0 <= i < |p| => cost[i][p[i]]))
  }

  ghost predicate Optimal(cost: Matrix, m: seq<nat>) {
    && Square(cost) && |m| == |cost| && IsPermutation(m)
    && forall p: seq<nat> | |p| == |cost| && IsPermutation(p) :: Total(cost, m) <= Total(cost, p)
  }

  // ---------------------------------------------------------------- invariants

  /** The contents of the working vectors. `columnRow[j]` is the row paired with column j, 0 for none. */
  datatype View = View(cost: Matrix, u: seq<real>, v: seq<real>, columnRow: seq<nat>, previous: seq<nat>,
                       minimum: seq<Distance>)
  {
    ghost predicate Sized() {
      && Square(cost) && |u| == |v| == |columnRow| == |previous| == |minimum| == |cost| + 1
      && forall j | 0 <= j <= |cost| :: columnRow[j] <= |cost|
    }

    /** The reduced cost of row i and column j. */
    ghost function Slack(i: nat, j: nat): real
      requires Sized() && 1 <= i <= |cost| && 1 <= j <= |cost|
    {
      cost[i - 1][j - 1] - u[i] - v[j]
    }
  }

  /** Rows 1..rows have nonnegative reduced costs. */
  ghost predicate Feasible(w: View, rows: nat)
    requires w.Sized() && rows <= |w.cost|
  {
    forall i, j | 1 <= i <= rows && 1 <= j <= |w.cost| :: w.Slack(i, j) >= 0.0
  }

  /** Columns from `low` on, apart from `hole`, are paired with distinct rows, covering 1..rows; `at` is the inverse. */
  ghost predicate Matching(columnRow: seq<nat>, at: seq<nat>, low: nat, rows: nat, hole: nat) {
    && |columnRow| == |at| > rows
    && (forall i | 1 <= i <= rows :: low <= at[i] < |at| && at[i] != hole && columnRow[at[i]] == i)
    && (forall j | low <= j < |columnRow| && j != hole && columnRow[j] != 0 ::
          columnRow[j] <= rows && at[columnRow[j]] == j)
  }

  /** Paired rows and columns have reduced cost zero. */
  ghost predicate Tight(w: View, hole: nat)
    requires w.Sized()
  {
    forall j | 1 <= j <= |w.cost| && j != hole && w.columnRow[j] != 0 :: w.Slack(w.columnRow[j], j) == 0.0
  }

  ghost predicate Columns(w: View, order: seq<nat>)
    requires w.Sized()
  {
    IsInjective(order) && forall k | 0 <= k < |order| :: order[k] <= |w.cost| && w.columnRow[order[k]] != 0
  }

  /** Column j is reached by a tight edge from the row of its predecessor, one of the first k used columns. */
  ghost predicate Hangs(w: View, order: seq<nat>, k: nat, j: nat)
    requires w.Sized() && Columns(w, order) && k <= |order| && 1 <= j <= |w.cost|
  {
    exists q :: 0 <= q < k && w.previous[j] == order[q] && w.Slack(w.columnRow[order[q]], j) == 0.0
  }

  /** The search tree: the used columns in the order they were reached from column 0. */
  ghost predicate Tree(w: View, order: seq<nat>)
    requires w.Sized() && Columns(w, order)
  {
    && (order != [] ==> order[0] == 0)
    && (forall k | 1 <= k < |order| :: order[k] >= 1 && Hangs(w, order, k, order[k]))
  }

  /** `minimum[j]` is the least reduced cost from a tree row to column j, attained at column `previous[j]`. */
  ghost predicate Nearest(w: View, order: seq<nat>, j: nat)
    requires w.Sized() && Columns(w, order) && 1 <= j <= |w.cost|
  {
    if order == [] then w.minimum[j].Infinite?
    else
      && w.minimum[j].Finite?
      && (forall k | 0 <= k < |order| :: w.minimum[j].v <= w.Slack(w.columnRow[order[k]], j))
      && (exists q :: 0 <= q < |order| && w.previous[j] == order[q]
                 && w.Slack(w.columnRow[order[q]], j) == w.minimum[j].v)
  }

  ghost predicate AllNearest(w: View, order: seq<nat>)
    requires w.Sized() && Columns(w, order)
  {
    forall j | 1 <= j <= |w.cost| && j !in order :: Nearest(w, order, j)
  }

  /** Rows the search has already made feasible: all inserted rows, and the new one once its tree has started. */
  function RowsDone(row: nat, order: seq<nat>): nat
    requires row >= 1
  {
    if order == [] then row - 1 else row
  }

  /** The search for row `row` has used the columns of `order` and is about to use `column`. */
  ghost predicate Searching(w: View, at: seq<nat>, row: nat, order: seq<nat>, column: nat) {
    && w.Sized() && 1 <= row <= |w.cost| && column <= |w.cost|
    && w.columnRow[0] == row && Matching(w.columnRow, at, 0, row, |w.columnRow|)
    && Columns(w, order) && Tree(w, order)
    && Feasible(w, RowsDone(row, order)) && Tight(w, 0)
    && AllNearest(w, order)
    && (forall j | 1 <= j <= |w.cost| && j !in order && order != [] :: w.minimum[j].v >= 0.0)
    && column !in order
    && (if order == [] then column == 0 else column >= 1 && Hangs(w, order, |order|, column))
  }

  // ---------------------------------------------------------------- one step of the search

  /** The relaxation loop has compared the row of the new column with every unused column. */
  ghost predicate Relaxed(w: View, w': View, order: seq<nat>, column: nat)
    requires w.Sized() && column <= |w.cost| && w.columnRow[column] != 0
  {
    && w'.Sized() && w' == w.(previous := w'.previous, minimum := w'.minimum)
    && (forall j | 1 <= j <= |w.cost| && j in order + [column] ::
          w'.previous[j] == w.previous[j] && w'.minimum[j] == w.minimum[j])
    && (forall j | 1 <= j <= |w.cost| && j !in order + [column] ::
          var reduced := Finite(w.Slack(w.columnRow[column], j));
          if reduced.Below(w.minimum[j]) then w'.minimum[j] == reduced && w'.previous[j] == column
          else w'.minimum[j] == w.minimum[j] && w'.previous[j] == w.previous[j])
  }

  lemma MoreColumns(w: View, w': View, order: seq<nat>, column: nat)
    requires w.Sized() && w'.Sized() && w'.cost == w.cost && w'.columnRow == w.columnRow
    requires Columns(w, order) && column <= |w.cost| && w.columnRow[column] != 0 && column !in order
    ensures Columns(w', order + [column])
  {
  }

  /** A tight edge to a column whose predecessor entry did not change stays a tight edge. */
  lemma HangsKept(w: View, w': View, order: seq<nat>, order': seq<nat>, k: nat, j: nat)
    requires w.Sized() && Columns(w, order) && k <= |order| && 1 <= j <= |w.cost| && Hangs(w, order, k, j)
    requires w'.Sized() && w'.cost == w.cost && w'.columnRow == w.columnRow && Columns(w', order') && order <= order'
    requires w'.previous[j] == w.previous[j]
    requires forall q | 0 <= q < k :: w'.Slack(w'.columnRow[order[q]], j) == w.Slack(w.columnRow[order[q]], j)
    ensures Hangs(w', order', k, j)
  {
    var q :| 0 <= q < k && w.previous[j] == order[q] && w.Slack(w.columnRow[order[q]], j) == 0.0;
    assert order'[q] == order[q];
  }

  lemma RelaxedTree(w: View, w': View, at: seq<nat>, row: nat, order: seq<nat>, column: nat)
    requires Searching(w, at, row, order, column) && w.columnRow[column] != 0 && Relaxed(w, w', order, column)
    ensures Columns(w', order + [column]) && Tree(w', order + [column])
  {
    var order' := order + [column];
    MoreColumns(w, w', order, column);
    forall k | 1 <= k < |order'| ensures order'[k] >= 1 && Hangs(w', order', k, order'[k]) {
      assert order'[k] in order';
      assert Hangs(w, order, k, order'[k]);
      HangsKept(w, w', order, order', k, order'[k]);
    }
  }

  lemma RelaxedNearest(w: View, w': View, at: seq<nat>, row: nat, order: seq<nat>, column: nat, j: nat)
    requires Searching(w, at, row, order, column) && w.columnRow[column] != 0 && Relaxed(w, w', order, column)
    requires Columns(w', order + [column]) && 1 <= j <= |w.cost| && j !in order + [column]
    ensures Nearest(w', order + [column], j)
    ensures order != [] ==> w'.minimum[j].v >= 0.0
  {
    var order' := order + [column];
    var s := w.Slack(w.columnRow[column], j);
    assert j !in order;
    assert Nearest(w, order, j);
    assert order'[|order|] == column;
    assert w'.Slack(w'.columnRow[order'[|order|]], j) == s;
    if order != [] {
      var q :| 0 <= q < |order| && w.previous[j] == order[q] && w.Slack(w.columnRow[order[q]], j) == w.minimum[j].v;
      assert order'[q] == order[q];
      assert w'.Slack(w'.columnRow[order'[q]], j) == w.minimum[j].v;
    }
  }

  /** The update loop has moved every tree row and used column by delta. */
  ghost predicate Shifted(w: View, w': View, at: seq<nat>, row: nat, order: seq<nat>, delta: real)
    requires w.Sized() && |at| == |w.cost| + 1 && row <= |w.cost|
  {
    && w'.Sized() && w' == w.(u := w'.u, v := w'.v, minimum := w'.minimum)
    && (forall i | 1 <= i <= row :: w'.u[i] == if at[i] in order then w.u[i] + delta else w.u[i])
    && (forall j | 1 <= j <= |w.cost| :: w'.v[j] == if j in order then w.v[j] - delta else w.v[j])
    && (forall j | 1 <= j <= |w.cost| && j !in order :: w'.minimum[j] == w.minimum[j].Less(delta))
  }

  /** Slacks inside and outside the tree keep their values; those leaving it fall and those entering it rise by delta. */
  lemma ShiftedSlack(w: View, w': View, at: seq<nat>, row: nat, order: seq<nat>, delta: real, i: nat, j: nat)
    requires w.Sized() && |at| == |w.cost| + 1 && row <= |w.cost| && Shifted(w, w', at, row, order, delta)
    requires 1 <= i <= row && 1 <= j <= |w.cost|
    ensures w'.Slack(i, j) == w.Slack(i, j) - (if at[i] in order then delta else 0.0) + (if j in order then delta else 0.0)
  {
  }

  lemma TreeRow(w: View, at: seq<nat>, row: nat, order: seq<nat>, k: nat)
    requires w.Sized() && Columns(w, order) && Matching(w.columnRow, at, 0, row, |w.columnRow|) && k < |order|
    ensures 1 <= w.columnRow[order[k]] <= row && at[w.columnRow[order[k]]] == order[k]
  {
  }

  lemma ShiftedFeasible(w: View, w': View, at: seq<nat>, row: nat, order: seq<nat>, delta: real)
    requires w.Sized() && |at| == |w.cost| + 1 && 1 <= row <= |w.cost| && order != []
    requires Columns(w, order) && Matching(w.columnRow, at, 0, row, |w.columnRow|) && w.columnRow[0] == row
    requires order[0] == 0 && Feasible(w, RowsDone(row, order[1..])) && AllNearest(w, order)
    requires forall j | 1 <= j <= |w.cost| && j !in order :: delta <= w.minimum[j].v
    requires |order| > 1 ==> delta >= 0.0
    requires Shifted(w, w', at, row, order, delta)
    ensures Feasible(w', row)
  {
    forall i, j | 1 <= i <= row && 1 <= j <= |w.cost| ensures w'.Slack(i, j) >= 0.0 {
      ShiftedSlack(w, w', at, row, order, delta, i, j);
      if at[i] in order && j !in order {
        assert Nearest(w, order, j);
        var k :| 0 <= k < |order| && order[k] == at[i];
        assert w.minimum[j].v <= w.Slack(w.columnRow[order[k]], j);
      }
    }
  }

  lemma ShiftedTight(w: View, w': View, at: seq<nat>, row: nat, order: seq<nat>, delta: real)
    requires w.Sized() && Columns(w, order) && Matching(w.columnRow, at, 0, row, |w.columnRow|)
    requires |at| == |w.cost| + 1 && row <= |w.cost| && Tight(w, 0) && Shifted(w, w', at, row, order, delta)
    ensures Tight(w', 0)
  {
    forall j | 1 <= j <= |w.cost| && w.columnRow[j] != 0 ensures w'.Slack(w.columnRow[j], j) == 0.0 {
      ShiftedSlack(w, w', at, row, order, delta, w.columnRow[j], j);
      assert at[w.columnRow[j]] == j;
    }
  }

  lemma ShiftedTree(w: View, w': View, at: seq<nat>, row: nat, order: seq<nat>, delta: real)
    requires w.Sized() && Columns(w, order) && Matching(w.columnRow, at, 0, row, |w.columnRow|)
    requires |at| == |w.cost| + 1 && row <= |w.cost| && Tree(w, order) && Shifted(w, w', at, row, order, delta)
    ensures Columns(w', order) && Tree(w', order)
  {
    forall k | 1 <= k < |order| ensures order[k] >= 1 && Hangs(w', order, k, order[k]) {
      assert Hangs(w, order, k, order[k]);
      forall q | 0 <= q < k ensures w'.Slack(w'.columnRow[order[q]], order[k]) == w.Slack(w.columnRow[order[q]], order[k]) {
        TreeRow(w, at, row, order, q);
        ShiftedSlack(w, w', at, row, order, delta, w.columnRow[order[q]], order[k]);
      }
      HangsKept(w, w', order, order, k, order[k]);
    }
  }

  lemma ShiftedNearest(w: View, w': View, at: seq<nat>, row: nat, order: seq<nat>, delta: real, j: nat)
    requires w.Sized() && Columns(w, order) && Matching(w.columnRow, at, 0, row, |w.columnRow|)
    requires |at| == |w.cost| + 1 && row <= |w.cost| && Shifted(w, w', at, row, order, delta)
    requires order != [] && 1 <= j <= |w.cost| && j !in order && Nearest(w, order, j)
    ensures Columns(w', order) && Nearest(w', order, j) && w'.minimum[j].v == w.minimum[j].v - delta
    ensures w.minimum[j].v == delta ==> Hangs(w', order, |order|, j)
  {
    forall k | 0 <= k < |order| ensures w'.Slack(w'.columnRow[order[k]], j) == w.Slack(w.columnRow[order[k]], j) - delta {
      TreeRow(w, at, row, order, k);
      ShiftedSlack(w, w', at, row, order, delta, w.columnRow[order[k]], j);
    }
    var q :| 0 <= q < |order| && w.previous[j] == order[q] && w.Slack(w.columnRow[order[q]], j) == w.minimum[j].v;
    assert w'.Slack(w'.columnRow[order[q]], j) == w'.minimum[j].v;
  }

  /** `column` is an unused column with the least minimum, delta. */
  ghost predicate Least(w: View, order: seq<nat>, delta: Distance, column: nat)
    requires w.Sized()
  {
    && delta.Finite? && 1 <= column <= |w.cost| && column !in order && w.minimum[column] == delta
    && forall j | 1 <= j <= |w.cost| && j !in order :: !w.minimum[j].Below(delta)
  }

  /** After relaxing, the extended tree is nearest to every unused column, and delta is the least such distance. */
  lemma RelaxedRound(w: View, w1: View, at: seq<nat>, row: nat, order: seq<nat>, column: nat,
                     delta: Distance, column': nat)
    requires Searching(w, at, row, order, column) && w.columnRow[column] != 0
    requires Relaxed(w, w1, order, column) && Least(w1, order + [column], delta, column')
    ensures var order' := order + [column];
      && Columns(w1, order') && Tree(w1, order') && AllNearest(w1, order') && order'[0] == 0
      && (forall j | 1 <= j <= |w.cost| && j !in order' :: delta.v <= w1.minimum[j].v)
      && (order != [] ==> delta.v >= 0.0)
  {
    var order' := order + [column];
    RelaxedTree(w, w1, at, row, order, column);
    forall j | 1 <= j <= |w.cost| && j !in order'
      ensures Nearest(w1, order', j) && (order != [] ==> w1.minimum[j].v >= 0.0) && delta.v <= w1.minimum[j].v
    {
      RelaxedNearest(w, w1, at, row, order, column, j);
      assert !w1.minimum[j].Below(delta);
    }
  }

  lemma SamePotentials(w: View, w1: View, rows: nat)
    requires w.Sized() && w1.Sized() && w1 == w.(previous := w1.previous, minimum := w1.minimum) && rows <= |w.cost|
    requires Feasible(w, rows) && Tight(w, 0)
    ensures Feasible(w1, rows) && Tight(w1, 0)
  {
    forall i, j | 1 <= i <= |w.cost| && 1 <= j <= |w.cost| ensures w1.Slack(i, j) == w.Slack(i, j) {}
  }

  /** One round of the search keeps every invariant and moves on to the nearest unused column. */
  lemma RoundKept(w: View, w1: View, w2: View, at: seq<nat>, row: nat, order: seq<nat>, column: nat,
                  delta: Distance, column': nat)
    requires Searching(w, at, row, order, column) && w.columnRow[column] != 0
    requires Relaxed(w, w1, order, column) && Least(w1, order + [column], delta, column')
    requires Shifted(w1, w2, at, row, order + [column], delta.v)
    ensures Searching(w2, at, row, order + [column], column')
  {
    var order' := order + [column];
    RelaxedRound(w, w1, at, row, order, column, delta, column');
    SamePotentials(w, w1, RowsDone(row, order));
    assert RowsDone(row, order'[1..]) == RowsDone(row, order);
    ShiftedRound(w1, w2, at, row, order', delta, column');
  }

  lemma ShiftedRound(w: View, w': View, at: seq<nat>, row: nat, order: seq<nat>, delta: Distance, column: nat)
    requires w.Sized() && 1 <= row <= |w.cost| && order != [] && order[0] == 0
    requires w.columnRow[0] == row && Matching(w.columnRow, at, 0, row, |w.columnRow|)
    requires Columns(w, order) && Tree(w, order) && AllNearest(w, order)
    requires Feasible(w, RowsDone(row, order[1..])) && Tight(w, 0)
    requires Least(w, order, delta, column) && (|order| > 1 ==> delta.v >= 0.0)
    requires forall j | 1 <= j <= |w.cost| && j !in order :: delta.v <= w.minimum[j].v
    requires Shifted(w, w', at, row, order, delta.v)
    ensures Searching(w', at, row, order, column)
  {
    ShiftedFeasible(w, w', at, row, order, delta.v);
    ShiftedTight(w, w', at, row, order, delta.v);
    ShiftedTree(w, w', at, row, order, delta.v);
    forall j | 1 <= j <= |w.cost| && j !in order
      ensures Nearest(w', order, j) && w'.minimum[j].v >= 0.0 && (j == column ==> Hangs(w', order, |order|, j))
    {
      ShiftedNearest(w, w', at, row, order, delta.v, j);
    }
  }

  /** The used columns carry distinct inserted rows, so while a row is missing some column is unused. */
  lemma UnusedColumn(w: View, at: seq<nat>, row: nat, order: seq<nat>) returns (j: nat)
    requires w.Sized() && Columns(w, order) && Matching(w.columnRow, at, 0, row, |w.columnRow|)
    requires 1 <= row <= |w.cost| && order != [] && order[0] == 0
    ensures |order| <= row && 1 <= j <= |w.cost| && j !in order
  {
    j := 0;
    var rows: seq<nat> := seq(|order|, k requires 0 <= k < |order| => w.columnRow[order[k]] - 1);
    forall i, k | 0 <= i < k < |rows| ensures rows[i] != rows[k] {
      TreeRow(w, at, row, order, i);
      TreeRow(w, at, row, order, k);
    }
    forall k | 0 <= k < |rows| ensures rows[k] < row { TreeRow(w, at, row, order, k); }
    Pigeonhole(rows, row);
    if forall c | 1 <= c <= |w.cost| :: c in order {
      var place: seq<nat> := seq(|w.cost| + 1, c requires 0 <= c <= |w.cost| => IndexOf(order, c));
      forall i, k | 0 <= i < k < |place| ensures place[i] != place[k] { assert i in order && k in order; }
      forall c | 0 <= c < |place| ensures place[c] < |order| { assert c in order; }
      Pigeonhole(place, |order|);
    } else {
      j :| 1 <= j <= |w.cost| && j !in order;
    }
  }

  ghost function IndexOf(s: seq<nat>, x: nat): (k: nat)
    ensures x in s ==> k < |s| && s[k] == x
  {
    if x in s then var k :| 0 <= k < |s| && s[k] == x; k else 0
  }

  // ---------------------------------------------------------------- augmentation

  /** Moving a row one step along the back pointers moves the hole and keeps every other pair. */
  lemma ShiftRow(columnRow: seq<nat>, at: seq<nat>, row: nat, hole: nat, from: nat)
    requires Matching(columnRow, at, 0, row, hole) && hole < |columnRow| && from < |columnRow| && from != hole
    requires columnRow[from] != 0
    ensures var r := columnRow[from];
      r < |at| && Matching(columnRow[hole := r], at[r := hole], 0, row, from)
  {
    var r := columnRow[from];
    var c', at' := columnRow[hole := r], at[r := hole];
    assert r <= row && at[r] == from;
    forall j | 0 <= j < |c'| && j != from && c'[j] != 0 ensures c'[j] <= row && at'[c'[j]] == j {
      if j != hole { assert at[columnRow[j]] == j; }
    }
  }

  lemma TightAfterShift(w: View, columnRow: seq<nat>, hole: nat, from: nat)
    requires w.Sized() && hole <= |w.cost| && from <= |w.cost| && |columnRow| == |w.columnRow|
    requires forall j | 0 <= j <= |w.cost| :: columnRow[j] <= |w.cost|
    requires Tight(w.(columnRow := columnRow), hole) && columnRow[from] == w.columnRow[from] != 0
    requires 1 <= hole && w.Slack(w.columnRow[from], hole) == 0.0
    ensures Tight(w.(columnRow := columnRow[hole := columnRow[from]]), from)
  {
    var w1, w2 := w.(columnRow := columnRow), w.(columnRow := columnRow[hole := columnRow[from]]);
    forall j | 1 <= j <= |w.cost| && j != from && w2.columnRow[j] != 0 ensures w2.Slack(w2.columnRow[j], j) == 0.0 {
      if j != hole {
        assert w1.Slack(w1.columnRow[j], j) == 0.0;
        assert w2.Slack(w2.columnRow[j], j) == w1.Slack(w1.columnRow[j], j);
      } else {
        assert w2.Slack(w2.columnRow[j], j) == w.Slack(w.columnRow[from], hole);
      }
    }
  }

  /** Where the augmentation stands: the hole is the k-th column of the path, and the first k columns are untouched. */
  ghost predicate AtHole(w: View, columnRow: seq<nat>, at: seq<nat>, row: nat, order: seq<nat>, column: nat,
                         k: nat, hole: nat) {
    && w.Sized() && |columnRow| == |w.columnRow| && (forall j | 0 <= j <= |w.cost| :: columnRow[j] <= |w.cost|)
    && Columns(w, order) && k <= |order| && hole <= |w.cost| && hole == (order + [column])[k]
    && (k == 0 <==> hole == 0)
    && (forall q | 0 <= q < k :: columnRow[order[q]] == w.columnRow[order[q]])
    && Matching(columnRow, at, 0, row, hole) && Tight(w.(columnRow := columnRow), hole)
  }

  lemma BackPointer(w: View, order: seq<nat>, column: nat, k: nat) returns (q: nat)
    requires w.Sized() && Columns(w, order) && Tree(w, order) && column !in order && 0 < k <= |order|
    requires 1 <= column <= |w.cost| && Hangs(w, order, |order|, column)
    ensures var hole := (order + [column])[k];
      && 1 <= hole <= |w.cost| && q < k && w.previous[hole] == order[q]
      && w.Slack(w.columnRow[order[q]], hole) == 0.0
      && (order[q] == 0 <==> q == 0) && forall p | 0 <= p <= q :: order[p] != hole
  {
    var hole := (order + [column])[k];
    assert k < |order| ==> hole == order[k];
    assert Hangs(w, order, k, hole);
    q :| 0 <= q < k && w.previous[hole] == order[q] && w.Slack(w.columnRow[order[q]], hole) == 0.0;
  }

  lemma AugmentStep(w: View, columnRow: seq<nat>, at: seq<nat>, row: nat, order: seq<nat>, column: nat, k: nat, hole: nat)
    returns (q: nat)
    requires AtHole(w, columnRow, at, row, order, column, k, hole) && hole != 0
    requires Tree(w, order) && column !in order && 1 <= column <= |w.cost| && Hangs(w, order, |order|, column)
    ensures q < k && w.previous[hole] == order[q]
    ensures var from := order[q];
      && from < |columnRow| && columnRow[from] < |at|
      && AtHole(w, columnRow[hole := columnRow[from]], at[columnRow[from] := hole], row, order, column, q, from)
  {
    q := BackPointer(w, order, column, k);
    ShiftRow(columnRow, at, row, hole, order[q]);
    TightAfterShift(w, columnRow, hole, order[q]);
  }

  lemma AugmentStart(w: View, at: seq<nat>, row: nat, order: seq<nat>, column: nat)
    requires Searching(w, at, row, order, column) && w.columnRow[column] == 0
    ensures AtHole(w, w.columnRow, at, row, order, column, |order|, column)
  {
    assert w.(columnRow := w.columnRow) == w;
  }

  /** Pairs the free column by shifting rows along the back pointers until the inserted row leaves column 0. */
  method Augment(columnRow: array<nat>, previous: array<nat>, column: nat,
                 ghost w: View, ghost at: seq<nat>, ghost row: nat, ghost order: seq<nat>)
    returns (ghost at': seq<nat>)
    requires Searching(w, at, row, order, column) && w.columnRow[column] == 0
    requires columnRow[..] == w.columnRow && previous[..] == w.previous && columnRow != previous
    modifies columnRow
    ensures w.(columnRow := columnRow[..]).Sized() && Tight(w.(columnRow := columnRow[..]), 0)
    ensures Matching(columnRow[..], at', 1, row, columnRow.Length)
  {
    AugmentStart(w, at, row, order, column);
    var column0: nat := column;
    at' := at;
    ghost var k: nat := |order|;
    while column0 != 0
      invariant AtHole(w, columnRow[..], at', row, order, column, k, column0)
      decreases k
    {
      ghost var before := columnRow[..];
      ghost var q := AugmentStep(w, before, at', row, order, column, k, column0);
      var column1 := previous[column0];
      columnRow[column0] := columnRow[column1];
      assert columnRow[..] == before[column0 := before[column1]];
      at' := at'[before[column1] := column0];
      column0 := column1;
      k := q;
    }
  }

  // ---------------------------------------------------------------- the loops over columns

  ghost predicate Loaded(w: View, u: array<real>, v: array<real>, columnRow: array<nat>, previous: array<nat>,
                         minimum: array<Distance>)
    reads u, v, columnRow, previous, minimum
  {
    && w.Sized() && u != v && columnRow != previous
    && w == View(w.cost, u[..], v[..], columnRow[..], previous[..], minimum[..])
  }

  ghost predicate Marks(used: array<bool>, order: seq<nat>)
    reads used
  {
    forall j | 0 <= j < used.Length :: used[j] <==> j in order
  }

  /** Compares the row of `column0` with every unused column and finds the nearest one. */
  method Relax(column0: nat, u: array<real>, v: array<real>, columnRow: array<nat>, previous: array<nat>,
               minimum: array<Distance>, used: array<bool>, cost: Matrix, ghost w: View, ghost order: seq<nat>)
    returns (delta: Distance, column1: nat)
    requires Loaded(w, u, v, columnRow, previous, minimum) && cost == w.cost && column0 <= |cost|
    requires columnRow[column0] != 0 && used.Length == |cost| + 1 && Marks(used, order + [column0])
    modifies previous, minimum
    ensures previous.Length == minimum.Length == |cost| + 1
    ensures Relaxed(w, w.(previous := previous[..], minimum := minimum[..]), order, column0)
    ensures delta.Finite? ==>
      Least(w.(previous := previous[..], minimum := minimum[..]), order + [column0], delta, column1)
    ensures delta.Infinite? ==> forall j | 1 <= j <= |cost| && j !in order + [column0] :: minimum[j].Infinite?
  {
    var row0 := columnRow[column0];
    delta, column1 := Infinite, 0;
    for column := 1 to |cost| + 1
      invariant u[..] == w.u && v[..] == w.v && columnRow[..] == w.columnRow
      invariant forall j | column <= j <= |cost| :: minimum[j] == w.minimum[j] && previous[j] == w.previous[j]
      invariant forall j | 1 <= j < column && used[j] :: minimum[j] == w.minimum[j] && previous[j] == w.previous[j]
      invariant forall j | 1 <= j < column && !used[j] ::
        var reduced := Finite(w.Slack(row0, j));
        if reduced.Below(w.minimum[j]) then minimum[j] == reduced && previous[j] == column0
        else minimum[j] == w.minimum[j] && previous[j] == w.previous[j]
      invariant forall j | 1 <= j < column && !used[j] :: !minimum[j].Below(delta)
      invariant delta.Finite? ==> 1 <= column1 < column && !used[column1] && minimum[column1] == delta
    {
      if !used[column] {
        var reduced := Finite(cost[row0 - 1][column - 1] - u[row0] - v[column]);
        if reduced.Below(minimum[column]) {
          minimum[column] := reduced;
          previous[column] := column0;
        }
        if minimum[column].Below(delta) {
          delta := minimum[column];
          column1 := column;
        }
      }
    }
  }

  /** Moves the potentials of tree rows and used columns, and the distances of the unused columns, by delta. */
  method Shift(delta: real, u: array<real>, v: array<real>, columnRow: array<nat>, previous: array<nat>,
               minimum: array<Distance>, used: array<bool>, ghost w: View, ghost at: seq<nat>, ghost row: nat,
               ghost order: seq<nat>)
    requires Loaded(w, u, v, columnRow, previous, minimum) && 1 <= row <= |w.cost|
    requires Matching(w.columnRow, at, 0, row, |w.columnRow|)
    requires used.Length == |w.cost| + 1 && Marks(used, order)
    modifies u, v, minimum
    ensures u.Length == v.Length == minimum.Length == |w.cost| + 1
    ensures Shifted(w, w.(u := u[..], v := v[..], minimum := minimum[..]), at, row, order, delta)
  {
    for column := 0 to minimum.Length
      invariant columnRow[..] == w.columnRow
      invariant forall i | 1 <= i <= row :: u[i] == if at[i] < column && used[at[i]] then w.u[i] + delta else w.u[i]
      invariant forall j | 0 <= j < v.Length :: v[j] == if j < column && used[j] then w.v[j] - delta else w.v[j]
      invariant forall j | 0 <= j < minimum.Length ::
        minimum[j] == if j < column && !used[j] then w.minimum[j].Less(delta) else w.minimum[j]
    {
      if used[column] {
        u[columnRow[column]] := u[columnRow[column]] + delta;
        v[column] := v[column] - delta;
      } else {
        minimum[column] := minimum[column].Less(delta);
      }
    }
  }

  // ---------------------------------------------------------------- the whole assignment

  /** Rows 1..rows are inserted: dual feasible, and paired one to one along tight entries. */
  ghost predicate Inserted(w: View, at: seq<nat>, rows: nat) {
    && w.Sized() && rows <= |w.cost| && Feasible(w, rows) && Tight(w, 0)
    && Matching(w.columnRow, at, 1, rows, |w.columnRow|)
  }

  lemma StartSearch(w: View, at: seq<nat>, row: nat)
    requires 1 <= row && Inserted(w, at, row - 1) && row <= |w.cost|
    requires forall j | 0 <= j <= |w.cost| :: w.minimum[j].Infinite?
    ensures Searching(w.(columnRow := w.columnRow[0 := row]), at[row := 0], row, [], 0)
  {
    var w' := w.(columnRow := w.columnRow[0 := row]);
    forall i, j | 1 <= i <= |w.cost| && 1 <= j <= |w.cost| ensures w'.Slack(i, j) == w.Slack(i, j) {}
  }

  lemma NoInfiniteDelta(w: View, at: seq<nat>, row: nat, order: seq<nat>, column: nat, w1: View)
    requires Searching(w, at, row, order, column) && w.columnRow[column] != 0 && Relaxed(w, w1, order, column)
    ensures exists j :: 1 <= j <= |w.cost| && j !in order + [column] && w1.minimum[j].Finite?
    ensures |order| < row
  {
    RelaxedTree(w, w1, at, row, order, column);
    var order' := order + [column];
    assert order'[0] == 0;
    var j := UnusedColumn(w1, at, row, order');
    RelaxedNearest(w, w1, at, row, order, column, j);
  }

  /** Uses `column0`, relaxes from it, and finds the nearest unused column, which always exists. */
  method UseColumn(column0: nat, u: array<real>, v: array<real>, columnRow: array<nat>, previous: array<nat>,
                   minimum: array<Distance>, used: array<bool>, cost: Matrix, ghost w: View, ghost at: seq<nat>,
                   ghost row: nat, ghost order: seq<nat>)
    returns (delta: Distance, column1: nat, ghost w1: View)
    requires Loaded(w, u, v, columnRow, previous, minimum) && w.cost == cost
    requires Searching(w, at, row, order, column0) && w.columnRow[column0] != 0
    requires used.Length == |cost| + 1 && Marks(used, order)
    modifies previous, minimum, used
    ensures Loaded(w1, u, v, columnRow, previous, minimum) && Marks(used, order + [column0])
    ensures Relaxed(w, w1, order, column0) && Least(w1, order + [column0], delta, column1) && |order| < row
  {
    used[column0] := true;
    delta, column1 := Relax(column0, u, v, columnRow, previous, minimum, used, cost, w, order);
    w1 := w.(previous := previous[..], minimum := minimum[..]);
    NoInfiniteDelta(w, at, row, order, column0, w1);
  }

  /** One round of the search: shifts the potentials and moves to the nearest unused column. */
  method Round(column0: nat, u: array<real>, v: array<real>, columnRow: array<nat>, previous: array<nat>,
               minimum: array<Distance>, used: array<bool>, cost: Matrix, ghost w: View, ghost at: seq<nat>,
               ghost row: nat, ghost order: seq<nat>)
    returns (ok: bool, column1: nat, ghost w': View)
    requires Loaded(w, u, v, columnRow, previous, minimum) && w.cost == cost
    requires Searching(w, at, row, order, column0) && w.columnRow[column0] != 0
    requires used.Length == |cost| + 1 && Marks(used, order)
    modifies u, v, previous, minimum, used
    ensures ok && |order| < row
    ensures Loaded(w', u, v, columnRow, previous, minimum) && w'.cost == cost
    ensures Searching(w', at, row, order + [column0], column1)
    ensures Marks(used, order + [column0])
  {
    var delta;
    ghost var w1;
    delta, column1, w1 := UseColumn(column0, u, v, columnRow, previous, minimum, used, cost, w, at, row, order);
    if delta.Infinite? {
      return false, column1, w;
    }
    Shift(delta.v, u, v, columnRow, previous, minimum, used, w1, at, row, order + [column0]);
    w' := w1.(u := u[..], v := v[..], minimum := minimum[..]);
    RoundKept(w, w1, w', at, row, order, column0, delta, column1);
    ok := true;
  }

  /** Inserts one row by a shortest augmenting path; with finite costs it never fails. */
  method InsertRow(cost: Matrix, row: nat, u: array<real>, v: array<real>, columnRow: array<nat>,
                   previous: array<nat>, ghost none: seq<Distance>, ghost at: seq<nat>)
    returns (ok: bool, ghost at': seq<nat>)
    requires u != v && columnRow != previous && 1 <= row <= |cost|
    requires |none| == |cost| + 1 && forall j | 0 <= j < |none| :: none[j].Infinite?
    requires Inserted(View(cost, u[..], v[..], columnRow[..], previous[..], none), at, row - 1)
    modifies u, v, columnRow, previous
    ensures ok && Inserted(View(cost, u[..], v[..], columnRow[..], previous[..], none), at', row)
  {
    ghost var w := View(cost, u[..], v[..], columnRow[..], previous[..], none);
    var minimum := new Distance[|cost| + 1](_ => Infinite);
    var used := new bool[|cost| + 1](_ => false);
    StartSearch(w, at, row);
    columnRow[0] := row;
    at' := at[row := 0];
    w := w.(columnRow := w.columnRow[0 := row]);
    assert minimum[..] == none;
    ghost var order: seq<nat> := [];
    var column0: nat := 0;
    while columnRow[column0] != 0
      invariant Loaded(w, u, v, columnRow, previous, minimum) && w.cost == cost
      invariant Searching(w, at', row, order, column0) && |order| <= row
      invariant used.Length == |cost| + 1 && Marks(used, order)
      decreases row - |order|
    {
      ghost var w';
      var column1;
      ok, column1, w' := Round(column0, u, v, columnRow, previous, minimum, used, cost, w, at', row, order);
      if !ok { return; }
      w, order, column0 := w', order + [column0], column1;
    }
    ghost var at0 := at';
    at' := Augment(columnRow, previous, column0, w, at0, row, order);
    FinishSearch(w, w.(columnRow := columnRow[..], minimum := none), at0, at', row, order, column0);
    ok := true;
  }

  lemma FinishSearch(w: View, w': View, at0: seq<nat>, at: seq<nat>, row: nat, order: seq<nat>, column: nat)
    requires Searching(w, at0, row, order, column)
    requires order != [] && w' == w.(columnRow := w'.columnRow, minimum := w'.minimum) && w'.Sized()
    requires Matching(w'.columnRow, at, 1, row, |w'.columnRow|) && Tight(w.(columnRow := w'.columnRow), 0)
    ensures Inserted(w', at, row)
  {
    var w1 := w.(columnRow := w'.columnRow);
    forall i, j | 1 <= i <= |w.cost| && 1 <= j <= |w.cost|
      ensures w'.Slack(i, j) == w.Slack(i, j) && w1.Slack(i, j) == w.Slack(i, j) {}
  }

  /** The pairs of guides and curves, counted from 0, that a complete matching stands for. */
  ghost predicate MappingOf(m: seq<nat>, at: seq<nat>) {
    |at| == |m| + 1 && forall i | 0 <= i < |m| :: at[i + 1] == m[i] + 1
  }

  lemma MatchingIsPermutation(columnRow: seq<nat>, at: seq<nat>, m: seq<nat>)
    requires Matching(columnRow, at, 1, |m|, |columnRow|) && MappingOf(m, at)
    ensures IsPermutation(m)
  {
    forall i | 0 <= i < |m| ensures m[i] < |m| && columnRow[m[i] + 1] == i + 1 {
      assert columnRow[at[i + 1]] == i + 1;
    }
  }

  /** Feasible potentials bound the cost of every assignment from below by their sum. */
  lemma WeakDuality(w: View, p: seq<nat>)
    requires w.Sized() && Feasible(w, |w.cost|) && |p| == |w.cost| && IsPermutation(p)
    ensures Total(w.cost, p) >= Sum(w.u[1..]) + Sum(w.v[1..])
    ensures (forall i | 0 <= i < |p| :: w.Slack(i + 1, p[i] + 1) == 0.0) ==>
      Total(w.cost, p) == Sum(w.u[1..]) + Sum(w.v[1..])
  {
    var n := |p|;
    var costs := seq(n, i requires 0 <= i < n => w.cost[i][p[i]]);
    var bound := seq(n, i requires 0 <= i < n => w.u[i + 1] + w.v[p[i] + 1]);
    SumPermuted(w.v[1..], p);
    SumAdd(w.u[1..], Gather(w.v[1..], p), bound);
    forall i | 0 <= i < n ensures bound[i] <= costs[i] { assert w.Slack(i + 1, p[i] + 1) >= 0.0; }
    SumMonotone(bound, costs);
    if forall i | 0 <= i < n :: w.Slack(i + 1, p[i] + 1) == 0.0 {
      forall i | 0 <= i < n ensures bound[i] == costs[i] { assert w.Slack(i + 1, p[i] + 1) == 0.0; }
      assert bound == costs;
    }
  }

  lemma TightIsOptimal(w: View, at: seq<nat>, m: seq<nat>)
    requires Inserted(w, at, |w.cost|) && |m| == |w.cost| && MappingOf(m, at)
    ensures Optimal(w.cost, m)
  {
    MatchingIsPermutation(w.columnRow, at, m);
    forall i | 0 <= i < |m| ensures w.Slack(i + 1, m[i] + 1) == 0.0 {
      assert w.columnRow[at[i + 1]] == i + 1;
      assert w.Slack(w.columnRow[m[i] + 1], m[i] + 1) == 0.0;
    }
    WeakDuality(w, m);
    forall p: seq<nat> | |p| == |w.cost| && IsPermutation(p) ensures Total(w.cost, m) <= Total(w.cost, p) {
      WeakDuality(w, p);
    }
  }

  /** Reads the guide-to-curve mapping off the pairing; entries of unpaired guides keep the curve count. */
  method ExtractMapping(n: nat, columnRow: array<nat>, ghost at: seq<nat>) returns (mapping: seq<nat>)
    requires columnRow.Length == n + 1 && Matching(columnRow[..], at, 1, n, n + 1)
    ensures |mapping| == n && MappingOf(mapping, at)
  {
    var m := new nat[n](_ => n);
    for column := 1 to n + 1
      invariant forall i | 0 <= i < n :: m[i] == if at[i + 1] < column then at[i + 1] - 1 else n
    {
      if columnRow[column] != 0 {
        m[columnRow[column] - 1] := column - 1;
      }
    }
    mapping := m[..];
  }

  /** Inserts all rows one after the other, starting from zero potentials and no pairs. */
  method InsertRows(cost: Matrix) returns (ok: bool, columnRow: array<nat>, ghost w: View, ghost at: seq<nat>)
    requires Square(cost)
    ensures ok && Inserted(w, at, |cost|) && w.cost == cost && columnRow[..] == w.columnRow
  {
    var n := |cost|;
    var u, v := new real[n + 1](_ => 0.0), new real[n + 1](_ => 0.0);
    columnRow := new nat[n + 1](_ => 0);
    var previous := new nat[n + 1](_ => 0);
    ghost var none := seq(n + 1, _ => Infinite);
    at := seq(n + 1, _ => 0);
    w := View(cost, u[..], v[..], columnRow[..], previous[..], none);
    for row := 1 to n + 1
      invariant w == View(cost, u[..], v[..], columnRow[..], previous[..], none)
      invariant Inserted(w, at, row - 1)
    {
      ok, at := InsertRow(cost, row, u, v, columnRow, previous, none, at);
      w := View(cost, u[..], v[..], columnRow[..], previous[..], none);
      if !ok { return; }
    }
    ok := true;
  }

  /**
   The assignment of guides to curves. It never takes the non-finite branch; it either
   returns a least-cost permutation of compatible pairs, or fails because a least-cost
   permutation pairs a guide with a curve of another CV count.
   */
  method Assign(cost: Matrix) returns (r: Outcome)
    requires Square(cost)
    ensures !r.NonFiniteDelta?
    ensures r.Assigned? ==>
      Optimal(cost, r.mapping) && forall i | 0 <= i < |cost| :: cost[i][r.mapping[i]] < INCOMPATIBLE_COST
    ensures r.Incompatible? ==>
      exists m: seq<nat> :: Optimal(cost, m) && exists i :: 0 <= i < |cost| && cost[i][m[i]] >= INCOMPATIBLE_COST
  {
    var ok, columnRow, w, at := InsertRows(cost);
    if !ok { return NonFiniteDelta; }
    var mapping := ExtractMapping(|cost|, columnRow, at);
    TightIsOptimal(w, at, mapping);
    for i := 0 to |cost|
      invariant forall k | 0 <= k < i :: cost[k][mapping[k]] < INCOMPATIBLE_COST
    {
      if mapping[i] == |cost| || cost[i][mapping[i]] >= INCOMPATIBLE_COST {
        return Incompatible;
      }
    }
    r := Assigned(mapping);
  }

  lemma {:induction false} SumOfNonnegative(s: seq<real>, k: nat)
    requires k < |s| && forall i | 0 <= i < |s| :: s[i] >= 0.0
    ensures Sum(s) >= s[k]
    decreases |s|
  {
    var zero := seq(|s|, _ => 0.0)[k := s[k]];
    SumMonotone(zero, s);
    SumReplace(seq(|s|, _ => 0.0), k, s[k]);
    SumZero(|s|);
  }

  lemma {:induction false} SumZero(n: nat)
    ensures Sum(seq(n, _ => 0.0)) == 0.0
  {
    if n > 0 {
      SumZero(n - 1);
      assert seq(n, _ => 0.0)[..n - 1] == seq(n - 1, _ => 0.0);
    }
  }

  /** With nonnegative costs, no optimal assignment uses an incompatible pair when some assignment costs less than one. */
  lemma CheapMeansCompatible(cost: Matrix, m: seq<nat>, p: seq<nat>, i: nat)
    requires Optimal(cost, m) && i < |cost| && |p| == |cost| && IsPermutation(p)
    requires forall a, b | 0 <= a < |cost| && 0 <= b < |cost| :: cost[a][b] >= 0.0
    requires Total(cost, p) < INCOMPATIBLE_COST
    ensures cost[i][m[i]] < INCOMPATIBLE_COST
  {
    SumOfNonnegative(seq(|m|, k requires 0 <= k < |m| => cost[k][m[k]]), i);
  }
}
