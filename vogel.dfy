/**
 * Vogel's Approximation Method for the transportation problem, as a
 * specification: the penalty list of one pass, the winning line, the chosen
 * cell, one allocation step, and the whole run to the loop's stopping
 * condition. The lemmas state what the run guarantees: non-negative
 * remainders, conservation of supply and demand, progress and a bound on the
 * number of passes, the sentinel never winning, each cell written at most
 * once, and full allocation for balanced inputs.
 */
module Vogel {
  import opened Lines

  /** The loop runs while both remaining totals exceed this margin. */
  const Tolerance: real := 0.01

  /** Penalty given to an exhausted line, so that it ranks below every active one. */
  const Sentinel: real := -1.0

  datatype Axis = Row | Col

  /** One entry of the penalty list: the penalty, the kind of line and its index. */
  datatype Penalty = Penalty(value: real, axis: Axis, index: nat)

  /** A cell of the grid: origin `row`, destination `col`. */
  datatype Cell = Cell(row: nat, col: nat)

  /** Working state of a run: remaining supply, remaining demand, allocation grid. */
  datatype State = State(s: seq<real>, d: seq<real>, alloc: seq<seq<real>>)

  predicate IsGrid(m: seq<seq<real>>, rows: nat, cols: nat)
  {
    |m| == rows && forall i :: 0 <= i < rows ==> |m[i]| == cols
  }

  predicate NonNegativeGrid(m: seq<seq<real>>)
  {
    forall i :: 0 <= i < |m| ==> NonNegative(m[i])
  }

  /**
   * What the caller supplies: a cost grid with one row per origin and one
   * column per destination, and nothing negative. The algorithm itself does
   * not check any of this.
   */
  predicate WellFormed(supply: seq<real>, demand: seq<real>, costs: seq<seq<real>>)
  {
    IsGrid(costs, |supply|, |demand|)
    && NonNegative(supply) && NonNegative(demand) && NonNegativeGrid(costs)
  }

  /** Column `j` of a grid, top to bottom. */
  function Column(m: seq<seq<real>>, j: nat): (col: seq<real>)
    requires forall i :: 0 <= i < |m| ==> j < |m[i]|
    ensures |col| == |m| && forall i :: 0 <= i < |m| ==> col[i] == m[i][j]
  {
    seq(|m|, i requires 0 <= i < |m| => m[i][j])
  }

  /** Sum of all entries of a grid. */
  function Total(m: seq<seq<real>>): real
  {
    if m == [] then 0.0 else Sum(m[0]) + Total(m[1..])
  }

  function Zeros(rows: nat, cols: nat): (m: seq<seq<real>>)
    ensures IsGrid(m, rows, cols)
    ensures forall i, j :: 0 <= i < rows && 0 <= j < cols ==> m[i][j] == 0.0
  {
    seq(rows, _ => seq(cols, _ => 0.0))
  }

  /** State before the first pass: the working lists are copies of the inputs. */
  function Initial(supply: seq<real>, demand: seq<real>): State
  {
    State(supply, demand, Zeros(|supply|, |demand|))
  }

  /** Shapes agree and nothing is negative: a pass is then well defined. */
  predicate Ready(costs: seq<seq<real>>, st: State)
  {
    IsGrid(costs, |st.s|, |st.d|) && IsGrid(st.alloc, |st.s|, |st.d|)
    && NonNegativeGrid(costs) && NonNegative(st.s) && NonNegative(st.d)
  }

  /** The loop guard: both remaining totals still exceed the tolerance. */
  predicate Running(st: State)
  {
    Sum(st.s) > Tolerance && Sum(st.d) > Tolerance
  }

  /** Penalty record of origin `i`, from the costs towards active destinations. */
  function RowRecord(costs: seq<seq<real>>, s: seq<real>, d: seq<real>, i: nat): Penalty
    requires IsGrid(costs, |s|, |d|) && i < |s| && HasActive(d)
  {
    ActiveCostsNonEmpty(costs[i], d);
    if s[i] > 0.0 then Penalty(Gap(ActiveCosts(costs[i], d)), Row, i)
    else Penalty(Sentinel, Row, i)
  }

  /** Penalty record of destination `j`, from the costs from active origins. */
  function ColRecord(costs: seq<seq<real>>, s: seq<real>, d: seq<real>, j: nat): Penalty
    requires IsGrid(costs, |s|, |d|) && j < |d| && HasActive(s)
  {
    ActiveCostsNonEmpty(Column(costs, j), s);
    if d[j] > 0.0 then Penalty(Gap(ActiveCosts(Column(costs, j), s)), Col, j)
    else Penalty(Sentinel, Col, j)
  }

  /** The penalty list of one pass: every origin in order, then every destination. */
  function Penalties(costs: seq<seq<real>>, s: seq<real>, d: seq<real>): (ps: seq<Penalty>)
    requires IsGrid(costs, |s|, |d|) && HasActive(s) && HasActive(d)
    ensures |ps| == |s| + |d|
    ensures forall k :: 0 <= k < |ps| ==>
              ps[k] == if k < |s| then RowRecord(costs, s, d, k) else ColRecord(costs, s, d, k - |s|)
  {
    seq(|s| + |d|, k requires 0 <= k < |s| + |d| =>
      if k < |s| then RowRecord(costs, s, d, k) else ColRecord(costs, s, d, k - |s|))
  }

  /** The origins' records followed by the destinations' records make up the penalty list. */
  lemma PenaltiesByRecords(costs: seq<seq<real>>, s: seq<real>, d: seq<real>, rows: seq<Penalty>, cols: seq<Penalty>)
    requires IsGrid(costs, |s|, |d|) && HasActive(s) && HasActive(d) && |rows| == |s| && |cols| == |d|
    requires forall i :: 0 <= i < |s| ==> rows[i] == RowRecord(costs, s, d, i)
    requires forall j :: 0 <= j < |d| ==> cols[j] == ColRecord(costs, s, d, j)
    ensures rows + cols == Penalties(costs, s, d)
  {
    var ps, spec := rows + cols, Penalties(costs, s, d);
    forall k | 0 <= k < |spec| ensures ps[k] == spec[k] {
      if k >= |s| {
        assert ps[k] == cols[k - |s|];
      }
    }
  }

  /**
   * Position of the winning record: a largest penalty, and the first such
   * one in list order (a scan that replaces its current best only by a
   * strictly larger penalty).
   */
  function FirstMax(ps: seq<Penalty>): (k: nat)
    requires ps != []
    ensures k < |ps|
    ensures forall j :: 0 <= j < |ps| ==> ps[j].value <= ps[k].value
    ensures forall j :: 0 <= j < k ==> ps[j].value < ps[k].value
  {
    if |ps| == 1 then 0
    else
      var n := |ps| - 1;
      var k := FirstMax(ps[..n]);
      if ps[n].value > ps[k].value then n else k
  }

  /**
   * The cell of one pass: the winning line, and in it the cheapest cell whose
   * other line is still active.
   */
  function Choose(costs: seq<seq<real>>, s: seq<real>, d: seq<real>): (c: Cell)
    requires IsGrid(costs, |s|, |d|) && HasActive(s) && HasActive(d)
    ensures c.row < |s| && c.col < |d|
    ensures var k := FirstMax(Penalties(costs, s, d));
            if k < |s| then c == Cell(k, Cheapest(costs[k], d))
            else c == Cell(Cheapest(Column(costs, k - |s|), s), k - |s|)
  {
    var ps := Penalties(costs, s, d);
    var k := FirstMax(ps);
    var w := ps[k];
    assert if k < |s| then w.axis == Row && w.index == k else w.axis == Col && w.index == k - |s|;
    if w.axis == Row then Cell(w.index, Cheapest(costs[w.index], d))
    else Cell(Cheapest(Column(costs, w.index), s), w.index)
  }

  /**
   * Allocation along cell `c`: the lesser of the two remainders is written
   * into the cell and subtracted from both.
   */
  function Ship(st: State, c: Cell): (next: State)
    requires c.row < |st.s| && c.col < |st.d| && IsGrid(st.alloc, |st.s|, |st.d|)
    ensures |next.s| == |st.s| && |next.d| == |st.d| && IsGrid(next.alloc, |st.s|, |st.d|)
    ensures next.s[c.row] == 0.0 || next.d[c.col] == 0.0
  {
    var qty := Least(st.s[c.row], st.d[c.col]);
    State(st.s[c.row := st.s[c.row] - qty],
          st.d[c.col := st.d[c.col] - qty],
          st.alloc[c.row := st.alloc[c.row][c.col := qty]])
  }

  /** One pass: choose a cell, then ship along it. */
  function Step(costs: seq<seq<real>>, st: State): State
    requires Ready(costs, st) && HasActive(st.s) && HasActive(st.d)
  {
    Ship(st, Choose(costs, st.s, st.d))
  }

  /** Passes until the loop guard fails. */
  ghost function Run(costs: seq<seq<real>>, st: State): (last: State)
    requires Ready(costs, st)
    ensures !Running(last)
    decreases ActiveCount(st.s) + ActiveCount(st.d)
  {
    if Running(st) then
      StepProgress(costs, st);
      Run(costs, Step(costs, st))
    else st
  }

  /** Number of passes the loop makes from `st`. */
  ghost function Passes(costs: seq<seq<real>>, st: State): nat
    requires Ready(costs, st)
    decreases ActiveCount(st.s) + ActiveCount(st.d)
  {
    if Running(st) then
      StepProgress(costs, st);
      1 + Passes(costs, Step(costs, st))
    else 0
  }

  /** Final state of the whole algorithm. */
  ghost function Solve(supply: seq<real>, demand: seq<real>, costs: seq<seq<real>>): State
    requires WellFormed(supply, demand, costs)
  {
    Run(costs, Initial(supply, demand))
  }

  /** Every origin's row of the grid plus its remainder is its supply. */
  ghost predicate RowsBalance(supply: seq<real>, st: State)
    requires IsGrid(st.alloc, |st.s|, |st.d|) && |supply| == |st.s|
  {
    forall i :: 0 <= i < |st.s| ==> Sum(st.alloc[i]) + st.s[i] == supply[i]
  }

  /** Every destination's column of the grid plus its remainder is its demand. */
  ghost predicate ColumnsBalance(demand: seq<real>, st: State)
    requires IsGrid(st.alloc, |st.s|, |st.d|) && |demand| == |st.d|
  {
    forall j :: 0 <= j < |st.d| ==> Sum(Column(st.alloc, j)) + st.d[j] == demand[j]
  }

  /** Everything shipped plus each side's remaining total is that side's total. */
  ghost predicate TotalsBalance(supply: seq<real>, demand: seq<real>, st: State)
  {
    Total(st.alloc) + Sum(st.s) == Sum(supply) && Total(st.alloc) + Sum(st.d) == Sum(demand)
  }

  /** A cell whose origin and destination are both still active has not been written. */
  ghost predicate Untouched(st: State)
    requires IsGrid(st.alloc, |st.s|, |st.d|)
  {
    forall i, j :: 0 <= i < |st.s| && 0 <= j < |st.d| && st.s[i] > 0.0 && st.d[j] > 0.0
      ==> st.alloc[i][j] == 0.0
  }

  /**
   * The invariant of the loop: remainders and shipments are non-negative,
   * supply, demand and the totals balance, and a cell whose two lines are
   * still active has not been written.
   */
  ghost predicate Inv(supply: seq<real>, demand: seq<real>, costs: seq<seq<real>>, st: State)
  {
    Ready(costs, st) && |supply| == |st.s| && |demand| == |st.d|
    && NonNegativeGrid(st.alloc)
    && RowsBalance(supply, st) && ColumnsBalance(demand, st)
    && TotalsBalance(supply, demand, st) && Untouched(st)
  }

  // ---------------------------------------------------------------------
  // One pass
  // ---------------------------------------------------------------------

  /**
   * With non-negative costs an active origin's penalty is non-negative and an
   * exhausted origin's penalty is the sentinel, so the record ranks at or
   * above zero exactly when the origin is active.
   */
  lemma RowRecordSign(costs: seq<seq<real>>, s: seq<real>, d: seq<real>, i: nat)
    requires IsGrid(costs, |s|, |d|) && NonNegativeGrid(costs) && i < |s| && HasActive(d)
    ensures RowRecord(costs, s, d, i).value >= 0.0 <==> s[i] > 0.0
    ensures s[i] <= 0.0 ==> RowRecord(costs, s, d, i).value == Sentinel
  {
    if s[i] > 0.0 {
      assert NonNegative(costs[i]);
      ActiveGapNonNegative(costs[i], d);
    }
  }

  /** The same for a destination and its column. */
  lemma ColRecordSign(costs: seq<seq<real>>, s: seq<real>, d: seq<real>, j: nat)
    requires IsGrid(costs, |s|, |d|) && NonNegativeGrid(costs) && j < |d| && HasActive(s)
    ensures ColRecord(costs, s, d, j).value >= 0.0 <==> d[j] > 0.0
    ensures d[j] <= 0.0 ==> ColRecord(costs, s, d, j).value == Sentinel
  {
    if d[j] > 0.0 {
      var col := Column(costs, j);
      forall i | 0 <= i < |s| ensures col[i] >= 0.0 {
        assert NonNegative(costs[i]);
      }
      ActiveGapNonNegative(col, s);
    }
  }

  /**
   * While an origin and a destination are active the winner is an active
   * line and the chosen cell has an active origin and an active destination:
   * the sentinel never wins.
   */
  lemma ChosenCellIsActive(costs: seq<seq<real>>, s: seq<real>, d: seq<real>)
    requires IsGrid(costs, |s|, |d|) && NonNegativeGrid(costs) && HasActive(s) && HasActive(d)
    ensures var c := Choose(costs, s, d); s[c.row] > 0.0 && d[c.col] > 0.0
  {
    var ps := Penalties(costs, s, d);
    var k := FirstMax(ps);
    var i :| 0 <= i < |s| && s[i] > 0.0;
    RowRecordSign(costs, s, d, i);
    assert ps[i].value >= 0.0;
    if k < |s| {
      RowRecordSign(costs, s, d, k);
    } else {
      ColRecordSign(costs, s, d, k - |s|);
    }
  }

  /**
   * Shipping along a cell whose origin and destination are both active keeps
   * the remainders non-negative, exhausts one of the two lines, and lowers
   * the number of active lines.
   */
  lemma ShipProgress(costs: seq<seq<real>>, st: State, c: Cell)
    requires Ready(costs, st) && c.row < |st.s| && c.col < |st.d|
    requires st.s[c.row] > 0.0 && st.d[c.col] > 0.0
    ensures Ready(costs, Ship(st, c))
    ensures Ship(st, c).s[c.row] == 0.0 || Ship(st, c).d[c.col] == 0.0
    ensures ActiveCount(Ship(st, c).s) + ActiveCount(Ship(st, c).d)
          < ActiveCount(st.s) + ActiveCount(st.d)
  {
    var qty := Least(st.s[c.row], st.d[c.col]);
    var next := Ship(st, c);
    assert IsGrid(next.alloc, |next.s|, |next.d|);
    ActiveCountUpdate(st.s, c.row, st.s[c.row] - qty);
    ActiveCountUpdate(st.d, c.col, st.d[c.col] - qty);
  }

  /**
   * A pass keeps the state ready, ships along a cell whose origin and
   * destination are both active, exhausts one of the two, and so lowers the
   * number of active lines.
   */
  lemma StepProgress(costs: seq<seq<real>>, st: State)
    requires Ready(costs, st) && Running(st)
    ensures HasActive(st.s) && HasActive(st.d)
    ensures Ready(costs, Step(costs, st))
    ensures var c := Choose(costs, st.s, st.d);
            var next := Step(costs, st);
            st.s[c.row] > 0.0 && st.d[c.col] > 0.0
            && (next.s[c.row] == 0.0 || next.d[c.col] == 0.0)
    ensures ActiveCount(Step(costs, st).s) + ActiveCount(Step(costs, st).d)
          < ActiveCount(st.s) + ActiveCount(st.d)
  {
    PositiveSumHasActive(st.s);
    PositiveSumHasActive(st.d);
    ChosenCellIsActive(costs, st.s, st.d);
    ShipProgress(costs, st, Choose(costs, st.s, st.d));
  }

  lemma {:induction false} TotalUpdate(m: seq<seq<real>>, i: nat, row: seq<real>)
    requires i < |m|
    ensures Total(m[i := row]) == Total(m) - Sum(m[i]) + Sum(row)
  {
    if i == 0 {
      assert m[i := row][1..] == m[1..];
    } else {
      TotalUpdate(m[1..], i - 1, row);
      assert m[i := row][1..] == m[1..][i - 1 := row];
    }
  }

  /**
   * A cell whose origin and destination are both active has never been
   * written, so the overwrite in the source is the same as adding the
   * shipped quantity, which is positive; no other cell changes.
   */
  lemma ShipWritesEmptyCell(st: State, c: Cell)
    requires IsGrid(st.alloc, |st.s|, |st.d|) && Untouched(st) && c.row < |st.s| && c.col < |st.d|
    requires st.s[c.row] > 0.0 && st.d[c.col] > 0.0
    ensures var next := Ship(st, c);
            var qty := Least(st.s[c.row], st.d[c.col]);
            st.alloc[c.row][c.col] == 0.0 && qty > 0.0
            && next.alloc[c.row][c.col] == st.alloc[c.row][c.col] + qty
            && (forall i, j :: 0 <= i < |st.s| && 0 <= j < |st.d| && (i != c.row || j != c.col)
                  ==> next.alloc[i][j] == st.alloc[i][j])
  {
  }

  /** The same for the cell a pass chooses. */
  lemma StepWritesEmptyCell(costs: seq<seq<real>>, st: State)
    requires Ready(costs, st) && Untouched(st) && Running(st)
    ensures HasActive(st.s) && HasActive(st.d)
    ensures var c := Choose(costs, st.s, st.d);
            var next := Step(costs, st);
            var qty := Least(st.s[c.row], st.d[c.col]);
            st.alloc[c.row][c.col] == 0.0 && qty > 0.0
            && next.alloc[c.row][c.col] == st.alloc[c.row][c.col] + qty
            && (forall i, j :: 0 <= i < |st.s| && 0 <= j < |st.d| && (i != c.row || j != c.col)
                  ==> next.alloc[i][j] == st.alloc[i][j])
  {
    StepProgress(costs, st);
    ShipWritesEmptyCell(st, Choose(costs, st.s, st.d));
  }

  /** The allocation part of a pass, on a cell that has not been written. */
  predicate Shippable(st: State, c: Cell)
  {
    IsGrid(st.alloc, |st.s|, |st.d|) && c.row < |st.s| && c.col < |st.d|
    && st.s[c.row] > 0.0 && st.d[c.col] > 0.0 && st.alloc[c.row][c.col] == 0.0
  }

  lemma ShipKeepsRows(supply: seq<real>, st: State, c: Cell)
    requires Shippable(st, c) && |supply| == |st.s| && RowsBalance(supply, st)
    ensures IsGrid(Ship(st, c).alloc, |Ship(st, c).s|, |Ship(st, c).d|)
    ensures RowsBalance(supply, Ship(st, c))
  {
    var r, k := c.row, c.col;
    var qty := Least(st.s[r], st.d[k]);
    var next := Ship(st, c);
    SumUpdate(st.alloc[r], k, qty);
    forall i | 0 <= i < |next.s| ensures Sum(next.alloc[i]) + next.s[i] == supply[i] {
      if i != r {
        assert next.alloc[i] == st.alloc[i];
      }
    }
  }

  lemma ShipKeepsColumns(demand: seq<real>, st: State, c: Cell)
    requires Shippable(st, c) && |demand| == |st.d| && ColumnsBalance(demand, st)
    ensures IsGrid(Ship(st, c).alloc, |Ship(st, c).s|, |Ship(st, c).d|)
    ensures ColumnsBalance(demand, Ship(st, c))
  {
    var r, k := c.row, c.col;
    var qty := Least(st.s[r], st.d[k]);
    var next := Ship(st, c);
    assert Column(next.alloc, k) == Column(st.alloc, k)[r := qty];
    SumUpdate(Column(st.alloc, k), r, qty);
    forall j | 0 <= j < |next.d| ensures Sum(Column(next.alloc, j)) + next.d[j] == demand[j] {
      if j != k {
        assert Column(next.alloc, j) == Column(st.alloc, j);
      }
    }
  }

  lemma ShipKeepsTotals(supply: seq<real>, demand: seq<real>, st: State, c: Cell)
    requires Shippable(st, c) && TotalsBalance(supply, demand, st)
    ensures TotalsBalance(supply, demand, Ship(st, c))
  {
    var r, k := c.row, c.col;
    var qty := Least(st.s[r], st.d[k]);
    SumUpdate(st.alloc[r], k, qty);
    TotalUpdate(st.alloc, r, st.alloc[r][k := qty]);
    SumUpdate(st.s, r, st.s[r] - qty);
    SumUpdate(st.d, k, st.d[k] - qty);
  }

  lemma ShipKeepsNonNegative(st: State, c: Cell)
    requires IsGrid(st.alloc, |st.s|, |st.d|) && c.row < |st.s| && c.col < |st.d|
    requires NonNegativeGrid(st.alloc) && st.s[c.row] >= 0.0 && st.d[c.col] >= 0.0
    ensures NonNegativeGrid(Ship(st, c).alloc)
  {
    var next := Ship(st, c);
    forall i | 0 <= i < |next.alloc| ensures NonNegative(next.alloc[i]) {
      assert NonNegative(st.alloc[i]);
    }
  }

  /** Shipping along a cell whose two lines are active keeps the loop invariant. */
  lemma ShipPreservesInv(supply: seq<real>, demand: seq<real>, costs: seq<seq<real>>, st: State, c: Cell)
    requires Inv(supply, demand, costs, st) && c.row < |st.s| && c.col < |st.d|
    requires st.s[c.row] > 0.0 && st.d[c.col] > 0.0
    ensures Inv(supply, demand, costs, Ship(st, c))
  {
    ShipProgress(costs, st, c);
    ShipWritesEmptyCell(st, c);
    ShipKeepsRows(supply, st, c);
    ShipKeepsColumns(demand, st, c);
    ShipKeepsTotals(supply, demand, st, c);
    ShipKeepsNonNegative(st, c);
  }

  /** A pass keeps the loop invariant. */
  lemma StepPreservesInv(supply: seq<real>, demand: seq<real>, costs: seq<seq<real>>, st: State)
    requires Inv(supply, demand, costs, st) && Running(st)
    ensures HasActive(st.s) && HasActive(st.d)
    ensures Inv(supply, demand, costs, Step(costs, st))
  {
    StepProgress(costs, st);
    ShipPreservesInv(supply, demand, costs, st, Choose(costs, st.s, st.d));
  }

  // ---------------------------------------------------------------------
  // The whole run
  // ---------------------------------------------------------------------

  lemma {:induction false} SumOfZeros(xs: seq<real>)
    requires forall k :: 0 <= k < |xs| ==> xs[k] == 0.0
    ensures Sum(xs) == 0.0
  {
    if xs != [] {
      SumOfZeros(xs[1..]);
    }
  }

  lemma {:induction false} TotalOfZeros(m: seq<seq<real>>)
    requires forall i :: 0 <= i < |m| ==> forall j :: 0 <= j < |m[i]| ==> m[i][j] == 0.0
    ensures Total(m) == 0.0
  {
    if m != [] {
      SumOfZeros(m[0]);
      TotalOfZeros(m[1..]);
    }
  }

  /** The invariant holds before the first pass. */
  lemma InitialInv(supply: seq<real>, demand: seq<real>, costs: seq<seq<real>>)
    requires WellFormed(supply, demand, costs)
    ensures Inv(supply, demand, costs, Initial(supply, demand))
  {
    var m := Zeros(|supply|, |demand|);
    forall i | 0 <= i < |supply| ensures Sum(m[i]) == 0.0 {
      SumOfZeros(m[i]);
    }
    forall j | 0 <= j < |demand| ensures Sum(Column(m, j)) == 0.0 {
      SumOfZeros(Column(m, j));
    }
    TotalOfZeros(m);
  }

  /** Every pass keeps the invariant, and the run ends where the guard fails. */
  lemma {:induction false} RunKeepsInv(supply: seq<real>, demand: seq<real>, costs: seq<seq<real>>, st: State)
    requires Inv(supply, demand, costs, st)
    ensures Inv(supply, demand, costs, Run(costs, st))
    ensures !Running(Run(costs, st))
    decreases ActiveCount(st.s) + ActiveCount(st.d)
  {
    if Running(st) {
      StepProgress(costs, st);
      StepPreservesInv(supply, demand, costs, st);
      RunKeepsInv(supply, demand, costs, Step(costs, st));
    }
  }

  /** A running loop makes one pass more than it makes from the state after its first pass. */
  lemma PassesUnfold(costs: seq<seq<real>>, st: State)
    requires Ready(costs, st)
    ensures Running(st) ==> HasActive(st.s) && HasActive(st.d) && Ready(costs, Step(costs, st))
    ensures Running(st) ==> Passes(costs, st) == 1 + Passes(costs, Step(costs, st))
    ensures !Running(st) ==> Passes(costs, st) == 0
  {
    if Running(st) {
      StepProgress(costs, st);
    }
  }

  /**
   * The loop makes fewer passes than there are active lines when it starts
   * (each pass exhausts at least one line, and a pass needs an active origin
   * and an active destination).
   */
  lemma {:induction false} PassesBound(costs: seq<seq<real>>, st: State)
    requires Ready(costs, st)
    ensures Running(st) ==> Passes(costs, st) < ActiveCount(st.s) + ActiveCount(st.d)
    ensures !Running(st) ==> Passes(costs, st) == 0
    decreases ActiveCount(st.s) + ActiveCount(st.d)
  {
    if Running(st) {
      StepProgress(costs, st);
      PassesBound(costs, Step(costs, st));
    }
  }

  /**
   * The result of the whole algorithm: a grid of the problem's shape with no
   * negative entry, no origin shipping more than its supply, no destination
   * receiving more than its demand, and the loop stopped because one side's
   * remainder is within the tolerance.
   */
  lemma SolveFeasible(supply: seq<real>, demand: seq<real>, costs: seq<seq<real>>)
    requires WellFormed(supply, demand, costs)
    ensures var plan := Solve(supply, demand, costs).alloc;
            IsGrid(plan, |supply|, |demand|) && NonNegativeGrid(plan)
            && (forall i :: 0 <= i < |supply| ==> Sum(plan[i]) <= supply[i])
            && (forall j :: 0 <= j < |demand| ==> Sum(Column(plan, j)) <= demand[j])
            && (Sum(supply) - Total(plan) <= Tolerance || Sum(demand) - Total(plan) <= Tolerance)
  {
    InitialInv(supply, demand, costs);
    RunKeepsInv(supply, demand, costs, Initial(supply, demand));
  }

  /** The number of passes is at most the number of origins plus destinations, minus one. */
  lemma SolvePasses(supply: seq<real>, demand: seq<real>, costs: seq<seq<real>>)
    requires WellFormed(supply, demand, costs)
    ensures Passes(costs, Initial(supply, demand)) == 0
         || Passes(costs, Initial(supply, demand)) <= |supply| + |demand| - 1
  {
    PassesBound(costs, Initial(supply, demand));
  }

  /**
   * When total supply equals total demand, the two remaining totals stay
   * equal, so everything is shipped except a remainder within the tolerance.
   */
  lemma SolveBalanced(supply: seq<real>, demand: seq<real>, costs: seq<seq<real>>)
    requires WellFormed(supply, demand, costs) && Sum(supply) == Sum(demand)
    ensures var plan := Solve(supply, demand, costs).alloc;
            Sum(supply) - Tolerance <= Total(plan) <= Sum(supply)
  {
    InitialInv(supply, demand, costs);
    var st := Initial(supply, demand);
    RunKeepsInv(supply, demand, costs, st);
    SumNonNegative(Run(costs, st).s);
  }

  /**
   * When total supply does not exceed total demand, the loop stops with the
   * remaining supply within the tolerance: all but at most 0.01 of the
   * supply is shipped.
   */
  lemma SolveSupplyShort(supply: seq<real>, demand: seq<real>, costs: seq<seq<real>>)
    requires WellFormed(supply, demand, costs) && Sum(supply) <= Sum(demand)
    ensures var last := Solve(supply, demand, costs);
            Sum(last.s) <= Tolerance && Sum(supply) - Tolerance <= Total(last.alloc)
  {
    InitialInv(supply, demand, costs);
    RunKeepsInv(supply, demand, costs, Initial(supply, demand));
  }

  /** Symmetrically, when total demand does not exceed total supply, the remaining demand ends within the tolerance. */
  lemma SolveDemandShort(supply: seq<real>, demand: seq<real>, costs: seq<seq<real>>)
    requires WellFormed(supply, demand, costs) && Sum(demand) <= Sum(supply)
    ensures var last := Solve(supply, demand, costs);
            Sum(last.d) <= Tolerance && Sum(demand) - Tolerance <= Total(last.alloc)
  {
    InitialInv(supply, demand, costs);
    RunKeepsInv(supply, demand, costs, Initial(supply, demand));
  }

  /** Shipping keeps whole-number remainders whole: what is shipped is one of the two remainders. */
  lemma ShipKeepsWhole(st: State, c: Cell)
    requires IsGrid(st.alloc, |st.s|, |st.d|) && c.row < |st.s| && c.col < |st.d|
    requires Whole(st.s) && Whole(st.d)
    ensures Whole(Ship(st, c).s) && Whole(Ship(st, c).d)
  {
    var qty := Least(st.s[c.row], st.d[c.col]);
    WholeArith(st.s[c.row], qty);
    WholeArith(st.d[c.col], qty);
  }

  lemma {:induction false} RunKeepsWhole(costs: seq<seq<real>>, st: State)
    requires Ready(costs, st) && Whole(st.s) && Whole(st.d)
    ensures Whole(Run(costs, st).s) && Whole(Run(costs, st).d)
    decreases ActiveCount(st.s) + ActiveCount(st.d)
  {
    if Running(st) {
      StepProgress(costs, st);
      ShipKeepsWhole(st, Choose(costs, st.s, st.d));
      RunKeepsWhole(costs, Step(costs, st));
    }
  }

  /**
   * Whole remainders that stop the loop with equal totals are all zero: the
   * remaining totals are equal whole numbers, and one is within the tolerance.
   */
  lemma WholeRemaindersVanish(supply: seq<real>, demand: seq<real>, st: State)
    requires TotalsBalance(supply, demand, st) && Sum(supply) == Sum(demand) && !Running(st)
    requires NonNegative(st.s) && NonNegative(st.d) && Whole(st.s) && Whole(st.d)
    ensures forall i :: 0 <= i < |st.s| ==> st.s[i] == 0.0
    ensures forall j :: 0 <= j < |st.d| ==> st.d[j] == 0.0
  {
    SumWhole(st.s);
    SumNonNegative(st.s);
    SumNonNegative(st.d);
    assert Sum(st.s) == Sum(st.d);
    assert Sum(st.s) == 0.0;
    ZeroSumAllZero(st.s);
    ZeroSumAllZero(st.d);
  }

  /**
   * With whole-number supplies and demands (what the input form produces)
   * and equal totals, every origin ships exactly its supply and every
   * destination receives exactly its demand.
   */
  lemma SolveWholeBalanced(supply: seq<real>, demand: seq<real>, costs: seq<seq<real>>)
    requires WellFormed(supply, demand, costs) && Sum(supply) == Sum(demand)
    requires Whole(supply) && Whole(demand)
    ensures var plan := Solve(supply, demand, costs).alloc;
            IsGrid(plan, |supply|, |demand|)
            && (forall i :: 0 <= i < |supply| ==> Sum(plan[i]) == supply[i])
            && (forall j :: 0 <= j < |demand| ==> Sum(Column(plan, j)) == demand[j])
  {
    var st := Initial(supply, demand);
    InitialInv(supply, demand, costs);
    RunKeepsInv(supply, demand, costs, st);
    RunKeepsWhole(costs, st);
    WholeRemaindersVanish(supply, demand, Run(costs, st));
  }
}
