/**
 * The algorithm as the program runs it: a loop over working copies of the
 * supply and demand lists that, on every pass, builds the penalty list with
 * two `for` loops, picks the winning line and its cheapest active cell, and
 * writes the shipped quantity into an allocation grid held in a
 * two-dimensional array. Each method is proved against the specification in
 * module `Vogel`.
 */
module Allocator {
  import opened Lines
  import opened Vogel

  /** The origins' records of one pass, in index order; an exhausted origin gets the sentinel. */
  method RowPenalties(costs: seq<seq<real>>, s: seq<real>, d: seq<real>) returns (penalties: seq<Penalty>)
    requires IsGrid(costs, |s|, |d|) && HasActive(d)
    ensures |penalties| == |s|
    ensures forall i :: 0 <= i < |s| ==> penalties[i] == RowRecord(costs, s, d, i)
  {
    penalties := [];
    for i := 0 to |s|
      invariant |penalties| == i
      invariant forall k :: 0 <= k < i ==> penalties[k] == RowRecord(costs, s, d, k)
    {
      penalties := penalties + [RowRecord(costs, s, d, i)];
    }
  }

  /** The destinations' records of one pass, in index order; an exhausted destination gets the sentinel. */
  method ColumnPenalties(costs: seq<seq<real>>, s: seq<real>, d: seq<real>) returns (penalties: seq<Penalty>)
    requires IsGrid(costs, |s|, |d|) && HasActive(s)
    ensures |penalties| == |d|
    ensures forall j :: 0 <= j < |d| ==> penalties[j] == ColRecord(costs, s, d, j)
  {
    penalties := [];
    for j := 0 to |d|
      invariant |penalties| == j
      invariant forall k :: 0 <= k < j ==> penalties[k] == ColRecord(costs, s, d, k)
    {
      penalties := penalties + [ColRecord(costs, s, d, j)];
    }
  }

  /**
   * The cell of one pass: the first record with the largest penalty wins,
   * and in the winning line the first cheapest cell whose other line is
   * still active is taken.
   */
  method SelectCell(costs: seq<seq<real>>, s: seq<real>, d: seq<real>) returns (row: nat, col: nat)
    requires IsGrid(costs, |s|, |d|) && HasActive(s) && HasActive(d)
    ensures Cell(row, col) == Choose(costs, s, d)
  {
    var rowPenalties := RowPenalties(costs, s, d);
    var colPenalties := ColumnPenalties(costs, s, d);
    var penalties := rowPenalties + colPenalties;
    PenaltiesByRecords(costs, s, d, rowPenalties, colPenalties);
    var winner := penalties[FirstMax(penalties)];
    if winner.axis == Row {
      row := winner.index;
      col := Cheapest(costs[row], d);
    } else {
      col := winner.index;
      row := Cheapest(Column(costs, col), s);
    }
  }

  /** The allocation grid holds the same quantities as a grid of the specification. */
  ghost predicate Holds(allocation: array2<real>, plan: seq<seq<real>>)
    reads allocation
  {
    IsGrid(plan, allocation.Length0, allocation.Length1)
    && forall i, j :: 0 <= i < allocation.Length0 && 0 <= j < allocation.Length1
         ==> allocation[i, j] == plan[i][j]
  }

  /**
   * One pass of the loop: choose the cell, then ship along it. The working
   * lists and the grid end as the specification's `Step` says.
   */
  method Pass(costs: seq<seq<real>>, sCurr: seq<real>, dCurr: seq<real>, allocation: array2<real>, ghost st: State)
      returns (sNext: seq<real>, dNext: seq<real>)
    requires Ready(costs, st) && Running(st) && st.s == sCurr && st.d == dCurr
    requires allocation.Length0 == |sCurr| && allocation.Length1 == |dCurr|
    requires Holds(allocation, st.alloc)
    modifies allocation
    ensures HasActive(st.s) && HasActive(st.d)
    ensures sNext == Step(costs, st).s && dNext == Step(costs, st).d
    ensures Holds(allocation, Step(costs, st).alloc)
  {
    PositiveSumHasActive(sCurr);
    PositiveSumHasActive(dCurr);
    var row, col := SelectCell(costs, sCurr, dCurr);
    sNext, dNext := ShipAlong(sCurr, dCurr, allocation, row, col, st);
  }

  /**
   * The allocation of one pass along a chosen cell: the lesser of its two
   * remainders is written into the cell and subtracted from both sides. The
   * working lists and the grid end as the specification's `Ship` says.
   */
  method ShipAlong(sCurr: seq<real>, dCurr: seq<real>, allocation: array2<real>, row: nat, col: nat, ghost st: State)
      returns (sNext: seq<real>, dNext: seq<real>)
    requires st.s == sCurr && st.d == dCurr && row < |sCurr| && col < |dCurr|
    requires allocation.Length0 == |sCurr| && allocation.Length1 == |dCurr|
    requires Holds(allocation, st.alloc)
    modifies allocation
    ensures sNext == Ship(st, Cell(row, col)).s && dNext == Ship(st, Cell(row, col)).d
    ensures Holds(allocation, Ship(st, Cell(row, col)).alloc)
  {
    ghost var next := Ship(st, Cell(row, col));
    var qty := Least(sCurr[row], dCurr[col]);
    allocation[row, col] := qty;
    sNext := sCurr[row := sCurr[row] - qty];
    dNext := dCurr[col := dCurr[col] - qty];
    assert next.alloc[row] == st.alloc[row][col := qty];
  }

  /**
   * Vogel's Approximation Method. The result is a fresh grid with one row
   * per origin and one column per destination, equal cell by cell to the
   * plan of the specification (`Solve`), with no negative entry.
   */
  method Allocate(supply: seq<real>, demand: seq<real>, costs: seq<seq<real>>)
      returns (allocation: array2<real>, ghost passes: nat)
    requires WellFormed(supply, demand, costs)
    ensures fresh(allocation)
    ensures allocation.Length0 == |supply| && allocation.Length1 == |demand|
    ensures Holds(allocation, Solve(supply, demand, costs).alloc)
    ensures forall i, j :: 0 <= i < |supply| && 0 <= j < |demand| ==> allocation[i, j] >= 0.0
    ensures passes == Passes(costs, Initial(supply, demand))
    ensures passes == 0 || passes <= |supply| + |demand| - 1
  {
    allocation := new real[|supply|, |demand|]((i, j) => 0.0);
    var sCurr, dCurr := supply, demand;
    ghost var st := Initial(supply, demand);
    passes := 0;
    ghost var total := Passes(costs, st);
    InitialInv(supply, demand, costs);
    SolvePasses(supply, demand, costs);
    while Sum(sCurr) > Tolerance && Sum(dCurr) > Tolerance
      invariant st.s == sCurr && st.d == dCurr
      invariant Inv(supply, demand, costs, st)
      invariant Run(costs, st) == Solve(supply, demand, costs)
      invariant Holds(allocation, st.alloc)
      invariant passes + Passes(costs, st) == total
      decreases ActiveCount(sCurr) + ActiveCount(dCurr)
    {
      StepProgress(costs, st);
      PassesUnfold(costs, st);
      StepPreservesInv(supply, demand, costs, st);
      sCurr, dCurr := Pass(costs, sCurr, dCurr, allocation, st);
      st := Step(costs, st);
      passes := passes + 1;
    }
    PassesUnfold(costs, st);
    forall i, j | 0 <= i < |supply| && 0 <= j < |demand| ensures allocation[i, j] >= 0.0 {
      assert NonNegative(st.alloc[i]);
    }
  }
}
