/**
 * The total transport cost the caller reports for a plan: the grid of
 * per-cell charges (shipped quantity times unit cost, cell by cell) summed
 * over every cell.
 */
module Cost {
  import opened Lines
  import opened Vogel

  /** The two grids have the same shape, row by row. */
  predicate SameShape(alloc: seq<seq<real>>, costs: seq<seq<real>>)
  {
    |alloc| == |costs| && forall i :: 0 <= i < |alloc| ==> |alloc[i]| == |costs[i]|
  }

  /** The element-wise product of the plan and the unit costs. */
  function Charges(alloc: seq<seq<real>>, costs: seq<seq<real>>): (m: seq<seq<real>>)
    requires SameShape(alloc, costs)
    ensures SameShape(m, alloc)
    ensures forall i, j :: 0 <= i < |m| && 0 <= j < |m[i]| ==> m[i][j] == alloc[i][j] * costs[i][j]
  {
    seq(|alloc|, i requires 0 <= i < |alloc| =>
      seq(|alloc[i]|, j requires 0 <= j < |alloc[i]| => alloc[i][j] * costs[i][j]))
  }

  /** Sum over all cells of quantity times unit cost. */
  function TotalCost(alloc: seq<seq<real>>, costs: seq<seq<real>>): real
    requires SameShape(alloc, costs)
  {
    Total(Charges(alloc, costs))
  }

  lemma {:induction false} TotalNonNegative(m: seq<seq<real>>)
    requires NonNegativeGrid(m)
    ensures Total(m) >= 0.0
  {
    if m != [] {
      SumNonNegative(m[0]);
      TotalNonNegative(m[1..]);
    }
  }

  /** No negative shipment and no negative unit cost: the total cost is not negative. */
  lemma TotalCostNonNegative(alloc: seq<seq<real>>, costs: seq<seq<real>>)
    requires SameShape(alloc, costs) && NonNegativeGrid(alloc) && NonNegativeGrid(costs)
    ensures TotalCost(alloc, costs) >= 0.0
  {
    var m := Charges(alloc, costs);
    forall i | 0 <= i < |m| ensures NonNegative(m[i]) {
      assert NonNegative(alloc[i]) && NonNegative(costs[i]);
    }
    TotalNonNegative(m);
  }

  /** A plan with nothing shipped costs nothing. */
  lemma TotalCostOfZeros(alloc: seq<seq<real>>, costs: seq<seq<real>>)
    requires SameShape(alloc, costs)
    requires forall i, j :: 0 <= i < |alloc| && 0 <= j < |alloc[i]| ==> alloc[i][j] == 0.0
    ensures TotalCost(alloc, costs) == 0.0
  {
    TotalOfZeros(Charges(alloc, costs));
  }

  /** Writing `v` into an empty cell adds `v` times that cell's unit cost. */
  lemma TotalCostOfWrite(alloc: seq<seq<real>>, costs: seq<seq<real>>, r: nat, k: nat, v: real)
    requires SameShape(alloc, costs) && r < |alloc| && k < |alloc[r]| && alloc[r][k] == 0.0
    ensures SameShape(alloc[r := alloc[r][k := v]], costs)
    ensures TotalCost(alloc[r := alloc[r][k := v]], costs) == TotalCost(alloc, costs) + v * costs[r][k]
  {
    var before := Charges(alloc, costs);
    var after := Charges(alloc[r := alloc[r][k := v]], costs);
    var charge := v * costs[r][k];
    forall j | 0 <= j < |after[r]| ensures after[r][j] == before[r][k := charge][j] {
    }
    assert after[r] == before[r][k := charge];
    assert before[r][k] == 0.0;
    assert after == before[r := before[r][k := charge]];
    SumUpdate(before[r], k, charge);
    TotalUpdate(before, r, before[r][k := charge]);
  }

  /**
   * Shipping along a cell that has not been written (as every pass does,
   * see `StepWritesEmptyCell`) adds to the total cost exactly the shipped
   * quantity times that cell's unit cost.
   */
  lemma TotalCostOfShip(costs: seq<seq<real>>, st: State, c: Cell)
    requires Shippable(st, c) && IsGrid(costs, |st.s|, |st.d|)
    ensures SameShape(st.alloc, costs) && SameShape(Ship(st, c).alloc, costs)
    ensures TotalCost(Ship(st, c).alloc, costs)
         == TotalCost(st.alloc, costs) + Least(st.s[c.row], st.d[c.col]) * costs[c.row][c.col]
  {
    TotalCostOfWrite(st.alloc, costs, c.row, c.col, Least(st.s[c.row], st.d[c.col]));
  }

  /**
   * Each pass raises the total cost by the quantity it ships times the unit
   * cost of the cell `c` it chooses: the write at that cell lands on a zero.
   */
  lemma TotalCostOfStep(costs: seq<seq<real>>, st: State, c: Cell)
    requires Ready(costs, st) && Untouched(st) && Running(st)
    requires HasActive(st.s) && HasActive(st.d) && c == Choose(costs, st.s, st.d)
    ensures SameShape(st.alloc, costs) && SameShape(Step(costs, st).alloc, costs)
    ensures TotalCost(Step(costs, st).alloc, costs)
         == TotalCost(st.alloc, costs) + Least(st.s[c.row], st.d[c.col]) * costs[c.row][c.col]
  {
    StepProgress(costs, st);
    TotalCostOfShip(costs, st, c);
  }

  /** The reported total cost of the algorithm's plan is not negative. */
  lemma SolveCostNonNegative(supply: seq<real>, demand: seq<real>, costs: seq<seq<real>>)
    requires WellFormed(supply, demand, costs)
    ensures SameShape(Solve(supply, demand, costs).alloc, costs)
    ensures TotalCost(Solve(supply, demand, costs).alloc, costs) >= 0.0
  {
    SolveFeasible(supply, demand, costs);
    TotalCostNonNegative(Solve(supply, demand, costs).alloc, costs);
  }
}
