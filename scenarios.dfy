/**
 * Concrete runs of the algorithm: a one-cell problem whose plan the general
 * lemmas fix completely, and a problem with negative unit costs on which the
 * loop, as the code is written, stops making progress.
 */
module Scenarios {
  import opened Lines
  import opened Vogel

  /**
   * One origin and one destination with the same whole quantity: the plan
   * ships all of it along the only cell.
   */
  lemma OneCellPlan(supply: seq<real>, demand: seq<real>, costs: seq<seq<real>>)
    requires WellFormed(supply, demand, costs) && |supply| == 1 && demand == supply && Whole(supply)
    ensures Solve(supply, demand, costs).alloc == [[supply[0]]]
  {
    SolveWholeBalanced(supply, demand, costs);
    var plan := Solve(supply, demand, costs).alloc;
    assert Sum(plan[0]) == plan[0][0];
    assert plan[0] == [supply[0]];
  }

  /** Ten units from the only origin to the only destination: all ten go along the only cell. */
  lemma SingleCellPlan()
    ensures Solve([10.0], [10.0], [[3.0]]).alloc == [[10.0]]
  {
    var supply, costs := [10.0], [[3.0]];
    assert NonNegative(costs[0]);
    OneCellPlan(supply, supply, costs);
  }

  const NegativeCosts: seq<seq<real>> := [[-5.0], [-5.0]]

  /** The penalty list of the second pass: the exhausted origin's sentinel, then -5 and -5. */
  lemma StallPenalties()
    ensures var s, d := [0.0, 10.0], [5.0];
            s[1] > 0.0 && d[0] > 0.0
            && Penalties(NegativeCosts, s, d) == [Penalty(Sentinel, Row, 0), Penalty(-5.0, Row, 1), Penalty(-5.0, Col, 0)]
  {
    var s, d := [0.0, 10.0], [5.0];
    assert ActiveCosts([-5.0], d) == [-5.0];
    assert Column(NegativeCosts, 0) == [-5.0, -5.0];
    assert ActiveCosts([-5.0, -5.0], s) == [-5.0];
  }

  /**
   * The state after the first pass on supply [10, 10], demand [15] and unit
   * costs -5 (the destination's penalty 0 beats the origins' -5, and 10
   * units go along cell (0, 0)) is supply [0, 10], demand [5].
   * Second pass: origin 0 is exhausted and its sentinel -1 beats the active
   * lines' penalty -5, so the exhausted origin wins. The quantity shipped is
   * min(0, 5) = 0, the 10 units already in cell (0, 0) are overwritten by 0,
   * the remainders do not change and the loop guard still holds: the same
   * pass repeats for ever.
   */
  lemma NegativeCostStall()
    ensures var s, d := [0.0, 10.0], [5.0];
            var st := State(s, d, [[10.0], [0.0]]);
            s[1] > 0.0 && d[0] > 0.0
            && Choose(NegativeCosts, s, d) == Cell(0, 0)
            && Ship(st, Cell(0, 0)) == State(s, d, [[0.0], [0.0]])
            && Running(st) && Running(Ship(st, Cell(0, 0)))
  {
    var s, d := [0.0, 10.0], [5.0];
    StallPenalties();
    assert FirstMax([Penalty(Sentinel, Row, 0), Penalty(-5.0, Row, 1), Penalty(-5.0, Col, 0)]) == 0;
    assert Cheapest(NegativeCosts[0], d) == 0;
    var st := State(s, d, [[10.0], [0.0]]);
    assert Least(s[0], d[0]) == 0.0;
    assert s[0 := s[0] - 0.0] == s;
    assert d[0 := d[0] - 0.0] == d;
    assert st.alloc[0][0 := 0.0] == [0.0];
    assert st.alloc[0 := [0.0]] == [[0.0], [0.0]];
    assert Sum(s) == 10.0;
    assert Sum(d) == 5.0;
  }
}
