/**
 * Pure operations on one line (a row or a column) of the transportation
 * problem: sums, the filter that keeps the costs of still-active
 * counterparts, the two smallest values of a list, the Vogel penalty of a
 * line, and the first-seen cheapest active cell.
 *
 * A remaining quantity (supply of an origin, demand of a destination) is
 * "active" when it is strictly positive.
 */
module Lines {

  /** Sum of a list of quantities. */
  function Sum(xs: seq<real>): real
  {
    if xs == [] then 0.0 else xs[0] + Sum(xs[1..])
  }

  predicate NonNegative(xs: seq<real>)
  {
    forall k :: 0 <= k < |xs| ==> xs[k] >= 0.0
  }

  /** Every entry is a whole number. */
  predicate Whole(xs: seq<real>)
  {
    forall k :: 0 <= k < |xs| ==> xs[k].Floor as real == xs[k]
  }

  /** Some entry of `rem` is still active. */
  predicate HasActive(rem: seq<real>)
  {
    exists k :: 0 <= k < |rem| && rem[k] > 0.0
  }

  /** Number of active entries. */
  function ActiveCount(rem: seq<real>): (n: nat)
    ensures n <= |rem|
    ensures n == 0 <==> !HasActive(rem)
  {
    if rem == [] then 0
    else
      assert forall k :: 1 <= k < |rem| ==> rem[k] == rem[1..][k - 1];
      (if rem[0] > 0.0 then 1 else 0) + ActiveCount(rem[1..])
  }

  /** Smaller of two quantities. */
  function Least(a: real, b: real): (m: real)
    ensures m <= a && m <= b && (m == a || m == b)
  {
    if a <= b then a else b
  }

  /**
   * The costs of `line` at the positions whose remaining quantity is active,
   * in index order (the list comprehension that builds `row_c` / `col_c`).
   */
  function ActiveCosts(line: seq<real>, rem: seq<real>): (r: seq<real>)
    requires |line| == |rem|
  {
    if line == [] then []
    else (if rem[0] > 0.0 then [line[0]] else []) + ActiveCosts(line[1..], rem[1..])
  }

  /** The smallest value of a non-empty list (`sorted(xs)[0]`). */
  function Min(xs: seq<real>): (m: real)
    requires xs != []
    ensures m in xs
    ensures forall x :: x in xs ==> m <= x
  {
    if |xs| == 1 then xs[0]
    else
      assert xs == [xs[0]] + xs[1..];
      var rest := Min(xs[1..]);
      if xs[0] <= rest then xs[0] else rest
  }

  /** `xs` with the first occurrence of `v` taken out. */
  function Without(xs: seq<real>, v: real): (r: seq<real>)
    requires v in xs
    ensures |r| == |xs| - 1
    ensures multiset(r) == multiset(xs) - multiset{v}
  {
    assert xs == [xs[0]] + xs[1..];
    if xs[0] == v then xs[1..]
    else
      [xs[0]] + Without(xs[1..], v)
  }

  /**
   * The second value of `sorted(xs)`: the smallest value that is left once
   * one copy of the minimum is taken out (it equals the minimum when the
   * minimum occurs twice).
   */
  function SecondSmallest(xs: seq<real>): (r: real)
    requires |xs| >= 2
    ensures r in multiset(xs) - multiset{Min(xs)}
    ensures forall x :: x in multiset(xs) - multiset{Min(xs)} ==> r <= x
  {
    var rest := Without(xs, Min(xs));
    assert forall x :: x in multiset(rest) <==> x in rest;
    Min(rest)
  }

  /**
   * Vogel penalty of a line from the costs of its active counterparts: the
   * gap between the two smallest costs, or the single cost when only one
   * counterpart is active.
   */
  function Gap(xs: seq<real>): (r: real)
    requires xs != []
    ensures |xs| == 1 ==> r == xs[0]
    ensures |xs| >= 2 ==> r >= 0.0
  {
    if |xs| > 1 then
      var second := SecondSmallest(xs);
      assert second in multiset(xs);
      assert second in xs;
      second - Min(xs)
    else
      assert xs[0] in xs;
      xs[0]
  }

  /**
   * Index of the cheapest active position of `line`, the first one in index
   * order when several are equally cheap: a scan that replaces its current
   * best only by a strictly cheaper active position.
   */
  function Cheapest(line: seq<real>, rem: seq<real>): (k: nat)
    requires |line| == |rem| && HasActive(rem)
    ensures k < |line| && rem[k] > 0.0
    ensures forall j :: 0 <= j < |line| && rem[j] > 0.0 ==> line[k] <= line[j]
    ensures forall j :: 0 <= j < k && rem[j] > 0.0 ==> line[k] < line[j]
    decreases |line|
  {
    var n := |line| - 1;
    if HasActive(rem[..n]) then
      var k := Cheapest(line[..n], rem[..n]);
      if rem[n] > 0.0 && line[n] < line[k] then n else k
    else
      n
  }

  lemma {:induction false} SumUpdate(xs: seq<real>, i: nat, v: real)
    requires i < |xs|
    ensures Sum(xs[i := v]) == Sum(xs) - xs[i] + v
  {
    if i == 0 {
      assert xs[i := v][1..] == xs[1..];
    } else {
      SumUpdate(xs[1..], i - 1, v);
      assert xs[i := v][1..] == xs[1..][i - 1 := v];
    }
  }

  lemma {:induction false} SumNonNegative(xs: seq<real>)
    requires NonNegative(xs)
    ensures Sum(xs) >= 0.0
  {
    if xs != [] {
      SumNonNegative(xs[1..]);
    }
  }

  /** Sums and differences of whole numbers are whole. */
  lemma WholeArith(a: real, b: real)
    requires a.Floor as real == a && b.Floor as real == b
    ensures (a + b).Floor as real == a + b
    ensures (a - b).Floor as real == a - b
  {
    var m, n := a.Floor, b.Floor;
    var sum, diff := m + n, m - n;
    assert a + b == sum as real;
    assert a - b == diff as real;
    assert (sum as real).Floor == sum;
    assert (diff as real).Floor == diff;
  }

  lemma {:induction false} SumWhole(xs: seq<real>)
    requires Whole(xs)
    ensures Sum(xs).Floor as real == Sum(xs)
  {
    if xs != [] {
      SumWhole(xs[1..]);
      WholeArith(xs[0], Sum(xs[1..]));
    }
  }

  /** A non-negative list whose sum is positive has an active entry. */
  lemma {:induction false} PositiveSumHasActive(xs: seq<real>)
    requires NonNegative(xs) && Sum(xs) > 0.0
    ensures HasActive(xs)
  {
    if xs[0] <= 0.0 {
      PositiveSumHasActive(xs[1..]);
      var k :| 0 <= k < |xs[1..]| && xs[1..][k] > 0.0;
      assert xs[k + 1] > 0.0;
    }
  }

  /** A non-negative list that sums to zero is all zero. */
  lemma {:induction false} ZeroSumAllZero(xs: seq<real>)
    requires NonNegative(xs) && Sum(xs) == 0.0
    ensures forall k :: 0 <= k < |xs| ==> xs[k] == 0.0
  {
    if xs != [] {
      SumNonNegative(xs[1..]);
      ZeroSumAllZero(xs[1..]);
      assert forall k :: 1 <= k < |xs| ==> xs[k] == xs[1..][k - 1];
    }
  }

  lemma {:induction false} ActiveCountUpdate(xs: seq<real>, i: nat, v: real)
    requires i < |xs|
    ensures ActiveCount(xs[i := v])
         == ActiveCount(xs) - (if xs[i] > 0.0 then 1 else 0) + (if v > 0.0 then 1 else 0)
  {
    if i == 0 {
      assert xs[i := v][1..] == xs[1..];
    } else {
      ActiveCountUpdate(xs[1..], i - 1, v);
      assert xs[i := v][1..] == xs[1..][i - 1 := v];
    }
  }

  /** The filtered list has one entry per active position. */
  lemma {:induction false} ActiveCostsLength(line: seq<real>, rem: seq<real>)
    requires |line| == |rem|
    ensures |ActiveCosts(line, rem)| == ActiveCount(rem)
  {
    if line != [] {
      ActiveCostsLength(line[1..], rem[1..]);
    }
  }

  /** A line with an active counterpart has some active cost, so `row_c[0]` exists. */
  lemma ActiveCostsNonEmpty(line: seq<real>, rem: seq<real>)
    requires |line| == |rem| && HasActive(rem)
    ensures ActiveCosts(line, rem) != []
  {
    ActiveCostsLength(line, rem);
  }

  /** The active costs are exactly the costs at active positions. */
  lemma {:induction false} ActiveCostsMembers(line: seq<real>, rem: seq<real>)
    requires |line| == |rem|
    ensures forall j :: 0 <= j < |line| && rem[j] > 0.0 ==> line[j] in ActiveCosts(line, rem)
    ensures forall x :: x in ActiveCosts(line, rem) ==> exists j :: 0 <= j < |line| && rem[j] > 0.0 && line[j] == x
  {
    if line != [] {
      ActiveCostsMembers(line[1..], rem[1..]);
      assert forall j :: 1 <= j < |line| ==> line[j] == line[1..][j - 1] && rem[j] == rem[1..][j - 1];
    }
  }

  /**
   * Switching off one active position removes exactly that position's cost
   * from the list of active costs.
   */
  lemma {:induction false} ActiveCostsDrop(line: seq<real>, rem: seq<real>, p: nat)
    requires |line| == |rem| && p < |rem| && rem[p] > 0.0
    ensures multiset(ActiveCosts(line, rem))
         == multiset(ActiveCosts(line, rem[p := 0.0])) + multiset{line[p]}
  {
    if p == 0 {
      assert rem[p := 0.0][1..] == rem[1..];
    } else {
      ActiveCostsDrop(line[1..], rem[1..], p - 1);
      assert rem[p := 0.0][1..] == rem[1..][p - 1 := 0.0];
    }
  }

  /** With non-negative costs, the penalty computed from the active costs is non-negative. */
  lemma ActiveGapNonNegative(line: seq<real>, rem: seq<real>)
    requires |line| == |rem| && NonNegative(line) && HasActive(rem)
    ensures ActiveCosts(line, rem) != []
    ensures Gap(ActiveCosts(line, rem)) >= 0.0
  {
    var xs := ActiveCosts(line, rem);
    ActiveCostsMembers(line, rem);
    var p :| 0 <= p < |rem| && rem[p] > 0.0;
    assert line[p] in xs;
    if |xs| == 1 {
      assert xs[0] in xs;
      var j :| 0 <= j < |line| && rem[j] > 0.0 && line[j] == xs[0];
    }
  }

  /** The smallest active cost is the cost of the cheapest active position. */
  lemma MinActiveCosts(line: seq<real>, rem: seq<real>)
    requires |line| == |rem| && HasActive(rem)
    ensures ActiveCosts(line, rem) != []
    ensures Min(ActiveCosts(line, rem)) == line[Cheapest(line, rem)]
  {
    var xs := ActiveCosts(line, rem);
    ActiveCostsMembers(line, rem);
    var p := Cheapest(line, rem);
    assert line[p] in xs;
    var m := Min(xs);
    var j :| 0 <= j < |line| && rem[j] > 0.0 && line[j] == m;
  }

  /**
   * The penalty of a list, given what is left of it once one copy of its
   * minimum is taken out: the minimum of the rest minus the minimum, or the
   * minimum itself when nothing is left.
   */
  lemma GapFromRest(xs: seq<real>, ys: seq<real>)
    requires xs != [] && multiset(xs) == multiset(ys) + multiset{Min(xs)}
    ensures Gap(xs) == if ys == [] then Min(xs) else Min(ys) - Min(xs)
  {
    var m := Min(xs);
    assert |xs| == |multiset(xs)| == |multiset(ys)| + 1 == |ys| + 1;
    assert multiset(xs) - multiset{m} == multiset(ys);
    if ys == [] {
      assert xs[0] in multiset(xs);
    } else {
      var second := SecondSmallest(xs);
      var least := Min(ys);
      assert second in multiset(ys);
      assert second in ys;
      assert least in multiset(ys);
    }
  }

  /**
   * The penalty of an active line, stated without lists: the cost of the
   * cheapest active position other than the cheapest one, minus the cost of
   * the cheapest one; or the cost of the cheapest one when it is the only
   * active position.
   */
  lemma ActiveGapIsCheapestPair(line: seq<real>, rem: seq<real>)
    requires |line| == |rem| && HasActive(rem)
    ensures ActiveCosts(line, rem) != []
    ensures var p := Cheapest(line, rem);
            var rest := rem[p := 0.0];
            Gap(ActiveCosts(line, rem))
              == if HasActive(rest) then line[Cheapest(line, rest)] - line[p] else line[p]
  {
    var p := Cheapest(line, rem);
    var rest := rem[p := 0.0];
    var xs := ActiveCosts(line, rem);
    var ys := ActiveCosts(line, rest);
    MinActiveCosts(line, rem);
    ActiveCostsDrop(line, rem, p);
    GapFromRest(xs, ys);
    if HasActive(rest) {
      MinActiveCosts(line, rest);
    } else {
      ActiveCostsLength(line, rest);
    }
  }
}
