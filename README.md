# Vogel's Approximation Method — a verified model

This project models the allocation core of the Vogel transport optimizer,
`vogel_approximation_method` in `VAM.py`, together with the total-cost figure
the application derives from its result. Given the supplies of R origins, the
demands of C destinations and an R×C grid of unit costs, the algorithm works
on copies of the supply and demand lists. On every pass it:

1. gives each origin and each destination a penalty. For an active line
   (remaining quantity strictly positive) the penalty is the gap between the
   two smallest costs towards the active lines of the other side, or that
   single cost when only one is active. An exhausted line gets the sentinel −1.
2. takes the first record with the largest penalty (origins come first, then
   destinations).
3. takes, in the winning line, the first cheapest cell whose other line is
   still active.
4. writes `min(remaining supply, remaining demand)` into that cell and
   subtracts it from both sides.

It stops as soon as the remaining supply total or the remaining demand total
is at most 0.01.

The project has five modules:

- `Lines` (`lines.dfy`): pure operations on one row or column. These are the
  filter of active costs, the two smallest values, the penalty `Gap`, and the
  first-seen cheapest active position `Cheapest`.
- `Vogel` (`vogel.dfy`): the algorithm as a specification.
  - The penalty list, the first-max winner `FirstMax` and the chosen cell
    `Choose`.
  - One pass: `Ship` along a cell, and `Step`, which chooses a cell and ships
    along it.
  - The run to the loop's stop, `Run` and `Solve`, and the pass count
    `Passes`.
  - Lemmas about the run: the loop invariant, progress and a bound on the
    number of passes, the sentinel never winning, single writes, conservation
    and the balanced case.
- `Cost` (`cost.dfy`): the element-wise product of plan and costs and its sum.
  It also shows how one pass changes the total cost.
- `Allocator` (`allocator.dfy`): the program's imperative form.
  - Two `for` loops build the penalty records.
  - A `while` loop works on the supply and demand lists.
  - The allocation grid is a two-dimensional array, written one cell per pass.
  - Each method is proved equal to the specification in `Vogel`. The main
    loop's invariant is the specification's invariant `Inv`.
- `Scenarios` (`scenarios.dfy`): concrete inputs. A one-cell problem whose
  plan the general lemmas fix, and a problem with negative unit costs on
  which the loop stalls (see Findings below).

Quantities are exact reals. The tolerance 0.01 is the constant
`Vogel.Tolerance` and the sentinel −1 is `Vogel.Sentinel`.

The code fixes these details, and the model follows them:

- A line counts as active when its remainder is strictly positive
  (`VAM.py:18`, `:19`, `:23`, `:24`, `:31`, `:34`). The tolerance is not the
  threshold here; it is used only in the loop guard.
- The loop continues only while both remaining totals exceed 0.01
  (`VAM.py:15`). It therefore stops when either total drops to 0.01 or below.
- The function validates nothing. Matching shapes and non-negative
  quantities and costs are the caller's obligation, stated as
  `Vogel.WellFormed`. Termination and "the sentinel never wins" rest on the
  costs being non-negative. With a negative cost the loop can stop making
  progress and never end: supply [10, 10], demand [15] and unit costs
  [[-5], [-5]] is such an input (see Findings below).
- Empty supply or demand lists are allowed: the loop does not run and the
  plan is empty or all zero.
- Whole-number supplies and demands are what the input form produces
  (`VAM.py:75`, `:78`). Non-negative costs likewise come from the form
  (`VAM.py:85`). `Vogel.SolveWholeBalanced` uses the whole-number fact.

## Model

| member | source | states |
|---|---|---|
| Lines.Sum | VAM.py:15 | the `sum` of the loop guard; defined by recursion, characterised by `SumUpdate`, `SumNonNegative`, `PositiveSumHasActive`, `ZeroSumAllZero` and `SumWhole` |
| Lines.Least | VAM.py:36 | the quantity of a pass, the lesser of the two remainders: no larger than either, and equal to one of them |
| Lines.ActiveCount | VAM.py:18 | the number of active entries is at most the length, and is zero exactly when no entry is strictly positive |
| Lines.ActiveCosts | VAM.py:19 | the comprehension building `row_c` / `col_c`: the costs at positions whose remainder is strictly positive, in index order; characterised by `ActiveCostsLength`, `ActiveCostsMembers` and `ActiveCostsDrop` |
| Lines.ActiveCostsLength | VAM.py:19 | the filtered cost list has exactly one entry per active counterpart |
| Lines.ActiveCostsNonEmpty | VAM.py:18-20 | a line with an active counterpart has some active cost, so `row_c[0]` and `col_c[0]` exist |
| Lines.ActiveCostsMembers | VAM.py:19 | a cost is in the filtered list if and only if it is the cost at some active position (both directions) |
| Lines.ActiveCostsDrop | VAM.py:19 | exhausting one active position removes exactly that position's cost from the filtered list (as multisets) |
| Lines.Min | VAM.py:20 | `sorted(xs)[0]`: a member of the list that is no larger than any member |
| Lines.Without | VAM.py:20 | removing one copy of a value shortens the list by one and removes exactly that one copy from its multiset |
| Lines.SecondSmallest | VAM.py:20 | `sorted(xs)[1]`: the smallest value of what is left once one copy of the minimum is removed, so it is the minimum again when the minimum occurs twice |
| Lines.Gap | VAM.py:20 | the penalty is the single cost when the list has one entry, and is never negative when it has two or more |
| Lines.GapFromRest | VAM.py:20 | the penalty is the minimum of the list without its minimum, minus the minimum; it is the minimum itself when nothing is left |
| Lines.ActiveGapNonNegative | VAM.py:18-20 | with non-negative costs, an active line always has some active cost (so `row_c[0]` exists) and its penalty is non-negative |
| Lines.ActiveGapIsCheapestPair | VAM.py:19-20 | an active line's penalty is the cost of the cheapest active cell other than the cheapest one minus the cheapest cost, or the cheapest cost when it is alone |
| Lines.Cheapest | VAM.py:31 | the position chosen in a line is active and no dearer than any active position, and strictly cheaper than every earlier active position (the first minimum wins) |
| Lines.MinActiveCosts | VAM.py:31 | the smallest active cost is the cost of the position `Cheapest` picks |
| Lines.PositiveSumHasActive | VAM.py:15 | a list whose total is positive has an active entry, so while the loop runs both sides have an active line |
| Lines.SumUpdate | VAM.py:37-39 | replacing one entry changes the total by the difference |
| Lines.ZeroSumAllZero | VAM.py:15 | non-negative entries summing to zero are all zero |
| Lines.SumWhole | VAM.py:15 | a sum of whole numbers is whole |
| Lines.ActiveCountUpdate | VAM.py:38-39 | exhausting an active entry lowers the active count by one |
| Vogel.Column | VAM.py:24 | the column has one entry per row, the entry of that row at the column's index |
| Vogel.Zeros | VAM.py:12 | `np.zeros`: a grid of the given shape whose every entry is zero |
| Vogel.Total | VAM.py:93 | the sum of every entry of a grid (`np.sum`); defined row by row, characterised by `TotalUpdate` and `TotalOfZeros` |
| Vogel.Initial | VAM.py:8-13 | the working state before the first pass: copies of supply and demand and the zero grid; `InitialInv` states that the loop invariant holds of it |
| Vogel.Running | VAM.py:15 | the loop guard: both remaining totals exceed `Tolerance`; `Run` ends where it is false, and `PositiveSumHasActive` gives both sides an active line while it holds |
| Vogel.RowRecord | VAM.py:17-21 | the record of one origin: the penalty of its active costs when its remainder is strictly positive, the sentinel −1 otherwise; characterised by `RowRecordSign` and `ActiveGapIsCheapestPair` |
| Vogel.ColRecord | VAM.py:22-26 | the record of one destination, the same way over its column; characterised by `ColRecordSign` and `ActiveGapIsCheapestPair` |
| Vogel.Penalties | VAM.py:16-26 | the list has one record per origin, in order, followed by one per destination; each record carries its line's penalty, or the sentinel for an exhausted line |
| Vogel.PenaltiesByRecords | VAM.py:16-26 | the origins' records followed by the destinations' records are exactly the penalty list |
| Vogel.RowRecordSign | VAM.py:17-21 | with non-negative costs an origin's penalty is non-negative if and only if the origin is active; an exhausted origin's penalty is the sentinel |
| Vogel.ColRecordSign | VAM.py:22-26 | the same for a destination |
| Vogel.FirstMax | VAM.py:28 | the winning record has a penalty at least as large as every record's, and strictly larger than every earlier record's (the first maximum wins) |
| Vogel.Choose | VAM.py:28-34 | the chosen cell is in the grid; it lies in the winning line, at the first cheapest active cell of that line |
| Vogel.ChosenCellIsActive | VAM.py:17-34 | while both sides have an active line, the chosen cell has an active origin and an active destination, so a sentinel never wins |
| Vogel.Ship | VAM.py:36-39 | shipping keeps the shape of lists and grid, and leaves the origin's or the destination's remainder at exactly zero, because the quantity is the lesser of the two |
| Vogel.Step | VAM.py:16-39 | one pass: `Ship` along the cell `Choose` picks; characterised by `StepProgress`, `StepWritesEmptyCell` and `StepPreservesInv` |
| Vogel.ShipProgress | VAM.py:36-39 | shipping along a cell with two active lines keeps remainders non-negative, exhausts at least one of the two lines, and lowers the number of active lines |
| Vogel.StepProgress | VAM.py:15-39 | a pass of the running loop ships along a cell with two active lines, exhausts one of them and lowers the number of active lines |
| Vogel.TotalUpdate | VAM.py:37 | replacing one row of a grid changes the grid total by the change of that row's sum |
| Vogel.ShipWritesEmptyCell | VAM.py:37 | the cell written was zero and receives a positive quantity, so the overwrite equals an addition; no other cell changes |
| Vogel.StepWritesEmptyCell | VAM.py:31-39 | the same for the cell a pass chooses: each cell is written at most once |
| Vogel.ShipKeepsRows | VAM.py:37-38 | each origin's shipped quantity plus its remainder stays equal to its supply |
| Vogel.ShipKeepsColumns | VAM.py:37-39 | each destination's received quantity plus its remainder stays equal to its demand |
| Vogel.ShipKeepsTotals | VAM.py:36-39 | total shipped plus each side's remaining total stays equal to that side's total |
| Vogel.ShipKeepsNonNegative | VAM.py:36-37 | no shipped quantity is negative |
| Vogel.ShipPreservesInv | VAM.py:36-39 | shipping along a cell with two active lines keeps the loop invariant (non-negativity, conservation, unwritten active cells) |
| Vogel.StepPreservesInv | VAM.py:15-39 | every pass keeps the loop invariant |
| Vogel.SumOfZeros | VAM.py:12 | a list of zeros sums to zero |
| Vogel.TotalOfZeros | VAM.py:12 | a grid of zeros sums to zero |
| Vogel.InitialInv | VAM.py:8-13 | the invariant holds for the copied lists and the zero grid |
| Vogel.Run | VAM.py:15-39 | the `while` loop: the state it stops in makes the loop guard false; termination by the number of active lines |
| Vogel.Passes | VAM.py:15-39 | the number of iterations the `while` loop makes; bounded by `PassesBound` and `SolvePasses`, and equal to `Allocate`'s count |
| Vogel.PassesUnfold | VAM.py:15 | a running loop makes one pass more than from the state after its first pass, and a stopped loop makes none |
| Vogel.RunKeepsInv | VAM.py:15-39 | the invariant holds when the loop stops, and the loop guard is then false |
| Vogel.PassesBound | VAM.py:15-39 | a running loop makes fewer passes than its number of active lines, and a stopped loop makes none |
| Vogel.Solve | VAM.py:7-40 | the state the whole algorithm ends in; characterised by `SolveFeasible`, `SolveBalanced`, `SolveSupplyShort`, `SolveDemandShort` and `SolveWholeBalanced` |
| Vogel.SolveFeasible | VAM.py:7-40 | the result has the problem's shape and no negative entry; no origin ships more than its supply and no destination receives more than its demand; one side's remainder is within the tolerance |
| Vogel.SolvePasses | VAM.py:7-40 | the loop makes at most R + C − 1 passes |
| Vogel.SolveBalanced | VAM.py:7-40 | when total supply equals total demand, the amount shipped is the total supply up to the tolerance |
| Vogel.SolveSupplyShort | VAM.py:15-39 | when total supply does not exceed total demand, the remaining supply ends within the tolerance, so all but 0.01 of the supply is shipped |
| Vogel.SolveDemandShort | VAM.py:15-39 | when total demand does not exceed total supply, the remaining demand ends within the tolerance, so all but 0.01 of the demand is delivered |
| Vogel.ShipKeepsWhole | VAM.py:36-39 | whole-number remainders stay whole |
| Vogel.RunKeepsWhole | VAM.py:15-39 | whole-number remainders are whole when the loop stops |
| Vogel.WholeRemaindersVanish | VAM.py:15 | whole, non-negative remainders with equal totals that stop the loop are all zero |
| Vogel.SolveWholeBalanced | VAM.py:7-40 | with whole-number, balanced supplies and demands, every origin ships exactly its supply and every destination receives exactly its demand |
| Cost.Charges | VAM.py:93 | `allocation * costs`: a grid of the same shape whose every cell is the quantity times the unit cost |
| Cost.TotalCost | VAM.py:93 | `np.sum(allocation * costs)`: the total of `Charges`; characterised by `TotalCostNonNegative`, `TotalCostOfZeros`, `TotalCostOfWrite` and `TotalCostOfStep` |
| Cost.TotalNonNegative | VAM.py:93 | a grid with no negative entry sums to a non-negative total |
| Cost.TotalCostNonNegative | VAM.py:93 | with no negative shipment and no negative unit cost, the total cost is non-negative |
| Cost.TotalCostOfZeros | VAM.py:93 | a plan that ships nothing costs nothing |
| Cost.TotalCostOfWrite | VAM.py:37 | writing a quantity into an empty cell raises the total cost by that quantity times the cell's unit cost |
| Cost.TotalCostOfShip | VAM.py:36-37 | shipping along an unwritten cell raises the total cost by the shipped quantity times that cell's unit cost |
| Cost.TotalCostOfStep | VAM.py:31-37 | each pass raises the total cost by the quantity it ships times the unit cost of the cell it chooses |
| Cost.SolveCostNonNegative | VAM.py:92-93 | the reported total cost of the algorithm's plan is non-negative |
| Allocator.RowPenalties | VAM.py:17-21 | the loop over origins produces, in order, each origin's penalty record, or the sentinel for an exhausted origin |
| Allocator.ColumnPenalties | VAM.py:22-26 | the loop over destinations produces, in order, each destination's penalty record, or the sentinel for an exhausted one |
| Allocator.SelectCell | VAM.py:16-34 | the cell selected from the built penalty list is the specification's `Choose` |
| Allocator.ShipAlong | VAM.py:36-39 | after writing the quantity and subtracting it from both sides, the lists and the array are the specification's `Ship` |
| Allocator.Pass | VAM.py:16-39 | one pass of the loop leaves the lists and the array as the specification's `Step` |
| Allocator.Allocate | VAM.py:7-40 | the returned fresh R×C array equals, cell by cell, the plan of `Solve`, and has no negative entry; the loop makes exactly `Passes` iterations, and no more than R + C − 1 |
| Scenarios.OneCellPlan | VAM.py:7-40 | one origin and one destination with the same whole quantity: the plan ships all of it along the only cell |
| Scenarios.SingleCellPlan | VAM.py:7-40 | one origin and one destination with ten units each: the plan ships all ten units along the only cell |
| Scenarios.StallPenalties | VAM.py:16-26 | with unit costs -5, supply [0, 10] and demand [5], the penalty list is the exhausted origin's sentinel −1, then -5 and -5 |
| Scenarios.NegativeCostStall | VAM.py:15-39 | on that state the sentinel wins, cell (0, 0) is chosen, the quantity is 0, the 10 units in the cell are overwritten by 0, the remainders do not change and the loop guard still holds |

`ShipAlong`, `Pass` and `Allocate` give the array's new state through
`Holds`. `Allocate`'s `ensures` ties the loop to `Solve` and its pass count to
`Passes`. Everything proved about `Solve` and `Passes` (`SolveFeasible`,
`SolvePasses`, `SolveBalanced`, `SolveSupplyShort`, `SolveDemandShort`,
`SolveWholeBalanced`, `SolveCostNonNegative`) therefore holds of the array the
method returns and of the number of iterations its loop makes.

## Findings

| source | as written | input that shows it | evidently intended | confidence | as-written member | corrected member |
|---|---|---|---|---|---|---|
| VAM.py:15-39 | with a negative unit cost the −1 sentinel of an exhausted line can beat every active line's penalty; the pass then ships min(0, x) = 0, overwrites the cell with 0 and leaves the remainders unchanged, so the loop never ends | supply [10, 10], demand [15], costs [[-5], [-5]]: after the first pass (10 units along cell (0, 0)) every pass chooses cell (0, 0) again and ships nothing | with the non-negative costs the input form enforces (VAM.py:85), the chosen cell always has two active lines and every pass exhausts one of them | not executed | Scenarios.NegativeCostStall | Vogel.ChosenCellIsActive |

The model keeps the code's definitions. The intended behaviour is obtained by
requiring non-negative costs (`Vogel.WellFormed`, `Vogel.Ready`). Under that
requirement `Vogel.ChosenCellIsActive` shows the sentinel never wins, and
`Vogel.StepProgress` and `Vogel.SolvePasses` show that every pass makes
progress and the loop ends.

## Left out

- The Streamlit interface (`VAM.py:43-125` except line 93): the sidebar, the
  input form, the table, the bar charts and the styling. These are
  presentation; the form is modelled only through the preconditions it
  guarantees.
- Floating point: quantities are exact reals. IEEE rounding, and the
  cumulative error that the 0.01 tolerance absorbs, are not modelled.
- The `float(...)` and `np.array(..., dtype=float)` conversions at
  `VAM.py:8-10`: the model takes reals directly.
- Input validation: the code does none. Malformed shapes or negative values
  are excluded by `Vogel.WellFormed` rather than given an error path.
- Balancing with a dummy origin or destination, and any optimality
  improvement (MODI or stepping stone): neither is in the code.
- Python's `sorted`, `max(..., key=...)` and `min(..., key=...)` are modelled
  by `Lines.Min`, `Lines.SecondSmallest`, `Vogel.FirstMax` and
  `Lines.Cheapest`, not by a sort.
- `Allocator.RowPenalties` and `Allocator.ColumnPenalties` append each line's
  record through `Vogel.RowRecord` and `Vogel.ColRecord`. The active/sentinel
  branch of `VAM.py:18-21` and `:23-26` is written in those functions rather
  than inline in the loop body.
- `Vogel.SolvePasses`: the bound R + C − 1 is proved for every input, not
  just balanced ones. Degenerate inputs that finish in fewer passes are not
  separately characterised.
- `Vogel.SolveBalanced`: with arbitrary real quantities it gives the shipped
  total only up to the tolerance, as the code's loop guard does. The exact
  per-line statement is `Vogel.SolveWholeBalanced`, for whole-number
  quantities.
