# Firefighter shift rostering, modelled in Dafny

The system schedules 20 firefighters over 3 weeks (21 days). A schedule is a
list of strings: `schedule[i][d]` is the shift of firefighter `i` on day `d`.
The shifts are `M` (morning), `A` (afternoon), `N` (night) and `F` (off duty).
A rule checker says whether a schedule obeys the labour rules C0-C8, and if
not, gives the first rule broken and why. A cost function prices a schedule
with a weekly cost table. Local search improves a schedule:

- a swap neighbourhood exchanges the rows of two firefighters;
- a variable neighbourhood descent (VND) moves to strictly cheaper neighbours
  until none is left;
- the destroy step of a large neighbourhood search blanks one firefighter's
  row in place.

The model has seven modules:

- `Runs` (`runs.dfy`): the cyclic run detector `consecutive_numbers`. Its
  result is characterised exactly by the predicate `IsRecordedRun`.
- `Roster` (`roster.dfy`): the shift letters and the fixed configuration of
  `SchedulingProblem.__init__`. It also holds each rule C0-C8 as a predicate
  on schedules, with `Feasible` their conjunction, and the reasons
  (`Violation`) the checker can give.
- `Feasibility` (`feasibility.dfy`): `is_feasible` as one method per rule,
  each with early returns and proved against its predicate. `IsFeasible`
  returns no reason exactly when the schedule is `Feasible`. Otherwise the
  reason belongs to the first failing rule and names a real violation.
- `Costs` (`costs.dfy`): `cost` as a double loop, proved equal to the sum
  `TotalCost`, with lemmas on that sum.
- `Neighbourhoods` (`neighbours.dfy`): `SwapNeighbourhood.neighbours` as
  nested loops, proved equal to `SwapNeighbours`. Lemmas give the number,
  order and shape of the candidates. They also prove the source's comment that
  every neighbour of a feasible schedule is feasible.
- `Descent` (`descent.dfy`): the descent loop of `vns.py`, as a method over a
  sequence of neighbourhood functions and a cost function. It is instantiated
  for the swap neighbourhood and the schedule cost.
- `Destroy` (`destroy.dfy`): `destroy_schedule`, which blanks one row of an
  array in place. The random index is a parameter.

`SchedulingProblem` never changes its fields after construction, so its
configuration is module constants. `Neighbourhood` is an interface with one
method, so a neighbourhood is a function value `Schedule --> seq<Schedule>`.
Schedules are values, except in `destroy_schedule`, which changes the caller's
list.

Two behaviours of the code are easy to miss:

- `consecutive_numbers` does not reduce starts modulo the length, and it
  records a run again on the second pass. On `AAAXXAAAXA` with elements `{A}`
  it returns `{5:3, 9:4, 15:3}` (`Runs.DocstringExample`).
- The swap neighbourhood does not remove duplicate candidates. Swapping two
  equal rows gives the original schedule, and two pairs can give the same
  schedule. `Neighbourhoods.SwapNeighboursShape` counts the duplicates.

## Model

| member | source | states |
|---|---|---|
| Runs.ConsecutiveNumbers | firefighter.py:13-53 | `s -> v` is in the result exactly when `IsRecordedRun` holds. That means: `1 <= s`, `1 <= v`, `s + v < 2 * length`, and the `v` items from scan position `s` (mod length) are in `elements`. The items just before and just after the run are not. A run still open when the scan ends is not recorded. If every item is in `elements`, the result is empty. |
| Runs.DocstringExample | firefighter.py:24-30 | On `AAAXXAAAXA`, length 10, elements `{A}`, the result is exactly `{5:3, 9:4, 15:3}`. The leading run at 0 and the run open at 19 are dropped. |
| Runs.ExampleStarts | firefighter.py:24-30 | On the docstring example, only starts 5, 9 and 15 satisfy the recorded-run condition. |
| Roster.RowRulesSeeOnlyHorizon | firefighter.py:104-213 | Two rows that agree on their first 21 days pass exactly the same per-row rules C1-C6 and C8. |
| Roster.WindowDecidesFeasible | firefighter.py:96-215 | Take two well-shaped schedules that agree on the first 20 rows over the first 21 days. They pass every rule alike and are feasible together: later rows and days are never read. |
| Feasibility.IsFeasible | firefighter.py:84-215 | No reason is returned exactly when every rule C0-C8 holds. Otherwise the reason's rule fails, every earlier rule holds, and the reason is the one the source reports (`Witnesses`): the first bad row, and within it the first bad day, the bad run of least start, or the first bad transition of the scan. |
| Feasibility.CheckShape | firefighter.py:96-102 | C0: no reason exactly when there are at least 20 rows and each of the first 20 has at least 21 days. Otherwise the reason gives the row count, or the first short row and its length. |
| Feasibility.CheckAlphabet | firefighter.py:104-111 | C1: no reason exactly when every day is M, A, N or F. Otherwise it gives the first bad (firefighter, day, letter) in row-major order. |
| Feasibility.CheckOffDuty | firefighter.py:113-123 | C2: no reason exactly when every row has exactly 7 `F` in days 0-20. Otherwise it gives the first bad row and its count. |
| Feasibility.FirstBadRun | firefighter.py:128-136 | Returns no run exactly when every recorded run has a length in `[lo, hi]`. Otherwise it returns the recorded run of least start whose length is outside (`FirstBadRunAt`). |
| Feasibility.CheckShiftRuns | firefighter.py:125-136 | C3: no reason exactly when every recorded run of each single work shift lasts 2 to 4 days. Otherwise it names the first row that has a bad run, a work shift with a bad run in that row, and that shift's bad run of least start. |
| Feasibility.CheckWorkRuns | firefighter.py:138-150 | C4: no reason exactly when every recorded run of work days lasts 3 to 6 days. Otherwise it names the first bad row and, in it, the bad run of least start. |
| Feasibility.CheckOffRuns | firefighter.py:152-162 | C5: no reason exactly when every recorded off-duty run lasts 1 to 3 days. Otherwise it names the first bad row and, in it, the bad run of least start. |
| Feasibility.CheckWeekend | firefighter.py:164-175 | C6: no reason exactly when every row has some week `w < 3` with days `5+7w` and `6+7w` both `F`. Otherwise it names the first row without one. |
| Feasibility.CheckStaffing | firefighter.py:177-186 | C7: no reason exactly when every day has at least 3 `M`, 4 `A` and 2 `N` among the first 20 rows. Otherwise it gives the first (shift, day) short of staff and its count. |
| Feasibility.ScanShiftOrder | firefighter.py:190-213 | C8 on one row: no result exactly when each pair of cyclically consecutive work days `p ... q` has `q` the successor of `p` (M, A, N, M), or `q = p` with no `F` between. Otherwise it returns the first scan day whose shift breaks this, with the previous work shift: every transition ending before it is allowed. |
| Feasibility.CheckShiftOrder | firefighter.py:188-213 | C8: no reason exactly when every row passes the shift-order rule. Otherwise it names the first bad row, the first bad scan day in it, and the offending transition. |
| Costs.Cost | firefighter.py:217-228 | The loop returns `TotalCost`: the sum over `i < 20` and `d < 21` of `costs[i][d % 7][schedule[i][d]]`. A letter absent from the day's map adds nothing. |
| Costs.RowCostNonNegative | firefighter.py:221-228 | A row priced by non-negative entries costs at least 0. |
| Costs.CostNonNegative | firefighter.py:217-228 | With a table of non-negative entries over work shifts, every schedule costs at least 0. |
| Costs.UnpricedRowCostsNothing | firefighter.py:224-227 | A row whose letters are missing from every day map (such as `F` or `O`) costs 0. |
| Costs.ReplaceRowCost | firefighter.py:221-228 | Replacing one row changes the cost by exactly the new row's cost minus the old row's cost. Rows past the first 20 change nothing. |
| Neighbourhoods.SwapRows | neighbours.py:28-32 | The candidate has the same length, row `i` is the old row `j` and vice versa, and every other row is unchanged. |
| Neighbourhoods.Neighbours | neighbours.py:23-37 | The nested loops return `SwapNeighbours(schedule, n)`: one swapped copy per pair `i < j < n`, in loop order. The caller's schedule is a value and is not changed. |
| Neighbourhoods.RowPairsComplete | neighbours.py:26 | The inner loop visits `j - i - 1` pairs, every `(i, b)` with `i < b < j`, in increasing `b`. |
| Neighbourhoods.PairsBeforeCount | neighbours.py:25-26 | After `i` outer iterations the loops have visited `i(2n - i - 1)/2` pairs. |
| Neighbourhoods.PairsBeforeComplete | neighbours.py:25-26 | Every pair `a < b < n` with `a < i` is visited. |
| Neighbourhoods.PairsBeforeOrdered | neighbours.py:25-26 | The pairs are visited in strictly increasing lexicographic order, so none twice. |
| Neighbourhoods.SwapNeighboursShape | neighbours.py:23-37 | There are exactly `n(n-1)/2` candidates. Candidate `q` is the schedule with the rows of the `q`-th pair exchanged, and the pairs come in lexicographic order. Every swap of rows `i < j < n` is among the candidates, and every candidate is such a swap. |
| Neighbourhoods.SwapKeepsStaffCount | neighbours.py:31-32 | Swapping two of the first 20 rows keeps, for every day and shift, the number of firefighters on that shift (C7's count). |
| Neighbourhoods.SwapPreservesFeasible | neighbours.py:33-35 | Swapping two of the first 20 rows of a feasible schedule gives a feasible schedule. |
| Neighbourhoods.SwapNeighboursFeasible | neighbours.py:33-35 | Every neighbour of a feasible schedule is feasible, for any `n <= 20`. This is the claim that makes the commented-out check unnecessary. |
| Descent.SelectImproving | vns.py:34-41 | Returns nothing exactly when no neighbour is strictly cheaper than the bound, and the cost stays the bound. Otherwise it returns a neighbour of least cost below the bound, the first such in order (strict `<`), with its cost. |
| Descent.MoveShrinksCheaper | vns.py:44-46 | Moving to a strictly cheaper schedule of the universe strictly shrinks the set of schedules cheaper than the current one. This is the termination measure. |
| Descent.ExtendPath | vns.py:44-46 | Adding a strictly cheaper neighbour to an improving path gives an improving path. |
| Descent.Descend | vns.py:17-50 | The loop ends with `currentCost == cost(current) <= cost(initial)`, at a local optimum of every neighbourhood. `current` is reached from `initial` by strictly improving neighbour moves. If the neighbourhoods keep feasibility and `initial` is feasible, so is `current`. It terminates for a finite universe closed under the neighbourhoods. |
| Descent.SwapExplorable | vns.py:14-18 | With the swap neighbourhood and the schedule cost, a swap-closed set of well-shaped schedules can be explored and priced. |
| Descent.SwapKeepsFeasible | neighbours.py:33-35 | The swap neighbourhood keeps every feasible schedule of the universe feasible, in the form the descent uses. |
| Descent.SwapDescent | vns.py:10-57 | The descent from a well-shaped schedule with the swap neighbourhood ends no dearer than it started. No swap of the result is cheaper. The final check finds no violation exactly when the result is feasible, and always finds none when the initial schedule was feasible. |
| Destroy.BlankRow | lns.py:12-13 | The replacement row has the old row's length and is all `O`. |
| Destroy.ClearRow | lns.py:12-13 | Row `r` becomes all `O` of the same length. Every other row and the number of rows are unchanged. |
| Destroy.DestroySchedule | lns.py:7-14 | The same array comes back. For method 1, row `randomIndex` is blanked in place and nothing else changes. For any other method the array is untouched. |
| Destroy.ClearRowCost | lns.py:12-13 | Blanking one of the first 20 rows lowers the cost by exactly that row's cost: `O` is never priced. |
| Destroy.ClearExtraRowIgnored | lns.py:11-13 | Blanking a row past the first 20 changes neither the cost nor feasibility. |
| Destroy.ClearRowBreaksAlphabet | lns.py:12-13 | Blanking one of the first 20 rows keeps C0 but breaks C1, so the checker rejects the result at C1. |

## Left out

- File and console I/O: `save_schedule`, `load_schedule`, `load_last_schedule`, `read_costs`, `SchedulingProblem.print`, the printing in `vns.py` and `lns.py`. The cost table is an input, and `CostTableWellFormed` states what `read_costs` guarantees.
- `model.py`: a PuLP integer program, a foreign solver.
- The main loop of `lns.py`: it calls an undefined `repair_schedule` and depends on `model.py`.
- `create_costs.py` and `create_solution.py`: random cost generation with file output, and an empty stub.
- Randomness: the index `randint` draws is the parameter `randomIndex` of `Destroy.DestroySchedule`.
- Costs.Cost: the precondition excludes a schedule with fewer than 20 rows or a row shorter than 21 days, on which the source raises IndexError.
- Neighbourhoods.Neighbours: the precondition excludes a schedule with fewer than `n` rows, on which the source raises IndexError.
- Descent.SwapDescent: the precondition (through `SwapClosed`) excludes an initial schedule with fewer than 20 rows or a row shorter than 21 days, on which pricing it raises IndexError.
- Destroy.DestroySchedule: an empty schedule makes `randint(0, -1)` raise, and the precondition excludes that case rather than modelling the error.
- Floating point: costs are `real`, so rounding in the sums is not modelled.
- The message strings of `is_feasible`: each reason is a `Violation` value holding the data the message prints.
- Feasibility.CheckShiftRuns: C3 visits the three work shifts in the iteration order of a Python set, which the language does not fix. The model visits A, M, N. Its contract names the first bad row and the least-start bad run of the reported shift, but not which shift is reported when several have bad runs.
- Descent.Descend: termination needs a finite set of schedules closed under the neighbourhoods (the ghost parameter `universe`). The Python loop carries no such bound.
- Descent.SwapDescent: the swap neighbourhood takes the problem's firefighter count `n` as a parameter, with `n <= 20`. The script uses `n = 20`.
- The `Neighbourhood` base class is an interface with no behaviour. Neighbourhoods are function values.
