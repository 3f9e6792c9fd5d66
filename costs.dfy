// SchedulingProblem.cost (firefighter.py): a weekly periodic cost table
// summed over the first NbFirefighters rows and the NbDays days.

module Costs {
  import opened Roster

  /** costs[i][d % 7] maps a work shift to what firefighter i charges for it
      on that weekday; letters missing from the map cost nothing. */
  type CostTable = seq<seq<map<char, real>>>

  /** The table has a week of day maps for each of the first NbFirefighters. */
  predicate CostTableShaped(costs: CostTable) {
    |costs| >= NbFirefighters && forall i | 0 <= i < NbFirefighters :: |costs[i]| >= DaysPerWeek
  }

  /** As read_costs builds it: every entry non-negative, and only work shifts priced. */
  ghost predicate CostTableWellFormed(costs: CostTable) {
    && CostTableShaped(costs)
    && forall i, w | 0 <= i < NbFirefighters && 0 <= w < DaysPerWeek ::
         costs[i][w].Keys <= WorkShifts && forall shift | shift in costs[i][w] :: costs[i][w][shift] >= 0.0
  }

  /** What one day costs: the entry of the day map, or nothing. */
  function DayCost(shift: char, dayCosts: map<char, real>): real {
    if shift in dayCosts then dayCosts[shift] else 0.0
  }

  /** Cost of the first `days` days of one row. */
  function RowCost(row: string, week: seq<map<char, real>>, days: nat): real
    requires days <= |row| && |week| >= DaysPerWeek
  {
    if days == 0 then 0.0
    else RowCost(row, week, days - 1) + DayCost(row[days - 1], week[(days - 1) % DaysPerWeek])
  }

  /** Cost of the horizon of the first `n` rows. */
  function RowsCost(s: Schedule, costs: CostTable, n: nat): real
    requires ShapeOk(s) && CostTableShaped(costs) && n <= NbFirefighters
  {
    if n == 0 then 0.0 else RowsCost(s, costs, n - 1) + RowCost(s[n - 1], costs[n - 1], NbDays)
  }

  /** The cost of a schedule: sum over firefighter i < NbFirefighters and
      day d < NbDays of costs[i][d % 7][s[i][d]]. */
  function TotalCost(s: Schedule, costs: CostTable): real
    requires ShapeOk(s) && CostTableShaped(costs)
  {
    RowsCost(s, costs, NbFirefighters)
  }

  /** cost: the double loop that accumulates the table entries. */
  method Cost(schedule: Schedule, costs: CostTable) returns (result: real)
    requires ShapeOk(schedule) && CostTableShaped(costs)
    ensures result == TotalCost(schedule, costs)
  {
    result := 0.0;
    for i := 0 to NbFirefighters
      invariant result == RowsCost(schedule, costs, i)
    {
      for d := 0 to NbWeeks * DaysPerWeek
        invariant result == RowsCost(schedule, costs, i) + RowCost(schedule[i], costs[i], d)
      {
        var shift := schedule[i][d];
        var costMap := costs[i][d % DaysPerWeek];
        if shift in costMap {
          result := result + costMap[shift];
        }
      }
    }
  }

  lemma {:induction false} RowCostNonNegative(row: string, week: seq<map<char, real>>, days: nat)
    requires days <= |row| && |week| >= DaysPerWeek
    requires forall w, shift | 0 <= w < DaysPerWeek && shift in week[w] :: week[w][shift] >= 0.0
    ensures RowCost(row, week, days) >= 0.0
  {
    if days > 0 {
      RowCostNonNegative(row, week, days - 1);
    }
  }

  /** With a table as read_costs builds it, every schedule costs at least 0. */
  lemma {:induction false} CostNonNegative(s: Schedule, costs: CostTable, n: nat)
    requires ShapeOk(s) && CostTableWellFormed(costs) && n <= NbFirefighters
    ensures RowsCost(s, costs, n) >= 0.0
  {
    if n > 0 {
      CostNonNegative(s, costs, n - 1);
      RowCostNonNegative(s[n - 1], costs[n - 1], NbDays);
    }
  }

  /** A row none of whose days is priced costs nothing: off-duty days, and
      any letter the day maps do not list. */
  lemma {:induction false} UnpricedRowCostsNothing(row: string, week: seq<map<char, real>>, days: nat)
    requires days <= |row| && |week| >= DaysPerWeek
    requires forall d | 0 <= d < days :: row[d] !in week[d % DaysPerWeek]
    ensures RowCost(row, week, days) == 0.0
  {
    if days > 0 {
      UnpricedRowCostsNothing(row, week, days - 1);
    }
  }

  /** Replacing row r changes the cost by exactly the difference of the two
      rows' costs: the cost is a sum of independent rows. */
  lemma {:induction false} ReplaceRowCost(s: Schedule, costs: CostTable, r: nat, row: string, n: nat)
    requires ShapeOk(s) && CostTableShaped(costs) && r < |s| && n <= NbFirefighters
    requires r < NbFirefighters ==> |row| >= NbDays
    ensures ShapeOk(s[r := row])
    ensures RowsCost(s[r := row], costs, n)
            == RowsCost(s, costs, n)
               + (if r < n then RowCost(row, costs[r], NbDays) - RowCost(s[r], costs[r], NbDays) else 0.0)
  {
    if n > 0 {
      ReplaceRowCost(s, costs, r, row, n - 1);
    }
  }
}
