// The destroy step of large neighbourhood search (lns.py, destroy_schedule):
// method 1 blanks the row of one firefighter, chosen at random, with the
// letter O, in place; every other method leaves the schedule as it is.

module Destroy {
  import opened Roster
  import opened Costs

  /** The letter a destroyed row is filled with: no shift, no price. */
  const Blank: char := 'O'

  /** A row of the same length holding only Blank. */
  function BlankRow(row: string): (r: string)
    ensures |r| == |row| && forall d | 0 <= d < |r| :: r[d] == Blank
  {
    seq(|row|, _ => Blank)
  }

  /** The schedule with row `r` blanked; every other row as it was. */
  function ClearRow(s: Schedule, r: nat): (t: Schedule)
    requires r < |s|
    ensures |t| == |s| && t[r] == BlankRow(s[r])
    ensures forall i | 0 <= i < |s| && i != r :: t[i] == s[i]
  {
    s[r := BlankRow(s[r])]
  }

  /** destroy_schedule: `randomIndex` stands for the index randint draws in
      [0, len(schedule) - 1], so method 1 needs a non-empty schedule. The
      same list comes back. */
  method DestroySchedule(schedule: array<string>, destroyMethod: int, randomIndex: nat) returns (result: array<string>)
    requires destroyMethod == 1 ==> randomIndex < schedule.Length
    modifies schedule
    ensures result == schedule
    ensures schedule[..] == if destroyMethod == 1 then ClearRow(old(schedule[..]), randomIndex) else old(schedule[..])
  {
    if destroyMethod == 1 {
      schedule[randomIndex] := BlankRow(schedule[randomIndex]);
    }
    result := schedule;
  }

  /** Blanking the row of one of the first NbFirefighters firefighters takes
      exactly that row's cost off the schedule's cost: Blank is never priced. */
  lemma ClearRowCost(s: Schedule, costs: CostTable, r: nat)
    requires ShapeOk(s) && CostTableWellFormed(costs) && r < NbFirefighters
    ensures ShapeOk(ClearRow(s, r))
    ensures TotalCost(ClearRow(s, r), costs) == TotalCost(s, costs) - RowCost(s[r], costs[r], NbDays)
  {
    var blank := BlankRow(s[r]);
    forall d | 0 <= d < NbDays
      ensures blank[d] !in costs[r][d % DaysPerWeek]
    {
      assert costs[r][d % DaysPerWeek].Keys <= WorkShifts;
    }
    UnpricedRowCostsNothing(blank, costs[r], NbDays);
    ReplaceRowCost(s, costs, r, blank, NbFirefighters);
  }

  /** Blanking a row past the first NbFirefighters changes neither the cost
      nor the verdict of any rule: only the first NbFirefighters rows count. */
  lemma ClearExtraRowIgnored(s: Schedule, costs: CostTable, r: nat)
    requires ShapeOk(s) && CostTableShaped(costs) && NbFirefighters <= r < |s|
    ensures ShapeOk(ClearRow(s, r))
    ensures TotalCost(ClearRow(s, r), costs) == TotalCost(s, costs)
    ensures Feasible(ClearRow(s, r)) <==> Feasible(s)
  {
    var t := ClearRow(s, r);
    ReplaceRowCost(s, costs, r, t[r], NbFirefighters);
    WindowDecidesFeasible(s, t);
  }

  /** A schedule with one of its first NbFirefighters rows blanked keeps its
      shape but breaks C1, so is_feasible rejects it until the row is
      repaired. */
  lemma ClearRowBreaksAlphabet(s: Schedule, r: nat)
    requires ShapeOk(s) && r < NbFirefighters
    ensures Passes(ClearRow(s, r), 0)
    ensures !Passes(ClearRow(s, r), 1)
  {
    var t := ClearRow(s, r);
    assert t[r][0] == Blank && Blank !in Shifts;
    assert !RowAlphabetOk(t[r]);
  }
}
