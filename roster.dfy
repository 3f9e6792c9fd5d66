// The firefighter scheduling problem (firefighter.py): shift letters, the
// configuration fixed by SchedulingProblem.__init__, and the labour rules
// C0-C8 of is_feasible stated as predicates over a schedule.

module Roster {
  import opened Runs

  datatype Option<T> = None | Some(value: T)

  /** schedule[i][d] is the shift of firefighter i on day d. Rows are strings
      and may carry annotations past the last day. */
  type Schedule = seq<string>

  const OffDuty: char := 'F'
  const Morning: char := 'M'
  const Afternoon: char := 'A'
  const Night: char := 'N'
  const Shifts: set<char> := {Afternoon, Morning, Night, OffDuty}
  const WorkShifts: set<char> := {Afternoon, Morning, Night}
  const DaysPerWeek: nat := 7

  // The configuration of SchedulingProblem.__init__, the same for every instance.
  const NbFirefighters: nat := 20
  const NbWeeks: nat := 3
  const NbDays: nat := NbWeeks * DaysPerWeek
  const MinConsecutiveDays: nat := 2
  const MaxConsecutiveDays: nat := 4
  const NbOffDutyDays: nat := 7
  const MinConsecutiveWorkDays: nat := 3
  const MaxConsecutiveWorkDays: nat := 6
  const MinConsecutiveOffDays: nat := 1
  const MaxConsecutiveOffDays: nat := 3
  /** Minimum staff per shift and day, in the order the rule visits them. */
  const ShiftRequirements: seq<(char, nat)> := [(Morning, 3), (Afternoon, 4), (Night, 2)]
  /** The successor of each work shift: morning, afternoon, night, morning. */
  const ShiftOrder: map<char, char> := map[Morning := Afternoon, Afternoon := Night, Night := Morning]

  /** Number of occurrences of `x` in `xs`. */
  function Count<T(==)>(xs: seq<T>, x: T): (n: nat)
    ensures n <= |xs|
  {
    if xs == [] then 0 else Count(xs[..|xs| - 1], x) + (if xs[|xs| - 1] == x then 1 else 0)
  }

  lemma {:induction false} CountIsMultiplicity<T>(xs: seq<T>, x: T)
    ensures Count(xs, x) == multiset(xs)[x]
  {
    if xs != [] {
      CountIsMultiplicity(xs[..|xs| - 1], x);
      assert xs == xs[..|xs| - 1] + [xs[|xs| - 1]];
    }
  }

  // ----- C0: shape -----

  /** At least NbFirefighters rows, and each of those rows covers the horizon. */
  predicate ShapeOk(s: Schedule) {
    |s| >= NbFirefighters && forall i | 0 <= i < NbFirefighters :: |s[i]| >= NbDays
  }

  /** The shifts of day `d` of the first NbFirefighters rows. */
  function Column(s: Schedule, d: nat): (c: seq<char>)
    requires ShapeOk(s) && d < NbDays
    ensures |c| == NbFirefighters
    ensures forall i | 0 <= i < NbFirefighters :: c[i] == s[i][d]
  {
    seq(NbFirefighters, i requires 0 <= i < NbFirefighters => s[i][d])
  }

  // ----- per-row rules -----

  /** C1 on one row: each day of the horizon holds M, A, N or F. */
  ghost predicate RowAlphabetOk(row: string)
    requires |row| >= NbDays
  {
    forall d | 0 <= d < NbDays :: row[d] in Shifts
  }

  /** C2 on one row: exactly NbOffDutyDays off-duty days in the horizon. */
  ghost predicate RowOffDutyOk(row: string)
    requires |row| >= NbDays
  {
    Count(row[..NbDays], OffDuty) == NbOffDutyDays
  }

  /** Every run the cyclic scan records over `elements` has a length in [lo, hi]. */
  ghost predicate RunsWithin(row: string, elements: set<char>, lo: int, hi: int)
    requires |row| >= NbDays
  {
    forall k, v | IsRecordedRun(row, NbDays, elements, k, v) :: lo <= v <= hi
  }

  /** C3 on one row: runs of each single work shift. */
  ghost predicate RowShiftRunsOk(row: string)
    requires |row| >= NbDays
  {
    forall shift | shift in WorkShifts :: RunsWithin(row, {shift}, MinConsecutiveDays, MaxConsecutiveDays)
  }

  /** C4 on one row: runs of work days, whatever the shift. */
  ghost predicate RowWorkRunsOk(row: string)
    requires |row| >= NbDays
  {
    RunsWithin(row, WorkShifts, MinConsecutiveWorkDays, MaxConsecutiveWorkDays)
  }

  /** C5 on one row: runs of off-duty days. */
  ghost predicate RowOffRunsOk(row: string)
    requires |row| >= NbDays
  {
    RunsWithin(row, {OffDuty}, MinConsecutiveOffDays, MaxConsecutiveOffDays)
  }

  /** Day index of the Saturday of week `w`. */
  function Saturday(w: nat): nat {
    5 + DaysPerWeek * w
  }

  /** C6 on one row: some Saturday and the Sunday after it are both off. */
  ghost predicate RowWeekendOk(row: string)
    requires |row| >= NbDays
  {
    exists w | 0 <= w < NbWeeks :: row[Saturday(w)] == OffDuty && row[Saturday(w) + 1] == OffDuty
  }

  /** Scan positions `a < b` (over two passes) hold work shifts and every
      position strictly between them is off-duty. */
  ghost predicate ConsecutiveWork(row: string, a: int, b: int)
    requires |row| >= NbDays
  {
    && 0 <= a < b < 2 * NbDays
    && At(row, NbDays, a) != OffDuty
    && At(row, NbDays, b) != OffDuty
    && forall c | a < c < b :: At(row, NbDays, c) == OffDuty
  }

  /** A work shift may follow `previous` if it is its successor, or if it
      repeats it with no off-duty day in between. */
  predicate Allowed(previous: char, shift: char, acrossOffDuty: bool) {
    (previous in ShiftOrder && shift == ShiftOrder[previous]) || (shift == previous && !acrossOffDuty)
  }

  /** C8 on one row: every two work days that follow each other cyclically. */
  ghost predicate RowShiftOrderOk(row: string)
    requires |row| >= NbDays
  {
    forall a, b | ConsecutiveWork(row, a, b) :: Allowed(At(row, NbDays, a), At(row, NbDays, b), a + 1 < b)
  }

  // ----- the rules over the whole schedule -----

  ghost predicate AlphabetOk(s: Schedule)            // C1
    requires ShapeOk(s)
  {
    forall i | 0 <= i < NbFirefighters :: RowAlphabetOk(s[i])
  }

  ghost predicate OffDutyOk(s: Schedule)             // C2
    requires ShapeOk(s)
  {
    forall i | 0 <= i < NbFirefighters :: RowOffDutyOk(s[i])
  }

  ghost predicate ShiftRunsOk(s: Schedule)           // C3
    requires ShapeOk(s)
  {
    forall i | 0 <= i < NbFirefighters :: RowShiftRunsOk(s[i])
  }

  ghost predicate WorkRunsOk(s: Schedule)            // C4
    requires ShapeOk(s)
  {
    forall i | 0 <= i < NbFirefighters :: RowWorkRunsOk(s[i])
  }

  ghost predicate OffRunsOk(s: Schedule)             // C5
    requires ShapeOk(s)
  {
    forall i | 0 <= i < NbFirefighters :: RowOffRunsOk(s[i])
  }

  ghost predicate WeekendOk(s: Schedule)             // C6
    requires ShapeOk(s)
  {
    forall i | 0 <= i < NbFirefighters :: RowWeekendOk(s[i])
  }

  /** C7 for one requirement and one day. */
  ghost predicate Staffed(s: Schedule, r: nat, d: nat)
    requires ShapeOk(s) && r < |ShiftRequirements| && d < NbDays
  {
    Count(Column(s, d), ShiftRequirements[r].0) >= ShiftRequirements[r].1
  }

  ghost predicate StaffingOk(s: Schedule)            // C7
    requires ShapeOk(s)
  {
    forall r, d | 0 <= r < |ShiftRequirements| && 0 <= d < NbDays :: Staffed(s, r, d)
  }

  ghost predicate ShiftOrderOk(s: Schedule)          // C8
    requires ShapeOk(s)
  {
    forall i | 0 <= i < NbFirefighters :: RowShiftOrderOk(s[i])
  }

  /** Rule number `stage` (0 for C0, ..., 8 for C8) holds; every rule but C0
      is only meaningful once C0 holds. */
  ghost predicate Passes(s: Schedule, stage: nat) {
    ShapeOk(s) &&
    match stage
    case 1 => AlphabetOk(s)
    case 2 => OffDutyOk(s)
    case 3 => ShiftRunsOk(s)
    case 4 => WorkRunsOk(s)
    case 5 => OffRunsOk(s)
    case 6 => WeekendOk(s)
    case 7 => StaffingOk(s)
    case 8 => ShiftOrderOk(s)
    case _ => true
  }

  /** The schedule is feasible: is_feasible returns None. */
  ghost predicate Feasible(s: Schedule) {
    && ShapeOk(s)
    && AlphabetOk(s)
    && OffDutyOk(s)
    && ShiftRunsOk(s)
    && WorkRunsOk(s)
    && OffRunsOk(s)
    && WeekendOk(s)
    && StaffingOk(s)
    && ShiftOrderOk(s)
  }

  /** The per-row rules read only the first NbDays days of a row. */
  lemma RowRulesSeeOnlyHorizon(row: string, row': string)
    requires |row| >= NbDays && |row'| >= NbDays && row[..NbDays] == row'[..NbDays]
    ensures RowAlphabetOk(row) == RowAlphabetOk(row') && RowOffDutyOk(row) == RowOffDutyOk(row')
    ensures RowShiftRunsOk(row) == RowShiftRunsOk(row') && RowWorkRunsOk(row) == RowWorkRunsOk(row')
    ensures RowOffRunsOk(row) == RowOffRunsOk(row') && RowWeekendOk(row) == RowWeekendOk(row')
    ensures RowShiftOrderOk(row) == RowShiftOrderOk(row')
  {
    forall p: int
      ensures At(row, NbDays, p) == At(row', NbDays, p)
    {
      assert row[p % NbDays] == row[..NbDays][p % NbDays];
    }
    forall d | 0 <= d < NbDays
      ensures row[d] == row'[d]
    {
      assert row[d] == row[..NbDays][d];
    }
    forall elements: set<char>, k: int, v: int
      ensures IsRecordedRun(row, NbDays, elements, k, v) == IsRecordedRun(row', NbDays, elements, k, v)
    {
    }
    forall a: int, b: int
      ensures ConsecutiveWork(row, a, b) == ConsecutiveWork(row', a, b)
    {
    }
    assert Saturday(NbWeeks - 1) + 1 < NbDays;
  }

  /** Rows past the first NbFirefighters and days past the horizon are never
      read: two schedules that agree on the first NbFirefighters rows over the
      first NbDays days pass exactly the same rules. */
  lemma WindowDecidesFeasible(s: Schedule, t: Schedule)
    requires ShapeOk(s) && ShapeOk(t)
    requires forall i | 0 <= i < NbFirefighters :: s[i][..NbDays] == t[i][..NbDays]
    ensures forall stage: nat :: Passes(s, stage) == Passes(t, stage)
    ensures Feasible(s) == Feasible(t)
  {
    forall i | 0 <= i < NbFirefighters
      ensures RowAlphabetOk(s[i]) == RowAlphabetOk(t[i]) && RowOffDutyOk(s[i]) == RowOffDutyOk(t[i])
      ensures RowShiftRunsOk(s[i]) == RowShiftRunsOk(t[i]) && RowWorkRunsOk(s[i]) == RowWorkRunsOk(t[i])
      ensures RowOffRunsOk(s[i]) == RowOffRunsOk(t[i]) && RowWeekendOk(s[i]) == RowWeekendOk(t[i])
      ensures RowShiftOrderOk(s[i]) == RowShiftOrderOk(t[i])
    {
      RowRulesSeeOnlyHorizon(s[i], t[i]);
    }
    forall d | 0 <= d < NbDays
      ensures Column(s, d) == Column(t, d)
    {
      forall i | 0 <= i < NbFirefighters
        ensures s[i][d] == t[i][d]
      {
        assert s[i][d] == s[i][..NbDays][d];
        assert t[i][d] == t[i][..NbDays][d];
      }
    }
    forall r, d | 0 <= r < |ShiftRequirements| && 0 <= d < NbDays
      ensures Staffed(s, r, d) == Staffed(t, r, d)
    {
    }
  }

  /** The reasons is_feasible gives, one per rule, with what its message names. */
  datatype Violation =
    | NotEnoughFirefighters(count: nat)                                     // C0
    | WrongShiftLength(firefighter: nat, rowLength: nat)                    // C0
    | WrongShiftType(firefighter: nat, day: nat, shift: char)               // C1
    | WrongOffDutyCount(firefighter: nat, count: nat)                       // C2
    | WrongShiftRun(firefighter: nat, shift: char, start: int, length: int) // C3
    | WrongWorkRun(firefighter: nat, start: int, length: int)               // C4
    | WrongOffDutyRun(firefighter: nat, start: int, length: int)            // C5
    | NoWeekendOff(firefighter: nat)                                        // C6
    | NotEnoughOnShift(shift: char, day: nat, count: nat)                   // C7
    | WrongShiftOrder(firefighter: nat, day: nat, previous: char, shift: char) // C8
  {
    /** The rule this reason belongs to. */
    function Stage(): nat {
      match this
      case NotEnoughFirefighters(_) => 0
      case WrongShiftLength(_, _) => 0
      case WrongShiftType(_, _, _) => 1
      case WrongOffDutyCount(_, _) => 2
      case WrongShiftRun(_, _, _, _) => 3
      case WrongWorkRun(_, _, _) => 4
      case WrongOffDutyRun(_, _, _) => 5
      case NoWeekendOff(_) => 6
      case NotEnoughOnShift(_, _, _) => 7
      case WrongShiftOrder(_, _, _, _) => 8
    }
  }
}
