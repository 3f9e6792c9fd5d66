// SchedulingProblem.is_feasible (firefighter.py): the rules C0-C8 checked in
// order, the first broken one giving the reason; no reason means feasible.

module Feasibility {
  import opened Runs
  import opened Roster

  /** `k -> len` is a recorded run of `row` whose length lies outside
      [lo, hi], and every recorded run that starts before it lies inside:
      the first bad entry of the dictionary, whose keys come in increasing
      order. */
  ghost predicate FirstBadRunAt(row: string, elements: set<char>, lo: int, hi: int, k: int, len: int)
    requires |row| >= NbDays
  {
    && IsRecordedRun(row, NbDays, elements, k, len)
    && !(lo <= len <= hi)
    && forall k', v | IsRecordedRun(row, NbDays, elements, k', v) && k' < k :: lo <= v <= hi
  }

  /** Every two consecutive work days of the scan that end before scan
      position `d` are in an allowed order. */
  ghost predicate OrderOkBefore(row: string, d: int)
    requires |row| >= NbDays
  {
    forall a, b | ConsecutiveWork(row, a, b) && b < d :: Allowed(At(row, NbDays, a), At(row, NbDays, b), a + 1 < b)
  }

  /** What each reason says about the schedule: the firefighter, day or run
      it names really breaks its rule, and the firefighters (or days) the
      rule visits before it do not. */
  ghost predicate Witnesses(s: Schedule, v: Violation) {
    match v
    case NotEnoughFirefighters(n) =>
      n == |s| < NbFirefighters
    case WrongShiftLength(i, len) =>
      && |s| >= NbFirefighters && i < NbFirefighters && len == |s[i]| < NbDays
      && forall i' | 0 <= i' < i :: |s[i']| >= NbDays
    case WrongShiftType(i, d, c) =>
      && ShapeOk(s) && i < NbFirefighters && d < NbDays && s[i][d] == c && c !in Shifts
      && (forall i' | 0 <= i' < i :: RowAlphabetOk(s[i']))
      && (forall d' | 0 <= d' < d :: s[i][d'] in Shifts)
    case WrongOffDutyCount(i, n) =>
      && ShapeOk(s) && i < NbFirefighters
      && n == Count(s[i][..NbDays], OffDuty) && n != NbOffDutyDays
      && forall i' | 0 <= i' < i :: RowOffDutyOk(s[i'])
    case WrongShiftRun(i, shift, k, len) =>
      && ShapeOk(s) && i < NbFirefighters && shift in WorkShifts
      && FirstBadRunAt(s[i], {shift}, MinConsecutiveDays, MaxConsecutiveDays, k, len)
      && forall i' | 0 <= i' < i :: RowShiftRunsOk(s[i'])
    case WrongWorkRun(i, k, len) =>
      && ShapeOk(s) && i < NbFirefighters
      && FirstBadRunAt(s[i], WorkShifts, MinConsecutiveWorkDays, MaxConsecutiveWorkDays, k, len)
      && forall i' | 0 <= i' < i :: RowWorkRunsOk(s[i'])
    case WrongOffDutyRun(i, k, len) =>
      && ShapeOk(s) && i < NbFirefighters
      && FirstBadRunAt(s[i], {OffDuty}, MinConsecutiveOffDays, MaxConsecutiveOffDays, k, len)
      && forall i' | 0 <= i' < i :: RowOffRunsOk(s[i'])
    case NoWeekendOff(i) =>
      && ShapeOk(s) && i < NbFirefighters && !RowWeekendOk(s[i])
      && forall i' | 0 <= i' < i :: RowWeekendOk(s[i'])
    case NotEnoughOnShift(shift, d, n) =>
      && ShapeOk(s) && d < NbDays && n == Count(Column(s, d), shift)
      && exists r | 0 <= r < |ShiftRequirements| ::
           && ShiftRequirements[r].0 == shift && n < ShiftRequirements[r].1
           && (forall r', d' | 0 <= r' < r && 0 <= d' < NbDays :: Staffed(s, r', d'))
           && (forall d' | 0 <= d' < d :: Staffed(s, r, d'))
    case WrongShiftOrder(i, d, previous, shift) =>
      && ShapeOk(s) && i < NbFirefighters
      && (exists a | ConsecutiveWork(s[i], a, d) ::
            At(s[i], NbDays, a) == previous && At(s[i], NbDays, d) == shift
            && !Allowed(previous, shift, a + 1 < d))
      && OrderOkBefore(s[i], d)
      && forall i' | 0 <= i' < i :: RowShiftOrderOk(s[i'])
  }

  /** is_feasible: None exactly when every rule holds; otherwise the reason
      belongs to the first rule that fails, in the order C0, ..., C8. */
  method IsFeasible(schedule: Schedule) returns (verdict: Option<Violation>)
    ensures verdict.None? <==> Feasible(schedule)
    ensures verdict.Some? ==> Witnesses(schedule, verdict.value)
    ensures verdict.Some? ==> !Passes(schedule, verdict.value.Stage())
    ensures verdict.Some? ==> forall k | 0 <= k < verdict.value.Stage() :: Passes(schedule, k)
  {
    verdict := CheckShape(schedule);
    if verdict.Some? { return; }
    verdict := CheckAlphabet(schedule);
    if verdict.Some? { return; }
    verdict := CheckOffDuty(schedule);
    if verdict.Some? { return; }
    verdict := CheckShiftRuns(schedule);
    if verdict.Some? { return; }
    verdict := CheckWorkRuns(schedule);
    if verdict.Some? { return; }
    verdict := CheckOffRuns(schedule);
    if verdict.Some? { return; }
    verdict := CheckWeekend(schedule);
    if verdict.Some? { return; }
    verdict := CheckStaffing(schedule);
    if verdict.Some? { return; }
    verdict := CheckShiftOrder(schedule);
  }

  /** C0: enough rows, and each of the first NbFirefighters long enough;
      nothing is indexed before this holds. */
  method CheckShape(schedule: Schedule) returns (verdict: Option<Violation>)
    ensures verdict.None? <==> ShapeOk(schedule)
    ensures verdict.Some? ==> verdict.value.Stage() == 0 && Witnesses(schedule, verdict.value)
  {
    if |schedule| < NbFirefighters {
      return Some(NotEnoughFirefighters(|schedule|));
    }
    for i := 0 to NbFirefighters
      invariant forall i' | 0 <= i' < i :: |schedule[i']| >= NbDays
    {
      var firefighter := schedule[i];
      if |firefighter| < NbWeeks * DaysPerWeek {
        return Some(WrongShiftLength(i, |firefighter|));
      }
    }
    return None;
  }

  /** C1: every day of every row is M, A, N or F. */
  method CheckAlphabet(schedule: Schedule) returns (verdict: Option<Violation>)
    requires ShapeOk(schedule)
    ensures verdict.None? <==> AlphabetOk(schedule)
    ensures verdict.Some? ==> verdict.value.Stage() == 1 && Witnesses(schedule, verdict.value)
  {
    for i := 0 to NbFirefighters
      invariant forall i' | 0 <= i' < i :: RowAlphabetOk(schedule[i'])
    {
      for d := 0 to NbWeeks * DaysPerWeek
        invariant forall d' | 0 <= d' < d :: schedule[i][d'] in Shifts
      {
        var shift := schedule[i][d];
        if shift !in Shifts {
          return Some(WrongShiftType(i, d, shift));
        }
      }
    }
    return None;
  }

  /** C2: exactly NbOffDutyDays off-duty days per firefighter. */
  method CheckOffDuty(schedule: Schedule) returns (verdict: Option<Violation>)
    requires ShapeOk(schedule)
    ensures verdict.None? <==> OffDutyOk(schedule)
    ensures verdict.Some? ==> verdict.value.Stage() == 2 && Witnesses(schedule, verdict.value)
  {
    for i := 0 to NbFirefighters
      invariant forall i' | 0 <= i' < i :: RowOffDutyOk(schedule[i'])
    {
      var nbOffDutyDays := Count(schedule[i][..NbDays], OffDuty);
      if nbOffDutyDays != NbOffDutyDays {
        return Some(WrongOffDutyCount(i, nbOffDutyDays));
      }
    }
    return None;
  }

  /** The loop over consecutive_numbers(row, ...).items() shared by C3, C4
      and C5: the first recorded run, in the order the runs were recorded
      (ascending start), whose length lies outside [lo, hi]. */
  method FirstBadRun(row: string, elements: set<char>, lo: int, hi: int) returns (bad: Option<(int, int)>)
    requires |row| >= NbDays
    ensures bad.None? <==> RunsWithin(row, elements, lo, hi)
    ensures bad.Some? ==> FirstBadRunAt(row, elements, lo, hi, bad.value.0, bad.value.1)
  {
    var consecutives := ConsecutiveNumbers(row, NbDays, elements);
    for k := 0 to 2 * NbDays
      invariant forall k', v | IsRecordedRun(row, NbDays, elements, k', v) && k' < k :: lo <= v <= hi
    {
      if k in consecutives {
        var v := consecutives[k];
        if v < lo || v > hi {
          return Some((k, v));
        }
      }
    }
    return None;
  }

  /** C3: runs of each single work shift last MinConsecutiveDays to
      MaxConsecutiveDays days. */
  method CheckShiftRuns(schedule: Schedule) returns (verdict: Option<Violation>)
    requires ShapeOk(schedule)
    ensures verdict.None? <==> ShiftRunsOk(schedule)
    ensures verdict.Some? ==> verdict.value.Stage() == 3 && Witnesses(schedule, verdict.value)
  {
    var shiftTypes := [Afternoon, Morning, Night];
    for i := 0 to NbFirefighters
      invariant forall i' | 0 <= i' < i :: RowShiftRunsOk(schedule[i'])
    {
      for t := 0 to |shiftTypes|
        invariant forall t' | 0 <= t' < t ::
                    RunsWithin(schedule[i], {shiftTypes[t']}, MinConsecutiveDays, MaxConsecutiveDays)
      {
        var bad := FirstBadRun(schedule[i], {shiftTypes[t]}, MinConsecutiveDays, MaxConsecutiveDays);
        if bad.Some? {
          return Some(WrongShiftRun(i, shiftTypes[t], bad.value.0, bad.value.1));
        }
      }
      assert RowShiftRunsOk(schedule[i]) by {
        forall shift | shift in WorkShifts
          ensures RunsWithin(schedule[i], {shift}, MinConsecutiveDays, MaxConsecutiveDays)
        {
          assert shift == shiftTypes[0] || shift == shiftTypes[1] || shift == shiftTypes[2];
        }
      }
    }
    return None;
  }

  /** C4: runs of work days last MinConsecutiveWorkDays to
      MaxConsecutiveWorkDays days. */
  method CheckWorkRuns(schedule: Schedule) returns (verdict: Option<Violation>)
    requires ShapeOk(schedule)
    ensures verdict.None? <==> WorkRunsOk(schedule)
    ensures verdict.Some? ==> verdict.value.Stage() == 4 && Witnesses(schedule, verdict.value)
  {
    for i := 0 to NbFirefighters
      invariant forall i' | 0 <= i' < i :: RowWorkRunsOk(schedule[i'])
    {
      var bad := FirstBadRun(schedule[i], WorkShifts, MinConsecutiveWorkDays, MaxConsecutiveWorkDays);
      if bad.Some? {
        return Some(WrongWorkRun(i, bad.value.0, bad.value.1));
      }
    }
    return None;
  }

  /** C5: runs of off-duty days last MinConsecutiveOffDays to
      MaxConsecutiveOffDays days. */
  method CheckOffRuns(schedule: Schedule) returns (verdict: Option<Violation>)
    requires ShapeOk(schedule)
    ensures verdict.None? <==> OffRunsOk(schedule)
    ensures verdict.Some? ==> verdict.value.Stage() == 5 && Witnesses(schedule, verdict.value)
  {
    for i := 0 to NbFirefighters
      invariant forall i' | 0 <= i' < i :: RowOffRunsOk(schedule[i'])
    {
      var bad := FirstBadRun(schedule[i], {OffDuty}, MinConsecutiveOffDays, MaxConsecutiveOffDays);
      if bad.Some? {
        return Some(WrongOffDutyRun(i, bad.value.0, bad.value.1));
      }
    }
    return None;
  }

  /** C6: every firefighter has some weekend (Saturday and Sunday) off. */
  method CheckWeekend(schedule: Schedule) returns (verdict: Option<Violation>)
    requires ShapeOk(schedule)
    ensures verdict.None? <==> WeekendOk(schedule)
    ensures verdict.Some? ==> verdict.value.Stage() == 6 && Witnesses(schedule, verdict.value)
  {
    for i := 0 to NbFirefighters
      invariant forall i' | 0 <= i' < i :: RowWeekendOk(schedule[i'])
    {
      var satisfiesWeekend := false;
      for w := 0 to NbWeeks
        invariant satisfiesWeekend <==>
                    exists w' | 0 <= w' < w ::
                      schedule[i][Saturday(w')] == OffDuty && schedule[i][Saturday(w') + 1] == OffDuty
      {
        var d := Saturday(w);
        if schedule[i][d] == OffDuty && schedule[i][d + 1] == OffDuty {
          satisfiesWeekend := true;
        }
      }
      if !satisfiesWeekend {
        return Some(NoWeekendOff(i));
      }
    }
    return None;
  }

  /** C7: on every day, enough firefighters on each shift. */
  method CheckStaffing(schedule: Schedule) returns (verdict: Option<Violation>)
    requires ShapeOk(schedule)
    ensures verdict.None? <==> StaffingOk(schedule)
    ensures verdict.Some? ==> verdict.value.Stage() == 7 && Witnesses(schedule, verdict.value)
  {
    for r := 0 to |ShiftRequirements|
      invariant forall r', d' | 0 <= r' < r && 0 <= d' < NbDays :: Staffed(schedule, r', d')
    {
      var (shiftType, minNb) := ShiftRequirements[r];
      for d := 0 to NbDays
        invariant forall d' | 0 <= d' < d :: Staffed(schedule, r, d')
      {
        var firefighters := Count(Column(schedule, d), shiftType);
        if firefighters < minNb {
          assert !Staffed(schedule, r, d);
          return Some(NotEnoughOnShift(shiftType, d, firefighters));
        }
      }
    }
    return None;
  }

  /** The scan of C8 over one row, twice around: the first work day whose
      shift may not follow the previous work shift, as (day, previous, shift). */
  method ScanShiftOrder(row: string) returns (bad: Option<(nat, char, char)>)
    requires |row| >= NbDays && RowAlphabetOk(row)
    ensures bad.None? <==> RowShiftOrderOk(row)
    ensures bad.Some? ==>
              exists a | ConsecutiveWork(row, a, bad.value.0) ::
                && At(row, NbDays, a) == bad.value.1 && At(row, NbDays, bad.value.0) == bad.value.2
                && !Allowed(bad.value.1, bad.value.2, a + 1 < bad.value.0)
    ensures bad.Some? ==> OrderOkBefore(row, bad.value.0)
  {
    var previousWorkShift: Option<char> := None;
    var acrossOffDuty := false;
    ghost var last := -1;
    for d := 0 to 2 * NbDays
      invariant -1 <= last < d
      invariant last == -1 <==> previousWorkShift.None?
      invariant last >= 0 ==>
                  At(row, NbDays, last) != OffDuty && previousWorkShift == Some(At(row, NbDays, last))
      invariant forall c | last < c < d :: At(row, NbDays, c) == OffDuty
      invariant last >= 0 ==> (acrossOffDuty <==> last + 1 < d)
      invariant forall a, b | ConsecutiveWork(row, a, b) && b < d ::
                  Allowed(At(row, NbDays, a), At(row, NbDays, b), a + 1 < b)
    {
      var shift := row[d % NbDays];
      assert shift == At(row, NbDays, d);
      if shift == OffDuty {
        acrossOffDuty := true;
      } else {
        if last >= 0 {
          assert ConsecutiveWork(row, last, d);
        }
        if shift == Morning && (previousWorkShift == Some(Afternoon) || (acrossOffDuty && previousWorkShift == Some(Morning))) {
          return Some((d, previousWorkShift.value, shift));
        }
        if shift == Night && (previousWorkShift == Some(Morning) || (acrossOffDuty && previousWorkShift == Some(Night))) {
          return Some((d, previousWorkShift.value, shift));
        }
        if shift == Afternoon && (previousWorkShift == Some(Night) || (acrossOffDuty && previousWorkShift == Some(Afternoon))) {
          return Some((d, previousWorkShift.value, shift));
        }
        forall a | ConsecutiveWork(row, a, d)
          ensures a == last && Allowed(At(row, NbDays, a), shift, a + 1 < d)
        {
          assert a == last;
          assert At(row, NbDays, a) in Shifts by {
            assert (a % NbDays) < NbDays;
          }
          assert shift in Shifts by {
            assert (d % NbDays) < NbDays;
          }
        }
        previousWorkShift := Some(shift);
        acrossOffDuty := false;
        last := d;
      }
    }
    return None;
  }

  /** C8: the work shifts of every row follow the order morning, afternoon,
      night, morning, and a shift is not repeated across an off-duty gap. */
  method CheckShiftOrder(schedule: Schedule) returns (verdict: Option<Violation>)
    requires ShapeOk(schedule) && AlphabetOk(schedule)
    ensures verdict.None? <==> ShiftOrderOk(schedule)
    ensures verdict.Some? ==> verdict.value.Stage() == 8 && Witnesses(schedule, verdict.value)
  {
    for i := 0 to NbFirefighters
      invariant forall i' | 0 <= i' < i :: RowShiftOrderOk(schedule[i'])
    {
      var bad := ScanShiftOrder(schedule[i]);
      if bad.Some? {
        return Some(WrongShiftOrder(i, bad.value.0, bad.value.1, bad.value.2));
      }
    }
    return None;
  }
}
