// SwapNeighbourhood (neighbours.py): the neighbours of a schedule are the
// schedules obtained by exchanging the rows of two firefighters. No
// neighbour is re-checked: swapping whole rows keeps a feasible schedule
// feasible, which is proved here.

module Neighbourhoods {
  import opened Runs
  import opened Roster

  /** The schedule with rows i and j exchanged; everything else as it was. */
  function SwapRows(s: Schedule, i: nat, j: nat): (r: Schedule)
    requires i < |s| && j < |s|
    ensures |r| == |s| && r[i] == s[j] && r[j] == s[i]
    ensures forall k | 0 <= k < |s| && k != i && k != j :: r[k] == s[k]
  {
    s[i := s[j]][j := s[i]]
  }

  /** The pairs (i, i + 1), ..., (i, j - 1). */
  function RowPairs(i: nat, j: nat): (ps: seq<(nat, nat)>)
    ensures forall p | p in ps :: p.0 == i && i < p.1 < j
    decreases j
  {
    if j <= i + 1 then [] else RowPairs(i, j - 1) + [(i, j - 1)]
  }

  /** The pairs (a, b) with a < i and a < b < n, in the order of the two
      nested loops: lexicographic. */
  function PairsBefore(i: nat, n: nat): (ps: seq<(nat, nat)>)
    ensures forall p | p in ps :: p.0 < i && p.0 < p.1 < n
  {
    if i == 0 then [] else PairsBefore(i - 1, n) + RowPairs(i - 1, n)
  }

  /** One candidate per pair, in the same order. */
  function Candidates(s: Schedule, pairs: seq<(nat, nat)>): (cs: seq<Schedule>)
    requires forall p | p in pairs :: p.0 < |s| && p.1 < |s|
    ensures |cs| == |pairs|
  {
    seq(|pairs|, q requires 0 <= q < |pairs| => SwapRows(s, pairs[q].0, pairs[q].1))
  }

  /** What SwapNeighbourhood.neighbours returns for a problem with `n`
      firefighters. */
  function SwapNeighbours(s: Schedule, n: nat): seq<Schedule>
    requires n <= |s|
  {
    Candidates(s, PairsBefore(n, n))
  }

  /** neighbours: for i < j < n in that order, a copy of the schedule with
      rows i and j exchanged. The argument is a value, so the caller's
      schedule is never changed. */
  method Neighbours(schedule: Schedule, n: nat) returns (result: seq<Schedule>)
    requires n <= |schedule|
    ensures result == SwapNeighbours(schedule, n)
  {
    result := [];
    for i := 0 to n
      invariant result == Candidates(schedule, PairsBefore(i, n))
    {
      for j := i + 1 to n
        invariant result == Candidates(schedule, PairsBefore(i, n) + RowPairs(i, j))
      {
        var newSchedule := schedule;
        newSchedule := newSchedule[i := schedule[j]];
        newSchedule := newSchedule[j := schedule[i]];
        ghost var before := PairsBefore(i, n) + RowPairs(i, j);
        assert before + [(i, j)] == PairsBefore(i, n) + RowPairs(i, j + 1);
        result := result + [newSchedule];
        assert result == Candidates(schedule, before + [(i, j)]);
      }
    }
  }

  lemma {:induction false} RowPairsComplete(i: nat, j: nat)
    ensures |RowPairs(i, j)| == if j <= i then 0 else j - i - 1
    ensures forall b | i < b < j :: (i, b) in RowPairs(i, j)
    ensures forall x, y | 0 <= x < y < |RowPairs(i, j)| :: RowPairs(i, j)[x].1 < RowPairs(i, j)[y].1
    decreases j
  {
    if j > i + 1 {
      RowPairsComplete(i, j - 1);
    }
  }

  /** The loops visit i * (2n - i - 1) / 2 pairs. */
  lemma {:induction false} PairsBeforeCount(i: nat, n: nat)
    requires i <= n
    ensures 2 * |PairsBefore(i, n)| == i * (2 * n - i - 1)
  {
    if i > 0 {
      PairsBeforeCount(i - 1, n);
      RowPairsComplete(i - 1, n);
      assert |PairsBefore(i, n)| == |PairsBefore(i - 1, n)| + (n - i);
      PairCountStep(i, n);
    }
  }

  lemma PairCountStep(i: int, n: int)
    ensures i * (2 * n - i - 1) == (i - 1) * (2 * n - (i - 1) - 1) + 2 * (n - i)
  {
  }

  /** The loops visit every pair a < b < n with a < i. */
  lemma {:induction false} PairsBeforeComplete(i: nat, n: nat)
    ensures forall a, b | 0 <= a < i && a < b < n :: (a, b) in PairsBefore(i, n)
  {
    if i > 0 {
      var front, back := PairsBefore(i - 1, n), RowPairs(i - 1, n);
      PairsBeforeComplete(i - 1, n);
      RowPairsComplete(i - 1, n);
      forall a, b | 0 <= a < i && a < b < n
        ensures (a, b) in front + back
      {
        if a < i - 1 {
          assert (a, b) in front;
        } else {
          assert (a, b) in back;
        }
      }
    }
  }

  /** p precedes q in lexicographic order. */
  predicate LexLess(p: (nat, nat), q: (nat, nat)) {
    p.0 < q.0 || (p.0 == q.0 && p.1 < q.1)
  }

  /** The loops visit the pairs in strictly increasing lexicographic order,
      so no pair twice. */
  lemma {:induction false} PairsBeforeOrdered(i: nat, n: nat)
    ensures forall x, y | 0 <= x < y < |PairsBefore(i, n)| :: LexLess(PairsBefore(i, n)[x], PairsBefore(i, n)[y])
  {
    if i > 0 {
      PairsBeforeOrdered(i - 1, n);
      RowPairsComplete(i - 1, n);
      var front, back := PairsBefore(i - 1, n), RowPairs(i - 1, n);
      forall x, y | 0 <= x < y < |front + back|
        ensures LexLess((front + back)[x], (front + back)[y])
      {
        if y < |front| {
          assert (front + back)[x] == front[x] && (front + back)[y] == front[y];
        } else if x < |front| {
          assert front[x] in front && back[y - |front|] in back;
        } else {
          assert back[x - |front|].1 < back[y - |front|].1;
        }
      }
    }
  }

  /** SwapNeighbours returns n(n-1)/2 candidates, one per pair i < j < n:
      candidate q is the schedule with the rows of pair q exchanged, and the
      pairs come in lexicographic order. */
  lemma SwapNeighboursShape(s: Schedule, n: nat)
    requires n <= |s|
    ensures 2 * |SwapNeighbours(s, n)| == n * (n - 1)
    ensures forall i, j | 0 <= i < j < n :: SwapRows(s, i, j) in SwapNeighbours(s, n)
    ensures forall c | c in SwapNeighbours(s, n) :: exists i, j | 0 <= i < j < n :: c == SwapRows(s, i, j)
    ensures |SwapNeighbours(s, n)| == |PairsBefore(n, n)|
    ensures forall q | 0 <= q < |SwapNeighbours(s, n)| ::
              SwapNeighbours(s, n)[q] == SwapRows(s, PairsBefore(n, n)[q].0, PairsBefore(n, n)[q].1)
    ensures forall x, y | 0 <= x < y < |PairsBefore(n, n)| :: LexLess(PairsBefore(n, n)[x], PairsBefore(n, n)[y])
  {
    var pairs := PairsBefore(n, n);
    var cs := SwapNeighbours(s, n);
    forall q | 0 <= q < |cs|
      ensures cs[q] == SwapRows(s, pairs[q].0, pairs[q].1)
    {
    }
    PairsBeforeCount(n, n);
    PairsBeforeComplete(n, n);
    PairsBeforeOrdered(n, n);
    forall i, j | 0 <= i < j < n
      ensures SwapRows(s, i, j) in SwapNeighbours(s, n)
    {
      var q :| 0 <= q < |pairs| && pairs[q] == (i, j);
      assert SwapNeighbours(s, n)[q] == SwapRows(s, i, j);
    }
    forall c | c in SwapNeighbours(s, n)
      ensures exists i, j | 0 <= i < j < n :: c == SwapRows(s, i, j)
    {
      var q :| 0 <= q < |pairs| && SwapNeighbours(s, n)[q] == c;
      assert pairs[q] in pairs;
    }
  }

  /** Exchanging two of the first NbFirefighters rows leaves the number of
      firefighters on each shift on each day unchanged. */
  lemma SwapKeepsStaffCount(s: Schedule, i: nat, j: nat, d: nat, shift: char)
    requires ShapeOk(s) && i < NbFirefighters && j < NbFirefighters && d < NbDays
    ensures ShapeOk(SwapRows(s, i, j))
    ensures Count(Column(SwapRows(s, i, j), d), shift) == Count(Column(s, d), shift)
  {
    var c := Column(s, d);
    assert Column(SwapRows(s, i, j), d) == c[i := c[j]][j := c[i]];
    CountIsMultiplicity(c, shift);
    CountIsMultiplicity(c[i := c[j]][j := c[i]], shift);
  }

  /** Exchanging two of the first NbFirefighters rows of a feasible schedule
      gives a feasible schedule: the rules on one row see the same rows, and
      the staffing counts are unchanged. */
  lemma SwapPreservesFeasible(s: Schedule, i: nat, j: nat)
    requires Feasible(s) && i < NbFirefighters && j < NbFirefighters
    ensures Feasible(SwapRows(s, i, j))
  {
    var t := SwapRows(s, i, j);
    assert forall k | 0 <= k < NbFirefighters :: t[k] == s[k] || t[k] == s[i] || t[k] == s[j];
    forall r, d | 0 <= r < |ShiftRequirements| && 0 <= d < NbDays
      ensures Staffed(t, r, d)
    {
      SwapKeepsStaffCount(s, i, j, d, ShiftRequirements[r].0);
      assert Staffed(s, r, d);
    }
  }

  /** The claim of neighbours.py: every neighbour of a feasible schedule is
      feasible (n is the problem's number of firefighters, or fewer). */
  lemma SwapNeighboursFeasible(s: Schedule, n: nat)
    requires Feasible(s) && n <= NbFirefighters
    ensures forall c | c in SwapNeighbours(s, n) :: Feasible(c)
  {
    SwapNeighboursShape(s, n);
    forall c | c in SwapNeighbours(s, n)
      ensures Feasible(c)
    {
      var i, j :| 0 <= i < j < n && c == SwapRows(s, i, j);
      SwapPreservesFeasible(s, i, j);
    }
  }
}
