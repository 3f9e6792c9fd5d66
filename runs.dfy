// Cyclic run detection (firefighter.py, consecutive_numbers): the first
// `length` items of a list are read as if the list restarted after its end,
// and the scan goes twice around.

module Runs {

  /** The scan records `s -> v` exactly when `v` items of `elements` start at
      scan position `s` (which lies in `[1, 2 * length)`, so it may belong to
      the second pass), the item just before and the item just after are
      outside `elements`, and that closing item is reached before the scan of
      `2 * length` positions ends. */
  ghost predicate IsRecordedRun<T>(list: seq<T>, length: nat, elements: set<T>, s: int, v: int)
    requires length <= |list|
  {
    && 0 < length
    && 1 <= s && 1 <= v && s + v < 2 * length
    && At(list, length, s - 1) !in elements
    && At(list, length, s + v) !in elements
    && forall p :: s <= p < s + v ==> At(list, length, p) in elements
  }

  /** The item read at scan position `p`: the list restarts after `length`. */
  function At<T>(list: seq<T>, length: nat, p: int): T
    requires 0 < length <= |list|
  {
    list[p % length]
  }

  /** A recorded run is determined by where it ends. */
  lemma RunDeterminedByEnd<T>(list: seq<T>, length: nat, elements: set<T>, s: int, v: int, s': int, v': int)
    requires length <= |list|
    requires IsRecordedRun(list, length, elements, s, v)
    requires IsRecordedRun(list, length, elements, s', v')
    requires s + v == s' + v'
    ensures s == s' && v == v'
  {
  }

  /** consecutive_numbers: counting starts only once an item outside
      `elements` has been seen, and a run is recorded, at its unreduced start
      position, when the item closing it is read. */
  method ConsecutiveNumbers<T(==)>(list: seq<T>, length: nat, elements: set<T>) returns (result: map<int, int>)
    requires length <= |list|
    ensures forall s | s in result :: IsRecordedRun(list, length, elements, s, result[s])
    ensures forall s, v | IsRecordedRun(list, length, elements, s, v) :: s in result && result[s] == v
    ensures (forall p | 0 <= p < length :: list[p] in elements) ==> result == map[]
  {
    result := map[];
    var haveSeenSomethingElse := false;
    var nbConsecutives := 0;
    for i := 0 to length * 2
      invariant 0 <= nbConsecutives <= i
      invariant forall p | i - nbConsecutives <= p < i :: At(list, length, p) in elements
      invariant haveSeenSomethingElse ==>
                  nbConsecutives < i && At(list, length, i - nbConsecutives - 1) !in elements
      invariant !haveSeenSomethingElse ==>
                  nbConsecutives == 0 && forall p | 0 <= p < i :: At(list, length, p) in elements
      invariant forall s | s in result ::
                  IsRecordedRun(list, length, elements, s, result[s]) && s + result[s] < i
      invariant forall s, v | IsRecordedRun(list, length, elements, s, v) && s + v < i ::
                  s in result && result[s] == v
    {
      var element := list[i % length];
      assert element == At(list, length, i);
      if element in elements {
        if haveSeenSomethingElse {
          nbConsecutives := nbConsecutives + 1;
        }
      } else {
        haveSeenSomethingElse := true;
        if nbConsecutives != 0 {
          var start := i - nbConsecutives;
          assert IsRecordedRun(list, length, elements, start, nbConsecutives);
          forall s, v | IsRecordedRun(list, length, elements, s, v) && s + v == i
            ensures s == start && v == nbConsecutives
          {
            RunDeterminedByEnd(list, length, elements, s, v, start, nbConsecutives);
          }
          result := result[start := nbConsecutives];
        }
        nbConsecutives := 0;
      }
    }
    if forall p | 0 <= p < length :: list[p] in elements {
      assert result.Keys == {};
    }
  }

  /** The example of the docstring of consecutive_numbers: on AAAXXAAAXA with
      elements {A}, the runs at 5, at 9 (wrapping round to 2) and at 15 (the
      run at 5 seen again on the second pass) are recorded; the leading run
      at 0 and the run still open at 19 are not. */
  method DocstringExample() returns (result: map<int, int>)
    ensures result == map[5 := 3, 9 := 4, 15 := 3]
  {
    var list := "AAAXXAAAXA";
    result := ConsecutiveNumbers(list, 10, {'A'});
    assert IsRecordedRun(list, 10, {'A'}, 5, 3);
    assert IsRecordedRun(list, 10, {'A'}, 9, 4);
    assert IsRecordedRun(list, 10, {'A'}, 15, 3);
    forall s | s in result
      ensures s == 5 || s == 9 || s == 15
    {
      ExampleStarts(list, s, result[s]);
    }
    assert result.Keys == {5, 9, 15};
  }

  lemma ExampleStarts(list: string, s: int, v: int)
    requires list == "AAAXXAAAXA"
    requires IsRecordedRun(list, 10, {'A'}, s, v)
    ensures s == 5 || s == 9 || s == 15
  {
    assert At(list, 10, s) == 'A';
    var r := s % 10;
    assert s == r || s == r + 10;
    assert (s - 1) % 10 == if r == 0 then 9 else r - 1;
    assert r == 0 || r == 1 || r == 2 || r == 3 || r == 4 || r == 5 || r == 6 || r == 7 || r == 8 || r == 9;
  }
}
