// Variable neighbourhood descent (vns.py): from an initial schedule, look
// through the neighbourhoods in turn; the first one that offers a strictly
// cheaper neighbour moves the search there and the scan starts over from the
// first neighbourhood; the search stops once no neighbourhood improves.

module Descent {
  import opened Roster
  import opened Costs
  import opened Neighbourhoods
  import opened Feasibility

  /** The inner loop of the descent: among `neighbors`, the first one of least
      cost, provided that cost is strictly below `bound`. */
  method SelectImproving(neighbors: seq<Schedule>, cost: Schedule --> real, bound: real)
    returns (improved: Option<Schedule>, improvedCost: real, ghost index: int)
    requires forall t | t in neighbors :: cost.requires(t)
    ensures improved.None? <==> forall t | t in neighbors :: cost(t) >= bound
    ensures improved.None? ==> improvedCost == bound
    ensures improved.Some? ==>
              && 0 <= index < |neighbors| && improved.value == neighbors[index]
              && improvedCost == cost(improved.value) < bound
              && (forall x | 0 <= x < |neighbors| :: improvedCost <= cost(neighbors[x]))
              && (forall x | 0 <= x < index :: improvedCost < cost(neighbors[x]))
  {
    improved := None;
    improvedCost := bound;
    index := -1;
    for x := 0 to |neighbors|
      invariant improved.None? <==> forall y | 0 <= y < x :: cost(neighbors[y]) >= bound
      invariant improved.None? ==> improvedCost == bound && index == -1
      invariant improvedCost <= bound
      invariant improved.Some? ==>
                  && 0 <= index < x && improved.value == neighbors[index]
                  && improvedCost == cost(improved.value) < bound
                  && (forall y | 0 <= y < index :: improvedCost < cost(neighbors[y]))
      invariant forall y | 0 <= y < x :: improvedCost <= cost(neighbors[y])
    {
      var neighborCost := cost(neighbors[x]);
      if neighborCost < improvedCost {
        improved := Some(neighbors[x]);
        improvedCost := neighborCost;
        index := x;
      }
    }
  }

  /** Every schedule of `universe` can be priced and explored, and its
      neighbours stay in `universe`. */
  ghost predicate Explorable(neighbourhoods: seq<Schedule --> seq<Schedule>>, cost: Schedule --> real, universe: set<Schedule>) {
    && (forall t | t in universe ::
          cost.requires(t) && forall k | 0 <= k < |neighbourhoods| :: neighbourhoods[k].requires(t))
    && (forall t, k, u | t in universe && 0 <= k < |neighbourhoods| && u in neighbourhoods[k](t) :: u in universe)
  }

  /** No neighbourhood offers anything strictly cheaper than `t`. */
  ghost predicate LocalOptimum(neighbourhoods: seq<Schedule --> seq<Schedule>>, cost: Schedule --> real, t: Schedule)
    requires cost.requires(t)
    requires forall k | 0 <= k < |neighbourhoods| :: neighbourhoods[k].requires(t)
    requires forall k, u | 0 <= k < |neighbourhoods| && u in neighbourhoods[k](t) :: cost.requires(u)
  {
    forall k, u | 0 <= k < |neighbourhoods| && u in neighbourhoods[k](t) :: cost(t) <= cost(u)
  }

  /** Each schedule of `trace` is a strictly cheaper neighbour of the one
      before it, in the neighbourhood that `moves` names. */
  ghost predicate ImprovingPath(neighbourhoods: seq<Schedule --> seq<Schedule>>, cost: Schedule --> real, universe: set<Schedule>,
                                trace: seq<Schedule>, moves: seq<nat>)
    requires Explorable(neighbourhoods, cost, universe)
  {
    && |moves| == |trace| - 1
    && (forall x | 0 <= x < |trace| :: trace[x] in universe)
    && forall x | 0 <= x < |moves| ::
         && moves[x] < |neighbourhoods|
         && trace[x + 1] in neighbourhoods[moves[x]](trace[x])
         && cost(trace[x + 1]) < cost(trace[x])
  }

  /** Every neighbourhood keeps the feasible schedules of `universe` feasible. */
  ghost predicate KeepsFeasible(neighbourhoods: seq<Schedule --> seq<Schedule>>, universe: set<Schedule>)
    requires forall t, k | t in universe && 0 <= k < |neighbourhoods| :: neighbourhoods[k].requires(t)
  {
    forall t, k, u | t in universe && 0 <= k < |neighbourhoods| && u in neighbourhoods[k](t) ::
      Feasible(t) ==> Feasible(u)
  }

  /** The schedules of `universe` strictly cheaper than `bound`. */
  ghost function Cheaper(cost: Schedule --> real, universe: set<Schedule>, bound: real): set<Schedule>
    requires forall t | t in universe :: cost.requires(t)
  {
    set t | t in universe && cost(t) < bound
  }

  lemma {:induction false} ProperSubsetSmaller<T>(a: set<T>, b: set<T>, x: T)
    requires a <= b && x in b && x !in a
    ensures |a| < |b|
  {
    assert a <= b - {x};
    assert |b - {x}| == |b| - 1;
    SubsetNoLarger(a, b - {x});
  }

  lemma {:induction false} SubsetNoLarger<T>(a: set<T>, b: set<T>)
    requires a <= b
    ensures |a| <= |b|
  {
    if a != {} {
      var y :| y in a;
      SubsetNoLarger(a - {y}, b - {y});
    }
  }

  /** A strictly cheaper schedule of `universe` leaves fewer schedules cheaper than it. */
  lemma MoveShrinksCheaper(cost: Schedule --> real, universe: set<Schedule>, bound: real, next: Schedule)
    requires forall t | t in universe :: cost.requires(t)
    requires next in universe && cost(next) < bound
    ensures |Cheaper(cost, universe, cost(next))| < |Cheaper(cost, universe, bound)|
  {
    ProperSubsetSmaller(Cheaper(cost, universe, cost(next)), Cheaper(cost, universe, bound), next);
  }

  /** An improving path extended by a strictly cheaper neighbour of its last schedule. */
  lemma ExtendPath(neighbourhoods: seq<Schedule --> seq<Schedule>>, cost: Schedule --> real, universe: set<Schedule>,
                   trace: seq<Schedule>, moves: seq<nat>, k: nat, next: Schedule)
    requires Explorable(neighbourhoods, cost, universe) && ImprovingPath(neighbourhoods, cost, universe, trace, moves)
    requires |trace| >= 1 && k < |neighbourhoods| && next in neighbourhoods[k](trace[|trace| - 1])
    requires cost(next) < cost(trace[|trace| - 1])
    ensures ImprovingPath(neighbourhoods, cost, universe, trace + [next], moves + [k])
  {
    var t, m := trace + [next], moves + [k];
    assert next in universe;
    forall x | 0 <= x < |m|
      ensures m[x] < |neighbourhoods| && t[x + 1] in neighbourhoods[m[x]](t[x]) && cost(t[x + 1]) < cost(t[x])
    {
      if x < |moves| {
        assert t[x] == trace[x] && t[x + 1] == trace[x + 1] && m[x] == moves[x];
      }
    }
  }

  /** The descent loop of vns.py. It ends on a local optimum of every
      neighbourhood, reached from `initial` by strictly improving moves, no
      dearer than `initial`, and feasible when `initial` is and the
      neighbourhoods keep feasibility. `universe` is a finite set of
      schedules closed under the neighbourhoods: it bounds the number of
      improving moves, so the loop terminates. */
  method Descend(neighbourhoods: seq<Schedule --> seq<Schedule>>, cost: Schedule --> real, initial: Schedule, ghost universe: set<Schedule>)
    returns (current: Schedule, currentCost: real, ghost trace: seq<Schedule>, ghost moves: seq<nat>)
    requires initial in universe && Explorable(neighbourhoods, cost, universe)
    ensures current in universe && currentCost == cost(current) <= cost(initial)
    ensures LocalOptimum(neighbourhoods, cost, current)
    ensures |trace| >= 1 && trace[0] == initial && trace[|trace| - 1] == current
    ensures ImprovingPath(neighbourhoods, cost, universe, trace, moves)
    ensures KeepsFeasible(neighbourhoods, universe) && Feasible(initial) ==> Feasible(current)
  {
    current := initial;
    currentCost := cost(current);
    trace, moves := [initial], [];
    var kmax := |neighbourhoods|;
    var k := 1;
    while k <= kmax
      invariant 1 <= k <= kmax + 1
      invariant current in universe && currentCost == cost(current) <= cost(initial)
      invariant forall k', u | 0 <= k' < k - 1 && u in neighbourhoods[k'](current) :: currentCost <= cost(u)
      invariant |trace| >= 1 && trace[0] == initial && trace[|trace| - 1] == current
      invariant ImprovingPath(neighbourhoods, cost, universe, trace, moves)
      invariant KeepsFeasible(neighbourhoods, universe) && Feasible(initial) ==> Feasible(current)
      decreases |Cheaper(cost, universe, currentCost)|, kmax + 1 - k
    {
      var neighbourhood := neighbourhoods[k - 1];
      var neighbors := neighbourhood(current);
      var improved, improvedCost, index := SelectImproving(neighbors, cost, currentCost);
      if improved.Some? && improvedCost < currentCost {
        var next := improved.value;
        assert next in neighbourhoods[k - 1](current);
        MoveShrinksCheaper(cost, universe, currentCost, next);
        ExtendPath(neighbourhoods, cost, universe, trace, moves, k - 1, next);
        trace, moves := trace + [next], moves + [k - 1];
        current := next;
        currentCost := improvedCost;
        k := 1;
      } else {
        k := k + 1;
      }
    }
  }

  /** SwapNeighbourhood(prob): the swap neighbourhood of a problem with
      `n` firefighters. */
  function SwapNeighbourhood(n: nat): Schedule --> seq<Schedule> {
    s requires n <= |s| => SwapNeighbours(s, n)
  }

  /** The cost of a schedule under `costs`. */
  function Pricing(costs: CostTable): Schedule --> real
    requires CostTableShaped(costs)
  {
    s requires ShapeOk(s) => TotalCost(s, costs)
  }

  /** Every schedule of `universe` is well shaped and its swaps among the
      first `n` rows are in `universe`. */
  ghost predicate SwapClosed(universe: set<Schedule>, n: nat)
    requires n <= NbFirefighters
  {
    && (forall t | t in universe :: ShapeOk(t))
    && (forall t, u | t in universe && ShapeOk(t) && u in SwapNeighbours(t, n) :: u in universe)
  }

  lemma SwapExplorable(costs: CostTable, universe: set<Schedule>, n: nat)
    requires CostTableShaped(costs) && n <= NbFirefighters && SwapClosed(universe, n)
    ensures Explorable([SwapNeighbourhood(n)], Pricing(costs), universe)
  {
    var neighbourhoods, cost := [SwapNeighbourhood(n)], Pricing(costs);
    forall t | t in universe
      ensures cost.requires(t) && neighbourhoods[0].requires(t)
    {
    }
    forall t, k, u | t in universe && 0 <= k < 1 && u in neighbourhoods[k](t)
      ensures u in universe
    {
      assert neighbourhoods[k](t) == SwapNeighbours(t, n);
    }
  }

  /** The claim of neighbours.py, in the form the descent uses. */
  lemma SwapKeepsFeasible(universe: set<Schedule>, n: nat)
    requires n <= NbFirefighters && SwapClosed(universe, n)
    ensures forall t | t in universe :: SwapNeighbourhood(n).requires(t)
    ensures KeepsFeasible([SwapNeighbourhood(n)], universe)
  {
    var neighbourhoods := [SwapNeighbourhood(n)];
    forall t, k, u | t in universe && 0 <= k < 1 && u in neighbourhoods[k](t)
      ensures Feasible(t) ==> Feasible(u)
    {
      if Feasible(t) {
        SwapNeighboursFeasible(t, n);
        assert neighbourhoods[k](t) == SwapNeighbours(t, n);
      }
    }
  }

  /** The script of vns.py without its file and console I/O: descend from
      `initial` with the swap neighbourhood of a problem with `n`
      firefighters and the schedule cost, then check the result. Started
      from a feasible schedule, the final check finds no violation. */
  method SwapDescent(initial: Schedule, costs: CostTable, n: nat, ghost universe: set<Schedule>)
    returns (current: Schedule, currentCost: real, verdict: Option<Violation>)
    requires CostTableShaped(costs) && n <= NbFirefighters && initial in universe && SwapClosed(universe, n)
    ensures ShapeOk(current) && currentCost == TotalCost(current, costs) <= TotalCost(initial, costs)
    ensures forall u | u in SwapNeighbours(current, n) :: currentCost <= TotalCost(u, costs)
    ensures verdict.None? <==> Feasible(current)
    ensures Feasible(initial) ==> verdict == None
  {
    var neighbourhoods := [SwapNeighbourhood(n)];
    var cost := Pricing(costs);
    SwapExplorable(costs, universe, n);
    SwapKeepsFeasible(universe, n);
    ghost var trace, moves;
    current, currentCost, trace, moves := Descend(neighbourhoods, cost, initial, universe);
    forall u | u in SwapNeighbours(current, n)
      ensures ShapeOk(u) && currentCost <= TotalCost(u, costs)
    {
      assert u in neighbourhoods[0](current);
      assert cost(u) == TotalCost(u, costs);
    }
    verdict := IsFeasible(current);
  }
}
