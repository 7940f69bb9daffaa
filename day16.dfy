/** Proboscidea volcanium: valves with flow rates, opened one per minute after
    walking to them. The search runs over a given matrix of shortest walking
    distances between the valves that matter, and picks the order of opening
    that releases the most pressure; in part two an elephant, starting over at
    the start valve, opens what is left. */
module Day16 {
  import opened Common

  /** `Volcano`: the distance matrix, the flow rate of each valve, and the
      index of valve AA. */
  datatype Volcano = Volcano(distances: seq<seq<int>>, flowRates: seq<int>, start: int)

  /** The matrix is square, one row and one flow rate per valve, and the
      start valve is one of them. */
  predicate Valid(v: Volcano)
  {
    |v.distances| == |v.flowRates| &&
    (forall i :: 0 <= i < |v.distances| ==> |v.distances[i]| == |v.flowRates|) &&
    0 <= v.start < |v.flowRates|
  }

  predicate IsValve(v: Volcano, i: int)
  {
    0 <= i < |v.flowRates|
  }

  predicate AllValves(v: Volcano, closed: set<int>)
  {
    forall i :: i in closed ==> IsValve(v, i)
  }

  function Max2(a: int, b: int): int
  {
    if a >= b then a else b
  }

  /** `exhaustive_search`: the most pressure that can still be released from
      `valve` with `remaining` minutes, the valves in `closed` still closed;
      with `elephant`, stopping and letting the elephant start over with 26
      minutes is one more option. */
  function Search(v: Volcano, valve: int, closed: set<int>, remaining: int, elephant: bool): (r: int)
    requires Valid(v) && IsValve(v, valve) && AllValves(v, closed)
    ensures r >= 0
    decreases |closed|, if elephant then 1 else 0, 1, 0
  {
    var moved := BestMove(v, valve, closed, closed, remaining, elephant);
    if elephant then Max2(moved, Search(v, v.start, closed, 26, false)) else moved
  }

  /** The best of 0 and the candidates of the valves in `todo`: walk to the
      valve, open it, and search on; valves too far away are skipped. */
  function BestMove(v: Volcano, valve: int, closed: set<int>, todo: set<int>, remaining: int, elephant: bool): (r: int)
    requires Valid(v) && IsValve(v, valve) && AllValves(v, closed) && todo <= closed
    ensures r >= 0
    decreases |closed|, if elephant then 1 else 0, 0, |todo|
  {
    if todo == {} then 0
    else
      var next := MinOf(todo);
      var rest := BestMove(v, valve, closed, todo - {next}, remaining, elephant);
      var distance := v.distances[valve][next];
      if distance > remaining then rest
      else
        Max2(rest, v.flowRates[next] * (remaining - distance - 1) +
          Search(v, next, closed - {next}, remaining - distance - 1, elephant))
  }

  /** Whether `next` can be reached in the time left. */
  predicate Reachable(v: Volcano, valve: int, next: int, remaining: int)
    requires Valid(v) && IsValve(v, valve) && IsValve(v, next)
  {
    v.distances[valve][next] <= remaining
  }

  /** The candidate for moving to `next` and opening it: its flow rate over
      the minutes left once it is open, plus the best that follows. */
  function Gain(v: Volcano, valve: int, closed: set<int>, remaining: int, elephant: bool, next: int): int
    requires Valid(v) && IsValve(v, valve) && AllValves(v, closed) && next in closed
  {
    var distance := v.distances[valve][next];
    v.flowRates[next] * (remaining - distance - 1) +
      Search(v, next, closed - {next}, remaining - distance - 1, elephant)
  }

  /** Every valve but AA starts closed. */
  function Closed(v: Volcano): (r: set<int>)
    requires Valid(v)
    ensures AllValves(v, r)
    ensures forall i :: IsValve(v, i) ==> (i in r <==> i != v.start)
  {
    set i: int | 0 <= i < |v.flowRates| && IsValve(v, i) && i != v.start
  }

  /** `part1`: thirty minutes, alone. */
  function Part1(v: Volcano): (r: int)
    requires Valid(v)
    ensures r >= 0
    ensures forall next :: next in Closed(v) && Reachable(v, v.start, next, 30) ==>
      r >= Gain(v, v.start, Closed(v), 30, false, next)
  {
    SearchIsMax(v, v.start, Closed(v), 30, false);
    Search(v, v.start, Closed(v), 30, false)
  }

  /** `part2`: twenty-six minutes, with the elephant. */
  function Part2(v: Volcano): (r: int)
    requires Valid(v)
    ensures r >= Search(v, v.start, Closed(v), 26, false)
    ensures forall next :: next in Closed(v) && Reachable(v, v.start, next, 26) ==>
      r >= Gain(v, v.start, Closed(v), 26, true, next)
  {
    SearchIsMax(v, v.start, Closed(v), 26, true);
    Search(v, v.start, Closed(v), 26, true)
  }

  // ------------------------------------------------------------- properties

  /** The best move is at least every reachable candidate of `todo`. */
  lemma {:induction false} BestMoveAtLeast(v: Volcano, valve: int, closed: set<int>, todo: set<int>, remaining: int, elephant: bool, next: int)
    requires Valid(v) && IsValve(v, valve) && AllValves(v, closed) && todo <= closed
    requires next in todo && Reachable(v, valve, next, remaining)
    ensures BestMove(v, valve, closed, todo, remaining, elephant) >= Gain(v, valve, closed, remaining, elephant, next)
    decreases |todo|
  {
    var first := MinOf(todo);
    if first != next {
      BestMoveAtLeast(v, valve, closed, todo - {first}, remaining, elephant, next);
    }
  }

  /** The best move is 0 or one of the reachable candidates of `todo`. */
  lemma {:induction false} BestMoveAttained(v: Volcano, valve: int, closed: set<int>, todo: set<int>, remaining: int, elephant: bool)
    requires Valid(v) && IsValve(v, valve) && AllValves(v, closed) && todo <= closed
    ensures var r := BestMove(v, valve, closed, todo, remaining, elephant);
      r == 0 ||
      exists next ::
        next in todo && Reachable(v, valve, next, remaining) &&
        r == Gain(v, valve, closed, remaining, elephant, next)
    decreases |todo|
  {
    if todo != {} {
      var first := MinOf(todo);
      BestMoveAttained(v, valve, closed, todo - {first}, remaining, elephant);
    }
  }

  /** `max(pressures)`: the search result is at least 0, every reachable
      candidate, and, with the elephant, the elephant's restart; and it is
      one of these. */
  lemma SearchIsMax(v: Volcano, valve: int, closed: set<int>, remaining: int, elephant: bool)
    requires Valid(v) && IsValve(v, valve) && AllValves(v, closed)
    ensures var r := Search(v, valve, closed, remaining, elephant);
      (forall next :: next in closed && Reachable(v, valve, next, remaining) ==>
        r >= Gain(v, valve, closed, remaining, elephant, next)) &&
      (elephant ==> r >= Search(v, v.start, closed, 26, false)) &&
      (r == 0 || (elephant && r == Search(v, v.start, closed, 26, false)) ||
        exists next :: next in closed && Reachable(v, valve, next, remaining) &&
          r == Gain(v, valve, closed, remaining, elephant, next))
  {
    forall next | next in closed && Reachable(v, valve, next, remaining)
      ensures Search(v, valve, closed, remaining, elephant) >= Gain(v, valve, closed, remaining, elephant, next)
    {
      BestMoveAtLeast(v, valve, closed, closed, remaining, elephant, next);
    }
    BestMoveAttained(v, valve, closed, closed, remaining, elephant);
  }

  /** A valve out of reach contributes no candidate: with nothing reachable
      and no elephant, nothing more is released. */
  lemma NothingReachable(v: Volcano, valve: int, closed: set<int>, remaining: int)
    requires Valid(v) && IsValve(v, valve) && AllValves(v, closed)
    requires forall next :: next in closed ==> !Reachable(v, valve, next, remaining)
    ensures Search(v, valve, closed, remaining, false) == 0
  {
    BestMoveAttained(v, valve, closed, closed, remaining, false);
  }

  /** Having the elephant never hurts: the search with the elephant option is
      at least the search without it. */
  lemma {:induction false} ElephantHelps(v: Volcano, valve: int, closed: set<int>, remaining: int)
    requires Valid(v) && IsValve(v, valve) && AllValves(v, closed)
    ensures Search(v, valve, closed, remaining, true) >= Search(v, valve, closed, remaining, false)
    decreases |closed|, 1
  {
    BestMoveElephantHelps(v, valve, closed, closed, remaining);
  }

  lemma {:induction false} BestMoveElephantHelps(v: Volcano, valve: int, closed: set<int>, todo: set<int>, remaining: int)
    requires Valid(v) && IsValve(v, valve) && AllValves(v, closed) && todo <= closed
    ensures BestMove(v, valve, closed, todo, remaining, true) >= BestMove(v, valve, closed, todo, remaining, false)
    decreases |closed|, 0, |todo|
  {
    if todo != {} {
      var next := MinOf(todo);
      BestMoveElephantHelps(v, valve, closed, todo - {next}, remaining);
      if v.distances[valve][next] <= remaining {
        ElephantHelps(v, next, closed - {next}, remaining - v.distances[valve][next] - 1);
      }
    }
  }
}
