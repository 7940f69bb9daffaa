/** Rope bridge: a rope of knots on an integer grid; the head follows the
    moves and every other knot follows the knot before it. A position is a
    (row, column) pair: "U" decreases the row and "R" increases the column. */
module Day09 {
  import opened Common

  type Pos = (int, int)

  const Origin: Pos := (0, 0)

  /** `DIRECTIONS`; any other letter is a failed lookup (KeyError). */
  function Direction(d: string): Option<Pos>
  {
    if d == "U" then Some((-1, 0))
    else if d == "R" then Some((0, 1))
    else if d == "D" then Some((1, 0))
    else if d == "L" then Some((0, -1))
    else None
  }

  /** `[direction] * int(times)`: no copies for a count of 0 or less. */
  function Repeat(d: string, times: int): (r: seq<string>)
    ensures |r| == if times > 0 then times else 0
    ensures forall i :: 0 <= i < |r| ==> r[i] == d
    decreases if times > 0 then times else 0
  {
    if times <= 0 then [] else [d] + Repeat(d, times - 1)
  }

  /** `chain.from_iterable` over the lines (direction, count). */
  function Expand(lines: seq<(string, int)>): seq<string>
  {
    if lines == [] then []
    else Expand(lines[..|lines| - 1]) + Repeat(lines[|lines| - 1].0, lines[|lines| - 1].1)
  }

  /** The direction vectors of a list of letters; the lookup fails on the
      first letter not in the table. */
  function Lookup(letters: seq<string>): (r: Option<seq<Pos>>)
    ensures r.Some? <==> forall i :: 0 <= i < |letters| ==> Direction(letters[i]).Some?
    ensures r.Some? ==>
      |r.value| == |letters| && forall i :: 0 <= i < |letters| ==> r.value[i] == Direction(letters[i]).value
  {
    if letters == [] then Some([])
    else
      var init := letters[..|letters| - 1];
      var rest := Lookup(init);
      var last := Direction(letters[|letters| - 1]);
      assert forall i :: 0 <= i < |init| ==> init[i] == letters[i];
      if rest.None? || last.None? then None else Some(rest.value + [last.value])
  }

  /** `parse`: one unit move per step of every line. */
  function Parse(lines: seq<(string, int)>): Option<seq<Pos>>
  {
    Lookup(Expand(lines))
  }

  function Sign(v: int): int
  {
    if v > 0 then 1 else if v < 0 then -1 else 0
  }

  /** `_direction_vec`: each component clipped to its sign. */
  function DirectionVec(d: Pos): (r: Pos)
    ensures -1 <= r.0 <= 1 && -1 <= r.1 <= 1
  {
    (Sign(d.0), Sign(d.1))
  }

  function Add(a: Pos, b: Pos): Pos
  {
    (a.0 + b.0, a.1 + b.1)
  }

  /** `np.abs(distance) >= 2`, squared to stay within the integers. */
  predicate Apart(head: Pos, tail: Pos)
  {
    var (dr, dc) := (head.0 - tail.0, head.1 - tail.1);
    dr * dr + dc * dc >= 4
  }

  /** One knot following the knot before it. */
  function Follow(head: Pos, tail: Pos): Pos
  {
    if Apart(head, tail) then Add(tail, DirectionVec((head.0 - tail.0, head.1 - tail.1))) else tail
  }

  function Abs(v: int): nat
  {
    if v < 0 then -v else v
  }

  /** Two knots touch: they are at Chebyshev distance at most 1. */
  predicate Touching(a: Pos, b: Pos)
  {
    Abs(a.0 - b.0) <= 1 && Abs(a.1 - b.1) <= 1
  }

  // ---------------------------------------------------------------- part 1

  /** Head and tail after the moves. */
  function Rope2(moves: seq<Pos>): (Pos, Pos)
  {
    if moves == [] then (Origin, Origin)
    else
      var (head, tail) := Rope2(moves[..|moves| - 1]);
      var head' := Add(head, moves[|moves| - 1]);
      (head', Follow(head', tail))
  }

  /** Every tail position: the origin and the tail after each move. */
  function TailTrail(moves: seq<Pos>): set<Pos>
  {
    if moves == [] then {Origin} else TailTrail(moves[..|moves| - 1]) + {Rope2(moves).1}
  }

  /** `part1`. */
  method Part1(moves: seq<Pos>) returns (count: nat)
    ensures count == |TailTrail(moves)|
  {
    var head, tail := Origin, Origin;
    var positions := {tail};
    var i := 0;
    while i < |moves|
      invariant 0 <= i <= |moves|
      invariant (head, tail) == Rope2(moves[..i])
      invariant positions == TailTrail(moves[..i])
    {
      assert moves[..i + 1][..i] == moves[..i];
      head := Add(head, moves[i]);
      tail := Follow(head, tail);
      positions := positions + {tail};
      i := i + 1;
    }
    assert moves[..|moves|] == moves;
    count := |positions|;
  }

  // ---------------------------------------------------------------- part 2

  const KnotCount := 10

  /** The inner loop of `part2` from knot `i` on: each knot follows the
      (already moved) knot before it. */
  function PullFrom(knots: seq<Pos>, i: nat): (r: seq<Pos>)
    requires 1 <= i
    ensures |r| == |knots|
    decreases |knots| - i
  {
    if i >= |knots| then knots
    else PullFrom(knots[i := Follow(knots[i - 1], knots[i])], i + 1)
  }

  /** The whole rope after one move of the head. */
  function MoveRope(knots: seq<Pos>, move: Pos): (r: seq<Pos>)
    requires knots != []
    ensures |r| == |knots|
  {
    PullFrom(knots[0 := Add(knots[0], move)], 1)
  }

  function Rope(moves: seq<Pos>): (r: seq<Pos>)
    ensures |r| == KnotCount
  {
    if moves == [] then seq(KnotCount, _ => Origin)
    else MoveRope(Rope(moves[..|moves| - 1]), moves[|moves| - 1])
  }

  function LastTrail(moves: seq<Pos>): set<Pos>
  {
    if moves == [] then {Origin} else LastTrail(moves[..|moves| - 1]) + {Rope(moves)[KnotCount - 1]}
  }

  /** `part2`: the rope is an array of ten knots, updated in place. */
  method Part2(moves: seq<Pos>) returns (count: nat)
    ensures count == |LastTrail(moves)|
  {
    var knots := new Pos[KnotCount](_ => Origin);
    assert knots[..] == Rope([]);
    var positions := {knots[KnotCount - 1]};
    var m := 0;
    while m < |moves|
      invariant 0 <= m <= |moves|
      invariant knots[..] == Rope(moves[..m])
      invariant positions == LastTrail(moves[..m])
    {
      assert moves[..m + 1][..m] == moves[..m];
      ghost var target := MoveRope(knots[..], moves[m]);
      knots[0] := Add(knots[0], moves[m]);
      var i := 1;
      while i < KnotCount
        invariant 1 <= i <= KnotCount
        invariant PullFrom(knots[..], i) == target
      {
        knots[i] := Follow(knots[i - 1], knots[i]);
        i := i + 1;
      }
      positions := positions + {knots[KnotCount - 1]};
      m := m + 1;
    }
    assert moves[..|moves|] == moves;
    count := |positions|;
  }

  // ---------------------------------------------------------------- properties

  /** `parse` expands every line into as many unit moves as its count says. */
  lemma {:induction false} ExpandLength(lines: seq<(string, int)>)
    requires forall i :: 0 <= i < |lines| ==> lines[i].1 >= 0
    ensures |Expand(lines)| == SumCounts(lines)
    decreases |lines|
  {
    if lines != [] {
      var init := lines[..|lines| - 1];
      assert forall i :: 0 <= i < |init| ==> init[i] == lines[i];
      ExpandLength(init);
    }
  }

  function SumCounts(lines: seq<(string, int)>): int
  {
    if lines == [] then 0 else SumCounts(lines[..|lines| - 1]) + lines[|lines| - 1].1
  }

  /** Every parsed move is a unit step in one direction. */
  lemma UnitMoves(lines: seq<(string, int)>)
    requires Parse(lines).Some?
    ensures forall i :: 0 <= i < |Parse(lines).value| ==>
      var m := Parse(lines).value[i]; Abs(m.0) + Abs(m.1) == 1
  {
  }

  /** A knot moves exactly when it no longer touches the knot before it
      (which is never more than two apart in each direction). */
  lemma FollowMovesWhenApart(head: Pos, tail: Pos)
    requires Abs(head.0 - tail.0) <= 2 && Abs(head.1 - tail.1) <= 2
    ensures Follow(head, tail) == tail <==> Touching(head, tail)
  {
  }

  /** If a knot touched the one before it, and that one took a step of at
      most one in each direction, then after following they touch again, and
      the follower's own step is at most one in each direction. */
  lemma FollowKeepsTouching(head: Pos, head': Pos, tail: Pos)
    requires Touching(head, tail) && Touching(head', head)
    ensures Touching(head', Follow(head', tail))
    ensures Touching(Follow(head', tail), tail)
  {
    var (dr, dc) := (head'.0 - tail.0, head'.1 - tail.1);
    assert -2 <= dr <= 2 && -2 <= dc <= 2;
    if Abs(dr) <= 1 && Abs(dc) <= 1 {
      assert dr * dr <= 1 && dc * dc <= 1;
    }
  }

  /** Every knot of the rope touches the knot before it. */
  ghost predicate Taut(knots: seq<Pos>)
  {
    forall i :: 1 <= i < |knots| ==> Touching(knots[i - 1], knots[i])
  }

  lemma {:induction false} PullFromKeepsTaut(before: seq<Pos>, knots: seq<Pos>, i: nat)
    requires 1 <= i <= |knots| == |before|
    requires Taut(before)
    requires forall k :: i <= k < |knots| ==> knots[k] == before[k]
    requires forall k :: 1 <= k < i ==> Touching(knots[k - 1], knots[k])
    requires Touching(knots[i - 1], before[i - 1])
    ensures Taut(PullFrom(knots, i))
    decreases |knots| - i
  {
    if i < |knots| {
      FollowKeepsTouching(before[i - 1], knots[i - 1], before[i]);
      PullFromKeepsTaut(before, knots[i := Follow(knots[i - 1], knots[i])], i + 1);
    }
  }

  /** After each move, every knot is within one step of the knot before it. */
  lemma MoveRopeKeepsTaut(knots: seq<Pos>, move: Pos)
    requires knots != [] && Taut(knots) && Touching(move, Origin)
    ensures Taut(MoveRope(knots, move))
  {
    PullFromKeepsTaut(knots, knots[0 := Add(knots[0], move)], 1);
  }

  lemma {:induction false} RopeTaut(moves: seq<Pos>)
    requires forall i :: 0 <= i < |moves| ==> Touching(moves[i], Origin)
    ensures Taut(Rope(moves))
    decreases |moves|
  {
    if moves != [] {
      var init := moves[..|moves| - 1];
      assert forall i :: 0 <= i < |init| ==> init[i] == moves[i];
      RopeTaut(init);
      MoveRopeKeepsTaut(Rope(init), moves[|moves| - 1]);
    }
  }

  /** The same for head and tail in part one. */
  lemma {:induction false} Rope2Touching(moves: seq<Pos>)
    requires forall i :: 0 <= i < |moves| ==> Touching(moves[i], Origin)
    ensures Touching(Rope2(moves).0, Rope2(moves).1)
    decreases |moves|
  {
    if moves != [] {
      var init := moves[..|moves| - 1];
      assert forall i :: 0 <= i < |init| ==> init[i] == moves[i];
      Rope2Touching(init);
      var (head, tail) := Rope2(init);
      FollowKeepsTouching(head, Add(head, moves[|moves| - 1]), tail);
    }
  }

  /** The visited sets contain the origin and grow by at most one position
      per move. */
  lemma {:induction false} TrailBounds(moves: seq<Pos>)
    ensures Origin in TailTrail(moves) && 1 <= |TailTrail(moves)| <= |moves| + 1
    ensures Origin in LastTrail(moves) && 1 <= |LastTrail(moves)| <= |moves| + 1
    decreases |moves|
  {
    if moves != [] {
      TrailBounds(moves[..|moves| - 1]);
    }
  }

  /** Part one is the rope of part two cut down to two knots: one move of
      a two-knot rope is the head/tail step of part one. */
  lemma TwoKnotRope(head: Pos, tail: Pos, move: Pos)
    ensures var head' := Add(head, move);
      MoveRope([head, tail], move) == [head', Follow(head', tail)]
  {
    var head' := Add(head, move);
    var k := [head, tail][0 := head'];
    assert k == [head', tail];
    assert PullFrom(k, 1) == PullFrom([head', Follow(head', tail)], 2);
  }
}
