/** Day 22: a walk on the monkey map, wrapped first as a flat torus and then
    around the faces of a cube. */
module Day22 {
  import opened Common

  /** A complex number as (real, imaginary), that is (row, column). */
  type Vec = (int, int)

  const RightV: Vec := (0, 1)
  const DownV: Vec := (1, 0)
  const LeftV: Vec := (0, -1)
  const UpV: Vec := (-1, 0)
  /** The facings in the order their password values 0, 1, 2, 3 give. */
  const Facings: seq<Vec> := [RightV, DownV, LeftV, UpV]

  datatype Turn = L | R

  /** A position and a facing, the two fields the walk updates. */
  datatype Pose = Pose(pos: Vec, facing: Vec)

  function Add(a: Vec, b: Vec): Vec
  {
    (a.0 + b.0, a.1 + b.1)
  }

  function Neg(a: Vec): Vec
  {
    (-a.0, -a.1)
  }

  /** Complex multiplication. */
  function Mul(a: Vec, b: Vec): Vec
  {
    (a.0 * b.0 - a.1 * b.1, a.0 * b.1 + a.1 * b.0)
  }

  /** The factor a turn multiplies the facing by: i for "L", -i for "R". */
  function TurnFactor(t: Turn): Vec
  {
    if t == L then (0, 1) else (0, -1)
  }

  function Turned(facing: Vec, t: Turn): Vec
  {
    Mul(facing, TurnFactor(t))
  }

  /** "L" steps one place back and "R" one place forward in the facing list. */
  lemma TurnIndex(i: int)
    requires 0 <= i < 4
    ensures Turned(Facings[i], L) == Facings[(i + 3) % 4]
    ensures Turned(Facings[i], R) == Facings[(i + 1) % 4]
  {
  }

  /** A left turn and a right turn undo each other, whatever the facing. */
  lemma TurnBack(f: Vec)
    ensures Turned(Turned(f, L), R) == f
    ensures Turned(Turned(f, R), L) == f
  {
  }

  /** The position of `f` in the facing list. */
  function FacingIndex(f: Vec): (i: nat)
    requires f in Facings
    ensures i < 4 && Facings[i] == f
  {
    if f == RightV then 0 else if f == DownV then 1 else if f == LeftV then 2 else 3
  }

  // ----------------------------------------------------------------- parsing

  function CellCode(c: char): int
  {
    if c == '.' then 0 else if c == '#' then 1 else -1
  }

  /** One board line as a row of the array: cell codes, padded with zeros up
      to the width of the first line. */
  function BoardRow(line: string, width: nat): (row: seq<int>)
    requires |line| <= width
    ensures |row| == width
    ensures forall x :: 0 <= x < |line| ==> row[x] == CellCode(line[x])
    ensures forall x :: |line| <= x < width ==> row[x] == 0
  {
    seq(width, x requires 0 <= x < width => if x < |line| then CellCode(line[x]) else 0)
  }

  /** The board array: as wide as the first line; no lines, or a line
      longer than the first, is an indexing error. Cell (y, x) holds the
      code of character x of line y, and 0 past the end of a shorter line:
      numpy's zero padding, which reads as an open tile. */
  function ParseBoard(lines: seq<string>): (r: Option<seq<seq<int>>>)
    ensures r.Some? <==> lines != [] && forall y :: 0 <= y < |lines| ==> |lines[y]| <= |lines[0]|
    ensures r.Some? ==> |r.value| == |lines|
    ensures r.Some? ==> forall y :: 0 <= y < |lines| ==> |r.value[y]| == |lines[0]|
    ensures r.Some? ==> forall y, x :: 0 <= y < |lines| && 0 <= x < |lines[0]| ==>
              r.value[y][x] == if x < |lines[y]| then CellCode(lines[y][x]) else 0
  {
    if lines == [] || exists y :: 0 <= y < |lines| && |lines[y]| > |lines[0]| then None
    else Some(seq(|lines|, y requires 0 <= y < |lines| => BoardRow(lines[y], |lines[0]|)))
  }

  /** The length of the run of digits at the front of `s`. */
  function DigitRun(s: string): (k: nat)
    ensures k <= |s| && AllDigits(s[..k])
    ensures k < |s| ==> !IsDigit(s[k])
  {
    if s == [] || !IsDigit(s[0]) then 0
    else
      var k := 1 + DigitRun(s[1..]);
      assert s[..k] == [s[0]] + s[1..][..k - 1];
      k
  }

  function TurnOf(c: char): Turn
  {
    if c == 'L' then L else R
  }

  /** The non-overlapping matches of one or more digits followed by "L" or
      "R", scanned from the left. */
  function FindSegments(s: string): seq<(nat, Turn)>
    decreases |s|
  {
    if s == [] then []
    else
      var k := DigitRun(s);
      if 0 < k < |s| && (s[k] == 'L' || s[k] == 'R') then
        [(DigitsValue(s[..k]), TurnOf(s[k]))] + FindSegments(s[k + 1..])
      else FindSegments(s[1..])
  }

  /** The path with an "L" appended, so that the last count gets a turn. */
  function ParsePath(path: string): seq<(nat, Turn)>
  {
    FindSegments(path + "L")
  }

  /** A path ending in a count gets the appended left turn as its last turn. */
  lemma ParsePathEndsLeft(path: string)
    requires path != [] && IsDigit(path[|path| - 1])
    ensures ParsePath(path) != [] && ParsePath(path)[|ParsePath(path)| - 1].1 == L
  {
    var s := path + "L";
    assert s[|s| - 1] == 'L' && IsDigit(s[|s| - 2]);
    FindSegmentsEndsLeft(s);
  }

  lemma {:induction false} FindSegmentsEndsLeft(s: string)
    requires |s| >= 2 && s[|s| - 1] == 'L' && IsDigit(s[|s| - 2])
    ensures FindSegments(s) != [] && FindSegments(s)[|FindSegments(s)| - 1].1 == L
    decreases |s|
  {
    var k := DigitRun(s);
    if 0 < k < |s| && (s[k] == 'L' || s[k] == 'R') {
      var rest := s[k + 1..];
      if k + 1 < |s| {
        assert |rest| >= 2 && rest[|rest| - 1] == 'L' && IsDigit(rest[|rest| - 2]);
        FindSegmentsEndsLeft(rest);
      } else {
        assert rest == [] && s[k] == 'L';
      }
    } else {
      if |s| == 2 {
        assert false;
      }
      var rest := s[1..];
      assert rest[|rest| - 1] == 'L' && IsDigit(rest[|rest| - 2]);
      FindSegmentsEndsLeft(rest);
    }
  }

  // -------------------------------------------------------------- the board

  function CellAt(board: seq<seq<int>>, p: Vec): Option<int>
  {
    var y := AxisIndex(|board|, p.0);
    if y.None? then None
    else
      var x := AxisIndex(|board[y.value]|, p.1);
      if x.None? then None else Some(board[y.value][x.value])
  }

  /** `is_empty`: open cells are 0 and walls 1; a cell off the array, or one
      marked -1 outside the map, is an error (None). */
  function IsEmpty(board: seq<seq<int>>, p: Vec): (r: Option<bool>)
    ensures r.Some? <==> CellAt(board, p).Some? && CellAt(board, p).value >= 0
    ensures r == Some(true) <==> CellAt(board, p) == Some(0)
  {
    var v := CellAt(board, p);
    if v.None? || v.value < 0 then None else Some(v.value == 0)
  }

  /** The map of the puzzle input: six 50 by 50 faces laid out as
          A B
          C
        D E
        F        */
  predicate OnMap(p: Vec)
  {
    var (y, x) := p;
    (0 <= y < 50 && 50 <= x < 150) || (50 <= y < 100 && 50 <= x < 100) ||
    (100 <= y < 150 && 0 <= x < 100) || (150 <= y < 200 && 0 <= x < 50)
  }

  /** An array of the input's shape whose map cells are all open or walls. */
  ghost predicate Net(board: seq<seq<int>>)
  {
    |board| == 200 && (forall y :: 0 <= y < 200 ==> |board[y]| == 150) &&
    forall y, x :: OnMap((y, x)) ==> board[y][x] >= 0
  }

  lemma NetCell(board: seq<seq<int>>, p: Vec)
    requires Net(board) && OnMap(p)
    ensures IsEmpty(board, p).Some?
  {
    assert board[p.0][p.1] >= 0;
  }

  // ------------------------------------------------------------ flat wrap

  /** Position `x` brought back into the band `lo..lo+m-1` that wraps around. */
  function Cycle(x: int, lo: int, m: int): (r: int)
    requires 0 < m
    ensures lo <= r < lo + m
  {
    (x - lo) % m + lo
  }

  function WrapLeftRight(p: Vec, facing: Vec): (r: Pose)
    ensures r.facing == facing && r.pos.0 == p.0
  {
    var (y, x) := p;
    if 0 <= y < 50 then Pose((y, Cycle(x, 50, 100)), facing)
    else if y < 100 then Pose((y, Cycle(x, 50, 50)), facing)
    else if y < 150 then Pose((y, Cycle(x, 0, 100)), facing)
    else Pose((y, Cycle(x, 0, 50)), facing)
  }

  function WrapUpDown(p: Vec, facing: Vec): (r: Pose)
    ensures r.facing == facing && r.pos.1 == p.1
  {
    var (y, x) := p;
    if 0 <= x < 50 then Pose((Cycle(y, 100, 100), x), facing)
    else if x < 100 then Pose((Cycle(y, 0, 150), x), facing)
    else Pose((Cycle(y, 0, 50), x), facing)
  }

  /** The flat wrap: one step, then back onto the map along the same row or
      column; the facing never changes. */
  function Wrap2D(p: Vec, facing: Vec): (r: Pose)
    ensures r.facing == facing
    ensures facing == LeftV || facing == RightV ==> r.pos.0 == p.0
    ensures facing != LeftV && facing != RightV ==> r.pos.1 == p.1 + facing.1
  {
    var q := Add(p, facing);
    if facing == LeftV || facing == RightV then WrapLeftRight(q, facing)
    else WrapUpDown(q, facing)
  }

  /** The flat wrap never leaves the map. */
  lemma Wrap2DOnMap(p: Vec, f: Vec)
    requires OnMap(p) && f in Facings
    ensures OnMap(Wrap2D(p, f).pos)
  {
  }

  /** A step that stays on the map is not wrapped. */
  lemma Wrap2DInside(p: Vec, f: Vec)
    requires OnMap(Add(p, f)) && f in Facings
    ensures Wrap2D(p, f) == Pose(Add(p, f), f)
  {
  }

  /** Stepping back with the reversed facing undoes a flat step. */
  lemma Wrap2DBack(p: Vec, f: Vec)
    requires OnMap(p) && f in Facings
    ensures Wrap2D(Wrap2D(p, f).pos, Neg(f)) == Pose(p, Neg(f))
  {
    if f == LeftV || f == RightV { Wrap2DBackRow(p, f); } else { Wrap2DBackColumn(p, f); }
  }

  /** Moving one place along a band that wraps around, and one place back,
      returns to the start. */
  lemma CycleBack(x: int, lo: int, m: int, d: int)
    requires 0 < m && lo <= x < lo + m && (d == 1 || d == -1)
    ensures Cycle(Cycle(x + d, lo, m) - d, lo, m) == x
  {
    ModIdentity(x - lo, m);
    if lo <= x + d < lo + m {
      ModIdentity(x + d - lo, m);
    } else if d == 1 {
      ModIdentity(0, m);
      ModShift(0, m);
      ModShift(-1, m);
      ModIdentity(m - 1, m);
    } else {
      ModShift(-1, m);
      ModIdentity(m - 1, m);
      ModShift(0, m);
      ModIdentity(0, m);
    }
  }

  lemma Wrap2DBackRow(p: Vec, f: Vec)
    requires OnMap(p) && (f == LeftV || f == RightV)
    ensures Wrap2D(Wrap2D(p, f).pos, Neg(f)) == Pose(p, Neg(f))
  {
    var (y, x) := p;
    var d := f.1;
    var q := Wrap2D(p, f);
    assert q == WrapLeftRight((y, x + d), f);
    assert Wrap2D(q.pos, Neg(f)) == WrapLeftRight((y, q.pos.1 - d), Neg(f));
    RowBack(y, x, d, f, Neg(f));
  }

  /** Along a row of the map, a horizontal wrap one way and then the other
      returns to the start column. */
  lemma RowBack(y: int, x: int, d: int, g: Vec, h: Vec)
    requires OnMap((y, x)) && (d == 1 || d == -1)
    ensures WrapLeftRight((y, WrapLeftRight((y, x + d), g).pos.1 - d), h).pos.1 == x
  {
    if y < 50 {
      CycleBack(x, 50, 100, d);
    } else if y < 100 {
      CycleBack(x, 50, 50, d);
    } else if y < 150 {
      CycleBack(x, 0, 100, d);
    } else {
      CycleBack(x, 0, 50, d);
    }
  }

  lemma Wrap2DBackColumn(p: Vec, f: Vec)
    requires OnMap(p) && (f == UpV || f == DownV)
    ensures Wrap2D(Wrap2D(p, f).pos, Neg(f)) == Pose(p, Neg(f))
  {
    var (y, x) := p;
    var d := f.0;
    var q := Wrap2D(p, f);
    assert q == WrapUpDown((y + d, x), f);
    assert Wrap2D(q.pos, Neg(f)) == WrapUpDown((q.pos.0 - d, x), Neg(f));
    ColumnBack(y, x, d, f, Neg(f));
  }

  /** Along a column of the map, a vertical wrap one way and then the other
      returns to the start row. */
  lemma ColumnBack(y: int, x: int, d: int, g: Vec, h: Vec)
    requires OnMap((y, x)) && (d == 1 || d == -1)
    ensures WrapUpDown((WrapUpDown((y + d, x), g).pos.0 - d, x), h).pos.0 == y
  {
    if x < 50 {
      CycleBack(y, 100, 100, d);
    } else if x < 100 {
      CycleBack(y, 0, 150, d);
    } else {
      CycleBack(y, 0, 50, d);
    }
  }

  // ------------------------------------------------------------ cube wrap

  /** The three edges left going up (A, B and D). */
  function WrapUp(y: int, x: int, facing: Vec): Pose
  {
    if y == -1 && 50 <= x < 100 then Pose((x + 100, 0), RightV)
    else if y == -1 && 100 <= x < 150 then Pose((199, x - 100), UpV)
    else if y == 99 && 0 <= x < 50 then Pose((x + 50, 50), RightV)
    else Pose((y, x), facing)
  }

  /** The three edges left going down (B, E and F). */
  function WrapDown(y: int, x: int, facing: Vec): Pose
  {
    if y == 50 && 100 <= x < 150 then Pose((x - 50, 99), LeftV)
    else if y == 150 && 50 <= x < 100 then Pose((x + 100, 49), LeftV)
    else if y == 200 && 0 <= x < 50 then Pose((0, x + 100), DownV)
    else Pose((y, x), facing)
  }

  /** The four edges left going right (B, C, E and F). */
  function WrapRight(y: int, x: int, facing: Vec): Pose
  {
    if x == 150 && 0 <= y < 50 then Pose(((49 - y) + 100, 99), LeftV)
    else if x == 100 && 50 <= y < 100 then Pose((49, y + 50), UpV)
    else if x == 100 && 100 <= y < 150 then Pose((149 - y, 149), LeftV)
    else if x == 50 && 150 <= y < 200 then Pose((149, y - 100), UpV)
    else Pose((y, x), facing)
  }

  /** The four edges left going left (A, C, D and F). */
  function WrapLeft(y: int, x: int, facing: Vec): Pose
  {
    if x == 49 && 0 <= y < 50 then Pose(((49 - y) + 100, 0), RightV)
    else if x == 49 && 50 <= y < 100 then Pose((100, y - 50), DownV)
    else if x == -1 && 100 <= y < 150 then Pose((149 - y, 50), RightV)
    else if x == -1 && 150 <= y < 200 then Pose((0, y - 100), DownV)
    else Pose((y, x), facing)
  }

  /** The cube wrap: one step, then across an edge of the net when the step
      left a face; the facing stays one of the four. */
  function Wrap3D(p: Vec, facing: Vec): (r: Pose)
    requires facing in Facings
    ensures r.facing in Facings
  {
    var (y, x) := Add(p, facing);
    if facing == UpV then WrapUp(y, x, facing)
    else if facing == DownV then WrapDown(y, x, facing)
    else if facing == RightV then WrapRight(y, x, facing)
    else WrapLeft(y, x, facing)
  }

  /** A step that stays on the map crosses no edge. */
  lemma Wrap3DInside(p: Vec, f: Vec)
    requires OnMap(Add(p, f)) && f in Facings
    ensures Wrap3D(p, f) == Pose(Add(p, f), f)
  {
  }

  /** Every edge of the net leads back onto the map. */
  lemma Wrap3DOnMap(p: Vec, f: Vec)
    requires OnMap(p) && f in Facings
    ensures OnMap(Wrap3D(p, f).pos)
  {
    if f == UpV { Wrap3DOnMapUp(p); }
    else if f == DownV { Wrap3DOnMapDown(p); }
    else if f == RightV { Wrap3DOnMapRight(p); }
    else { Wrap3DOnMapLeft(p); }
  }

  lemma Wrap3DOnMapUp(p: Vec)
    requires OnMap(p)
    ensures OnMap(Wrap3D(p, UpV).pos)
  {
  }

  lemma Wrap3DOnMapDown(p: Vec)
    requires OnMap(p)
    ensures OnMap(Wrap3D(p, DownV).pos)
  {
  }

  lemma Wrap3DOnMapRight(p: Vec)
    requires OnMap(p)
    ensures OnMap(Wrap3D(p, RightV).pos)
  {
  }

  lemma Wrap3DOnMapLeft(p: Vec)
    requires OnMap(p)
    ensures OnMap(Wrap3D(p, LeftV).pos)
  {
  }

  /** Each edge is glued consistently: crossing it and stepping back with the
      reversed facing returns to the starting cell with the reversed
      starting facing. */
  lemma Wrap3DBack(p: Vec, f: Vec)
    requires OnMap(p) && f in Facings
    ensures Neg(Wrap3D(p, f).facing) in Facings
    ensures Wrap3D(Wrap3D(p, f).pos, Neg(Wrap3D(p, f).facing)) == Pose(p, Neg(f))
  {
    if f == UpV { Wrap3DBackUp(p); }
    else if f == DownV { Wrap3DBackDown(p); }
    else if f == RightV { Wrap3DBackRight(p); }
    else { Wrap3DBackLeft(p); }
  }

  lemma Wrap3DBackUp(p: Vec)
    requires OnMap(p)
    ensures Neg(Wrap3D(p, UpV).facing) in Facings
    ensures Wrap3D(Wrap3D(p, UpV).pos, Neg(Wrap3D(p, UpV).facing)) == Pose(p, DownV)
  {
  }

  lemma Wrap3DBackDown(p: Vec)
    requires OnMap(p)
    ensures Neg(Wrap3D(p, DownV).facing) in Facings
    ensures Wrap3D(Wrap3D(p, DownV).pos, Neg(Wrap3D(p, DownV).facing)) == Pose(p, UpV)
  {
  }

  lemma Wrap3DBackRight(p: Vec)
    requires OnMap(p)
    ensures Neg(Wrap3D(p, RightV).facing) in Facings
    ensures Wrap3D(Wrap3D(p, RightV).pos, Neg(Wrap3D(p, RightV).facing)) == Pose(p, LeftV)
  {
  }

  lemma Wrap3DBackLeft(p: Vec)
    requires OnMap(p)
    ensures Neg(Wrap3D(p, LeftV).facing) in Facings
    ensures Wrap3D(Wrap3D(p, LeftV).pos, Neg(Wrap3D(p, LeftV).facing)) == Pose(p, RightV)
  {
  }

  // ----------------------------------------------------------------- walking

  function Wrap(cube: bool, p: Vec, facing: Vec): (r: Pose)
    requires facing in Facings
    ensures r.facing in Facings
  {
    if cube then Wrap3D(p, facing) else Wrap2D(p, facing)
  }

  /** `step`: the wrapped cell is entered only when it is open; a wall leaves
      the pose as it was; an off-map cell is an error (None). */
  function Next(board: seq<seq<int>>, cube: bool, s: Pose): (r: Option<Pose>)
    requires s.facing in Facings
    ensures r.None? <==> IsEmpty(board, Wrap(cube, s.pos, s.facing).pos).None?
    ensures r.Some? ==> r.value.facing in Facings
    ensures r.Some? ==> r.value == s || (r.value == Wrap(cube, s.pos, s.facing) && CellAt(board, r.value.pos) == Some(0))
    ensures IsEmpty(board, Wrap(cube, s.pos, s.facing).pos) == Some(false) ==> r == Some(s)
  {
    var w := Wrap(cube, s.pos, s.facing);
    var e := IsEmpty(board, w.pos);
    if e.None? then None else if e.value then Some(w) else Some(s)
  }

  /** `n` steps in a row. */
  function Steps(board: seq<seq<int>>, cube: bool, s: Pose, n: nat): (r: Option<Pose>)
    requires s.facing in Facings
    ensures r.Some? ==> r.value.facing in Facings
    decreases n
  {
    if n == 0 then Some(s)
    else
      var t := Next(board, cube, s);
      if t.None? then None else Steps(board, cube, t.value, n - 1)
  }

  /** The segments of a path, each its steps followed by its turn. */
  function WalkSegments(board: seq<seq<int>>, cube: bool, s: Pose, path: seq<(nat, Turn)>): (r: Option<Pose>)
    requires s.facing in Facings
    ensures r.Some? ==> r.value.facing in Facings
    decreases |path|
  {
    if path == [] then Some(s)
    else
      var a := Steps(board, cube, s, path[0].0);
      if a.None? then None
      else
        TurnIndex(FacingIndex(a.value.facing));
        WalkSegments(board, cube, Pose(a.value.pos, Turned(a.value.facing, path[0].1)), path[1..])
  }

  /** `walk`: every segment, then the closing right turn. */
  function Walked(board: seq<seq<int>>, cube: bool, s: Pose, path: seq<(nat, Turn)>): (r: Option<Pose>)
    requires s.facing in Facings
    ensures r.Some? ==> r.value.facing in Facings
  {
    var w := WalkSegments(board, cube, s, path);
    if w.None? then None
    else
      TurnIndex(FacingIndex(w.value.facing));
      Some(Pose(w.value.pos, Turned(w.value.facing, R)))
  }

  /** On an array of the input's shape, steps stay on the map and never fail. */
  lemma {:induction false} NetSteps(board: seq<seq<int>>, cube: bool, s: Pose, n: nat)
    requires Net(board) && OnMap(s.pos) && s.facing in Facings
    ensures Steps(board, cube, s, n).Some? && OnMap(Steps(board, cube, s, n).value.pos)
    decreases n
  {
    if n > 0 {
      var w := Wrap(cube, s.pos, s.facing);
      if cube { Wrap3DOnMap(s.pos, s.facing); } else { Wrap2DOnMap(s.pos, s.facing); }
      NetCell(board, w.pos);
      NetSteps(board, cube, Next(board, cube, s).value, n - 1);
    }
  }

  lemma {:induction false} NetWalkSegments(board: seq<seq<int>>, cube: bool, s: Pose, path: seq<(nat, Turn)>)
    requires Net(board) && OnMap(s.pos) && s.facing in Facings
    ensures WalkSegments(board, cube, s, path).Some?
    ensures OnMap(WalkSegments(board, cube, s, path).value.pos)
    decreases |path|
  {
    if path != [] {
      NetSteps(board, cube, s, path[0].0);
      var a := Steps(board, cube, s, path[0].0).value;
      TurnIndex(FacingIndex(a.facing));
      NetWalkSegments(board, cube, Pose(a.pos, Turned(a.facing, path[0].1)), path[1..]);
    }
  }

  lemma {:induction false} WalkSegmentsAppend(board: seq<seq<int>>, cube: bool, s: Pose, path: seq<(nat, Turn)>, last: (nat, Turn))
    requires s.facing in Facings
    ensures var w := WalkSegments(board, cube, s, path);
      WalkSegments(board, cube, s, path + [last]) ==
        if w.None? then None
        else
          var a := Steps(board, cube, w.value, last.0);
          if a.None? then None else Some(Pose(a.value.pos, Turned(a.value.facing, last.1)))
    decreases |path|
  {
    if path == [] {
      assert [last][1..] == [];
    } else {
      assert (path + [last])[1..] == path[1..] + [last];
      var a := Steps(board, cube, s, path[0].0);
      if a.Some? {
        TurnIndex(FacingIndex(a.value.facing));
        WalkSegmentsAppend(board, cube, Pose(a.value.pos, Turned(a.value.facing, path[0].1)), path[1..], last);
      }
    }
  }

  /** The closing right turn cancels the left turn appended to the last
      segment: the walk ends facing the way its last steps went. */
  lemma WalkEndsFacingLastSteps(board: seq<seq<int>>, cube: bool, s: Pose, path: seq<(nat, Turn)>, n: nat)
    requires s.facing in Facings
    ensures var w := WalkSegments(board, cube, s, path);
      Walked(board, cube, s, path + [(n, L)]) ==
        if w.None? then None else Steps(board, cube, w.value, n)
  {
    WalkSegmentsAppend(board, cube, s, path, (n, L));
    var w := WalkSegments(board, cube, s, path);
    if w.Some? {
      var a := Steps(board, cube, w.value, n);
      if a.Some? {
        TurnIndex(FacingIndex(a.value.facing));
        TurnBack(a.value.facing);
      }
    }
  }

  // ---------------------------------------------------------------- password

  /** `password`: 1000 per row, 4 per column, both counted from one, plus the
      facing's index. */
  function Password(s: Pose): int
    requires s.facing in Facings
  {
    1000 * (s.pos.0 + 1) + 4 * (s.pos.1 + 1) + FacingIndex(s.facing)
  }

  /** Row, column and facing read back from a password. */
  function Unpassword(pw: int): Pose
  {
    Pose((pw / 1000 - 1, pw % 1000 / 4 - 1), Facings[pw % 4])
  }

  /** The password determines the pose when the column is below 249, as it is
      on any board narrower than 250. */
  lemma PasswordDecodes(s: Pose)
    requires s.facing in Facings && 0 <= s.pos.1 < 249
    ensures Unpassword(Password(s)) == s
  {
    var pw := Password(s);
    var low := 4 * (s.pos.1 + 1) + FacingIndex(s.facing);
    assert 0 <= low < 1000;
    assert pw == 1000 * (s.pos.0 + 1) + low;
    assert pw / 1000 == s.pos.0 + 1 && pw % 1000 == low;
    assert low / 4 == s.pos.1 + 1 && low % 4 == FacingIndex(s.facing);
    assert pw % 4 == low % 4;
  }

  // ---------------------------------------------------------------- the board

  /** The walker: a fixed board, the kind of wrap, and the position and facing
      that the walk updates in place. */
  class Board {
    const board: seq<seq<int>>
    const cube: bool
    var pos: Vec
    var facing: Vec

    ghost predicate Valid()
      reads this
    {
      facing in Facings
    }

    function Current(): Pose
      reads this
    {
      Pose(pos, facing)
    }

    /** The walk starts at the top-left open cell of the input, facing right. */
    constructor(board: seq<seq<int>>, cube: bool)
      ensures this.board == board && this.cube == cube
      ensures pos == (0, 50) && facing == RightV && Valid()
    {
      this.board := board;
      this.cube := cube;
      pos := (0, 50);
      facing := RightV;
    }

    method TurnTo(t: Turn)
      requires Valid()
      modifies this
      ensures Valid()
      ensures pos == old(pos) && facing == Turned(old(facing), t)
    {
      TurnIndex(FacingIndex(facing));
      facing := Mul(facing, TurnFactor(t));
    }

    method Step() returns (ok: bool)
      requires Valid()
      modifies this
      ensures Valid()
      ensures ok <==> Next(board, cube, old(Current())).Some?
      ensures ok ==> Current() == Next(board, cube, old(Current())).value
    {
      var w := Wrap(cube, pos, facing);
      var e := IsEmpty(board, w.pos);
      if e.None? {
        return false;
      }
      if e.value {
        pos := w.pos;
        facing := w.facing;
      }
      ok := true;
    }

    /** The inner loop of `walk`: `n` steps. */
    method Forward(n: nat) returns (ok: bool)
      requires Valid()
      modifies this
      ensures Valid()
      ensures ok <==> Steps(board, cube, old(Current()), n).Some?
      ensures ok ==> Current() == Steps(board, cube, old(Current()), n).value
    {
      var k := 0;
      while k < n
        invariant 0 <= k <= n && Valid()
        invariant Steps(board, cube, old(Current()), n) == Steps(board, cube, Current(), n - k)
      {
        var moved := Step();
        if !moved {
          return false;
        }
        k := k + 1;
      }
      ok := true;
    }

    method Walk(path: seq<(nat, Turn)>) returns (ok: bool)
      requires Valid()
      modifies this
      ensures Valid()
      ensures ok <==> Walked(board, cube, old(Current()), path).Some?
      ensures ok ==> Current() == Walked(board, cube, old(Current()), path).value
    {
      var i := 0;
      while i < |path|
        invariant 0 <= i <= |path| && Valid()
        invariant WalkSegments(board, cube, old(Current()), path) ==
          WalkSegments(board, cube, Current(), path[i..])
      {
        var (n, t) := path[i];
        var moved := Forward(n);
        if !moved {
          return false;
        }
        assert path[i..][1..] == path[i + 1..];
        TurnTo(t);
        i := i + 1;
      }
      TurnTo(R);
      ok := true;
    }

    method ReadPassword() returns (r: int)
      requires Valid()
      ensures r == Password(Current())
    {
      r := 1000 * (pos.0 + 1) + 4 * (pos.1 + 1) + FacingIndex(facing);
    }
  }

  /** The password the walk reaches, or None when it fails. */
  function Outcome(board: seq<seq<int>>, cube: bool, path: seq<(nat, Turn)>): Option<int>
  {
    var w := Walked(board, cube, Pose((0, 50), RightV), path);
    if w.None? then None else Some(Password(w.value))
  }

  /** On an array of the input's shape neither walk ever fails. */
  lemma NetOutcome(board: seq<seq<int>>, cube: bool, path: seq<(nat, Turn)>)
    requires Net(board)
    ensures Outcome(board, cube, path).Some?
  {
    NetWalkSegments(board, cube, Pose((0, 50), RightV), path);
  }

  method Part1(board: seq<seq<int>>, path: seq<(nat, Turn)>) returns (r: Option<int>)
    ensures r == Outcome(board, false, path)
  {
    var b := new Board(board, false);
    var ok := b.Walk(path);
    if !ok {
      return None;
    }
    var pw := b.ReadPassword();
    r := Some(pw);
  }

  method Part2(board: seq<seq<int>>, path: seq<(nat, Turn)>) returns (r: Option<int>)
    ensures r == Outcome(board, true, path)
  {
    var b := new Board(board, true);
    var ok := b.Walk(path);
    if !ok {
      return None;
    }
    var pw := b.ReadPassword();
    r := Some(pw);
  }
}
