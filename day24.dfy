/** Day 24, "Blizzard Basin": blizzards drift across a walled valley, each
    one step per minute in its own direction, wrapping around inside the
    walls; the expedition may wait or step to a neighbouring square each
    minute, and the answer is the first minute at which the goal can be
    reached. Coordinates are (row, column) pairs on the input map with one
    extra wall row padded on top and one at the bottom. */
module Day24 {
  import opened Common

  type Vec = (int, int)

  /** The five things the expedition can do in a minute: wait, up, down,
      right, left. */
  const Moves: seq<Vec> := [(0, 0), (-1, 0), (1, 0), (0, 1), (0, -1)]

  function Add(a: Vec, b: Vec): Vec
  {
    (a.0 + b.0, a.1 + b.1)
  }

  function Abs(x: int): nat
  {
    if x < 0 then -x else x
  }

  /** `q` is `p` itself or one of its four orthogonal neighbours. */
  predicate Adjacent(p: Vec, q: Vec)
  {
    Abs(q.0 - p.0) + Abs(q.1 - p.1) <= 1
  }

  // ------------------------------------------------------------ arithmetic

  /** Python's `%`: the remainder takes the sign of the divisor; for a
      positive divisor it is Dafny's (Euclidean) remainder. */
  function PyMod(a: int, n: int): (r: int)
    requires n != 0
    ensures n > 0 ==> 0 <= r < n && r == a % n
    ensures n < 0 ==> n < r <= 0
  {
    if n > 0 then a % n else -((-a) % (-n))
  }

  /** The remainders a one-square shift meets: inside the range, one past
      its end, and one before its start. */
  lemma WrapFacts(a: int, n: int)
    requires n != 0
    ensures n > 0 && 0 <= a < n ==> PyMod(a, n) == a
    ensures n > 0 && a == n ==> PyMod(a, n) == 0
    ensures n > 0 && a == -1 ==> PyMod(a, n) == n - 1
  {
    if n > 0 {
      if 0 <= a < n {
        ModIdentity(a, n);
      } else if a == n {
        ModOf(a, n, 1, 0);
      } else if a == -1 {
        ModOf(a, n, -1, n - 1);
      }
    }
  }

  // ------------------------------------------------------------ the map

  /** Every row of the map has the width of the first. */
  predicate Rectangular(grid: seq<seq<char>>)
  {
    forall i :: 0 <= i < |grid| ==> |grid[i]| == |grid[0]|
  }

  function WallRow(n: nat): (r: seq<char>)
    ensures |r| == n && forall i :: 0 <= i < n ==> r[i] == '#'
  {
    seq(n, _ => '#')
  }

  /** `parse`: the input lines as a character array, padded with a row of
      walls above and below. numpy refuses an empty input (the padding needs
      two axes) and a ragged one (None). */
  function Parse(lines: seq<string>): (r: Option<seq<seq<char>>>)
    ensures r.None? <==> |lines| == 0 || !Rectangular(lines)
    ensures r.Some? ==> |r.value| == |lines| + 2 && Rectangular(r.value)
    ensures r.Some? ==> r.value[1..|lines| + 1] == lines
    ensures r.Some? ==> forall c :: 0 <= c < |lines[0]| ==>
                          r.value[0][c] == '#' && r.value[|lines| + 1][c] == '#'
  {
    if |lines| == 0 || !Rectangular(lines) then None
    else
      var pad := WallRow(|lines[0]|);
      var grid := [pad] + lines + [pad];
      assert grid[1..|lines| + 1] == lines;
      Some(grid)
  }

  /** `_coords_of`: the positions holding the given symbol. */
  function CoordsOf(grid: seq<seq<char>>, symbol: char): (r: set<Vec>)
    ensures forall p :: p in r <==>
              0 <= p.0 < |grid| && 0 <= p.1 < |grid[p.0]| && grid[p.0][p.1] == symbol
  {
    set r, c | 0 <= r < |grid| && 0 <= c < |grid[r]| && grid[r][c] == symbol :: (r, c)
  }

  /** `is_wall`: numpy indexing of the map, where negative indices count from
      the end and anything further out raises IndexError (None). */
  function IsWall(grid: seq<seq<char>>, coord: Vec): (r: Option<bool>)
    ensures Rectangular(grid) && |grid| > 0 ==>
              (r.Some? <==> -|grid| <= coord.0 < |grid| && -|grid[0]| <= coord.1 < |grid[0]|)
    ensures 0 <= coord.0 < |grid| && 0 <= coord.1 < |grid[coord.0]| ==>
              r == Some(grid[coord.0][coord.1] == '#')
  {
    var y := AxisIndex(|grid|, coord.0);
    if y.None? then None
    else
      var x := AxisIndex(|grid[y.value]|, coord.1);
      if x.None? then None else Some(grid[y.value][x.value] == '#')
  }

  // ------------------------------------------------------------ blizzards

  /** The four blizzard sets, by the direction they move in. */
  datatype Winds = Winds(right: set<Vec>, left: set<Vec>, up: set<Vec>, down: set<Vec>)

  /** The `blizzards` property: every square holding some blizzard. */
  function Occupied(w: Winds): set<Vec>
  {
    w.right + w.left + w.up + w.down
  }

  /** A step divides by the width only when some blizzard moves sideways,
      and by the height only when some moves vertically; Python raises
      ZeroDivisionError otherwise. */
  predicate Steppable(w: Winds, height: int, width: int)
  {
    (w.right != {} || w.left != {} ==> width != 0) &&
    (w.up != {} || w.down != {} ==> height != 0)
  }

  /** One column to the right, wrapping within columns 1..width. */
  function ShiftRight(b: Vec, width: int): (r: Vec)
    requires width != 0
    ensures r.0 == b.0
    ensures width > 0 ==> 1 <= r.1 <= width
    ensures width > 0 && 1 <= b.1 < width ==> r.1 == b.1 + 1
    ensures width > 0 && b.1 == width ==> r.1 == 1
  {
    WrapFacts(b.1 - 1 + 1, width);
    (b.0, PyMod(b.1 - 1 + 1, width) + 1)
  }

  /** One column to the left, wrapping within columns 1..width. */
  function ShiftLeft(b: Vec, width: int): (r: Vec)
    requires width != 0
    ensures r.0 == b.0
    ensures width > 0 ==> 1 <= r.1 <= width
    ensures width > 0 && 1 < b.1 <= width ==> r.1 == b.1 - 1
    ensures width > 0 && b.1 == 1 ==> r.1 == width
  {
    WrapFacts(b.1 - 1 - 1, width);
    (b.0, PyMod(b.1 - 1 - 1, width) + 1)
  }

  /** One row up, wrapping within rows 2..height+1 (the valley lies below
      the padding row and the top wall). */
  function ShiftUp(b: Vec, height: int): (r: Vec)
    requires height != 0
    ensures r.1 == b.1
    ensures height > 0 ==> 2 <= r.0 <= height + 1
    ensures height > 0 && 2 < b.0 <= height + 1 ==> r.0 == b.0 - 1
    ensures height > 0 && b.0 == 2 ==> r.0 == height + 1
  {
    WrapFacts(b.0 - 2 - 1, height);
    (PyMod(b.0 - 2 - 1, height) + 2, b.1)
  }

  /** One row down, wrapping within rows 2..height+1. */
  function ShiftDown(b: Vec, height: int): (r: Vec)
    requires height != 0
    ensures r.1 == b.1
    ensures height > 0 ==> 2 <= r.0 <= height + 1
    ensures height > 0 && 2 <= b.0 < height + 1 ==> r.0 == b.0 + 1
    ensures height > 0 && b.0 == height + 1 ==> r.0 == 2
  {
    WrapFacts(b.0 - 2 + 1, height);
    (PyMod(b.0 - 2 + 1, height) + 2, b.1)
  }

  /** A sideways shift is undone by the opposite one inside the valley. */
  lemma ShiftSidewaysBack(b: Vec, width: int)
    requires width > 0 && 1 <= b.1 <= width
    ensures ShiftLeft(ShiftRight(b, width), width) == b
    ensures ShiftRight(ShiftLeft(b, width), width) == b
  {
  }

  /** A vertical shift is undone by the opposite one inside the valley. */
  lemma ShiftVerticalBack(b: Vec, height: int)
    requires height > 0 && 2 <= b.0 <= height + 1
    ensures ShiftDown(ShiftUp(b, height), height) == b
    ensures ShiftUp(ShiftDown(b, height), height) == b
  {
  }

  /** `Blizzards.step`: every blizzard moves one square its own way. */
  function StepWinds(w: Winds, height: int, width: int): (r: Winds)
    requires Steppable(w, height, width)
    ensures r.right == {} <==> w.right == {}
    ensures r.left == {} <==> w.left == {}
    ensures r.up == {} <==> w.up == {}
    ensures r.down == {} <==> w.down == {}
  {
    var r := Winds(
      set b | b in w.right :: ShiftRight(b, width),
      set b | b in w.left :: ShiftLeft(b, width),
      set b | b in w.up :: ShiftUp(b, height),
      set b | b in w.down :: ShiftDown(b, height));
    assert forall b :: b in w.right ==> ShiftRight(b, width) in r.right;
    assert forall b :: b in w.left ==> ShiftLeft(b, width) in r.left;
    assert forall b :: b in w.up ==> ShiftUp(b, height) in r.up;
    assert forall b :: b in w.down ==> ShiftDown(b, height) in r.down;
    r
  }

  /** Sideways blizzards sit in columns 1..width, vertical ones in rows
      2..height+1. */
  predicate InValley(w: Winds, height: int, width: int)
  {
    (forall b :: b in w.right ==> 1 <= b.1 <= width) &&
    (forall b :: b in w.left ==> 1 <= b.1 <= width) &&
    (forall b :: b in w.up ==> 2 <= b.0 <= height + 1) &&
    (forall b :: b in w.down ==> 2 <= b.0 <= height + 1)
  }

  /** An injective map keeps the size of a set. */
  lemma {:induction false} InjectiveImageCard(s: set<Vec>, f: Vec -> Vec)
    requires forall a, b :: a in s && b in s && f(a) == f(b) ==> a == b
    ensures |set x | x in s :: f(x)| == |s|
    decreases |s|
  {
    if s != {} {
      var a :| a in s;
      var rest := s - {a};
      InjectiveImageCard(rest, f);
      var image := set x | x in s :: f(x);
      var restImage := set x | x in rest :: f(x);
      assert image == restImage + {f(a)};
      assert f(a) !in restImage;
    }
  }

  /** A step keeps every blizzard inside the valley. */
  lemma StepStaysInValley(w: Winds, height: int, width: int)
    requires height > 0 && width > 0
    ensures InValley(StepWinds(w, height, width), height, width)
  {
  }

  /** Each shift is injective inside the valley, so a step keeps the number
      of blizzards moving each way. */
  lemma StepKeepsCounts(w: Winds, height: int, width: int)
    requires height > 0 && width > 0 && InValley(w, height, width)
    ensures var r := StepWinds(w, height, width);
      |r.right| == |w.right| && |r.left| == |w.left| &&
      |r.up| == |w.up| && |r.down| == |w.down|
  {
    RightCount(w.right, width);
    LeftCount(w.left, width);
    UpCount(w.up, height);
    DownCount(w.down, height);
  }

  lemma RightCount(s: set<Vec>, width: int)
    requires width > 0 && forall b :: b in s ==> 1 <= b.1 <= width
    ensures |set b | b in s :: ShiftRight(b, width)| == |s|
  {
    var f := (b: Vec) => ShiftRight(b, width);
    forall a, b | a in s && b in s && f(a) == f(b)
      ensures a == b
    {
      ShiftSidewaysBack(a, width);
      ShiftSidewaysBack(b, width);
    }
    InjectiveImageCard(s, f);
    assert (set b | b in s :: ShiftRight(b, width)) == set x | x in s :: f(x);
  }

  lemma LeftCount(s: set<Vec>, width: int)
    requires width > 0 && forall b :: b in s ==> 1 <= b.1 <= width
    ensures |set b | b in s :: ShiftLeft(b, width)| == |s|
  {
    var f := (b: Vec) => ShiftLeft(b, width);
    forall a, b | a in s && b in s && f(a) == f(b)
      ensures a == b
    {
      ShiftSidewaysBack(a, width);
      ShiftSidewaysBack(b, width);
    }
    InjectiveImageCard(s, f);
    assert (set b | b in s :: ShiftLeft(b, width)) == set x | x in s :: f(x);
  }

  lemma UpCount(s: set<Vec>, height: int)
    requires height > 0 && forall b :: b in s ==> 2 <= b.0 <= height + 1
    ensures |set b | b in s :: ShiftUp(b, height)| == |s|
  {
    var f := (b: Vec) => ShiftUp(b, height);
    forall a, b | a in s && b in s && f(a) == f(b)
      ensures a == b
    {
      ShiftVerticalBack(a, height);
      ShiftVerticalBack(b, height);
    }
    InjectiveImageCard(s, f);
    assert (set b | b in s :: ShiftUp(b, height)) == set x | x in s :: f(x);
  }

  lemma DownCount(s: set<Vec>, height: int)
    requires height > 0 && forall b :: b in s ==> 2 <= b.0 <= height + 1
    ensures |set b | b in s :: ShiftDown(b, height)| == |s|
  {
    var f := (b: Vec) => ShiftDown(b, height);
    forall a, b | a in s && b in s && f(a) == f(b)
      ensures a == b
    {
      ShiftVerticalBack(a, height);
      ShiftVerticalBack(b, height);
    }
    InjectiveImageCard(s, f);
    assert (set b | b in s :: ShiftDown(b, height)) == set x | x in s :: f(x);
  }

  /** The blizzards after `k` minutes. */
  function WindsAfter(w: Winds, height: int, width: int, k: nat): (r: Winds)
    requires Steppable(w, height, width)
    ensures Steppable(r, height, width)
  {
    if k == 0 then w else StepWinds(WindsAfter(w, height, width, k - 1), height, width)
  }

  /** Minutes add up: the blizzard state is shared between walks. */
  lemma WindsAfterAdd(w: Winds, height: int, width: int, a: nat, b: nat)
    requires Steppable(w, height, width)
    ensures WindsAfter(WindsAfter(w, height, width, a), height, width, b)
         == WindsAfter(w, height, width, a + b)
  {
    var f := Advance(height, width);
    WindsAfterIterates(w, height, width, a);
    WindsAfterIterates(WindsAfter(w, height, width, a), height, width, b);
    WindsAfterIterates(w, height, width, a + b);
    IterateAdd(f, w, a, b);
  }

  /** One minute of blizzard movement as a function value. */
  function Advance(height: int, width: int): Winds -> Winds
  {
    (v: Winds) => if Steppable(v, height, width) then StepWinds(v, height, width) else v
  }

  /** `f` applied `k` times. */
  function Iterate(f: Winds -> Winds, x: Winds, k: nat): Winds
  {
    if k == 0 then x else f(Iterate(f, x, k - 1))
  }

  lemma {:induction false} IterateAdd(f: Winds -> Winds, x: Winds, a: nat, b: nat)
    ensures Iterate(f, Iterate(f, x, a), b) == Iterate(f, x, a + b)
  {
    if b > 0 {
      IterateAdd(f, x, a, b - 1);
      assert a + b - 1 == a + (b - 1);
    }
  }

  lemma {:induction false} WindsAfterIterates(w: Winds, height: int, width: int, k: nat)
    requires Steppable(w, height, width)
    ensures WindsAfter(w, height, width, k) == Iterate(Advance(height, width), w, k)
  {
    if k > 0 {
      WindsAfterIterates(w, height, width, k - 1);
    }
  }

  /** The squares the blizzards occupy at each minute, starting from `w`. */
  function Storms(w: Winds, height: int, width: int): (storms: nat -> set<Vec>)
    requires Steppable(w, height, width)
    ensures forall k: nat :: storms(k) == Occupied(WindsAfter(w, height, width, k))
  {
    (k: nat) => Occupied(WindsAfter(w, height, width, k))
  }

  /** `Blizzards`: the map, the valley size read off it, and the current
      blizzard sets, which `Step` replaces each minute. */
  class Blizzards {
    const grid: seq<seq<char>>
    const height: int
    const width: int
    var winds: Winds

    /** The valley is the map less the two padding rows and the two wall
        rows, and less the two wall columns. */
    constructor (blizzardMap: seq<seq<char>>)
      requires |blizzardMap| > 0
      ensures grid == blizzardMap
      ensures height == |blizzardMap| - 4 && width == |blizzardMap[0]| - 2
      ensures winds == Winds(CoordsOf(blizzardMap, '>'), CoordsOf(blizzardMap, '<'),
                             CoordsOf(blizzardMap, '^'), CoordsOf(blizzardMap, 'v'))
    {
      grid := blizzardMap;
      height := |blizzardMap| - 4;
      width := |blizzardMap[0]| - 2;
      winds := Winds(CoordsOf(blizzardMap, '>'), CoordsOf(blizzardMap, '<'),
                     CoordsOf(blizzardMap, '^'), CoordsOf(blizzardMap, 'v'));
    }

    /** `step`: advance one minute and report the occupied squares. */
    method Step() returns (coords: set<Vec>)
      requires Steppable(winds, height, width)
      modifies this
      ensures winds == StepWinds(old(winds), height, width)
      ensures Steppable(winds, height, width)
      ensures coords == Occupied(winds)
    {
      winds := StepWinds(winds, height, width);
      coords := Occupied(winds);
    }
  }

  // ------------------------------------------------------------ one minute

  /** Every square one move away from some position. */
  function Candidates(ps: set<Vec>, moves: seq<Vec>): set<Vec>
  {
    set p, m | p in ps && m in moves :: Add(p, m)
  }

  /** A square the expedition may stand on: free of blizzards and not a
      wall. */
  predicate Open(grid: seq<seq<char>>, coords: set<Vec>, q: Vec)
  {
    q !in coords && IsWall(grid, q) == Some(false)
  }

  /** A blizzard-free square whose wall test raises IndexError. */
  predicate Crashes(grid: seq<seq<char>>, coords: set<Vec>, q: Vec)
  {
    q !in coords && IsWall(grid, q).None?
  }

  function Allowed(grid: seq<seq<char>>, coords: set<Vec>, ps: set<Vec>, moves: seq<Vec>): set<Vec>
  {
    set q | q in Candidates(ps, moves) && Open(grid, coords, q)
  }

  predicate Safe(grid: seq<seq<char>>, coords: set<Vec>, ps: set<Vec>, moves: seq<Vec>)
  {
    forall q :: q in Candidates(ps, moves) ==> !Crashes(grid, coords, q)
  }

  /** The five moves reach exactly the adjacent squares. */
  lemma CandidatesAdjacent(ps: set<Vec>)
    ensures forall q :: q in Candidates(ps, Moves) <==> exists p :: p in ps && Adjacent(p, q)
  {
    forall q | exists p :: p in ps && Adjacent(p, q)
      ensures q in Candidates(ps, Moves)
    {
      var p :| p in ps && Adjacent(p, q);
      var m := (q.0 - p.0, q.1 - p.1);
      assert m in Moves;
      assert q == Add(p, m);
    }
  }

  /** The positions reachable one minute later, given the squares the
      blizzards occupy after moving; None if some wall test raises. */
  function Expand(grid: seq<seq<char>>, coords: set<Vec>, positions: set<Vec>): Option<set<Vec>>
  {
    if Safe(grid, coords, positions, Moves) then Some(Allowed(grid, coords, positions, Moves))
    else None
  }

  /** A minute fails exactly when some square next to a position is free of
      blizzards but off the map; otherwise the new positions are exactly the
      open squares next to (or at) an old one. */
  lemma ExpandMeaning(grid: seq<seq<char>>, coords: set<Vec>, positions: set<Vec>)
    ensures var r := Expand(grid, coords, positions);
      r.None? <==> exists p, q :: p in positions && Adjacent(p, q) && Crashes(grid, coords, q)
    ensures var r := Expand(grid, coords, positions);
      r.Some? ==> forall q :: q in r.value <==>
        Open(grid, coords, q) && exists p :: p in positions && Adjacent(p, q)
  {
    CandidatesAdjacent(positions);
  }

  /** Waiting is allowed: a position no blizzard moves onto stays
      reachable. */
  lemma WaitingAllowed(grid: seq<seq<char>>, coords: set<Vec>, positions: set<Vec>, p: Vec)
    requires p in positions && Open(grid, coords, p)
    requires Expand(grid, coords, positions).Some?
    ensures p in Expand(grid, coords, positions).value
  {
    ExpandMeaning(grid, coords, positions);
    assert Adjacent(p, p);
  }

  lemma AllowedSplit(grid: seq<seq<char>>, coords: set<Vec>, done: set<Vec>, p: Vec)
    ensures Allowed(grid, coords, done + {p}, Moves)
         == Allowed(grid, coords, done, Moves) + Allowed(grid, coords, {p}, Moves)
    ensures Safe(grid, coords, done, Moves) && Safe(grid, coords, {p}, Moves)
         ==> Safe(grid, coords, done + {p}, Moves)
  {
    assert Candidates(done + {p}, Moves) == Candidates(done, Moves) + Candidates({p}, Moves);
  }

  lemma AllowedNext(grid: seq<seq<char>>, coords: set<Vec>, p: Vec, k: nat)
    requires k < |Moves|
    ensures var q := Add(p, Moves[k]);
      Allowed(grid, coords, {p}, Moves[..k + 1])
      == Allowed(grid, coords, {p}, Moves[..k]) + (if Open(grid, coords, q) then {q} else {})
    ensures var q := Add(p, Moves[k]);
      Safe(grid, coords, {p}, Moves[..k]) && !Crashes(grid, coords, q)
      ==> Safe(grid, coords, {p}, Moves[..k + 1])
  {
    assert Moves[..k + 1] == Moves[..k] + [Moves[k]];
    assert Candidates({p}, Moves[..k + 1]) == Candidates({p}, Moves[..k]) + {Add(p, Moves[k])};
  }

  /** The inner loop of `_walk` over the five moves from one position. */
  method MovesFrom(grid: seq<seq<char>>, coords: set<Vec>, p: Vec) returns (r: Option<set<Vec>>)
    ensures r.None? <==> !Safe(grid, coords, {p}, Moves)
    ensures r.Some? ==> r.value == Allowed(grid, coords, {p}, Moves)
  {
    var found: set<Vec> := {};
    var k := 0;
    assert Moves[..0] == [];
    while k < |Moves|
      invariant 0 <= k <= |Moves|
      invariant Safe(grid, coords, {p}, Moves[..k])
      invariant found == Allowed(grid, coords, {p}, Moves[..k])
    {
      var q := Add(p, Moves[k]);
      AllowedNext(grid, coords, p, k);
      if q !in coords {
        var wall := IsWall(grid, q);
        if wall.None? {
          assert q in Candidates({p}, Moves);
          return None;
        }
        if !wall.value {
          found := found + {q};
        }
      }
      k := k + 1;
    }
    assert Moves[..k] == Moves;
    r := Some(found);
  }

  /** The loop over positions and moves inside `_walk`. */
  method ExpandStep(grid: seq<seq<char>>, coords: set<Vec>, positions: set<Vec>)
    returns (r: Option<set<Vec>>)
    ensures r == Expand(grid, coords, positions)
  {
    var next: set<Vec> := {};
    var todo := positions;
    ghost var done: set<Vec> := {};
    while todo != {}
      invariant todo + done == positions && todo !! done
      invariant Safe(grid, coords, done, Moves)
      invariant next == Allowed(grid, coords, done, Moves)
      decreases |todo|
    {
      var p :| p in todo;
      var found := MovesFrom(grid, coords, p);
      if found.None? {
        SafePart(grid, coords, positions, p);
        return None;
      }
      AllowedSplit(grid, coords, done, p);
      next := next + found.value;
      todo := todo - {p};
      done := done + {p};
    }
    assert done == positions;
    r := Some(next);
  }

  /** A position that raises makes the whole minute raise. */
  lemma SafePart(grid: seq<seq<char>>, coords: set<Vec>, positions: set<Vec>, p: Vec)
    requires p in positions && !Safe(grid, coords, {p}, Moves)
    ensures !Safe(grid, coords, positions, Moves)
  {
    var q :| q in Candidates({p}, Moves) && Crashes(grid, coords, q);
    assert q in Candidates(positions, Moves);
  }

  // ------------------------------------------------------------ the walk

  /** The reachable positions after `k` minutes, starting from `start`,
      when the blizzards occupy `storms(i)` at minute `i`; None once a wall
      test has raised. */
  function Reach(grid: seq<seq<char>>, storms: nat -> set<Vec>, start: Vec, k: nat): Option<set<Vec>>
  {
    if k == 0 then Some({start})
    else
      var prev := Reach(grid, storms, start, k - 1);
      if prev.None? then None else Expand(grid, storms(k), prev.value)
  }

  /** After every minute, no reachable position is a wall or holds a
      blizzard. */
  lemma ReachOpen(grid: seq<seq<char>>, storms: nat -> set<Vec>, start: Vec, k: nat)
    requires k > 0 && Reach(grid, storms, start, k).Some?
    ensures forall q :: q in Reach(grid, storms, start, k).value ==> Open(grid, storms(k), q)
  {
    ExpandMeaning(grid, storms(k), Reach(grid, storms, start, k - 1).value);
  }

  predicate Arrived(grid: seq<seq<char>>, storms: nat -> set<Vec>, start: Vec, stop: Vec, k: nat)
  {
    var r := Reach(grid, storms, start, k);
    r.Some? && stop in r.value
  }

  /** The goal was not reachable at any of the first `k` minutes. */
  predicate NotYet(grid: seq<seq<char>>, storms: nat -> set<Vec>, start: Vec, stop: Vec, k: nat)
  {
    forall j :: 0 <= j < k ==> !Arrived(grid, storms, start, stop, j)
  }

  /** `t` is the first minute at which the goal is reachable. */
  predicate FirstArrival(grid: seq<seq<char>>, storms: nat -> set<Vec>, start: Vec, stop: Vec, t: nat)
  {
    Arrived(grid, storms, start, stop, t) && NotYet(grid, storms, start, stop, t)
  }

  lemma FirstArrivalUnique(grid: seq<seq<char>>, storms: nat -> set<Vec>, start: Vec, stop: Vec, t: nat, u: nat)
    requires FirstArrival(grid, storms, start, stop, t) && FirstArrival(grid, storms, start, stop, u)
    ensures t == u
  {
  }

  lemma NotYetStep(grid: seq<seq<char>>, storms: nat -> set<Vec>, start: Vec, stop: Vec, k: nat)
    requires NotYet(grid, storms, start, stop, k) && !Arrived(grid, storms, start, stop, k)
    ensures NotYet(grid, storms, start, stop, k + 1)
  {
  }

  /** Once a wall test has raised, nothing is reachable any more. */
  lemma {:induction false} CrashedStays(grid: seq<seq<char>>, storms: nat -> set<Vec>, start: Vec, k: nat, j: nat)
    requires Reach(grid, storms, start, k).None? && k <= j
    ensures Reach(grid, storms, start, j).None?
    decreases j - k
  {
    if k < j {
      CrashedStays(grid, storms, start, k, j - 1);
    }
  }

  /** After a raise the goal is never reached, however long one waits. */
  lemma {:induction false} CrashedNeverArrives(grid: seq<seq<char>>, storms: nat -> set<Vec>, start: Vec, stop: Vec, k: nat, n: nat)
    requires Reach(grid, storms, start, k).None? && NotYet(grid, storms, start, stop, k) && k <= n
    ensures NotYet(grid, storms, start, stop, n)
    decreases n - k
  {
    if k < n {
      CrashedNeverArrives(grid, storms, start, stop, k, n - 1);
      CrashedStays(grid, storms, start, k, n - 1);
      NotYetStep(grid, storms, start, stop, n - 1);
    }
  }

  /** `_walk`: the minutes until `stop` is reachable from `start`, advancing
      the shared blizzards; at most `fuel` minutes are simulated. None if
      a wall test raised or the fuel ran out before arrival. */
  method Walk(b: Blizzards, start: Vec, stop: Vec, fuel: nat) returns (r: Option<nat>)
    requires Steppable(b.winds, b.height, b.width)
    modifies b
    ensures Steppable(b.winds, b.height, b.width)
    ensures r.Some? ==> r.value <= fuel
    ensures r.Some? ==> FirstArrival(b.grid, Storms(old(b.winds), b.height, b.width), start, stop, r.value)
    ensures r.Some? ==> b.winds == WindsAfter(old(b.winds), b.height, b.width, r.value)
    ensures r.None? ==> NotYet(b.grid, Storms(old(b.winds), b.height, b.width), start, stop, fuel + 1)
  {
    ghost var w0 := b.winds;
    ghost var storms := Storms(w0, b.height, b.width);
    var time: nat := 0;
    var positions := {start};
    while stop !in positions
      invariant time <= fuel
      invariant Steppable(b.winds, b.height, b.width)
      invariant b.winds == WindsAfter(w0, b.height, b.width, time)
      invariant Reach(b.grid, storms, start, time) == Some(positions)
      invariant NotYet(b.grid, storms, start, stop, time)
      decreases fuel - time
    {
      NotYetStep(b.grid, storms, start, stop, time);
      if time == fuel {
        return None;
      }
      var coords := b.Step();
      assert coords == storms(time + 1);
      var next := ExpandStep(b.grid, coords, positions);
      assert Reach(b.grid, storms, start, time + 1) == next;
      if next.None? {
        CrashedNeverArrives(b.grid, storms, start, stop, time + 1, fuel + 1);
        return None;
      }
      positions := next.value;
      time := time + 1;
    }
    r := Some(time);
  }

  /** The entrance just below the top padding row, and the exit above the
      bottom one. */
  function Start(): Vec
  {
    (1, 1)
  }

  function Stop(height: int, width: int): Vec
  {
    (height + 2, width)
  }

  /** `part1`: minutes from the entrance to the exit. */
  method Part1(b: Blizzards, fuel: nat) returns (r: Option<nat>)
    requires Steppable(b.winds, b.height, b.width)
    modifies b
    ensures r.Some? ==> FirstArrival(b.grid, Storms(old(b.winds), b.height, b.width),
                                     Start(), Stop(b.height, b.width), r.value)
    ensures r.None? ==> NotYet(b.grid, Storms(old(b.winds), b.height, b.width),
                               Start(), Stop(b.height, b.width), fuel + 1)
    ensures r.Some? ==> b.winds == WindsAfter(old(b.winds), b.height, b.width, r.value)
  {
    r := Walk(b, Start(), Stop(b.height, b.width), fuel);
  }

  /** The three legs of `part2`: each is the first arrival from where the
      previous one ended, with the blizzards advanced by the minutes so far. */
  predicate Legs(grid: seq<seq<char>>, w: Winds, height: int, width: int, t1: nat, t2: nat, t3: nat)
    requires Steppable(w, height, width)
  {
    var start := Start();
    var stop := Stop(height, width);
    FirstArrival(grid, Storms(w, height, width), start, stop, t1) &&
    FirstArrival(grid, Storms(WindsAfter(w, height, width, t1), height, width), stop, start, t2) &&
    FirstArrival(grid, Storms(WindsAfter(w, height, width, t1 + t2), height, width), start, stop, t3)
  }

  lemma LegsIntro(grid: seq<seq<char>>, w0: Winds, w1: Winds, w2: Winds, height: int, width: int,
                  t1: nat, t2: nat, t3: nat)
    requires Steppable(w0, height, width)
    requires w1 == WindsAfter(w0, height, width, t1) && w2 == WindsAfter(w1, height, width, t2)
    requires FirstArrival(grid, Storms(w0, height, width), Start(), Stop(height, width), t1)
    requires FirstArrival(grid, Storms(w1, height, width), Stop(height, width), Start(), t2)
    requires FirstArrival(grid, Storms(w2, height, width), Start(), Stop(height, width), t3)
    ensures Legs(grid, w0, height, width, t1, t2, t3)
  {
    WindsAfterAdd(w0, height, width, t1, t2);
  }

  /** Some leg of `part2` does not arrive within `fuel` minutes: the first
      one, or the second after the first arrived at `t1`, or the third after
      the first two arrived at `t1` and `t2`. */
  ghost predicate LegStuck(grid: seq<seq<char>>, w: Winds, height: int, width: int, fuel: nat)
    requires Steppable(w, height, width)
  {
    var start := Start();
    var stop := Stop(height, width);
    NotYet(grid, Storms(w, height, width), start, stop, fuel + 1) ||
    (exists t1: nat :: FirstArrival(grid, Storms(w, height, width), start, stop, t1) &&
      NotYet(grid, Storms(WindsAfter(w, height, width, t1), height, width), stop, start, fuel + 1)) ||
    (exists t1: nat, t2: nat :: FirstArrival(grid, Storms(w, height, width), start, stop, t1) &&
      FirstArrival(grid, Storms(WindsAfter(w, height, width, t1), height, width), stop, start, t2) &&
      NotYet(grid, Storms(WindsAfter(w, height, width, t1 + t2), height, width), start, stop, fuel + 1))
  }

  /** `part2`: there, back for the snacks, and there again, each leg
      starting with the blizzards where the previous one left them; the
      blizzards end advanced by the total number of minutes. */
  method Part2(b: Blizzards, fuel: nat) returns (r: Option<nat>)
    requires Steppable(b.winds, b.height, b.width)
    modifies b
    ensures r.Some? ==> exists t1: nat, t2: nat, t3: nat ::
              r.value == t1 + t2 + t3 && Legs(b.grid, old(b.winds), b.height, b.width, t1, t2, t3)
    ensures r.Some? ==> b.winds == WindsAfter(old(b.winds), b.height, b.width, r.value)
    ensures r.None? ==> LegStuck(b.grid, old(b.winds), b.height, b.width, fuel)
  {
    ghost var w0 := b.winds;
    var there := Walk(b, Start(), Stop(b.height, b.width), fuel);
    if there.None? {
      StuckFirst(b.grid, w0, b.height, b.width, fuel);
      return None;
    }
    ghost var w1 := b.winds;
    var back := Walk(b, Stop(b.height, b.width), Start(), fuel);
    if back.None? {
      StuckSecond(b.grid, w0, w1, b.height, b.width, there.value, fuel);
      return None;
    }
    ghost var w2 := b.winds;
    var again := Walk(b, Start(), Stop(b.height, b.width), fuel);
    if again.None? {
      StuckThird(b.grid, w0, w1, w2, b.height, b.width, there.value, back.value, fuel);
      return None;
    }
    LegsIntro(b.grid, w0, w1, w2, b.height, b.width, there.value, back.value, again.value);
    r := Some(there.value + back.value + again.value);
    WindsAfterAdd3(w0, w1, w2, b.winds, b.height, b.width, there.value, back.value, again.value, r.value);
  }

  lemma StuckFirst(grid: seq<seq<char>>, w0: Winds, height: int, width: int, fuel: nat)
    requires Steppable(w0, height, width)
    requires NotYet(grid, Storms(w0, height, width), Start(), Stop(height, width), fuel + 1)
    ensures LegStuck(grid, w0, height, width, fuel)
  {
  }

  lemma StuckSecond(grid: seq<seq<char>>, w0: Winds, w1: Winds, height: int, width: int, t1: nat, fuel: nat)
    requires Steppable(w0, height, width) && w1 == WindsAfter(w0, height, width, t1)
    requires FirstArrival(grid, Storms(w0, height, width), Start(), Stop(height, width), t1)
    requires NotYet(grid, Storms(w1, height, width), Stop(height, width), Start(), fuel + 1)
    ensures LegStuck(grid, w0, height, width, fuel)
  {
  }

  lemma StuckThird(grid: seq<seq<char>>, w0: Winds, w1: Winds, w2: Winds, height: int, width: int,
                   t1: nat, t2: nat, fuel: nat)
    requires Steppable(w0, height, width)
    requires w1 == WindsAfter(w0, height, width, t1) && w2 == WindsAfter(w1, height, width, t2)
    requires FirstArrival(grid, Storms(w0, height, width), Start(), Stop(height, width), t1)
    requires FirstArrival(grid, Storms(w1, height, width), Stop(height, width), Start(), t2)
    requires NotYet(grid, Storms(w2, height, width), Start(), Stop(height, width), fuel + 1)
    ensures LegStuck(grid, w0, height, width, fuel)
  {
    WindsAfterAdd(w0, height, width, t1, t2);
  }

  lemma WindsAfterAdd3(w0: Winds, w1: Winds, w2: Winds, w3: Winds, height: int, width: int,
                       t1: nat, t2: nat, t3: nat, total: nat)
    requires Steppable(w0, height, width) && total == t1 + t2 + t3
    requires w1 == WindsAfter(w0, height, width, t1) && w2 == WindsAfter(w1, height, width, t2)
    requires w3 == WindsAfter(w2, height, width, t3)
    ensures w3 == WindsAfter(w0, height, width, total)
  {
    WindsAfterIterates(w0, height, width, t1);
    WindsAfterIterates(w1, height, width, t2);
    WindsAfterIterates(w2, height, width, t3);
    WindsAfterIterates(w0, height, width, total);
    IterateAdd3(Advance(height, width), w0, t1, t2, t3, total);
  }

  lemma IterateAdd3(f: Winds -> Winds, x: Winds, a: nat, b: nat, c: nat, total: nat)
    requires total == a + b + c
    ensures Iterate(f, Iterate(f, Iterate(f, x, a), b), c) == Iterate(f, x, total)
  {
    IterateAdd(f, x, a, b);
    IterateAdd(f, x, a + b, c);
  }
}
