/** Pyroclastic flow: five rock shapes fall in turn into a chamber seven
    units wide, pushed sideways by a repeating pattern of jets of gas. A cell
    is a pair (row, column); row 0 is the lowest row above the floor. A rock
    is the list of its cells, each listed once; the settled rocks form a set
    of cells, the pile. */
module Day17 {
  import opened Common

  type Pos = (int, int)

  /** The cells of a rock, each listed once. */
  type Rock = seq<Pos>

  /** `ROCKS`: the five shapes, each with its lowest row at 0 and its left
      edge at column 0. */
  const Shapes: seq<Rock> := [
    [(0, 0), (0, 1), (0, 2), (0, 3)],
    [(2, 1), (1, 0), (1, 1), (1, 2), (0, 1)],
    [(2, 2), (1, 2), (0, 0), (0, 1), (0, 2)],
    [(3, 0), (2, 0), (1, 0), (0, 0)],
    [(1, 0), (1, 1), (0, 0), (0, 1)]
  ]

  /** `cycle(ROCKS)`: the shape of rock number `k`, counting from 0. */
  function ShapeOf(k: nat): Rock
  {
    if k >= 5 then ShapeOf(k - 5) else Shapes[k]
  }

  const Down: Pos := (-1, 0)

  /** A new rock appears three rows above the tower, two columns from the
      left wall. */
  const SpawnPosition: Pos := (3, 2)
  const ChamberWidth := 7

  // ---------------------------------------------------------------- parsing

  /** `DIRECTIONS`: `<` pushes left, `>` pushes right; any other character
      raises KeyError. */
  function Jet(c: char): Option<Pos>
  {
    if c == '<' then Some((0, -1)) else if c == '>' then Some((0, 1)) else None
  }

  predicate IsJet(d: Pos)
  {
    d == (0, -1) || d == (0, 1)
  }

  /** `parse`: one jet per character. */
  function Parse(text: string): (r: Option<seq<Pos>>)
    ensures r.Some? <==> forall i :: 0 <= i < |text| ==> text[i] in {'<', '>'}
    ensures r.Some? ==> |r.value| == |text| && forall i :: 0 <= i < |text| ==>
      IsJet(r.value[i]) && (r.value[i].1 == -1 <==> text[i] == '<')
  {
    if text == [] then Some([])
    else
      var head := Jet(text[0]);
      var tail := Parse(text[1..]);
      if head.None? || tail.None? then
        assert text[0] !in {'<', '>'} || exists i :: 0 <= i < |text| - 1 && text[1..][i] !in {'<', '>'};
        None
      else Some([head.value] + tail.value)
  }

  // ------------------------------------------------------------------ rocks

  function Shift(c: Pos, d: Pos): Pos
  {
    (c.0 + d.0, c.1 + d.1)
  }

  /** `move`: every cell shifted by `d`. */
  function Move(rock: Rock, d: Pos): (r: Rock)
    ensures |r| == |rock|
  {
    seq(|rock|, i requires 0 <= i < |rock| => Shift(rock[i], d))
  }

  /** The set of cells of a rock. */
  function Cells(rock: Rock): set<Pos>
  {
    set c | c in rock
  }

  /** No cell listed twice. */
  predicate Distinct(rock: Rock)
  {
    forall i, k :: 0 <= i < k < |rock| ==> rock[i] != rock[k]
  }

  /** `_fits_in_chamber`: every cell between the walls. */
  predicate Fits(rock: Rock)
  {
    forall i :: 0 <= i < |rock| ==> 0 <= rock[i].1 < ChamberWidth
  }

  /** `_collision`: a cell below the floor, or a cell already taken (the
      intersection with the pile is not empty). */
  predicate Collision(rock: Rock, pile: set<Pos>)
  {
    (exists i :: 0 <= i < |rock| && rock[i].0 < 0) ||
    (exists i :: 0 <= i < |rock| && rock[i] in pile)
  }

  /** A shape standing on row 0 with no cell below it. */
  ghost predicate Based(shape: Rock)
  {
    (exists i :: 0 <= i < |shape| && shape[i].0 == 0) &&
    forall i :: 0 <= i < |shape| ==> shape[i].0 >= 0
  }

  /** The jets are all sideways pushes. */
  predicate Sideways(jets: seq<Pos>)
  {
    forall k :: 0 <= k < |jets| ==> IsJet(jets[k])
  }

  // --------------------------------------------------------------- settling

  /** A jet push: applied only if the pushed rock fits and does not collide. */
  function Push(pile: set<Pos>, shape: Rock, offset: Pos, jet: Pos): Pos
  {
    var pushed := Shift(offset, jet);
    var moved := Move(shape, pushed);
    if Fits(moved) && !Collision(moved, pile) then pushed else offset
  }

  /** A jet push keeps a free rock free: it either moves by the jet, when
      the pushed rock fits and overlaps nothing, or stays where it was. */
  lemma PushStaysFree(pile: set<Pos>, shape: Rock, offset: Pos, jet: Pos)
    requires Fits(Move(shape, offset)) && !Collision(Move(shape, offset), pile)
    ensures var at := Push(pile, shape, offset, jet);
      var pushed := Move(shape, Shift(offset, jet));
      Fits(Move(shape, at)) && !Collision(Move(shape, at), pile) &&
      (Fits(pushed) && !Collision(pushed, pile) ==> at == Shift(offset, jet)) &&
      (!(Fits(pushed) && !Collision(pushed, pile)) ==> at == offset)
  {
  }

  /** One rock of shape `shape` falling from `offset`, with jet `j` next:
      each step it is pushed by the next jet, then moves down unless that
      would collide. The result is where it comes to rest and which jet is
      next then. */
  function Settle(pile: set<Pos>, shape: Rock, offset: Pos, jets: seq<Pos>, j: nat): (r: (Pos, nat))
    requires j < |jets| && Sideways(jets) && Based(shape) && offset.0 >= 0
    ensures r.1 < |jets|
    decreases offset.0
  {
    var jet := jets[j];
    var at := Push(pile, shape, offset, jet);
    var down := Shift(at, Down);
    if Collision(Move(shape, down), pile) then (at, NextJet(jets, j))
    else
      BasedAboveFloor(shape, down, pile);
      Settle(pile, shape, down, jets, NextJet(jets, j))
  }

  /** `cycle(directions)`: the jet after jet `j`, starting over after the
      last. */
  function NextJet(jets: seq<Pos>, j: nat): (r: nat)
    requires j < |jets|
    ensures r < |jets| && (r == 0 || r == j + 1)
  {
    if j + 1 < |jets| then j + 1 else 0
  }

  /** The state of `_play_tetris`: the settled cells, the tower height, the
      heights after each rock, and the position in the jet pattern. */
  datatype Tower = Tower(pile: set<Pos>, height: int, heights: seq<int>, jets: nat)

  /** `tower_height` after a rock: the largest of the old height and one
      above each cell of the rock. */
  function NewHeight(height: int, rock: Rock): (h: int)
    ensures h >= height && forall i :: 0 <= i < |rock| ==> rock[i].0 < h
    ensures h == height || exists i :: 0 <= i < |rock| && h == rock[i].0 + 1
  {
    if rock == [] then height
    else
      var init := NewHeight(height, rock[..|rock| - 1]);
      var top := rock[|rock| - 1].0 + 1;
      assert forall i :: 0 <= i < |rock| - 1 ==> rock[..|rock| - 1][i] == rock[i];
      if init >= top then init else top
  }

  /** Where a rock of shape `shape` spawned above tower `t` comes to rest,
      and which jet is next then. */
  function Landing(t: Tower, jets: seq<Pos>, shape: Rock): (r: (Pos, nat))
    requires t.jets < |jets| && Sideways(jets) && t.height >= 0 && Based(shape)
    ensures r.1 < |jets|
  {
    Settle(t.pile, shape, (t.height + SpawnPosition.0, SpawnPosition.1), jets, t.jets)
  }

  /** The rock of shape `shape` resting at `settled.0` joins tower `t`. */
  function Place(t: Tower, shape: Rock, settled: (Pos, nat)): (s: Tower)
    ensures s.height >= t.height
  {
    var rock := Move(shape, settled.0);
    var height := NewHeight(t.height, rock);
    Tower(t.pile + Cells(rock), height, t.heights + [height], settled.1)
  }

  /** The tower after a rock of shape `shape` has settled. */
  function Step(t: Tower, jets: seq<Pos>, shape: Rock): (s: Tower)
    requires t.jets < |jets| && Sideways(jets) && t.height >= 0 && Based(shape)
    ensures s.jets < |jets| && s.height >= t.height
  {
    Place(t, shape, Landing(t, jets, shape))
  }

  /** The tower after `n` rocks. */
  function Play(jets: seq<Pos>, n: nat): (t: Tower)
    requires |jets| > 0 && Sideways(jets)
    ensures t.height >= 0 && t.jets < |jets|
    decreases n, 0
  {
    if n == 0 then Tower({}, 0, [], 0)
    else
      var k := n - 1;
      Place(Play(jets, k), ShapeOf(k), Rest(jets, k))
  }

  /** Where rock number `k` comes to rest on the tower of the `k` rocks
      before it. */
  function Rest(jets: seq<Pos>, k: nat): (r: (Pos, nat))
    requires |jets| > 0 && Sideways(jets)
    ensures r.1 < |jets|
    decreases k, 1
  {
    ShapeFacts(k);
    Landing(Play(jets, k), jets, ShapeOf(k))
  }

  /** One more rock is one more step. */
  lemma PlayNext(jets: seq<Pos>, k: nat)
    requires |jets| > 0 && Sideways(jets) && Based(ShapeOf(k))
    ensures Play(jets, k + 1) == Step(Play(jets, k), jets, ShapeOf(k))
  {
  }

  /** `_play_tetris` on a value: the heights, or an error when there are no
      jets to draw from (StopIteration). */
  function Heights(jets: seq<Pos>, n: nat): Option<seq<int>>
    requires Sideways(jets)
  {
    if n == 0 then Some([])
    else if |jets| == 0 then None
    else Some(Play(jets, n).heights)
  }

  /** `_play_tetris`. */
  method PlayTetris(jets: seq<Pos>, n: nat) returns (r: Option<seq<int>>)
    requires Sideways(jets)
    ensures r == Heights(jets, n)
  {
    if n == 0 {
      return Some([]);
    }
    if |jets| == 0 {
      return None;
    }
    var pile: set<Pos> := {};
    var height := 0;
    var heights: seq<int> := [];
    var j := 0;
    var k := 0;
    while k < n
      invariant 0 <= k <= n
      invariant Play(jets, k) == Tower(pile, height, heights, j)
    {
      pile, height, heights, j := PlayOne(jets, k, pile, height, heights, j);
      k := k + 1;
    }
    assert k == n;
    assert Play(jets, n).heights == heights;
    r := Some(heights);
  }

  /** One turn of `_play_tetris`'s loop: rock k joins the tower. */
  method PlayOne(jets: seq<Pos>, k: nat, pile: set<Pos>, height: int, heights: seq<int>, used: nat)
    returns (pile': set<Pos>, height': int, heights': seq<int>, j: nat)
    requires |jets| > 0 && Sideways(jets)
    requires Play(jets, k) == Tower(pile, height, heights, used)
    ensures Play(jets, k + 1) == Tower(pile', height', heights', j)
  {
    ShapeFacts(k);
    PlayNext(jets, k);
    pile', height', heights', j := DropNext(jets, ShapeOf(k), pile, height, heights, used);
  }

  /** The body of `_play_tetris`'s loop: a rock of shape `shape` spawns,
      falls and joins the pile. */
  method DropNext(jets: seq<Pos>, shape: Rock, pile: set<Pos>, height: int, heights: seq<int>, used: nat)
    returns (pile': set<Pos>, height': int, heights': seq<int>, j: nat)
    requires used < |jets| && Sideways(jets) && height >= 0 && Based(shape)
    ensures Step(Tower(pile, height, heights, used), jets, shape) == Tower(pile', height', heights', j)
  {
    var start := (height + SpawnPosition.0, SpawnPosition.1);
    var rock;
    rock, j := DropRock(pile, shape, start, jets, used);
    pile' := pile + Cells(rock);
    height' := NewHeight(height, rock);
    heights' := heights + [height'];
  }

  /** The inner loop of `_play_tetris`: one rock falls from `start` until
      it rests. */
  method DropRock(pile: set<Pos>, shape: Rock, start: Pos, jets: seq<Pos>, used: nat) returns (rock: Rock, j: nat)
    requires used < |jets| && Sideways(jets) && Based(shape) && start.0 >= 0
    ensures rock == Move(shape, Settle(pile, shape, start, jets, used).0)
    ensures j == Settle(pile, shape, start, jets, used).1
  {
    rock := Move(shape, start);
    j := used;
    ghost var offset := start;
    ghost var goal := Settle(pile, shape, start, jets, used);
    while true
      invariant rock == Move(shape, offset) && offset.0 >= 0 && j < |jets|
      invariant Settle(pile, shape, offset, jets, j) == goal
      decreases offset.0
    {
      ghost var before, k := offset, j;
      var jet := jets[j];
      j := NextJet(jets, j);
      var moved := Move(rock, jet);
      MoveTwice(shape, offset, jet);
      if Fits(moved) && !Collision(moved, pile) {
        rock := moved;
        offset := Shift(offset, jet);
      }
      assert offset == Push(pile, shape, before, jet);
      var down := Move(rock, Down);
      MoveTwice(shape, offset, Down);
      if Collision(down, pile) {
        assert goal == Settle(pile, shape, before, jets, k) == (offset, j);
        break;
      }
      BasedAboveFloor(shape, Shift(offset, Down), pile);
      rock := down;
      offset := Shift(offset, Down);
    }
  }

  /** `part1`: the height after 2022 rocks. */
  method Part1(jets: seq<Pos>) returns (r: Option<int>)
    requires Sideways(jets)
    ensures |jets| == 0 ==> r.None?
    ensures |jets| > 0 ==> r == Some(Play(jets, 2022).height)
  {
    var heights := PlayTetris(jets, 2022);
    if heights.None? {
      return None;
    }
    PlayFacts(jets, 2022);
    r := Some(heights.value[|heights.value| - 1]);
  }

  // ------------------------------------------------------------ extrapolation

  /** `np.diff`: differences of neighbours. */
  function Diffs(h: seq<int>): (d: seq<int>)
    ensures |d| == if |h| == 0 then 0 else |h| - 1
    ensures forall k {:trigger d[k]} :: 0 <= k < |d| ==> d[k] == h[k + 1] - h[k]
  {
    if |h| == 0 then [] else seq(|h| - 1, k requires 0 <= k < |h| - 1 => h[k + 1] - h[k])
  }

  /** Three consecutive blocks of `length` values from `i` are equal. */
  predicate Repeats(values: seq<int>, i: int, length: int)
    requires 0 <= i && 0 <= length && i + 3 * length <= |values|
  {
    values[i..i + length] == values[i + length..i + 2 * length] &&
    values[i + length..i + 2 * length] == values[i + 2 * length..i + 3 * length]
  }

  /** A candidate (start, length) of the search. */
  predicate InRange(values: seq<int>, minLength: int, maxLength: int, i: int, length: int)
  {
    0 <= i < |values| - 3 * maxLength && 0 <= minLength <= length < maxLength
  }

  /** The order of the search: by start, then by length. */
  predicate Before(i: int, length: int, i': int, length': int)
  {
    i < i' || (i == i' && length < length')
  }

  /** `find_repeating_pattern`: the first start, and for it the first
      length, whose three blocks repeat; None if no candidate does. */
  method FindRepeatingPattern(values: seq<int>, minLength: int, maxLength: int) returns (r: Option<(int, int)>)
    requires 0 <= minLength
    ensures r.Some? ==>
      InRange(values, minLength, maxLength, r.value.0, r.value.1) && Repeats(values, r.value.0, r.value.1)
    ensures r.Some? ==>
      forall i, length ::
        InRange(values, minLength, maxLength, i, length) && Before(i, length, r.value.0, r.value.1) ==>
        !Repeats(values, i, length)
    ensures r.None? ==> forall i, length :: InRange(values, minLength, maxLength, i, length) ==>
      !Repeats(values, i, length)
  {
    var i := 0;
    while i < |values| - 3 * maxLength
      invariant 0 <= i
      invariant forall i', length :: InRange(values, minLength, maxLength, i', length) && i' < i ==>
        !Repeats(values, i', length)
    {
      var length := minLength;
      while length < maxLength
        invariant minLength <= length || maxLength <= minLength
        invariant forall i', length' ::
          InRange(values, minLength, maxLength, i', length') && Before(i', length', i, length) ==>
          !Repeats(values, i', length')
      {
        if Repeats(values, i, length) {
          return Some((i, length));
        }
        length := length + 1;
      }
      i := i + 1;
    }
    return None;
  }

  const Total := 1000000000000

  /** `part2`'s arithmetic: the height just before the pattern starts, plus
      one pattern height per whole pattern in the remaining rocks, plus what
      the leftover rocks add at the start of the pattern. */
  function Extrapolate(heights: seq<int>, start: int, length: int, total: int): int
    requires 0 <= start && 0 < length && start + length < |heights|
  {
    var patternHeight := heights[start + length] - heights[start];
    var remaining := total - (start + 1);
    heights[start] + (remaining / length) * patternHeight +
      (heights[start + remaining % length] - heights[start])
  }

  /** `find_repeating_pattern`'s answer, stated on its own: (start, length)
      is a candidate whose three blocks repeat, and no candidate earlier in
      the search order does. */
  ghost predicate FirstRepeat(values: seq<int>, minLength: int, maxLength: int, start: int, length: int)
  {
    InRange(values, minLength, maxLength, start, length) && Repeats(values, start, length) &&
    forall i, len :: InRange(values, minLength, maxLength, i, len) && Before(i, len, start, length) ==>
      !Repeats(values, i, len)
  }

  /** `part2`: 20000 rocks, a pattern of length 10 to 2999 in the height
      differences, and extrapolation to 10^12 rocks. The pattern used is the
      first repeat in search order; there is none exactly when the jet
      pattern is empty (`cycle` stops) or no candidate repeats, and
      unpacking the missing pattern is the failure (TypeError, None here). */
  method Part2(jets: seq<Pos>) returns (r: Option<int>)
    requires Sideways(jets)
    ensures |jets| == 0 ==> r.None?
    ensures |jets| > 0 ==>
      var d := Diffs(Play(jets, 20000).heights);
      (r.Some? <==> exists i, len :: InRange(d, 10, 3000, i, len) && Repeats(d, i, len))
    ensures r.Some? ==>
      var h := Play(jets, 20000).heights;
      exists start, length ::
        FirstRepeat(Diffs(h), 10, 3000, start, length) &&
        r.value == Extrapolate(h, start, length, Total)
  {
    var heights := PlayTetris(jets, 20000);
    if heights.None? {
      return None;
    }
    PlayFacts(jets, 20000);
    var h := heights.value;
    var diffs := Diffs(h);
    var pattern := FindRepeatingPattern(diffs, 10, 3000);
    if pattern.None? {
      return None;
    }
    var start, length := pattern.value.0, pattern.value.1;
    assert FirstRepeat(diffs, 10, 3000, start, length);
    r := Some(Extrapolate(h, start, length, Total));
  }

  // ------------------------------------------------------------- properties

  /** Rock number `k` has shape `k mod 5`. */
  lemma {:induction false} ShapeOfCycles(k: nat)
    ensures ShapeOf(k) == Shapes[k % 5]
  {
    if k >= 5 {
      ShapeOfCycles(k - 5);
    }
  }

  /** Every rock stands on row 0, lists each cell once, and is at most four
      columns wide. */
  lemma ShapeFacts(k: nat)
    ensures Based(ShapeOf(k)) && Distinct(ShapeOf(k)) && |ShapeOf(k)| > 0
    ensures forall i :: 0 <= i < |ShapeOf(k)| ==> 0 <= ShapeOf(k)[i].1 <= 3
  {
    ShapeOfCycles(k);
    ShapesBased(k % 5);
  }

  /** Each of the five shapes stands on row 0, lists each cell once, and
      is at most four columns wide. */
  lemma ShapesBased(k: nat)
    requires k < 5
    ensures Based(Shapes[k]) && Distinct(Shapes[k]) && |Shapes[k]| > 0
    ensures forall i :: 0 <= i < |Shapes[k]| ==> 0 <= Shapes[k][i].1 <= 3
  {
    if k == 0 { assert Shapes[k][0].0 == 0; }
    else if k == 1 { assert Shapes[k][4].0 == 0; }
    else if k == 2 { assert Shapes[k][2].0 == 0; }
    else if k == 3 { assert Shapes[k][3].0 == 0; }
    else { assert Shapes[k][2].0 == 0; }
  }

  /** Shifting twice is shifting by the sum. */
  lemma MoveTwice(shape: Rock, a: Pos, b: Pos)
    ensures Move(Move(shape, a), b) == Move(shape, Shift(a, b))
  {
  }

  /** Moving a rock never makes two of its cells meet. */
  lemma MoveDistinct(rock: Rock, d: Pos)
    requires Distinct(rock)
    ensures Distinct(Move(rock, d))
  {
  }

  /** A rock whose cells are listed once has as many cells as entries. */
  lemma {:induction false} DistinctCells(rock: Rock)
    requires Distinct(rock)
    ensures |Cells(rock)| == |rock|
    decreases |rock|
  {
    if rock != [] {
      var init := rock[..|rock| - 1];
      var last := rock[|rock| - 1];
      DistinctCells(init);
      assert Cells(rock) == Cells(init) + {last};
      assert last !in Cells(init);
    }
  }

  /** A rock on a base that does not collide lies at or above the floor. */
  lemma BasedAboveFloor(shape: Rock, offset: Pos, pile: set<Pos>)
    requires Based(shape) && !Collision(Move(shape, offset), pile)
    ensures offset.0 >= 0
  {
    var i :| 0 <= i < |shape| && shape[i].0 == 0;
    assert Move(shape, offset)[i].0 == offset.0;
  }

  /** A rock that starts between the walls and clear of the pile ends there:
      it rests on the floor or the pile, between the walls, overlapping
      nothing. */
  lemma {:induction false} SettleRests(pile: set<Pos>, shape: Rock, offset: Pos, jets: seq<Pos>, j: nat)
    requires j < |jets| && Sideways(jets) && Based(shape) && offset.0 >= 0
    requires Fits(Move(shape, offset)) && !Collision(Move(shape, offset), pile)
    ensures var at := Settle(pile, shape, offset, jets, j).0;
      Fits(Move(shape, at)) && !Collision(Move(shape, at), pile) &&
      Collision(Move(shape, Shift(at, Down)), pile)
    decreases offset.0
  {
    var at := Push(pile, shape, offset, jets[j]);
    var down := Shift(at, Down);
    if !Collision(Move(shape, down), pile) {
      BasedAboveFloor(shape, down, pile);
      assert Fits(Move(shape, at));
      assert forall i :: 0 <= i < |shape| ==> Move(shape, down)[i].1 == Move(shape, at)[i].1;
      SettleRests(pile, shape, down, jets, NextJet(jets, j));
    }
  }

  /** Settled cells lie between the walls, at or above the floor, and below
      the tower height. */
  ghost predicate Good(t: Tower)
  {
    t.height >= 0 &&
    forall c :: c in t.pile ==> 0 <= c.0 < t.height && 0 <= c.1 < ChamberWidth
  }

  /** A rock spawned above a good tower comes to rest between the walls,
      overlapping nothing, with the floor or the pile right below it. */
  lemma LandingRests(t: Tower, jets: seq<Pos>, shape: Rock)
    requires t.jets < |jets| && Sideways(jets) && Good(t) && Based(shape)
    requires forall i :: 0 <= i < |shape| ==> 0 <= shape[i].1 <= 3
    ensures var at := Landing(t, jets, shape).0;
      Fits(Move(shape, at)) && !Collision(Move(shape, at), t.pile) &&
      Collision(Move(shape, Shift(at, Down)), t.pile)
  {
    var start := (t.height + SpawnPosition.0, SpawnPosition.1);
    assert !Collision(Move(shape, start), t.pile) by {
      forall i | 0 <= i < |shape| ensures Move(shape, start)[i].0 >= t.height + 3 {
      }
    }
    SettleRests(t.pile, shape, start, jets, t.jets);
  }

  /** A rock that fits and overlaps nothing keeps the tower good when it
      joins it, adds as many cells as it has, and never lowers the tower. */
  lemma PlaceFacts(t: Tower, shape: Rock, settled: (Pos, nat))
    requires Good(t) && Distinct(shape)
    requires Fits(Move(shape, settled.0)) && !Collision(Move(shape, settled.0), t.pile)
    ensures var s := Place(t, shape, settled);
      Good(s) && s.height >= t.height && |s.pile| == |t.pile| + |shape| &&
      s.heights == t.heights + [s.height] && s.jets == settled.1
  {
    var rock := Move(shape, settled.0);
    assert Cells(rock) * t.pile == {};
    MoveDistinct(shape, settled.0);
    DistinctCells(rock);
    assert |t.pile + Cells(rock)| == |t.pile| + |Cells(rock)|;
  }

  /** Where rock number `k` rests, on the tower of the rocks before it. */
  lemma RestFacts(jets: seq<Pos>, k: nat)
    requires |jets| > 0 && Sideways(jets) && Good(Play(jets, k))
    ensures var at := Rest(jets, k).0;
      Fits(Move(ShapeOf(k), at)) && !Collision(Move(ShapeOf(k), at), Play(jets, k).pile) &&
      Collision(Move(ShapeOf(k), Shift(at, Down)), Play(jets, k).pile)
  {
    ShapeFacts(k);
    LandingRests(Play(jets, k), jets, ShapeOf(k));
  }

  /** Number of cells in the first `n` shapes dropped. */
  function CellCount(n: nat): nat
  {
    if n == 0 then 0 else CellCount(n - 1) + |ShapeOf(n - 1)|
  }

  /** `heights` has one entry per rock, never decreases, and ends with the
      tower height; the tower holds exactly the cells of the rocks dropped,
      none overlapping, all inside the chamber and below the tower height. */
  lemma {:induction false} PlayFacts(jets: seq<Pos>, n: nat)
    requires |jets| > 0 && Sideways(jets)
    ensures var t := Play(jets, n);
      Good(t) && |t.heights| == n && |t.pile| == CellCount(n) &&
      (n > 0 ==> t.heights[n - 1] == t.height) && Rising(t.heights)
  {
    if n > 0 {
      var k := n - 1;
      PlayFacts(jets, k);
      var t := Play(jets, k);
      assert Good(t) && |t.pile| == CellCount(k);
      PlayCellsStep(jets, k);
      PlayHeightsStep(jets, k);
      assert k + 1 == n;
    }
  }

  /** One more rock keeps the tower good and adds its cells. */
  lemma PlayCellsStep(jets: seq<Pos>, k: nat)
    requires |jets| > 0 && Sideways(jets)
    requires Good(Play(jets, k)) && |Play(jets, k).pile| == CellCount(k)
    ensures Good(Play(jets, k + 1)) && |Play(jets, k + 1).pile| == CellCount(k + 1)
  {
    ShapeFacts(k);
    RestFacts(jets, k);
    PlaceFacts(Play(jets, k), ShapeOf(k), Rest(jets, k));
  }

  /** One more rock appends the new tower height to `heights`. */
  lemma PlayHeightsStep(jets: seq<Pos>, k: nat)
    requires |jets| > 0 && Sideways(jets)
    requires var t := Play(jets, k);
      |t.heights| == k && (k > 0 ==> t.heights[k - 1] == t.height) && Rising(t.heights)
    ensures var s := Play(jets, k + 1);
      |s.heights| == k + 1 && s.heights[k] == s.height && Rising(s.heights)
  {
    RisingAppend(Play(jets, k).heights, Play(jets, k + 1).height);
  }

  /** Heights at or above the floor that never decrease. */
  ghost predicate Rising(h: seq<int>)
  {
    forall i, k :: 0 <= i <= k < |h| ==> 0 <= h[i] <= h[k]
  }

  lemma RisingAppend(h: seq<int>, x: int)
    requires Rising(h) && x >= 0 && (h != [] ==> h[|h| - 1] <= x)
    ensures Rising(h + [x])
  {
  }

  /** The extrapolation is right for a height sequence that grows by the
      same amount over every stretch of `length` rocks from `start` on. */
  lemma {:induction false} ExtrapolationSound(heights: seq<int>, start: int, length: int, total: int)
    requires 0 <= start && 0 < length && start + length < |heights|
    requires total - 1 >= start && total - 1 < |heights|
    requires forall k :: start <= k && k + length < |heights| ==>
      heights[k + length] - heights[k] == heights[start + length] - heights[start]
    ensures Extrapolate(heights, start, length, total) == heights[total - 1]
  {
    var remaining := total - (start + 1);
    var q, s := remaining / length, remaining % length;
    DivMod(remaining, length);
    assert start + q * length + s == total - 1;
    PeriodicGrowth(heights, start, length, q, s);
  }

  /** Euclidean division of a non-negative number. */
  lemma DivMod(x: int, d: int)
    requires x >= 0 && d > 0
    ensures x / d >= 0 && 0 <= x % d < d && x == (x / d) * d + x % d
  {
  }

  lemma {:induction false} PeriodicGrowth(heights: seq<int>, start: int, length: int, q: nat, s: int)
    requires 0 <= start && 0 < length && start + length < |heights| && 0 <= s < length
    requires start + q * length + s < |heights|
    requires forall k :: start <= k && k + length < |heights| ==>
      heights[k + length] - heights[k] == heights[start + length] - heights[start]
    ensures heights[start + q * length + s] == heights[start + s] + q * (heights[start + length] - heights[start])
  {
    if q > 0 {
      assert start + (q - 1) * length + s + length == start + q * length + s;
      PeriodicGrowth(heights, start, length, q - 1, s);
    }
  }

  /** Three equal blocks of height differences from `i` mean that each
      block adds the same height. */
  lemma ThreeBlocksSameGrowth(heights: seq<int>, i: int, length: int)
    requires 0 <= i && 0 <= length && i + 3 * length < |heights|
    requires Repeats(Diffs(heights), i, length)
    ensures heights[i + length] - heights[i] == heights[i + 2 * length] - heights[i + length]
    ensures heights[i + 2 * length] - heights[i + length] == heights[i + 3 * length] - heights[i + 2 * length]
  {
    var a, b := i + length, i + 2 * length;
    SameDiffsSameGrowth(heights, i, a, length);
    SameDiffsSameGrowth(heights, a, b, length);
  }

  /** Two blocks with the same height differences add the same height. */
  lemma {:induction false} SameDiffsSameGrowth(heights: seq<int>, i: int, a: int, length: int)
    requires 0 <= i && 0 <= a && 0 <= length && i + length < |heights| && a + length < |heights|
    requires Diffs(heights)[i..i + length] == Diffs(heights)[a..a + length]
    ensures heights[i + length] - heights[i] == heights[a + length] - heights[a]
    decreases length
  {
    if length > 0 {
      var d := Diffs(heights);
      var n := length - 1;
      assert d[i..i + n] == d[i..i + length][..n];
      assert d[a..a + n] == d[a..a + length][..n];
      SameDiffsSameGrowth(heights, i, a, n);
      assert d[i + n] == d[i..i + length][n] == d[a..a + length][n] == d[a + n];
    }
  }
}
