/** Regolith reservoir: rock paths are drawn into a sparse grid, then units of
    sand are poured in at (row 0, column 500) one at a time. A position is a
    pair (row, column); rows grow downwards. Grid values: 1 rock, 2 sand. */
module Day14 {
  import opened Common

  type Pos = (int, int)
  type Grid = map<Pos, int>

  const Rock := 1
  const Sand := 2

  /** Where sand enters: row 0, column 500. */
  const Source: Pos := (0, 500)

  // ------------------------------------------------------------------ rocks

  /** A point of the input, written `x,y`, as a grid position. */
  function At(point: (int, int)): Pos
  {
    (point.1, point.0)
  }

  /** The cells of the segment from `start` to `end`, both included: a row
      segment when the rows agree (a single cell when the points do), a column
      segment when the columns agree, and an error otherwise. */
  function Segment(start: Pos, end: Pos): (r: Option<set<Pos>>)
    ensures r.Some? <==> start.0 == end.0 || start.1 == end.1
    ensures r.Some? ==> start in r.value && end in r.value
    ensures r.Some? && start.0 == end.0 ==> forall p :: p in r.value <==>
      p.0 == start.0 && (start.1 <= p.1 <= end.1 || end.1 <= p.1 <= start.1)
    ensures r.Some? && start.0 != end.0 ==> forall p :: p in r.value <==>
      p.1 == start.1 && (start.0 <= p.0 <= end.0 || end.0 <= p.0 <= start.0)
  {
    if start.0 == end.0 then
      var lo := if start.1 <= end.1 then start.1 else end.1;
      var hi := if start.1 <= end.1 then end.1 else start.1;
      Some(set c | lo <= c <= hi :: (start.0, c))
    else if start.1 == end.1 then
      var lo := if start.0 <= end.0 then start.0 else end.0;
      var hi := if start.0 <= end.0 then end.0 else start.0;
      Some(set r | lo <= r <= hi :: (r, start.1))
    else None
  }

  /** The cells of one path: the segments between consecutive points. */
  function PathCells(points: seq<(int, int)>): Option<set<Pos>>
  {
    if |points| < 2 then Some({})
    else
      var init := PathCells(points[..|points| - 1]);
      var last := Segment(At(points[|points| - 2]), At(points[|points| - 1]));
      if init.None? || last.None? then None else Some(init.value + last.value)
  }

  /** The rock cells of all paths, or an error when a segment is diagonal. */
  function Rocks(paths: seq<seq<(int, int)>>): Option<set<Pos>>
  {
    if paths == [] then Some({})
    else
      var init := Rocks(paths[..|paths| - 1]);
      var last := PathCells(paths[|paths| - 1]);
      if init.None? || last.None? then None else Some(init.value + last.value)
  }

  /** `after` is `before` with every cell of `cells` set to rock. */
  ghost predicate Marked(before: Grid, after: Grid, cells: set<Pos>)
  {
    (forall p :: p in after <==> p in before || p in cells) &&
    (forall p :: p in after ==> after[p] == if p in cells then Rock else before[p])
  }

  /** Marking one more cell extends a marking. */
  lemma MarkOne(before: Grid, grid: Grid, cells: set<Pos>, p: Pos)
    requires Marked(before, grid, cells)
    ensures Marked(before, grid[p := Rock], cells + {p})
  {
  }

  /** Two markings one after the other mark the union. */
  lemma MarkBoth(a: Grid, b: Grid, c: Grid, first: set<Pos>, second: set<Pos>)
    requires Marked(a, b, first) && Marked(b, c, second)
    ensures Marked(a, c, first + second)
  {
  }

  /** The cells of a path one point longer. */
  lemma PathCellsStep(points: seq<(int, int)>, k: nat)
    requires 1 <= k < |points|
    ensures var init := PathCells(points[..k]);
      var last := Segment(At(points[k - 1]), At(points[k]));
      PathCells(points[..k + 1]) == if init.None? || last.None? then None else Some(init.value + last.value)
  {
    var p := points[..k + 1];
    assert p[..|p| - 1] == points[..k];
    assert p[|p| - 2] == points[k - 1] && p[|p| - 1] == points[k];
  }

  /** A grid holding rock exactly at `cells`. */
  ghost predicate RockAt(grid: Grid, cells: set<Pos>)
  {
    grid.Keys == cells && forall p :: p in grid ==> grid[p] == Rock
  }

  // ------------------------------------------------------------------- sand

  /** The directions sand tries, in order: down, down-left, down-right. */
  const Directions: seq<Pos> := [(1, 0), (1, -1), (1, 1)]

  /** The first of `sand + d`, d in `dirs`, that is empty, or `sand`. */
  function FirstEmpty(grid: Grid, sand: Pos, dirs: seq<Pos>): Pos
  {
    if dirs == [] then sand
    else
      var next := (sand.0 + dirs[0].0, sand.1 + dirs[0].1);
      if next !in grid then next else FirstEmpty(grid, sand, dirs[1..])
  }

  /** `sand_move`: down if empty, else down-left if empty, else down-right
      if empty, else stay. */
  function SandMove(grid: Grid, sand: Pos): (r: Pos)
    ensures var down, left, right := (sand.0 + 1, sand.1), (sand.0 + 1, sand.1 - 1), (sand.0 + 1, sand.1 + 1);
      (r == sand <==> down in grid && left in grid && right in grid) &&
      (r != sand ==> r !in grid) &&
      (down !in grid ==> r == down) &&
      (down in grid && left !in grid ==> r == left) &&
      (down in grid && left in grid && right !in grid ==> r == right)
  {
    var d1, d2, d3 := Directions[1..], Directions[2..], Directions[3..];
    assert d1 == Directions[1..] && d1[1..] == d2 && d2[1..] == d3 && d3 == [];
    assert FirstEmpty(grid, sand, d3) == sand;
    assert FirstEmpty(grid, sand, d2) == if (sand.0 + 1, sand.1 + 1) !in grid then (sand.0 + 1, sand.1 + 1) else sand;
    assert FirstEmpty(grid, sand, d1) == if (sand.0 + 1, sand.1 - 1) !in grid then (sand.0 + 1, sand.1 - 1) else FirstEmpty(grid, sand, d2);
    FirstEmpty(grid, sand, Directions)
  }

  /** Where sand starting at `sand` stops trickling: at rest on or above row
      `maxY`, or at the first position below it. */
  function Fall(grid: Grid, sand: Pos, maxY: int): Pos
    decreases maxY - sand.0
  {
    if sand.0 > maxY then sand
    else
      var moved := SandMove(grid, sand);
      if moved == sand then sand else Fall(grid, moved, maxY)
  }

  /** `_max_y`: the greatest row holding rock; `max` of nothing raises
      ValueError. */
  function MaxY(grid: Grid): (r: Option<int>)
    ensures r.Some? <==> exists p :: p in grid && grid[p] == Rock
    ensures r.Some? ==> forall p :: p in grid && grid[p] == Rock ==> p.0 <= r.value
    ensures r.Some? ==> exists p :: p in grid && grid[p] == Rock && p.0 == r.value
  {
    var rows := set p | p in grid && grid[p] == Rock :: p.0;
    if rows == {} then
      assert forall p :: p in grid && grid[p] == Rock ==> p.0 in rows;
      None
    else
      assert forall p :: p in grid && grid[p] == Rock ==> p.0 in rows;
      Some(MaxOf(rows))
  }

  /** `spawn_sand` on a grid: whether the sand stopped, and the grid after. */
  function Spawn(grid: Grid, floor: bool): (r: Option<(bool, Grid)>)
    ensures Source in grid ==> r == Some((false, grid))
    ensures r.None? <==> Source !in grid && MaxY(grid).None?
    ensures r.Some? && !r.value.0 ==> r.value.1 == grid
    ensures floor && Source !in grid && r.Some? ==> r.value.0
  {
    if Source in grid then Some((false, grid))
    else
      var maxY := MaxY(grid);
      if maxY.None? then None
      else
        var sand := Fall(grid, Source, maxY.value);
        if sand.0 <= maxY.value || floor then Some((true, grid[sand := Sand]))
        else Some((false, grid))
  }

  /** The cells sand can ever occupy when the lowest rock is in row `maxY`:
      rows 0 to one below `maxY`, spreading one column per row. */
  function Region(maxY: int): set<Pos>
  {
    var bottom := if maxY + 1 < 0 then 0 else maxY + 1;
    set r: int, c: int | 0 <= r <= bottom && 500 - r <= c <= 500 + r :: (r, c)
  }

  /** How many cells of the region are still free: shrinks with every unit of
      sand that comes to rest. */
  ghost function Room(grid: Grid): nat
  {
    var maxY := MaxY(grid);
    if maxY.None? then 0 else |Region(maxY.value) - grid.Keys|
  }

  /** `sand_fill`: spawn until a spawn fails; the count and the final grid. */
  function Fill(grid: Grid, floor: bool): Option<(nat, Grid)>
    decreases Room(grid)
  {
    var s := Spawn(grid, floor);
    if s.None? then None
    else if !s.value.0 then Some((0, grid))
    else
      SpawnShrinksRoom(grid, floor);
      var rest := Fill(s.value.1, floor);
      if rest.None? then None else Some((rest.value.0 + 1, rest.value.1))
  }

  /** `n` more spawns than `o` counts. */
  function Shifted(o: Option<(nat, Grid)>, n: nat): Option<(nat, Grid)>
  {
    if o.None? then None else Some((o.value.0 + n, o.value.1))
  }

  /** One spawn's worth of Fill. */
  lemma FillUnfold(grid: Grid, floor: bool)
    ensures Spawn(grid, floor).None? ==> Fill(grid, floor).None?
    ensures Spawn(grid, floor).Some? && !Spawn(grid, floor).value.0 ==>
      Fill(grid, floor) == Some((0, grid))
    ensures Spawn(grid, floor).Some? && Spawn(grid, floor).value.0 ==>
      Fill(grid, floor) == Shifted(Fill(Spawn(grid, floor).value.1, floor), 1)
  {
    var s := Spawn(grid, floor);
    if s.Some? && !s.value.0 {
      FillStopped(grid, floor);
    } else if s.Some? {
      FillSpawned(grid, floor);
    }
  }

  lemma FillSpawned(grid: Grid, floor: bool)
    requires Spawn(grid, floor).Some? && Spawn(grid, floor).value.0
    ensures Fill(grid, floor) == Shifted(Fill(Spawn(grid, floor).value.1, floor), 1)
  {
    var rest := Fill(Spawn(grid, floor).value.1, floor);
    assert Fill(grid, floor) == if rest.None? then None else Some((rest.value.0 + 1, rest.value.1));
  }

  lemma FillStopped(grid: Grid, floor: bool)
    requires Spawn(grid, floor).Some? && !Spawn(grid, floor).value.0
    ensures Fill(grid, floor) == Some((0, grid))
  {
  }

  lemma ShiftedTwice(o: Option<(nat, Grid)>, n: nat)
    ensures Shifted(Shifted(o, 1), n) == Shifted(o, n + 1)
  {
  }

  /** What one spawn of the loop in `sand_fill` tells about the fill still to
      come, given the spawn's outcome and the grid after it. */
  lemma FillStep(before: Grid, floor: bool, n: nat, stopped: Option<bool>, after: Grid)
    requires Spawn(before, floor).None? ==> stopped.None? && after == before
    requires Spawn(before, floor).Some? ==>
      stopped == Some(Spawn(before, floor).value.0) && after == Spawn(before, floor).value.1
    ensures stopped.None? ==> Shifted(Fill(before, floor), n).None?
    ensures stopped == Some(false) ==> Shifted(Fill(before, floor), n) == Some((n, after))
    ensures stopped == Some(true) ==>
      Shifted(Fill(before, floor), n) == Shifted(Fill(after, floor), n + 1) && Room(after) < Room(before)
  {
    FillUnfold(before, floor);
    if stopped == Some(true) {
      SpawnShrinksRoom(before, floor);
      ShiftedTwice(Fill(after, floor), n);
    }
  }

  // ------------------------------------------------------------------- cave

  /** The grid, updated in place by drawing rock and pouring sand. */
  class Cave {
    var grid: Grid

    constructor ()
      ensures grid == map[]
    {
      grid := map[];
    }

    /** `add_rock_line`: marks the cells of an axis-aligned segment with rock;
        a diagonal segment is an error (ValueError) and changes nothing. */
    method AddRockLine(start: Pos, end: Pos) returns (ok: bool)
      modifies this
      ensures ok <==> Segment(start, end).Some?
      ensures ok ==> Marked(old(grid), grid, Segment(start, end).value)
      ensures !ok ==> grid == old(grid)
    {
      if start.0 == end.0 {
        var lo, hi := start.1, end.1;
        if hi < lo { lo, hi := hi, lo; }
        MarkRow(start.0, lo, hi);
        assert (set c | lo <= c <= hi :: (start.0, c)) == Segment(start, end).value;
        ok := true;
      } else if start.1 == end.1 {
        var lo, hi := start.0, end.0;
        if hi < lo { lo, hi := hi, lo; }
        MarkColumn(start.1, lo, hi);
        assert (set r | lo <= r <= hi :: (r, start.1)) == Segment(start, end).value;
        ok := true;
      } else {
        ok := false;
      }
    }

    /** The loop of `add_rock_line` along row `row`, columns `lo` to `hi`. */
    method MarkRow(row: int, lo: int, hi: int)
      requires lo <= hi
      modifies this
      ensures Marked(old(grid), grid, set c | lo <= c <= hi :: (row, c))
    {
      var x := lo;
      while x <= hi
        invariant lo <= x <= hi + 1
        invariant Marked(old(grid), grid, set c | lo <= c < x :: (row, c))
      {
        assert (set c | lo <= c < x + 1 :: (row, c)) == (set c | lo <= c < x :: (row, c)) + {(row, x)};
        MarkOne(old(grid), grid, set c | lo <= c < x :: (row, c), (row, x));
        grid := grid[(row, x) := Rock];
        x := x + 1;
      }
      assert (set c | lo <= c < x :: (row, c)) == (set c | lo <= c <= hi :: (row, c));
    }

    /** The loop of `add_rock_line` along column `column`, rows `lo` to `hi`. */
    method MarkColumn(column: int, lo: int, hi: int)
      requires lo <= hi
      modifies this
      ensures Marked(old(grid), grid, set r | lo <= r <= hi :: (r, column))
    {
      var y := lo;
      while y <= hi
        invariant lo <= y <= hi + 1
        invariant Marked(old(grid), grid, set r | lo <= r < y :: (r, column))
      {
        assert (set r | lo <= r < y + 1 :: (r, column)) == (set r | lo <= r < y :: (r, column)) + {(y, column)};
        MarkOne(old(grid), grid, set r | lo <= r < y :: (r, column), (y, column));
        grid := grid[(y, column) := Rock];
        y := y + 1;
      }
      assert (set r | lo <= r < y :: (r, column)) == (set r | lo <= r <= hi :: (r, column));
    }

    /** The segments of one input line, drawn in order; the first diagonal
        one stops the drawing. */
    method AddPath(points: seq<(int, int)>) returns (ok: bool)
      modifies this
      ensures ok <==> PathCells(points).Some?
      ensures ok ==> Marked(old(grid), grid, PathCells(points).value)
    {
      if |points| < 2 {
        return true;
      }
      var k := 1;
      assert points[..1][..0] == [];
      while k < |points|
        invariant 1 <= k <= |points|
        invariant PathCells(points[..k]).Some?
        invariant Marked(old(grid), grid, PathCells(points[..k]).value)
      {
        ghost var before := grid;
        ok := AddRockLine(At(points[k - 1]), At(points[k]));
        PathCellsStep(points, k);
        if !ok {
          PathCellsFails(points, k + 1);
          assert points[..|points|] == points;
          return false;
        }
        MarkBoth(old(grid), before, grid, PathCells(points[..k]).value, Segment(At(points[k - 1]), At(points[k])).value);
        k := k + 1;
      }
      assert points[..k] == points;
      ok := true;
    }

    /** `spawn_sand`: one unit of sand trickles down from the source. */
    method SpawnSand(floor: bool) returns (r: Option<bool>)
      modifies this
      ensures Spawn(old(grid), floor).None? ==> r.None? && grid == old(grid)
      ensures Spawn(old(grid), floor).Some? ==>
        r == Some(Spawn(old(grid), floor).value.0) && grid == Spawn(old(grid), floor).value.1
    {
      var sand := Source;
      if sand in grid {
        return Some(false);
      }
      var maxY := MaxY(grid);
      if maxY.None? {
        return None;
      }
      while sand.0 <= maxY.value
        invariant Fall(grid, sand, maxY.value) == Fall(grid, Source, maxY.value)
        decreases maxY.value - sand.0
      {
        var moved := SandMove(grid, sand);
        if moved == sand {
          grid := grid[sand := Sand];
          return Some(true);
        }
        sand := moved;
      }
      if floor {
        grid := grid[sand := Sand];
      }
      r := Some(floor);
    }

    /** `sand_fill`: the number of units of sand that come to rest. */
    method SandFill(floor: bool) returns (r: Option<nat>)
      modifies this
      ensures Fill(old(grid), floor).None? ==> r.None?
      ensures Fill(old(grid), floor).Some? ==>
        r == Some(Fill(old(grid), floor).value.0) && grid == Fill(old(grid), floor).value.1
    {
      var n := 0;
      while true
        invariant Fill(old(grid), floor) == Shifted(Fill(grid, floor), n)
        decreases Room(grid)
      {
        ghost var before := grid;
        var stopped := SpawnSand(floor);
        FillStep(before, floor, n, stopped, grid);
        if stopped.None? {
          return None;
        }
        if !stopped.value {
          return Some(n);
        }
        n := n + 1;
      }
    }
  }

  /** `parse`: a fresh grid holding the rock of every path. */
  method Parse(paths: seq<seq<(int, int)>>) returns (r: Option<Cave>)
    ensures r.Some? <==> Rocks(paths).Some?
    ensures r.Some? ==> fresh(r.value) && RockAt(r.value.grid, Rocks(paths).value)
  {
    var cave := new Cave();
    var i := 0;
    while i < |paths|
      invariant 0 <= i <= |paths|
      invariant Rocks(paths[..i]).Some?
      invariant RockAt(cave.grid, Rocks(paths[..i]).value)
      modifies cave
    {
      var ok := cave.AddPath(paths[i]);
      assert paths[..i + 1][..i] == paths[..i];
      if !ok {
        RocksFails(paths, i + 1);
        assert paths[..|paths|] == paths;
        return None;
      }
      i := i + 1;
    }
    assert paths[..i] == paths;
    r := Some(cave);
  }

  /** `part1`: sand until a unit falls below the lowest rock. */
  method Part1(cave: Cave) returns (r: Option<nat>)
    modifies cave
    ensures Fill(old(cave.grid), false).None? ==> r.None?
    ensures Fill(old(cave.grid), false).Some? ==>
      r == Some(Fill(old(cave.grid), false).value.0) && cave.grid == Fill(old(cave.grid), false).value.1
  {
    r := cave.SandFill(false);
  }

  /** `part2`: with a floor below the lowest rock, sand until the source is
      blocked. */
  method Part2(cave: Cave) returns (r: Option<nat>)
    modifies cave
    ensures Fill(old(cave.grid), true).None? ==> r.None?
    ensures Fill(old(cave.grid), true).Some? ==>
      r == Some(Fill(old(cave.grid), true).value.0) && cave.grid == Fill(old(cave.grid), true).value.1
  {
    r := cave.SandFill(true);
  }

  // ------------------------------------------------------------- properties

  /** Once a segment is diagonal, the path is in error whatever follows. */
  lemma {:induction false} PathCellsFails(points: seq<(int, int)>, n: nat)
    requires 2 <= n <= |points|
    requires PathCells(points[..n]).None?
    ensures PathCells(points).None?
    decreases |points| - n
  {
    if n < |points| {
      assert points[..n + 1][..n] == points[..n];
      PathCellsFails(points, n + 1);
    } else {
      assert points[..n] == points;
    }
  }

  lemma {:induction false} RocksFails(paths: seq<seq<(int, int)>>, n: nat)
    requires n <= |paths|
    requires Rocks(paths[..n]).None?
    ensures Rocks(paths).None?
    decreases |paths| - n
  {
    if n < |paths| {
      assert paths[..n + 1][..n] == paths[..n];
      RocksFails(paths, n + 1);
    } else {
      assert paths[..n] == paths;
    }
  }

  /** Sand that starts in an empty cell ends in an empty cell. */
  lemma {:induction false} FallEndsEmpty(grid: Grid, sand: Pos, maxY: int)
    requires sand !in grid
    ensures Fall(grid, sand, maxY) !in grid
    decreases maxY - sand.0
  {
    if sand.0 <= maxY {
      var moved := SandMove(grid, sand);
      if moved != sand {
        FallEndsEmpty(grid, moved, maxY);
      }
    }
  }

  /** Sand ends at rest (it cannot move) exactly when it ends on or above
      `maxY`, and otherwise one row below it. */
  lemma {:induction false} FallStops(grid: Grid, sand: Pos, maxY: int)
    requires sand.0 <= maxY + 1
    ensures var p := Fall(grid, sand, maxY);
      (p.0 <= maxY ==> SandMove(grid, p) == p) && (p.0 > maxY ==> p.0 == maxY + 1)
    decreases maxY - sand.0
  {
    if sand.0 <= maxY {
      var moved := SandMove(grid, sand);
      if moved != sand {
        FallStops(grid, moved, maxY);
      }
    }
  }

  /** Sand from a cell of the region stays in the region. */
  lemma {:induction false} FallInRegion(grid: Grid, sand: Pos, maxY: int)
    requires sand in Region(maxY)
    ensures Fall(grid, sand, maxY) in Region(maxY)
    decreases maxY - sand.0
  {
    if sand.0 <= maxY {
      var moved := SandMove(grid, sand);
      if moved != sand {
        assert moved.0 == sand.0 + 1;
        assert 500 - moved.0 <= moved.1 <= 500 + moved.0;
        assert moved == (moved.0, moved.1);
        FallInRegion(grid, moved, maxY);
      }
    }
  }

  /** Adding sand at a new cell leaves the rock rows alone. */
  lemma AddSandKeepsMaxY(grid: Grid, p: Pos)
    requires p !in grid
    ensures MaxY(grid[p := Sand]) == MaxY(grid)
  {
    var g := grid[p := Sand];
    assert (set q | q in g && g[q] == Rock :: q.0) == (set q | q in grid && grid[q] == Rock :: q.0) by {
      forall q | q in g && g[q] == Rock ensures q in grid && grid[q] == Rock {
      }
      forall q | q in grid && grid[q] == Rock ensures q in g && g[q] == Rock {
      }
    }
  }

  /** Each successful spawn fills one more free cell of the region. */
  lemma SpawnShrinksRoom(grid: Grid, floor: bool)
    requires Spawn(grid, floor).Some? && Spawn(grid, floor).value.0
    ensures Room(Spawn(grid, floor).value.1) < Room(grid)
  {
    var maxY := MaxY(grid).value;
    var sand := Fall(grid, Source, maxY);
    FallEndsEmpty(grid, Source, maxY);
    assert Source in Region(maxY) by {
      assert Source == (0, 500);
    }
    FallInRegion(grid, Source, maxY);
    var g := grid[sand := Sand];
    AddSandKeepsMaxY(grid, sand);
    assert Region(maxY) - g.Keys == (Region(maxY) - grid.Keys) - {sand};
  }

  /** A spawn that stops adds exactly one cell, which was empty and now holds
      sand; every cell already present, rock in particular, keeps its value. */
  lemma SpawnAddsOne(grid: Grid, floor: bool)
    requires Spawn(grid, floor).Some? && Spawn(grid, floor).value.0
    ensures var after := Spawn(grid, floor).value.1;
      |after.Keys| == |grid.Keys| + 1 &&
      (forall p :: p in grid ==> p in after && after[p] == grid[p]) &&
      (forall p :: p in after && p !in grid ==> after[p] == Sand)
  {
    var sand := Fall(grid, Source, MaxY(grid).value);
    FallEndsEmpty(grid, Source, MaxY(grid).value);
    assert grid[sand := Sand].Keys == grid.Keys + {sand};
  }

  /** Without a floor a spawn fails only when the source is blocked or the
      sand drops below the lowest rock; it then leaves the grid unchanged. */
  lemma SpawnFallsOut(grid: Grid)
    requires Source !in grid && MaxY(grid).Some?
    ensures var maxY := MaxY(grid).value;
      Fall(grid, Source, maxY).0 > maxY <==> Spawn(grid, false) == Some((false, grid))
    ensures MaxY(grid).value >= -1 && Fall(grid, Source, MaxY(grid).value).0 > MaxY(grid).value ==>
      Fall(grid, Source, MaxY(grid).value).0 == MaxY(grid).value + 1
  {
    if MaxY(grid).value >= -1 {
      FallStops(grid, Source, MaxY(grid).value);
    }
  }

  /** `sand_fill` only adds sand: it ends with as many new cells as units
      counted, none overwriting what was there, and with a spawn that fails. */
  lemma {:induction false} FillAddsSand(grid: Grid, floor: bool)
    requires Fill(grid, floor).Some?
    ensures var n, after := Fill(grid, floor).value.0, Fill(grid, floor).value.1;
      |after.Keys| == |grid.Keys| + n &&
      (forall p :: p in grid ==> p in after && after[p] == grid[p]) &&
      (forall p :: p in after && p !in grid ==> after[p] == Sand) &&
      Spawn(after, floor) == Some((false, after))
    decreases Room(grid)
  {
    var s := Spawn(grid, floor);
    if s.value.0 {
      SpawnAddsOne(grid, floor);
      SpawnShrinksRoom(grid, floor);
      FillAddsSand(s.value.1, floor);
    }
  }

  /** With a floor, filling ends only once the source holds sand. */
  lemma FillBlocksSource(grid: Grid)
    requires Fill(grid, true).Some?
    ensures Source in Fill(grid, true).value.1
  {
    FillAddsSand(grid, true);
  }
}
