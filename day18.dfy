/** Boiling boulders: lava droplets made of unit cubes on an integer grid.
    The surface area counts the cube faces not shared with another cube; the
    exterior surface only counts the faces that water flowing in from
    outside can reach. */
module Day18 {
  import opened Common

  /** A unit cube, by its (x, y, z) grid coordinates. */
  type Cube = (int, int, int)

  function Abs(x: int): nat
  {
    if x < 0 then -x else x
  }

  /** `shared_side`: the Manhattan distance between the cubes is exactly 1. */
  predicate SharedSide(a: Cube, b: Cube)
  {
    Abs(a.0 - b.0) + Abs(a.1 - b.1) + Abs(a.2 - b.2) == 1
  }

  function Add(a: Cube, b: Cube): Cube
  {
    (a.0 + b.0, a.1 + b.1, a.2 + b.2)
  }

  /** The six face directions, numbered in the order `_flood_fill` visits
      them: -x, +x, -y, +y, -z, +z. */
  function Face(k: nat): Cube
  {
    if k == 0 then (-1, 0, 0)
    else if k == 1 then (1, 0, 0)
    else if k == 2 then (0, -1, 0)
    else if k == 3 then (0, 1, 0)
    else if k == 4 then (0, 0, -1)
    else (0, 0, 1)
  }

  /** The number of cubes of `cubes` that share a side with `c`. */
  function Touching(c: Cube, cubes: seq<Cube>): (n: nat)
    ensures n <= |cubes|
  {
    if cubes == [] then 0
    else Touching(c, cubes[..|cubes| - 1]) + (if SharedSide(c, cubes[|cubes| - 1]) then 1 else 0)
  }

  /** The number of pairs in `combinations(cubes, 2)` that share a side: each
      cube is paired with every cube before it. */
  function SharedSides(cubes: seq<Cube>): nat
  {
    if cubes == [] then 0
    else SharedSides(cubes[..|cubes| - 1]) + Touching(cubes[|cubes| - 1], cubes[..|cubes| - 1])
  }

  /** `part1`: six faces per cube, less two for every pair sharing a side. */
  function Part1(cubes: seq<Cube>): int
  {
    6 * |cubes| - 2 * SharedSides(cubes)
  }

  // ---------------------------------------------------------- properties

  /** Sharing a side is symmetric and never holds of a cube and itself. */
  lemma SharedSideSymmetric(a: Cube, b: Cube)
    ensures SharedSide(a, b) <==> SharedSide(b, a)
    ensures !SharedSide(a, a)
  {
  }

  /** Sharing a side means being one of the six face neighbours. */
  lemma SharedSideIsFace(a: Cube, b: Cube)
    ensures SharedSide(a, b) <==> exists k :: 0 <= k < 6 && b == Add(a, Face(k))
  {
    if SharedSide(a, b) {
      if b.0 == a.0 - 1 {
        assert b == Add(a, Face(0));
      } else if b.0 == a.0 + 1 {
        assert b == Add(a, Face(1));
      } else if b.1 == a.1 - 1 {
        assert b == Add(a, Face(2));
      } else if b.1 == a.1 + 1 {
        assert b == Add(a, Face(3));
      } else if b.2 == a.2 - 1 {
        assert b == Add(a, Face(4));
      } else {
        assert b == Add(a, Face(5));
      }
    }
  }

  /** The faces of `s` left uncovered by `cubes`: six per cube of `s`, less
      one for every cube of `cubes` touching it. */
  function ExposedFaces(s: seq<Cube>, cubes: seq<Cube>): int
  {
    if s == [] then 0
    else ExposedFaces(s[..|s| - 1], cubes) + 6 - Touching(s[|s| - 1], cubes)
  }

  lemma TouchingAppend(x: Cube, cubes: seq<Cube>, c: Cube)
    ensures Touching(x, cubes + [c]) == Touching(x, cubes) + (if SharedSide(x, c) then 1 else 0)
  {
    assert (cubes + [c])[..|cubes|] == cubes;
  }

  /** One more cube covers one face of every cube of `s` it touches. */
  lemma {:induction false} ExposedFacesAppend(s: seq<Cube>, cubes: seq<Cube>, c: Cube)
    ensures ExposedFaces(s, cubes + [c]) == ExposedFaces(s, cubes) - Touching(c, s)
    decreases |s|
  {
    if s != [] {
      var x := s[|s| - 1];
      ExposedFacesAppend(s[..|s| - 1], cubes, c);
      TouchingAppend(x, cubes, c);
      SharedSideSymmetric(x, c);
    }
  }

  /** The formula of `part1` counts every face of every cube that no other
      cube of the list covers. */
  lemma {:induction false} Part1CountsExposedFaces(cubes: seq<Cube>)
    ensures Part1(cubes) == ExposedFaces(cubes, cubes)
    decreases |cubes|
  {
    if cubes != [] {
      var init, c := cubes[..|cubes| - 1], cubes[|cubes| - 1];
      assert cubes == init + [c];
      Part1CountsExposedFaces(init);
      ExposedFacesAppend(init, init, c);
      TouchingAppend(c, init, c);
      SharedSideSymmetric(c, c);
    }
  }

  /** The example droplet of thirteen cubes. */
  const Example: seq<Cube> := [
    (2, 2, 2), (1, 2, 2), (3, 2, 2), (2, 1, 2), (2, 3, 2), (2, 2, 1), (2, 2, 3),
    (2, 2, 4), (2, 2, 6), (1, 2, 5), (3, 2, 5), (2, 1, 5), (2, 3, 5)]

  lemma {:induction false} TouchingNone(c: Cube, cubes: seq<Cube>)
    requires forall i :: 0 <= i < |cubes| ==> !SharedSide(c, cubes[i])
    ensures Touching(c, cubes) == 0
    decreases |cubes|
  {
    if cubes != [] {
      TouchingNone(c, cubes[..|cubes| - 1]);
    }
  }

  lemma {:induction false} TouchingOne(c: Cube, cubes: seq<Cube>, j: nat)
    requires j < |cubes| && SharedSide(c, cubes[j])
    requires forall i :: 0 <= i < |cubes| && i != j ==> !SharedSide(c, cubes[i])
    ensures Touching(c, cubes) == 1
    decreases |cubes|
  {
    var init := cubes[..|cubes| - 1];
    if j == |cubes| - 1 {
      TouchingNone(c, init);
    } else {
      TouchingOne(c, init, j);
    }
  }

  lemma SharedSidesStep(cubes: seq<Cube>, k: nat)
    requires k < |cubes|
    ensures SharedSides(cubes[..k + 1]) == SharedSides(cubes[..k]) + Touching(cubes[k], cubes[..k])
  {
    assert cubes[..k + 1][..k] == cubes[..k];
  }

  /** In the example, each of the six cubes after the centre touches the
      centre only. */
  lemma ExampleCrossTouching(k: nat)
    requires 1 <= k <= 6
    ensures Touching(Example[k], Example[..k]) == 1
  {
    var e := Example;
    match k
    case 1 => TouchingOne(e[1], e[..1], 0);
    case 2 => TouchingOne(e[2], e[..2], 0);
    case 3 => TouchingOne(e[3], e[..3], 0);
    case 4 => TouchingOne(e[4], e[..4], 0);
    case 5 => TouchingOne(e[5], e[..5], 0);
    case 6 => TouchingOne(e[6], e[..6], 0);
  }

  /** Of the remaining cubes only (2, 2, 4) touches an earlier one, the cube
      (2, 2, 3) below it. */
  lemma ExampleRestTouching(k: nat)
    requires 7 <= k < 13
    ensures Touching(Example[k], Example[..k]) == if k == 7 then 1 else 0
  {
    var e := Example;
    match k
    case 7 => TouchingOne(e[7], e[..7], 6);
    case 8 => TouchingNone(e[8], e[..8]);
    case 9 => TouchingNone(e[9], e[..9]);
    case 10 => TouchingNone(e[10], e[..10]);
    case 11 => TouchingNone(e[11], e[..11]);
    case 12 => TouchingNone(e[12], e[..12]);
  }

  /** The example's surface area is 64: 13 cubes with 7 shared sides. */
  lemma ExamplePart1()
    ensures Part1(Example) == 64
  {
    var e := Example;
    for k := 1 to 13
      invariant SharedSides(e[..k]) == if k <= 7 then k - 1 else 7
    {
      SharedSidesStep(e, k);
      if k <= 6 {
        ExampleCrossTouching(k);
      } else {
        ExampleRestTouching(k);
      }
    }
    assert e[..13] == e;
  }

  // ---------------------------------------------------------- flood fill

  /** The values of the `space` array of `part2`: air, lava and water. */
  const Air := 0
  const Lava := 1
  const Water := 2

  /** The contents of the `space` array, cell by cell. */
  type Grid = map<Cube, int>

  predicate InSpace(space: array3<int>, c: Cube)
  {
    0 <= c.0 < space.Length0 && 0 <= c.1 < space.Length1 && 0 <= c.2 < space.Length2
  }

  ghost function Cells(space: array3<int>): (r: set<Cube>)
    ensures forall q :: q in r <==> InSpace(space, q)
  {
    var r := set i, j, k | 0 <= i < space.Length0 && 0 <= j < space.Length1 && 0 <= k < space.Length2 :: (i, j, k);
    assert forall q :: InSpace(space, q) ==> q == (q.0, q.1, q.2);
    r
  }

  /** What the array holds now. */
  ghost function Snap(space: array3<int>): (g: Grid)
    reads space
    ensures forall q :: q in g <==> InSpace(space, q)
    ensures forall q :: InSpace(space, q) ==> g[q] == space[q.0, q.1, q.2]
  {
    map q | q in Cells(space) :: space[q.0, q.1, q.2]
  }

  /** `c` lies outside the grid or does not hold air. */
  ghost predicate Blocked(g: Grid, c: Cube)
  {
    c !in g || g[c] != Air
  }

  /** No face neighbour of `c` holds air. */
  ghost predicate Enclosed(g: Grid, c: Cube)
  {
    forall k :: 0 <= k < 6 ==> Blocked(g, Add(c, Face(k)))
  }

  /** From `before` to `after` only air has changed, and only into water. */
  ghost predicate Grows(before: Grid, after: Grid)
  {
    before.Keys == after.Keys &&
    forall q :: q in before ==> after[q] == before[q] || (before[q] == Air && after[q] == Water)
  }

  /** Every cell that turned from air into water has no air beside it. */
  ghost predicate Closed(before: Grid, after: Grid)
    requires before.Keys == after.Keys
  {
    forall q {:trigger Enclosed(after, q)} ::
      q in before && before[q] == Air && after[q] == Water ==> Enclosed(after, q)
  }

  /** The cells holding air: the measure that every fill shrinks. */
  ghost function AirOf(g: Grid): set<Cube>
  {
    set q | q in g && g[q] == Air
  }

  lemma GrowsTransitive(a: Grid, b: Grid, c: Grid)
    requires Grows(a, b) && Grows(b, c)
    ensures Grows(a, c)
  {
  }

  lemma BlockedKept(b: Grid, c: Grid, q: Cube)
    requires Grows(b, c) && Blocked(b, q)
    ensures Blocked(c, q)
  {
  }

  /** The neighbours of `c` in the first `n` directions stay blocked. */
  lemma BlockedPrefixKept(b: Grid, c: Grid, p: Cube, n: nat)
    requires Grows(b, c) && forall m :: 0 <= m < n ==> Blocked(b, Add(p, Face(m)))
    ensures forall m :: 0 <= m < n ==> Blocked(c, Add(p, Face(m)))
  {
    forall m | 0 <= m < n ensures Blocked(c, Add(p, Face(m))) {
      BlockedKept(b, c, Add(p, Face(m)));
    }
  }

  lemma EnclosedKept(b: Grid, c: Grid, q: Cube)
    requires Grows(b, c) && Enclosed(b, q)
    ensures Enclosed(c, q)
  {
    forall k | 0 <= k < 6 ensures Blocked(c, Add(q, Face(k))) {
      BlockedKept(b, c, Add(q, Face(k)));
    }
  }

  lemma ClosedTransitive(a: Grid, b: Grid, c: Grid)
    requires Grows(a, b) && Grows(b, c) && Closed(a, b) && Closed(b, c)
    ensures Closed(a, c)
  {
    forall q | q in a && a[q] == Air && c[q] == Water ensures Enclosed(c, q) {
      if b[q] == Water {
        assert Enclosed(b, q);
        EnclosedKept(b, c, q);
      } else {
        assert Enclosed(c, q);
      }
    }
  }

  /** Growing never adds air. */
  lemma AirShrinks(a: Grid, b: Grid)
    requires Grows(a, b)
    ensures |AirOf(b)| <= |AirOf(a)|
  {
    assert AirOf(b) <= AirOf(a);
    assert AirOf(a) == AirOf(b) + (AirOf(a) - AirOf(b));
  }

  /** Pouring water on one air cell removes it from the air cells. */
  lemma WaterOnAir(g: Grid, c: Cube)
    requires c in g && g[c] == Air
    ensures Grows(g, g[c := Water])
    ensures |AirOf(g[c := Water])| < |AirOf(g)|
  {
    var h := g[c := Water];
    assert AirOf(h) == AirOf(g) - {c};
    assert AirOf(g) == AirOf(h) + {c};
  }

  /** Every cell of `pocket` is in the grid and holds air. */
  ghost predicate AllAir(g: Grid, pocket: set<Cube>)
  {
    forall q :: q in pocket ==> q in g && g[q] == Air
  }

  /** `pocket` is a region of air that no face step leaves through air:
      every air cell beside it belongs to it. */
  ghost predicate AirPocket(g: Grid, pocket: set<Cube>)
  {
    AllAir(g, pocket) &&
    forall q, k :: q in pocket && 0 <= k < 6 && !Blocked(g, Add(q, Face(k))) ==> Add(q, Face(k)) in pocket
  }

  /** No face neighbour of `c` lies in `pocket`. */
  ghost predicate Apart(pocket: set<Cube>, c: Cube)
  {
    forall k :: 0 <= k < 6 ==> Add(c, Face(k)) !in pocket
  }

  /** An air pocket that water has not entered is still an air pocket. */
  lemma PocketKept(a: Grid, b: Grid, pocket: set<Cube>)
    requires Grows(a, b) && AirPocket(a, pocket) && AllAir(b, pocket)
    ensures AirPocket(b, pocket)
  {
    forall q, k | q in pocket && 0 <= k < 6 && !Blocked(b, Add(q, Face(k)))
      ensures Add(q, Face(k)) in pocket
    {
      assert !Blocked(a, Add(q, Face(k)));
    }
  }

  /** One pass of the loop of `FillAround`: a pocket beside no neighbour
      of `c` that was still air before filling from the neighbour `k` is
      still an air pocket then, does not hold that neighbour, and so is
      still air after it. */
  lemma PocketsStep(g0: Grid, g1: Grid, g2: Grid, c: Cube, k: nat)
    requires k < 6 && Grows(g0, g1)
    requires forall pocket :: AirPocket(g0, pocket) && Apart(pocket, c) ==> AllAir(g1, pocket)
    requires forall pocket :: AirPocket(g1, pocket) && Add(c, Face(k)) !in pocket ==> AllAir(g2, pocket)
    ensures forall pocket :: AirPocket(g0, pocket) && Apart(pocket, c) ==> AllAir(g2, pocket)
  {
    forall pocket | AirPocket(g0, pocket) && Apart(pocket, c) ensures AllAir(g2, pocket) {
      PocketKept(g0, g1, pocket);
    }
  }

  /** An air cell outside an air pocket has no neighbour inside it. */
  lemma PocketApart(g: Grid, pocket: set<Cube>, c: Cube)
    requires AirPocket(g, pocket) && c in g && g[c] == Air && c !in pocket
    ensures Apart(pocket, c)
  {
    forall k | 0 <= k < 6 ensures Add(c, Face(k)) !in pocket {
      if Add(c, Face(k)) in pocket {
        FaceBack(c, k);
        assert false;
      }
    }
  }

  /** `_flood_fill`: from `c`, turns every air cell it reaches by face steps
      into water. Nothing happens outside the array or on a cell that does
      not hold air. Only air turns into water; everything else keeps its
      value. On return `c` is no longer air, every cell this call turned
      into water has no air left beside it, and an air pocket that does not
      hold `c` is still air: the water only moves by face steps through air. */
  method FloodFill(space: array3<int>, c: Cube)
    modifies space
    ensures Grows(old(Snap(space)), Snap(space))
    ensures Blocked(Snap(space), c)
    ensures Closed(old(Snap(space)), Snap(space))
    ensures !InSpace(space, c) || old(space[c.0, c.1, c.2]) != Air ==> Snap(space) == old(Snap(space))
    ensures InSpace(space, c) && old(space[c.0, c.1, c.2]) == Air ==> space[c.0, c.1, c.2] == Water
    ensures forall pocket :: AirPocket(old(Snap(space)), pocket) && c !in pocket ==> AllAir(Snap(space), pocket)
    decreases |AirOf(Snap(space))|, 0
  {
    if !InSpace(space, c) || space[c.0, c.1, c.2] != Air {
      return;
    }
    ghost var g0 := Snap(space);
    space[c.0, c.1, c.2] := Water;
    ghost var g1 := Snap(space);
    assert g1 == g0[c := Water];
    WaterOnAir(g0, c);
    forall pocket | AirPocket(g0, pocket) && c !in pocket ensures AirPocket(g1, pocket) && Apart(pocket, c) {
      PocketKept(g0, g1, pocket);
      PocketApart(g0, pocket, c);
    }
    FillAround(space, c);
    ghost var g2 := Snap(space);
    GrowsTransitive(g0, g1, g2);
    forall q | q in g0 && g0[q] == Air && g2[q] == Water ensures Enclosed(g2, q) {
      if q != c {
        assert g1[q] == Air;
      }
    }
  }

  /** The loop of `_flood_fill` over the six face directions, once `c` holds
      water. An air pocket beside none of those directions stays air. */
  method FillAround(space: array3<int>, c: Cube)
    requires InSpace(space, c) && space[c.0, c.1, c.2] == Water
    modifies space
    ensures Grows(old(Snap(space)), Snap(space))
    ensures Enclosed(Snap(space), c)
    ensures Closed(old(Snap(space)), Snap(space))
    ensures forall pocket :: AirPocket(old(Snap(space)), pocket) && Apart(pocket, c) ==> AllAir(Snap(space), pocket)
    decreases |AirOf(Snap(space))|, 1
  {
    ghost var g0 := Snap(space);
    var k := 0;
    while k < 6
      invariant 0 <= k <= 6
      invariant Grows(g0, Snap(space)) && Closed(g0, Snap(space))
      invariant forall m :: 0 <= m < k ==> Blocked(Snap(space), Add(c, Face(m)))
      invariant forall pocket :: AirPocket(g0, pocket) && Apart(pocket, c) ==> AllAir(Snap(space), pocket)
    {
      ghost var g1 := Snap(space);
      AirShrinks(g0, g1);
      FloodFill(space, Add(c, Face(k)));
      ghost var g2 := Snap(space);
      GrowsTransitive(g0, g1, g2);
      ClosedTransitive(g0, g1, g2);
      PocketsStep(g0, g1, g2, c, k);
      BlockedPrefixKept(g1, g2, c, k);
      k := k + 1;
    }
  }

  // ---------------------------------------------------------------- part 2

  function Coord(c: Cube, axis: nat): int
  {
    if axis == 0 then c.0 else if axis == 1 then c.1 else c.2
  }

  /** `cubes.min(axis=0)` along one axis. */
  function Lowest(cubes: seq<Cube>, axis: nat): (m: int)
    requires cubes != []
    ensures forall i :: 0 <= i < |cubes| ==> m <= Coord(cubes[i], axis)
  {
    if |cubes| == 1 then Coord(cubes[0], axis)
    else
      var m := Lowest(cubes[..|cubes| - 1], axis);
      assert forall i :: 0 <= i < |cubes| - 1 ==> cubes[..|cubes| - 1][i] == cubes[i];
      var last := Coord(cubes[|cubes| - 1], axis);
      if last < m then last else m
  }

  /** `np.max(cubes, axis=0)` along one axis. */
  function Highest(cubes: seq<Cube>, axis: nat): (m: int)
    requires cubes != []
    ensures forall i :: 0 <= i < |cubes| ==> Coord(cubes[i], axis) <= m
  {
    if |cubes| == 1 then Coord(cubes[0], axis)
    else
      var m := Highest(cubes[..|cubes| - 1], axis);
      assert forall i :: 0 <= i < |cubes| - 1 ==> cubes[..|cubes| - 1][i] == cubes[i];
      var last := Coord(cubes[|cubes| - 1], axis);
      if last > m then last else m
  }

  /** The minimum and the maximum along an axis are attained: some cube has
      exactly that coordinate, as `min` and `max` return one of the values. */
  lemma {:induction false} LowestAttained(cubes: seq<Cube>, axis: nat)
    requires cubes != []
    ensures exists i :: 0 <= i < |cubes| && Coord(cubes[i], axis) == Lowest(cubes, axis)
    decreases |cubes|
  {
    if |cubes| == 1 {
      assert Coord(cubes[0], axis) == Lowest(cubes, axis);
    } else {
      var init := cubes[..|cubes| - 1];
      LowestAttained(init, axis);
      var i :| 0 <= i < |init| && Coord(init[i], axis) == Lowest(init, axis);
      assert init[i] == cubes[i];
    }
  }

  lemma {:induction false} HighestAttained(cubes: seq<Cube>, axis: nat)
    requires cubes != []
    ensures exists i :: 0 <= i < |cubes| && Coord(cubes[i], axis) == Highest(cubes, axis)
    decreases |cubes|
  {
    if |cubes| == 1 {
      assert Coord(cubes[0], axis) == Highest(cubes, axis);
    } else {
      var init := cubes[..|cubes| - 1];
      HighestAttained(init, axis);
      var i :| 0 <= i < |init| && Coord(init[i], axis) == Highest(init, axis);
      assert init[i] == cubes[i];
    }
  }

  /** The lowest corner of the bounding box, subtracted from every cube. */
  function Corner(cubes: seq<Cube>): Cube
    requires cubes != []
  {
    (Lowest(cubes, 0), Lowest(cubes, 1), Lowest(cubes, 2))
  }

  function Sub(a: Cube, b: Cube): Cube
  {
    (a.0 - b.0, a.1 - b.1, a.2 - b.2)
  }

  const One: Cube := (1, 1, 1)

  /** `q` is a cell of `space[1:-1, 1:-1, 1:-1]`, numbered from 0, for an
      array of dimensions `d`. */
  predicate Inner(d: Cube, q: Cube)
  {
    0 <= q.0 && q.0 + 2 < d.0 && 0 <= q.1 && q.1 + 2 < d.1 && 0 <= q.2 && q.2 + 2 < d.2
  }

  /** The order in which `np.where` lists cells: by x, then y, then z. */
  predicate Before(a: Cube, b: Cube)
  {
    a.0 < b.0 || (a.0 == b.0 && (a.1 < b.1 || (a.1 == b.1 && a.2 < b.2)))
  }

  ghost predicate Ascending(s: seq<Cube>)
  {
    forall a, b :: 0 <= a < b < |s| ==> Before(s[a], s[b])
  }

  lemma AscendingAppend(s: seq<Cube>, c: Cube)
    requires Ascending(s) && forall i :: 0 <= i < |s| ==> Before(s[i], c)
    ensures Ascending(s + [c])
  {
  }

  /** One more cell visited by `Remaining`. */
  lemma ListedStep(d: Cube, g: Grid, solid: seq<Cube>, c: Cube, next: seq<Cube>)
    requires forall q :: Inner(d, q) ==> Add(q, One) in g
    requires forall q :: q in solid <==> Inner(d, q) && Before(q, c) && g[Add(q, One)] < Water
    requires Inner(d, c) && next == if g[Add(c, One)] < Water then solid + [c] else solid
    ensures forall q :: q in next <==> Inner(d, q) && Before(q, (c.0, c.1, c.2 + 1)) && g[Add(q, One)] < Water
  {
  }

  /** The row `(x, y, *)` of `Remaining`. */
  method RemainingRow(space: array3<int>, ghost g: Grid, x: int, y: int, listed: seq<Cube>) returns (solid: seq<Cube>)
    requires g == Snap(space) && 0 <= x < space.Length0 - 2 && 0 <= y < space.Length1 - 2
    requires forall q :: q in listed <==>
      Inner((space.Length0, space.Length1, space.Length2), q) && Before(q, (x, y, 0)) && g[Add(q, One)] < Water
    requires Ascending(listed) && forall i :: 0 <= i < |listed| ==> Before(listed[i], (x, y, 0))
    ensures forall q :: q in solid <==>
      Inner((space.Length0, space.Length1, space.Length2), q) && Before(q, (x, y + 1, 0)) && g[Add(q, One)] < Water
    ensures Ascending(solid) && forall i :: 0 <= i < |solid| ==> Before(solid[i], (x, y + 1, 0))
  {
    ghost var d := (space.Length0, space.Length1, space.Length2);
    solid := listed;
    var z := 0;
    while z < space.Length2 - 2
      invariant 0 <= z
      invariant forall q :: q in solid <==> Inner(d, q) && Before(q, (x, y, z)) && g[Add(q, One)] < Water
      invariant Ascending(solid) && forall i :: 0 <= i < |solid| ==> Before(solid[i], (x, y, z))
    {
      assert g[Add((x, y, z), One)] == space[x + 1, y + 1, z + 1];
      ghost var before := solid;
      if space[x + 1, y + 1, z + 1] < Water {
        AscendingAppend(solid, (x, y, z));
        solid := solid + [(x, y, z)];
      }
      ListedStep(d, g, before, (x, y, z), solid);
      z := z + 1;
    }
  }

  /** `np.where(space[1:-1, 1:-1, 1:-1] < 2)`: the inner cells not reached
      by water, in order. */
  method Remaining(space: array3<int>, ghost g: Grid) returns (solid: seq<Cube>)
    requires g == Snap(space)
    ensures forall q :: Inner((space.Length0, space.Length1, space.Length2), q) ==> Add(q, One) in g
    ensures forall q :: q in solid <==>
      Inner((space.Length0, space.Length1, space.Length2), q) && g[Add(q, One)] < Water
    ensures Ascending(solid)
  {
    ghost var d := (space.Length0, space.Length1, space.Length2);
    solid := [];
    var x := 0;
    while x < space.Length0 - 2
      invariant forall q :: q in solid <==> Inner(d, q) && Before(q, (x, 0, 0)) && g[Add(q, One)] < Water
      invariant Ascending(solid) && forall i :: 0 <= i < |solid| ==> Before(solid[i], (x, 0, 0))
    {
      var y := 0;
      while y < space.Length1 - 2
        invariant 0 <= x < space.Length0 - 2
        invariant forall q :: q in solid <==> Inner(d, q) && Before(q, (x, y, 0)) && g[Add(q, One)] < Water
        invariant Ascending(solid) && forall i :: 0 <= i < |solid| ==> Before(solid[i], (x, y, 0))
      {
        solid := RemainingRow(space, g, x, y, solid);
        y := y + 1;
      }
      x := x + 1;
    }
  }


  // -------------------------------------------------- what the water reaches

  /** Every value is air, lava or water. */
  ghost predicate Values(g: Grid)
  {
    forall q :: q in g ==> Air <= g[q] <= Water
  }

  /** No water cell has air beside it. */
  ghost predicate Settled(g: Grid)
  {
    forall q {:trigger Enclosed(g, q)} :: q in g && g[q] == Water ==> Enclosed(g, q)
  }

  predicate InBox(q: Cube, d: Cube)
  {
    0 <= q.0 < d.0 && 0 <= q.1 < d.1 && 0 <= q.2 < d.2
  }

  predicate OnBoundary(q: Cube, d: Cube)
  {
    InBox(q, d) && (q.0 == 0 || q.1 == 0 || q.2 == 0 || q.0 == d.0 - 1 || q.1 == d.1 - 1 || q.2 == d.2 - 1)
  }

  /** The grid of an array of the given dimensions whose outer layer holds
      no lava and whose corner (0, 0, 0) holds water. */
  ghost predicate WetCorner(g: Grid, d: Cube)
  {
    (forall q :: q in g <==> InBox(q, d)) && Values(g) && Settled(g) &&
    (forall q :: OnBoundary(q, d) ==> g[q] != Lava) &&
    InBox((0, 0, 0), d) && g[(0, 0, 0)] == Water
  }

  function Shift(q: Cube, axis: nat, m: int): Cube
  {
    if axis == 0 then (q.0 + m, q.1, q.2) else if axis == 1 then (q.0, q.1 + m, q.2) else (q.0, q.1, q.2 + m)
  }

  /** Water spreads along a straight line of cells without lava. */
  lemma {:induction false} WaterAlong(g: Grid, q: Cube, axis: nat, n: nat)
    requires Values(g) && Settled(g) && axis < 3
    requires q in g && g[q] == Water
    requires forall m :: 0 <= m <= n ==> Shift(q, axis, m) in g && g[Shift(q, axis, m)] != Lava
    ensures g[Shift(q, axis, n)] == Water
    decreases n
  {
    if n > 0 {
      WaterAlong(g, q, axis, n - 1);
      var p := Shift(q, axis, n - 1);
      assert Enclosed(g, p);
      assert Add(p, Face(2 * axis + 1)) == Shift(q, axis, n);
      assert Blocked(g, Add(p, Face(2 * axis + 1)));
    }
  }

  /** Water that reaches the corner of the padded array reaches its whole
      outer layer, which the padding keeps free of lava. */
  lemma BoundaryWater(g: Grid, d: Cube, q: Cube)
    requires WetCorner(g, d) && OnBoundary(q, d)
    ensures g[q] == Water
  {
    var o := (0, 0, 0);
    if q.0 == 0 {
      WaterAlong(g, o, 1, q.1);
      WaterAlong(g, (0, q.1, 0), 2, q.2);
    } else if q.1 == 0 {
      WaterAlong(g, o, 0, q.0);
      WaterAlong(g, (q.0, 0, 0), 2, q.2);
    } else if q.2 == 0 {
      WaterAlong(g, o, 0, q.0);
      WaterAlong(g, (q.0, 0, 0), 1, q.1);
    } else if q.0 == d.0 - 1 {
      WaterAlong(g, o, 0, q.0);
      WaterAlong(g, (q.0, 0, 0), 1, q.1);
      WaterAlong(g, (q.0, q.1, 0), 2, q.2);
    } else if q.1 == d.1 - 1 {
      WaterAlong(g, o, 1, q.1);
      WaterAlong(g, (0, q.1, 0), 2, q.2);
      WaterAlong(g, (0, q.1, q.2), 0, q.0);
    } else {
      WaterAlong(g, o, 2, q.2);
      WaterAlong(g, (0, 0, q.2), 1, q.1);
      WaterAlong(g, (0, q.1, q.2), 0, q.0);
    }
  }

  function Opposite(k: nat): nat
  {
    if k % 2 == 0 then k + 1 else k - 1
  }

  lemma FaceBack(p: Cube, k: nat)
    requires k < 6
    ensures Opposite(k) < 6 && Add(Add(p, Face(k)), Face(Opposite(k))) == p
  {
  }

  /** A cell beside water that is not air is the only thing that can stop the
      water: in a settled grid the neighbours of water are never air. */
  lemma BesideWater(g: Grid, p: Cube, k: nat)
    requires Settled(g) && k < 6 && p in g
    requires Add(p, Face(k)) in g && g[Add(p, Face(k))] == Water
    ensures g[p] != Air
  {
    var n := Add(p, Face(k));
    assert Enclosed(g, n);
    FaceBack(p, k);
    assert Blocked(g, Add(n, Face(Opposite(k))));
  }

  /** The padded array before the fill holds air and lava, with no lava in
      its outer layer; after the fill from the corner the water has reached
      that whole layer. */
  lemma FillReachesOuterLayer(g0: Grid, g1: Grid, d: Cube)
    requires forall q :: q in g0 <==> InBox(q, d)
    requires forall q :: q in g0 ==> g0[q] == Air || (g0[q] == Lava && !OnBoundary(q, d))
    requires InBox((0, 0, 0), d)
    requires Grows(g0, g1) && Closed(g0, g1) && Blocked(g1, (0, 0, 0))
    ensures WetCorner(g1, d)
  {
    forall q | q in g1 && g1[q] == Water ensures Enclosed(g1, q) {
      assert g0[q] == Air;
    }
    assert OnBoundary((0, 0, 0), d);
  }

  /** `space[p] = v`, seen on the grid of the array. */
  method SetCell(space: array3<int>, p: Cube, v: int)
    requires InSpace(space, p)
    modifies space
    ensures Snap(space) == old(Snap(space))[p := v]
  {
    space[p.0, p.1, p.2] := v;
  }

  /** A moved and padded cube lies strictly inside the padded array. */
  lemma BetweenCorners(cubes: seq<Cube>, lo: Cube, d: Cube, n: nat)
    requires n < |cubes| && lo == Corner(cubes)
    requires d == Dims(cubes)
    ensures InBox(Add(Sub(cubes[n], lo), One), d) && !OnBoundary(Add(Sub(cubes[n], lo), One), d)
  {
    var c := cubes[n];
    assert Coord(c, 0) == c.0 && Coord(c, 1) == c.1 && Coord(c, 2) == c.2;
  }

  /** The grid of a padded array of dimensions `d` in which the first `n`
      cubes, moved by `-lo` and the padding, are lava and every other
      cell is air. */
  ghost predicate LavaMarked(g: Grid, cubes: seq<Cube>, lo: Cube, d: Cube, n: nat)
    requires n <= |cubes|
  {
    (forall q :: q in g <==> InBox(q, d)) &&
    (forall i :: 0 <= i < n ==> Add(Sub(cubes[i], lo), One) in g && g[Add(Sub(cubes[i], lo), One)] == Lava) &&
    (forall q :: q in g ==>
      g[q] == Air || (g[q] == Lava && !OnBoundary(q, d) && Add(Sub(q, One), lo) in cubes))
  }

  lemma LavaStep(g: Grid, cubes: seq<Cube>, lo: Cube, d: Cube, n: nat)
    requires n < |cubes| && LavaMarked(g, cubes, lo, d, n)
    requires Add(Sub(cubes[n], lo), One) in g && !OnBoundary(Add(Sub(cubes[n], lo), One), d)
    ensures LavaMarked(g[Add(Sub(cubes[n], lo), One) := Lava], cubes, lo, d, n + 1)
  {
    var p := Add(Sub(cubes[n], lo), One);
    assert Add(Sub(p, One), lo) == cubes[n];
  }

  /** The lava of `part2` before the fill: the cubes moved by `-lo`, then
      by one more for the padding, in an array of dimensions `d`. */
  method LavaSpace(cubes: seq<Cube>, lo: Cube, d: Cube) returns (space: array3<int>)
    requires cubes != [] && lo == Corner(cubes)
    requires d == Dims(cubes)
    ensures fresh(space) && space.Length0 == d.0 && space.Length1 == d.1 && space.Length2 == d.2
    ensures LavaMarked(Snap(space), cubes, lo, d, |cubes|)
  {
    space := new int[d.0, d.1, d.2]((i, j, k) => Air);
    var n := 0;
    while n < |cubes|
      invariant 0 <= n <= |cubes|
      invariant LavaMarked(Snap(space), cubes, lo, d, n)
    {
      var p := Add(Sub(cubes[n], lo), One);
      BetweenCorners(cubes, lo, d, n);
      ghost var g := Snap(space);
      SetCell(space, p, Lava);
      LavaStep(g, cubes, lo, d, n);
      n := n + 1;
    }
  }

  /** What `part2` counts, stated on the grids before and after the fill:
      the cells the water missed hold every cube, and any face of them that
      leads out of them belongs to a lava cube. */
  lemma CountedCells(cubes: seq<Cube>, lo: Cube, d: Cube, g0: Grid, g1: Grid, solid: seq<Cube>)
    requires LavaMarked(g0, cubes, lo, d, |cubes|) && InBox((0, 0, 0), d)
    requires Grows(g0, g1) && Closed(g0, g1) && Blocked(g1, (0, 0, 0))
    requires forall q :: Inner(d, q) ==> Add(q, One) in g1
    requires forall q :: q in solid <==> Inner(d, q) && g1[Add(q, One)] < Water
    ensures forall i :: 0 <= i < |cubes| ==> Sub(cubes[i], lo) in solid
    ensures forall q, k :: q in solid && 0 <= k < 6 && Add(q, Face(k)) !in solid ==> Add(q, lo) in cubes
  {
    forall i | 0 <= i < |cubes| ensures Sub(cubes[i], lo) in solid {
      var p := Add(Sub(cubes[i], lo), One);
      assert g0[p] == Lava;
    }
    FillReachesOuterLayer(g0, g1, d);
    forall q, k | q in solid && 0 <= k < 6 && Add(q, Face(k)) !in solid ensures Add(q, lo) in cubes {
      SealedFace(d, g1, solid, q, k);
      var p := Add(q, One);
      assert g0[p] == Lava;
      assert Add(Sub(p, One), lo) == Add(q, lo);
    }
  }

  /** A counted cell with a face leading out of the counted cells is lava
      after the fill. */
  lemma SealedFace(d: Cube, g: Grid, solid: seq<Cube>, q: Cube, k: nat)
    requires WetCorner(g, d)
    requires forall q :: Inner(d, q) ==> Add(q, One) in g
    requires forall q :: q in solid <==> Inner(d, q) && g[Add(q, One)] < Water
    requires q in solid && k < 6 && Add(q, Face(k)) !in solid
    ensures g[Add(q, One)] == Lava
  {
    var p := Add(q, One);
    var n := Add(q, Face(k));
    var m := Add(p, Face(k));
    assert m == Add(n, One);
    assert InBox(m, d);
    if Inner(d, n) {
      assert g[m] >= Water;
    } else {
      assert OnBoundary(m, d);
      BoundaryWater(g, d, m);
    }
    BesideWater(g, p, k);
  }



  /** The dimensions of the padded array of `part2`: the bounding box of
      the moved cubes with one layer of air on every side. */
  function Dims(cubes: seq<Cube>): Cube
    requires cubes != []
  {
    var lo := Corner(cubes);
    (Highest(cubes, 0) - lo.0 + 3, Highest(cubes, 1) - lo.1 + 3, Highest(cubes, 2) - lo.2 + 3)
  }

  /** `pocket`, in the coordinates of the moved cubes, is air sealed inside
      the droplet: it lies in the bounding box, holds no cube, and a face
      step from it leads either into a cube or back into it. */
  ghost predicate Enclosure(cubes: seq<Cube>, pocket: set<Cube>)
    requires cubes != []
  {
    Sealed(cubes, Corner(cubes), Dims(cubes), pocket)
  }

  /** Every cell of `pocket` is sealed, for cubes moved by `-lo` inside an
      array of dimensions `d`. */
  ghost predicate Sealed(cubes: seq<Cube>, lo: Cube, d: Cube, pocket: set<Cube>)
  {
    forall q {:trigger SealedIn(cubes, lo, d, pocket, q)} :: q in pocket ==> SealedIn(cubes, lo, d, pocket, q)
  }

  /** The cell `q` of `pocket` is an inner cell of the array, is not a
      cube, and each of its six neighbours is a cube or in `pocket`. */
  ghost predicate SealedIn(cubes: seq<Cube>, lo: Cube, d: Cube, pocket: set<Cube>, q: Cube)
  {
    Inner(d, q) && Add(q, lo) !in cubes &&
    forall k :: 0 <= k < 6 ==> Add(Add(q, Face(k)), lo) in cubes || Add(q, Face(k)) in pocket
  }

  /** The two facts about the lava array that the pockets need: every
      non-air cell is a moved cube, and every moved cube is not air. */
  lemma LavaFacts(g0: Grid, cubes: seq<Cube>, lo: Cube, d: Cube)
    requires LavaMarked(g0, cubes, lo, d, |cubes|)
    ensures forall q :: q in g0 && g0[q] != Air ==> Add(Sub(q, One), lo) in cubes
    ensures forall c :: c in cubes ==> Blocked(g0, Add(Sub(c, lo), One))
  {
  }

  /** The cells of `pocket` moved by the padding of `part2`. */
  ghost function Lift(pocket: set<Cube>): (s: set<Cube>)
    ensures forall p :: p in s <==> Sub(p, One) in pocket
  {
    var s := set q | q in pocket :: Add(q, One);
    forall p | Sub(p, One) in pocket ensures p in s {
      assert Add(Sub(p, One), One) == p;
    }
    s
  }

  /** Before the fill, the moved cells of air sealed inside the droplet
      hold air. */
  lemma LiftedAir(cubes: seq<Cube>, lo: Cube, d: Cube, g0: Grid, pocket: set<Cube>)
    requires forall q :: q in g0 <==> InBox(q, d)
    requires forall q :: q in g0 && g0[q] != Air ==> Add(Sub(q, One), lo) in cubes
    requires Sealed(cubes, lo, d, pocket)
    ensures AllAir(g0, Lift(pocket))
  {
    forall p | p in Lift(pocket) ensures p in g0 && g0[p] == Air {
      var q := Sub(p, One);
      assert SealedIn(cubes, lo, d, pocket, q);
      assert Add(q, One) == p;
      assert InBox(p, d);
    }
  }

  /** A face step from a moved cell of the pocket into air stays in the
      moved pocket. */
  lemma LiftedStep(cubes: seq<Cube>, lo: Cube, d: Cube, g0: Grid, pocket: set<Cube>, p: Cube, k: nat)
    requires forall c :: c in cubes ==> Blocked(g0, Add(Sub(c, lo), One))
    requires Sealed(cubes, lo, d, pocket)
    requires p in Lift(pocket) && k < 6 && !Blocked(g0, Add(p, Face(k)))
    ensures Add(p, Face(k)) in Lift(pocket)
  {
    var q := Sub(p, One);
    assert SealedIn(cubes, lo, d, pocket, q);
    var n := Add(q, Face(k));
    assert Sub(Add(p, Face(k)), One) == n;
    assert Add(Sub(Add(n, lo), lo), One) == Add(p, Face(k));
  }

  /** Before the fill, air sealed inside the droplet is an air pocket of
      the padded array that does not hold the corner. */
  lemma LiftedPocket(cubes: seq<Cube>, lo: Cube, d: Cube, g0: Grid, pocket: set<Cube>)
    requires forall q :: q in g0 <==> InBox(q, d)
    requires forall q :: q in g0 && g0[q] != Air ==> Add(Sub(q, One), lo) in cubes
    requires forall c :: c in cubes ==> Blocked(g0, Add(Sub(c, lo), One))
    requires Sealed(cubes, lo, d, pocket)
    ensures AirPocket(g0, Lift(pocket)) && (0, 0, 0) !in Lift(pocket)
  {
    LiftedAir(cubes, lo, d, g0, pocket);
    forall p, k | p in Lift(pocket) && 0 <= k < 6 && !Blocked(g0, Add(p, Face(k)))
      ensures Add(p, Face(k)) in Lift(pocket)
    {
      LiftedStep(cubes, lo, d, g0, pocket, p, k);
    }
    assert SealedIn(cubes, lo, d, pocket, Sub((0, 0, 0), One)) ==> Inner(d, Sub((0, 0, 0), One));
  }

  /** Air sealed inside the droplet is never reached by the water poured in
      at the corner, so `np.where` counts it with the cubes. */
  lemma EnclosedCounted(cubes: seq<Cube>, lo: Cube, d: Cube, g0: Grid, g1: Grid, solid: seq<Cube>, pocket: set<Cube>)
    requires forall q :: q in g0 <==> InBox(q, d)
    requires forall q :: q in g0 && g0[q] != Air ==> Add(Sub(q, One), lo) in cubes
    requires forall c :: c in cubes ==> Blocked(g0, Add(Sub(c, lo), One))
    requires forall s :: AirPocket(g0, s) && (0, 0, 0) !in s ==> AllAir(g1, s)
    requires forall q :: q in solid <==> Inner(d, q) && Add(q, One) in g1 && g1[Add(q, One)] < Water
    requires Sealed(cubes, lo, d, pocket)
    ensures forall q :: q in pocket ==> q in solid
  {
    LiftedPocket(cubes, lo, d, g0, pocket);
    var s := Lift(pocket);
    assert AllAir(g1, s);
    forall q | q in pocket ensures q in solid {
      assert SealedIn(cubes, lo, d, pocket, q);
      assert Sub(Add(q, One), One) == q;
      assert Add(q, One) in s;
    }
  }

  /** Every air pocket sealed inside the droplet is among the cells that
      the fill from the corner leaves for `part2` to count. */
  lemma PocketsCounted(cubes: seq<Cube>, lo: Cube, d: Cube, g0: Grid, g1: Grid, solid: seq<Cube>)
    requires cubes != [] && lo == Corner(cubes) && d == Dims(cubes)
    requires LavaMarked(g0, cubes, lo, d, |cubes|)
    requires forall s :: AirPocket(g0, s) && (0, 0, 0) !in s ==> AllAir(g1, s)
    requires forall q :: Inner(d, q) ==> Add(q, One) in g1
    requires forall q :: q in solid <==> Inner(d, q) && g1[Add(q, One)] < Water
    ensures forall pocket :: Enclosure(cubes, pocket) ==> forall q :: q in pocket ==> q in solid
  {
    LavaFacts(g0, cubes, lo, d);
    forall pocket | Enclosure(cubes, pocket) ensures forall q :: q in pocket ==> q in solid {
      EnclosedCounted(cubes, lo, d, g0, g1, solid, pocket);
    }
  }

  /** `part2`: the cubes are moved so that their lowest coordinates are 0,
      marked as lava in an array padded by one layer of air, water is
      poured in at the corner, and the surface of everything the water did
      not reach is counted. No cubes at all fail (the minimum of an empty
      array). The counted cells hold every cube, each once, and a face of
      a counted cell that does not touch another counted cell belongs to a
      lava cube, so no outside air is counted; and every pocket of air
      sealed inside the droplet is counted with it. */
  method Part2(cubes: seq<Cube>) returns (r: Option<int>, ghost solid: seq<Cube>)
    ensures r.None? <==> cubes == []
    ensures r.Some? ==> r.value == Part1(solid) && Ascending(solid)
    ensures r.Some? ==> forall i :: 0 <= i < |cubes| ==> Sub(cubes[i], Corner(cubes)) in solid
    ensures r.Some? ==> forall q, k :: q in solid && 0 <= k < 6 && Add(q, Face(k)) !in solid ==>
      Add(q, Corner(cubes)) in cubes
    ensures r.Some? ==> forall pocket :: Enclosure(cubes, pocket) ==> forall q :: q in pocket ==> q in solid
  {
    if cubes == [] {
      return None, [];
    }
    var lo := Corner(cubes);
    var d := Dims(cubes);
    var space := LavaSpace(cubes, lo, d);
    ghost var g0 := Snap(space);
    FloodFill(space, (0, 0, 0));
    ghost var g1 := Snap(space);
    var remaining := Remaining(space, g1);
    r, solid := Some(Part1(remaining)), remaining;
    CountedCells(cubes, lo, d, g0, g1, solid);
    PocketsCounted(cubes, lo, d, g0, g1, solid);
  }
}
