/** Treetop tree house: a rectangular forest of tree heights, one digit per
    tree; rows run top to bottom, columns left to right. */
module Day08 {
  import opened Common

  /** Every row has the width of the first; the parsed digits are 0..9. */
  ghost predicate Forest(f: seq<seq<int>>)
  {
    (forall y :: 0 <= y < |f| ==> |f[y]| == |f[0]|) &&
    (forall y, x :: 0 <= y < |f| && 0 <= x < |f[y]| ==> 0 <= f[y][x] <= 9)
  }

  function Width(f: seq<seq<int>>): nat
  {
    if f == [] then 0 else |f[0]|
  }

  /** Column x of the forest, top to bottom (`forest[:, x]`). */
  function Column(f: seq<seq<int>>, x: nat): seq<int>
    requires forall y :: 0 <= y < |f| ==> x < |f[y]|
  {
    seq(|f|, y requires 0 <= y < |f| => f[y][x])
  }

  /** A line back to front (`[::-1]`). */
  function Reverse(s: seq<int>): seq<int>
  {
    seq(|s|, i requires 0 <= i < |s| => s[|s| - 1 - i])
  }

  function Max2(a: int, b: int): int
  {
    if a < b then b else a
  }

  /** `np.maximum.accumulate` over a line padded with -1 in front: the
      entry before position |s| is the largest of -1 and the trees of `s`. */
  function PaddedMax(s: seq<int>): int
  {
    if s == [] then -1 else Max2(PaddedMax(s[..|s| - 1]), s[|s| - 1])
  }

  /** `_visible_from_top` along one line: the tree at `i` is taller than the
      padded running maximum of the trees before it. */
  predicate VisibleInLine(line: seq<int>, i: nat)
    requires i < |line|
  {
    line[i] > PaddedMax(line[..i])
  }

  datatype Side = Top | Left | Bottom | Right

  /** Visibility from each side, as `part1` obtains it by flipping and
      transposing the forest before and after `_visible_from_top`. */
  predicate VisibleFrom(f: seq<seq<int>>, side: Side, y: nat, x: nat)
    requires y < |f| && forall k :: 0 <= k < |f| ==> x < |f[k]|
  {
    match side
    case Top => VisibleInLine(Column(f, x), y)
    case Left => VisibleInLine(f[y], x)
    case Bottom => VisibleInLine(Reverse(Column(f, x)), |f| - 1 - y)
    case Right => VisibleInLine(Reverse(f[y]), |f[y]| - 1 - x)
  }

  predicate AnyVisible(f: seq<seq<int>>, y: nat, x: nat)
    requires y < |f| && forall k :: 0 <= k < |f| ==> x < |f[k]|
  {
    VisibleFrom(f, Top, y, x) || VisibleFrom(f, Left, y, x) ||
    VisibleFrom(f, Bottom, y, x) || VisibleFrom(f, Right, y, x)
  }

  /** The number of visible trees among the first `n` of row `y`. */
  function RowCount(f: seq<seq<int>>, y: nat, n: nat): (c: nat)
    requires y < |f| && n <= Width(f) && forall k :: 0 <= k < |f| ==> |f[k]| == Width(f)
    ensures c <= n
  {
    if n == 0 then 0 else RowCount(f, y, n - 1) + (if AnyVisible(f, y, n - 1) then 1 else 0)
  }

  /** The number of visible trees in the first `m` rows. */
  function VisibleCount(f: seq<seq<int>>, m: nat): (c: nat)
    requires m <= |f| && forall k :: 0 <= k < |f| ==> |f[k]| == Width(f)
  {
    if m == 0 then 0 else VisibleCount(f, m - 1) + RowCount(f, m - 1, Width(f))
  }

  /** One `visible |= ...` line of `part1`. */
  method OrSide(f: seq<seq<int>>, side: Side, visible: array2<bool>)
    requires forall k :: 0 <= k < |f| ==> |f[k]| == Width(f)
    requires visible.Length0 == |f| && visible.Length1 == Width(f)
    modifies visible
    ensures forall y, x :: 0 <= y < |f| && 0 <= x < Width(f) ==>
      visible[y, x] == (old(visible[y, x]) || VisibleFrom(f, side, y, x))
  {
    var y := 0;
    while y < |f|
      invariant 0 <= y <= |f|
      invariant forall i, x :: 0 <= i < y && 0 <= x < Width(f) ==>
        visible[i, x] == (old(visible[i, x]) || VisibleFrom(f, side, i, x))
      invariant forall i, x :: y <= i < |f| && 0 <= x < Width(f) ==> visible[i, x] == old(visible[i, x])
    {
      OrRow(f, side, visible, y);
      y := y + 1;
    }
  }

  /** The part of one `visible |= ...` line that falls on row `y`. */
  method OrRow(f: seq<seq<int>>, side: Side, visible: array2<bool>, y: nat)
    requires forall k :: 0 <= k < |f| ==> |f[k]| == Width(f)
    requires visible.Length0 == |f| && visible.Length1 == Width(f) && y < |f|
    modifies visible
    ensures forall x :: 0 <= x < Width(f) ==>
      visible[y, x] == (old(visible[y, x]) || VisibleFrom(f, side, y, x))
    ensures forall i, x :: 0 <= i < |f| && i != y && 0 <= x < Width(f) ==> visible[i, x] == old(visible[i, x])
  {
    var x := 0;
    while x < Width(f)
      invariant 0 <= x <= Width(f)
      invariant forall j :: 0 <= j < x ==> visible[y, j] == (old(visible[y, j]) || VisibleFrom(f, side, y, j))
      invariant forall j :: x <= j < Width(f) ==> visible[y, j] == old(visible[y, j])
      invariant forall i, j :: 0 <= i < |f| && i != y && 0 <= j < Width(f) ==> visible[i, j] == old(visible[i, j])
    {
      visible[y, x] := visible[y, x] || VisibleFrom(f, side, y, x);
      x := x + 1;
    }
  }

  /** The `visible` array of `part1`, built by four passes. */
  method VisibleMap(f: seq<seq<int>>) returns (visible: array2<bool>)
    requires forall k :: 0 <= k < |f| ==> |f[k]| == Width(f)
    ensures visible.Length0 == |f| && visible.Length1 == Width(f)
    ensures forall y, x :: 0 <= y < |f| && 0 <= x < Width(f) ==> visible[y, x] == AnyVisible(f, y, x)
  {
    visible := new bool[|f|, Width(f)]((y, x) => false);
    OrSide(f, Top, visible);
    OrSide(f, Left, visible);
    OrSide(f, Bottom, visible);
    OrSide(f, Right, visible);
  }

  /** `visible` holds, for every tree, whether it is visible from some side. */
  ghost predicate Marked(f: seq<seq<int>>, visible: array2<bool>)
    requires forall k :: 0 <= k < |f| ==> |f[k]| == Width(f)
    reads visible
  {
    visible.Length0 == |f| && visible.Length1 == Width(f) &&
    forall y, x :: 0 <= y < |f| && 0 <= x < Width(f) ==> visible[y, x] == AnyVisible(f, y, x)
  }

  /** `part1`: the number of trees visible from at least one side. */
  method Part1(f: seq<seq<int>>) returns (count: nat)
    requires forall k :: 0 <= k < |f| ==> |f[k]| == Width(f)
    ensures count == VisibleCount(f, |f|)
  {
    var visible := VisibleMap(f);
    assert Marked(f, visible);
    count := 0;
    var y := 0;
    while y < |f|
      invariant 0 <= y <= |f|
      invariant count == VisibleCount(f, y)
      invariant Marked(f, visible)
    {
      var row := CountRow(f, visible, y);
      count := count + row;
      y := y + 1;
    }
  }

  /** `visible.sum()` over one row. */
  method CountRow(f: seq<seq<int>>, visible: array2<bool>, y: nat) returns (row: nat)
    requires forall k :: 0 <= k < |f| ==> |f[k]| == Width(f)
    requires y < |f| && Marked(f, visible)
    ensures row == RowCount(f, y, Width(f))
  {
    var x := 0;
    row := 0;
    while x < Width(f)
      invariant 0 <= x <= Width(f)
      invariant row == RowCount(f, y, x)
    {
      var seen := visible[y, x];
      assert seen == AnyVisible(f, y, x);
      if seen {
        row := row + 1;
      }
      x := x + 1;
    }
  }

  /** The running maximum of a non-empty line (`np.maximum.accumulate(trees)[-1]`). */
  function RunMax(s: seq<int>): (m: int)
    requires s != []
    ensures forall i :: 0 <= i < |s| ==> s[i] <= m
    ensures exists i :: 0 <= i < |s| && s[i] == m
  {
    if |s| == 1 then s[0]
    else
      var init := s[..|s| - 1];
      var m := RunMax(init);
      assert forall i :: 0 <= i < |init| ==> init[i] == s[i];
      Max2(m, s[|s| - 1])
  }

  /** `(own_height > maxs).sum()`: the number of running maxima below `h`. */
  function CountBelow(s: seq<int>, h: int): nat
  {
    if s == [] then 0 else CountBelow(s[..|s| - 1], h) + (if h > RunMax(s) then 1 else 0)
  }

  /** `_view_distance` of a non-empty line of trees, seen from a tree of height `h`. */
  function ViewDistance(trees: seq<int>, h: int): int
    requires trees != []
  {
    CountBelow(trees, h) + (if RunMax(trees) >= h then 1 else 0)
  }

  /** Reference definition: the index of the first tree of height at least
      `h`, or the length of the line when there is none. */
  function FirstBlocking(s: seq<int>, h: int): (k: nat)
    ensures k <= |s| && (forall i :: 0 <= i < k ==> s[i] < h) && (k < |s| ==> s[k] >= h)
  {
    if s == [] then 0
    else if s[0] >= h then 0
    else
      var k := FirstBlocking(s[1..], h);
      assert forall i :: 1 <= i <= k ==> s[i] == s[1..][i - 1];
      k + 1
  }

  /** The trees before `(y, x)` as seen looking up, left, right and down. */
  function Up(f: seq<seq<int>>, y: nat, x: nat): seq<int>
    requires y <= |f| && forall k :: 0 <= k < |f| ==> x < |f[k]|
  {
    Reverse(Column(f, x)[..y])
  }

  function LeftOf(f: seq<seq<int>>, y: nat, x: nat): seq<int>
    requires y < |f| && x <= |f[y]|
  {
    Reverse(f[y][..x])
  }

  function RightOf(f: seq<seq<int>>, y: nat, x: nat): seq<int>
    requires y < |f| && x < |f[y]|
  {
    f[y][x + 1..]
  }

  function Down(f: seq<seq<int>>, y: nat, x: nat): seq<int>
    requires y < |f| && forall k :: 0 <= k < |f| ==> x < |f[k]|
  {
    Column(f, x)[y + 1..]
  }

  /** An interior tree: every one of its four lines of sight is non-empty. */
  predicate Interior(f: seq<seq<int>>, y: int, x: int)
  {
    1 <= y < |f| - 1 && 1 <= x < Width(f) - 1
  }

  /** `_scenic_score`: the product of the four view distances. */
  function ScenicScore(f: seq<seq<int>>, y: nat, x: nat): int
    requires forall k :: 0 <= k < |f| ==> |f[k]| == Width(f)
    requires Interior(f, y, x)
  {
    var h := f[y][x];
    ViewDistance(Up(f, y, x), h) * ViewDistance(LeftOf(f, y, x), h) *
    ViewDistance(RightOf(f, y, x), h) * ViewDistance(Down(f, y, x), h)
  }

  /** The `scenic_scores` array of `part2`: the score of every interior
      tree, 0 on the edges. */
  method ScoreMap(f: seq<seq<int>>) returns (scores: array2<int>)
    requires forall k :: 0 <= k < |f| ==> |f[k]| == Width(f)
    ensures scores.Length0 == |f| && scores.Length1 == Width(f)
    ensures forall i, j :: 0 <= i < |f| && 0 <= j < Width(f) ==>
      scores[i, j] == if Interior(f, i, j) then ScenicScore(f, i, j) else 0
  {
    var h, w := |f|, Width(f);
    scores := new int[h, w]((y, x) => 0);
    var y := 1;
    while y < h - 1
      invariant 1 <= y && (h >= 2 ==> y <= h - 1)
      invariant forall i, j :: 0 <= i < h && 0 <= j < w ==>
        scores[i, j] == if Interior(f, i, j) && i < y then ScenicScore(f, i, j) else 0
    {
      ScoreRow(f, scores, y);
      y := y + 1;
    }
  }

  /** The inner loop of `part2`, filling row `y`. */
  method ScoreRow(f: seq<seq<int>>, scores: array2<int>, y: nat)
    requires forall k :: 0 <= k < |f| ==> |f[k]| == Width(f)
    requires scores.Length0 == |f| && scores.Length1 == Width(f) && 1 <= y < |f| - 1
    modifies scores
    ensures forall i, j :: 0 <= i < |f| && 0 <= j < Width(f) && i != y ==> scores[i, j] == old(scores[i, j])
    ensures forall j :: 0 <= j < Width(f) ==>
      scores[y, j] == if Interior(f, y, j) then ScenicScore(f, y, j) else old(scores[y, j])
  {
    var w: int := Width(f);
    var x := 1;
    while x < w - 1
      invariant 1 <= x && (w >= 2 ==> x <= w - 1)
      invariant forall i, j :: 0 <= i < scores.Length0 && 0 <= j < scores.Length1 && i != y ==> scores[i, j] == old(scores[i, j])
      invariant forall j :: 0 <= j < w ==>
        scores[y, j] == if 1 <= j < x then ScenicScore(f, y, j) else old(scores[y, j])
    {
      var v := ScenicScore(f, y, x);
      scores[y, x] := v;
      forall j | 0 <= j < w
        ensures scores[y, j] == if 1 <= j < x + 1 then ScenicScore(f, y, j) else old(scores[y, j])
      {
        if j != x {
          assert scores[y, j] == if 1 <= j < x then ScenicScore(f, y, j) else old(scores[y, j]);
        }
      }
      x := x + 1;
    }
  }

  /** `ndarray.max` of a non-empty array. */
  method ArrayMax(a: array2<int>) returns (best: int)
    requires a.Length0 > 0 && a.Length1 > 0
    ensures forall i, j :: 0 <= i < a.Length0 && 0 <= j < a.Length1 ==> a[i, j] <= best
    ensures exists i, j :: 0 <= i < a.Length0 && 0 <= j < a.Length1 && a[i, j] == best
  {
    best := a[0, 0];
    ghost var at := (0, 0);
    var y := 0;
    while y < a.Length0
      invariant 0 <= y <= a.Length0
      invariant 0 <= at.0 < a.Length0 && 0 <= at.1 < a.Length1 && best == a[at.0, at.1]
      invariant forall i, j :: 0 <= i < y && 0 <= j < a.Length1 ==> a[i, j] <= best
    {
      var x := 0;
      while x < a.Length1
        invariant 0 <= x <= a.Length1
        invariant 0 <= at.0 < a.Length0 && 0 <= at.1 < a.Length1 && best == a[at.0, at.1]
        invariant forall i, j :: 0 <= i < y && 0 <= j < a.Length1 ==> a[i, j] <= best
        invariant forall j :: 0 <= j < x ==> a[y, j] <= best
      {
        if a[y, x] > best {
          best := a[y, x];
          at := (y, x);
        }
        x := x + 1;
      }
      y := y + 1;
    }
  }

  /** `part2`: the largest scenic score, interior trees only (the edges keep
      the score 0); `max` of an empty array fails. */
  method Part2(f: seq<seq<int>>) returns (r: Option<int>)
    requires forall k :: 0 <= k < |f| ==> |f[k]| == Width(f)
    ensures r.None? <==> |f| == 0 || Width(f) == 0
    ensures r.Some? ==> r.value >= 0
    ensures r.Some? ==> forall y, x :: Interior(f, y, x) ==> ScenicScore(f, y, x) <= r.value
    ensures r.Some? ==> r.value == 0 || exists y, x :: Interior(f, y, x) && ScenicScore(f, y, x) == r.value
  {
    var scores := ScoreMap(f);
    if |f| == 0 || Width(f) == 0 {
      return None;
    }
    var best := ArrayMax(scores);
    assert scores[0, 0] == 0;
    forall i, j | Interior(f, i, j) ensures ScenicScore(f, i, j) <= best {
      assert scores[i, j] == ScenicScore(f, i, j);
    }
    r := Some(best);
  }

  // ---------------------------------------------------------------- properties

  lemma {:induction false} PaddedMaxBounds(s: seq<int>)
    ensures PaddedMax(s) >= -1
    ensures forall i :: 0 <= i < |s| ==> s[i] <= PaddedMax(s)
    ensures PaddedMax(s) == -1 || exists i :: 0 <= i < |s| && s[i] == PaddedMax(s)
    decreases |s|
  {
    if s != [] {
      var init := s[..|s| - 1];
      PaddedMaxBounds(init);
      assert forall i :: 0 <= i < |init| ==> init[i] == s[i];
    }
  }

  /** A tree is visible along a line exactly when it is not negative (the
      padding) and strictly taller than every tree before it. */
  lemma VisibleInLineMeaning(line: seq<int>, i: nat)
    requires i < |line|
    ensures VisibleInLine(line, i) <==> line[i] > -1 && forall k :: 0 <= k < i ==> line[k] < line[i]
  {
    PaddedMaxBounds(line[..i]);
    assert forall k :: 0 <= k < i ==> line[..i][k] == line[k];
  }

  /** Visibility from each side means being strictly taller than every tree
      between the tree and that edge (heights being digits). */
  lemma VisibleFromTopMeaning(f: seq<seq<int>>, y: nat, x: nat)
    requires Forest(f) && y < |f| && x < Width(f)
    ensures VisibleFrom(f, Top, y, x) <==> forall k :: 0 <= k < y ==> f[k][x] < f[y][x]
  {
    VisibleInLineMeaning(Column(f, x), y);
    assert forall k :: 0 <= k < |f| ==> Column(f, x)[k] == f[k][x];
  }

  lemma VisibleFromLeftMeaning(f: seq<seq<int>>, y: nat, x: nat)
    requires Forest(f) && y < |f| && x < Width(f)
    ensures VisibleFrom(f, Left, y, x) <==> forall k :: 0 <= k < x ==> f[y][k] < f[y][x]
  {
    VisibleInLineMeaning(f[y], x);
  }

  /** Seen from the far end, a tree is visible when it is not negative and
      strictly taller than every tree after it. */
  lemma VisibleReversedMeaning(line: seq<int>, i: nat)
    requires i < |line|
    ensures VisibleInLine(Reverse(line), |line| - 1 - i) <==>
      line[i] > -1 && forall k :: i < k < |line| ==> line[k] < line[i]
  {
    var r := Reverse(line);
    var n := |line|;
    VisibleInLineMeaning(r, n - 1 - i);
    assert forall k :: i < k < n ==> r[n - 1 - k] == line[k];
    assert forall k :: 0 <= k < n - 1 - i ==> r[k] == line[n - 1 - k];
  }

  lemma VisibleFromBottomMeaning(f: seq<seq<int>>, y: nat, x: nat)
    requires Forest(f) && y < |f| && x < Width(f)
    ensures VisibleFrom(f, Bottom, y, x) <==> forall k :: y < k < |f| ==> f[k][x] < f[y][x]
  {
    VisibleReversedMeaning(Column(f, x), y);
    assert forall k :: 0 <= k < |f| ==> Column(f, x)[k] == f[k][x];
  }

  lemma VisibleFromRightMeaning(f: seq<seq<int>>, y: nat, x: nat)
    requires Forest(f) && y < |f| && x < Width(f)
    ensures VisibleFrom(f, Right, y, x) <==> forall k :: x < k < Width(f) ==> f[y][k] < f[y][x]
  {
    VisibleReversedMeaning(f[y], x);
  }

  /** Trees on the edge of the forest are always visible. */
  lemma EdgesVisible(f: seq<seq<int>>, y: nat, x: nat)
    requires Forest(f) && y < |f| && x < Width(f)
    requires y == 0 || x == 0 || y == |f| - 1 || x == Width(f) - 1
    ensures AnyVisible(f, y, x)
  {
    VisibleFromTopMeaning(f, y, x);
    VisibleFromLeftMeaning(f, y, x);
    VisibleFromBottomMeaning(f, y, x);
    VisibleFromRightMeaning(f, y, x);
  }

  /** The whole top row is counted by part one. */
  lemma {:induction false} TopRowCounted(f: seq<seq<int>>, n: nat)
    requires Forest(f) && |f| > 0 && n <= Width(f)
    ensures RowCount(f, 0, n) == n
  {
    if n > 0 {
      TopRowCounted(f, n - 1);
      EdgesVisible(f, 0, n - 1);
    }
  }

  lemma {:induction false} RunMaxAtLeast(s: seq<int>, h: int)
    requires s != []
    ensures RunMax(s) >= h <==> exists i :: 0 <= i < |s| && s[i] >= h
  {
  }

  /** The running maxima below `h` are exactly those before the first tree of
      height at least `h`. */
  lemma {:induction false} CountBelowIsFirstBlocking(s: seq<int>, h: int)
    ensures CountBelow(s, h) == FirstBlocking(s, h)
    decreases |s|
  {
    if s != [] {
      var init := s[..|s| - 1];
      CountBelowIsFirstBlocking(init, h);
      var k, k' := FirstBlocking(init, h), FirstBlocking(s, h);
      assert forall i :: 0 <= i < |init| ==> init[i] == s[i];
      RunMaxAtLeast(s, h);
      if k < |init| {
        assert s[k] >= h;
        assert k' == k;
      } else if s[|s| - 1] >= h {
        assert k' == |init|;
      } else {
        assert k' == |s|;
      }
    }
  }

  /** A view distance counts the trees up to and including the first one at
      least as tall as the viewer's, or all trees up to the edge. */
  lemma ViewDistanceMeaning(trees: seq<int>, h: int)
    requires trees != []
    ensures var k := FirstBlocking(trees, h);
      ViewDistance(trees, h) == if k < |trees| then k + 1 else |trees|
    ensures 1 <= ViewDistance(trees, h) <= |trees|
  {
    CountBelowIsFirstBlocking(trees, h);
    RunMaxAtLeast(trees, h);
    var k := FirstBlocking(trees, h);
  }

  lemma ScoreNonNegative(f: seq<seq<int>>, y: nat, x: nat)
    requires forall k :: 0 <= k < |f| ==> |f[k]| == Width(f)
    requires Interior(f, y, x)
    ensures ScenicScore(f, y, x) >= 1
  {
    var h := f[y][x];
    ViewDistanceMeaning(Up(f, y, x), h);
    ViewDistanceMeaning(LeftOf(f, y, x), h);
    ViewDistanceMeaning(RightOf(f, y, x), h);
    ViewDistanceMeaning(Down(f, y, x), h);
    var a, b, c, d := ViewDistance(Up(f, y, x), h), ViewDistance(LeftOf(f, y, x), h),
      ViewDistance(RightOf(f, y, x), h), ViewDistance(Down(f, y, x), h);
    ProductAtLeastOne(a, b);
    ProductAtLeastOne(a * b, c);
    ProductAtLeastOne(a * b * c, d);
  }

  lemma ProductAtLeastOne(a: int, b: int)
    requires a >= 1 && b >= 1
    ensures a * b >= 1
  {
  }
}
