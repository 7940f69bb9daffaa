/** Day 23: elves spreading out on an unbounded grid, each round proposing a
    step and taking it only when no other elf proposed the same cell. */
module Day23 {
  import opened Common

  /** A complex number as (real, imaginary), that is (row, column). */
  type Vec = (int, int)

  /** A direction to look in: three cells, the middle one the step taken. */
  type Dir = (Vec, Vec, Vec)

  const North: Dir := ((-1, -1), (-1, 0), (-1, 1))
  const South: Dir := ((1, -1), (1, 0), (1, 1))
  const West: Dir := ((-1, -1), (0, -1), (1, -1))
  const East: Dir := ((-1, 1), (0, 1), (1, 1))
  const Directions: seq<Dir> := [North, South, West, East]

  /** The eight cells around an elf. */
  const Neighbours: set<Vec> := {(-1, -1), (-1, 0), (-1, 1), (0, -1), (0, 1), (1, -1), (1, 0), (1, 1)}

  function Add(a: Vec, b: Vec): Vec
  {
    (a.0 + b.0, a.1 + b.1)
  }

  /** `parse`: the cells marked '#', by row and column. */
  function Parse(lines: seq<string>): (elves: set<Vec>)
    ensures forall y, x :: (y, x) in elves <==> 0 <= y < |lines| && 0 <= x < |lines[y]| && lines[y][x] == '#'
  {
    set y, x | 0 <= y < |lines| && 0 <= x < |lines[y]| && lines[y][x] == '#' :: (y, x)
  }

  /** The grid drawn back from elf positions: `#` on an elf, `.` elsewhere,
      over `height` rows of `width` columns. */
  function Render(elves: set<Vec>, height: nat, width: nat): (lines: seq<string>)
  {
    seq(height, y requires 0 <= y < height =>
      seq(width, x requires 0 <= x < width => if (y, x) in elves then '#' else '.'))
  }

  /** A grid of `#` and `.` rows, all `width` wide. */
  predicate Drawn(lines: seq<string>, width: nat)
  {
    forall y :: 0 <= y < |lines| ==>
      |lines[y]| == width && forall x :: 0 <= x < width ==> lines[y][x] in "#."
  }

  /** Parsing a drawn grid and drawing the elves again gives back the grid. */
  lemma RenderParse(lines: seq<string>, width: nat)
    requires Drawn(lines, width)
    ensures Render(Parse(lines), |lines|, width) == lines
  {
    var r := Render(Parse(lines), |lines|, width);
    forall y | 0 <= y < |lines|
      ensures r[y] == lines[y]
    {
      forall x | 0 <= x < width
        ensures r[y][x] == lines[y][x]
      {
        assert lines[y][x] in "#.";
      }
    }
  }

  /** Drawing elves inside the rectangle and parsing the drawing gives back
      the same elves. */
  lemma ParseRender(elves: set<Vec>, height: nat, width: nat)
    requires forall e :: e in elves ==> 0 <= e.0 < height && 0 <= e.1 < width
    ensures Parse(Render(elves, height, width)) == elves
  {
  }

  // ------------------------------------------------------------ proposals

  predicate HasNeighbour(elves: set<Vec>, elf: Vec)
  {
    exists n :: n in Neighbours && Add(elf, n) in elves
  }

  /** None of the three cells of `d` holds an elf. */
  predicate Free(elves: set<Vec>, elf: Vec, d: Dir)
  {
    Add(elf, d.0) !in elves && Add(elf, d.1) !in elves && Add(elf, d.2) !in elves
  }

  /** The step of the first free direction in `dirs`, if any. */
  function FirstFree(elves: set<Vec>, elf: Vec, dirs: seq<Dir>): (r: Option<Vec>)
    ensures r.None? <==> forall i :: 0 <= i < |dirs| ==> !Free(elves, elf, dirs[i])
  {
    if dirs == [] then None
    else if Free(elves, elf, dirs[0]) then Some(Add(elf, dirs[0].1))
    else
      assert forall i :: 1 <= i < |dirs| ==> dirs[i] == dirs[1..][i - 1];
      FirstFree(elves, elf, dirs[1..])
  }

  /** The step found is that of a free direction with no free direction
      before it. */
  lemma {:induction false} FirstFreeIsFirst(elves: set<Vec>, elf: Vec, dirs: seq<Dir>)
    requires FirstFree(elves, elf, dirs).Some?
    ensures exists i :: (0 <= i < |dirs| && Free(elves, elf, dirs[i]) &&
      FirstFree(elves, elf, dirs).value == Add(elf, dirs[i].1) &&
      forall j :: 0 <= j < i ==> !Free(elves, elf, dirs[j]))
  {
    if !Free(elves, elf, dirs[0]) {
      var rest := dirs[1..];
      FirstFreeIsFirst(elves, elf, rest);
      var i :| 0 <= i < |rest| && Free(elves, elf, rest[i]) &&
        FirstFree(elves, elf, rest).value == Add(elf, rest[i].1) &&
        forall j :: 0 <= j < i ==> !Free(elves, elf, rest[j]);
      assert Free(elves, elf, dirs[i + 1]);
      assert forall j :: 0 <= j < i + 1 ==> !Free(elves, elf, dirs[j]) by {
        forall j | 0 < j < i + 1
          ensures !Free(elves, elf, dirs[j])
        {
          assert dirs[j] == rest[j - 1];
        }
      }
    }
  }

  /** What an elf proposes: nothing when no elf is around it, otherwise the
      step of the first free direction. */
  function Proposal(elves: set<Vec>, elf: Vec, dirs: seq<Dir>): (r: Option<Vec>)
    ensures !HasNeighbour(elves, elf) ==> r.None?
    ensures HasNeighbour(elves, elf) ==> r == FirstFree(elves, elf, dirs)
  {
    if !HasNeighbour(elves, elf) then None else FirstFree(elves, elf, dirs)
  }

  /** A proposed cell is empty: it is one of the three free cells looked at. */
  lemma ProposalFree(elves: set<Vec>, elf: Vec, dirs: seq<Dir>)
    requires Proposal(elves, elf, dirs).Some?
    ensures Proposal(elves, elf, dirs).value !in elves
  {
    FirstFreeIsFirst(elves, elf, dirs);
  }

  /** The elves proposing `t`. */
  function Proposers(elves: set<Vec>, dirs: seq<Dir>, t: Vec): set<Vec>
  {
    set e | e in elves && Proposal(elves, e, dirs) == Some(t)
  }

  /** The elves whose proposal no other elf shares. */
  function Movers(elves: set<Vec>, dirs: seq<Dir>): (m: set<Vec>)
    ensures m <= elves
  {
    set e | e in elves && Proposal(elves, e, dirs).Some? &&
      |Proposers(elves, dirs, Proposal(elves, e, dirs).value)| == 1
  }

  /** The cells the movers step to. */
  function Targets(elves: set<Vec>, dirs: seq<Dir>): set<Vec>
  {
    set e | e in Movers(elves, dirs) :: Proposal(elves, e, dirs).value
  }

  /** One round: the movers leave and arrive at their targets; the flag says
      that nobody moved. */
  function Round(elves: set<Vec>, dirs: seq<Dir>): (set<Vec>, bool)
  {
    ((elves - Movers(elves, dirs)) + Targets(elves, dirs), |Movers(elves, dirs)| == 0)
  }

  /** An elf with nobody around stays where it is. */
  lemma AloneStays(elves: set<Vec>, dirs: seq<Dir>, elf: Vec)
    requires elf in elves && !HasNeighbour(elves, elf)
    ensures elf in Round(elves, dirs).0
  {
    assert elf !in Movers(elves, dirs);
  }

  /** Every elf after a round either stayed put or stepped to a cell that it
      alone proposed. */
  lemma RoundOrigins(elves: set<Vec>, dirs: seq<Dir>, t: Vec)
    requires t in Round(elves, dirs).0
    ensures (t in elves && t !in Movers(elves, dirs)) ||
      (t !in elves && |Proposers(elves, dirs, t)| == 1)
  {
    if t !in elves - Movers(elves, dirs) {
      var e :| e in Movers(elves, dirs) && Proposal(elves, e, dirs).value == t;
      ProposalFree(elves, e, dirs);
    }
  }

  /** The movers' targets are pairwise distinct. */
  lemma MoversInjective(elves: set<Vec>, dirs: seq<Dir>, a: Vec, b: Vec)
    requires a in Movers(elves, dirs) && b in Movers(elves, dirs)
    requires Proposal(elves, a, dirs) == Proposal(elves, b, dirs)
    ensures a == b
  {
    var p := Proposers(elves, dirs, Proposal(elves, a, dirs).value);
    assert a in p && b in p && |p| == 1;
    if a != b {
      assert {a, b} <= p;
      assert |{a, b}| == 2;
      SubsetCard({a, b}, p);
      assert false;
    }
  }

  lemma SubsetCard(a: set<Vec>, b: set<Vec>)
    requires a <= b
    ensures |a| <= |b|
  {
    assert b == a + (b - a);
  }

  /** There are as many targets as movers. */
  lemma {:induction false} TargetsCard(elves: set<Vec>, dirs: seq<Dir>, s: set<Vec>)
    requires s <= Movers(elves, dirs)
    ensures |set e | e in s :: Proposal(elves, e, dirs).value| == |s|
    decreases |s|
  {
    if s != {} {
      var x :| x in s;
      var rest := s - {x};
      TargetsCard(elves, dirs, rest);
      var px := Proposal(elves, x, dirs).value;
      forall y | y in rest ensures Proposal(elves, y, dirs).value != px {
        MoversApart(elves, dirs, x, y);
      }
      var img := set e | e in s :: Proposal(elves, e, dirs).value;
      var imgRest := set e | e in rest :: Proposal(elves, e, dirs).value;
      assert px !in imgRest;
      assert img == imgRest + {px};
    }
  }

  /** Two different movers have different targets. */
  lemma MoversApart(elves: set<Vec>, dirs: seq<Dir>, a: Vec, b: Vec)
    requires a in Movers(elves, dirs) && b in Movers(elves, dirs) && a != b
    ensures Proposal(elves, a, dirs).value != Proposal(elves, b, dirs).value
  {
    if Proposal(elves, a, dirs) == Proposal(elves, b, dirs) {
      MoversInjective(elves, dirs, a, b);
    }
  }

  /** A round neither loses nor creates elves. */
  lemma RoundKeepsCount(elves: set<Vec>, dirs: seq<Dir>)
    ensures |Round(elves, dirs).0| == |elves|
  {
    var m := Movers(elves, dirs);
    var t := Targets(elves, dirs);
    TargetsCard(elves, dirs, m);
    assert |t| == |m|;
    forall p | p in t
      ensures p !in elves
    {
      var e :| e in m && Proposal(elves, e, dirs).value == p;
      ProposalFree(elves, e, dirs);
    }
    assert (elves - m) * t == {};
    assert elves == (elves - m) + m;
    assert |elves - m| == |elves| - |m|;
  }

  /** The "no moves" flag is set exactly when the round changes nothing. */
  lemma RoundStill(elves: set<Vec>, dirs: seq<Dir>)
    ensures Round(elves, dirs).1 <==> Round(elves, dirs).0 == elves
  {
    var m := Movers(elves, dirs);
    if m != {} {
      var e :| e in m;
      var p := Proposal(elves, e, dirs).value;
      ProposalFree(elves, e, dirs);
      assert p in Targets(elves, dirs);
      assert p in Round(elves, dirs).0 && p !in elves;
    } else {
      assert Targets(elves, dirs) == {};
    }
  }

  // ------------------------------------------------------------ the round

  /** The inner loop of the first half: the first direction whose three cells
      are empty. */
  method FindStep(elves: set<Vec>, elf: Vec, dirs: seq<Dir>) returns (r: Option<Vec>)
    ensures r == FirstFree(elves, elf, dirs)
  {
    var i := 0;
    while i < |dirs|
      invariant 0 <= i <= |dirs|
      invariant FirstFree(elves, elf, dirs) == FirstFree(elves, elf, dirs[i..])
    {
      var d := dirs[i];
      if Add(elf, d.0) !in elves && Add(elf, d.1) !in elves && Add(elf, d.2) !in elves {
        return Some(Add(elf, d.1));
      }
      assert dirs[i..][1..] == dirs[i + 1..];
      i := i + 1;
    }
    r := None;
  }

  function Elements(s: seq<Vec>): set<Vec>
  {
    set x | x in s
  }

  predicate Distinct(s: seq<Vec>)
  {
    forall i, j :: 0 <= i < j < |s| ==> s[i] != s[j]
  }

  /** A list without repeats is as long as its set of elements. */
  lemma {:induction false} DistinctCard(s: seq<Vec>)
    requires Distinct(s)
    ensures |Elements(s)| == |s|
  {
    if s != [] {
      var init := s[..|s| - 1];
      DistinctCard(init);
      assert Elements(s) == Elements(init) + {s[|s| - 1]};
      assert s[|s| - 1] !in Elements(init);
    }
  }

  /** The proposals of the elves in `done`, each cell with the list of its
      proposers. */
  ghost predicate Collected(elves: set<Vec>, dirs: seq<Dir>, done: set<Vec>, proposed: map<Vec, seq<Vec>>)
  {
    (forall t :: t in proposed ==> (Distinct(proposed[t]) &&
      Elements(proposed[t]) == Proposers(elves, dirs, t) * done)) &&
    forall e :: e in done && Proposal(elves, e, dirs).Some? ==> Proposal(elves, e, dirs).value in proposed
  }

  lemma CollectedStep(elves: set<Vec>, dirs: seq<Dir>, done: set<Vec>, proposed: map<Vec, seq<Vec>>, e: Vec)
    requires Collected(elves, dirs, done, proposed) && e in elves && e !in done
    ensures var p := Proposal(elves, e, dirs);
      Collected(elves, dirs, done + {e},
        if p.None? then proposed
        else proposed[p.value := (if p.value in proposed then proposed[p.value] else []) + [e]])
  {
    var p := Proposal(elves, e, dirs);
    if p.Some? {
      var t := p.value;
      var before := if t in proposed then proposed[t] else [];
      var after := proposed[t := before + [e]];
      assert Elements(before + [e]) == Elements(before) + {e};
      if t !in proposed {
        assert Proposers(elves, dirs, t) * done == {};
      }
      forall u | u in after
        ensures Distinct(after[u]) && Elements(after[u]) == Proposers(elves, dirs, u) * (done + {e})
      {
        if u != t {
          assert e !in Proposers(elves, dirs, u);
        }
      }
    } else {
      forall u | u in proposed
        ensures Elements(proposed[u]) == Proposers(elves, dirs, u) * (done + {e})
      {
        assert e !in Proposers(elves, dirs, u);
      }
    }
  }

  /** Once every elf is collected, each list holds exactly the proposers of
      its cell, each once. */
  lemma CollectedList(elves: set<Vec>, dirs: seq<Dir>, proposed: map<Vec, seq<Vec>>, t: Vec)
    requires Collected(elves, dirs, elves, proposed) && t in proposed
    ensures Elements(proposed[t]) == Proposers(elves, dirs, t)
    ensures |proposed[t]| == |Proposers(elves, dirs, t)|
  {
    assert Proposers(elves, dirs, t) * elves == Proposers(elves, dirs, t);
    DistinctCard(proposed[t]);
  }

  /** A cell with a single proposer in the lists is a mover's target. */
  lemma CollectedSingle(elves: set<Vec>, dirs: seq<Dir>, proposed: map<Vec, seq<Vec>>, t: Vec)
    requires Collected(elves, dirs, elves, proposed) && t in proposed && |proposed[t]| == 1
    ensures proposed[t][0] in Movers(elves, dirs)
    ensures Proposal(elves, proposed[t][0], dirs) == Some(t)
  {
    CollectedList(elves, dirs, proposed, t);
    assert proposed[t][0] in Elements(proposed[t]);
  }

  /** A mover's target has its mover alone in the lists. */
  lemma CollectedMover(elves: set<Vec>, dirs: seq<Dir>, proposed: map<Vec, seq<Vec>>, e: Vec)
    requires Collected(elves, dirs, elves, proposed) && e in Movers(elves, dirs)
    ensures var t := Proposal(elves, e, dirs).value;
      t in proposed && |proposed[t]| == 1 && proposed[t][0] == e
  {
    var t := Proposal(elves, e, dirs).value;
    CollectedList(elves, dirs, proposed, t);
    assert e in Proposers(elves, dirs, t);
    assert proposed[t][0] in Elements(proposed[t]);
    OneElement(Proposers(elves, dirs, t), e, proposed[t][0]);
  }

  /** The second half, read off a complete collection of proposals. */
  lemma CollectedMovers(elves: set<Vec>, dirs: seq<Dir>, proposed: map<Vec, seq<Vec>>)
    requires Collected(elves, dirs, elves, proposed)
    ensures (set t | t in proposed && |proposed[t]| == 1 :: proposed[t][0]) == Movers(elves, dirs)
  {
    var moved := set t | t in proposed && |proposed[t]| == 1 :: proposed[t][0];
    forall e | e in moved
      ensures e in Movers(elves, dirs)
    {
      var t :| t in proposed && |proposed[t]| == 1 && proposed[t][0] == e;
      CollectedSingle(elves, dirs, proposed, t);
    }
    forall e | e in Movers(elves, dirs)
      ensures e in moved
    {
      CollectedMover(elves, dirs, proposed, e);
    }
  }

  lemma CollectedTargets(elves: set<Vec>, dirs: seq<Dir>, proposed: map<Vec, seq<Vec>>)
    requires Collected(elves, dirs, elves, proposed)
    ensures (set t | t in proposed && |proposed[t]| == 1) == Targets(elves, dirs)
  {
    var targets := set t | t in proposed && |proposed[t]| == 1;
    forall t | t in targets
      ensures t in Targets(elves, dirs)
    {
      CollectedSingle(elves, dirs, proposed, t);
    }
    forall t | t in Targets(elves, dirs)
      ensures t in targets
    {
      var e :| e in Movers(elves, dirs) && Proposal(elves, e, dirs).value == t;
      CollectedMover(elves, dirs, proposed, e);
    }
  }

  lemma OneElement(s: set<Vec>, a: Vec, b: Vec)
    requires |s| == 1 && a in s && b in s
    ensures a == b
  {
    if a != b {
      SubsetCard({a, b}, s);
      assert false;
    }
  }

  /** `_round`: proposals gathered cell by cell, then the lone proposers
      move. */
  method ProposeAndMove(elves: set<Vec>, dirs: seq<Dir>) returns (next: set<Vec>, still: bool)
    ensures (next, still) == Round(elves, dirs)
  {
    var proposed: map<Vec, seq<Vec>> := map[];
    var todo := elves;
    while todo != {}
      invariant todo <= elves
      invariant Collected(elves, dirs, elves - todo, proposed)
      decreases |todo|
    {
      var e :| e in todo;
      CollectedStep(elves, dirs, elves - todo, proposed, e);
      assert elves - (todo - {e}) == (elves - todo) + {e};
      var near := exists n :: n in Neighbours && Add(e, n) in elves;
      if near {
        var step := FindStep(elves, e, dirs);
        if step.Some? {
          var t := step.value;
          var list := if t in proposed then proposed[t] else [];
          proposed := proposed[t := list + [e]];
        }
      }
      todo := todo - {e};
    }
    CollectedMovers(elves, dirs, proposed);
    CollectedTargets(elves, dirs, proposed);
    var moved := set t | t in proposed && |proposed[t]| == 1 :: proposed[t][0];
    var targets := set t | t in proposed && |proposed[t]| == 1;
    next := (elves - moved) + targets;
    still := |moved| == 0;
  }

  // ------------------------------------------------------------ simulation

  /** The direction order of round `i`: the list rotated left by `i mod 4`. */
  function Rotation(i: nat): (r: seq<Dir>)
    ensures |r| == 4 && forall k :: 0 <= k < 4 ==> r[k] == Directions[(i + k) % 4]
  {
    Directions[i % 4..] + Directions[..i % 4]
  }

  /** Rounds `i`, `i+1`, ... up to round `n - 1`, stopping after a round
      where nobody moved; the elves and the number of rounds played. */
  function Run(elves: set<Vec>, i: nat, n: nat): (r: (set<Vec>, nat))
    requires i < n
    ensures i < r.1 <= n
    decreases n - i
  {
    var (next, still) := Round(elves, Rotation(i));
    if still || i + 1 == n then (next, i + 1) else Run(next, i + 1, n)
  }

  /** The elves after the first `k` rounds. */
  function After(elves: set<Vec>, k: nat): set<Vec>
  {
    if k == 0 then elves else Round(After(elves, k - 1), Rotation(k - 1)).0
  }

  /** Nobody moves in round `k`, counted from zero. */
  predicate StillAt(elves: set<Vec>, k: nat)
  {
    Round(After(elves, k), Rotation(k)).1
  }

  /** Somebody moved in each of the first `k` rounds. */
  predicate MovedThrough(elves: set<Vec>, k: nat)
  {
    forall j :: 0 <= j < k ==> !StillAt(elves, j)
  }

  /** Round `n`, counted from one, is the first in which nobody moves. */
  predicate FirstStill(elves: set<Vec>, n: nat)
  {
    n >= 1 && StillAt(elves, n - 1) && MovedThrough(elves, n - 1)
  }

  lemma MovedThroughStep(elves: set<Vec>, k: nat)
    requires MovedThrough(elves, k) && !StillAt(elves, k)
    ensures MovedThrough(elves, k + 1)
  {
  }

  lemma AfterStep(elves: set<Vec>, i: nat, current: set<Vec>)
    requires current == After(elves, i)
    ensures After(elves, i + 1) == Round(current, Rotation(i)).0
    ensures StillAt(elves, i) <==> Round(current, Rotation(i)).1
  {
  }

  /** There is only one first round without moves. */
  lemma FirstStillUnique(elves: set<Vec>, n: nat, m: nat)
    requires FirstStill(elves, n) && FirstStill(elves, m)
    ensures n == m
  {
  }


  /** However many rounds are played, the number of elves stays. */
  lemma {:induction false} RunKeepsCount(elves: set<Vec>, i: nat, n: nat)
    requires i < n
    ensures |Run(elves, i, n).0| == |elves|
    decreases n - i
  {
    RoundKeepsCount(elves, Rotation(i));
    var (next, still) := Round(elves, Rotation(i));
    if !still && i + 1 != n {
      RunKeepsCount(next, i + 1, n);
    }
  }

  /** After a round in which nobody moved, the same round again changes
      nothing. */
  lemma StillRound(before: set<Vec>, dirs: seq<Dir>, last: set<Vec>)
    requires Round(before, dirs) == (last, true)
    ensures Round(last, dirs) == (last, true)
  {
    RoundStill(before, dirs);
  }

  /** `_simulate(elves, n)` for a positive `n`. */
  method Simulate(elves: set<Vec>, n: nat) returns (last: set<Vec>, rounds: nat)
    requires n > 0
    ensures (last, rounds) == Run(elves, 0, n)
  {
    last := elves;
    var i := 0;
    while i < n
      invariant 0 <= i < n
      invariant Run(elves, 0, n) == Run(last, i, n)
      decreases n - i
    {
      var still;
      last, still := ProposeAndMove(last, Rotation(i));
      if still || i + 1 == n {
        return last, i + 1;
      }
      i := i + 1;
    }
    assert false;
  }

  /** `_simulate(elves)`: rounds until nobody moves, at most `fuel` of them;
      the elves it stops with are left unchanged by the round that found no
      move. */
  method SimulateUntilStill(elves: set<Vec>, fuel: nat) returns (r: Option<(set<Vec>, nat)>)
    ensures r.Some? ==> FirstStill(elves, r.value.1) && r.value.1 <= fuel
    ensures r.Some? ==> r.value.0 == After(elves, r.value.1)
    ensures r.Some? ==> Round(r.value.0, Rotation(r.value.1 - 1)) == (r.value.0, true)
    ensures r.None? ==> MovedThrough(elves, fuel)
  {
    var current := elves;
    var i := 0;
    while i < fuel
      invariant 0 <= i <= fuel
      invariant current == After(elves, i)
      invariant MovedThrough(elves, i)
    {
      var next, still := ProposeAndMove(current, Rotation(i));
      AfterStep(elves, i, current);
      if still {
        StillRound(current, Rotation(i), next);
        return Some((next, i + 1));
      }
      MovedThroughStep(elves, i);
      current := next;
      i := i + 1;
    }
    r := None;
  }

  // ------------------------------------------------------------ the answers

  function Rows(elves: set<Vec>): set<int>
  {
    set e | e in elves :: e.0
  }

  function Columns(elves: set<Vec>): set<int>
  {
    set e | e in elves :: e.1
  }

  /** `_bounds`: the smallest and largest row and column; None for no elves
      (the minimum of an empty list is an error). */
  function Bounds(elves: set<Vec>): (r: Option<(int, int, int, int)>)
    ensures r.None? <==> elves == {}
    ensures r.Some? ==> var (y0, y1, x0, x1) := r.value;
      (forall e :: e in elves ==> y0 <= e.0 <= y1 && x0 <= e.1 <= x1) &&
      (exists e :: e in elves && e.0 == y0) && (exists e :: e in elves && e.0 == y1) &&
      (exists e :: e in elves && e.1 == x0) && (exists e :: e in elves && e.1 == x1)
  {
    if elves == {} then None
    else
      var e :| e in elves;
      assert e.0 in Rows(elves) && e.1 in Columns(elves);
      assert forall e :: e in elves ==> e.0 in Rows(elves) && e.1 in Columns(elves);
      Some((MinOf(Rows(elves)), MaxOf(Rows(elves)), MinOf(Columns(elves)), MaxOf(Columns(elves))))
  }

  /** The cells of a rectangle. */
  function Box(y0: int, y1: int, x0: int, x1: int): set<Vec>
  {
    set y, x | y0 <= y <= y1 && x0 <= x <= x1 :: (y, x)
  }

  lemma {:induction false} RowCard(y: int, x0: int, x1: int)
    requires x0 <= x1 + 1
    ensures |Box(y, y, x0, x1)| == x1 - x0 + 1
    decreases x1 - x0
  {
    if x0 <= x1 {
      RowCard(y, x0, x1 - 1);
      var whole, init := Box(y, y, x0, x1), Box(y, y, x0, x1 - 1);
      forall p ensures p in whole <==> p in init || p == (y, x1) {
        InBox(p, y, y, x0, x1);
        InBox(p, y, y, x0, x1 - 1);
      }
      assert whole == init + {(y, x1)};
      InBox((y, x1), y, y, x0, x1 - 1);
    } else {
      assert Box(y, y, x0, x1) == {};
    }
  }

  lemma InBox(p: Vec, y0: int, y1: int, x0: int, x1: int)
    ensures p in Box(y0, y1, x0, x1) <==> y0 <= p.0 <= y1 && x0 <= p.1 <= x1
  {
    if y0 <= p.0 <= y1 && x0 <= p.1 <= x1 {
      assert p == (p.0, p.1);
    }
  }

  lemma {:induction false} BoxCard(y0: int, y1: int, x0: int, x1: int)
    requires y0 <= y1 + 1 && x0 <= x1 + 1
    ensures |Box(y0, y1, x0, x1)| == (y1 - y0 + 1) * (x1 - x0 + 1)
    decreases y1 - y0
  {
    if y0 <= y1 {
      BoxCard(y0, y1 - 1, x0, x1);
      RowCard(y1, x0, x1);
      assert Box(y0, y1, x0, x1) == Box(y0, y1 - 1, x0, x1) + Box(y1, y1, x0, x1);
      assert Box(y0, y1 - 1, x0, x1) * Box(y1, y1, x0, x1) == {};
      assert (y1 - y0 + 1) * (x1 - x0 + 1) == (y1 - y0) * (x1 - x0 + 1) + (x1 - x0 + 1);
    } else {
      assert Box(y0, y1, x0, x1) == {};
    }
  }

  /** The empty ground in the bounding rectangle. */
  function EmptyGround(elves: set<Vec>): (r: Option<int>)
    ensures r.None? <==> elves == {}
  {
    var b := Bounds(elves);
    if b.None? then None
    else
      var (y0, y1, x0, x1) := b.value;
      Some((y1 - y0 + 1) * (x1 - x0 + 1) - |elves|)
  }

  /** The bounding rectangle holds every elf, so the empty ground is never
      negative. */
  lemma EmptyGroundNonNegative(elves: set<Vec>)
    requires elves != {}
    ensures EmptyGround(elves).value >= 0
  {
    var (y0, y1, x0, x1) := Bounds(elves).value;
    assert elves <= Box(y0, y1, x0, x1) by {
      forall e | e in elves
        ensures e in Box(y0, y1, x0, x1)
      {
        assert e == (e.0, e.1);
      }
    }
    SubsetCard(elves, Box(y0, y1, x0, x1));
    BoxCard(y0, y1, x0, x1);
  }

  /** `part1`: the empty ground after ten rounds. */
  method Part1(elves: set<Vec>) returns (r: Option<int>)
    ensures r == EmptyGround(Run(elves, 0, 10).0)
    ensures r.Some? ==> r.value >= 0
  {
    var last, _ := Simulate(elves, 10);
    r := EmptyGround(last);
    if r.Some? {
      EmptyGroundNonNegative(last);
    }
  }

  /** `part2`: the first round in which nobody moves, when it comes within
      `fuel` rounds. */
  method Part2(elves: set<Vec>, fuel: nat) returns (r: Option<nat>)
    ensures r.Some? ==> FirstStill(elves, r.value) && r.value <= fuel
    ensures r.None? ==> MovedThrough(elves, fuel)
  {
    var run := SimulateUntilStill(elves, fuel);
    if run.None? {
      return None;
    }
    r := Some(run.value.1);
  }
}
