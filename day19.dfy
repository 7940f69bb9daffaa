/** Not enough minerals: robots collect ore, clay, obsidian and geodes, each
    robot costs resources, and the search decides which robot to build next,
    skipping ahead the minutes until it is affordable. The answer is the
    largest number of geodes that can be open when time runs out. */
module Day19 {
  import opened Common

  /** The robot costs of one blueprint; all costs are read as digit runs. */
  datatype Blueprint = Blueprint(
    id: nat,
    oreBotOre: nat,
    clayBotOre: nat,
    obsidianBotOre: nat,
    obsidianBotClay: nat,
    geodeBotOre: nat,
    geodeBotObsidian: nat)

  /** One entry of the state list `solve` returns: remaining minutes, the four
      robot counts and the four stocks. */
  datatype State = State(
    time: int,
    oreBots: int, clayBots: int, obsidianBots: int, geodeBots: int,
    ore: int, clay: int, obsidian: int, geodes: int)

  /** `max_ore_costs`: the most ore any robot costs. */
  function MaxOreCosts(b: Blueprint): (m: nat)
    ensures m >= b.oreBotOre && m >= b.clayBotOre && m >= b.obsidianBotOre && m >= b.geodeBotOre
    ensures m == b.oreBotOre || m == b.clayBotOre || m == b.obsidianBotOre || m == b.geodeBotOre
  {
    var m1 := if b.oreBotOre < b.clayBotOre then b.clayBotOre else b.oreBotOre;
    var m2 := if m1 < b.obsidianBotOre then b.obsidianBotOre else m1;
    if m2 < b.geodeBotOre then b.geodeBotOre else m2
  }

  function Max2(a: nat, b: nat): nat
  {
    if a < b then b else a
  }

  // ------------------------------------------------------------ wait times

  /** `ceil(a / b)` for a positive divisor. */
  function CeilDiv(a: int, b: int): (q: int)
    requires b > 0
    ensures q * b >= a && (q - 1) * b < a
  {
    var d := (-a) / b;
    var r := (-a) % b;
    assert -a == d * b + r;
    assert (-d) * b == a + r;
    assert (-d - 1) * b == a + r - b;
    -d
  }

  /** `max(0, ceil((cost - stock) / rate))`: the minutes of collecting at
      `rate` until `stock` covers `cost`; the fewest such minutes. */
  function Wait(cost: int, stock: int, rate: int): (w: nat)
    requires rate > 0
    ensures stock + rate * w >= cost
    ensures w == 0 || stock + rate * (w - 1) < cost
  {
    var q := CeilDiv(cost - stock, rate);
    assert rate * q == q * rate && rate * (q - 1) == (q - 1) * rate;
    if q < 0 then 0 else q
  }

  /** `ore_bot_possible_in`. */
  function OreBotWait(b: Blueprint, ore: int, oreBots: int): (w: nat)
    requires oreBots > 0
    ensures ore + oreBots * w >= b.oreBotOre
    ensures w == 0 || ore + oreBots * (w - 1) < b.oreBotOre
  {
    Wait(b.oreBotOre, ore, oreBots)
  }

  /** `clay_bot_possible_in`. */
  function ClayBotWait(b: Blueprint, ore: int, oreBots: int): (w: nat)
    requires oreBots > 0
    ensures ore + oreBots * w >= b.clayBotOre
    ensures w == 0 || ore + oreBots * (w - 1) < b.clayBotOre
  {
    Wait(b.clayBotOre, ore, oreBots)
  }

  /** `obsidian_bot_possible_in`: never (`inf`) without clay robots, else the
      later of the two waits. */
  function ObsidianBotWait(b: Blueprint, ore: int, clay: int, oreBots: int, clayBots: int): (w: Option<nat>)
    requires oreBots > 0 && clayBots >= 0
    ensures w.None? <==> clayBots == 0
    ensures w.Some? ==> ore + oreBots * w.value >= b.obsidianBotOre && clay + clayBots * w.value >= b.obsidianBotClay
    ensures w.Some? && w.value > 0 ==>
      ore + oreBots * (w.value - 1) < b.obsidianBotOre || clay + clayBots * (w.value - 1) < b.obsidianBotClay
  {
    if clayBots == 0 then None
    else
      var a := Wait(b.obsidianBotOre, ore, oreBots);
      var c := Wait(b.obsidianBotClay, clay, clayBots);
      MoreTime(ore, oreBots, a, Max2(a, c));
      MoreTime(clay, clayBots, c, Max2(a, c));
      Some(Max2(a, c))
  }

  /** `geode_bot_possible_in`: never without obsidian robots. */
  function GeodeBotWait(b: Blueprint, ore: int, obsidian: int, oreBots: int, obsidianBots: int): (w: Option<nat>)
    requires oreBots > 0 && obsidianBots >= 0
    ensures w.None? <==> obsidianBots == 0
    ensures w.Some? ==> ore + oreBots * w.value >= b.geodeBotOre && obsidian + obsidianBots * w.value >= b.geodeBotObsidian
    ensures w.Some? && w.value > 0 ==>
      ore + oreBots * (w.value - 1) < b.geodeBotOre || obsidian + obsidianBots * (w.value - 1) < b.geodeBotObsidian
  {
    if obsidianBots == 0 then None
    else
      var a := Wait(b.geodeBotOre, ore, oreBots);
      var c := Wait(b.geodeBotObsidian, obsidian, obsidianBots);
      MoreTime(ore, oreBots, a, Max2(a, c));
      MoreTime(obsidian, obsidianBots, c, Max2(a, c));
      Some(Max2(a, c))
  }

  /** Collecting longer never leaves less. */
  lemma MoreTime(stock: int, rate: int, w: nat, v: nat)
    requires rate >= 0 && w <= v
    ensures stock + rate * w <= stock + rate * v
  {
    assert rate * v == rate * w + rate * (v - w);
  }

  // ----------------------------------------------------------- the search

  /** The states `solve` accepts: at least one ore robot (the waits divide by
      the ore robot count) and no negative robot count. */
  predicate Sane(s: State)
  {
    s.oreBots >= 1 && s.clayBots >= 0 && s.obsidianBots >= 0 && s.geodeBots >= 0
  }

  /** No stock is negative. */
  predicate Stocked(s: State)
  {
    s.ore >= 0 && s.clay >= 0 && s.obsidian >= 0 && s.geodes >= 0
  }

  /** Let `k` minutes pass: every robot collects one unit a minute. */
  function Advance(s: State, k: int): State
  {
    s.(time := s.time - k,
       ore := s.ore + s.oreBots * k,
       clay := s.clay + s.clayBots * k,
       obsidian := s.obsidian + s.obsidianBots * k,
       geodes := s.geodes + s.geodeBots * k)
  }

  /** No more robot can be built: collect until the time is up. */
  function Idle(s: State): (e: State)
    ensures e.time == 0
    ensures e.geodes == s.geodes + s.geodeBots * s.time
  {
    Advance(s, s.time)
  }

  function BuildOre(b: Blueprint, s: State, skip: int): State
  {
    var a := Advance(s, skip);
    a.(oreBots := a.oreBots + 1, ore := a.ore - b.oreBotOre)
  }

  function BuildClay(b: Blueprint, s: State, skip: int): State
  {
    var a := Advance(s, skip);
    a.(clayBots := a.clayBots + 1, ore := a.ore - b.clayBotOre)
  }

  function BuildObsidian(b: Blueprint, s: State, skip: int): State
  {
    var a := Advance(s, skip);
    a.(obsidianBots := a.obsidianBots + 1, ore := a.ore - b.obsidianBotOre, clay := a.clay - b.obsidianBotClay)
  }

  function BuildGeode(b: Blueprint, s: State, skip: int): State
  {
    var a := Advance(s, skip);
    a.(geodeBots := a.geodeBots + 1, ore := a.ore - b.geodeBotOre, obsidian := a.obsidian - b.geodeBotObsidian)
  }

  /** The ore-robot branch: taken while there are fewer ore robots than the
      dearest ore cost, and only if the robot is ready before the last
      minute. */
  function OreBranch(b: Blueprint, s: State): seq<State>
    requires Sane(s)
  {
    if s.oreBots < MaxOreCosts(b) then
      var skip := OreBotWait(b, s.ore, s.oreBots) + 1;
      if s.time > skip then [BuildOre(b, s, skip)] else []
    else []
  }

  /** The clay-robot branch: taken while there are fewer clay robots than an
      obsidian robot costs clay. */
  function ClayBranch(b: Blueprint, s: State): seq<State>
    requires Sane(s)
  {
    if s.clayBots < b.obsidianBotClay then
      var skip := ClayBotWait(b, s.ore, s.oreBots) + 1;
      if s.time > skip then [BuildClay(b, s, skip)] else []
    else []
  }

  /** The obsidian-robot branch: taken while there are fewer obsidian robots
      than a geode robot costs obsidian, and never without clay robots. */
  function ObsidianBranch(b: Blueprint, s: State): seq<State>
    requires Sane(s)
  {
    if s.obsidianBots < b.geodeBotObsidian then
      match ObsidianBotWait(b, s.ore, s.clay, s.oreBots, s.clayBots)
      case None => []
      case Some(w) => if s.time > w + 1 then [BuildObsidian(b, s, w + 1)] else []
    else []
  }

  /** The geode-robot branch: no limit, but never without obsidian robots. */
  function GeodeBranch(b: Blueprint, s: State): seq<State>
    requires Sane(s)
  {
    match GeodeBotWait(b, s.ore, s.obsidian, s.oreBots, s.obsidianBots)
    case None => []
    case Some(w) => if s.time > w + 1 then [BuildGeode(b, s, w + 1)] else []
  }

  /** The states the four branches of `solve` recurse on, in its order. */
  function Successors(b: Blueprint, s: State): (next: seq<State>)
    requires Sane(s)
    ensures forall n :: n in next ==> Sane(n) && 1 <= n.time < s.time
  {
    OreBranch(b, s) + ClayBranch(b, s) + ObsidianBranch(b, s) + GeodeBranch(b, s)
  }

  function Last(p: seq<State>): State
    requires p != []
  {
    p[|p| - 1]
  }

  /** `solve`: the state list of a best build order from `s`. It is `s`
      followed by the best branch's list, or by the idle end state when no
      branch is open. */
  function Solve(b: Blueprint, s: State): (p: seq<State>)
    requires Sane(s)
    ensures |p| >= 2 && p[0] == s && Last(p).time == 0
    decreases s.time, 1, 0
  {
    var next := Successors(b, s);
    if next == [] then [s, Idle(s)]
    else [s] + Explore(b, next, s.time)
  }

  /** `max(scores, key=...)` over the branches' lists: the first list whose
      final geode count is largest. */
  function Explore(b: Blueprint, next: seq<State>, t: int): (p: seq<State>)
    requires next != [] && forall n :: n in next ==> Sane(n) && 1 <= n.time < t
    ensures |p| >= 2 && p[0] in next && Last(p).time == 0
    decreases t, 0, |next|
  {
    var first := Solve(b, next[0]);
    if |next| == 1 then first
    else
      var rest := Explore(b, next[1..], t);
      if Last(rest).geodes > Last(first).geodes then rest else first
  }

  // --------------------------------------------------- what a search finds

  /** A build schedule of the kind `solve` explores: each state is one of the
      branches of the previous one, until no branch is open and the idle end
      state follows. */
  ghost predicate ValidPath(b: Blueprint, p: seq<State>)
  {
    && |p| >= 2
    && (forall i :: 0 <= i < |p| - 1 ==> Sane(p[i]))
    && (forall i :: 0 <= i < |p| - 2 ==> p[i + 1] in Successors(b, p[i]))
    && Successors(b, p[|p| - 2]) == []
    && p[|p| - 1] == Idle(p[|p| - 2])
  }

  lemma ValidPathCons(b: Blueprint, s: State, p: seq<State>)
    requires Sane(s) && ValidPath(b, p) && p[0] in Successors(b, s)
    ensures ValidPath(b, [s] + p)
  {
    var q := [s] + p;
    forall i | 0 <= i < |q| - 2
      ensures q[i + 1] in Successors(b, q[i])
    {
      if i > 0 {
        assert q[i] == p[i - 1] && q[i + 1] == p[i];
      }
    }
  }

  /** The list `solve` returns is such a schedule. */
  lemma {:induction false} SolveValid(b: Blueprint, s: State)
    requires Sane(s)
    ensures ValidPath(b, Solve(b, s))
    decreases s.time, 1, 0
  {
    var next := Successors(b, s);
    if next != [] {
      ExploreValid(b, next, s.time);
      ValidPathCons(b, s, Explore(b, next, s.time));
    }
  }

  lemma {:induction false} ExploreValid(b: Blueprint, next: seq<State>, t: int)
    requires next != [] && forall n :: n in next ==> Sane(n) && 1 <= n.time < t
    ensures ValidPath(b, Explore(b, next, t))
    decreases t, 0, |next|
  {
    SolveValid(b, next[0]);
    if |next| > 1 {
      ExploreValid(b, next[1..], t);
    }
  }

  /** The chosen branch is at least as good as every branch. */
  lemma {:induction false} ExploreMax(b: Blueprint, next: seq<State>, t: int, i: nat)
    requires next != [] && forall n :: n in next ==> Sane(n) && 1 <= n.time < t
    requires i < |next|
    ensures Last(Solve(b, next[i])).geodes <= Last(Explore(b, next, t)).geodes
    decreases |next|
  {
    if i > 0 {
      ExploreMax(b, next[1..], t, i - 1);
    }
  }

  /** Dropping the first state of a schedule leaves a schedule from the
      branch it took. */
  lemma ValidPathTail(b: Blueprint, p: seq<State>)
    requires ValidPath(b, p) && |p| > 2
    ensures ValidPath(b, p[1..]) && p[1] in Successors(b, p[0])
  {
    var tail := p[1..];
    forall i | 0 <= i < |tail| - 2
      ensures tail[i + 1] in Successors(b, tail[i])
    {
      assert tail[i] == p[i + 1] && tail[i + 1] == p[i + 2];
    }
  }

  /** Optimality: no schedule of this kind from `s` ends with more geodes
      than the one `solve` returns. */
  lemma {:induction false} SolveOptimal(b: Blueprint, s: State, p: seq<State>)
    requires Sane(s) && ValidPath(b, p) && p[0] == s
    ensures Last(p).geodes <= Last(Solve(b, s)).geodes
    decreases s.time
  {
    var next := Successors(b, s);
    SolveUnfold(b, s);
    if |p| > 2 {
      ValidPathTail(b, p);
      var tail := p[1..];
      assert Last(tail) == Last(p);
      SolveOptimal(b, p[1], tail);
      var i :| 0 <= i < |next| && next[i] == p[1];
      ExploreMax(b, next, s.time, i);
    }
  }

  /** Doing nothing more is always possible, so the best count is at least
      what the current geode robots collect by the end. */
  lemma {:induction false} SolveAtLeastIdle(b: Blueprint, s: State)
    requires Sane(s)
    ensures Last(Solve(b, s)).geodes >= s.geodes + s.geodeBots * s.time
    decreases s.time, 1, 0
  {
    var next := Successors(b, s);
    SolveUnfold(b, s);
    if next != [] {
      var p := Explore(b, next, s.time);
      var n := p[0];
      ExploreIsBranch(b, next, s.time);
      SolveAtLeastIdle(b, n);
      SuccessorKeepsGeodes(b, s, n);
    }
  }

  /** The end state of `solve`: the idle end when no branch is open, else
      the end of the chosen branch. */
  lemma SolveUnfold(b: Blueprint, s: State)
    requires Sane(s)
    ensures Successors(b, s) == [] ==> Last(Solve(b, s)) == Idle(s)
    ensures Successors(b, s) != [] ==> Last(Solve(b, s)) == Last(Explore(b, Successors(b, s), s.time))
  {
    var next := Successors(b, s);
    if next != [] {
      var p := Explore(b, next, s.time);
      assert Solve(b, s) == [s] + p;
      assert Last([s] + p) == Last(p);
    }
  }

  /** The chosen list is the list of the branch it starts with. */
  lemma {:induction false} ExploreIsBranch(b: Blueprint, next: seq<State>, t: int)
    requires next != [] && forall n :: n in next ==> Sane(n) && 1 <= n.time < t
    ensures Explore(b, next, t) == Solve(b, Explore(b, next, t)[0])
    decreases |next|
  {
    if |next| > 1 {
      ExploreIsBranch(b, next[1..], t);
    }
  }

  /** `g + r·k + r'·t' >= g + r·(k + t')` when the rate only grew. */
  lemma CollectSplit(g: int, rate: int, skip: int, t2: int, rate2: int)
    requires rate >= 0 && rate2 >= rate && t2 > 0
    ensures g + rate * skip + rate2 * t2 >= g + rate * (skip + t2)
  {
    assert rate2 * t2 >= rate * t2;
    assert rate * (skip + t2) == rate * skip + rate * t2;
  }

  /** After a branch, the geode count plus what its robots collect by the end
      is at least what the current robots would collect. */
  lemma SuccessorKeepsGeodes(b: Blueprint, s: State, n: State)
    requires Sane(s) && n in Successors(b, s)
    ensures n.geodes + n.geodeBots * n.time >= s.geodes + s.geodeBots * s.time
  {
    var skip := s.time - n.time;
    if n in GeodeBranch(b, s) {
      assert n == BuildGeode(b, s, skip);
    } else if n in OreBranch(b, s) {
      assert n == BuildOre(b, s, skip);
    } else if n in ClayBranch(b, s) {
      assert n == BuildClay(b, s, skip);
    } else {
      assert n in ObsidianBranch(b, s);
      assert n == BuildObsidian(b, s, skip);
    }
    assert n.geodes == s.geodes + s.geodeBots * skip;
    CollectSplit(s.geodes, s.geodeBots, skip, n.time, n.geodeBots);
  }

  /** Robot caps for one branch. */
  lemma SuccessorCaps(b: Blueprint, s: State, n: State)
    requires Sane(s) && n in Successors(b, s)
    ensures n.oreBots <= Max2Int(s.oreBots, MaxOreCosts(b))
    ensures n.clayBots <= Max2Int(s.clayBots, b.obsidianBotClay)
    ensures n.obsidianBots <= Max2Int(s.obsidianBots, b.geodeBotObsidian)
  {
    if n in OreBranch(b, s) {
      assert n.oreBots == s.oreBots + 1 && s.oreBots < MaxOreCosts(b);
    } else if n in ClayBranch(b, s) {
      assert n.clayBots == s.clayBots + 1 && s.clayBots < b.obsidianBotClay;
    } else if n in ObsidianBranch(b, s) {
      assert n.obsidianBots == s.obsidianBots + 1 && s.obsidianBots < b.geodeBotObsidian;
    } else {
      assert n in GeodeBranch(b, s);
    }
  }

  /** Robot caps: along a schedule there are never more ore robots than the
      dearest ore cost, clay robots than an obsidian robot's clay cost, or
      obsidian robots than a geode robot's obsidian cost, unless there were
      already that many at the start. */
  lemma {:induction false} ValidPathCaps(b: Blueprint, p: seq<State>, i: nat)
    requires ValidPath(b, p) && i < |p|
    ensures p[i].oreBots <= Max2Int(p[0].oreBots, MaxOreCosts(b))
    ensures p[i].clayBots <= Max2Int(p[0].clayBots, b.obsidianBotClay)
    ensures p[i].obsidianBots <= Max2Int(p[0].obsidianBots, b.geodeBotObsidian)
  {
    if 0 < i < |p| - 1 {
      ValidPathCaps(b, p, i - 1);
      ValidPathStep(b, p, i);
      SuccessorCaps(b, p[i - 1], p[i]);
    } else if i > 0 {
      ValidPathCaps(b, p, i - 1);
      IdleKeepsRobots(p[i - 1]);
    }
  }

  /** Inside a schedule each state is a branch of the one before. */
  lemma ValidPathStep(b: Blueprint, p: seq<State>, i: nat)
    requires ValidPath(b, p) && 0 < i < |p| - 1
    ensures Sane(p[i - 1]) && p[i] in Successors(b, p[i - 1])
  {
    var j := i - 1;
    assert j + 1 == i;
    assert p[j + 1] in Successors(b, p[j]);
  }

  /** Waiting out the clock builds no robot. */
  lemma IdleKeepsRobots(s: State)
    ensures Idle(s).oreBots == s.oreBots && Idle(s).clayBots == s.clayBots
    ensures Idle(s).obsidianBots == s.obsidianBots && Idle(s).geodeBots == s.geodeBots
  {
  }

  function Max2Int(a: int, b: int): int
  {
    if a < b then b else a
  }

  /** Collecting adds to a stock. */
  lemma Collect(stock: int, rate: int, k: int)
    requires stock >= 0 && rate >= 0 && k >= 0
    ensures stock + rate * k >= 0
  {
  }

  /** Waiting one minute beyond the wait pays for the robot. */
  lemma Pay(stock: int, rate: int, w: int, cost: int)
    requires rate >= 0 && stock + rate * w >= cost
    ensures stock + rate * (w + 1) - cost >= 0
  {
    assert rate * (w + 1) == rate * w + rate;
  }

  lemma SuccessorStocked(b: Blueprint, s: State, n: State)
    requires Sane(s) && Stocked(s) && n in Successors(b, s)
    ensures Stocked(n)
  {
    if n in OreBranch(b, s) {
      OreStocked(b, s, n);
    } else if n in ClayBranch(b, s) {
      ClayStocked(b, s, n);
    } else if n in ObsidianBranch(b, s) {
      ObsidianStocked(b, s, n);
    } else {
      assert n in GeodeBranch(b, s);
      GeodeStocked(b, s, n);
    }
  }

  lemma OreStocked(b: Blueprint, s: State, n: State)
    requires Sane(s) && Stocked(s) && n in OreBranch(b, s)
    ensures Stocked(n)
  {
    var skip := s.time - n.time;
    Collect(s.ore, s.oreBots, skip);
    Collect(s.clay, s.clayBots, skip);
    Collect(s.obsidian, s.obsidianBots, skip);
    Collect(s.geodes, s.geodeBots, skip);
    Pay(s.ore, s.oreBots, OreBotWait(b, s.ore, s.oreBots), b.oreBotOre);
  }

  lemma ClayStocked(b: Blueprint, s: State, n: State)
    requires Sane(s) && Stocked(s) && n in ClayBranch(b, s)
    ensures Stocked(n)
  {
    var skip := s.time - n.time;
    Collect(s.ore, s.oreBots, skip);
    Collect(s.clay, s.clayBots, skip);
    Collect(s.obsidian, s.obsidianBots, skip);
    Collect(s.geodes, s.geodeBots, skip);
    Pay(s.ore, s.oreBots, ClayBotWait(b, s.ore, s.oreBots), b.clayBotOre);
  }

  lemma ObsidianStocked(b: Blueprint, s: State, n: State)
    requires Sane(s) && Stocked(s) && n in ObsidianBranch(b, s)
    ensures Stocked(n)
  {
    var skip := s.time - n.time;
    Collect(s.ore, s.oreBots, skip);
    Collect(s.clay, s.clayBots, skip);
    Collect(s.obsidian, s.obsidianBots, skip);
    Collect(s.geodes, s.geodeBots, skip);
    var w := ObsidianBotWait(b, s.ore, s.clay, s.oreBots, s.clayBots).value;
    Pay(s.ore, s.oreBots, w, b.obsidianBotOre);
    Pay(s.clay, s.clayBots, w, b.obsidianBotClay);
  }

  lemma GeodeStocked(b: Blueprint, s: State, n: State)
    requires Sane(s) && Stocked(s) && n in GeodeBranch(b, s)
    ensures Stocked(n)
  {
    var skip := s.time - n.time;
    Collect(s.ore, s.oreBots, skip);
    Collect(s.clay, s.clayBots, skip);
    Collect(s.obsidian, s.obsidianBots, skip);
    Collect(s.geodes, s.geodeBots, skip);
    var w := GeodeBotWait(b, s.ore, s.obsidian, s.oreBots, s.obsidianBots).value;
    Pay(s.ore, s.oreBots, w, b.geodeBotOre);
    Pay(s.obsidian, s.obsidianBots, w, b.geodeBotObsidian);
  }

  lemma IdleStocked(s: State)
    requires Sane(s) && Stocked(s) && s.time >= 0
    ensures Stocked(Idle(s))
  {
    Collect(s.ore, s.oreBots, s.time);
    Collect(s.clay, s.clayBots, s.time);
    Collect(s.obsidian, s.obsidianBots, s.time);
    Collect(s.geodes, s.geodeBots, s.time);
  }

  /** Every build is paid for out of stock: a schedule that starts with no
      negative stock and no negative time never has a negative stock. */
  lemma {:induction false} ValidPathStocked(b: Blueprint, p: seq<State>, i: nat)
    requires ValidPath(b, p) && Stocked(p[0]) && p[0].time >= 0 && i < |p|
    ensures Stocked(p[i])
    ensures i < |p| - 1 ==> p[i].time >= 0
  {
    if i > 0 {
      ValidPathStocked(b, p, i - 1);
      if i < |p| - 1 {
        SuccessorStocked(b, p[i - 1], p[i]);
      } else {
        IdleStocked(p[i - 1]);
      }
    }
  }

  /** Along a schedule that starts with time left, the remaining time falls
      at every step and ends at 0. */
  lemma {:induction false} ValidPathTime(b: Blueprint, p: seq<State>, i: nat)
    requires ValidPath(b, p) && p[0].time > 0 && i < |p| - 1
    ensures p[i].time > p[i + 1].time >= 0
  {
    if i > 0 {
      ValidPathTime(b, p, i - 1);
    }
  }

  // ----------------------------------------------------------------- part 1

  function Start(t: int): State
  {
    State(t, 1, 0, 0, 0, 0, 0, 0, 0)
  }

  /** The most geodes a blueprint opens in `t` minutes from one ore robot. */
  function MaxGeodes(b: Blueprint, t: int): int
  {
    Last(Solve(b, Start(t))).geodes
  }

  /** The best count is never negative, and no schedule from the start does
      better. */
  lemma MaxGeodesBest(b: Blueprint, t: int, p: seq<State>)
    requires ValidPath(b, p) && p[0] == Start(t)
    ensures Last(p).geodes <= MaxGeodes(b, t)
    ensures MaxGeodes(b, t) >= 0
  {
    SolveOptimal(b, Start(t), p);
    SolveAtLeastIdle(b, Start(t));
  }

  lemma MaxGeodesNonNegative(b: Blueprint, t: int)
    ensures MaxGeodes(b, t) >= 0
  {
    SolveAtLeastIdle(b, Start(t));
  }

  /** A blueprint's quality level: its id times its best geode count. */
  function Quality(b: Blueprint, t: int): int
  {
    b.id * MaxGeodes(b, t)
  }

  lemma QualityNonNegative(b: Blueprint, t: int)
    ensures Quality(b, t) >= 0
  {
    MaxGeodesNonNegative(b, t);
    MulNonNegative(b.id, MaxGeodes(b, t));
  }

  lemma MulNonNegative(a: int, c: int)
    requires a >= 0 && c >= 0
    ensures a * c >= 0
  {
  }

  /** The sum of the quality levels. */
  function QualitySum(bs: seq<Blueprint>, t: int): int
  {
    if bs == [] then 0
    else QualitySum(bs[..|bs| - 1], t) + Quality(bs[|bs| - 1], t)
  }

  lemma QualitySumStep(bs: seq<Blueprint>, i: nat, t: int)
    requires i < |bs|
    ensures QualitySum(bs[..i + 1], t) == QualitySum(bs[..i], t) + Quality(bs[i], t)
  {
    assert bs[..i + 1][..i] == bs[..i];
  }

  /** The quality level of one blueprint, as the loop of `part1` adds it. */
  method BlueprintQuality(b: Blueprint, minutes: int) returns (q: int)
    ensures q == Quality(b, minutes) && q >= 0
  {
    var states := Solve(b, Start(minutes));
    q := b.id * states[|states| - 1].geodes;
    QualityOfSolve(b, minutes, states);
  }

  lemma QualityOfSolve(b: Blueprint, t: int, states: seq<State>)
    requires states == Solve(b, Start(t))
    ensures b.id * states[|states| - 1].geodes == Quality(b, t) >= 0
  {
    LastIs(states);
    QualityNonNegative(b, t);
  }

  lemma LastIs(p: seq<State>)
    requires p != []
    ensures p[|p| - 1] == Last(p)
  {
  }

  /** The accumulator loop of `part1`, for a given number of minutes. */
  method SumQualities(bs: seq<Blueprint>, minutes: int) returns (total: int)
    ensures total == QualitySum(bs, minutes)
    ensures total >= 0
  {
    total := 0;
    var i := 0;
    while i < |bs|
      invariant 0 <= i <= |bs|
      invariant total == QualitySum(bs[..i], minutes) && total >= 0
    {
      QualitySumStep(bs, i, minutes);
      var q := BlueprintQuality(bs[i], minutes);
      total := total + q;
      i := i + 1;
    }
    assert i == |bs|;
    assert bs[..i] == bs;
  }

  /** `part1`: the quality levels summed over 24 minutes. */
  method Part1(bs: seq<Blueprint>) returns (total: int)
    ensures total == QualitySum(bs, 24)
    ensures total >= 0
  {
    total := SumQualities(bs, 24);
  }
}
