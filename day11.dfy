/** Monkey in the middle: monkeys take turns inspecting the items they hold,
    each inspection changing the item's worry level, and throw every item to
    one of two monkeys depending on a divisibility test. */
module Day11 {
  import opened Common

  /** The operation "new = old <op> <operand>". */
  datatype Operation = Times(k: int) | Plus(k: int) | Square | Double

  function Apply(op: Operation, worry: int): int
  {
    match op
    case Times(k) => worry * k
    case Plus(k) => worry + k
    case Square => worry * worry
    case Double => worry + worry
  }

  /** `Monkey`: id, held items (first to be inspected first), operation,
      test divisor, the monkeys to throw to when the test holds and when it
      does not, and the number of inspections so far. */
  datatype Monkey = Monkey(id: int, items: seq<int>, op: Operation, test: int,
                           nextTrue: int, nextFalse: int, inspections: int)

  /** The operation of `Monkey.from_str`: on every worry level it computes
      "new = old <symbol> <operand>", multiplying for '*' and adding for any
      other symbol, where an operand that is not a number (the input says
      "old") stands for the old worry level itself. */
  function OperationOf(symbol: string, operand: string): (op: Operation)
    ensures forall worry :: Apply(op, worry) == (
              var x := if ParseInt(operand).Some? then ParseInt(operand).value else worry;
              if symbol == "*" then worry * x else worry + x)
  {
    var mul := symbol == "*";
    match ParseInt(operand)
    case Some(k) => if mul then Times(k) else Plus(k)
    case None => if mul then Square else Double
  }

  /** `Monkey.from_str` once the text fields are matched: no inspections yet. */
  function MonkeyOf(id: int, items: seq<int>, symbol: string, operand: string,
                    test: int, nextTrue: int, nextFalse: int): Monkey
  {
    Monkey(id, items, OperationOf(symbol, operand), test, nextTrue, nextFalse, 0)
  }

  /** `worry_downscale`: `worry // 3` in part one, `worry % m` in part two. */
  datatype Downscale = ThirdOf | ModBy(m: int)

  predicate ValidDownscale(d: Downscale)
  {
    d.ModBy? ==> d.m > 0
  }

  function Reduce(d: Downscale, worry: int): int
    requires ValidDownscale(d)
  {
    match d
    case ThirdOf => worry / 3
    case ModBy(m) => worry % m
  }

  /** What a round never changes: each monkey's operation, test and targets. */
  function Rules(ms: seq<Monkey>): (rules: seq<(Operation, int, int, int)>)
    ensures |rules| == |ms|
  {
    seq(|ms|, i requires 0 <= i < |ms| => (ms[i].op, ms[i].test, ms[i].nextTrue, ms[i].nextFalse))
  }

  /** The game can be played: every test divisor is positive and every monkey
      throws to another monkey of the list. */
  predicate ValidRules(rules: seq<(Operation, int, int, int)>)
  {
    forall i :: 0 <= i < |rules| ==>
      rules[i].1 > 0 &&
      0 <= rules[i].2 < |rules| && rules[i].2 != i &&
      0 <= rules[i].3 < |rules| && rules[i].3 != i
  }

  predicate Valid(ms: seq<Monkey>)
  {
    ValidRules(Rules(ms))
  }

  /** Monkey `m` inspects `item` and throws it: the new worry is appended to
      the target's items. */
  function Throw(ms: seq<Monkey>, m: nat, item: int, d: Downscale): (r: seq<Monkey>)
    requires Valid(ms) && m < |ms| && ValidDownscale(d)
    ensures Rules(r) == Rules(ms)
  {
    assert Rules(ms)[m] == (ms[m].op, ms[m].test, ms[m].nextTrue, ms[m].nextFalse);
    var worry := Reduce(d, Apply(ms[m].op, item));
    var target := if worry % ms[m].test == 0 then ms[m].nextTrue else ms[m].nextFalse;
    var r := ms[target := ms[target].(items := ms[target].items + [worry])];
    assert forall i :: 0 <= i < |ms| ==> Rules(r)[i] == Rules(ms)[i];
    r
  }

  /** Monkey `m` throws the given items, in order. */
  function ThrowAll(ms: seq<Monkey>, m: nat, items: seq<int>, d: Downscale): (r: seq<Monkey>)
    requires Valid(ms) && m < |ms| && ValidDownscale(d)
    ensures Rules(r) == Rules(ms)
    decreases |items|
  {
    if items == [] then ms else ThrowAll(Throw(ms, m, items[0], d), m, items[1..], d)
  }

  /** Monkey `m`'s turn: it throws everything it holds, counts the
      inspections and is left empty-handed. */
  function Turn(ms: seq<Monkey>, m: nat, d: Downscale): (r: seq<Monkey>)
    requires Valid(ms) && m < |ms| && ValidDownscale(d)
    ensures Rules(r) == Rules(ms)
  {
    var thrown := ThrowAll(ms, m, ms[m].items, d);
    var r := thrown[m := thrown[m].(items := [], inspections := thrown[m].inspections + |ms[m].items|)];
    assert forall i :: 0 <= i < |ms| ==> Rules(r)[i] == Rules(thrown)[i];
    r
  }

  /** The first `k` turns of a round, monkeys in list order. */
  function Turns(ms: seq<Monkey>, k: nat, d: Downscale): (r: seq<Monkey>)
    requires Valid(ms) && k <= |ms| && ValidDownscale(d)
    ensures Rules(r) == Rules(ms)
  {
    if k == 0 then ms else Turn(Turns(ms, k - 1, d), k - 1, d)
  }

  function Round(ms: seq<Monkey>, d: Downscale): (r: seq<Monkey>)
    requires Valid(ms) && ValidDownscale(d)
    ensures Rules(r) == Rules(ms)
  {
    Turns(ms, |ms|, d)
  }

  function Rounds(ms: seq<Monkey>, n: nat, d: Downscale): (r: seq<Monkey>)
    requires Valid(ms) && ValidDownscale(d)
    ensures Rules(r) == Rules(ms)
  {
    if n == 0 then ms else Round(Rounds(ms, n - 1, d), d)
  }

  /** Each monkey's inspection counter, in monkey order. */
  function Inspections(ms: seq<Monkey>): seq<int>
  {
    seq(|ms|, i requires 0 <= i < |ms| => ms[i].inspections)
  }

  /** `monkey_business`: the product of the last two sorted inspection
      counts; fewer than two monkeys fail (IndexError). */
  function Business(ms: seq<Monkey>): Option<int>
  {
    var s := SortAscending(Inspections(ms));
    if |s| < 2 then None else Some(s[|s| - 1] * s[|s| - 2])
  }

  /** `MonkeyGame`: the monkeys' state, changed in place by every round. */
  class MonkeyGame {
    var monkeys: seq<Monkey>
    const downscale: Downscale

    constructor (monkeys: seq<Monkey>, downscale: Downscale)
      ensures this.monkeys == monkeys && this.downscale == downscale
    {
      this.monkeys := monkeys;
      this.downscale := downscale;
    }

    /** The inner loop of `single_round`: monkey `m` inspects and throws
        `items`, in order. */
    method ThrowItems(m: nat, items: seq<int>)
      requires Valid(monkeys) && m < |monkeys| && ValidDownscale(downscale)
      modifies this
      ensures monkeys == ThrowAll(old(monkeys), m, items, downscale)
    {
      ghost var start := monkeys;
      var i := 0;
      while i < |items|
        invariant 0 <= i <= |items| && |monkeys| == |start|
        invariant Rules(monkeys) == Rules(start)
        invariant ThrowAll(start, m, items, downscale) == ThrowAll(monkeys, m, items[i..], downscale)
      {
        ghost var thrown := Throw(monkeys, m, items[i], downscale);
        assert items[i..][1..] == items[i + 1..];
        assert Rules(monkeys)[m] == Rules(start)[m];
        var monkey := monkeys[m];
        var worry := Apply(monkey.op, items[i]);
        worry := Reduce(downscale, worry);
        var next := if worry % monkey.test == 0 then monkey.nextTrue else monkey.nextFalse;
        monkeys := monkeys[next := monkeys[next].(items := monkeys[next].items + [worry])];
        assert monkeys == thrown;
        i := i + 1;
      }
    }

    /** `single_round`: every monkey's turn, in list order. */
    method SingleRound()
      requires Valid(monkeys) && ValidDownscale(downscale)
      modifies this
      ensures monkeys == Round(old(monkeys), downscale)
    {
      ghost var start := monkeys;
      var m := 0;
      while m < |monkeys|
        invariant |monkeys| == |start| && 0 <= m <= |monkeys|
        invariant monkeys == Turns(start, m, downscale)
      {
        ghost var before := monkeys;
        ghost var expected := Turn(before, m, downscale);
        var items := monkeys[m].items;
        ThrowItems(m, items);
        ghost var thrown := monkeys;
        assert expected == thrown[m := thrown[m].(items := [], inspections := thrown[m].inspections + |items|)];
        monkeys := monkeys[m := monkeys[m].(inspections := monkeys[m].inspections + |items|, items := [])];
        m := m + 1;
      }
    }

    function MonkeyBusiness(): Option<int>
      reads this
    {
      Business(monkeys)
    }
  }

  /** `part1`: twenty rounds, worry divided by three after each inspection. */
  method Part1(monkeys: seq<Monkey>) returns (r: Option<int>)
    requires Valid(monkeys)
    ensures r == Business(Rounds(monkeys, 20, ThirdOf))
  {
    var game := new MonkeyGame(monkeys, ThirdOf);
    var k := 0;
    while k < 20
      invariant 0 <= k <= 20 && game.downscale == ThirdOf
      invariant game.monkeys == Rounds(monkeys, k, ThirdOf)
    {
      game.SingleRound();
      k := k + 1;
    }
    r := game.MonkeyBusiness();
  }

  predicate PositiveDivisors(rules: seq<(Operation, int, int, int)>)
  {
    forall i :: 0 <= i < |rules| ==> rules[i].1 > 0
  }

  /** `np.prod` of the test divisors. */
  function CommonMultiple(rules: seq<(Operation, int, int, int)>): (p: int)
    ensures PositiveDivisors(rules) ==> p > 0
  {
    if rules == [] then 1
    else
      var p := CommonMultiple(rules[..|rules| - 1]);
      var t := rules[|rules| - 1].1;
      if PositiveDivisors(rules) then
        assert PositiveDivisors(rules[..|rules| - 1]);
        ProductPositive(p, t);
        p * t
      else p * t
  }

  /** `part2`: ten thousand rounds, worry reduced modulo the product of all
      test divisors. */
  method Part2(monkeys: seq<Monkey>) returns (r: Option<int>)
    requires Valid(monkeys)
    ensures r == Business(Rounds(monkeys, 10000, ModBy(CommonMultiple(Rules(monkeys)))))
  {
    var p := CommonMultiple(Rules(monkeys));
    var game := new MonkeyGame(monkeys, ModBy(p));
    var k := 0;
    while k < 10000
      invariant 0 <= k <= 10000 && game.downscale == ModBy(p)
      invariant game.monkeys == Rounds(monkeys, k, ModBy(p))
    {
      game.SingleRound();
      k := k + 1;
    }
    r := game.MonkeyBusiness();
  }

  // ---------------------------------------------------------------- properties

  /** The number of items held by all monkeys. */
  function TotalItems(ms: seq<Monkey>): nat
  {
    if ms == [] then 0 else TotalItems(ms[..|ms| - 1]) + |ms[|ms| - 1].items|
  }

  lemma {:induction false} TotalItemsUpdate(ms: seq<Monkey>, i: nat, x: Monkey)
    requires i < |ms|
    ensures TotalItems(ms[i := x]) == TotalItems(ms) - |ms[i].items| + |x.items|
    decreases |ms|
  {
    if i < |ms| - 1 {
      assert ms[i := x][..|ms| - 1] == ms[..|ms| - 1][i := x];
      TotalItemsUpdate(ms[..|ms| - 1], i, x);
    } else {
      assert ms[i := x][..|ms| - 1] == ms[..|ms| - 1];
    }
  }

  /** Throwing moves items but never loses one: each throw adds one item to
      the target. */
  lemma {:induction false} ThrowAllTotal(ms: seq<Monkey>, m: nat, items: seq<int>, d: Downscale)
    requires Valid(ms) && m < |ms| && ValidDownscale(d)
    ensures TotalItems(ThrowAll(ms, m, items, d)) == TotalItems(ms) + |items|
    ensures ThrowAll(ms, m, items, d)[m].items == ms[m].items
    ensures ThrowAll(ms, m, items, d)[m].inspections == ms[m].inspections
    decreases |items|
  {
    if items != [] {
      assert Rules(ms)[m] == (ms[m].op, ms[m].test, ms[m].nextTrue, ms[m].nextFalse);
      var worry := Reduce(d, Apply(ms[m].op, items[0]));
      var target := if worry % ms[m].test == 0 then ms[m].nextTrue else ms[m].nextFalse;
      TotalItemsUpdate(ms, target, ms[target].(items := ms[target].items + [worry]));
      ThrowAllTotal(Throw(ms, m, items[0], d), m, items[1..], d);
    }
  }

  /** After its turn a monkey holds nothing and has inspected everything it
      held; the total number of items is unchanged. */
  lemma TurnEffect(ms: seq<Monkey>, m: nat, d: Downscale)
    requires Valid(ms) && m < |ms| && ValidDownscale(d)
    ensures Turn(ms, m, d)[m].items == []
    ensures Turn(ms, m, d)[m].inspections == ms[m].inspections + |ms[m].items|
    ensures TotalItems(Turn(ms, m, d)) == TotalItems(ms)
  {
    var thrown := ThrowAll(ms, m, ms[m].items, d);
    var emptied := thrown[m].(items := [], inspections := thrown[m].inspections + |ms[m].items|);
    assert Turn(ms, m, d) == thrown[m := emptied];
    ThrowAllTotal(ms, m, ms[m].items, d);
    TotalItemsUpdate(thrown, m, emptied);
  }

  /** A round, and so any number of rounds, keeps every item in play. */
  lemma {:induction false} TurnsKeepItems(ms: seq<Monkey>, k: nat, d: Downscale)
    requires Valid(ms) && k <= |ms| && ValidDownscale(d)
    ensures TotalItems(Turns(ms, k, d)) == TotalItems(ms)
  {
    if k > 0 {
      var j := k - 1;
      TurnsKeepItems(ms, j, d);
      var prev := Turns(ms, j, d);
      assert Rules(prev) == Rules(ms) && |prev| == |ms|;
      assert Turns(ms, k, d) == Turn(prev, j, d);
      TurnEffect(prev, j, d);
    }
  }

  lemma {:induction false} RoundsKeepItems(ms: seq<Monkey>, n: nat, d: Downscale)
    requires Valid(ms) && ValidDownscale(d)
    ensures TotalItems(Rounds(ms, n, d)) == TotalItems(ms)
  {
    if n > 0 {
      RoundsKeepItems(ms, n - 1, d);
      TurnsKeepItems(Rounds(ms, n - 1, d), |ms|, d);
    }
  }

  /** Every test divisor divides the common multiple. */
  lemma {:induction false} CommonMultipleDivisible(rules: seq<(Operation, int, int, int)>)
    requires PositiveDivisors(rules)
    ensures forall i :: 0 <= i < |rules| ==> CommonMultiple(rules) % rules[i].1 == 0
    decreases |rules|
  {
    if rules != [] {
      var init := rules[..|rules| - 1];
      assert PositiveDivisors(init);
      CommonMultipleDivisible(init);
      var p, t := CommonMultiple(init), rules[|rules| - 1].1;
      forall i | 0 <= i < |rules| ensures (p * t) % rules[i].1 == 0 {
        if i < |rules| - 1 {
          assert init[i] == rules[i];
          MultipleOfMultiple(p, t, rules[i].1);
        } else {
          DivModUnique(p * t, t, p, 0);
        }
      }
    }
  }

  lemma ProductPositive(a: int, b: int)
    requires a > 0 && b > 0
    ensures a * b > 0
  {
  }

  lemma MulMonotone(k: int, t: int)
    requires k >= 1 && t > 0
    ensures k * t >= t
  {
    assert k * t == (k - 1) * t + t;
    assert (k - 1) * t >= 0;
  }

  /** Euclidean division is unique: a quotient and a remainder in [0, t)
      that rebuild `x` are `x / t` and `x % t`. */
  lemma DivModUnique(x: int, t: int, q: int, r: int)
    requires t > 0 && 0 <= r < t && x == q * t + r
    ensures x / t == q && x % t == r
  {
    var q', r' := x / t, x % t;
    assert x == q' * t + r' && 0 <= r' < t;
    var k := q - q';
    assert k * t == r' - r by {
      assert q * t - q' * t == (q - q') * t;
    }
    if k >= 1 {
      MulMonotone(k, t);
    } else if k <= -1 {
      MulMonotone(-k, t);
    }
  }

  /** A multiple of `t` times anything is a multiple of `t`. */
  lemma MultipleOfMultiple(a: int, b: int, t: int)
    requires t > 0 && a % t == 0
    ensures (a * b) % t == 0
  {
    var q := a / t;
    assert a == q * t;
    assert a * b == (q * b) * t;
    DivModUnique(a * b, t, q * b, 0);
  }

  /** Adding a multiple of `t` does not change the remainder. */
  lemma ModOfMultiple(q: int, t: int, r: int)
    requires t > 0
    ensures (q * t + r) % t == r % t
  {
    var b := r / t;
    assert r == b * t + r % t;
    assert q * t + r == (q + b) * t + r % t;
    DivModUnique(q * t + r, t, q + b, r % t);
  }

  /** Two worries congruent modulo `p` stay congruent through any operation. */
  lemma OperationCongruent(op: Operation, a: int, b: int, p: int)
    requires p > 0 && a % p == b % p
    ensures Apply(op, a) % p == Apply(op, b) % p
  {
    var q := CongruentDifference(a, b, p);
    match op
    case Times(k) => TimesCongruent(a, b, k, q, p);
    case Plus(k) => ModOfMultiple(q, p, b + k);
    case Square => SquareCongruent(a, b, q, p);
    case Double =>
      assert a + a == (2 * q) * p + (b + b);
      ModOfMultiple(2 * q, p, b + b);
  }

  /** Congruent numbers differ by a multiple of the modulus. */
  lemma CongruentDifference(a: int, b: int, p: int) returns (q: int)
    requires p > 0 && a % p == b % p
    ensures a == q * p + b
  {
    q := a / p - b / p;
    assert a == (a / p) * p + a % p && b == (b / p) * p + b % p;
    assert (a / p) * p - (b / p) * p == q * p;
  }

  lemma TimesCongruent(a: int, b: int, k: int, q: int, p: int)
    requires p > 0 && a == q * p + b
    ensures (a * k) % p == (b * k) % p
  {
    assert a * k == (q * k) * p + b * k by {
      assert a * k == (q * p + b) * k;
    }
    ModOfMultiple(q * k, p, b * k);
  }

  lemma SquareCongruent(a: int, b: int, q: int, p: int)
    requires p > 0 && a == q * p + b
    ensures (a * a) % p == (b * b) % p
  {
    assert a * a == (q * (a + b)) * p + b * b by {
      assert a * a - b * b == (a - b) * (a + b);
      assert (q * p) * (a + b) == (q * (a + b)) * p;
    }
    ModOfMultiple(q * (a + b), p, b * b);
  }

  /** Reducing a worry modulo a multiple of a monkey's divisor keeps the
      outcome of that monkey's test; with the congruence above, part two's
      reduced worries throw every item to the same monkey as unreduced ones. */
  lemma ReductionKeepsTest(worry: int, p: int, t: int)
    requires p > 0 && t > 0 && p % t == 0
    ensures (worry % p) % t == worry % t
  {
    var k := p / t;
    assert p == k * t;
    var q := worry / p;
    assert worry == q * p + worry % p;
    assert q * p == (q * k) * t;
    ModOfMultiple(q * k, t, worry % p);
  }

  /** The monkey business is the product of the largest inspection count and
      the largest of the others: every count is at most the first factor, and
      no two monkeys both inspected more than the second. */
  lemma BusinessTopTwo(ms: seq<Monkey>)
    requires |ms| >= 2
    ensures var s := SortAscending(Inspections(ms));
      Business(ms) == Some(s[|s| - 1] * s[|s| - 2]) &&
      (forall i :: 0 <= i < |ms| ==> ms[i].inspections <= s[|s| - 1]) &&
      (forall i, j :: 0 <= i < j < |ms| ==> ms[i].inspections <= s[|s| - 2] || ms[j].inspections <= s[|s| - 2])
  {
    var c := Inspections(ms);
    var s := SortAscending(c);
    BusinessOfSorted(ms, c, s);
    TopTwoBounds(c, s);
    LiftBounds(ms, c, s[|s| - 1], s[|s| - 2]);
  }

  lemma BusinessOfSorted(ms: seq<Monkey>, c: seq<int>, s: seq<int>)
    requires |ms| >= 2 && c == Inspections(ms) && s == SortAscending(c)
    ensures |s| == |ms| && Business(ms) == Some(s[|s| - 1] * s[|s| - 2])
  {
    assert |multiset(s)| == |multiset(c)|;
  }

  /** Bounds on the inspection counts are bounds on the monkeys. */
  lemma LiftBounds(ms: seq<Monkey>, c: seq<int>, top: int, second: int)
    requires |c| == |ms| && forall i :: 0 <= i < |ms| ==> c[i] == ms[i].inspections
    requires forall i :: 0 <= i < |c| ==> c[i] <= top
    requires forall i, j :: 0 <= i < j < |c| ==> c[i] <= second || c[j] <= second
    ensures forall i :: 0 <= i < |ms| ==> ms[i].inspections <= top
    ensures forall i, j :: 0 <= i < j < |ms| ==> ms[i].inspections <= second || ms[j].inspections <= second
  {
    forall i, j | 0 <= i < j < |ms| ensures ms[i].inspections <= second || ms[j].inspections <= second {
      assert c[i] <= second || c[j] <= second;
    }
  }

  /** The largest entry of a sorted permutation bounds every entry, and the
      second largest bounds all entries but one. */
  lemma TopTwoBounds(c: seq<int>, s: seq<int>)
    requires |c| >= 2 && Sorted(s) && multiset(s) == multiset(c)
    ensures |s| == |c|
    ensures forall i :: 0 <= i < |c| ==> c[i] <= s[|s| - 1]
    ensures forall i, j :: 0 <= i < j < |c| ==> c[i] <= s[|s| - 2] || c[j] <= s[|s| - 2]
  {
    assert |multiset(s)| == |multiset(c)|;
    forall i | 0 <= i < |c| ensures c[i] <= s[|s| - 1] {
      InSorted(c, s, i);
    }
    forall i, j | 0 <= i < j < |c| ensures c[i] <= s[|s| - 2] || c[j] <= s[|s| - 2] {
      OnlyOneAbove(c, s, i, j);
    }
  }

  /** Every entry appears in a sorted permutation, at most as its last entry. */
  lemma InSorted(c: seq<int>, s: seq<int>, i: nat)
    requires i < |c| && Sorted(s) && multiset(s) == multiset(c)
    ensures s != [] && c[i] <= s[|s| - 1]
    ensures exists k :: 0 <= k < |s| && s[k] == c[i]
  {
    assert c[i] in multiset(c);
    assert c[i] in multiset(s);
    var k :| 0 <= k < |s| && s[k] == c[i];
  }

  lemma OnlyOneAbove(c: seq<int>, s: seq<int>, i: nat, j: nat)
    requires i < j < |c| && Sorted(s) && multiset(s) == multiset(c) && |s| >= 2
    ensures c[i] <= s[|s| - 2] || c[j] <= s[|s| - 2]
  {
    var n := |s|;
    if c[i] > s[n - 2] && c[j] > s[n - 2] {
      InSorted(c, s, i);
      InSorted(c, s, j);
      var ki :| 0 <= ki < n && s[ki] == c[i];
      var kj :| 0 <= kj < n && s[kj] == c[j];
      assert ki == n - 1 && kj == n - 1;
      TopValueOnce(s);
      TwiceInMultiset(c, i, j);
      assert false;
    }
  }

  /** In a sorted list, a value above the second largest occurs only once. */
  lemma TopValueOnce(s: seq<int>)
    requires Sorted(s) && |s| >= 2
    ensures s[|s| - 1] > s[|s| - 2] ==> multiset(s)[s[|s| - 1]] == 1
  {
    var n := |s|;
    var init := s[..n - 1];
    assert s == init + [s[n - 1]];
    if s[n - 1] > s[n - 2] {
      assert s[n - 1] !in init;
      assert multiset(init)[s[n - 1]] == 0;
    }
  }

  lemma TwiceInMultiset(c: seq<int>, i: nat, j: nat)
    requires i < j < |c| && c[i] == c[j]
    ensures multiset(c)[c[i]] >= 2
  {
    assert c == c[..j] + [c[j]] + c[j + 1..];
    assert c[..j] == c[..i] + [c[i]] + c[i + 1..j];
  }
}
