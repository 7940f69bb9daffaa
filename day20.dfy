/** Grove positioning system: every number of the file is moved forward or
    backward in a circular list by its own value, in the original order, and
    the grove coordinates are read off after the 0. The list is kept as an
    array of original positions (`indices`) that is shifted in place. */
module Day20 {
  import opened Common

  const DecryptionKey := 811589153

  /** `np.arange(n)`. */
  function Iota(n: nat): (s: seq<int>)
    ensures |s| == n && forall k :: 0 <= k < n ==> s[k] == k
  {
    seq(n, k => k)
  }

  /** numpy's `%` on integers: the floor modulo of Python, whose result has
      the sign of the divisor, and 0 when the divisor is 0. */
  function Mod(a: int, m: nat): (r: int)
    ensures m > 0 ==> 0 <= r < m
    ensures m == 0 ==> r == 0
  {
    if m == 0 then 0 else a % m
  }

  /** The first position of `v` in `s`. */
  function IndexOf(s: seq<int>, v: int): (r: nat)
    requires v in s
    ensures r < |s| && s[r] == v && v !in s[..r]
  {
    if s[0] == v then 0
    else
      var r := 1 + IndexOf(s[1..], v);
      assert s[..r] == [s[0]] + s[1..][..r - 1];
      r
  }

  lemma FirstIsIndexOf(s: seq<int>, v: int, k: nat)
    requires k < |s| && s[k] == v && v !in s[..k]
    ensures v in s && IndexOf(s, v) == k
  {
  }

  /** The sequence with the entry at `from` taken out and put back so that
      it lands at `to`. */
  function Moved(s: seq<int>, from: nat, to: nat): (r: seq<int>)
    requires from < |s| && to < |s|
    ensures |r| == |s|
  {
    var rest := s[..from] + s[from + 1..];
    rest[..to] + [s[from]] + rest[to..]
  }

  /** A move puts the entry at its new place, shifts the entries strictly
      between the two places by one towards the old place, and leaves all
      others where they were. */
  lemma MovedAt(s: seq<int>, from: nat, to: nat, j: nat)
    requires from < |s| && to < |s| && j < |s|
    ensures Moved(s, from, to)[j] ==
      if j == to then s[from]
      else if from <= j < to then s[j + 1]
      else if to < j <= from then s[j - 1]
      else s[j]
  {
    var rest := s[..from] + s[from + 1..];
    assert forall k :: 0 <= k < |rest| ==> rest[k] == if k < from then s[k] else s[k + 1];
    var r := Moved(s, from, to);
    assert r == rest[..to] + [s[from]] + rest[to..];
    assert r[j] == if j < to then rest[j] else if j == to then s[from] else rest[j - 1];
  }

  /** A move reorders the entries and keeps every one of them. */
  lemma MovedPermutes(s: seq<int>, from: nat, to: nat)
    requires from < |s| && to < |s|
    ensures multiset(Moved(s, from, to)) == multiset(s)
  {
    var rest := s[..from] + s[from + 1..];
    assert s == s[..from] + [s[from]] + s[from + 1..];
    assert multiset(s) == multiset(rest) + multiset{s[from]};
    assert rest == rest[..to] + rest[to..];
    assert multiset(rest) == multiset(rest[..to]) + multiset(rest[to..]);
  }

  /** `values[indices]`. */
  function Gather(values: seq<int>, idx: seq<int>): (r: seq<int>)
    requires forall k :: 0 <= k < |idx| ==> 0 <= idx[k] < |values|
    ensures |r| == |idx| && forall k :: 0 <= k < |idx| ==> r[k] == values[idx[k]]
  {
    seq(|idx|, k requires 0 <= k < |idx| => values[idx[k]])
  }

  /** Reading the values through moved indices is moving the values. */
  lemma GatherMoved(values: seq<int>, idx: seq<int>, from: nat, to: nat)
    requires forall k :: 0 <= k < |idx| ==> 0 <= idx[k] < |values|
    requires from < |idx| && to < |idx|
    ensures forall k :: 0 <= k < |idx| ==> 0 <= Moved(idx, from, to)[k] < |values|
    ensures Gather(values, Moved(idx, from, to)) == Moved(Gather(values, idx), from, to)
  {
    var g := Gather(values, idx);
    forall j | 0 <= j < |idx|
      ensures 0 <= Moved(idx, from, to)[j] < |values|
      ensures values[Moved(idx, from, to)[j]] == Moved(g, from, to)[j]
    {
      MovedAt(idx, from, to, j);
      MovedAt(g, from, to, j);
    }
  }

  /** `idx` holds each of 0..n-1 exactly once, and nothing else. */
  predicate IsPermutation(idx: seq<int>, n: nat)
  {
    |idx| == n && (forall k :: 0 <= k < |idx| ==> 0 <= idx[k] < n) &&
    forall v :: 0 <= v < n ==> multiset(idx)[v] == 1
  }

  lemma {:induction false} IotaCount(n: nat, v: int)
    ensures multiset(Iota(n))[v] == if 0 <= v < n then 1 else 0
  {
    if n > 0 {
      IotaCount(n - 1, v);
      assert Iota(n) == Iota(n - 1) + [n - 1];
    }
  }

  /** `np.arange(n)` is a permutation. */
  lemma IotaIsPermutation(n: nat)
    ensures IsPermutation(Iota(n), n)
  {
    forall v | 0 <= v < n ensures multiset(Iota(n))[v] == 1 {
      IotaCount(n, v);
    }
  }

  /** A reordering of a permutation is a permutation. */
  lemma PermutationKept(a: seq<int>, b: seq<int>, n: nat)
    requires IsPermutation(a, n) && multiset(b) == multiset(a)
    ensures IsPermutation(b, n)
  {
    assert |multiset(b)| == |multiset(a)|;
    forall k | 0 <= k < |b| ensures 0 <= b[k] < n {
      assert b[k] in multiset(a);
      var j :| 0 <= j < |a| && a[j] == b[k];
    }
  }

  /** The place the `i`-th number moves to from `cur`: `(cur + values[i]) %
      (len(values) - 1)`, never negative. */
  function Target(values: seq<int>, i: nat, cur: nat): (t: nat)
    requires i < |values|
    ensures t < |values| && (|values| > 1 ==> t <= |values| - 2)
  {
    Mod(cur + values[i], |values| - 1)
  }

  lemma TargetIs(values: seq<int>, i: nat, cur: nat, sum: int, m: nat, t: int)
    requires i < |values| && sum == cur + values[i] && m == |values| - 1 && t == Mod(sum, m)
    ensures t == Target(values, i, cur)
  {
  }

  /** One move of the mix: the `i`-th number of the file is moved. */
  function MixStep(values: seq<int>, idx: seq<int>, i: nat): (r: seq<int>)
    requires IsPermutation(idx, |values|) && i < |values|
    ensures IsPermutation(r, |values|)
  {
    assert i in multiset(idx);
    var cur := IndexOf(idx, i);
    MovedPermutes(idx, cur, Target(values, i, cur));
    PermutationKept(idx, Moved(idx, cur, Target(values, i, cur)), |values|);
    Moved(idx, cur, Target(values, i, cur))
  }

  /** The moves of numbers `i`, `i + 1`, ... of one round. */
  function RoundFrom(values: seq<int>, idx: seq<int>, i: nat): (r: seq<int>)
    requires IsPermutation(idx, |values|) && i <= |values|
    ensures IsPermutation(r, |values|)
    decreases |values| - i
  {
    if i == |values| then idx else RoundFrom(values, MixStep(values, idx, i), i + 1)
  }

  /** `n` rounds of mixing. */
  function Rounds(values: seq<int>, idx: seq<int>, n: nat): (r: seq<int>)
    requires IsPermutation(idx, |values|)
    ensures IsPermutation(r, |values|)
    decreases n
  {
    if n == 0 then idx else Rounds(values, RoundFrom(values, idx, 0), n - 1)
  }

  /** The file after `n` rounds of mixing. */
  function Mixed(values: seq<int>, n: nat): (r: seq<int>)
    ensures |r| == |values|
  {
    IotaIsPermutation(|values|);
    Gather(values, Rounds(values, Iota(|values|), n))
  }

  // ------------------------------------------------------------ the methods

  /** `np.where(array == value)[0].item()`: the one position of `v`;
      `.item()` fails when `v` occurs no times or more than once. */
  method Find(a: array<int>, v: int) returns (r: Option<nat>)
    ensures r.Some? <==> multiset(a[..])[v] == 1
    ensures r.Some? ==> r.value < a.Length && a[r.value] == v && v !in a[..r.value]
  {
    var count := 0;
    var first := 0;
    for k := 0 to a.Length
      invariant count == multiset(a[..k])[v]
      invariant count > 0 ==> first < k && a[first] == v && v !in a[..first]
    {
      assert a[..k + 1] == a[..k] + [a[k]];
      if a[k] == v {
        if count == 0 {
          first := k;
        }
        count := count + 1;
      }
    }
    assert a[..] == a[..a.Length];
    r := if count == 1 then Some(first) else None;
  }

  /** The slice assignments of one move: the entries between the old and
      the new place are shifted by one and the saved entry is written at
      the new place. */
  method MoveEntry(a: array<int>, from: nat, to: nat)
    requires from < a.Length && to < a.Length
    modifies a
    ensures a[..] == Moved(old(a[..]), from, to)
  {
    var save := a[from];
    if from <= to {
      var k := from;
      while k < to
        invariant from <= k <= to
        invariant forall j :: from <= j < k ==> a[j] == old(a[j + 1])
        invariant forall j :: 0 <= j < a.Length && !(from <= j < k) ==> a[j] == old(a[j])
      {
        a[k] := a[k + 1];
        k := k + 1;
      }
    } else {
      var k := from;
      while k > to
        invariant to <= k <= from
        invariant forall j :: k < j <= from ==> a[j] == old(a[j - 1])
        invariant forall j :: 0 <= j < a.Length && !(k < j <= from) ==> a[j] == old(a[j])
      {
        a[k] := a[k - 1];
        k := k - 1;
      }
    }
    a[to] := save;
    forall j | 0 <= j < a.Length ensures a[j] == Moved(old(a[..]), from, to)[j] {
      MovedAt(old(a[..]), from, to, j);
    }
  }

  /** The body of the inner loop of `_mix`: number `i` is found in
      `indices` and moved by its value. */
  method MoveNumber(values: array<int>, indices: array<int>, i: nat)
    requires indices != values && IsPermutation(indices[..], values.Length) && i < values.Length
    modifies indices
    ensures indices[..] == MixStep(values[..], old(indices[..]), i)
  {
    ghost var before := indices[..];
    var len := values.Length;
    var found := Find(indices, i);
    var cur := found.value;
    FirstIsIndexOf(before, i, cur);
    var sum := cur + values[i];
    var next := Mod(sum, len - 1);
    TargetIs(values[..], i, cur, sum, len - 1, next);
    MoveEntry(indices, cur, next);
  }

  /** One round of `_mix`: each number, in the original order, is moved. */
  method MixRound(values: array<int>, indices: array<int>)
    requires indices != values && IsPermutation(indices[..], values.Length)
    modifies indices
    ensures IsPermutation(indices[..], values.Length)
    ensures indices[..] == RoundFrom(values[..], old(indices[..]), 0)
  {
    ghost var vs := values[..];
    ghost var start := indices[..];
    for i := 0 to values.Length
      invariant values[..] == vs
      invariant IsPermutation(indices[..], |vs|)
      invariant RoundFrom(vs, indices[..], i) == RoundFrom(vs, start, 0)
    {
      MoveNumber(values, indices, i);
    }
  }

  /** `values[indices]`: a new array holding the values in the order the
      indices give. */
  method Reorder(values: array<int>, indices: array<int>) returns (result: array<int>)
    requires IsPermutation(indices[..], values.Length)
    ensures fresh(result) && result[..] == Gather(values[..], indices[..])
  {
    result := new int[indices.Length];
    for k := 0 to indices.Length
      invariant forall j :: 0 <= j < k ==> result[j] == values[indices[j]]
    {
      result[k] := values[indices[k]];
    }
  }

  /** `_mix`: `n` rounds of moving every number; the values are then read
      through `indices`. */
  method Mix(values: array<int>, n: nat) returns (result: array<int>)
    ensures fresh(result) && result[..] == Mixed(values[..], n)
  {
    ghost var vs := values[..];
    var len := values.Length;
    var indices := new int[len](k => k);
    assert indices[..] == Iota(len);
    IotaIsPermutation(len);
    for r := 0 to n
      invariant values[..] == vs
      invariant IsPermutation(indices[..], len)
      invariant Rounds(vs, indices[..], n - r) == Rounds(vs, Iota(len), n)
    {
      ghost var start := indices[..];
      MixRound(values, indices);
      assert Rounds(vs, start, n - r) == Rounds(vs, indices[..], n - r - 1);
    }
    result := Reorder(values, indices);
  }

  /** The grove coordinates of a mixed file: the sum of the numbers 1000,
      2000 and 3000 places after the 0, counting round the end; none when
      the 0 does not occur exactly once. */
  function Grove(s: seq<int>): (r: Option<int>)
    ensures r.Some? <==> multiset(s)[0] == 1
  {
    if multiset(s)[0] != 1 then None
    else
      var z := IndexOf(s, 0);
      Some(s[(1000 + z) % |s|] + s[(2000 + z) % |s|] + s[(3000 + z) % |s|])
  }

  /** `part1`, with `n` rounds of mixing. It fails exactly when the input
      does not hold exactly one 0, because mixing keeps the numbers. */
  method Part1(values: array<int>, n: nat) returns (r: Option<int>)
    ensures r == Grove(Mixed(values[..], n))
    ensures r.Some? <==> multiset(values[..])[0] == 1
  {
    var mixed := Mix(values, n);
    MixPermutes(values[..], n);
    var z := Find(mixed, 0);
    if z.None? {
      return None;
    }
    var len := mixed.Length;
    var zero := z.value;
    FirstIsIndexOf(mixed[..], 0, zero);
    r := Some(mixed[(1000 + zero) % len] + mixed[(2000 + zero) % len] + mixed[(3000 + zero) % len]);
  }

  /** `part2`: the numbers are multiplied by the decryption key in place,
      then mixed ten times. */
  method Part2(values: array<int>) returns (r: Option<int>)
    modifies values
    ensures values[..] == seq(|old(values[..])|, k requires 0 <= k < |old(values[..])| => old(values[k]) * DecryptionKey)
    ensures r == Grove(Mixed(values[..], 10))
  {
    for k := 0 to values.Length
      invariant forall j :: 0 <= j < k ==> values[j] == old(values[j]) * DecryptionKey
      invariant forall j :: k <= j < values.Length ==> values[j] == old(values[j])
    {
      values[k] := values[k] * DecryptionKey;
    }
    r := Part1(values, 10);
  }

  // ---------------------------------------------------------------- properties

  lemma StepPermutes(values: seq<int>, idx: seq<int>, i: nat)
    requires IsPermutation(idx, |values|) && i < |values|
    ensures multiset(Gather(values, MixStep(values, idx, i))) == multiset(Gather(values, idx))
  {
    assert i in multiset(idx);
    var cur := IndexOf(idx, i);
    GatherMoved(values, idx, cur, Target(values, i, cur));
    MovedPermutes(Gather(values, idx), cur, Target(values, i, cur));
  }

  lemma {:induction false} RoundFromPermutes(values: seq<int>, idx: seq<int>, i: nat)
    requires IsPermutation(idx, |values|) && i <= |values|
    requires multiset(Gather(values, idx)) == multiset(values)
    ensures multiset(Gather(values, RoundFrom(values, idx, i))) == multiset(values)
    decreases |values| - i
  {
    if i < |values| {
      var next := MixStep(values, idx, i);
      StepPermutes(values, idx, i);
      RoundFromPermutes(values, next, i + 1);
      assert RoundFrom(values, idx, i) == RoundFrom(values, next, i + 1);
    } else {
      assert RoundFrom(values, idx, i) == idx;
    }
  }

  lemma {:induction false} RoundsPermute(values: seq<int>, idx: seq<int>, n: nat)
    requires IsPermutation(idx, |values|)
    requires multiset(Gather(values, idx)) == multiset(values)
    ensures multiset(Gather(values, Rounds(values, idx, n))) == multiset(values)
    decreases n
  {
    var r := Rounds(values, idx, n);
    if n > 0 {
      var next := RoundFrom(values, idx, 0);
      RoundFromPermutes(values, idx, 0);
      RoundsPermute(values, next, n - 1);
      assert r == Rounds(values, next, n - 1);
    } else {
      assert r == idx;
    }
    assert multiset(Gather(values, r)) == multiset(values);
  }

  /** `_mix` returns a reordering of `values`: every number is kept, as
      often as it occurs. */
  lemma MixPermutes(values: seq<int>, n: nat)
    ensures multiset(Mixed(values, n)) == multiset(values)
  {
    IotaIsPermutation(|values|);
    assert Gather(values, Iota(|values|)) == values;
    RoundsPermute(values, Iota(|values|), n);
  }

  /** The example file of the tests. */
  const Example: seq<int> := [1, 2, -3, 3, -2, 0, 4]

  /** Number `k` of the example sits at `c` in `a`, moves to `n`, and
      leaves the indices `b`. */
  ghost predicate MoveFact(a: seq<int>, k: nat, c: nat, n: nat, b: seq<int>)
  {
    |a| == 7 && k < 7 && c < 7 && a[c] == k && k !in a[..c] &&
    n == Target(Example, k, c) && b == Moved(a, c, n)
  }

  lemma ExampleStep(a: seq<int>, k: nat, c: nat, n: nat, b: seq<int>)
    requires IsPermutation(a, 7) && MoveFact(a, k, c, n, b)
    ensures MixStep(Example, a, k) == b && IsPermutation(b, 7)
    ensures RoundFrom(Example, a, k) == RoundFrom(Example, b, k + 1)
  {
    FirstIsIndexOf(a, k, c);
  }

  lemma ExampleMove0()
    ensures MoveFact([0, 1, 2, 3, 4, 5, 6], 0, 0, 1, [1, 0, 2, 3, 4, 5, 6])
  {
    var s: seq<int> := [0, 1, 2, 3, 4, 5, 6];
    assert s[..0] == [];
  }

  lemma ExampleMove1()
    ensures MoveFact([1, 0, 2, 3, 4, 5, 6], 1, 0, 2, [0, 2, 1, 3, 4, 5, 6])
  {
    var s: seq<int> := [1, 0, 2, 3, 4, 5, 6];
    assert s[..0] == [];
  }

  lemma ExampleMove2()
    ensures MoveFact([0, 2, 1, 3, 4, 5, 6], 2, 1, 4, [0, 1, 3, 4, 2, 5, 6])
  {
    var s: seq<int> := [0, 2, 1, 3, 4, 5, 6];
    assert s[..1] == [0];
  }

  lemma ExampleMove3()
    ensures MoveFact([0, 1, 3, 4, 2, 5, 6], 3, 2, 5, [0, 1, 4, 2, 5, 3, 6])
  {
    var s: seq<int> := [0, 1, 3, 4, 2, 5, 6];
    assert s[..2] == [0, 1];
  }

  lemma ExampleMove4()
    ensures MoveFact([0, 1, 4, 2, 5, 3, 6], 4, 2, 0, [4, 0, 1, 2, 5, 3, 6])
  {
    var s: seq<int> := [0, 1, 4, 2, 5, 3, 6];
    assert s[..2] == [0, 1];
  }

  lemma ExampleMove5()
    ensures MoveFact([4, 0, 1, 2, 5, 3, 6], 5, 4, 4, [4, 0, 1, 2, 5, 3, 6])
  {
    var s: seq<int> := [4, 0, 1, 2, 5, 3, 6];
    assert s[..4] == [4, 0, 1, 2];
  }

  lemma ExampleMove6()
    ensures MoveFact([4, 0, 1, 2, 5, 3, 6], 6, 6, 4, [4, 0, 1, 2, 6, 5, 3])
  {
    var s: seq<int> := [4, 0, 1, 2, 5, 3, 6];
    assert s[..6] == [4, 0, 1, 2, 5, 3];
  }

  /** The moves of one round of the example, `s[k]` being the indices
      before the move of number `k`. */
  ghost predicate ExampleMoves(s: seq<seq<int>>, cur: seq<nat>, t: seq<nat>)
  {
    |s| == 8 && |cur| == 7 && |t| == 7 &&
    forall k :: 0 <= k < 7 ==> MoveFact(s[k], k, cur[k], t[k], s[k + 1])
  }

  lemma {:induction false} ExampleChain(s: seq<seq<int>>, cur: seq<nat>, t: seq<nat>, j: nat)
    requires ExampleMoves(s, cur, t) && j <= 7 && IsPermutation(s[j], 7)
    ensures RoundFrom(Example, s[j], j) == s[7]
    decreases 7 - j
  {
    if j < 7 {
      ExampleStep(s[j], j, cur[j], t[j], s[j + 1]);
      ExampleChain(s, cur, t, j + 1);
    }
  }

  lemma ExampleRound()
    ensures IsPermutation(Iota(7), 7)
    ensures RoundFrom(Example, Iota(7), 0) == [4, 0, 1, 2, 6, 5, 3]
  {
    var s: seq<seq<int>> := [[0, 1, 2, 3, 4, 5, 6], [1, 0, 2, 3, 4, 5, 6], [0, 2, 1, 3, 4, 5, 6], [0, 1, 3, 4, 2, 5, 6], [0, 1, 4, 2, 5, 3, 6], [4, 0, 1, 2, 5, 3, 6], [4, 0, 1, 2, 5, 3, 6], [4, 0, 1, 2, 6, 5, 3]];
    var cur: seq<nat> := [0, 0, 1, 2, 2, 4, 6];
    var t: seq<nat> := [1, 2, 4, 5, 0, 4, 4];
    forall k | 0 <= k < 7 ensures MoveFact(s[k], k, cur[k], t[k], s[k + 1]) {
      if k == 0 {
        ExampleMove0();
      } else if k == 1 {
        ExampleMove1();
      } else if k == 2 {
        ExampleMove2();
      } else if k == 3 {
        ExampleMove3();
      } else if k == 4 {
        ExampleMove4();
      } else if k == 5 {
        ExampleMove5();
      } else {
        ExampleMove6();
      }
    }
    assert Iota(7) == s[0];
    IotaIsPermutation(7);
    ExampleChain(s, cur, t, 0);
  }

  /** Mixing is the rounds of moves followed by the gather. */
  lemma MixedIs(values: seq<int>, n: nat, r: seq<int>, m: seq<int>)
    requires IsPermutation(Iota(|values|), |values|)
    requires Rounds(values, Iota(|values|), n) == r
    requires Gather(values, r) == m
    ensures Mixed(values, n) == m
  {
  }

  lemma ExampleRounds()
    ensures IsPermutation(Iota(7), 7)
    ensures Rounds(Example, Iota(7), 1) == [4, 0, 1, 2, 6, 5, 3]
  {
    ExampleRound();
    assert Rounds(Example, Iota(7), 1) == Rounds(Example, RoundFrom(Example, Iota(7), 0), 0);
  }

  lemma ExampleGather()
    ensures Gather(Example, [4, 0, 1, 2, 6, 5, 3]) == [-2, 1, 2, -3, 4, 0, 3]
  {
  }

  lemma ExampleMixed()
    ensures Mixed(Example, 1) == [-2, 1, 2, -3, 4, 0, 3]
  {
    ExampleRounds();
    ExampleGather();
    MixedIs(Example, 1, [4, 0, 1, 2, 6, 5, 3], [-2, 1, 2, -3, 4, 0, 3]);
  }

  /** A value that sits at exactly one index occurs once. */
  lemma OccursOnce(s: seq<int>, k: nat, v: int)
    requires k < |s| && s[k] == v
    requires forall j :: 0 <= j < |s| && j != k ==> s[j] != v
    ensures multiset(s)[v] == 1
  {
    assert s == s[..k] + [s[k]] + s[k+1..];
    assert v !in s[..k];
    assert v !in s[k+1..];
  }

  /** The grove coordinates, read off at a known position of the 0. */
  lemma GroveAt(s: seq<int>, z: nat, p1: nat, p2: nat, p3: nat)
    requires z < |s| && s[z] == 0 && 0 !in s[..z] && multiset(s)[0] == 1
    requires p1 == (1000 + z) % |s| && p2 == (2000 + z) % |s| && p3 == (3000 + z) % |s|
    ensures Grove(s) == Some(s[p1] + s[p2] + s[p3])
  {
    FirstIsIndexOf(s, 0, z);
  }

  lemma ExampleGrove()
    ensures Grove([-2, 1, 2, -3, 4, 0, 3]) == Some(3)
  {
    var m: seq<int> := [-2, 1, 2, -3, 4, 0, 3];
    OccursOnce(m, 5, 0);
    assert m[..5] == [-2, 1, 2, -3, 4];
    assert (1000 + 5) % 7 == 4 && (2000 + 5) % 7 == 3 && (3000 + 5) % 7 == 2;
    GroveAt(m, 5, 4, 3, 2);
  }

  /** One round of mixing the example gives -2, 1, 2, -3, 4, 0, 3, and its
      grove coordinates sum to 3. */
  lemma ExamplePart1()
    ensures Mixed(Example, 1) == [-2, 1, 2, -3, 4, 0, 3]
    ensures Grove(Mixed(Example, 1)) == Some(3)
  {
    ExampleMixed();
    ExampleGrove();
  }

}
