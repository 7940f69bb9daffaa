/** Distress-signal packets: nested lists of integers, ordered by a recursive
    comparison that wraps a lone integer into a one-element list. */
module Day13 {
  import opened Common

  datatype Packet = Int(n: int) | List(items: seq<Packet>)

  function Size(p: Packet): nat
  {
    match p
    case Int(_) => 1
    case List(xs) => 1 + ListSize(xs)
  }

  function ListSize(xs: seq<Packet>): nat
  {
    if xs == [] then 0 else Size(xs[0]) + ListSize(xs[1..])
  }

  /** `compare`: negative when `left` is smaller, zero when equal, positive
      when `right` is smaller. An integer met by a list is compared as the
      one-element list holding it; `CompareLists` is the loop over the zipped
      items with the length difference as tie-breaker. */
  function Compare(left: Packet, right: Packet): int
    decreases Size(left) + Size(right), 0
  {
    match (left, right)
    case (Int(a), Int(b)) => a - b
    case (Int(a), List(ys)) =>
      assert ListSize([Int(a)]) == 1 by { assert [Int(a)][1..] == []; }
      CompareLists([Int(a)], ys)
    case (List(xs), Int(b)) =>
      assert ListSize([Int(b)]) == 1 by { assert [Int(b)][1..] == []; }
      CompareLists(xs, [Int(b)])
    case (List(xs), List(ys)) => CompareLists(xs, ys)
  }

  function CompareLists(xs: seq<Packet>, ys: seq<Packet>): int
    decreases ListSize(xs) + ListSize(ys), 1
  {
    if xs == [] || ys == [] then |xs| - |ys|
    else
      var c := Compare(xs[0], ys[0]);
      if c != 0 then c else CompareLists(xs[1..], ys[1..])
  }

  // ---------------------------------------------------------------- properties

  /** The integer case subtracts; a lone integer is wrapped on either side. */
  lemma CompareCases(a: int, b: int, ys: seq<Packet>)
    ensures Compare(Int(a), Int(b)) == a - b
    ensures Compare(Int(a), List(ys)) == Compare(List([Int(a)]), List(ys))
    ensures Compare(List(ys), Int(b)) == Compare(List(ys), List([Int(b)]))
  {
  }

  /** Two lists: the first unequal pair of items decides, else the lengths. */
  lemma {:induction false} CompareListsDecides(xs: seq<Packet>, ys: seq<Packet>)
    ensures var k := FirstDifference(xs, ys);
      k <= |xs| && k <= |ys| &&
      (forall i :: 0 <= i < k ==> Compare(xs[i], ys[i]) == 0) &&
      CompareLists(xs, ys) == (if k < |xs| && k < |ys| then Compare(xs[k], ys[k]) else |xs| - |ys|)
    decreases |xs|
  {
    if xs != [] && ys != [] && Compare(xs[0], ys[0]) == 0 {
      CompareListsDecides(xs[1..], ys[1..]);
    }
  }

  /** Index of the first pair of zipped items that do not compare equal. */
  function FirstDifference(xs: seq<Packet>, ys: seq<Packet>): nat
  {
    if xs == [] || ys == [] || Compare(xs[0], ys[0]) != 0 then 0
    else 1 + FirstDifference(xs[1..], ys[1..])
  }

  /** Every packet compares equal to itself. */
  lemma {:induction false} CompareReflexive(p: Packet)
    ensures Compare(p, p) == 0
    decreases Size(p), 0
  {
    match p
    case Int(_) =>
    case List(xs) => CompareListsReflexive(xs);
  }

  lemma {:induction false} CompareListsReflexive(xs: seq<Packet>)
    ensures CompareLists(xs, xs) == 0
    decreases ListSize(xs), 1
  {
    if xs != [] {
      CompareReflexive(xs[0]);
      CompareListsReflexive(xs[1..]);
    }
  }

  /** Swapping the arguments negates the result, so the signs are opposite. */
  lemma {:induction false} CompareAntisymmetric(a: Packet, b: Packet)
    ensures Compare(b, a) == -Compare(a, b)
    decreases Size(a) + Size(b), 0
  {
    match (a, b)
    case (Int(x), Int(y)) =>
    case (Int(x), List(ys)) =>
      assert ListSize([Int(x)]) == 1 by { assert [Int(x)][1..] == []; }
      CompareListsAntisymmetric([Int(x)], ys);
    case (List(xs), Int(y)) =>
      assert ListSize([Int(y)]) == 1 by { assert [Int(y)][1..] == []; }
      CompareListsAntisymmetric(xs, [Int(y)]);
    case (List(xs), List(ys)) => CompareListsAntisymmetric(xs, ys);
  }

  lemma {:induction false} CompareListsAntisymmetric(xs: seq<Packet>, ys: seq<Packet>)
    ensures CompareLists(ys, xs) == -CompareLists(xs, ys)
    decreases ListSize(xs) + ListSize(ys), 1
  {
    if xs != [] && ys != [] {
      CompareAntisymmetric(xs[0], ys[0]);
      CompareListsAntisymmetric(xs[1..], ys[1..]);
    }
  }

  // ---------------------------------------------------------------- part 1

  /** Sum of the 1-based indices of the pairs (packets[2i], packets[2i+1])
      whose left packet compares below the right one; a trailing odd packet
      has no partner and is ignored, as `zip` drops it. */
  function InOrderSum(packets: seq<Packet>, pairs: nat): int
    requires 2 * pairs <= |packets|
  {
    if pairs == 0 then 0
    else
      InOrderSum(packets, pairs - 1) +
      (if Compare(packets[2 * pairs - 2], packets[2 * pairs - 1]) < 0 then pairs else 0)
  }

  method Part1(packets: seq<Packet>) returns (sumInOrder: int)
    ensures sumInOrder == InOrderSum(packets, |packets| / 2)
  {
    sumInOrder := 0;
    var i := 1;
    while 2 * i <= |packets|
      invariant 1 <= i && 2 * (i - 1) <= |packets|
      invariant sumInOrder == InOrderSum(packets, i - 1)
    {
      if Compare(packets[2 * i - 2], packets[2 * i - 1]) < 0 {
        sumInOrder := sumInOrder + i;
      }
      i := i + 1;
    }
  }

  /** The in-order sum lies between 0 and 1 + 2 + ... + pairs, and reaches the
      top exactly when every pair is in order. */
  lemma {:induction false} InOrderSumBounds(packets: seq<Packet>, pairs: nat)
    requires 2 * pairs <= |packets|
    ensures 0 <= InOrderSum(packets, pairs) <= pairs * (pairs + 1) / 2
    ensures InOrderSum(packets, pairs) == pairs * (pairs + 1) / 2 <==>
      forall i :: 0 <= i < pairs ==> Compare(packets[2 * i], packets[2 * i + 1]) < 0
  {
    if pairs > 0 {
      InOrderSumBounds(packets, pairs - 1);
      assert pairs * (pairs + 1) / 2 == (pairs - 1) * pairs / 2 + pairs;
      var last := Compare(packets[2 * pairs - 2], packets[2 * pairs - 1]) < 0;
      if forall i :: 0 <= i < pairs ==> Compare(packets[2 * i], packets[2 * i + 1]) < 0 {
        assert last by {
          assert Compare(packets[2 * (pairs - 1)], packets[2 * (pairs - 1) + 1]) < 0;
        }
      }
    }
  }

  // ---------------------------------------------------------------- part 2

  /** Packets in order: each compares at most equal to its successor. */
  predicate InOrder(s: seq<Packet>)
  {
    forall i :: 0 <= i < |s| - 1 ==> Compare(s[i], s[i + 1]) <= 0
  }

  /** Stable insertion: `x` goes before the first packet it does not exceed. */
  function InsertPacket(x: Packet, s: seq<Packet>): (r: seq<Packet>)
    ensures multiset(r) == multiset(s) + multiset{x}
    ensures |r| == |s| + 1 && (r[0] == x || (s != [] && r[0] == s[0]))
  {
    if s == [] then [x]
    else if Compare(x, s[0]) <= 0 then [x] + s
    else
      assert s == [s[0]] + s[1..];
      [s[0]] + InsertPacket(x, s[1..])
  }

  lemma {:induction false} InsertPacketInOrder(x: Packet, s: seq<Packet>)
    requires InOrder(s)
    ensures InOrder(InsertPacket(x, s))
  {
    if s != [] && Compare(x, s[0]) > 0 {
      CompareAntisymmetric(x, s[0]);
      var t := InsertPacket(x, s[1..]);
      assert InOrder(s[1..]) by {
        forall i | 0 <= i < |s[1..]| - 1
          ensures Compare(s[1..][i], s[1..][i + 1]) <= 0
        {
          assert s[1..][i] == s[i + 1] && s[1..][i + 1] == s[i + 2];
        }
      }
      InsertPacketInOrder(x, s[1..]);
      var r := [s[0]] + t;
      assert Compare(r[0], r[1]) <= 0 by {
        if t[0] != x { assert t[0] == s[1]; }
      }
      forall i | 1 <= i < |r| - 1
        ensures Compare(r[i], r[i + 1]) <= 0
      {
        assert r[i] == t[i - 1] && r[i + 1] == t[i];
      }
    }
  }

  /** `list.sort(key=cmp_to_key(compare))`: a stable sort by `Compare`. */
  function SortPackets(s: seq<Packet>): (r: seq<Packet>)
    ensures InOrder(r)
    ensures multiset(r) == multiset(s)
  {
    if s == [] then []
    else
      assert s == [s[0]] + s[1..];
      var rest := SortPackets(s[1..]);
      InsertPacketInOrder(s[0], rest);
      InsertPacket(s[0], rest)
  }

  /** `list.index`: the first position holding a packet equal to `x`. */
  function IndexOf(s: seq<Packet>, x: Packet): (k: nat)
    requires x in s
    ensures k < |s| && s[k] == x
    ensures forall i :: 0 <= i < k ==> s[i] != x
  {
    if s[0] == x then 0 else 1 + IndexOf(s[1..], x)
  }

  const Divider1 := List([List([Int(2)])])
  const Divider2 := List([List([Int(6)])])

  /** An element of the input is still present after sorting. */
  lemma SortKeeps(s: seq<Packet>, k: nat)
    requires k < |s|
    ensures s[k] in SortPackets(s)
  {
    assert s[k] in multiset(s);
  }

  lemma ProductPositive(a: int, b: int)
    requires a >= 1 && b >= 1
    ensures a * b >= 1
  {
    assert a * b >= a * 1;
  }

  /** `x` first occurs in `s` at index `i`. */
  predicate FirstAt(s: seq<Packet>, x: Packet, i: int)
  {
    0 <= i < |s| && s[i] == x && forall k :: 0 <= k < i ==> s[k] != x
  }

  /** The decoder key of a sorted list holding both dividers: the product of
      their 1-based positions (`list.index` finds the first occurrence). */
  function DecoderKey(sorted: seq<Packet>): (key: int)
    requires Divider1 in sorted && Divider2 in sorted
    ensures key >= 1
    ensures exists i, j :: FirstAt(sorted, Divider1, i) && FirstAt(sorted, Divider2, j) &&
              key == (i + 1) * (j + 1)
  {
    var i := IndexOf(sorted, Divider1);
    var j := IndexOf(sorted, Divider2);
    assert FirstAt(sorted, Divider1, i) && FirstAt(sorted, Divider2, j);
    ProductPositive(i + 1, j + 1);
    (i + 1) * (j + 1)
  }

  /** Part two: add the two dividers, sort everything, and read off the key. */
  function Part2(packets: seq<Packet>): (key: int)
    ensures key >= 1
    ensures var sorted := SortPackets(packets + [Divider1, Divider2]);
      exists i, j :: FirstAt(sorted, Divider1, i) && FirstAt(sorted, Divider2, j) &&
        key == (i + 1) * (j + 1)
  {
    var all := packets + [Divider1, Divider2];
    assert all[|packets|] == Divider1 && all[|packets| + 1] == Divider2;
    SortKeeps(all, |packets|);
    SortKeeps(all, |packets| + 1);
    var sorted := SortPackets(all);
    assert Divider1 in sorted && Divider2 in sorted;
    DecoderKey(sorted)
  }
}
