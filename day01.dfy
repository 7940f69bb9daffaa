/** Calorie counting: the input lists each elf's food items, one number per
    line, with a blank line between elves. */
module Day01 {
  import opened Common

  /** One input line: a blank separator or the calories of one item. */
  datatype Line = Blank | Calories(n: int)

  /** Number of blank separator lines. */
  function Blanks(lines: seq<Line>): nat
  {
    if lines == [] then 0
    else Blanks(lines[..|lines| - 1]) + (if lines[|lines| - 1].Blank? then 1 else 0)
  }

  /** The item values in input order, separators dropped. */
  function Items(lines: seq<Line>): seq<int>
  {
    if lines == [] then []
    else
      var last := lines[|lines| - 1];
      Items(lines[..|lines| - 1]) + (if last.Blank? then [] else [last.n])
  }

  /** All groups joined back together. */
  function Flatten(groups: seq<seq<int>>): seq<int>
  {
    if groups == [] then [] else Flatten(groups[..|groups| - 1]) + groups[|groups| - 1]
  }

  /** The lines of one elf's items. */
  function ItemLines(items: seq<int>): seq<Line>
  {
    seq(|items|, i requires 0 <= i < |items| => Calories(items[i]))
  }

  /** The input written back from the groups: each group's items, with one
      blank line between consecutive groups. */
  function Unparse(elves: seq<seq<int>>): seq<Line>
    requires elves != []
  {
    if |elves| == 1 then ItemLines(elves[0])
    else Unparse(elves[..|elves| - 1]) + [Blank] + ItemLines(elves[|elves| - 1])
  }

  /** Appending one item to the last group appends its line to the
      written-back input. */
  lemma {:induction false} UnparseSnoc(elves: seq<seq<int>>, x: int)
    requires elves != []
    ensures var k := |elves| - 1;
      Unparse(elves[..k] + [elves[k] + [x]]) == Unparse(elves) + [Calories(x)]
  {
    var k := |elves| - 1;
    var r := elves[..k] + [elves[k] + [x]];
    ItemLinesSnoc(elves[k], x);
    assert r[k] == elves[k] + [x];
    if k > 0 {
      assert r[..k] == elves[..k];
      assert Unparse(r) == Unparse(elves[..k]) + [Blank] + ItemLines(r[k]);
    }
  }

  lemma {:induction false} ItemLinesSnoc(items: seq<int>, x: int)
    ensures ItemLines(items + [x]) == ItemLines(items) + [Calories(x)]
  {
  }

  /** `parse`: split at every blank line; there is one more group than
      there are separators, and the groups hold the items in order. */
  function Parse(lines: seq<Line>): (elves: seq<seq<int>>)
    ensures |elves| == Blanks(lines) + 1
    ensures Flatten(elves) == Items(lines)
  {
    if lines == [] then [[]]
    else
      var init := Parse(lines[..|lines| - 1]);
      var last := lines[|lines| - 1];
      if last.Blank? then
        assert (init + [[]])[..|init|] == init;
        init + [[]]
      else
        var k := |init| - 1;
        var r := init[..k] + [init[k] + [last.n]];
        assert r[..k] == init[..k];
        assert init == init[..k] + [init[k]];
        r
  }

  /** Writing the groups back with a blank line between them gives the
      input again, so group k holds exactly the items between the k-th and
      the (k+1)-th blank line. */
  lemma {:induction false} UnparseParse(lines: seq<Line>)
    ensures Unparse(Parse(lines)) == lines
    decreases |lines|
  {
    if lines != [] {
      var front := lines[..|lines| - 1];
      var last := lines[|lines| - 1];
      assert lines == front + [last];
      var init := Parse(front);
      UnparseParse(front);
      if last.Blank? {
        ParseBlank(front);
        var p := init + [[]];
        assert p[..|p| - 1] == init;
        assert ItemLines([]) == [];
        assert Unparse(p) == Unparse(init) + [Blank] + [];
      } else {
        ParseItem(front, last.n);
        UnparseSnoc(init, last.n);
      }
    }
  }

  /** One item line extends the last group by that item. */
  lemma {:induction false} ParseItem(lines: seq<Line>, x: int)
    ensures var p := Parse(lines);
      Parse(lines + [Calories(x)]) == p[..|p| - 1] + [p[|p| - 1] + [x]]
  {
    assert (lines + [Calories(x)])[..|lines|] == lines;
  }

  lemma AppendLast(a: seq<int>, b: seq<int>, x: int)
    ensures a + b + [x] == a + (b + [x])
  {
  }

  /** Parsing the lines of items appended to `pre` extends the last group. */
  lemma {:induction false} ParseItems(pre: seq<Line>, items: seq<int>)
    ensures var p := Parse(pre);
      Parse(pre + ItemLines(items)) == p[..|p| - 1] + [p[|p| - 1] + items]
    decreases |items|
  {
    var p := Parse(pre);
    var k := |p| - 1;
    if items == [] {
      assert pre + ItemLines(items) == pre;
      assert p[k] + items == p[k];
      assert p == p[..k] + [p[k]];
    } else {
      var its := items[..|items| - 1];
      var x := items[|items| - 1];
      assert items == its + [x];
      ParseItems(pre, its);
      ItemLinesSnoc(its, x);
      assert pre + ItemLines(items) == (pre + ItemLines(its)) + [Calories(x)];
      ParseItem(pre + ItemLines(its), x);
      var q := Parse(pre + ItemLines(its));
      var head := p[..k];
      assert q == head + [p[k] + its];
      assert |q| == k + 1;
      assert q[..k] == head;
      assert q[k] == p[k] + its;
      AppendLast(p[k], its, x);
    }
  }

  /** The converse round trip: any non-empty list of groups written out and
      parsed again gives back the same groups. */
  lemma {:induction false} ParseUnparse(elves: seq<seq<int>>)
    requires elves != []
    ensures Parse(Unparse(elves)) == elves
    decreases |elves|
  {
    var last := elves[|elves| - 1];
    if |elves| == 1 {
      assert elves == [last];
      ParseItems([], last);
      assert [] + ItemLines(last) == Unparse(elves);
      assert [] + last == last;
    } else {
      var init := elves[..|elves| - 1];
      assert elves == init + [last];
      var pre := Unparse(init) + [Blank];
      assert Unparse(elves) == pre + ItemLines(last);
      ParseUnparse(init);
      ParseBlank(Unparse(init));
      var p := init + [[]];
      assert Parse(pre) == p;
      ParseItems(pre, last);
      assert p[..|p| - 1] == init && p[|p| - 1] == [];
      assert [] + last == last;
    }
  }

  /** A blank line opens a new, empty group. */
  lemma {:induction false} ParseBlank(lines: seq<Line>)
    ensures Parse(lines + [Blank]) == Parse(lines) + [[]]
  {
    assert (lines + [Blank])[..|lines|] == lines;
  }

  /** The calorie total of each elf. */
  function GroupSums(elves: seq<seq<int>>): seq<int>
  {
    seq(|elves|, i requires 0 <= i < |elves| => Sum(elves[i]))
  }

  /** `part1`: the largest calorie total; `np.max` of no totals is an error. */
  function Part1(elves: seq<seq<int>>): (r: Option<int>)
    ensures r.Some? <==> elves != []
    ensures r.Some? ==> exists i :: 0 <= i < |elves| && r.value == Sum(elves[i])
    ensures r.Some? ==> forall i :: 0 <= i < |elves| ==> Sum(elves[i]) <= r.value
  {
    if elves == [] then None
    else
      var sums := GroupSums(elves);
      var m := Max(sums);
      assert forall i :: 0 <= i < |elves| ==> sums[i] == Sum(elves[i]);
      assert exists i :: 0 <= i < |sums| && sums[i] == m;
      Some(m)
  }

  /** `part2`: sort the totals and add up the last three (all of them when
      there are fewer than three, as the slice `[-3:]` does). */
  function Part2(elves: seq<seq<int>>): int
  {
    var sorted := SortAscending(GroupSums(elves));
    var k := if |sorted| < 3 then |sorted| else 3;
    Sum(sorted[|sorted| - k..])
  }

  // ---------------------------------------------------------------- properties

  /** The elves' totals together account for every item: nothing is counted
      twice or lost. */
  lemma {:induction false} GroupSumsTotal(elves: seq<seq<int>>)
    ensures |GroupSums(elves)| == |elves|
    ensures Sum(GroupSums(elves)) == Sum(Flatten(elves))
    decreases |elves|
  {
    if elves != [] {
      var init := elves[..|elves| - 1];
      GroupSumsTotal(init);
      assert GroupSums(elves) == GroupSums(init) + [Sum(elves[|elves| - 1])];
      SumAppend(GroupSums(init), [Sum(elves[|elves| - 1])]);
      SumAppend(Flatten(init), elves[|elves| - 1]);
      assert [Sum(elves[|elves| - 1])][..0] == [];
    }
  }

  lemma SumOfTail3(s: seq<int>)
    requires |s| >= 3
    ensures Sum(s[|s| - 3..]) == s[|s| - 3] + s[|s| - 2] + s[|s| - 1]
  {
    var t := s[|s| - 3..];
    assert t[..2][..1] == [s[|s| - 3]];
    assert [s[|s| - 3]][..0] == [];
    assert Sum([s[|s| - 3]]) == s[|s| - 3];
    assert Sum(t[..2]) == s[|s| - 3] + s[|s| - 2];
  }

  /** With three or more elves, `part2` is the sum of the three highest entries
      of an ascending rearrangement of the totals, and no three different
      entries of it add up to more. */
  lemma Part2TopThree(elves: seq<seq<int>>)
    requires |elves| >= 3
    ensures var sorted := SortAscending(GroupSums(elves));
      var n := |sorted|;
      n == |elves| && multiset(sorted) == multiset(GroupSums(elves)) &&
      Part2(elves) == sorted[n - 1] + sorted[n - 2] + sorted[n - 3] &&
      forall p, q, t :: 0 <= p < q < t < n ==> sorted[p] + sorted[q] + sorted[t] <= Part2(elves)
  {
    var sums := GroupSums(elves);
    var sorted := SortAscending(sums);
    var n := |sorted|;
    assert n == |elves| by {
      assert |multiset(sorted)| == |multiset(sums)|;
    }
    assert Part2(elves) == Sum(sorted[n - 3..]);
    SumOfTail3(sorted);
    TopThreeOfSorted(sorted);
  }

  /** In an ascending sequence no three different entries add up to more
      than the last three. */
  lemma TopThreeOfSorted(s: seq<int>)
    requires |s| >= 3 && Sorted(s)
    ensures var n := |s|;
      forall p, q, t :: 0 <= p < q < t < n ==> s[p] + s[q] + s[t] <= s[n - 1] + s[n - 2] + s[n - 3]
  {
    var n := |s|;
    forall p, q, t | 0 <= p < q < t < n
      ensures s[p] + s[q] + s[t] <= s[n - 1] + s[n - 2] + s[n - 3]
    {
      assert s[p] <= s[n - 3] && s[q] <= s[n - 2] && s[t] <= s[n - 1];
    }
  }

  /** A rearrangement of the totals of elves without negative items has no
      negative entry. */
  lemma RearrangedSumsNonNegative(elves: seq<seq<int>>, sorted: seq<int>)
    requires forall i, j :: 0 <= i < |elves| && 0 <= j < |elves[i]| ==> elves[i][j] >= 0
    requires multiset(sorted) == multiset(GroupSums(elves))
    ensures forall i :: 0 <= i < |sorted| ==> sorted[i] >= 0
  {
    var sums := GroupSums(elves);
    forall i | 0 <= i < |sorted| ensures sorted[i] >= 0 {
      assert sorted[i] in multiset(sums);
      var j :| 0 <= j < |sums| && sums[j] == sorted[i];
      SumNonNegative(elves[j]);
    }
  }

  /** A non-empty tail of a sequence without negative entries sums to at least
      its last entry. */
  lemma TailAtLeastLast(s: seq<int>, k: nat)
    requires 1 <= k <= |s|
    requires forall i :: 0 <= i < |s| ==> s[i] >= 0
    ensures Sum(s[|s| - k..]) >= s[|s| - 1]
  {
    var top := s[|s| - k..];
    assert top[..k - 1] == s[|s| - k..|s| - 1];
    SumNonNegative(top[..k - 1]);
  }

  /** With at least one elf and no negative item, the top three together carry
      at least as much as the top one. */
  lemma Part2AtLeastPart1(elves: seq<seq<int>>)
    requires elves != []
    requires forall i, j :: 0 <= i < |elves| && 0 <= j < |elves[i]| ==> elves[i][j] >= 0
    ensures Part1(elves).Some? && Part2(elves) >= Part1(elves).value
  {
    var sums := GroupSums(elves);
    var sorted := SortAscending(sums);
    RearrangedSumsNonNegative(elves, sorted);
    SortedLastIsMax(sums, sorted);
    var n := |sorted|;
    TailAtLeastLast(sorted, if n < 3 then n else 3);
  }
}
