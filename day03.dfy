/** Rucksack reorganisation: each line lists a rucksack's items, the first half
    in one compartment and the second half in the other. */
module Day03 {
  import opened Common

  /** `_half_half`: split at `len // 2`; the second half gets the odd item. */
  function HalfHalf(line: string): (halves: (string, string))
    ensures halves.0 + halves.1 == line
    ensures |halves.0| == |line| / 2 && |halves.1| - |halves.0| in {0, 1}
  {
    var n := |line| / 2;
    assert line[..n] + line[n..] == line;
    (line[..n], line[n..])
  }

  predicate IsUpper(c: char)
  {
    'A' <= c <= 'Z'
  }

  /** `_to_priority`: upper-case letters count from 27, everything else from 'a' = 1. */
  function Priority(c: char): int
  {
    if IsUpper(c) then c as int - 'A' as int + 27 else c as int - 'a' as int + 1
  }

  function Items(s: string): set<char>
  {
    set i | 0 <= i < |s| :: s[i]
  }

  /** The only member of a one-element set. */
  function Only(s: set<char>): (c: char)
    requires |s| == 1
    ensures s == {c}
  {
    var c :| c in s;
    assert |s - {c}| == 0;
    assert s - {c} == {};
    c
  }

  /** The unpacking `(common,) = ...`: the single shared item, or a failure
      (ValueError) when there is none or more than one. */
  function Single(shared: set<char>): (r: Option<char>)
    ensures r.Some? <==> |shared| == 1
    ensures r.Some? ==> shared == {r.value}
  {
    if |shared| == 1 then Some(Only(shared)) else None
  }

  /** The item in both compartments of a rucksack: found exactly when the
      compartments share one item, and then it is that item. */
  function SharedItem(line: string): (r: Option<char>)
    ensures var (a, b) := HalfHalf(line);
      (r.Some? <==> |Items(a) * Items(b)| == 1) &&
      (r.Some? ==> Items(a) * Items(b) == {r.value} && r.value in a && r.value in b)
  {
    var (a, b) := HalfHalf(line);
    Single(Items(a) * Items(b))
  }

  /** The badge: the item carried by all three elves of a group; found
      exactly when the three rucksacks share one item, and then it is that
      item. */
  function Badge(x: string, y: string, z: string): (r: Option<char>)
    ensures r.Some? <==> |Items(x) * Items(y) * Items(z)| == 1
    ensures r.Some? ==> Items(x) * Items(y) * Items(z) == {r.value}
    ensures r.Some? ==> r.value in x && r.value in y && r.value in z
  {
    Single(Items(x) * Items(y) * Items(z))
  }

  /** `part1`: the sum of the shared items' priorities; fails if a rucksack
      does not have exactly one shared item. */
  function Part1(rucksacks: seq<string>): (r: Option<int>)
    ensures r.Some? <==> forall i :: 0 <= i < |rucksacks| ==> SharedItem(rucksacks[i]).Some?
  {
    if rucksacks == [] then Some(0)
    else
      var init := Part1(rucksacks[..|rucksacks| - 1]);
      var item := SharedItem(rucksacks[|rucksacks| - 1]);
      if init.None? then
        var i :| 0 <= i < |rucksacks| - 1 && SharedItem(rucksacks[..|rucksacks| - 1][i]).None?;
        assert rucksacks[..|rucksacks| - 1][i] == rucksacks[i];
        None
      else if item.None? then None
      else Some(init.value + Priority(item.value))
  }

  /** Number of complete groups of three: `zip` stops at the shortest of the
      three strided slices, which has `len // 3` entries. */
  function Groups(rucksacks: seq<string>): nat
  {
    |rucksacks| / 3
  }

  /** Sum of the badge priorities of the first `g` groups, rucksacks 3k, 3k+1 and 3k+2 forming group k. */
  function BadgeSum(rucksacks: seq<string>, g: nat): Option<int>
    requires g <= Groups(rucksacks)
  {
    if g == 0 then Some(0)
    else
      var init := BadgeSum(rucksacks, g - 1);
      var k := g - 1;
      var badge := Badge(rucksacks[3 * k], rucksacks[3 * k + 1], rucksacks[3 * k + 2]);
      if init.None? || badge.None? then None else Some(init.value + Priority(badge.value))
  }

  /** `part2`: the sum of the badge priorities over all complete groups; a
      trailing incomplete group is ignored, and a group without exactly one
      common item fails. */
  function Part2(rucksacks: seq<string>): Option<int>
  {
    BadgeSum(rucksacks, Groups(rucksacks))
  }

  // ---------------------------------------------------------------- properties

  /** Lower-case letters have priorities 1..26, upper-case letters 27..52, and
      different letters have different priorities. */
  lemma PriorityRanges(c: char, d: char)
    ensures 'a' <= c <= 'z' ==> 1 <= Priority(c) <= 26
    ensures 'A' <= c <= 'Z' ==> 27 <= Priority(c) <= 52
    ensures ('a' <= c <= 'z' || 'A' <= c <= 'Z') && ('a' <= d <= 'z' || 'A' <= d <= 'Z') && c != d
      ==> Priority(c) != Priority(d)
  {
  }

  /** Part two succeeds exactly when every complete group has a single badge. */
  lemma {:induction false} BadgeSumDefined(rucksacks: seq<string>, g: nat)
    requires g <= Groups(rucksacks)
    ensures BadgeSum(rucksacks, g).Some? <==>
      forall k :: 0 <= k < g ==> Badge(rucksacks[3 * k], rucksacks[3 * k + 1], rucksacks[3 * k + 2]).Some?
  {
    if g > 0 {
      BadgeSumDefined(rucksacks, g - 1);
    }
  }

  /** When every shared item is a letter, part one lies between 1 and 52 per rucksack. */
  lemma {:induction false} Part1Bounds(rucksacks: seq<string>)
    requires Part1(rucksacks).Some?
    requires forall i :: 0 <= i < |rucksacks| ==>
      var c := SharedItem(rucksacks[i]).value; 'a' <= c <= 'z' || 'A' <= c <= 'Z'
    ensures |rucksacks| <= Part1(rucksacks).value <= 52 * |rucksacks|
    decreases |rucksacks|
  {
    if rucksacks != [] {
      var init := rucksacks[..|rucksacks| - 1];
      assert forall i :: 0 <= i < |init| ==> init[i] == rucksacks[i];
      Part1Bounds(init);
      PriorityRanges(SharedItem(rucksacks[|rucksacks| - 1]).value, 'a');
    }
  }
}
