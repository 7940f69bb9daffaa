/** Camp cleanup: each line assigns two elves an inclusive range of section
    numbers, written "a0-a1,b0-b1". */
module Day04 {

  /** `set(range(lo, hi + 1))`: the sections lo..hi, empty when hi < lo. */
  function Sections(lo: int, hi: int): (s: set<int>)
    ensures forall x :: x in s <==> lo <= x <= hi
    decreases if hi < lo then 0 else hi - lo + 1
  {
    if hi < lo then {} else Sections(lo, hi - 1) + {hi}
  }

  /** `parse`: the four numbers of each line, taken in order, become two
      section sets: the first elf gets exactly the sections from the first
      number to the second, the other elf those from the third to the fourth. */
  function Parse(lines: seq<(nat, nat, nat, nat)>): (pairs: seq<(set<int>, set<int>)>)
    ensures |pairs| == |lines|
    ensures forall i, x :: 0 <= i < |lines| ==>
      (x in pairs[i].0 <==> lines[i].0 <= x <= lines[i].1) &&
      (x in pairs[i].1 <==> lines[i].2 <= x <= lines[i].3)
  {
    seq(|lines|, i requires 0 <= i < |lines| =>
      (Sections(lines[i].0, lines[i].1), Sections(lines[i].2, lines[i].3)))
  }

  /** `set.issubset` tried both ways round. */
  predicate EitherContains(a: set<int>, b: set<int>)
  {
    a <= b || b <= a
  }

  /** `set.intersection` taken as a truth value (both orders give the same set). */
  predicate Overlap(a: set<int>, b: set<int>)
  {
    a * b != {} || b * a != {}
  }

  /** `_part_x` with containment: the number of pairs where one contains the other. */
  function Part1(pairs: seq<(set<int>, set<int>)>): (count: nat)
    ensures count <= |pairs|
  {
    if pairs == [] then 0
    else
      var (a, b) := pairs[|pairs| - 1];
      Part1(pairs[..|pairs| - 1]) + (if EitherContains(a, b) then 1 else 0)
  }

  /** `_part_x` with intersection: the number of pairs that overlap at all. */
  function Part2(pairs: seq<(set<int>, set<int>)>): (count: nat)
    ensures count <= |pairs|
  {
    if pairs == [] then 0
    else
      var (a, b) := pairs[|pairs| - 1];
      Part2(pairs[..|pairs| - 1]) + (if Overlap(a, b) then 1 else 0)
  }

  // ---------------------------------------------------------------- properties

  /** For non-empty ranges, containment is a comparison of the end points. */
  lemma ContainsByEnds(a0: int, a1: int, b0: int, b1: int)
    requires a0 <= a1 && b0 <= b1
    ensures Sections(a0, a1) <= Sections(b0, b1) <==> b0 <= a0 && a1 <= b1
  {
    if Sections(a0, a1) <= Sections(b0, b1) {
      assert a0 in Sections(a0, a1) && a1 in Sections(a0, a1);
    }
  }

  /** Two ranges overlap exactly when both are non-empty and each starts no
      later than the other ends. */
  lemma OverlapByEnds(a0: int, a1: int, b0: int, b1: int)
    ensures Overlap(Sections(a0, a1), Sections(b0, b1)) <==>
      a0 <= a1 && b0 <= b1 && a0 <= b1 && b0 <= a1
  {
    var a, b := Sections(a0, a1), Sections(b0, b1);
    if a0 <= a1 && b0 <= b1 && a0 <= b1 && b0 <= a1 {
      var m := if a0 < b0 then b0 else a0;
      assert m in a * b;
    }
  }

  /** The positions of the pairs that satisfy a comparison. */
  function Matching(pairs: seq<(set<int>, set<int>)>, f: (set<int>, set<int>) -> bool): set<nat>
  {
    set i: nat | i < |pairs| && f(pairs[i].0, pairs[i].1)
  }

  /** One more pair adds its position exactly when it satisfies the comparison. */
  lemma MatchingStep(pairs: seq<(set<int>, set<int>)>, f: (set<int>, set<int>) -> bool)
    requires pairs != []
    ensures var n := |pairs| - 1;
      n !in Matching(pairs[..n], f) &&
      Matching(pairs, f) == Matching(pairs[..n], f) + (if f(pairs[n].0, pairs[n].1) then {n} else {})
  {
    var n := |pairs| - 1;
    var init := pairs[..n];
    assert forall i :: 0 <= i < n ==> init[i] == pairs[i];
  }

  /** Part one counts exactly the pairs where one range contains the other. */
  lemma {:induction false} Part1Counts(pairs: seq<(set<int>, set<int>)>)
    ensures Part1(pairs) == |Matching(pairs, EitherContains)|
    decreases |pairs|
  {
    if pairs == [] {
      assert Matching(pairs, EitherContains) == {};
    } else {
      var n := |pairs| - 1;
      Part1Counts(pairs[..n]);
      MatchingStep(pairs, EitherContains);
    }
  }

  /** Part two counts exactly the pairs that overlap. */
  lemma {:induction false} Part2Counts(pairs: seq<(set<int>, set<int>)>)
    ensures Part2(pairs) == |Matching(pairs, Overlap)|
    decreases |pairs|
  {
    if pairs == [] {
      assert Matching(pairs, Overlap) == {};
    } else {
      var n := |pairs| - 1;
      Part2Counts(pairs[..n]);
      MatchingStep(pairs, Overlap);
    }
  }

  /** A pair of non-empty ranges where one contains the other also overlaps. */
  lemma ContainsImpliesOverlap(a: set<int>, b: set<int>)
    requires a != {} && b != {}
    ensures EitherContains(a, b) ==> Overlap(a, b)
  {
    if a <= b {
      assert a * b == a;
    } else if b <= a {
      assert b * a == b;
    }
  }

  /** Every containing pair of non-empty ranges is counted by both parts, so
      part one never exceeds part two. */
  lemma {:induction false} Part1AtMostPart2(pairs: seq<(set<int>, set<int>)>)
    requires forall i :: 0 <= i < |pairs| ==> pairs[i].0 != {} && pairs[i].1 != {}
    ensures Part1(pairs) <= Part2(pairs)
    decreases |pairs|
  {
    if pairs != [] {
      var init := pairs[..|pairs| - 1];
      assert forall i :: 0 <= i < |init| ==> init[i] == pairs[i];
      Part1AtMostPart2(init);
      ContainsImpliesOverlap(pairs[|pairs| - 1].0, pairs[|pairs| - 1].1);
    }
  }
}
