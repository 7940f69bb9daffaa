/** Supply stacks: numbered stacks of crates, the last element of each list
    being the top crate, rearranged by "move n from src to dest" steps. The
    stacks live in a `defaultdict(list)`: reading a missing stack gives an
    empty one and adds its key. */
module Day05 {
  import opened Common

  type Stacks = map<int, seq<char>>

  /** The stack `i` as a `defaultdict(list)` reads it. */
  function Get(m: Stacks, i: int): seq<char>
  {
    if i in m then m[i] else []
  }

  function Reverse(s: seq<char>): (r: seq<char>)
    ensures |r| == |s|
  {
    if s == [] then [] else [s[|s| - 1]] + Reverse(s[..|s| - 1])
  }

  /** The reversal holds the entries back to front. */
  lemma {:induction false} ReverseIndex(s: seq<char>)
    ensures forall k :: 0 <= k < |s| ==> Reverse(s)[k] == s[|s| - 1 - k]
  {
    if s != [] {
      var n := |s|;
      var t := s[..n - 1];
      ReverseIndex(t);
      var r, rt := Reverse(s), Reverse(t);
      assert r == [s[n - 1]] + rt;
      forall k | 0 <= k < n
        ensures r[k] == s[n - 1 - k]
      {
        if k > 0 {
          assert r[k] == rt[k - 1];
          assert rt[k - 1] == t[n - 1 - k];
        }
      }
    }
  }

  // ---------------------------------------------------------------- parsing

  predicate IsBlank(c: char)
  {
    c == ' ' || c == '\t' || c == '\n' || c == '\r' || c == '\U{000B}' || c == '\U{000C}'
  }

  /** What one drawing row puts on stack k + 1: the letter at column 4k + 1, if any. */
  function Cell(row: string, k: nat): seq<char>
  {
    if 4 * k + 1 < |row| && !IsBlank(row[4 * k + 1]) then [row[4 * k + 1]] else []
  }

  /** Stack k + 1 as the drawing shows it, read from the bottom row upwards, so
      the crate of the highest row ends up last, on top. */
  function Column(rows: seq<string>, k: nat): seq<char>
  {
    if rows == [] then [] else Column(rows[1..], k) + Cell(rows[0], k)
  }

  /** The stacks after the first i letter columns of `row` were pushed. */
  ghost predicate PushedUpTo(before: Stacks, row: string, i: nat, stacks: Stacks)
  {
    KeysUpTo(before, row, i, stacks) && ValuesUpTo(before, row, i, stacks)
  }

  ghost predicate KeysUpTo(before: Stacks, row: string, i: nat, stacks: Stacks)
  {
    forall x :: x in stacks <==> x in before || (1 <= x <= i && Cell(row, x - 1) != [])
  }

  ghost predicate ValuesUpTo(before: Stacks, row: string, i: nat, stacks: Stacks)
  {
    forall x :: x in stacks ==> stacks[x] == Get(before, x) + (if 1 <= x <= i then Cell(row, x - 1) else [])
  }

  lemma PushStep(before: Stacks, row: string, i: nat, stacks: Stacks, next: Stacks)
    requires PushedUpTo(before, row, i, stacks)
    requires next == if Cell(row, i) == [] then stacks else stacks[i + 1 := Get(stacks, i + 1) + Cell(row, i)]
    ensures PushedUpTo(before, row, i + 1, next)
  {
    KeysStep(before, row, i, stacks, next);
    ValuesStep(before, row, i, stacks, next);
  }

  lemma KeysStep(before: Stacks, row: string, i: nat, stacks: Stacks, next: Stacks)
    requires KeysUpTo(before, row, i, stacks)
    requires next == if Cell(row, i) == [] then stacks else stacks[i + 1 := Get(stacks, i + 1) + Cell(row, i)]
    ensures KeysUpTo(before, row, i + 1, next)
  {
    forall x ensures x in next <==> x in before || (1 <= x <= i + 1 && Cell(row, x - 1) != []) {
      if x == i + 1 {
      }
    }
  }

  lemma ValuesStep(before: Stacks, row: string, i: nat, stacks: Stacks, next: Stacks)
    requires KeysUpTo(before, row, i, stacks) && ValuesUpTo(before, row, i, stacks)
    requires next == if Cell(row, i) == [] then stacks else stacks[i + 1 := Get(stacks, i + 1) + Cell(row, i)]
    ensures ValuesUpTo(before, row, i + 1, next)
  {
    var c := Cell(row, i);
    if c == [] {
      forall x | x in stacks
        ensures stacks[x] == Get(before, x) + (if 1 <= x <= i + 1 then Cell(row, x - 1) else [])
      {
        if x == i + 1 {
          assert Get(before, x) + c == Get(before, x);
        }
      }
    } else {
      ValuesPush(before, row, i, stacks, c);
    }
  }

  lemma ValuesPush(before: Stacks, row: string, i: nat, stacks: Stacks, c: seq<char>)
    requires KeysUpTo(before, row, i, stacks) && ValuesUpTo(before, row, i, stacks)
    requires c == Cell(row, i)
    ensures ValuesUpTo(before, row, i + 1, stacks[i + 1 := Get(stacks, i + 1) + c])
  {
    var next := stacks[i + 1 := Get(stacks, i + 1) + c];
    forall x | x in next
      ensures next[x] == Get(before, x) + (if 1 <= x <= i + 1 then Cell(row, x - 1) else [])
    {
      if x == i + 1 {
        if x in stacks {
          assert stacks[x] == Get(before, x) + [];
        } else {
          assert x !in before;
        }
        assert next[x] == Get(before, x) + c;
      } else {
        assert x in stacks && next[x] == stacks[x];
      }
    }
  }

  /** One drawing row pushes its letters onto their stacks. */
  method PushRow(before: Stacks, row: string) returns (stacks: Stacks)
    ensures forall x :: x in stacks <==> x in before || (x >= 1 && Cell(row, x - 1) != [])
    ensures forall x :: x in stacks ==> stacks[x] == Get(before, x) + (if x >= 1 then Cell(row, x - 1) else [])
  {
    stacks := before;
    var i := 0;
    while 4 * i + 1 < |row|
      invariant PushedUpTo(before, row, i, stacks)
    {
      var c := row[4 * i + 1];
      ghost var old_stacks := stacks;
      if !IsBlank(c) {
        stacks := stacks[i + 1 := Get(stacks, i + 1) + [c]];
      }
      PushStep(before, row, i, old_stacks, stacks);
      i := i + 1;
    }
  }

  /** `parse` of the drawing (its rows top to bottom, without the label row):
      the rows are visited bottom-up and each letter is pushed on its stack. */
  method Parse(rows: seq<string>) returns (stacks: Stacks)
    ensures forall x :: x in stacks <==> x >= 1 && Column(rows, x - 1) != []
    ensures forall x :: x in stacks ==> x >= 1 && stacks[x] == Column(rows, x - 1)
  {
    stacks := map[];
    var j := |rows|;
    while j > 0
      invariant 0 <= j <= |rows|
      invariant Parsed(rows[j..], stacks)
    {
      j := j - 1;
      assert rows[j..][1..] == rows[j + 1..];
      ghost var before := stacks;
      stacks := PushRow(stacks, rows[j]);
      ParseStep(rows[j..], before, stacks);
    }
    assert rows[0..] == rows;
  }

  /** The stacks hold exactly the columns of the drawing rows. */
  ghost predicate Parsed(rows: seq<string>, stacks: Stacks)
  {
    (forall x :: x in stacks <==> x >= 1 && Column(rows, x - 1) != []) &&
    (forall x :: x in stacks ==> x >= 1 && stacks[x] == Column(rows, x - 1))
  }

  lemma ParseStep(rows: seq<string>, before: Stacks, after: Stacks)
    requires rows != [] && Parsed(rows[1..], before)
    requires forall x :: x in after <==> x in before || (x >= 1 && Cell(rows[0], x - 1) != [])
    requires forall x :: x in after ==> after[x] == Get(before, x) + (if x >= 1 then Cell(rows[0], x - 1) else [])
    ensures Parsed(rows, after)
  {
    forall x ensures x in after <==> x >= 1 && Column(rows, x - 1) != [] {
      if x >= 1 {
        assert Column(rows, x - 1) == Column(rows[1..], x - 1) + Cell(rows[0], x - 1);
      }
    }
    forall x | x in after ensures x >= 1 && after[x] == Column(rows, x - 1) {
      assert Column(rows, x - 1) == Column(rows[1..], x - 1) + Cell(rows[0], x - 1);
      if x !in before {
        assert Column(rows[1..], x - 1) == [];
      }
    }
  }

  // ---------------------------------------------------------------- moves

  /** One `stacks[dest].append(stacks[src].pop())`: both keys are read, so
      both exist afterwards. */
  function PopPush(m: Stacks, src: int, dest: int): Stacks
    requires Get(m, src) != []
  {
    var s := Get(m, src);
    var m1 := m[src := s[..|s| - 1]];
    m1[dest := Get(m1, dest) + [s[|s| - 1]]]
  }

  /** The crane of part one: n single-crate moves; `pop` from an empty stack
      fails (IndexError). */
  function CrateByCrate(m: Stacks, n: nat, src: int, dest: int): Option<Stacks>
    decreases n
  {
    if n == 0 then Some(m)
    else if Get(m, src) == [] then None
    else CrateByCrate(PopPush(m, src, dest), n - 1, src, dest)
  }

  /** The slice `[-n:]`: the last n crates, except that `[-0:]` and any n of at
      least the stack height take the whole stack. */
  function TopBlock(s: seq<char>, n: nat): seq<char>
  {
    if n == 0 || n >= |s| then s else s[|s| - n..]
  }

  /** `del s[-n:]`, with the same reading of n as `TopBlock`. */
  function DropBlock(s: seq<char>, n: nat): seq<char>
  {
    if n == 0 || n >= |s| then [] else s[..|s| - n]
  }

  /** The crane of part two: `extend` dest with the top block of src, then
      delete the top block of (the updated) src. */
  function BlockMove(m: Stacks, n: nat, src: int, dest: int): Stacks
  {
    var m1 := m[dest := Get(m, dest) + TopBlock(Get(m, src), n)];
    m1[src := DropBlock(Get(m1, src), n)]
  }

  // ---------------------------------------------------------------- tops

  /** `_stack_tops`: the top crate of every stack, in ascending key order;
      an empty stack fails (IndexError). */
  function Tops(m: Stacks): (r: Option<string>)
    ensures r.Some? <==> forall i :: i in m ==> m[i] != []
    ensures r.Some? ==> TopsMatch(m, SortedKeys(m.Keys), r.value)
  {
    var keys := SortedKeys(m.Keys);
    KeysCover(m, keys);
    var r := TopsOf(m, keys);
    TopsOfAll(m, keys, r);
    r
  }

  /** The tops of the listed stacks, once the keys list every stack. */
  lemma TopsOfAll(m: Stacks, keys: seq<int>, r: Option<string>)
    requires forall t :: 0 <= t < |keys| ==> keys[t] in m
    requires (forall i :: i in m ==> m[i] != []) <==> (forall t :: 0 <= t < |keys| ==> m[keys[t]] != [])
    requires r == TopsOf(m, keys)
    ensures r.Some? <==> forall i :: i in m ==> m[i] != []
    ensures r.Some? ==> TopsMatch(m, keys, r.value)
  {
  }

  /** `tops` lists, key by key, the last crate of each listed stack. */
  ghost predicate TopsMatch(m: Stacks, keys: seq<int>, tops: string)
  {
    |tops| == |keys| &&
    forall t :: 0 <= t < |keys| ==> keys[t] in m && m[keys[t]] != [] && tops[t] == m[keys[t]][|m[keys[t]]| - 1]
  }

  /** Every stack is non-empty exactly when every listed key's stack is, once
      the keys list the stacks. */
  lemma KeysCover(m: Stacks, keys: seq<int>)
    requires forall x :: x in m <==> x in keys
    ensures forall t :: 0 <= t < |keys| ==> keys[t] in m
    ensures (forall i :: i in m ==> m[i] != []) <==> (forall t :: 0 <= t < |keys| ==> m[keys[t]] != [])
  {
    forall t | 0 <= t < |keys| ensures keys[t] in m {
      var x := keys[t];
      assert x in keys;
      assert x in m;
    }
    if forall t :: 0 <= t < |keys| ==> m[keys[t]] != [] {
      forall i | i in m ensures m[i] != [] {
        assert i in keys;
        var t :| 0 <= t < |keys| && keys[t] == i;
      }
    } else {
      var t :| 0 <= t < |keys| && m[keys[t]] == [];
      var x := keys[t];
      assert x in m && m[x] == [];
    }
  }

  function TopsOf(m: Stacks, keys: seq<int>): (r: Option<string>)
    requires forall t :: 0 <= t < |keys| ==> keys[t] in m
    ensures r.Some? <==> forall t :: 0 <= t < |keys| ==> m[keys[t]] != []
    ensures r.Some? ==>
      |r.value| == |keys| &&
      forall t :: 0 <= t < |keys| ==> r.value[t] == m[keys[t]][|m[keys[t]]| - 1]
  {
    if keys == [] then Some("")
    else
      var s := m[keys[0]];
      var rest := TopsOf(m, keys[1..]);
      if s == [] || rest.None? then None else Some([s[|s| - 1]] + rest.value)
  }

  // ---------------------------------------------------------------- the crane

  /** The stacks as the crane sees them, updated in place by the moves. */
  class Crane {
    var stacks: Stacks

    constructor(initial: Stacks)
      ensures stacks == initial
    {
      stacks := initial;
    }

    /** One move of part one, done crate by crate. */
    method MoveOneAtATime(n: nat, src: int, dest: int) returns (ok: bool)
      modifies this
      ensures ok <==> CrateByCrate(old(stacks), n, src, dest).Some?
      ensures ok ==> stacks == CrateByCrate(old(stacks), n, src, dest).value
    {
      var k := 0;
      while k < n
        invariant 0 <= k <= n
        invariant CrateByCrate(old(stacks), n, src, dest) ==
          CrateByCrate(stacks, n - k, src, dest)
      {
        if Get(stacks, src) == [] {
          return false;
        }
        stacks := PopPush(stacks, src, dest);
        k := k + 1;
      }
      ok := true;
    }

    /** One move of part two, the top block at once. */
    method MoveBlock(n: nat, src: int, dest: int)
      modifies this
      ensures stacks == BlockMove(old(stacks), n, src, dest)
    {
      var block := TopBlock(Get(stacks, src), n);
      stacks := stacks[dest := Get(stacks, dest) + block];
      stacks := stacks[src := DropBlock(Get(stacks, src), n)];
    }

    /** `part1`: all moves with the first crane, then the top crates. */
    method Part1(moves: seq<(nat, int, int)>) returns (r: Option<string>)
      modifies this
      ensures var after := ApplyOneAtATime(old(stacks), moves);
        r == (if after.None? then None else Tops(after.value))
    {
      var i := 0;
      while i < |moves|
        invariant 0 <= i <= |moves|
        invariant ApplyOneAtATime(old(stacks), moves) == ApplyOneAtATime(stacks, moves[i..])
      {
        var (n, src, dest) := moves[i];
        assert moves[i..][1..] == moves[i + 1..];
        var ok := MoveOneAtATime(n, src, dest);
        if !ok {
          return None;
        }
        i := i + 1;
      }
      r := Tops(stacks);
    }

    /** `part2`: all moves with the second crane, then the top crates. */
    method Part2(moves: seq<(nat, int, int)>) returns (r: Option<string>)
      modifies this
      ensures r == Tops(ApplyBlocks(old(stacks), moves))
    {
      var i := 0;
      while i < |moves|
        invariant 0 <= i <= |moves|
        invariant ApplyBlocks(old(stacks), moves) == ApplyBlocks(stacks, moves[i..])
      {
        var (n, src, dest) := moves[i];
        assert moves[i..][1..] == moves[i + 1..];
        MoveBlock(n, src, dest);
        i := i + 1;
      }
      r := Tops(stacks);
    }
  }

  function ApplyOneAtATime(m: Stacks, moves: seq<(nat, int, int)>): Option<Stacks>
    decreases |moves|
  {
    if moves == [] then Some(m)
    else
      var next := CrateByCrate(m, moves[0].0, moves[0].1, moves[0].2);
      if next.None? then None else ApplyOneAtATime(next.value, moves[1..])
  }

  function ApplyBlocks(m: Stacks, moves: seq<(nat, int, int)>): Stacks
    decreases |moves|
  {
    if moves == [] then m
    else ApplyBlocks(BlockMove(m, moves[0].0, moves[0].1, moves[0].2), moves[1..])
  }

  // ---------------------------------------------------------------- properties

  /** Part one's crane fails exactly when the source stack holds fewer than n
      crates. */
  lemma {:induction false} CrateByCrateDefined(m: Stacks, n: nat, src: int, dest: int)
    requires src != dest
    ensures CrateByCrate(m, n, src, dest).Some? <==> n <= |Get(m, src)|
    decreases n
  {
    if n > 0 && Get(m, src) != [] {
      var m1 := PopPush(m, src, dest);
      assert |Get(m1, src)| == |Get(m, src)| - 1;
      CrateByCrateDefined(m1, n - 1, src, dest);
    }
  }

  /** Otherwise it takes the top n crates off src and puts them on dest in
      reversed order, and no other stack changes. */
  lemma {:induction false} CrateByCrateEffect(m: Stacks, n: nat, src: int, dest: int)
    requires src != dest && n <= |Get(m, src)|
    ensures CrateByCrate(m, n, src, dest).Some?
    ensures var r := CrateByCrate(m, n, src, dest).value;
      var s := Get(m, src);
      Get(r, src) == s[..|s| - n] &&
      Get(r, dest) == Get(m, dest) + Reverse(s[|s| - n..])
    decreases n
  {
    CrateByCrateDefined(m, n, src, dest);
    var s := Get(m, src);
    if n == 0 {
      assert s[..|s|] == s && s[|s|..] == [];
      assert Reverse(s[|s|..]) == [];
      assert Get(m, dest) + [] == Get(m, dest);
    } else {
      assert s != [];
      var m1 := PopPush(m, src, dest);
      PopPushEffect(m, src, dest);
      assert CrateByCrate(m, n, src, dest) == CrateByCrate(m1, n - 1, src, dest);
      CrateByCrateEffect(m1, n - 1, src, dest);
      EffectStep(m, m1, CrateByCrate(m1, n - 1, src, dest).value, n, src, dest);
    }
  }

  /** The inductive step of CrateByCrateEffect: the first crate moved, and
      n - 1 more moved after it, leave the stacks as moving n at once does. */
  lemma EffectStep(m: Stacks, m1: Stacks, r: Stacks, n: nat, src: int, dest: int)
    requires 1 <= n <= |Get(m, src)|
    requires var s := Get(m, src);
      Get(m1, src) == s[..|s| - 1] && Get(m1, dest) == Get(m, dest) + [s[|s| - 1]]
    requires var s1 := Get(m1, src);
      Get(r, src) == s1[..|s1| - (n - 1)] &&
      Get(r, dest) == Get(m1, dest) + Reverse(s1[|s1| - (n - 1)..])
    ensures var s := Get(m, src);
      Get(r, src) == s[..|s| - n] && Get(r, dest) == Get(m, dest) + Reverse(s[|s| - n..])
  {
    TakeStep(Get(m, src), n, Get(m, dest));
  }

  /** One pop-and-push moves the top crate of src onto dest. */
  lemma PopPushEffect(m: Stacks, src: int, dest: int)
    requires src != dest && Get(m, src) != []
    ensures var s := Get(m, src); var m1 := PopPush(m, src, dest);
      Get(m1, src) == s[..|s| - 1] && Get(m1, dest) == Get(m, dest) + [s[|s| - 1]]
  {
  }

  /** Moving the top crate first and then n - 1 more, one at a time, gives the
      same stacks as moving n. */
  lemma TakeStep(s: seq<char>, n: nat, d: seq<char>)
    requires 1 <= n <= |s|
    ensures var s1 := s[..|s| - 1];
      s1[..|s1| - (n - 1)] == s[..|s| - n] &&
      (d + [s[|s| - 1]]) + Reverse(s1[|s1| - (n - 1)..]) == d + Reverse(s[|s| - n..])
  {
    var top := s[|s| - n..];
    PopSlices(s, n);
    ReverseLast(top);
    assert (d + [s[|s| - 1]]) + Reverse(top[..n - 1]) == d + ([s[|s| - 1]] + Reverse(top[..n - 1]));
  }

  /** Popping the top crate and then taking n - 1 more splits the stack as
      taking n at once does. */
  lemma PopSlices(s: seq<char>, n: nat)
    requires 1 <= n <= |s|
    ensures var s1 := s[..|s| - 1];
      s1[..|s1| - (n - 1)] == s[..|s| - n] &&
      s1[|s1| - (n - 1)..] == s[|s| - n..][..n - 1] &&
      s[|s| - n..][n - 1] == s[|s| - 1]
  {
  }

  /** Reversal puts the last entry first. */
  lemma ReverseLast(s: seq<char>)
    requires s != []
    ensures Reverse(s) == [s[|s| - 1]] + Reverse(s[..|s| - 1])
  {
  }

  /** Part one's crane leaves every stack other than src and dest as it was. */
  lemma {:induction false} CrateByCrateFrame(m: Stacks, n: nat, src: int, dest: int, i: int)
    requires i != src && i != dest && CrateByCrate(m, n, src, dest).Some?
    ensures var r := CrateByCrate(m, n, src, dest).value;
      Get(r, i) == Get(m, i) && (i in r <==> i in m)
    decreases n
  {
    if n > 0 {
      CrateByCrateFrame(PopPush(m, src, dest), n - 1, src, dest, i);
    }
  }

  /** Part two's crane moves the top n crates (all of them for n = 0 or n at
      least the height) from src to dest in their original order; the total
      number of crates on the two stacks is unchanged, and no other stack changes. */
  lemma MoveBlockEffect(m: Stacks, n: nat, src: int, dest: int)
    requires src != dest
    ensures var r := BlockMove(m, n, src, dest);
      var s := Get(m, src);
      (0 < n <= |s| ==> Get(r, src) + Get(r, dest)[|Get(m, dest)|..] == s) &&
      (0 < n <= |s| ==> Get(r, dest) == Get(m, dest) + s[|s| - n..]) &&
      ((n == 0 || n >= |s|) ==> Get(r, src) == [] && Get(r, dest) == Get(m, dest) + s) &&
      |Get(r, src)| + |Get(r, dest)| == |s| + |Get(m, dest)| &&
      forall i :: i != src && i != dest ==> Get(r, i) == Get(m, i) && (i in r <==> i in m)
  {
    var s := Get(m, src);
    if 0 < n < |s| {
      assert s[..|s| - n] + s[|s| - n..] == s;
    }
  }

  /** Moving a block of 1..height crates from a stack onto itself changes
      nothing, while `[-0:]` doubles the stack and then deletes all of it. */
  lemma MoveBlockSameStack(m: Stacks, n: nat, src: int)
    requires n <= |Get(m, src)|
    ensures var r := BlockMove(m, n, src, src);
      Get(r, src) == (if n == 0 then [] else Get(m, src))
  {
    var s := Get(m, src);
    var doubled := s + TopBlock(s, n);
    if n > 0 {
      assert doubled[..|doubled| - n] == s;
    }
  }
}
