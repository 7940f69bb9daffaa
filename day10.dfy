/** Cathode-ray tube: a CPU with one register X, starting at 1. `noop` takes
    one cycle; `addx n` takes two and adds n at the end of the second. The
    program becomes a list with one entry per cycle: the amount added to X at
    the end of that cycle. */
module Day10 {
  import opened Common

  /** The entries one line contributes: `noop` one 0, `addx n` a 0 and then
      n; a line matching neither is skipped; a bad number fails (ValueError). */
  function LineOps(tokens: seq<string>): Option<seq<int>>
  {
    if tokens == ["noop"] then Some([0])
    else if |tokens| == 2 && tokens[0] == "addx" then
      var n := ParseInt(tokens[1]);
      if n.None? then None else Some([0, n.value])
    else Some([])
  }

  /** Reference definition of `parse`. */
  function Program(lines: seq<seq<string>>): Option<seq<int>>
  {
    if lines == [] then Some([])
    else
      var init := Program(lines[..|lines| - 1]);
      var last := LineOps(lines[|lines| - 1]);
      if init.None? || last.None? then None else Some(init.value + last.value)
  }

  /** `parse`: the loop appending to `add_ops`. */
  method Parse(lines: seq<seq<string>>) returns (r: Option<seq<int>>)
    ensures r == Program(lines)
  {
    var ops: seq<int> := [];
    var i := 0;
    while i < |lines|
      invariant 0 <= i <= |lines|
      invariant Program(lines[..i]) == Some(ops)
    {
      assert lines[..i + 1][..i] == lines[..i];
      var tokens := lines[i];
      assert lines[..i + 1][i] == tokens;
      ghost var piece := LineOps(tokens);
      assert Program(lines[..i + 1]) == if piece.None? then None else Some(ops + piece.value);
      if tokens == ["noop"] {
        ops := ops + [0];
      } else if |tokens| == 2 && tokens[0] == "addx" {
        var n := ParseInt(tokens[1]);
        if n.None? {
          assert Program(lines[..i + 1]).None?;
          ProgramFails(lines, i + 1);
          assert lines[..|lines|] == lines;
          return None;
        }
        ops := ops + [0, n.value];
      } else {
        assert ops + piece.value == ops;
      }
      i := i + 1;
    }
    assert lines[..|lines|] == lines;
    r := Some(ops);
  }

  /** A failure stays a failure when more lines follow. */
  lemma {:induction false} ProgramFails(lines: seq<seq<string>>, n: nat)
    requires n <= |lines| && Program(lines[..n]).None?
    ensures Program(lines).None?
    decreases |lines| - n
  {
    if n < |lines| {
      assert lines[..n + 1][..n] == lines[..n];
      ProgramFails(lines, n + 1);
    } else {
      assert lines[..n] == lines;
    }
  }

  /** `np.cumsum`: running totals. */
  function CumSum(s: seq<int>): (r: seq<int>)
    ensures |r| == |s|
  {
    if s == [] then [] else var init := CumSum(s[..|s| - 1]); init + [(if init == [] then 0 else init[|init| - 1]) + s[|s| - 1]]
  }

  /** `np.cumsum([1] + add_ops)`: entry i is the register during cycle i + 1. */
  function RegisterValues(ops: seq<int>): (r: seq<int>)
    ensures |r| == |ops| + 1
  {
    CumSum([1] + ops)
  }

  /** The register during cycle c (counting from 1): the start value plus
      every amount added in the cycles before. */
  function X(ops: seq<int>, c: nat): int
    requires 1 <= c <= |ops| + 1
  {
    1 + Sum(ops[..c - 1])
  }


  /** `part1`: `register_values[19:220:40] * np.arange(20, 221, 40)` summed.
      The slice stops at the end of the array; six entries give the signal
      strength, a single entry is broadcast against all six cycle numbers, and
      any other count cannot be broadcast (ValueError). */
  function Part1(ops: seq<int>): (r: Option<int>)
  {
    var values := RegisterValues(ops);
    var n := |values|;
    if n >= 220 then
      Some(20 * values[19] + 60 * values[59] + 100 * values[99] + 140 * values[139] + 180 * values[179] + 220 * values[219])
    else if 20 <= n <= 59 then
      Some(values[19] * (20 + 60 + 100 + 140 + 180 + 220))
    else None
  }

  /** The cathode ray's column during cycle c: `crt_pos`. */
  function Column(c: nat): nat
    requires c >= 1
  {
    (c - 1) % 40
  }

  /** `sprite_visible`: the pixel drawn during cycle c is lit when the
      sprite, three pixels wide and centred on X, covers the ray's column. */
  predicate Lit(ops: seq<int>, c: nat)
    requires 1 <= c <= |ops| + 1
  {
    var sprite := RegisterValues(ops)[c - 1];
    var crt := Column(c);
    crt >= sprite - 1 && crt <= sprite + 1
  }

  /** `sprite_visible[:240].reshape(6, 40)`: six rows of forty pixels;
      fewer than 240 cycles cannot be reshaped (ValueError). */
  function Image(ops: seq<int>): (r: Option<seq<seq<bool>>>)
    ensures r.Some? <==> |ops| + 1 >= 240
    ensures r.Some? ==> |r.value| == 6 && forall row :: 0 <= row < 6 ==> |r.value[row]| == 40
    ensures r.Some? ==> forall row, col :: 0 <= row < 6 && 0 <= col < 40 ==>
      r.value[row][col] == Lit(ops, 40 * row + col + 1)
  {
    if |ops| + 1 < 240 then None
    else Some(seq(6, row requires 0 <= row < 6 => seq(40, col requires 0 <= col < 40 => Lit(ops, 40 * row + col + 1))))
  }

  // ---------------------------------------------------------------- properties

  /** Each valid line takes as many entries as its instruction takes cycles. */
  lemma LineCycles(tokens: seq<string>)
    requires LineOps(tokens).Some?
    ensures tokens == ["noop"] ==> LineOps(tokens).value == [0]
    ensures |tokens| == 2 && tokens[0] == "addx" ==>
      |LineOps(tokens).value| == 2 && LineOps(tokens).value[0] == 0 &&
      LineOps(tokens).value[1] == ParseInt(tokens[1]).value
  {
  }

  /** Program length: one entry per `noop`, two per `addx`. */
  function Cycles(lines: seq<seq<string>>): nat
  {
    if lines == [] then 0
    else
      var t := lines[|lines| - 1];
      Cycles(lines[..|lines| - 1]) + (if t == ["noop"] then 1 else if |t| == 2 && t[0] == "addx" then 2 else 0)
  }

  lemma {:induction false} ProgramLength(lines: seq<seq<string>>)
    requires Program(lines).Some?
    ensures |Program(lines).value| == Cycles(lines)
    decreases |lines|
  {
    if lines != [] {
      ProgramLength(lines[..|lines| - 1]);
    }
  }

  /** Entry i of `np.cumsum` is the sum of the first i + 1 entries. */
  lemma {:induction false} CumSumIsPrefixSum(s: seq<int>)
    ensures forall i :: 0 <= i < |s| ==> CumSum(s)[i] == Sum(s[..i + 1])
    decreases |s|
  {
    if s != [] {
      var init := s[..|s| - 1];
      CumSumIsPrefixSum(init);
      assert s[..|s|] == s;
      forall i | 0 <= i < |s| ensures CumSum(s)[i] == Sum(s[..i + 1]) {
        if i < |s| - 1 {
          assert init[..i + 1] == s[..i + 1];
        } else if i > 0 {
          assert s[..i] == init[..i];
          assert s[..i + 1][..i] == s[..i];
        }
      }
    }
  }

  /** The entry for cycle c is the register during that cycle. */
  lemma RegisterDuringCycle(ops: seq<int>, c: nat)
    requires 1 <= c <= |ops| + 1
    ensures RegisterValues(ops)[c - 1] == X(ops, c)
  {
    var s := [1] + ops;
    CumSumIsPrefixSum(s);
    SumPrepend(1, ops[..c - 1]);
    assert s[..c] == [1] + ops[..c - 1];
  }

  lemma {:induction false} SumPrepend(x: int, s: seq<int>)
    ensures Sum([x] + s) == x + Sum(s)
    decreases |s|
  {
    if s != [] {
      var init := s[..|s| - 1];
      SumPrepend(x, init);
      assert ([x] + s)[..|s|] == [x] + init;
    }
  }

  /** With at least 220 cycles, part one is the sum of c · X(c) over the
      probed cycles. */
  lemma Part1SignalStrength(ops: seq<int>)
    requires |ops| + 1 >= 220
    ensures Part1(ops) == Some(20 * X(ops, 20) + 60 * X(ops, 60) + 100 * X(ops, 100) +
      140 * X(ops, 140) + 180 * X(ops, 180) + 220 * X(ops, 220))
  {
    RegisterDuringCycle(ops, 20);
    RegisterDuringCycle(ops, 60);
    RegisterDuringCycle(ops, 100);
    RegisterDuringCycle(ops, 140);
    RegisterDuringCycle(ops, 180);
    RegisterDuringCycle(ops, 220);
  }

  /** With 20 to 59 entries the single probed value is broadcast: 720 · X(20). */
  lemma Part1Broadcast(ops: seq<int>)
    requires 19 <= |ops| <= 58
    ensures Part1(ops) == Some(720 * X(ops, 20))
  {
    RegisterDuringCycle(ops, 20);
  }

  /** A pixel is lit exactly when X is within one of the ray's column. */
  lemma LitMeaning(ops: seq<int>, c: nat)
    requires 1 <= c <= |ops| + 1
    ensures Lit(ops, c) <==> -1 <= (c - 1) % 40 - X(ops, c) <= 1
  {
    RegisterDuringCycle(ops, c);
  }
}
