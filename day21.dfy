/** Monkey math: every monkey either yells a number or combines the numbers
    of two other monkeys with +, -, * or /. Part 1 evaluates "root"; part 2
    drops "humn", treats "root" as an equality, and walks from "root" down to
    "humn" inverting one operation at each step. */
module Day21 {
  import opened Common

  const Root := "root"
  const Human := "humn"

  /** A parsed job: a constant, a `(left, op, right)` triple, or a tuple of
      some other length, which the builder silently skips. */
  datatype Job =
    | Number(n: int)
    | Op(left: string, op: string, right: string)
    | Odd(parts: seq<string>)

  // ------------------------------------------------------------- splitting

  predicate OccursAt(s: string, sep: string, i: nat)
  {
    i + |sep| <= |s| && s[i..i + |sep|] == sep
  }

  /** The first position where `sep` occurs in `s`. */
  function FindSep(s: string, sep: string): (r: Option<nat>)
    requires sep != []
    ensures r.Some? ==> OccursAt(s, sep, r.value)
    ensures r.Some? ==> forall i :: 0 <= i < r.value ==> !OccursAt(s, sep, i)
    ensures r.None? ==> forall i :: 0 <= i <= |s| ==> !OccursAt(s, sep, i)
    decreases |s|
  {
    if |s| < |sep| then None
    else if s[..|sep|] == sep then Some(0)
    else
      match FindSep(s[1..], sep)
      case None =>
        assert forall i :: 1 <= i <= |s| && OccursAt(s, sep, i) ==> OccursAt(s[1..], sep, i - 1) by {
          forall i | 1 <= i <= |s| && OccursAt(s, sep, i)
            ensures OccursAt(s[1..], sep, i - 1)
          {
            assert s[1..][i - 1..i - 1 + |sep|] == s[i..i + |sep|];
          }
        }
        None
      case Some(k) =>
        assert s[1..][k..k + |sep|] == s[k + 1..k + 1 + |sep|];
        assert forall i :: 1 <= i <= k && OccursAt(s, sep, i) ==> OccursAt(s[1..], sep, i - 1) by {
          forall i | 1 <= i <= k && OccursAt(s, sep, i)
            ensures OccursAt(s[1..], sep, i - 1)
          {
            assert s[1..][i - 1..i - 1 + |sep|] == s[i..i + |sep|];
          }
        }
        Some(k + 1)
  }

  /** Python's `str.split(sep)`: cut at every occurrence of `sep`, scanning
      from the left; there is one more piece than cuts. */
  function Split(s: string, sep: string): (parts: seq<string>)
    requires sep != []
    ensures |parts| >= 1
    decreases |s|
  {
    match FindSep(s, sep)
    case None => [s]
    case Some(k) => [s[..k]] + Split(s[k + |sep|..], sep)
  }

  function Join(parts: seq<string>, sep: string): string
  {
    if |parts| <= 1 then (if parts == [] then "" else parts[0])
    else parts[0] + sep + Join(parts[1..], sep)
  }

  /** Joining the pieces with the separator gives back the text. */
  lemma {:induction false} SplitJoin(s: string, sep: string)
    requires sep != []
    ensures Join(Split(s, sep), sep) == s
    decreases |s|
  {
    match FindSep(s, sep)
    case None =>
    case Some(k) =>
      var tail := s[k + |sep|..];
      SplitJoin(tail, sep);
      var rest := Split(tail, sep);
      var parts := [s[..k]] + rest;
      assert Split(s, sep) == parts;
      assert parts[1..] == rest;
      assert Join(parts, sep) == s[..k] + sep + Join(rest, sep);
      assert s[k..k + |sep|] == sep;
      Reassemble(s, k, |sep|);
  }

  /** A text is its prefix, a middle piece and the rest, put back together. */
  lemma Reassemble(s: string, k: nat, n: nat)
    requires k + n <= |s|
    ensures s[..k] + s[k..k + n] + s[k + n..] == s
  {
  }

  /** No piece of a split contains the separator. */
  lemma {:induction false} SplitPieces(s: string, sep: string)
    requires sep != []
    ensures forall p :: p in Split(s, sep) ==> FindSep(p, sep).None?
    decreases |s|
  {
    match FindSep(s, sep)
    case None =>
    case Some(k) =>
      var tail := s[k + |sep|..];
      SplitPieces(tail, sep);
      assert Split(s, sep) == [s[..k]] + Split(tail, sep);
      var head := s[..k];
      forall j | 0 <= j <= |head| ensures !OccursAt(head, sep, j) {
        if j + |sep| <= |head| {
          assert j < k && !OccursAt(s, sep, j);
          assert head[j..j + |sep|] == s[j..j + |sep|];
        }
      }
      assert FindSep(head, sep).None?;
  }

  // --------------------------------------------------------------- parsing

  /** The job text after the colon: a number when `int()` accepts it,
      otherwise the pieces between single spaces (`split(" ")`): exactly
      three pieces are an operation, any other count is kept as it is. The
      pieces join back to the text and none of them holds a space. */
  function JobOf(text: string): (j: Job)
    ensures j.Number? <==> ParseInt(text).Some?
    ensures j.Number? ==> j.n == ParseInt(text).value
    ensures j.Op? ==> [j.left, j.op, j.right] == Split(text, " ")
    ensures j.Odd? ==> |j.parts| != 3 && j.parts == Split(text, " ")
    ensures j.Op? ==> Join([j.left, j.op, j.right], " ") == text
    ensures j.Op? ==> FindSep(j.left, " ").None? && FindSep(j.op, " ").None? && FindSep(j.right, " ").None?
    ensures j.Odd? ==> Join(j.parts, " ") == text
    ensures j.Odd? ==> forall p :: p in j.parts ==> FindSep(p, " ").None?
  {
    if ParseInt(text).Some? then Number(ParseInt(text).value)
    else
      var w := Split(text, " ");
      SplitJoin(text, " ");
      SplitPieces(text, " ");
      if |w| == 3 then
        assert w == [w[0], w[1], w[2]];
        assert w[0] in w && w[1] in w && w[2] in w;
        Op(w[0], w[1], w[2])
      else Odd(w)
  }

  /** One line: the name before ": " and its job; a line that does not split
      into exactly two pieces fails (ValueError). */
  function ParseLine(line: string): Option<(string, Job)>
  {
    var p := Split(line, ": ");
    if |p| == 2 then Some((p[0], JobOf(p[1]))) else None
  }

  /** A parsed line is its name, ": " and the text of its job. */
  lemma ParseLineSplits(line: string)
    requires ParseLine(line).Some?
    ensures exists text: string ::
      line == ParseLine(line).value.0 + ": " + text && ParseLine(line).value.1 == JobOf(text)
  {
    var p := Split(line, ": ");
    SplitJoin(line, ": ");
    assert p == [p[0]] + [p[1]];
    assert line == p[0] + ": " + p[1];
  }

  /** The monkeys of the first lines, a later line for the same name
      replacing an earlier one. */
  function Monkeys(lines: seq<string>): (r: Option<map<string, Job>>)
    ensures r.Some? <==> forall i :: 0 <= i < |lines| ==> ParseLine(lines[i]).Some?
    ensures r.Some? && lines != [] ==>
      var last := ParseLine(lines[|lines| - 1]).value;
      last.0 in r.value && r.value[last.0] == last.1
  {
    if lines == [] then Some(map[])
    else
      var init := lines[..|lines| - 1];
      assert forall i :: 0 <= i < |init| ==> init[i] == lines[i];
      var prev := Monkeys(init);
      var line := ParseLine(lines[|lines| - 1]);
      if prev.None? || line.None? then None
      else Some(prev.value[line.value.0 := line.value.1])
  }

  /** Every parsed name is a key of the table. */
  lemma {:induction false} MonkeysNames(lines: seq<string>)
    requires Monkeys(lines).Some?
    ensures forall i :: 0 <= i < |lines| ==> ParseLine(lines[i]).value.0 in Monkeys(lines).value
  {
    if lines != [] {
      var n := |lines| - 1;
      var init := lines[..n];
      assert forall i :: 0 <= i < n ==> init[i] == lines[i];
      assert Monkeys(init).Some?;
      MonkeysNames(init);
      var prev := Monkeys(init).value;
      var last := ParseLine(lines[n]).value;
      var m := Monkeys(lines).value;
      assert m == prev[last.0 := last.1];
      forall i | 0 <= i < |lines| ensures ParseLine(lines[i]).value.0 in m {
        var key := ParseLine(lines[i]).value.0;
        if i < n {
          assert lines[i] == init[i];
          assert key in prev;
        } else {
          assert i == n;
        }
        KeptKey(prev, key, last.0, last.1);
      }
    }
  }

  /** Line i holds the last job stated for its name. */
  ghost predicate LastFor(lines: seq<string>, i: nat)
    requires i < |lines| && forall k :: 0 <= k < |lines| ==> ParseLine(lines[k]).Some?
  {
    forall j :: i < j < |lines| ==> ParseLine(lines[j]).value.0 != ParseLine(lines[i]).value.0
  }

  /** The table holds exactly the names of the lines: `MonkeysNames` gives
      one direction, and here every key is the name of some line. */
  lemma {:induction false} MonkeysKeys(lines: seq<string>)
    requires Monkeys(lines).Some?
    ensures forall name :: name in Monkeys(lines).value ==>
      exists i :: 0 <= i < |lines| && ParseLine(lines[i]).value.0 == name
  {
    if lines != [] {
      var n := |lines| - 1;
      var init := lines[..n];
      assert forall i :: 0 <= i < n ==> init[i] == lines[i];
      assert Monkeys(init).Some?;
      MonkeysKeys(init);
      var prev := Monkeys(init).value;
      var last := ParseLine(lines[n]).value;
      var m := Monkeys(lines).value;
      assert m == prev[last.0 := last.1];
      forall name | name in m
        ensures exists i :: 0 <= i < |lines| && ParseLine(lines[i]).value.0 == name
      {
        if name != last.0 {
          assert name in prev;
          var i :| 0 <= i < n && ParseLine(init[i]).value.0 == name;
          assert ParseLine(lines[i]).value.0 == name;
        } else {
          assert ParseLine(lines[n]).value.0 == name;
        }
      }
    }
  }

  /** Each name maps to the job of the last line that states it:
      `monkeys[name] = ...` runs in line order, a later line overwriting an
      earlier one. */
  lemma MonkeysLastWins(lines: seq<string>)
    requires Monkeys(lines).Some?
    ensures forall i :: 0 <= i < |lines| && LastFor(lines, i) ==>
      ParseLine(lines[i]).value.0 in Monkeys(lines).value &&
      Monkeys(lines).value[ParseLine(lines[i]).value.0] == ParseLine(lines[i]).value.1
  {
    forall i | 0 <= i < |lines| && LastFor(lines, i)
      ensures ParseLine(lines[i]).value.0 in Monkeys(lines).value
      ensures Monkeys(lines).value[ParseLine(lines[i]).value.0] == ParseLine(lines[i]).value.1
    {
      LastWinsAt(lines, i);
    }
  }

  lemma {:induction false} LastWinsAt(lines: seq<string>, i: nat)
    requires Monkeys(lines).Some? && i < |lines| && LastFor(lines, i)
    ensures ParseLine(lines[i]).value.0 in Monkeys(lines).value
    ensures Monkeys(lines).value[ParseLine(lines[i]).value.0] == ParseLine(lines[i]).value.1
  {
    var n := |lines| - 1;
    var init := lines[..n];
    assert forall k :: 0 <= k < n ==> init[k] == lines[k];
    assert Monkeys(init).Some?;
    var prev := Monkeys(init).value;
    var last := ParseLine(lines[n]).value;
    var m := Monkeys(lines).value;
    assert m == prev[last.0 := last.1];
    var here := ParseLine(lines[i]).value;
    if i == n {
      assert here == last;
    } else {
      assert here.0 != last.0;
      assert LastFor(init, i) by {
        forall j | i < j < n
          ensures ParseLine(init[j]).value.0 != ParseLine(init[i]).value.0
        {
        }
      }
      LastWinsAt(init, i);
      assert ParseLine(init[i]).value == here;
      assert here.0 in prev && prev[here.0] == here.1;
      KeptEntry(prev, here.0, last.0, last.1);
    }
  }

  /** A write to another key keeps an entry. */
  lemma KeptEntry<K, V>(m: map<K, V>, key: K, k: K, v: V)
    requires key in m && key != k
    ensures key in m[k := v] && m[k := v][key] == m[key]
  {
  }

  /** A key of a map, or the key written, is a key after the write. */
  lemma KeptKey<K, V>(m: map<K, V>, key: K, k: K, v: V)
    requires key in m || key == k
    ensures key in m[k := v]
  {
  }

  /** `parse`: the loop over the lines storing each job under its name. */
  method Parse(lines: seq<string>) returns (r: Option<map<string, Job>>)
    ensures r == Monkeys(lines)
  {
    var monkeys: map<string, Job> := map[];
    var i := 0;
    while i < |lines|
      invariant 0 <= i <= |lines|
      invariant Monkeys(lines[..i]) == Some(monkeys)
    {
      assert lines[..i + 1][..i] == lines[..i];
      var line := ParseLine(lines[i]);
      if line.None? {
        assert Monkeys(lines[..i + 1]) == None;
        MonkeysFail(lines, i + 1);
        return None;
      }
      monkeys := monkeys[line.value.0 := line.value.1];
      i := i + 1;
    }
    assert lines[..i] == lines;
    r := Some(monkeys);
  }

  /** Once a prefix fails to parse, the whole input does. */
  lemma MonkeysFail(lines: seq<string>, k: nat)
    requires k <= |lines| && Monkeys(lines[..k]).None?
    ensures Monkeys(lines).None?
  {
    var i :| 0 <= i < k && ParseLine(lines[..k][i]).None?;
    assert lines[..k][i] == lines[i];
  }

  // ---------------------------------------------------------- construction

  predicate KnownOperator(op: string)
  {
    op == "+" || op == "-" || op == "*" || op == "/"
  }

  /** The table of `_construct_top_down_solving_functions`, each callable
      represented by its job: constants and triples are kept, other tuples are
      skipped, and a triple whose operator is not one of the four makes the
      construction fail (KeyError in OPERATORS). */
  function Built(eqs: map<string, Job>): (r: Option<map<string, Job>>)
    ensures r.Some? <==> forall k :: k in eqs && eqs[k].Op? ==> KnownOperator(eqs[k].op)
    ensures r.Some? ==> forall k :: k in r.value <==> k in eqs && !eqs[k].Odd?
    ensures r.Some? ==> forall k :: k in r.value ==> r.value[k] == eqs[k]
  {
    if forall k :: k in eqs && eqs[k].Op? ==> KnownOperator(eqs[k].op) then
      Some(map k | k in eqs && !eqs[k].Odd? :: eqs[k])
    else None
  }

  /** The builder loop, visiting the names in any order. */
  method Construct(eqs: map<string, Job>) returns (r: Option<map<string, Job>>)
    ensures r == Built(eqs)
  {
    var todo := eqs.Keys;
    var top: map<string, Job> := map[];
    while todo != {}
      invariant todo <= eqs.Keys
      invariant top == map k | k in eqs && k !in todo && !eqs[k].Odd? :: eqs[k]
      invariant forall k :: k in eqs && k !in todo && eqs[k].Op? ==> KnownOperator(eqs[k].op)
      decreases |todo|
    {
      var k :| k in todo;
      match eqs[k] {
        case Number(_) =>
          top := top[k := eqs[k]];
        case Op(_, op, _) =>
          if !KnownOperator(op) {
            assert eqs[k].Op? && !KnownOperator(eqs[k].op);
            return None;
          }
          top := top[k := eqs[k]];
        case Odd(_) =>
      }
      todo := todo - {k};
    }
    assert top == map k | k in eqs && !eqs[k].Odd? :: eqs[k];
    r := Some(top);
  }

  // ------------------------------------------------------------ evaluation

  /** What calling a monkey's function gives: a number, or the exception it
      raises. `Exhausted` stands for running out of recursion depth. */
  datatype Outcome = Val(v: int) | Missing | DivByZero | Exhausted

  function Abs(x: int): nat
  {
    if x < 0 then -x else x
  }

  /** `int(a / b)`: true division truncated toward zero. */
  function TruncDiv(a: int, b: int): int
    requires b != 0
  {
    if (a < 0) == (b < 0) then Abs(a) / Abs(b) else -(Abs(a) / Abs(b))
  }

  /** Python's `//`: division rounded toward negative infinity. */
  function FloorDiv(a: int, b: int): (q: int)
    requires b != 0
    ensures b > 0 ==> q * b <= a < q * b + b
    ensures b < 0 ==> q * b >= a > q * b + b
  {
    if b > 0 then a / b else (-a) / (-b)
  }

  /** Euclidean division by a positive divisor undoes a multiplication. */
  lemma MulDivCancel(k: int, b: int)
    requires b > 0
    ensures (k * b) / b == k
  {
    var d := (k * b) / b;
    var r := (k * b) % b;
    assert k * b == d * b + r;
    assert (k - d) * b == r;
    if k - d >= 1 {
      assert false;
    } else if k - d <= -1 {
      assert false;
    }
  }

  lemma MulSign(k: int, b: int)
    requires k > 0 && b != 0
    ensures (k * b < 0) == (b < 0)
  {
  }

  lemma AbsMul(k: int, b: int)
    ensures Abs(k * b) == Abs(k) * Abs(b)
  {
    if k < 0 && b >= 0 {
      assert k * b == -((-k) * b);
    } else if k >= 0 && b < 0 {
      assert k * b == -(k * (-b));
    } else if k < 0 && b < 0 {
      assert k * b == (-k) * (-b);
    }
  }

  /** Truncating division undoes a multiplication. */
  lemma TruncDivExact(k: int, b: int)
    requires b != 0
    ensures TruncDiv(k * b, b) == k
  {
    AbsMul(k, b);
    MulDivCancel(Abs(k), Abs(b));
    if k > 0 {
      MulSign(k, b);
    } else if k < 0 {
      MulSign(-k, b);
      assert k * b == -((-k) * b);
    } else {
      assert k * b == 0;
    }
  }

  /** So does floor division. */
  lemma FloorDivExact(k: int, b: int)
    requires b != 0
    ensures FloorDiv(k * b, b) == k
  {
    if b > 0 {
      MulDivCancel(k, b);
    } else {
      assert -(k * b) == k * (-b);
      MulDivCancel(k, -b);
    }
  }

  /** `_expr`'s `int(op(left, right))`. An operator outside the four fails
      (it cannot occur in a built table). */
  function Apply(op: string, a: int, b: int): (r: Outcome)
    ensures r.Val? || r.Missing? || r.DivByZero?
    ensures r.DivByZero? <==> op == "/" && b == 0
    ensures r.Missing? <==> !KnownOperator(op)
  {
    if op == "+" then Val(a + b)
    else if op == "-" then Val(a - b)
    else if op == "*" then Val(a * b)
    else if op == "/" then (if b == 0 then DivByZero else Val(TruncDiv(a, b)))
    else Missing
  }

  /** Calling `top_down[name]()` with `fuel` levels of recursion left: a
      missing name raises KeyError, the left operand is evaluated before the
      right one, and the first exception wins. */
  function Eval(m: map<string, Job>, name: string, fuel: nat): (r: Outcome)
    ensures r.Val? && fuel > 0 && name in m && m[name].Number? ==> r.v == m[name].n
    ensures r.Val? ==> name in m && !m[name].Odd?
    decreases fuel
  {
    if fuel == 0 then Exhausted
    else if name !in m then Missing
    else
      match m[name]
      case Number(n) => Val(n)
      case Odd(_) => Missing
      case Op(left, op, right) =>
        var a := Eval(m, left, fuel - 1);
        if !a.Val? then a
        else
          var b := Eval(m, right, fuel - 1);
          if !b.Val? then b
          else Apply(op, a.v, b.v)
  }

  /** More recursion depth never changes an outcome that did not run out of
      depth. */
  lemma {:induction false} EvalMono(m: map<string, Job>, name: string, f: nat, g: nat)
    requires f <= g && !Eval(m, name, f).Exhausted?
    ensures Eval(m, name, g) == Eval(m, name, f)
    decreases f
  {
    if name in m && m[name].Op? {
      var job := m[name];
      EvalMono(m, job.left, f - 1, g - 1);
      if Eval(m, job.left, f - 1).Val? {
        EvalMono(m, job.right, f - 1, g - 1);
      }
    }
  }

  /** Adding a monkey that was missing does not change a value that was
      computed without it. */
  lemma {:induction false} EvalExtend(m: map<string, Job>, name: string, f: nat, k: string, j: Job)
    requires k !in m && Eval(m, name, f).Val?
    ensures Eval(m[k := j], name, f) == Eval(m, name, f)
    decreases f
  {
    if m[name].Op? {
      var job := m[name];
      assert m[k := j][name] == job;
      EvalExtend(m, job.left, f - 1, k, j);
      EvalExtend(m, job.right, f - 1, k, j);
    }
  }

  /** `part1`: build the table and call the function of "root". */
  method Part1(monkeys: map<string, Job>, fuel: nat) returns (r: Option<int>)
    ensures r.Some? <==> Built(monkeys).Some? && Eval(Built(monkeys).value, Root, fuel).Val?
    ensures r.Some? ==> r.value == Eval(Built(monkeys).value, Root, fuel).v
  {
    var table := Construct(monkeys);
    if table.None? {
      return None;
    }
    var out := Eval(table.value, Root, fuel);
    if out.Val? {
      r := Some(out.v);
    } else {
      r := None;
    }
  }

  // --------------------------------------------------------------- solving

  /** The value the unknown left operand must have so that `x op known`
      yields `v`, by the rules of `_solve`; none when `//` would divide by 0. */
  function LeftCandidate(op: string, v: int, known: int): Option<int>
  {
    if op == "=" then Some(known)
    else if op == "+" then Some(v - known)
    else if op == "-" then Some(v + known)
    else if op == "*" then (if known == 0 then None else Some(FloorDiv(v, known)))
    else if op == "/" then Some(v * known)
    else None
  }

  /** The value the unknown right operand must have so that `known op x`
      yields `v`. */
  function RightCandidate(op: string, v: int, known: int): Option<int>
  {
    if op == "=" then Some(known)
    else if op == "+" then Some(v - known)
    else if op == "-" then Some(known - v)
    else if op == "*" then (if known == 0 then None else Some(FloorDiv(v, known)))
    else if op == "/" then (if v == 0 then None else Some(FloorDiv(known, v)))
    else None
  }

  /** A product leaves no remainder. */
  lemma MulMod(k: int, b: int)
    requires b != 0
    ensures (k * b) % b == 0
  {
    var d := (k * b) / b;
    var r := (k * b) % b;
    assert k * b == d * b + r;
    assert (k - d) * b == r;
    if k - d >= 1 {
      AbsMul(k - d, b);
      assert false;
    } else if k - d <= -1 {
      AbsMul(k - d, b);
      assert false;
    }
  }

  /** The left inversion rules: addition and subtraction are always undone,
      division is undone by a non-zero divisor, and multiplication exactly
      when the known factor divides the target. */
  lemma LeftInverse(op: string, v: int, known: int)
    ensures op == "+" || op == "-" ==> Apply(op, LeftCandidate(op, v, known).value, known) == Val(v)
    ensures op == "/" && known != 0 ==> Apply(op, LeftCandidate(op, v, known).value, known) == Val(v)
    ensures op == "*" && known != 0 ==>
      (Apply(op, LeftCandidate(op, v, known).value, known) == Val(v) <==> v % known == 0)
  {
    if op == "/" && known != 0 {
      TruncDivExact(v, known);
    }
    if op == "*" && known != 0 {
      var x := FloorDiv(v, known);
      if v % known == 0 {
        assert v == (v / known) * known;
        FloorDivExact(v / known, known);
      }
      MulMod(x, known);
    }
  }

  /** The right inversion rules: addition and subtraction are always undone;
      multiplication exactly when the known factor divides the target;
      division when the target divides the non-zero dividend. */
  lemma RightInverse(op: string, v: int, known: int)
    ensures op == "+" || op == "-" ==> Apply(op, known, RightCandidate(op, v, known).value) == Val(v)
    ensures op == "*" && known != 0 ==>
      (Apply(op, known, RightCandidate(op, v, known).value) == Val(v) <==> v % known == 0)
    ensures op == "/" && v != 0 && known != 0 && known % v == 0 ==>
      Apply(op, known, RightCandidate(op, v, known).value) == Val(v)
  {
    if op == "*" && known != 0 {
      RightInverseMul(v, known);
    }
    if op == "/" && v != 0 && known != 0 && known % v == 0 {
      RightInverseDiv(v, known);
    }
  }

  lemma RightInverseMul(v: int, known: int)
    requires known != 0
    ensures known * FloorDiv(v, known) == v <==> v % known == 0
  {
    var x := FloorDiv(v, known);
    if v % known == 0 {
      assert v == (v / known) * known;
      FloorDivExact(v / known, known);
    }
    assert known * x == x * known;
    MulMod(x, known);
  }

  lemma RightInverseDiv(v: int, known: int)
    requires v != 0 && known != 0 && known % v == 0
    ensures TruncDiv(known, FloorDiv(known, v)) == v
  {
    var k := known / v;
    assert known == k * v;
    FloorDivExact(k, v);
    assert k != 0;
    assert known == v * k;
    TruncDivExact(v, k);
  }

  /** `_solve`: walk from `name` towards "humn" with the value `v` the
      subtree must take. Each visited name is popped from `eqs` (a second
      visit raises KeyError); the operand whose function raises KeyError is
      the unknown one; at "root" the operator is equality. */
  function Solve(eqs: map<string, Job>, fns: map<string, Job>, name: string, v: int, fuel: nat): Option<int>
    decreases |eqs|
  {
    if name == Human then Some(v)
    else if name !in eqs || !eqs[name].Op? then None
    else
      var job := eqs[name];
      var rest := eqs - {name};
      assert |rest| < |eqs| by {
        assert rest.Keys + {name} == eqs.Keys;
      }
      var op := if name == Root then "=" else job.op;
      var a := Eval(fns, job.left, fuel);
      if a.Missing? then
        var b := Eval(fns, job.right, fuel);
        if !b.Val? then None
        else if op != "=" && !KnownOperator(op) then Some(v)
        else
          match LeftCandidate(op, v, b.v)
          case None => None
          case Some(x) => Solve(rest, fns, job.left, x, fuel)
      else if !a.Val? then None
      else if op != "=" && !KnownOperator(op) then Some(v)
      else
        match RightCandidate(op, v, a.v)
        case None => None
        case Some(x) => Solve(rest, fns, job.right, x, fuel)
  }

  /** Every inversion on the path `Solve` takes is exact: the candidate put
      back into the operation gives the target value. Floor division makes
      this fail for a product or quotient that does not divide evenly. */
  ghost predicate Exact(eqs: map<string, Job>, fns: map<string, Job>, name: string, v: int, fuel: nat)
    decreases |eqs|
  {
    if name == Human || name !in eqs || !eqs[name].Op? then true
    else
      var job := eqs[name];
      var rest := eqs - {name};
      assert |rest| < |eqs| by {
        assert rest.Keys + {name} == eqs.Keys;
      }
      var op := if name == Root then "=" else job.op;
      var a := Eval(fns, job.left, fuel);
      if a.Missing? then
        var b := Eval(fns, job.right, fuel);
        if !b.Val? then true
        else
          match LeftCandidate(op, v, b.v)
          case None => true
          case Some(x) => (op == "=" || Apply(op, x, b.v) == Val(v)) && Exact(rest, fns, job.left, x, fuel)
      else if !a.Val? then true
      else
        match RightCandidate(op, v, a.v)
        case None => true
        case Some(x) => (op == "=" || Apply(op, a.v, x) == Val(v)) && Exact(rest, fns, job.right, x, fuel)
  }

  function MaxNat(a: nat, b: nat): nat
  {
    if a < b then b else a
  }

  /** The value of an operation whose operands evaluate. */
  lemma EvalOp(m: map<string, Job>, name: string, f1: nat, f2: nat, x: int, y: int)
    returns (f: nat)
    requires name in m && m[name].Op?
    requires Eval(m, m[name].left, f1) == Val(x) && Eval(m, m[name].right, f2) == Val(y)
    ensures Eval(m, name, f) == Apply(m[name].op, x, y)
    ensures f == MaxNat(f1, f2) + 1
  {
    f := MaxNat(f1, f2) + 1;
    EvalMono(m, m[name].left, f1, f - 1);
    EvalMono(m, m[name].right, f2, f - 1);
  }

  /** The invariant that `SolveSound` keeps along the path. */
  ghost predicate SolveInv(eqs: map<string, Job>, fns: map<string, Job>)
  {
    && Human !in fns && Root !in eqs
    && (forall k :: k in fns && fns[k].Op? ==> KnownOperator(fns[k].op))
    && (forall k :: k in eqs && eqs[k].Op? ==> k in fns && fns[k] == eqs[k])
  }

  /** Soundness of `_solve` below "root": if it answers `h` and every
      inversion was exact, then with "humn" yelling `h` the subtree at
      `name` evaluates to `v`. */
  lemma {:induction false} SolveSound(eqs: map<string, Job>, fns: map<string, Job>, name: string, v: int, fuel: nat, h: int)
    returns (f: nat)
    requires Solve(eqs, fns, name, v, fuel) == Some(h)
    requires Exact(eqs, fns, name, v, fuel)
    requires SolveInv(eqs, fns)
    ensures Eval(fns[Human := Number(h)], name, f) == Val(v)
    decreases |eqs|, 1
  {
    if name == Human {
      f := 1;
    } else if Eval(fns, eqs[name].left, fuel).Missing? {
      f := SolveLeft(eqs, fns, name, v, fuel, h);
    } else {
      f := SolveRight(eqs, fns, name, v, fuel, h);
    }
  }

  /** The step of `SolveSound` where the left operand is the unknown one. */
  lemma {:induction false} SolveLeft(eqs: map<string, Job>, fns: map<string, Job>, name: string, v: int, fuel: nat, h: int)
    returns (f: nat)
    requires Solve(eqs, fns, name, v, fuel) == Some(h)
    requires Exact(eqs, fns, name, v, fuel)
    requires SolveInv(eqs, fns)
    requires name != Human && Eval(fns, eqs[name].left, fuel).Missing?
    ensures Eval(fns[Human := Number(h)], name, f) == Val(v)
    decreases |eqs|, 0
  {
    var hm := fns[Human := Number(h)];
    var job := eqs[name];
    var rest := eqs - {name};
    assert rest.Keys + {name} == eqs.Keys;
    assert hm[name] == job;
    var b := Eval(fns, job.right, fuel);
    var x := LeftCandidate(job.op, v, b.v).value;
    var f1 := SolveSound(rest, fns, job.left, x, fuel, h);
    EvalExtend(fns, job.right, fuel, Human, Number(h));
    f := EvalOp(hm, name, f1, fuel, x, b.v);
  }

  /** The step of `SolveSound` where the left operand has a value. */
  lemma {:induction false} SolveRight(eqs: map<string, Job>, fns: map<string, Job>, name: string, v: int, fuel: nat, h: int)
    returns (f: nat)
    requires Solve(eqs, fns, name, v, fuel) == Some(h)
    requires Exact(eqs, fns, name, v, fuel)
    requires SolveInv(eqs, fns)
    requires name != Human && !Eval(fns, eqs[name].left, fuel).Missing?
    ensures Eval(fns[Human := Number(h)], name, f) == Val(v)
    decreases |eqs|, 0
  {
    var hm := fns[Human := Number(h)];
    var job := eqs[name];
    var rest := eqs - {name};
    assert rest.Keys + {name} == eqs.Keys;
    assert hm[name] == job;
    var a := Eval(fns, job.left, fuel);
    var x := RightCandidate(job.op, v, a.v).value;
    var f1 := SolveSound(rest, fns, job.right, x, fuel, h);
    EvalExtend(fns, job.left, fuel, Human, Number(h));
    f := EvalOp(hm, name, fuel, f1, a.v, x);
  }

  /** `part2`: pop "humn" (KeyError if it is absent), build the table from
      the rest, and solve from "root" with the unused start value 0. */
  function HumanValue(monkeys: map<string, Job>, fuel: nat): Option<int>
  {
    if Human !in monkeys then None
    else
      var eqs := monkeys - {Human};
      match Built(eqs)
      case None => None
      case Some(fns) => Solve(eqs, fns, Root, 0, fuel)
  }

  method Part2(monkeys: map<string, Job>, fuel: nat) returns (r: Option<int>)
    ensures r == HumanValue(monkeys, fuel)
  {
    if Human !in monkeys {
      return None;
    }
    var eqs := monkeys - {Human};
    var table := Construct(eqs);
    if table.None? {
      return None;
    }
    r := Solve(eqs, table.value, Root, 0, fuel);
  }

  ghost predicate ExactFor(monkeys: map<string, Job>, fuel: nat)
  {
    var eqs := monkeys - {Human};
    Human in monkeys && Built(eqs).Some? && Exact(eqs, Built(eqs).value, Root, 0, fuel)
  }

  /** Soundness of `part2`: when it answers `h` and every inversion was
      exact, then with "humn" yelling `h` both operands of "root" evaluate,
      to the same number. */
  lemma Part2Sound(monkeys: map<string, Job>, fuel: nat, h: int) returns (f: nat, x: int)
    requires HumanValue(monkeys, fuel) == Some(h) && ExactFor(monkeys, fuel)
    ensures Root in monkeys && monkeys[Root].Op?
    ensures Built(monkeys[Human := Number(h)]).Some?
    ensures Eval(Built(monkeys[Human := Number(h)]).value, monkeys[Root].left, f) == Val(x)
    ensures Eval(Built(monkeys[Human := Number(h)]).value, monkeys[Root].right, f) == Val(x)
  {
    var eqs := monkeys - {Human};
    var fns := Built(eqs).value;
    var hm := fns[Human := Number(h)];
    var m2 := monkeys[Human := Number(h)];
    forall k | k in m2 && m2[k].Op?
      ensures KnownOperator(m2[k].op)
    {
      assert k in eqs && eqs[k] == m2[k];
    }
    var built := Built(m2).value;
    assert forall k :: k in built <==> k in hm;
    assert forall k :: k in built ==> built[k] == hm[k];
    assert built == hm;
    var job := eqs[Root];
    var rest := eqs - {Root};
    var a := Eval(fns, job.left, 0 + fuel);
    if a.Missing? {
      var b := Eval(fns, job.right, fuel);
      x := b.v;
      var f1 := SolveSound(rest, fns, job.left, x, fuel, h);
      EvalExtend(fns, job.right, fuel, Human, Number(h));
      f := MaxNat(f1, fuel);
      EvalMono(hm, job.left, f1, f);
      EvalMono(hm, job.right, fuel, f);
    } else {
      x := a.v;
      var f1 := SolveSound(rest, fns, job.right, x, fuel, h);
      EvalExtend(fns, job.left, fuel, Human, Number(h));
      f := MaxNat(f1, fuel);
      EvalMono(hm, job.left, fuel, f);
      EvalMono(hm, job.right, f1, f);
    }
  }

  // --------------------------------------------------------------- example

  const Example: map<string, Job> := map[
    "root" := Op("pppw", "+", "sjmn"),
    "dbpl" := Number(5),
    "cczh" := Op("sllz", "+", "lgvd"),
    "zczc" := Number(2),
    "ptdq" := Op("humn", "-", "dvpt"),
    "dvpt" := Number(3),
    "lfqf" := Number(4),
    "humn" := Number(5),
    "ljgn" := Number(2),
    "sjmn" := Op("drzm", "*", "dbpl"),
    "sllz" := Number(4),
    "pppw" := Op("cczh", "/", "lfqf"),
    "lgvd" := Op("ljgn", "*", "ptdq"),
    "drzm" := Op("hmdt", "-", "zczc"),
    "hmdt" := Number(32)]

  /** The jobs of the example, for any table that holds them. */
  ghost predicate ExampleJobs(m: map<string, Job>)
  {
    ExampleOperations(m) && ExampleNumbers(m)
  }

  ghost predicate ExampleOperations(m: map<string, Job>)
  {
    && "root" in m && m["root"] == Op("pppw", "+", "sjmn")
    && "cczh" in m && m["cczh"] == Op("sllz", "+", "lgvd")
    && "ptdq" in m && m["ptdq"] == Op("humn", "-", "dvpt")
    && "sjmn" in m && m["sjmn"] == Op("drzm", "*", "dbpl")
    && "pppw" in m && m["pppw"] == Op("cczh", "/", "lfqf")
    && "lgvd" in m && m["lgvd"] == Op("ljgn", "*", "ptdq")
    && "drzm" in m && m["drzm"] == Op("hmdt", "-", "zczc")
  }

  ghost predicate ExampleNumbers(m: map<string, Job>)
  {
    && "dbpl" in m && m["dbpl"] == Number(5)
    && "zczc" in m && m["zczc"] == Number(2)
    && "dvpt" in m && m["dvpt"] == Number(3)
    && "lfqf" in m && m["lfqf"] == Number(4)
    && "ljgn" in m && m["ljgn"] == Number(2)
    && "sllz" in m && m["sllz"] == Number(4)
    && "hmdt" in m && m["hmdt"] == Number(32)
  }

  lemma ExampleHasJobs()
    ensures ExampleJobs(Example) && Example["humn"] == Number(5)
  {
    ExampleHasOperations();
    ExampleHasNumbers();
  }

  lemma ExampleHasOperations()
    ensures ExampleOperations(Example)
  {
  }

  lemma ExampleHasNumbers()
    ensures ExampleNumbers(Example) && Example["humn"] == Number(5)
  {
  }

  /** The right-hand side of "root" is 150 whatever "humn" yells. */
  lemma ExampleRight(m: map<string, Job>) returns (f: nat)
    requires ExampleJobs(m)
    ensures Eval(m, "sjmn", f) == Val(150) && f == 3
  {
    var f1 := EvalOp(m, "drzm", 1, 1, 32, 2);
    f := EvalOp(m, "sjmn", f1, 1, 30, 5);
  }

  /** With "humn" yelling 5, "root" yells 152. */
  lemma ExampleRoot(m: map<string, Job>)
    requires ExampleJobs(m) && "humn" in m && m["humn"] == Number(5)
    ensures Eval(m, Root, 6) == Val(152)
  {
    var f1 := EvalOp(m, "ptdq", 1, 1, 5, 3);
    var f2 := EvalOp(m, "lgvd", 1, f1, 2, 2);
    var f3 := EvalOp(m, "cczh", 1, f2, 4, 4);
    var f4 := EvalOp(m, "pppw", f3, 1, 8, 4);
    TruncDivExact(2, 4);
    var f5 := ExampleRight(m);
    var f6 := EvalOp(m, "root", f4, f5, 2, 150);
  }

  /** A table of constants and well-formed triples is kept whole. */
  lemma BuiltWhole(m: map<string, Job>)
    requires forall k :: k in m ==> m[k].Number? || (m[k].Op? && KnownOperator(m[k].op))
    ensures Built(m) == Some(m)
  {
    assert Built(m).value == m;
  }

  lemma ExampleWellFormed()
    ensures forall k :: k in Example ==> Example[k].Number? || (Example[k].Op? && KnownOperator(Example[k].op))
  {
  }

  /** "root" yells 152 in the example. */
  lemma ExamplePart1()
    ensures Built(Example) == Some(Example)
    ensures Eval(Example, Root, 6) == Val(152)
  {
    ExampleHasJobs();
    ExampleRoot(Example);
    ExampleWellFormed();
    BuiltWhole(Example);
  }

  /** Without "humn", the side of "root" that depends on it raises KeyError. */
  lemma ExampleLeftMissing(m: map<string, Job>)
    requires ExampleJobs(m) && Human !in m
    ensures Eval(m, "pppw", 10).Missing?
    ensures Eval(m, "cczh", 10).Missing?
    ensures Eval(m, "lgvd", 10).Missing?
    ensures Eval(m, "ptdq", 10).Missing?
  {
    assert Eval(m, "ptdq", 2).Missing?;
    assert Eval(m, "lgvd", 3).Missing?;
    assert Eval(m, "cczh", 4).Missing?;
    assert Eval(m, "pppw", 5).Missing?;
    EvalMono(m, "ptdq", 2, 10);
    EvalMono(m, "lgvd", 3, 10);
    EvalMono(m, "cczh", 4, 10);
    EvalMono(m, "pppw", 5, 10);
  }

  /** The walk of `_solve` in the example: 150 for "pppw", 600 for "cczh",
      596 for "lgvd", 298 for "ptdq", and 301 for "humn". */
  lemma ExampleSolve(m: map<string, Job>)
    requires ExampleJobs(m) && Human !in m
    ensures Solve(m, m, Root, 0, 10) == Some(301)
  {
    ExampleLeftMissing(m);
    var f := ExampleRight(m);
    EvalMono(m, "sjmn", 3, 10);
    var e1 := m - {"root"};
    var e2 := e1 - {"pppw"};
    var e3 := e2 - {"cczh"};
    var e4 := e3 - {"lgvd"};
    var e5 := e4 - {"ptdq"};
    EvalMono(m, "lfqf", 1, 10);
    EvalMono(m, "sllz", 1, 10);
    EvalMono(m, "ljgn", 1, 10);
    EvalMono(m, "dvpt", 1, 10);
    assert Solve(e4, m, "ptdq", 298, 10) == Solve(e5, m, Human, 301, 10);
    assert FloorDiv(596, 2) == 298;
    assert Solve(e3, m, "lgvd", 596, 10) == Solve(e4, m, "ptdq", 298, 10);
    assert Solve(e2, m, "cczh", 600, 10) == Solve(e3, m, "lgvd", 596, 10);
    assert Solve(e1, m, "pppw", 150, 10) == Solve(e2, m, "cczh", 600, 10);
    assert Solve(m, m, Root, 0, 10) == Solve(e1, m, "pppw", 150, 10);
  }

  /** `part2` on the example answers 301. */
  lemma ExamplePart2()
    ensures HumanValue(Example, 10) == Some(301)
  {
    var eqs := Example - {Human};
    ExampleHasJobs();
    assert ExampleJobs(eqs);
    ExampleWellFormed();
    BuiltWhole(eqs);
    ExampleSolve(eqs);
  }
}
