/** No space left on device: a terminal session of `cd` and `ls` commands is
    replayed to total the file sizes below every directory. Directories are
    named by their full path with a trailing '/', the root being "/". */
module Day07 {
  import opened Common

  /** A terminal line, as the `match` on its whitespace-separated tokens reads it. */
  datatype Command =
    | CdRoot                  // "$ cd /"
    | CdUp                    // "$ cd .."
    | CdInto(name: string)    // "$ cd <name>"
    | Ls                      // "$ ls"
    | DirEntry                // "dir <name>"
    | FileEntry(size: string) // "<size> <name>", any other two-token line
    | NoMatch                 // no case matches: the line is skipped

  function Classify(tokens: seq<string>): Command
  {
    if |tokens| == 3 && tokens[0] == "$" && tokens[1] == "cd" then
      if tokens[2] == "/" then CdRoot
      else if tokens[2] == ".." then CdUp
      else CdInto(tokens[2])
    else if |tokens| == 2 && tokens[0] == "$" && tokens[1] == "ls" then Ls
    else if |tokens| == 2 && tokens[0] == "dir" then DirEntry
    else if |tokens| == 2 then FileEntry(tokens[0])
    else NoMatch
  }

  /** A command written out as the tokens of a terminal line; `name` fills
      the token the `match` ignores (the name of a listed entry). */
  function Tokens(c: Command, name: string): seq<string>
  {
    match c
    case CdRoot => ["$", "cd", "/"]
    case CdUp => ["$", "cd", ".."]
    case CdInto(dir) => ["$", "cd", dir]
    case Ls => ["$", "ls"]
    case DirEntry => ["dir", name]
    case FileEntry(size) => [size, name]
    case NoMatch => []
  }

  /** Reading a written command gives the command back, whenever the
      written line is not also an earlier case of the `match`: a directory
      named "/" or ".." reads as `cd /` or `cd ..`, and a size token "$" or
      "dir" as a command or a directory entry. */
  lemma ClassifyTokens(c: Command, name: string)
    requires c.CdInto? ==> c.name != "/" && c.name != ".."
    requires c.FileEntry? ==> c.size != "$" && c.size != "dir"
    ensures Classify(Tokens(c, name)) == c
  {
  }

  // ---------------------------------------------------------------- replay

  /** The replay state: the `directories` stack (None while it is still
      unbound, before the first "$ cd /"), and the `directory_sizes` table
      with its keys in insertion order, as a dict keeps them. */
  datatype State = State(stack: Option<seq<string>>, order: seq<string>, sizes: map<string, int>)

  const Start := State(None, [], map[])

  function Get(sizes: map<string, int>, d: string): int
  {
    if d in sizes then sizes[d] else 0
  }

  /** `for directory in directories: directory_sizes[directory] += size`. */
  function AddToAll(order: seq<string>, sizes: map<string, int>, dirs: seq<string>, size: int):
    (r: (seq<string>, map<string, int>))
    decreases |dirs|
  {
    if dirs == [] then (order, sizes)
    else
      var d := dirs[0];
      var order' := if d in sizes then order else order + [d];
      AddToAll(order', sizes[d := Get(sizes, d) + size], dirs[1..], size)
  }

  /** One line of the session; an error is the exception the source raises. */
  function Step(st: State, cmd: Command): Result<State>
  {
    match cmd
    case CdRoot => Ok(st.(stack := Some(["/"])))
    case CdUp =>
      if st.stack.None? then Err("NameError")
      else if st.stack.value == [] then Err("IndexError")
      else Ok(st.(stack := Some(st.stack.value[..|st.stack.value| - 1])))
    case CdInto(name) =>
      if st.stack.None? then Err("NameError")
      else if st.stack.value == [] then Err("IndexError")
      else
        var s := st.stack.value;
        Ok(st.(stack := Some(s + [s[|s| - 1] + name + "/"])))
    case FileEntry(text) =>
      if st.stack.None? then Err("NameError")
      else if st.stack.value == [] then Ok(st)  // the loop body, and int(), never run
      else if ParseInt(text).None? then Err("ValueError")
      else
        var (order, sizes) := AddToAll(st.order, st.sizes, st.stack.value, ParseInt(text).value);
        Ok(State(st.stack, order, sizes))
    case _ => Ok(st)
  }

  function Run(st: State, cmds: seq<Command>): Result<State>
    decreases |cmds|
  {
    if cmds == [] then Ok(st)
    else
      var next := Step(st, cmds[0]);
      if next.Err? then next else Run(next.value, cmds[1..])
  }

  function Commands(lines: seq<seq<string>>): seq<Command>
  {
    seq(|lines|, i requires 0 <= i < |lines| => Classify(lines[i]))
  }

  /** `_directory_sizes`: replays the session line by line. */
  method DirectorySizes(lines: seq<seq<string>>) returns (r: Result<State>)
    ensures r == Run(Start, Commands(lines))
  {
    var stack: Option<seq<string>> := None;
    var order: seq<string> := [];
    var sizes: map<string, int> := map[];
    var i := 0;
    while i < |lines|
      invariant 0 <= i <= |lines|
      invariant Run(Start, Commands(lines)) == Run(State(stack, order, sizes), Commands(lines)[i..])
    {
      assert Commands(lines)[i..][1..] == Commands(lines)[i + 1..];
      var cmd := Classify(lines[i]);
      match cmd {
        case CdRoot =>
          stack := Some(["/"]);
        case CdUp =>
          if stack.None? { return Err("NameError"); }
          if stack.value == [] { return Err("IndexError"); }
          stack := Some(stack.value[..|stack.value| - 1]);
        case CdInto(name) =>
          if stack.None? { return Err("NameError"); }
          if stack.value == [] { return Err("IndexError"); }
          stack := Some(stack.value + [stack.value[|stack.value| - 1] + name + "/"]);
        case FileEntry(text) =>
          if stack.None? { return Err("NameError"); }
          var dirs := stack.value;
          if dirs != [] {
            var size := ParseInt(text);
            if size.None? { return Err("ValueError"); }
            order, sizes := AddFile(order, sizes, dirs, size.value);
          }
        case _ =>
      }
      i := i + 1;
    }
    r := Ok(State(stack, order, sizes));
  }

  /** The inner loop of `_directory_sizes`: the file's size is added to
      every directory on the stack, new directories joining the order. */
  method AddFile(order0: seq<string>, sizes0: map<string, int>, dirs: seq<string>, size: int)
    returns (order: seq<string>, sizes: map<string, int>)
    ensures (order, sizes) == AddToAll(order0, sizes0, dirs, size)
  {
    order, sizes := order0, sizes0;
    ghost var total := AddToAll(order0, sizes0, dirs, size);
    var k := 0;
    while k < |dirs|
      invariant 0 <= k <= |dirs|
      invariant total == AddToAll(order, sizes, dirs[k..], size)
    {
      assert dirs[k..][1..] == dirs[k + 1..];
      var d := dirs[k];
      if d !in sizes {
        order := order + [d];
      }
      sizes := sizes[d := Get(sizes, d) + size];
      k := k + 1;
    }
    assert dirs[k..] == [];
  }

  // ---------------------------------------------------------------- the parts

  /** The value table as `directory_sizes.values()` lists it. */
  function Values(order: seq<string>, sizes: map<string, int>): seq<int>
  {
    seq(|order|, i requires 0 <= i < |order| => Get(sizes, order[i]))
  }

  /** `sum(val for val in values if val <= 100000)`. */
  function SmallTotal(vals: seq<int>): int
  {
    if vals == [] then 0
    else SmallTotal(vals[..|vals| - 1]) + (if vals[|vals| - 1] <= 100000 then vals[|vals| - 1] else 0)
  }

  /** `min(val for val in values if val >= bound)`; an empty selection fails (ValueError). */
  function SmallestAtLeast(vals: seq<int>, bound: int): (r: Option<int>)
    ensures r.Some? <==> exists i :: 0 <= i < |vals| && vals[i] >= bound
    ensures r.Some? ==> r.value in vals && r.value >= bound
    ensures r.Some? ==> forall i :: 0 <= i < |vals| && vals[i] >= bound ==> r.value <= vals[i]
  {
    if vals == [] then None
    else
      var init := vals[..|vals| - 1];
      var last := vals[|vals| - 1];
      var rest := SmallestAtLeast(init, bound);
      assert forall i :: 0 <= i < |init| ==> init[i] == vals[i];
      if last < bound then rest
      else if rest.Some? && rest.value <= last then rest
      else Some(last)
  }

  const FilesystemSize := 70000000
  const RequiredSpace := 30000000

  /** `part1`: the total of all directory sizes of at most 100000. */
  method Part1(lines: seq<seq<string>>) returns (r: Result<int>)
    ensures var run := Run(Start, Commands(lines));
      r == if run.Err? then Err(run.msg) else Ok(SmallTotal(Values(run.value.order, run.value.sizes)))
  {
    var st := DirectorySizes(lines);
    if st.Err? {
      return Err(st.msg);
    }
    r := Ok(SmallTotal(Values(st.value.order, st.value.sizes)));
  }

  /** What `part2` computes from the table: reading `sizes["/"]` adds the key
      "/" with size 0 when it is missing; the answer is the smallest size that
      frees enough space. */
  function SmallestToDelete(order: seq<string>, sizes: map<string, int>): Option<int>
  {
    var order' := if "/" in sizes then order else order + ["/"];
    var sizes' := sizes["/" := Get(sizes, "/")];
    var toDelete := RequiredSpace - (FilesystemSize - sizes'["/"]);
    SmallestAtLeast(Values(order', sizes'), toDelete)
  }

  method Part2(lines: seq<seq<string>>) returns (r: Result<int>)
    ensures var run := Run(Start, Commands(lines));
      r == if run.Err? then Err(run.msg)
           else var m := SmallestToDelete(run.value.order, run.value.sizes);
             if m.None? then Err("ValueError") else Ok(m.value)
  {
    var st := DirectorySizes(lines);
    if st.Err? {
      return Err(st.msg);
    }
    var m := SmallestToDelete(st.value.order, st.value.sizes);
    if m.None? {
      return Err("ValueError");
    }
    r := Ok(m.value);
  }

  // ---------------------------------------------------------------- properties

  /** When the insertion order lists exactly the table's keys, the values
      read along it are exactly the values of the table, as
      `directory_sizes.values()` gives them. */
  lemma ValuesOfTable(order: seq<string>, sizes: map<string, int>)
    requires forall d :: d in order <==> d in sizes
    ensures |Values(order, sizes)| == |order|
    ensures forall v :: v in Values(order, sizes) <==> v in sizes.Values
  {
    var vals := Values(order, sizes);
    forall v | v in sizes.Values ensures v in vals {
      var d :| d in sizes && sizes[d] == v;
      var i :| 0 <= i < |order| && order[i] == d;
      assert vals[i] == v;
    }
  }

  predicate EndsSlash(d: string)
  {
    |d| >= 1 && d[|d| - 1] == '/'
  }

  predicate NoSlash(s: string)
  {
    forall i :: 0 <= i < |s| ==> s[i] != '/'
  }

  /** `e` is the path of a directory `name` inside `d`, `name` being non-empty
      and free of '/'. */
  predicate IsChild(d: string, e: string)
  {
    |d| + 2 <= |e| && e[..|d|] == d && e[|e| - 1] == '/' && NoSlash(e[|d|..|e| - 1])
  }

  /** The stack holds the root and then each directory inside the one below it. */
  predicate Chain(s: seq<string>)
  {
    s == [] || (s[0] == "/" && forall k :: 1 <= k < |s| ==> IsChild(s[k - 1], s[k]))
  }

  predicate Distinct(s: seq<string>)
  {
    forall i, j :: 0 <= i < j < |s| ==> s[i] != s[j]
  }

  /** The invariant of the replay, for sessions whose names are free of '/'
      and whose file sizes are not negative. */
  ghost predicate Inv(st: State)
  {
    (st.stack.Some? ==> Chain(st.stack.value)) &&
    (forall d :: d in st.sizes <==> d in st.order) &&
    Distinct(st.order) &&
    (forall d :: d in st.sizes ==> EndsSlash(d) && st.sizes[d] >= 0) &&
    (forall d, e :: e in st.sizes && IsChild(d, e) && EndsSlash(d) ==> d in st.sizes) &&
    (forall d, e :: d in st.sizes && e in st.sizes && IsChild(d, e) ==> st.sizes[d] >= st.sizes[e]) &&
    (forall d :: d in st.sizes ==> "/" in st.sizes && st.sizes["/"] >= st.sizes[d])
  }

  predicate GoodCommand(cmd: Command)
  {
    (cmd.CdInto? ==> cmd.name != "" && NoSlash(cmd.name)) &&
    (cmd.FileEntry? && ParseInt(cmd.size).Some? ==> ParseInt(cmd.size).value >= 0)
  }

  /** A directory path has exactly one parent path. */
  lemma UniqueParent(p: string, d: string, e: string)
    requires IsChild(p, e) && IsChild(d, e) && EndsSlash(p) && EndsSlash(d)
    ensures p == d
  {
    if |p| == |d| {
      assert p == e[..|p|];
    }
  }

  /** The root is at the bottom of the stack and each path is longer than
      the one below it. */
  predicate Growing(s: seq<string>)
  {
    s == [] || (s[0] == "/" && forall k :: 1 <= k < |s| ==> |s[k - 1]| < |s[k]|)
  }

  /** So the paths on the stack are distinct and "/" is only at the bottom. */
  lemma {:induction false} GrowingFacts(s: seq<string>)
    requires Growing(s)
    ensures forall i, j :: 0 <= i < j < |s| ==> |s[i]| < |s[j]|
    ensures Distinct(s)
    ensures forall i :: 1 <= i < |s| ==> s[i] != "/"
    decreases |s|
  {
    if |s| > 1 {
      var init := s[..|s| - 1];
      assert Growing(init) by {
        forall k | 1 <= k < |init| ensures |init[k - 1]| < |init[k]| {
          assert init[k - 1] == s[k - 1] && init[k] == s[k];
        }
      }
      GrowingFacts(init);
      forall i | 0 <= i < |s| - 1 ensures |s[i]| < |s[|s| - 1]| {
        assert init[i] == s[i];
        if i < |s| - 2 {
          assert |init[i]| < |init[|s| - 2]|;
        }
      }
    }
  }

  /** A chain of directories grows, and its paths all end in '/'. */
  lemma ChainFacts(s: seq<string>)
    requires Chain(s)
    ensures Growing(s) && Distinct(s)
    ensures forall i :: 0 <= i < |s| ==> EndsSlash(s[i])
  {
    if s != [] {
      assert forall k :: 1 <= k < |s| ==> IsChild(s[k - 1], s[k]);
      GrowingFacts(s);
      forall i | 0 <= i < |s| ensures EndsSlash(s[i]) {
        if i > 0 {
          assert IsChild(s[i - 1], s[i]);
        }
      }
    }
  }

  lemma DistinctTail(dirs: seq<string>)
    requires Distinct(dirs) && dirs != []
    ensures Distinct(dirs[1..]) && dirs[0] !in dirs[1..]
    ensures forall x :: x in dirs <==> x == dirs[0] || x in dirs[1..]
  {
    assert dirs == [dirs[0]] + dirs[1..];
    forall j | 0 <= j < |dirs[1..]| ensures dirs[1..][j] != dirs[0] {
      assert dirs[1..][j] == dirs[j + 1];
    }
  }

  /** Adding a file size to every directory on the stack: the listed
      directories gain the size, new ones appearing with it. */
  lemma {:induction false} AddToAllSizes(order: seq<string>, sizes: map<string, int>, dirs: seq<string>, size: int)
    requires Distinct(dirs)
    ensures var sizes' := AddToAll(order, sizes, dirs, size).1;
      (forall d :: d in sizes' <==> d in sizes || d in dirs) &&
      (forall d :: d in sizes' ==> sizes'[d] == Get(sizes, d) + (if d in dirs then size else 0))
    decreases |dirs|
  {
    if dirs != [] {
      var d := dirs[0];
      var order1 := if d in sizes then order else order + [d];
      var sizes1 := sizes[d := Get(sizes, d) + size];
      var rest := dirs[1..];
      DistinctTail(dirs);
      AddToAllSizes(order1, sizes1, rest, size);
      assert AddToAll(order, sizes, dirs, size) == AddToAll(order1, sizes1, rest, size);
      assert forall x :: x in dirs <==> x == d || x in rest;
      assert d !in rest;
    }
  }

  /** ... and the insertion order keeps listing each key once. */
  lemma {:induction false} AddToAllOrder(order: seq<string>, sizes: map<string, int>, dirs: seq<string>, size: int)
    requires Distinct(order)
    requires forall d :: d in sizes <==> d in order
    ensures var (order', sizes') := AddToAll(order, sizes, dirs, size);
      (forall d :: d in sizes' <==> d in order') && Distinct(order')
    decreases |dirs|
  {
    if dirs != [] {
      var d := dirs[0];
      var order1 := if d in sizes then order else order + [d];
      var sizes1 := sizes[d := Get(sizes, d) + size];
      assert Distinct(order1);
      AddToAllOrder(order1, sizes1, dirs[1..], size);
    }
  }

  /** The parent of a directory on a chain is the entry below it. */
  lemma ParentOnChain(s: seq<string>, d: string, e: string) returns (j: nat)
    requires Chain(s) && e in s && IsChild(d, e) && EndsSlash(d)
    ensures 1 <= j < |s| && s[j] == e && s[j - 1] == d
  {
    j :| 0 <= j < |s| && s[j] == e;
    ChainFacts(s);
    UniqueParent(d, s[j - 1], e);
  }

  /** Adding a file keeps the table closed under parents. */
  lemma AddFileClosed(st: State, size: int)
    requires Inv(st) && st.stack.Some? && st.stack.value != []
    ensures var sizes' := AddToAll(st.order, st.sizes, st.stack.value, size).1;
      forall d, e :: e in sizes' && IsChild(d, e) && EndsSlash(d) ==> d in sizes'
  {
    var s := st.stack.value;
    ChainFacts(s);
    AddToAllSizes(st.order, st.sizes, s, size);
    var sizes' := AddToAll(st.order, st.sizes, s, size).1;
    forall d, e | e in sizes' && IsChild(d, e) && EndsSlash(d) ensures d in sizes' {
      if e !in st.sizes {
        var j := ParentOnChain(s, d, e);
      }
    }
  }

  /** Adding a file of non-negative size keeps parents at least as large as
      their children. */
  lemma AddFileDominates(st: State, size: int)
    requires Inv(st) && st.stack.Some? && st.stack.value != [] && size >= 0
    ensures var sizes' := AddToAll(st.order, st.sizes, st.stack.value, size).1;
      forall d, e :: d in sizes' && e in sizes' && IsChild(d, e) ==> sizes'[d] >= sizes'[e]
  {
    var s := st.stack.value;
    ChainFacts(s);
    AddToAllSizes(st.order, st.sizes, s, size);
    var sizes' := AddToAll(st.order, st.sizes, s, size).1;
    forall d, e | d in sizes' && e in sizes' && IsChild(d, e) ensures sizes'[d] >= sizes'[e] {
      assert EndsSlash(d);
      if e in s {
        var j := ParentOnChain(s, d, e);
      }
    }
  }

  /** Adding a file of non-negative size keeps "/" the largest entry. */
  lemma AddFileRootLargest(st: State, size: int)
    requires Inv(st) && st.stack.Some? && st.stack.value != [] && size >= 0
    ensures var sizes' := AddToAll(st.order, st.sizes, st.stack.value, size).1;
      forall d :: d in sizes' ==> "/" in sizes' && sizes'["/"] >= sizes'[d]
  {
    var s := st.stack.value;
    ChainFacts(s);
    AddToAllSizes(st.order, st.sizes, s, size);
    assert s[0] == "/";
  }

  /** A file listed inside the open directories keeps the invariant. */
  lemma AddFileKeepsInv(st: State, size: int)
    requires Inv(st) && st.stack.Some? && st.stack.value != [] && size >= 0
    ensures var (order', sizes') := AddToAll(st.order, st.sizes, st.stack.value, size);
      Inv(State(st.stack, order', sizes'))
  {
    var s := st.stack.value;
    ChainFacts(s);
    AddToAllSizes(st.order, st.sizes, s, size);
    AddToAllOrder(st.order, st.sizes, s, size);
    AddFileClosed(st, size);
    AddFileDominates(st, size);
    AddFileRootLargest(st, size);
  }

  /** Every step keeps the invariant. */
  lemma StepKeepsInv(st: State, cmd: Command)
    requires Inv(st) && GoodCommand(cmd) && Step(st, cmd).Ok?
    ensures Inv(Step(st, cmd).value)
  {
    match cmd
    case CdUp =>
      var s := st.stack.value;
      var s' := s[..|s| - 1];
      forall k | 1 <= k < |s'| ensures IsChild(s'[k - 1], s'[k]) {
        assert s'[k - 1] == s[k - 1] && s'[k] == s[k];
      }
    case CdInto(name) =>
      var s := st.stack.value;
      var top := s[|s| - 1];
      var e := top + name + "/";
      assert e[..|top|] == top;
      assert e[|top|..|e| - 1] == name;
      var s' := s + [e];
      forall k | 1 <= k < |s'| ensures IsChild(s'[k - 1], s'[k]) {
        if k < |s| {
          assert s'[k - 1] == s[k - 1] && s'[k] == s[k];
        }
      }
    case FileEntry(text) =>
      if st.stack.value != [] {
        AddFileKeepsInv(st, ParseInt(text).value);
      }
    case _ =>
  }

  /** A session whose names hold no '/' and whose sizes are not negative
      leaves a table in which every directory is at least as large as each of
      its subdirectories, and "/", when present, is the largest entry. */
  lemma {:induction false} RunKeepsInv(st: State, cmds: seq<Command>)
    requires Inv(st) && Run(st, cmds).Ok?
    requires forall i :: 0 <= i < |cmds| ==> GoodCommand(cmds[i])
    ensures Inv(Run(st, cmds).value)
    decreases |cmds|
  {
    if cmds != [] {
      StepKeepsInv(st, cmds[0]);
      RunKeepsInv(Step(st, cmds[0]).value, cmds[1..]);
    }
  }

  /** Independent reference for the size of "/": the sum of every file size
      listed while the stack is non-empty, following only its depth. */
  function ListedTotal(cmds: seq<Command>, depth: nat): int
    decreases |cmds|
  {
    if cmds == [] then 0
    else
      match cmds[0]
      case CdRoot => ListedTotal(cmds[1..], 1)
      case CdUp => ListedTotal(cmds[1..], if depth == 0 then 0 else depth - 1)
      case CdInto(_) => ListedTotal(cmds[1..], depth + 1)
      case FileEntry(text) =>
        (if depth > 0 && ParseInt(text).Some? then ParseInt(text).value else 0) + ListedTotal(cmds[1..], depth)
      case _ => ListedTotal(cmds[1..], depth)
  }

  function Depth(st: State): nat
  {
    if st.stack.None? then 0 else |st.stack.value|
  }

  /** The size of "/" is the total of the files listed while some directory
      was open: each file is added to "/" exactly once. */
  lemma {:induction false} RootTotal(st: State, cmds: seq<Command>)
    requires Run(st, cmds).Ok?
    requires st.stack.Some? ==> Growing(st.stack.value)
    ensures Get(Run(st, cmds).value.sizes, "/") == Get(st.sizes, "/") + ListedTotal(cmds, Depth(st))
    decreases |cmds|
  {
    if cmds != [] {
      assert Step(st, cmds[0]).Ok?;
      var next := Step(st, cmds[0]).value;
      RootStep(st, cmds);
      assert Run(st, cmds) == Run(next, cmds[1..]);
      RootTotal(next, cmds[1..]);
    }
  }

  /** One command adds to "/" what it contributes to the listed total, and
      keeps the stack growing. */
  lemma RootStep(st: State, cmds: seq<Command>)
    requires cmds != [] && Step(st, cmds[0]).Ok?
    requires st.stack.Some? ==> Growing(st.stack.value)
    ensures var next := Step(st, cmds[0]).value;
      (next.stack.Some? ==> Growing(next.stack.value)) &&
      Get(st.sizes, "/") + ListedTotal(cmds, Depth(st)) == Get(next.sizes, "/") + ListedTotal(cmds[1..], Depth(next))
  {
    match cmds[0]
    case CdUp =>
      var s := st.stack.value;
      assert forall k :: 0 <= k < |s| - 1 ==> s[..|s| - 1][k] == s[k];
    case CdInto(name) =>
      var s := st.stack.value;
      var s' := s + [s[|s| - 1] + name + "/"];
      assert forall k :: 0 <= k < |s| ==> s'[k] == s[k];
    case FileEntry(text) =>
      var s := st.stack.value;
      if s != [] {
        GrowingFacts(s);
        AddToAllSizes(st.order, st.sizes, s, ParseInt(text).value);
        assert s[0] == "/";
      }
    case CdRoot =>
    case _ =>
  }

  /** For a session whose names hold no '/' and whose file sizes are not
      negative, the table of `_directory_sizes` keeps the invariant, and the
      size of "/" is the total of all files listed under it. */
  lemma SessionTable(lines: seq<seq<string>>)
    requires Run(Start, Commands(lines)).Ok?
    requires forall i :: 0 <= i < |lines| ==> GoodCommand(Classify(lines[i]))
    ensures Inv(Run(Start, Commands(lines)).value)
    ensures Get(Run(Start, Commands(lines)).value.sizes, "/") == ListedTotal(Commands(lines), 0)
  {
    RunKeepsInv(Start, Commands(lines));
    RootTotal(Start, Commands(lines));
  }

  /** Part one adds only sizes of at most 100000. */
  lemma {:induction false} SmallTotalBounds(vals: seq<int>)
    requires forall i :: 0 <= i < |vals| ==> vals[i] >= 0
    ensures 0 <= SmallTotal(vals) <= 100000 * |vals|
    decreases |vals|
  {
    if vals != [] {
      var init := vals[..|vals| - 1];
      assert forall i :: 0 <= i < |init| ==> init[i] == vals[i];
      SmallTotalBounds(init);
    }
  }

  /** Part two never fails on a table whose keys are its insertion order: "/"
      always qualifies, so the answer is at most the size of "/", and deleting
      it leaves at least the required free space. */
  lemma SmallestToDeleteDefined(order: seq<string>, sizes: map<string, int>)
    requires forall d :: d in sizes <==> d in order
    ensures var m := SmallestToDelete(order, sizes);
      m.Some? && m.value <= Get(sizes, "/") &&
      FilesystemSize - Get(sizes, "/") + m.value >= RequiredSpace
  {
    var order' := if "/" in sizes then order else order + ["/"];
    var sizes' := sizes["/" := Get(sizes, "/")];
    var vals := Values(order', sizes');
    assert "/" in order';
    var i :| 0 <= i < |order'| && order'[i] == "/";
    assert vals[i] == Get(sizes, "/");
  }
}
