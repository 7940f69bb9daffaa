/** Shared vocabulary for the puzzle models: failure-carrying results, sums and
    maxima of integer sequences, an insertion sort, digit parsing and numpy-style
    indexing. */
module Common {

  datatype Option<T> = None | Some(value: T)

  /** The outcome of an operation that raises an exception in the source. */
  datatype Result<T> = Ok(value: T) | Err(msg: string)

  /** Sum of a sequence of integers (Python's `sum`). */
  function Sum(s: seq<int>): int
  {
    if s == [] then 0 else Sum(s[..|s| - 1]) + s[|s| - 1]
  }

  lemma {:induction false} SumAppend(s: seq<int>, t: seq<int>)
    ensures Sum(s + t) == Sum(s) + Sum(t)
    decreases |t|
  {
    if t == [] {
      assert s + t == s;
    } else {
      assert (s + t)[..|s + t| - 1] == s + t[..|t| - 1];
      SumAppend(s, t[..|t| - 1]);
    }
  }

  lemma {:induction false} SumNonNegative(s: seq<int>)
    requires forall i :: 0 <= i < |s| ==> s[i] >= 0
    ensures Sum(s) >= 0
    decreases |s|
  {
    if s != [] {
      SumNonNegative(s[..|s| - 1]);
    }
  }

  /** Maximum of a non-empty sequence (Python's `max`). */
  function Max(s: seq<int>): (m: int)
    requires s != []
    ensures m in s
    ensures forall i :: 0 <= i < |s| ==> s[i] <= m
  {
    if |s| == 1 then s[0]
    else
      var m := Max(s[..|s| - 1]);
      assert forall i :: 0 <= i < |s| - 1 ==> s[..|s| - 1][i] == s[i];
      if s[|s| - 1] > m then s[|s| - 1] else m
  }

  predicate Sorted(s: seq<int>)
  {
    forall i, j :: 0 <= i < j < |s| ==> s[i] <= s[j]
  }

  /** Inserts `x` into an ascending sequence, before the first element not below it. */
  function Insert(x: int, s: seq<int>): (r: seq<int>)
    requires Sorted(s)
    ensures Sorted(r)
    ensures multiset(r) == multiset(s) + multiset{x}
  {
    if s == [] then [x]
    else if x <= s[0] then [x] + s
    else
      var t := Insert(x, s[1..]);
      assert s == [s[0]] + s[1..];
      BoundedBelow(s[0], s[1..], x, t);
      [s[0]] + t
  }

  /** A permutation of a sorted tail plus `x` stays at or above the head. */
  lemma BoundedBelow(head: int, tail: seq<int>, x: int, t: seq<int>)
    requires head <= x && (forall i :: 0 <= i < |tail| ==> head <= tail[i])
    requires multiset(t) == multiset(tail) + multiset{x}
    ensures forall k :: 0 <= k < |t| ==> head <= t[k]
  {
    forall k | 0 <= k < |t| ensures head <= t[k] {
      assert t[k] in multiset(t);
      if t[k] != x {
        assert t[k] in multiset(tail);
        assert t[k] in tail;
      }
    }
  }

  /** Ascending sort (Python's `sorted`); stability is irrelevant for integers. */
  function SortAscending(s: seq<int>): (r: seq<int>)
    ensures Sorted(r)
    ensures multiset(r) == multiset(s)
  {
    if s == [] then []
    else
      assert s == [s[0]] + s[1..];
      Insert(s[0], SortAscending(s[1..]))
  }

  /** The last element of a sorted permutation is the maximum. */
  lemma SortedLastIsMax(s: seq<int>, r: seq<int>)
    requires s != [] && Sorted(r) && multiset(r) == multiset(s)
    ensures |r| == |s| && r[|r| - 1] == Max(s)
  {
    assert |r| == |multiset(r)| == |multiset(s)| == |s|;
    var m := Max(s);
    assert m in multiset(r);
    var last := r[|r| - 1];
    assert last in multiset(s);
    assert last in s;
  }

  lemma {:induction false} MinExists(s: set<int>)
    requires s != {}
    ensures exists m :: m in s && forall x :: x in s ==> m <= x
    decreases |s|
  {
    if forall z :: z !in s {
      assert false;
    }
    var y :| y in s;
    var rest := s - {y};
    assert s == rest + {y};
    if rest == {} {
      assert s == {y};
      assert y in s && forall x :: x in s ==> y <= x;
    } else {
      MinExists(rest);
      var m :| m in rest && forall x :: x in rest ==> m <= x;
      var k := if y < m then y else m;
      assert forall x :: x in s ==> x == y || x in rest;
      assert k in s && forall x :: x in s ==> k <= x;
    }
  }

  /** The least member of a non-empty finite set of integers. */
  function MinOf(s: set<int>): (m: int)
    requires s != {}
    ensures m in s && forall x :: x in s ==> m <= x
  {
    MinExists(s);
    var m :| m in s && forall x :: x in s ==> m <= x;
    m
  }

  /** The greatest member of a non-empty finite set of integers. */
  function MaxOf(s: set<int>): (m: int)
    requires s != {}
    ensures m in s && forall x :: x in s ==> x <= m
  {
    var negated := set x | x in s :: -x;
    assert forall x :: x in s ==> -x in negated;
    var y :| y in s;
    assert -y in negated;
    var least := MinOf(negated);
    -least
  }

  /** The members of a finite set of integers in ascending order (Python's `sorted`). */
  function SortedKeys(s: set<int>): (r: seq<int>)
    ensures forall i :: 0 < i < |r| ==> r[i - 1] < r[i]
    ensures forall x :: x in s <==> x in r
    ensures |r| == |s|
    decreases |s|
  {
    if s == {} then []
    else
      var m := MinOf(s);
      var rest := SortedKeys(s - {m});
      assert forall j :: 0 <= j < |rest| ==> rest[j] in s - {m};
      [m] + rest
  }

  // ---------------------------------------------------------------- int()

  predicate IsDigit(c: char)
  {
    '0' <= c <= '9'
  }

  predicate AllDigits(s: string)
  {
    forall i :: 0 <= i < |s| ==> IsDigit(s[i])
  }

  function DigitsValue(s: string): (v: nat)
    requires AllDigits(s)
  {
    if s == [] then 0 else 10 * DigitsValue(s[..|s| - 1]) + (s[|s| - 1] as int - '0' as int)
  }

  /** `int(text)` on an optionally signed run of decimal digits; anything else
      fails (ValueError). */
  function ParseInt(text: string): (r: Option<int>)
    ensures r.Some? && text != [] && text[0] != '-' ==> r.value >= 0
    ensures AllDigits(text) && text != [] ==> r == Some(DigitsValue(text))
  {
    if text != [] && AllDigits(text) then Some(DigitsValue(text))
    else if |text| >= 2 && (text[0] == '-' || text[0] == '+') && AllDigits(text[1..]) then
      var v: int := DigitsValue(text[1..]);
      if text[0] == '-' then Some(-v) else Some(v)
    else None
  }

  /** A minus sign negates the value of the digits after it. */
  lemma ParseIntNegative(digits: string)
    requires digits != [] && AllDigits(digits)
    ensures ParseInt("-" + digits) == Some(0 - DigitsValue(digits) as int)
    ensures ParseInt("+" + digits) == Some(DigitsValue(digits))
  {
    assert ("-" + digits)[1..] == digits;
    assert ("+" + digits)[1..] == digits;
    assert !IsDigit(("-" + digits)[0]);
    assert !IsDigit(("+" + digits)[0]);
  }

  /** A numpy index along an axis of length `n`: negative indices count from
      the end; anything outside `-n..n-1` is an IndexError (None). */
  function AxisIndex(n: nat, i: int): (r: Option<nat>)
    ensures r.Some? <==> -(n as int) <= i < n
    ensures r.Some? ==> r.value < n && (r.value == i || r.value == i + n)
  {
    if 0 <= i < n then Some(i) else if -(n as int) <= i < 0 then Some(n + i) else None
  }

  /** A remainder already in range is itself. */
  lemma ModIdentity(v: int, m: int)
    requires 0 <= v < m
    ensures v % m == v
  {
  }

  /** Division with remainder is unique. */
  lemma ModOf(a: int, m: int, k: int, r: int)
    requires 0 < m && 0 <= r < m && a == k * m + r
    ensures a % m == r
  {
    var q := a / m;
    assert a == q * m + a % m;
    if q > k {
      MulAtLeast(q - k, m);
      assert false;
    }
    if q < k {
      MulAtLeast(k - q, m);
      assert false;
    }
  }

  lemma MulAtLeast(a: int, m: int)
    requires a >= 1 && m > 0
    ensures a * m >= m
  {
  }

  /** Adding the modulus does not change the remainder. */
  lemma ModShift(v: int, m: int)
    requires 0 < m
    ensures (v + m) % m == v % m
  {
    assert v == v / m * m + v % m;
    ModOf(v + m, m, v / m + 1, v % m);
  }
}
