/** Balanced base-five ("SNAFU") numerals: digits '2', '1', '0', '-', '='
    worth 2, 1, 0, -1, -2, most significant digit first. */
module Day25 {
  import opened Common

  const Base := 5
  /** Added before each remainder so that remainders 0..4 become digits -2..2. */
  const Offset := 2

  predicate IsSnafuDigit(c: char)
  {
    c == '2' || c == '1' || c == '0' || c == '-' || c == '='
  }

  /** The digit table `_SNAFU_DIGITS`. */
  function DigitValue(c: char): (v: int)
    requires IsSnafuDigit(c)
    ensures -2 <= v <= 2
  {
    match c
    case '2' => 2
    case '1' => 1
    case '0' => 0
    case '-' => -1
    case '=' => -2
  }

  /** The table `_DECIMAL_TO_SNAFU`: remainder k (after the offset) to its digit. */
  function EncodeDigit(k: int): (c: char)
    requires 0 <= k < Base
    ensures IsSnafuDigit(c) && DigitValue(c) == k - Offset
  {
    match k
    case 0 => '='
    case 1 => '-'
    case 2 => '0'
    case 3 => '1'
    case 4 => '2'
  }

  predicate AllSnafuDigits(s: string)
  {
    forall i :: 0 <= i < |s| ==> IsSnafuDigit(s[i])
  }

  function Pow5(k: nat): (p: nat)
    ensures p >= 1
  {
    if k == 0 then 1 else 5 * Pow5(k - 1)
  }

  /** Positional value, most significant digit first. */
  function Value(s: string): int
    requires AllSnafuDigits(s)
  {
    if s == [] then 0 else Base * Value(s[..|s| - 1]) + DigitValue(s[|s| - 1])
  }

  /** What `snafu_to_decimal` computes: a KeyError for a character outside the table. */
  function Decode(s: string): Option<int>
  {
    if AllSnafuDigits(s) then Some(Value(s)) else None
  }

  /** What `decimal_to_snafu` computes: the empty string for every n <= 0. */
  function Encode(n: int): string
    decreases if n > 0 then n else 0
  {
    if n <= 0 then "" else Encode((n + Offset) / Base) + [EncodeDigit((n + Offset) % Base)]
  }

  /** Canonical numerals: digits only, and a leading digit of '1' or '2'. */
  predicate Canonical(s: string)
  {
    AllSnafuDigits(s) && (s != [] ==> s[0] == '1' || s[0] == '2')
  }

  // ---------------------------------------------------------------- the loops

  method SnafuToDecimal(snafu: string) returns (r: Option<int>)
    ensures r == Decode(snafu)
  {
    var decimal := 0;
    var i := 0;
    while i < |snafu|
      invariant 0 <= i <= |snafu|
      invariant AllSnafuDigits(snafu[..i])
      invariant decimal == Base * Value(snafu[..i])
    {
      var ch := snafu[i];
      if !IsSnafuDigit(ch) {
        assert !AllSnafuDigits(snafu);
        return None;
      }
      assert snafu[..i + 1][..i] == snafu[..i];
      decimal := decimal + DigitValue(ch);
      decimal := decimal * Base;
      i := i + 1;
    }
    assert snafu[..i] == snafu;
    r := Some(decimal / Base);
  }

  method DecimalToSnafu(n: int) returns (snafu: string)
    ensures snafu == Encode(n)
  {
    var decimal := n;
    snafu := "";
    while decimal > 0
      invariant Encode(n) == Encode(decimal) + snafu
      decreases decimal
    {
      decimal := decimal + Offset;
      snafu := [EncodeDigit(decimal % Base)] + snafu;
      decimal := decimal / Base;
    }
  }

  method Part1(numbers: seq<string>) returns (r: Option<string>)
    ensures r.Some? <==> forall i :: 0 <= i < |numbers| ==> AllSnafuDigits(numbers[i])
    ensures r.Some? ==> r.value == Encode(SumOfValues(numbers))
    ensures r.Some? && SumOfValues(numbers) >= 0 ==> Decode(r.value) == Some(SumOfValues(numbers))
    ensures r.Some? && SumOfValues(numbers) <= 0 ==> r.value == ""
  {
    var total := 0;
    for i := 0 to |numbers|
      invariant forall k :: 0 <= k < i ==> AllSnafuDigits(numbers[k])
      invariant total == SumOfValues(numbers[..i])
    {
      var d := SnafuToDecimal(numbers[i]);
      if d.None? {
        return None;
      }
      assert numbers[..i + 1][..i] == numbers[..i];
      total := total + d.value;
    }
    assert numbers[..|numbers|] == numbers;
    var s := DecimalToSnafu(total);
    if total >= 0 {
      EncodeValue(total);
    }
    r := Some(s);
  }

  function SumOfValues(numbers: seq<string>): int
    requires forall i :: 0 <= i < |numbers| ==> AllSnafuDigits(numbers[i])
  {
    if numbers == [] then 0
    else SumOfValues(numbers[..|numbers| - 1]) + Value(numbers[|numbers| - 1])
  }

  // ---------------------------------------------------------------- properties

  /** Encoding produces only table digits, and a canonical numeral. */
  lemma {:induction false} EncodeCanonical(n: int)
    ensures Canonical(Encode(n))
    ensures n > 0 ==> Encode(n) != []
    decreases if n > 0 then n else 0
  {
    if n > 0 {
      var q := (n + Offset) / Base;
      EncodeCanonical(q);
      var e := Encode(n);
      assert e == Encode(q) + [EncodeDigit((n + Offset) % Base)];
      if q == 0 {
        assert n == 1 || n == 2;
        assert e[0] == EncodeDigit((n + Offset) % Base);
      } else {
        assert e[0] == Encode(q)[0];
      }
    }
  }

  /** Round trip: decoding the encoding of any n >= 0 gives n back. */
  lemma {:induction false} EncodeValue(n: int)
    requires n >= 0
    ensures AllSnafuDigits(Encode(n)) && Value(Encode(n)) == n
    ensures Decode(Encode(n)) == Some(n)
    decreases n
  {
    EncodeCanonical(n);
    if n > 0 {
      var q := (n + Offset) / Base;
      EncodeValue(q);
      var e := Encode(n);
      assert e[..|e| - 1] == Encode(q);
    }
  }

  lemma {:induction false} ValuePrepend(c: char, s: string)
    requires IsSnafuDigit(c) && AllSnafuDigits(s)
    ensures AllSnafuDigits([c] + s)
    ensures Value([c] + s) == DigitValue(c) * Pow5(|s|) + Value(s)
    decreases |s|
  {
    if s != [] {
      var t := [c] + s;
      assert t[..|t| - 1] == [c] + s[..|s| - 1];
      ValuePrepend(c, s[..|s| - 1]);
    }
  }

  /** k digits can express at most (5^k - 1) / 2 in absolute value. */
  lemma {:induction false} ValueBound(s: string)
    requires AllSnafuDigits(s)
    ensures 2 * Value(s) <= Pow5(|s|) - 1
    ensures -2 * Value(s) <= Pow5(|s|) - 1
    decreases |s|
  {
    if s != [] {
      ValueBound(s[..|s| - 1]);
    }
  }

  lemma CanonicalPositive(s: string)
    requires Canonical(s) && s != []
    ensures Value(s) > 0
  {
    assert s == [s[0]] + s[1..];
    ValuePrepend(s[0], s[1..]);
    ValueBound(s[1..]);
  }

  /** Round trip the other way: a canonical numeral is the encoding of its value,
      so every non-negative number has exactly one canonical numeral. */
  lemma {:induction false} DecodeEncode(s: string)
    requires Canonical(s)
    ensures Encode(Value(s)) == s
    decreases |s|
  {
    if s != [] {
      CanonicalPositive(s);
      var p := s[..|s| - 1];
      var c := s[|s| - 1];
      var n := Value(s);
      assert (n + Offset) % Base == DigitValue(c) + Offset;
      assert (n + Offset) / Base == Value(p);
      assert EncodeDigit(DigitValue(c) + Offset) == c;
      if p != [] {
        assert p[0] == s[0];
      }
      DecodeEncode(p);
    }
  }

  // The worked examples of the test suite.

  lemma Example1747()
    ensures Decode("1=-0-2") == Some(1747) && Encode(1747) == "1=-0-2"
  {
    assert Value("1") == 1;
    assert "1="[..1] == "1";
    assert Value("1=") == 3;
    assert "1=-"[..2] == "1=";
    assert Value("1=-") == 14;
    assert "1=-0"[..3] == "1=-";
    assert Value("1=-0") == 70;
    assert "1=-0-"[..4] == "1=-0";
    assert Value("1=-0-") == 349;
    assert "1=-0-2"[..5] == "1=-0-";
    assert Value("1=-0-2") == 1747;
    DecodeEncode("1=-0-2");
  }

  lemma Example906()
    ensures Decode("12111") == Some(906) && Encode(906) == "12111"
  {
    assert Value("1") == 1;
    assert "12"[..1] == "1";
    assert Value("12") == 7;
    assert "121"[..2] == "12";
    assert Value("121") == 36;
    assert "1211"[..3] == "121";
    assert Value("1211") == 181;
    assert "12111"[..4] == "1211";
    assert Value("12111") == 906;
    DecodeEncode("12111");
  }

  lemma Example4890()
    ensures Decode("2=-1=0") == Some(4890) && Encode(4890) == "2=-1=0"
  {
    assert Value("2") == 2;
    assert "2="[..1] == "2";
    assert Value("2=") == 8;
    assert "2=-"[..2] == "2=";
    assert Value("2=-") == 39;
    assert "2=-1"[..3] == "2=-";
    assert Value("2=-1") == 196;
    assert "2=-1="[..4] == "2=-1";
    assert Value("2=-1=") == 978;
    assert "2=-1=0"[..5] == "2=-1=";
    assert Value("2=-1=0") == 4890;
    DecodeEncode("2=-1=0");
  }

  lemma Example198()
    ensures Decode("2=0=") == Some(198)
  {
    assert Value("2") == 2;
    assert "2="[..1] == "2";
    assert Value("2=") == 8;
    assert "2=0"[..2] == "2=";
    assert Value("2=0") == 40;
    assert "2=0="[..3] == "2=0";
    assert Value("2=0=") == 198;
  }
}
