/** Tuning trouble: the marker is the position just after the first run of n
    characters that are all different. */
module Day06 {

  /** The characters occurring in `s`. */
  function Chars(s: string): set<char>
  {
    set k | 0 <= k < |s| :: s[k]
  }

  /** No character occurs twice. */
  predicate AllDifferent(s: string)
  {
    forall a, b :: 0 <= a < b < |s| ==> s[a] != s[b]
  }

  /** The window of n characters starting at j lies inside `data` and has no
      repeated character. */
  predicate Differs(data: string, j: nat, n: nat)
  {
    j + n <= |data| && AllDifferent(data[j..j + n])
  }

  /** Reference definition: the first window start from `i` on, among those
      the loop visits (`i < len(data) - n`), whose characters all differ,
      reported as its end `i + n`; -1 if there is none. */
  function MarkerFrom(data: string, n: nat, i: nat): int
    decreases |data| - i
  {
    if i + n >= |data| then -1
    else if Differs(data, i, n) then i + n
    else MarkerFrom(data, n, i + 1)
  }

  /** `_find`. */
  method Find(data: string, n: nat) returns (r: int)
    ensures r == MarkerFrom(data, n, 0)
  {
    var i := 0;
    while i + n < |data|
      invariant MarkerFrom(data, n, 0) == MarkerFrom(data, n, i)
    {
      // the set-size test of the source
      WindowTest(data[i..i + n]);
      if |Chars(data[i..i + n])| == n {
        return i + n;
      }
      i := i + 1;
    }
    r := -1;
  }

  method Part1(data: string) returns (r: int)
    ensures r == MarkerFrom(data, 4, 0)
  {
    r := Find(data, 4);
  }

  method Part2(data: string) returns (r: int)
    ensures r == MarkerFrom(data, 14, 0)
  {
    r := Find(data, 14);
  }

  // ---------------------------------------------------------------- properties

  lemma {:induction false} CharsBound(s: string)
    ensures |Chars(s)| <= |s|
    ensures AllDifferent(s) ==> |Chars(s)| == |s|
    decreases |s|
  {
    if s != [] {
      var init := s[..|s| - 1];
      CharsBound(init);
      assert Chars(s) == Chars(init) + {s[|s| - 1]};
      if AllDifferent(s) {
        assert AllDifferent(init);
        assert s[|s| - 1] !in Chars(init);
      }
    }
  }

  /** The set-size test of the source is exactly "all characters differ". */
  lemma {:induction false} WindowTest(s: string)
    ensures |Chars(s)| == |s| <==> AllDifferent(s)
    decreases |s|
  {
    CharsBound(s);
    if s != [] && !AllDifferent(s) {
      var a, b :| 0 <= a < b < |s| && s[a] == s[b];
      var t := s[..b] + s[b + 1..];
      assert Chars(s) <= Chars(t) by {
        forall k | 0 <= k < |s| ensures s[k] in Chars(t) {
          if k < b {
            assert t[k] == s[k];
          } else if k == b {
            assert t[a] == s[b];
          } else {
            assert t[k - 1] == s[k];
          }
        }
      }
      CharsBound(t);
      SubsetCardinality(Chars(s), Chars(t));
    }
  }

  lemma SubsetCardinality(a: set<char>, b: set<char>)
    requires a <= b
    ensures |a| <= |b|
  {
    assert b == a + (b - a);
  }

  /** A result other than -1 is the end of the first window whose characters
      all differ; it lies between n and len(data) - 1. -1 means that no
      visited window qualifies; the final window, ending at len(data), is
      never visited. */
  lemma {:induction false} MarkerCharacterization(data: string, n: nat, i: nat)
    ensures var r := MarkerFrom(data, n, i);
      (r == -1 <==> forall j :: i <= j < |data| - n ==> !Differs(data, j, n)) &&
      (r != -1 ==>
        i + n <= r < |data| && Differs(data, r - n, n) &&
        forall j :: i <= j < r - n ==> !Differs(data, j, n))
    decreases |data| - i
  {
    if i + n < |data| && !Differs(data, i, n) {
      MarkerCharacterization(data, n, i + 1);
    }
  }

  /** The example stream of the tests. */
  const Stream := "bvwbjplbgvbhsrlpgdmjqwftvncz"

  /** The example stream has its 4-marker at 5. */
  lemma Example4()
    ensures MarkerFrom(Stream, 4, 0) == 5
  {
    var d := Stream;
    assert d[0..4][0] == d[0..4][3];
    assert d[1] == 'v' && d[2] == 'w' && d[3] == 'b' && d[4] == 'j';
    var w := d[1..5];
    assert w[0] == 'v' && w[1] == 'w' && w[2] == 'b' && w[3] == 'j';
    assert Differs(d, 1, 4);
  }

  lemma EarlyWindowsRepeat()
    ensures !Differs(Stream, 0, 14) && !Differs(Stream, 1, 14) && !Differs(Stream, 2, 14) && !Differs(Stream, 3, 14) && !Differs(Stream, 4, 14) && !Differs(Stream, 5, 14) && !Differs(Stream, 6, 14) && !Differs(Stream, 7, 14) && !Differs(Stream, 8, 14)
  {
    var d := Stream;
    assert d[0] == d[3] && d[0..14][0] == d[0..14][3];
    assert d[1] == d[9] && d[1..15][0] == d[1..15][8];
    assert d[3] == d[7] && d[2..16][1] == d[2..16][5];
    assert d[3] == d[7] && d[3..17][0] == d[3..17][4];
    assert d[7] == d[10] && d[4..18][3] == d[4..18][6];
    assert d[7] == d[10] && d[5..19][2] == d[5..19][5];
    assert d[7] == d[10] && d[6..20][1] == d[6..20][4];
    assert d[7] == d[10] && d[7..21][0] == d[7..21][3];
    assert d[8] == d[16] && d[8..22][0] == d[8..22][8];
  }

  lemma NinthWindowDiffers()
    ensures Differs(Stream, 9, 14)
  {
    var w := Stream[9..23];
    assert w == "vbhsrlpgdmjqwf";
    forall a, b | 0 <= a < b < |w| ensures w[a] != w[b] {
      if a == 0 {} else if a == 1 {} else if a == 2 {} else if a == 3 {} else if a == 4 {}
      else if a == 5 {} else if a == 6 {} else if a == 7 {} else if a == 8 {} else if a == 9 {}
      else if a == 10 {} else if a == 11 {} else if a == 12 {}
    }
  }

  /** The same stream has its 14-marker at 23. */
  lemma Example14()
    ensures MarkerFrom(Stream, 14, 0) == 23
  {
    EarlyWindowsRepeat();
    NinthWindowDiffers();
    assert MarkerFrom(Stream, 14, 9) == 23;
    assert MarkerFrom(Stream, 14, 8) == 23;
    assert MarkerFrom(Stream, 14, 7) == 23;
    assert MarkerFrom(Stream, 14, 6) == 23;
    assert MarkerFrom(Stream, 14, 5) == 23;
    assert MarkerFrom(Stream, 14, 4) == 23;
    assert MarkerFrom(Stream, 14, 3) == 23;
    assert MarkerFrom(Stream, 14, 2) == 23;
    assert MarkerFrom(Stream, 14, 1) == 23;
  }
}
