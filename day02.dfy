/** Rock paper scissors: moves are numbered rock 1, paper 2, scissors 3; a round
    scores the own move plus 0, 3 or 6 for a loss, draw or win. */
module Day02 {

  /** `_char_to_num`: the distance from `offset`, counting `offset` itself as 1. */
  function CharToNum(ch: char, offset: char): int
  {
    ch as int - offset as int + 1
  }

  predicate IsMove(m: int)
  {
    1 <= m <= 3
  }

  /** Independent reference: rock beats scissors, paper beats rock, scissors
      beat paper. */
  predicate Beats(own: int, opponent: int)
  {
    (own == 1 && opponent == 3) || (own == 2 && opponent == 1) || (own == 3 && opponent == 2)
  }

  /** `_calc_round_score`: the outcome is `(own - opponent) mod 3` (0 draw,
      1 win, 2 loss), mapped to 3, 6 or 0 points. */
  function RoundScore(opponent: int, own: int): int
  {
    var outcome := (own - opponent) % 3;
    (outcome + 1) % 3 * 3 + own
  }

  /** `_find_round_move_for_outcome`: with the requested outcome 1 (lose),
      2 (draw) or 3 (win), solve the score formula for the own move; a
      remainder of 0 stands for move 3. */
  function MoveForOutcome(opponent: int, desired: int): (move: int)
    ensures IsMove(move)
    ensures (move - opponent) % 3 == (desired + 1) % 3
  {
    var d := (desired + 1) % 3;
    var r := (d + opponent) % 3;
    if r == 0 then 3 else r
  }

  /** `part1`: both letters are moves, "ABC" and "XYZ" each meaning rock, paper, scissors. */
  function Part1(strategy: seq<(char, char)>): int
  {
    if strategy == [] then 0
    else
      var (a, b) := strategy[|strategy| - 1];
      Part1(strategy[..|strategy| - 1]) + RoundScore(CharToNum(a, 'A'), CharToNum(b, 'X'))
  }

  /** `part2`: the second letter is the outcome to reach, "XYZ" meaning lose, draw, win. */
  function Part2(strategy: seq<(char, char)>): int
  {
    if strategy == [] then 0
    else
      var (a, b) := strategy[|strategy| - 1];
      var opponent := CharToNum(a, 'A');
      Part2(strategy[..|strategy| - 1]) + RoundScore(opponent, MoveForOutcome(opponent, CharToNum(b, 'X')))
  }

  predicate ValidStrategy(strategy: seq<(char, char)>)
  {
    forall i :: 0 <= i < |strategy| ==>
      'A' <= strategy[i].0 <= 'C' && 'X' <= strategy[i].1 <= 'Z'
  }

  // ---------------------------------------------------------------- properties

  /** The offset letter itself is 1, the numbering keeps the letters' order
      and tells different letters apart, so "ABC" and "XYZ" become 1, 2, 3. */
  lemma CharToNumOrder(ch1: char, ch2: char, offset: char)
    ensures CharToNum(offset, offset) == 1
    ensures CharToNum(ch1, offset) < CharToNum(ch2, offset) <==> ch1 < ch2
    ensures CharToNum(ch1, offset) == CharToNum(ch2, offset) <==> ch1 == ch2
    ensures CharToNum('Y', 'X') == 2
    ensures 'A' <= ch1 <= 'C' ==> IsMove(CharToNum(ch1, 'A'))
    ensures 'X' <= ch1 <= 'Z' ==> IsMove(CharToNum(ch1, 'X'))
  {
  }

  /** The score formula gives 3 for a draw, 6 for a win and 0 for a loss, on top
      of the own move, so every round scores between 1 and 9. */
  lemma RoundScoreOutcome(opponent: int, own: int)
    requires IsMove(opponent) && IsMove(own)
    ensures RoundScore(opponent, own) ==
      own + (if own == opponent then 3 else if Beats(own, opponent) then 6 else 0)
    ensures 1 <= RoundScore(opponent, own) <= 9
  {
  }

  /** The chosen move reaches the requested outcome: 1 loses, 2 draws, 3 wins. */
  lemma MoveForOutcomeCorrect(opponent: int, desired: int)
    requires IsMove(opponent) && IsMove(desired)
    ensures var move := MoveForOutcome(opponent, desired);
      (desired == 1 ==> Beats(opponent, move)) &&
      (desired == 2 ==> move == opponent) &&
      (desired == 3 ==> Beats(move, opponent)) &&
      RoundScore(opponent, move) == move + 3 * (desired - 1)
  {
    RoundScoreOutcome(opponent, MoveForOutcome(opponent, desired));
  }

  /** Part one scores between one and nine points per round of a valid strategy. */
  lemma {:induction false} Part1Bounds(strategy: seq<(char, char)>)
    requires ValidStrategy(strategy)
    ensures |strategy| <= Part1(strategy) <= 9 * |strategy|
    decreases |strategy|
  {
    if strategy != [] {
      var (a, b) := strategy[|strategy| - 1];
      Part1Bounds(strategy[..|strategy| - 1]);
      RoundScoreOutcome(CharToNum(a, 'A'), CharToNum(b, 'X'));
    }
  }

  /** Part two also scores between one and nine points per round, as each round
      scores the chosen move plus the requested outcome's points. */
  lemma {:induction false} Part2Bounds(strategy: seq<(char, char)>)
    requires ValidStrategy(strategy)
    ensures |strategy| <= Part2(strategy) <= 9 * |strategy|
    decreases |strategy|
  {
    if strategy != [] {
      var (a, b) := strategy[|strategy| - 1];
      Part2Bounds(strategy[..|strategy| - 1]);
      MoveForOutcomeCorrect(CharToNum(a, 'A'), CharToNum(b, 'X'));
    }
  }
}
