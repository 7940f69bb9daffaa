# Advent of Code 2022 solvers, modelled in Dafny

This project models the puzzle solvers of an Advent of Code 2022 repository.
Each solver reads its puzzle input, computes an integer or string answer for
part 1 and part 2, and carries example tests with the answers from the puzzle
text. There is one Dafny module per solver (`Day01` to `Day25`, without
`Day12` and `Day15`) and a shared module `Common`. `Common` holds the
result types, list sums, an insertion sort, `min`/`max`, Python's `int()` on
digit strings and numpy-style indexing.

The model keeps each solver's own form.

- **Pure solvers** become functions with lemmas about them. These are the
  calorie groups (day 1), rock-paper-scissors scoring (2), rucksacks (3),
  section ranges (4), marker search (6), valve search (16) and robot
  blueprints (19). The SNAFU numerals (25) are functions too, except
  that the two conversion loops are methods proved equal to them.
- **Solvers that update state in place** become classes or methods over
  arrays, maps and sequences. Each is proved against a specification
  function. These are:
  - the crate stacks (`Day05.Crane`);
  - the directory-size table (7);
  - the tree-visibility arrays (8);
  - the rope knots (9);
  - the monkey item queues (`Day11.MonkeyGame`);
  - the sand cave (`Day14.Cave`);
  - the falling-rock tower (17);
  - the 3-D flood fill (18);
  - the index permutation of the mixer (20);
  - the board walker (`Day22.Board`);
  - the elf rounds (23);
  - the blizzard valley (`Day24.Blizzards`).

Python exceptions (`KeyError`, `IndexError`, `ValueError`, `ZeroDivisionError`,
`min`/`max` of an empty sequence) are modelled as `None` results, except
where "## Left out" names a precondition that excludes them instead. Complex-number coordinates are integer
pairs (row, column). Python's floor division and modulo are written out where
operands can be negative.

Functions that only define what the source computes (a comprehension, a
recursive definition such as `Day13.Compare`, `Day25.Decode` or the wraps of
`Day22`) have no row of their own: the rows of the lemmas and methods about
them state what they mean.

## Model

| member | source | states |
|---|---|---|
| `Common.SumAppend` | aoc/day01.py:12 | the sum of a concatenation is the sum of the parts |
| `Common.SumNonNegative` | aoc/day01.py:12 | a sum of non-negative numbers is non-negative |
| `Common.Max` | aoc/day01.py:13 | `max` of a non-empty list is one of its elements and at least every element |
| `Common.Insert` | aoc/day01.py:17 | inserting into a sorted list keeps it sorted and adds exactly the new element |
| `Common.SortAscending` | aoc/day01.py:17 | `sort` gives an ascending permutation of its input |
| `Common.SortedLastIsMax` | aoc/day01.py:17-18 | the last element of the sorted list is the maximum |
| `Common.SortedKeys` | aoc/day05.py:29 | `sorted(keys)` lists every key exactly once in increasing order |
| `Common.MinOf` | aoc/day23.py:72 | `min` of a non-empty set is an element no greater than any other |
| `Common.MaxOf` | aoc/day23.py:72 | `max` of a non-empty set is an element no smaller than any other |
| `Common.ParseInt` | aoc/day21.py:13 | `int` accepts a digit string with its decimal value, and an unsigned result is never negative |
| `Common.ParseIntNegative` | aoc/day21.py:13 | `int` accepts a leading minus or plus sign |
| `Common.AxisIndex` | aoc/day24.py:31 | a numpy index along an axis of length n is valid exactly from -n to n - 1, negative indices counting from the end |
| `Day01.Parse` | aoc/day01.py:6-8 | there is one more group than there are blank lines, and the groups together hold every item in order |
| `Day01.UnparseParse` | aoc/day01.py:6-8 | writing the groups back with one blank line between consecutive groups gives the input lines again, so each group holds exactly the items between two neighbouring blank lines |
| `Day01.ParseUnparse` | aoc/day01.py:6-8 | conversely, any non-empty list of groups written out that way parses back to the same groups |
| `Day01.ParseItems` | aoc/day01.py:7 | item lines after the input extend its last group by those items |
| `Day01.GroupSumsTotal` | aoc/day01.py:12 | there is one total per elf (`GroupSums`), and the totals add up to the sum of all items |
| `Day01.Part1` | aoc/day01.py:11-13 | no answer for no elves; otherwise the answer is some elf's total and at least every elf's total |
| `Day01.SumOfTail3` | aoc/day01.py:18 | the sum of the last three entries is the three entries added |
| `Day01.Part2TopThree` | aoc/day01.py:16-18 | for `Part2`: the sorted totals are a permutation of the totals, part 2 adds the last three, and no three other totals add to more |
| `Day01.TopThreeOfSorted` | aoc/day01.py:17-18 | in a sorted sequence the last three entries have the largest sum of any three |
| `Day01.RearrangedSumsNonNegative` | aoc/day01.py:17 | with non-negative calories every rearranged total is non-negative |
| `Day01.TailAtLeastLast` | aoc/day01.py:18 | with non-negative entries a suffix sums to at least its last entry |
| `Day01.Part2AtLeastPart1` | aoc/day01.py:11-18 | with non-negative calories the top three together are at least the top one |
| `Day02.CharToNumOrder` | aoc/day02.py:9-16 | `CharToNum` numbers the offset letter 1, keeps the letters' order and tells different letters apart, so the letters A-C and X-Z become the moves 1-3; the docstring's example gives 2 |
| `Day02.MoveForOutcome` | aoc/day02.py:37-44 | the chosen move is a move (1-3) whose difference from the opponent's gives the desired outcome modulo 3 |
| `Day02.RoundScoreOutcome` | aoc/day02.py:19-29 | `RoundScore`: a round scores the own move plus 3 for a draw, 6 for a win and 0 for a loss, so between 1 and 9 |
| `Day02.MoveForOutcomeCorrect` | aoc/day02.py:37-44 | X loses, Y draws and Z wins against the opponent, and the round scores the move plus three times the outcome index |
| `Day02.Part1Bounds` | aoc/day02.py:32-34 | `Part1`: the total of part 1 lies between one and nine points per round |
| `Day02.Part2Bounds` | aoc/day02.py:47-53 | `Part2`: the total of part 2 lies between one and nine points per round |
| `Day03.HalfHalf` | aoc/day03.py:9-11 | the two halves put back together are the line; the first has half the length, rounded down |
| `Day03.Single` | aoc/day03.py:24 | unpacking succeeds exactly when the shared set has one element, and yields that element |
| `Day03.SharedItem` | aoc/day03.py:23-25 | an item is found exactly when the two compartments share one item, and it is that item, present in both halves |
| `Day03.Badge` | aoc/day03.py:31-33 | a badge is found exactly when the three rucksacks share one item, and it is that item, present in all three |
| `Day03.Part1` | aoc/day03.py:20-26 | part 1 fails exactly when some rucksack does not share exactly one item between its halves |
| `Day03.PriorityRanges` | aoc/day03.py:14-17 | `Priority`: lower-case letters score 1-26, upper-case 27-52, and different letters score differently |
| `Day03.BadgeSumDefined` | aoc/day03.py:29-34 | for `Part2`: the badge sum over the first groups exists exactly when every group has a single badge |
| `Day03.Part1Bounds` | aoc/day03.py:20-26 | with letter items part 1 lies between 1 and 52 per rucksack |
| `Day04.Sections` | aoc/day04.py:11 | the set holds exactly the section numbers from lo to hi |
| `Day04.Parse` | aoc/day04.py:7-12 | one pair per line; a section number belongs to the first set exactly when it lies between the line's first and second numbers, and to the second set exactly when it lies between the third and fourth |
| `Day04.Part1` | aoc/day04.py:15-23 | never counts more than the number of pairs |
| `Day04.Part1Counts` | aoc/day04.py:15-23 | part 1 is the number of pairs where one range is a subset of the other |
| `Day04.Part2` | aoc/day04.py:15-27 | never counts more than the number of pairs |
| `Day04.Part2Counts` | aoc/day04.py:15-27 | part 2 is the number of pairs whose ranges intersect |
| `Day04.ContainsByEnds` | aoc/day04.py:11-23 | one range contains another exactly when its ends enclose the other's |
| `Day04.OverlapByEnds` | aoc/day04.py:11-27 | two ranges overlap exactly when both are non-empty and each starts before the other ends |
| `Day04.ContainsImpliesOverlap` | aoc/day04.py:15-27 | for non-empty ranges, containment implies overlap |
| `Day04.Part1AtMostPart2` | aoc/day04.py:15-27 | with non-empty ranges part 1 never exceeds part 2 |
| `Day05.Reverse` | aoc/day05.py:34-35 | the reversal has the same length as the input |
| `Day05.ReverseIndex` | aoc/day05.py:34-35 | the reversal holds the entries back to front |
| `Day05.PushRow` | aoc/day05.py:20-22 | after one drawing row, a stack exists exactly where it did before or where the row has a crate, and it gains that crate on top |
| `Day05.Parse` | aoc/day05.py:15-22 | read bottom row first, stack i exists exactly when its column holds a crate, and holds that column's crates bottom to top |
| `Day05.Tops` | aoc/day05.py:28-29 | the top crates of the stacks in ascending key order; an empty stack raises IndexError (None) |
| `Day05.TopsOf` | aoc/day05.py:29 | for any list of keys, one top crate per key, failing exactly when one of those stacks is empty |
| `Day05.TopsOfAll` | aoc/day05.py:28-29 | once the keys list every stack, the tops fail exactly when some stack is empty, and otherwise match the stacks key by key |
| `Day05.Crane.constructor` | aoc/day05.py:18 | the crane starts with the given stacks |
| `Day05.Crane.MoveOneAtATime` | aoc/day05.py:33-35 | n single pops and appends succeed exactly when the crate-by-crate model does, and leave its stacks |
| `Day05.Crane.MoveBlock` | aoc/day05.py:41-43 | the extend-and-delete of the last n crates leaves the block-move model's stacks |
| `Day05.Crane.Part1` | aoc/day05.py:32-37 | the answer is the tops after all single-crate moves, or an error if a pop hits an empty stack |
| `Day05.Crane.Part2` | aoc/day05.py:40-45 | the answer is the tops after all block moves |
| `Day05.CrateByCrateDefined` | aoc/day05.py:34-35 | moving crate by crate between two stacks succeeds exactly when the source holds at least n crates |
| `Day05.CrateByCrateEffect` | aoc/day05.py:34-35 | the source loses its top n crates and the destination gains them in reverse order |
| `Day05.CrateByCrateFrame` | aoc/day05.py:34-35 | no other stack changes or appears |
| `Day05.MoveBlockEffect` | aoc/day05.py:42-43 | the top n crates move in their order; `[-0:]` or an n beyond the stack moves the whole stack; no crate is lost; other stacks are untouched |
| `Day05.MoveBlockSameStack` | aoc/day05.py:42-43 | moving a stack onto itself keeps it unchanged, except that n = 0 empties it |
| `Day06.Find` | aoc/day06.py:5-9 | the loop returns the first marker position from the start, or -1 |
| `Day06.Part1` | aoc/day06.py:12-13 | the packet marker uses windows of 4 |
| `Day06.Part2` | aoc/day06.py:16-17 | the message marker uses windows of 14 |
| `Day06.CharsBound` | aoc/day06.py:7 | a window has at most as many distinct characters as its length, and exactly that many when all differ |
| `Day06.WindowTest` | aoc/day06.py:7 | the set-size test holds exactly when all characters of the window differ |
| `Day06.MarkerCharacterization` | aoc/day06.py:5-9 | -1 exactly when no window of distinct characters starts before the last n positions; otherwise the end of the first such window |
| `Day06.Example4` | aoc/day06.py:26-35 | the example stream's packet marker is 5 |
| `Day06.EarlyWindowsRepeat` | aoc/day06.py:26-43 | the first nine 14-character windows of the example repeat a character |
| `Day06.NinthWindowDiffers` | aoc/day06.py:26-43 | the tenth 14-character window of the example is all different |
| `Day06.Example14` | aoc/day06.py:26-43 | the example stream's message marker is 23 |
| `Day07.ClassifyTokens` | aoc/day07.py:15-28 | a command written out as a terminal line reads back as the same command, unless the line also matches an earlier case (a directory named `/` or `..`, a size token `$` or `dir`) |
| `Day07.DirectorySizes` | aoc/day07.py:11-30 | the imperative loop over the lines ends in the state the command-by-command model reaches on the classified lines (`Commands`), including the NameError and IndexError failures |
| `Day07.AddFile` | aoc/day07.py:26-28 | the inner loop adds the file size to every directory on the stack, as the functional model does |
| `Day07.ValuesOfTable` | aoc/day07.py:35 | when the insertion order lists exactly the table's keys, `Values` has one entry per directory and holds exactly the table's sizes |
| `Day07.SmallestAtLeast` | aoc/day07.py:48 | `min` raises exactly when no size reaches the bound; otherwise the result is one of the sizes, reaches the bound and is the smallest such |
| `Day07.Part1` | aoc/day07.py:33-35 | the sum of the directory sizes of at most 100000, or the failure of the session |
| `Day07.Part2` | aoc/day07.py:38-48 | the smallest directory whose deletion frees the 30000000 needed out of 70000000, or the failure of the session |
| `Day07.UniqueParent` | aoc/day07.py:21 | a directory path has a single parent path |
| `Day07.GrowingFacts` | aoc/day07.py:17-21 | the open-directory stack lengthens strictly, so its paths are distinct and only the first is the root |
| `Day07.ChainFacts` | aoc/day07.py:17-21 | a stack built by `cd` is growing, distinct, and every path ends in a slash |
| `Day07.AddToAllSizes` | aoc/day07.py:27-28 | adding a file adds its size to exactly the directories on the stack and creates missing entries |
| `Day07.AddToAllOrder` | aoc/day07.py:27-28 | the insertion order stays in step with the dictionary keys, without repeats |
| `Day07.ParentOnChain` | aoc/day07.py:21 | on the stack, a directory's parent sits directly below it |
| `Day07.AddFileClosed` | aoc/day07.py:27-28 | every directory with a size has its parent sized too |
| `Day07.AddFileDominates` | aoc/day07.py:27-28 | a parent is at least as large as each child |
| `Day07.AddFileRootLargest` | aoc/day07.py:27-28 | the root is sized and the largest directory |
| `Day07.AddFileKeepsInv` | aoc/day07.py:26-28 | a file line keeps the table invariant |
| `Day07.StepKeepsInv` | aoc/day07.py:15-28 | every command keeps the table invariant |
| `Day07.RunKeepsInv` | aoc/day07.py:14-30 | the whole session keeps the table invariant |
| `Day07.RootTotal` | aoc/day07.py:14-30 | the root's size grows by the total of the files listed while the stack is open |
| `Day07.RootStep` | aoc/day07.py:15-28 | one command adds to the root exactly its share of the listed total, and keeps the stack well formed |
| `Day07.SessionTable` | aoc/day07.py:11-30 | after a session from scratch the table is consistent and the root holds every listed file |
| `Day07.SmallTotalBounds` | aoc/day07.py:35 | the part 1 sum lies between 0 and 100000 per directory |
| `Day07.SmallestToDeleteDefined` | aoc/day07.py:38-48 | on a consistent table part 2 always finds a directory (the root qualifies), at most the root's size, that frees enough space |
| `Day08.RowCount` | aoc/day08.py:33 | a row prefix counts at most its length |
| `Day08.OrSide` | aoc/day08.py:28-31 | or-ing one side's visibility into the map leaves each cell true exactly when it was, or the tree is visible from that side |
| `Day08.OrRow` | aoc/day08.py:28-31 | the same, for one row, leaving every other row untouched |
| `Day08.VisibleMap` | aoc/day08.py:25-31 | the visibility map marks exactly the trees visible from some side |
| `Day08.Part1` | aoc/day08.py:21-33 | the count of visible trees |
| `Day08.CountRow` | aoc/day08.py:33 | one row's count of marked cells |
| `Day08.RunMax` | aoc/day08.py:47 | the maximum of a non-empty line is one of its entries and at least every entry |
| `Day08.FirstBlocking` | aoc/day08.py:46-48 | the index of the first tree at least as tall as h, or the length when none is |
| `Day08.ScoreMap` | aoc/day08.py:62-67 | interior cells hold their scenic score and edge cells 0 |
| `Day08.ScoreRow` | aoc/day08.py:66-67 | one interior row gets its scores and no other row changes |
| `Day08.ArrayMax` | aoc/day08.py:68 | the array maximum is attained and bounds every cell |
| `Day08.Part2` | aoc/day08.py:58-68 | none for an empty forest (numpy's max raises); otherwise a non-negative value at least every interior score and equal to one of them or 0 |
| `Day08.PaddedMaxBounds` | aoc/day08.py:17-18 | the running maximum after the -1 padding is at least -1, bounds the prefix and is attained unless it is the padding |
| `Day08.VisibleInLineMeaning` | aoc/day08.py:17-18 | a tree is visible along a line exactly when every tree before it is shorter |
| `Day08.VisibleFromTopMeaning` | aoc/day08.py:28 | read along a `Column`, visible from the top exactly when every tree above is shorter |
| `Day08.VisibleFromLeftMeaning` | aoc/day08.py:29 | visible from the left exactly when every tree to the left is shorter |
| `Day08.VisibleReversedMeaning` | aoc/day08.py:30-31 | on a line turned back to front by `Reverse`, visible exactly when every later tree is shorter |
| `Day08.VisibleFromBottomMeaning` | aoc/day08.py:30 | visible from the bottom exactly when every tree below is shorter |
| `Day08.VisibleFromRightMeaning` | aoc/day08.py:31 | visible from the right exactly when every tree to the right is shorter |
| `Day08.EdgesVisible` | aoc/day08.py:15-18 | every tree on the edge is visible |
| `Day08.TopRowCounted` | aoc/day08.py:15-33 | every tree of the top row is counted |
| `Day08.RunMaxAtLeast` | aoc/day08.py:47-48 | the running maximum reaches h exactly when some tree does |
| `Day08.CountBelowIsFirstBlocking` | aoc/day08.py:47-48 | counting the running maxima below h gives the index of the first blocking tree |
| `Day08.ViewDistanceMeaning` | aoc/day08.py:46-48 | the view distance counts the trees up to and including the first blocking one, or all of them; it is between 1 and the line length |
| `Day08.ScoreNonNegative` | aoc/day08.py:36-55 | an interior tree scores at least 1 |
| `Day09.Repeat` | aoc/day09.py:27 | a list of `times` copies of the direction, empty for a non-positive count |
| `Day09.Lookup` | aoc/day09.py:29 | every letter maps to its direction vector, failing (KeyError) exactly when some letter is not U, R, D or L |
| `Day09.DirectionVec` | aoc/day09.py:32-37 | the clipped move changes each coordinate by at most one |
| `Day09.Part1` | aoc/day09.py:41-52 | the loop counts the distinct tail positions of the two-knot rope |
| `Day09.PullFrom` | aoc/day09.py:63-67 | pulling the knots after the head keeps the rope's length |
| `Day09.MoveRope` | aoc/day09.py:60-67 | one move keeps the rope's length |
| `Day09.Rope` | aoc/day09.py:57-67 | the rope has ten knots |
| `Day09.Part2` | aoc/day09.py:56-71 | the loop counts the distinct positions of the last of ten knots |
| `Day09.ExpandLength` | aoc/day09.py:26-28 | the expanded move list has one entry per counted step |
| `Day09.UnitMoves` | aoc/day09.py:9-29 | every parsed move is one square up, right, down or left |
| `Day09.FollowMovesWhenApart` | aoc/day09.py:47-49 | a knot within two squares stays put exactly when it touches the one ahead |
| `Day09.FollowKeepsTouching` | aoc/day09.py:46-49 | after the head moves one square, the tail follows to touch it again, moving at most one square each way |
| `Day09.PullFromKeepsTaut` | aoc/day09.py:63-67 | pulling the rest of a rope whose front moved by at most one square leaves every pair of neighbours touching |
| `Day09.MoveRopeKeepsTaut` | aoc/day09.py:60-67 | one unit move keeps the rope taut |
| `Day09.RopeTaut` | aoc/day09.py:56-69 | after any sequence of unit moves every pair of neighbouring knots touches |
| `Day09.Rope2Touching` | aoc/day09.py:41-50 | after any sequence of unit moves head and tail touch |
| `Day09.TrailBounds` | aoc/day09.py:43-58 | both trails contain the origin and at most one new position per move |
| `Day09.TwoKnotRope` | aoc/day09.py:45-67 | the ten-knot step on a two-knot rope is the part 1 step |
| `Day10.Parse` | aoc/day10.py:7-16 | the loop builds the per-cycle addition list of the whole program |
| `Day10.ProgramFails` | aoc/day10.py:13-15 | once a line fails to parse, the whole program fails |
| `Day10.CumSum` | aoc/day10.py:20 | the running sum has one entry per input entry |
| `Day10.RegisterValues` | aoc/day10.py:20 | one register value per cycle, plus the final one |
| `Day10.Image` | aoc/day10.py:25-28 | the reshape needs at least 240 values; the image has 6 rows of 40 pixels, each lit exactly when the sprite covers it at its cycle |
| `Day10.LineCycles` | aoc/day10.py:11-15 | `noop` takes one cycle adding 0; `addx v` takes two, adding 0 then v |
| `Day10.ProgramLength` | aoc/day10.py:9-16 | the list has one entry per cycle the program runs |
| `Day10.CumSumIsPrefixSum` | aoc/day10.py:20 | each running-sum entry is the sum of the prefix up to it |
| `Day10.RegisterDuringCycle` | aoc/day10.py:20 | the register value list holds X during each cycle |
| `Day10.Part1SignalStrength` | aoc/day10.py:19-21 | with 220 cycles the answer is the sum of cycle times X at cycles 20, 60, ..., 220 |
| `Day10.Part1Broadcast` | aoc/day10.py:21 | a short program makes numpy's slice wrap to the single value at cycle 20, broadcast across the six factors |
| `Day10.LitMeaning` | aoc/day10.py:26-27 | a pixel is lit exactly when the CRT column is within one of the sprite position |
| `Day11.OperationOf` | aoc/day11.py:35-40 | the operation computes "new = old <symbol> <operand>" on every worry level: a product for '*', a sum otherwise, with a non-numeric operand (`old`) standing for the old level |
| `Day11.Rules` | aoc/day11.py:23-25 | one (operation, test, targets) rule per monkey |
| `Day11.Throw` | aoc/day11.py:63-66 | throwing an item changes no monkey's rules |
| `Day11.ThrowAll` | aoc/day11.py:62-66 | throwing a monkey's items changes no rules |
| `Day11.Turn` | aoc/day11.py:61-68 | a monkey's turn changes no rules |
| `Day11.Turns` | aoc/day11.py:61-68 | the first k turns of a round change no rules |
| `Day11.Round` | aoc/day11.py:60-68 | a round changes no rules |
| `Day11.Rounds` | aoc/day11.py:82-83 | any number of rounds changes no rules |
| `Day11.MonkeyGame.constructor` | aoc/day11.py:53-55 | the game holds the given monkeys and worry reduction |
| `Day11.MonkeyGame.ThrowItems` | aoc/day11.py:62-66 | the in-place appends leave the monkeys as the functional throw of those items |
| `Day11.MonkeyGame.SingleRound` | aoc/day11.py:60-68 | the in-place round leaves the monkeys as the functional round |
| `Day11.Part1` | aoc/day11.py:80-85 | monkey business after 20 rounds with worry divided by 3 |
| `Day11.CommonMultiple` | aoc/day11.py:89 | the product of positive divisors is positive |
| `Day11.Part2` | aoc/day11.py:88-95 | monkey business after 10000 rounds with worry reduced modulo the product of the tests |
| `Day11.TotalItemsUpdate` | aoc/day11.py:66-68 | replacing one monkey changes the item total by the difference in its items |
| `Day11.ThrowAllTotal` | aoc/day11.py:62-66 | throwing items adds them to the total without touching the thrower's list or count |
| `Day11.TurnEffect` | aoc/day11.py:61-68 | after its turn a monkey holds nothing, has inspected each item once more, and no item is lost |
| `Day11.TurnsKeepItems` | aoc/day11.py:61-68 | turns keep the number of items |
| `Day11.RoundsKeepItems` | aoc/day11.py:82-93 | any number of rounds keeps the number of items |
| `Day11.CommonMultipleDivisible` | aoc/day11.py:89 | the product of the tests is divisible by every test |
| `Day11.OperationCongruent` | aoc/day11.py:38-40 | every operation respects congruence modulo p |
| `Day11.ReductionKeepsTest` | aoc/day11.py:65-90 | reducing worry modulo a multiple of the test keeps the divisibility test's outcome |
| `Day11.BusinessTopTwo` | aoc/day11.py:70-73 | monkey business over the `Inspections` counts multiplies the two largest counts; the largest bounds every count and at most one count exceeds the second largest |
| `Day13.CompareCases` | aoc/day13.py:20-26 | two ints compare by difference; an int against a list is first wrapped in a one-element list, on either side |
| `Day13.CompareListsDecides` | aoc/day13.py:27-33 | for two lists the first non-zero element comparison decides; if there is none, the length difference |
| `Day13.CompareReflexive` | aoc/day13.py:13-34 | every packet compares equal to itself |
| `Day13.CompareListsReflexive` | aoc/day13.py:27-33 | every list compares equal to itself |
| `Day13.CompareAntisymmetric` | aoc/day13.py:13-34 | swapping the packets negates the comparison |
| `Day13.CompareListsAntisymmetric` | aoc/day13.py:27-33 | swapping two lists negates the comparison |
| `Day13.Part1` | aoc/day13.py:37-43 | the loop adds up the 1-based indices of the pairs in order |
| `Day13.InOrderSumBounds` | aoc/day13.py:37-43 | the sum lies between 0 and 1 + 2 + ... + pairs, with the maximum exactly when every pair is in order |
| `Day13.InsertPacket` | aoc/day13.py:50 | insertion adds the packet once and loses none |
| `Day13.InsertPacketInOrder` | aoc/day13.py:50 | insertion keeps a list in comparison order |
| `Day13.SortPackets` | aoc/day13.py:50 | the sorted packets are in comparison order and a permutation of the input |
| `Day13.IndexOf` | aoc/day13.py:51 | `index` finds the first occurrence |
| `Day13.SortKeeps` | aoc/day13.py:49-50 | every packet is still there after sorting |
| `Day13.DecoderKey` | aoc/day13.py:51 | the key is at least 1 and is the product of the 1-based positions of the first occurrences of the two dividers, as `list.index` finds them |
| `Day13.Part2` | aoc/day13.py:46-51 | the product of the 1-based positions of the first `[[2]]` and the first `[[6]]` in the input sorted together with both dividers; at least 1 |
| `Day14.Segment` | aoc/day14.py:19-30 | a segment between points sharing a row or a column is every cell between them, both ends included; other pairs raise ValueError (None) |
| `Day14.MaxY` | aoc/day14.py:66-69 | `max` fails exactly when there is no rock; otherwise the deepest rock's row |
| `Day14.SandMove` | aoc/day14.py:72-78 | sand falls straight down, else down-left, else down-right, always into a free cell, and stays put only when all three are blocked |
| `Day14.Spawn` | aoc/day14.py:41-63 | a blocked source stops at once with no change; without rocks `max` fails; stopping leaves the grid unchanged; with a floor every unit of sand comes to rest |
| `Day14.Cave.constructor` | aoc/day14.py:9 | the cave starts empty |
| `Day14.Cave.AddRockLine` | aoc/day14.py:19-30 | the in-place writes mark exactly the segment's cells as rock, or fail without change |
| `Day14.Cave.MarkRow` | aoc/day14.py:21-24 | the loop over the columns of a row segment marks exactly those cells as rock |
| `Day14.Cave.MarkColumn` | aoc/day14.py:25-28 | the loop over the rows of a column segment marks exactly those cells as rock |
| `Day14.Cave.AddPath` | aoc/day14.py:11-14 | a rock path marks the cells of all its segments, failing exactly when one of them is diagonal |
| `Day14.Cave.SpawnSand` | aoc/day14.py:41-63 | the in-place spawn agrees with the functional one, result and grid |
| `Day14.Cave.SandFill` | aoc/day14.py:33-38 | the counting loop agrees with the functional fill, count and grid |
| `Day14.Parse` | aoc/day14.py:7-16 | parsing succeeds exactly when every path is straight, and the cave holds exactly their rock cells |
| `Day14.Part1` | aoc/day14.py:81-82 | the number of units that rest before sand falls into the abyss, and the cave's grid is left as the fill leaves it (rock plus every resting unit) |
| `Day14.Part2` | aoc/day14.py:85-86 | the number of units that rest before the source is blocked, with a floor, and the cave's grid is left as the fill leaves it |
| `Day14.PathCellsFails` | aoc/day14.py:13-14 | a diagonal segment makes the whole path fail |
| `Day14.RocksFails` | aoc/day14.py:10-14 | a failing path makes the whole input fail |
| `Day14.FallEndsEmpty` | aoc/day14.py:54-59 | falling sand only ever occupies free cells |
| `Day14.FallStops` | aoc/day14.py:54-59 | sand ends either resting above the deepest rock or one row below it |
| `Day14.FallInRegion` | aoc/day14.py:54-59 | sand stays within the region below the source |
| `Day14.AddSandKeepsMaxY` | aoc/day14.py:57-69 | adding sand keeps the deepest rock row |
| `Day14.SpawnShrinksRoom` | aoc/day14.py:33-38 | each resting unit leaves less free room, so the fill ends |
| `Day14.SpawnAddsOne` | aoc/day14.py:41-63 | a resting unit adds exactly one sand cell and changes nothing else |
| `Day14.SpawnFallsOut` | aoc/day14.py:53-63 | without a floor, spawning stops exactly when the sand falls past the deepest rock, which it leaves one row below |
| `Day14.FillAddsSand` | aoc/day14.py:33-38 | the fill adds exactly its count of sand cells, keeps every earlier cell, and ends when spawning stops |
| `Day14.FillBlocksSource` | aoc/day14.py:33-63 | with a floor the fill ends with sand on the source |
| `Day16.Search` | aoc/day16.py:70-107 | the best pressure from here is never negative |
| `Day16.BestMove` | aoc/day16.py:77-97 | the best gain over the valves still to try is never negative |
| `Day16.Part1` | aoc/day16.py:60-67 | with every valve but the start `Closed`, the answer is at least the gain of any first move that is reachable within 30 minutes |
| `Day16.Part2` | aoc/day16.py:110-117 | the answer is at least what one walker alone releases in 26 minutes, and at least the gain of any reachable first move |
| `Day16.BestMoveAtLeast` | aoc/day16.py:77-97 | the best move is at least the gain of each valve reachable in time |
| `Day16.BestMoveAttained` | aoc/day16.py:72-107 | the best move is 0, the fallback, or the gain of some reachable valve |
| `Day16.SearchIsMax` | aoc/day16.py:70-107 | the search is the maximum over the fallback 0, every reachable move and, with the elephant, handing over to it |
| `Day16.NothingReachable` | aoc/day16.py:72-80 | when no closed valve can be reached in time, the search without the elephant releases nothing |
| `Day16.ElephantHelps` | aoc/day16.py:102-105 | adding the elephant never lowers the best pressure |
| `Day16.BestMoveElephantHelps` | aoc/day16.py:77-105 | adding the elephant never lowers the best move |
| `Day17.Parse` | aoc/day17.py:26-27 | parsing succeeds exactly when every character is `<` or `>`, mapping each to a one-column shift left or right |
| `Day17.Move` | aoc/day17.py:35-36 | moving a rock keeps its number of cells |
| `Day17.MoveTwice` | aoc/day17.py:35-36 | two moves are one move by the sum of the offsets |
| `Day17.MoveDistinct` | aoc/day17.py:35-36 | moving keeps a rock's cells distinct |
| `Day17.DistinctCells` | aoc/day17.py:35-36 | a rock with distinct cells covers as many squares as it has cells |
| `Day17.ShapeOfCycles` | aoc/day17.py:30-32 | rock k is the shape at index k mod 5 |
| `Day17.ShapeFacts` | aoc/day17.py:8-14 | every shape sits on row 0, has distinct cells and lies in columns 0 to 3 |
| `Day17.ShapesBased` | aoc/day17.py:8-14 | each of the five shapes sits on row 0, has distinct cells and lies in columns 0 to 3 |
| `Day17.BasedAboveFloor` | aoc/day17.py:46-47 | a rock that does not collide is above the floor |
| `Day17.PushStaysFree` | aoc/day17.py:80-82 | `Push` keeps a free rock free: it takes the jet's shift when the shifted rock fits and overlaps nothing, and otherwise stays |
| `Day17.Settle` | aoc/day17.py:79-88 | the falling loop ends with a valid jet index |
| `Day17.SettleRests` | aoc/day17.py:79-88 | a rock that starts free comes to rest free and inside the chamber, with a collision one row below |
| `Day17.NextJet` | aoc/day17.py:71-81 | the jet pattern is cycled: the next index wraps to 0 or increases by one |
| `Day17.NewHeight` | aoc/day17.py:92 | the new tower height is the old one or one above the top of the rock, and above every cell of the rock |
| `Day17.Landing` | aoc/day17.py:74-88 | a rock spawned two columns in and three rows above the tower lands with a valid jet index |
| `Day17.LandingRests` | aoc/day17.py:74-88 | the landed rock is free and inside the chamber and cannot fall further |
| `Day17.Place` | aoc/day17.py:91-93 | placing a rock never lowers the tower |
| `Day17.PlaceFacts` | aoc/day17.py:91-93 | placing adds the rock's cells, records the new height and keeps the jet index |
| `Day17.Step` | aoc/day17.py:73-93 | one rock keeps the jet index valid and never lowers the tower |
| `Day17.Play` | aoc/day17.py:67-95 | the game after n rocks has a non-negative height and a valid jet index |
| `Day17.Rest` | aoc/day17.py:73-88 | the k-th rock rests with a valid jet index |
| `Day17.RestFacts` | aoc/day17.py:79-88 | the k-th rock rests free, inside the chamber, and cannot fall further |
| `Day17.PlayNext` | aoc/day17.py:73-93 | n + 1 rocks are n rocks followed by one step with the next shape |
| `Day17.PlayFacts` | aoc/day17.py:67-95 | after n rocks the pile holds every cell of every rock, there are n recorded heights, the last is the tower height, and they never decrease |
| `Day17.PlayCellsStep` | aoc/day17.py:91 | each rock adds its cells to the pile |
| `Day17.PlayHeightsStep` | aoc/day17.py:92-93 | each rock appends the tower height to the non-decreasing height list |
| `Day17.RisingAppend` | aoc/day17.py:93 | appending a height no lower than the last keeps the list non-decreasing |
| `Day17.DropRock` | aoc/day17.py:79-88 | the imperative falling loop ends where the functional rest does, with the same jet index |
| `Day17.DropNext` | aoc/day17.py:73-93 | one iteration of the imperative loop equals one functional step |
| `Day17.PlayTetris` | aoc/day17.py:67-95 | the imperative game records the same heights as the functional one |
| `Day17.PlayOne` | aoc/day17.py:73-93 | one pass of the loop over the rocks takes the game after k rocks to the game after k + 1 |
| `Day17.Part1` | aoc/day17.py:98-99 | the height after 2022 rocks; an empty jet pattern makes `cycle` stop (None) |
| `Day17.FindRepeatingPattern` | aoc/day17.py:130-147 | the first start and length in search order whose block repeats three times, and None exactly when no start and length in range repeats |
| `Day17.Part2` | aoc/day17.py:102-127 | an answer exists exactly when the jet pattern is non-empty and some start and length in range (10 to 2999) repeat three times in the differences of the first 20000 heights; the answer extrapolates from the first such repeat in search order |
| `Day17.ThreeBlocksSameGrowth` | aoc/day17.py:137-145 | a block of differences repeated three times makes the tower grow equally in each block |
| `Day17.SameDiffsSameGrowth` | aoc/day17.py:111 | equal runs of the neighbour differences (`Diffs`) give equal growth |
| `Day17.PeriodicGrowth` | aoc/day17.py:120-125 | if the growth per period is constant, the height q periods on is q times the growth plus the height s into the first period |
| `Day17.ExtrapolationSound` | aoc/day17.py:114-127 | for `Extrapolate`: under constant growth per period the extrapolated height is the real height after the given total, whenever that height is known |
| `Day18.SharedSideSymmetric` | aoc/day18.py:18-19 | sharing a side is symmetric and no cube shares a side with itself |
| `Day18.SharedSideIsFace` | aoc/day18.py:18-19 | two cubes share a side exactly when one is the other moved one step along one of the six face directions |
| `Day18.Touching` | aoc/day18.py:23-25 | a cube shares sides with at most as many cubes as there are |
| `Day18.TouchingAppend` | aoc/day18.py:23-25 | a new cube adds one to the count exactly when it shares a side |
| `Day18.TouchingNone` | aoc/day18.py:23-25 | a cube sharing no side with any cube counts zero |
| `Day18.TouchingOne` | aoc/day18.py:23-25 | a cube sharing a side with exactly one cube counts one |
| `Day18.SharedSidesStep` | aoc/day18.py:23-25 | the pairs of a list with one more cube are the old pairs plus those with the new cube |
| `Day18.ExposedFacesAppend` | aoc/day18.py:22-26 | adding a cube hides one face of each cube it touches |
| `Day18.Part1CountsExposedFaces` | aoc/day18.py:22-26 | `Part1`'s six faces per cube minus two per shared side equals the number of faces that touch no other cube |
| `Day18.ExampleCrossTouching` | aoc/day18.py:74-80 | each arm of the example's cross touches exactly one earlier cube |
| `Day18.ExampleRestTouching` | aoc/day18.py:81-86 | the rest of the example touches earlier cubes once at 2,2,4 and nowhere else |
| `Day18.ExamplePart1` | aoc/day18.py:71-88 | the example's surface area is 64 |
| `Day18.GrowsTransitive` | aoc/day18.py:42-62 | water that only spreads into air composes over successive fills |
| `Day18.BlockedKept` | aoc/day18.py:43-50 | a cell that is out of bounds or not air stays so as water spreads |
| `Day18.EnclosedKept` | aoc/day18.py:54-62 | a water cell whose six neighbours are all blocked stays so as water spreads |
| `Day18.ClosedTransitive` | aoc/day18.py:42-62 | every new water cell having blocked neighbours is kept when fills are chained |
| `Day18.AirShrinks` | aoc/day18.py:42-62 | spreading water never adds air |
| `Day18.WaterOnAir` | aoc/day18.py:52 | flooding an air cell removes one air cell |
| `Day18.FloodFill` | aoc/day18.py:42-62 | the recursive fill only turns air into water, leaves the start blocked and every new water cell with no air neighbour; a start outside the array or not holding air changes nothing, a start holding air becomes water, and an air pocket that does not hold the start is still air afterwards |
| `Day18.FillAround` | aoc/day18.py:54-62 | filling the six neighbours of a water cell leaves none of them air, and leaves air every air pocket that none of them lies in |
| `Day18.PocketKept` | aoc/day18.py:52-62 | a region of air that the water has not entered is still closed under face steps through air |
| `Day18.PocketApart` | aoc/day18.py:54-62 | an air cell outside such a region has no face neighbour inside it |
| `Day18.PocketsStep` | aoc/day18.py:54-62 | one pass of the direction loop keeps every air pocket apart from the cell air |
| `Day18.BlockedPrefixKept` | aoc/day18.py:54-62 | the neighbours already filled in the direction loop stay blocked |
| `Day18.Lowest` | aoc/day18.py:30 | the result is at most every cube's coordinate along the axis (attained by `LowestAttained`) |
| `Day18.LowestAttained` | aoc/day18.py:30 | and some cube has exactly that coordinate, so it is the minimum |
| `Day18.Highest` | aoc/day18.py:31 | the result is at least every cube's coordinate along the axis (attained by `HighestAttained`) |
| `Day18.HighestAttained` | aoc/day18.py:31 | and some cube has exactly that coordinate, so it is the maximum |
| `Day18.BetweenCorners` | aoc/day18.py:30-35 | every shifted and padded cube lies inside the box and off its boundary |
| `Day18.SetCell` | aoc/day18.py:33 | writing one cell changes exactly that cell |
| `Day18.LavaStep` | aoc/day18.py:32-33 | marking the next cube as lava extends the marked prefix |
| `Day18.LavaSpace` | aoc/day18.py:30-35 | the padded array is one cell wider than the cubes on each side, with every cube lava and all else air |
| `Day18.WaterAlong` | aoc/day18.py:54-62 | after a closed fill, water reaches every cell along a straight lava-free line |
| `Day18.BoundaryWater` | aoc/day18.py:35-36 | with water at the corner, every boundary cell is water |
| `Day18.FaceBack` | aoc/day18.py:54-61 | stepping along a face and back returns to the cube |
| `Day18.BesideWater` | aoc/day18.py:54-62 | after a closed fill, no air cell lies beside water |
| `Day18.FillReachesOuterLayer` | aoc/day18.py:35-36 | filling from the corner of the padded box floods the whole boundary layer |
| `Day18.AscendingAppend` | aoc/day18.py:38 | appending a later cell keeps the list in index order |
| `Day18.ListedStep` | aoc/day18.py:38 | the scan collects exactly the earlier inner cells that are not water |
| `Day18.RemainingRow` | aoc/day18.py:38 | one row of the scan collects its non-water cells in index order |
| `Day18.Remaining` | aoc/day18.py:38 | the non-water inner cells, in index order, as `np.where` lists them |
| `Day18.CountedCells` | aoc/day18.py:36-38 | every cube remains, and every face between a remaining cell and a missing one belongs to a cube |
| `Day18.SealedFace` | aoc/day18.py:36-38 | a remaining cell with a missing neighbour is lava |
| `Day18.LavaFacts` | aoc/day18.py:30-35 | in the lava array every non-air cell is a moved cube and every moved cube is not air |
| `Day18.Lift` | aoc/day18.py:35 | a cell is in the padded copy of a region exactly when the cell one step back on each axis is in the region |
| `Day18.LiftedAir` | aoc/day18.py:30-35 | before the fill, the padded cells of air sealed inside the droplet hold air |
| `Day18.LiftedStep` | aoc/day18.py:30-35 | a face step from such a cell into air stays inside the sealed region |
| `Day18.LiftedPocket` | aoc/day18.py:30-36 | air sealed inside the droplet is an air pocket of the padded array that does not hold the corner |
| `Day18.EnclosedCounted` | aoc/day18.py:36-38 | every cell of air sealed inside the droplet is among the counted cells |
| `Day18.PocketsCounted` | aoc/day18.py:29-38 | the same for every sealed region at once |
| `Day18.Part2` | aoc/day18.py:29-39 | an empty list fails in `min`; otherwise the surface of the filled-in shape. The shape holds every cube and every region of air sealed inside the droplet (air in the bounding box whose face steps lead only to cubes or back into it), and its every outer face belongs to a cube, so no outside air is counted |
| `Day19.MaxOreCosts` | aoc/day19.py:23-30 | the largest of the four ore costs |
| `Day19.CeilDiv` | aoc/day19.py:34 | the ceiling of a quotient: the least multiple count that reaches the dividend |
| `Day19.Wait` | aoc/day19.py:32-34 | the fewest minutes until the stock covers the cost |
| `Day19.OreBotWait` | aoc/day19.py:32-34 | the fewest minutes until the ore covers an ore robot |
| `Day19.ClayBotWait` | aoc/day19.py:36-38 | the fewest minutes until the ore covers a clay robot |
| `Day19.ObsidianBotWait` | aoc/day19.py:40-48 | no wait (infinity) exactly without clay robots; otherwise the fewest minutes until both ore and clay suffice |
| `Day19.GeodeBotWait` | aoc/day19.py:50-60 | no wait (infinity) exactly without obsidian robots; otherwise the fewest minutes until both ore and obsidian suffice |
| `Day19.MoreTime` | aoc/day19.py:126 | waiting longer never lowers a stock |
| `Day19.Idle` | aoc/day19.py:196-211 | idling runs the clock to 0 and collects geodes for the remaining time |
| `Day19.Successors` | aoc/day19.py:111-191 | every branch is a sane state with less but positive time left |
| `Day19.Solve` | aoc/day19.py:70-226 | the returned path starts at the state and ends when time runs out |
| `Day19.Explore` | aoc/day19.py:193-195 | the best branch path starts at one of the branches and ends when time runs out |
| `Day19.ValidPathCons` | aoc/day19.py:214-226 | prepending the state to a path from one of its branches gives a valid path |
| `Day19.SolveValid` | aoc/day19.py:70-226 | the returned path follows the branching rules step by step |
| `Day19.ExploreValid` | aoc/day19.py:193-195 | the best branch path follows the branching rules |
| `Day19.ExploreMax` | aoc/day19.py:193-195 | the chosen branch has at least as many geodes as every other |
| `Day19.ValidPathTail` | aoc/day19.py:214-226 | the tail of a valid path is valid and starts at a branch |
| `Day19.SolveOptimal` | aoc/day19.py:70-226 | no valid path from the state ends with more geodes than the returned one |
| `Day19.SolveAtLeastIdle` | aoc/day19.py:196-211 | the search never does worse than idling |
| `Day19.SolveUnfold` | aoc/day19.py:193-211 | with no branches the path ends idle; otherwise with the best branch |
| `Day19.ExploreIsBranch` | aoc/day19.py:193-195 | the chosen path is the search from one of the branches |
| `Day19.CollectSplit` | aoc/day19.py:116-129 | collecting with more robots after a build never yields fewer geodes |
| `Day19.SuccessorKeepsGeodes` | aoc/day19.py:111-191 | a branch never lowers the geodes guaranteed by idling |
| `Day19.SuccessorCaps` | aoc/day19.py:112-151 | ore, clay and obsidian robots are built only below the most that can be spent per minute |
| `Day19.ValidPathCaps` | aoc/day19.py:112-151 | along a path robot counts stay within those caps |
| `Day19.Collect` | aoc/day19.py:126-129 | collecting keeps stocks non-negative |
| `Day19.Pay` | aoc/day19.py:116-126 | waiting the computed minutes and one more leaves a non-negative stock after paying |
| `Day19.SuccessorStocked` | aoc/day19.py:111-191 | branches keep stocks and robot counts non-negative |
| `Day19.IdleStocked` | aoc/day19.py:196-211 | idling keeps stocks non-negative |
| `Day19.ValidPathStocked` | aoc/day19.py:70-226 | every state on a path has non-negative stocks |
| `Day19.ValidPathTime` | aoc/day19.py:117-175 | time strictly falls along a path and stays non-negative |
| `Day19.MaxGeodesBest` | aoc/day19.py:229-235 | the geodes found from one ore robot are non-negative and at least those of any valid path |
| `Day19.MaxGeodesNonNegative` | aoc/day19.py:232-234 | the best geode count is non-negative |
| `Day19.QualityNonNegative` | aoc/day19.py:234 | a blueprint's quality level is non-negative |
| `Day19.QualitySumStep` | aoc/day19.py:231-234 | the running total grows by each blueprint's quality |
| `Day19.BlueprintQuality` | aoc/day19.py:232-234 | the id times the best geode count, non-negative |
| `Day19.SumQualities` | aoc/day19.py:229-235 | the loop's total is the sum of the quality levels and is non-negative |
| `Day19.Part1` | aoc/day19.py:229-235 | the sum of quality levels over 24 minutes |
| `Day20.IotaCount` | aoc/day20.py:17 | in `Iota(n)` (`arange(n)`) every index below n occurs exactly once |
| `Day20.IotaIsPermutation` | aoc/day20.py:17 | the starting index list is a permutation of 0 .. n - 1 |
| `Day20.PermutationKept` | aoc/day20.py:23-28 | rearranging a permutation keeps it a permutation |
| `Day20.Mod` | aoc/day20.py:21 | numpy's remainder: in range for a positive modulus, 0 for modulus 0 |
| `Day20.IndexOf` | aoc/day20.py:12-13 | the first position holding the value |
| `Day20.FirstIsIndexOf` | aoc/day20.py:12-13 | a position with no earlier occurrence is the one found |
| `Day20.Find` | aoc/day20.py:12-13 | `item()` succeeds exactly when the value occurs once, and then gives its position |
| `Day20.Moved` | aoc/day20.py:23-28 | moving an entry keeps the length |
| `Day20.MovedAt` | aoc/day20.py:23-28 | the moved entry lands at the target; entries between shift one place towards the source; the rest stay |
| `Day20.MovedPermutes` | aoc/day20.py:23-28 | moving an entry is a permutation |
| `Day20.MoveEntry` | aoc/day20.py:23-28 | the slice assignments on the array perform exactly that move |
| `Day20.GatherMoved` | aoc/day20.py:23-30 | moving an index and then reading the values through the indices (`Gather`) equals gathering and then moving |
| `Day20.Target` | aoc/day20.py:21 | the new position is a valid index, never the last one when there are at least two numbers |
| `Day20.TargetIs` | aoc/day20.py:20-21 | the computed target is the current position plus the value, modulo one less than the length |
| `Day20.MixStep` | aoc/day20.py:20-28 | moving one number keeps the index list a permutation |
| `Day20.MoveNumber` | aoc/day20.py:20-28 | the in-place step performs the functional step |
| `Day20.StepPermutes` | aoc/day20.py:20-30 | a step keeps the gathered numbers a permutation |
| `Day20.RoundFrom` | aoc/day20.py:19-28 | a round of moves keeps the index list a permutation |
| `Day20.RoundFromPermutes` | aoc/day20.py:19-30 | a round keeps the gathered numbers a permutation of the input |
| `Day20.MixRound` | aoc/day20.py:19-28 | the in-place round performs the functional round and keeps a permutation |
| `Day20.Rounds` | aoc/day20.py:18-28 | n rounds keep the index list a permutation |
| `Day20.RoundsPermute` | aoc/day20.py:18-30 | n rounds keep the gathered numbers a permutation of the input |
| `Day20.Reorder` | aoc/day20.py:30 | the fresh array is the gathered values |
| `Day20.Mixed` | aoc/day20.py:16-30 | mixing keeps the length |
| `Day20.MixPermutes` | aoc/day20.py:16-30 | mixing gives a permutation of the numbers |
| `Day20.Mix` | aoc/day20.py:16-30 | the imperative mix yields the functional result in a fresh array |
| `Day20.OccursOnce` | aoc/day20.py:12-13 | a value found at one position and nowhere else occurs once |
| `Day20.Grove` | aoc/day20.py:35-36 | the grove sum is defined exactly when 0 occurs once |
| `Day20.GroveAt` | aoc/day20.py:35-36 | the sum of the numbers 1000, 2000 and 3000 places after the 0, wrapping around |
| `Day20.Part1` | aoc/day20.py:33-36 | the grove sum of the mixed numbers, defined exactly when 0 occurs once in the input |
| `Day20.Part2` | aoc/day20.py:39-41 | the input is multiplied in place by the key and mixed ten times |
| `Day20.ExampleMove0` | aoc/day20.py:50-61 | the example's first move |
| `Day20.ExampleMove1` | aoc/day20.py:50-61 | the example's second move |
| `Day20.ExampleMove2` | aoc/day20.py:50-61 | the example's third move |
| `Day20.ExampleMove3` | aoc/day20.py:50-61 | the example's fourth move |
| `Day20.ExampleMove4` | aoc/day20.py:50-61 | the example's fifth move |
| `Day20.ExampleMove5` | aoc/day20.py:50-61 | the example's 0, which does not move |
| `Day20.ExampleMove6` | aoc/day20.py:50-61 | the example's last move |
| `Day20.ExampleStep` | aoc/day20.py:19-28 | a checked move fact is one step of the round |
| `Day20.ExampleChain` | aoc/day20.py:19-28 | chained moves make up the rest of the round |
| `Day20.ExampleRound` | aoc/day20.py:50-61 | one round on the example gives the index list 4 0 1 2 6 5 3 |
| `Day20.ExampleRounds` | aoc/day20.py:50-61 | one mixing round on the example gives that index list |
| `Day20.MixedIs` | aoc/day20.py:16-30 | a known final index list determines the mixed numbers |
| `Day20.ExampleGather` | aoc/day20.py:50-61 | gathering that index list gives -2 1 2 -3 4 0 3 |
| `Day20.ExampleMixed` | aoc/day20.py:50-61 | the example mixes to -2 1 2 -3 4 0 3 |
| `Day20.ExampleGrove` | aoc/day20.py:68-69 | the grove sum of the mixed example is 3 |
| `Day20.ExamplePart1` | aoc/day20.py:68-69 | part 1 on the example gives 3 |
| `Day21.FindSep` | aoc/day21.py:11 | the first occurrence of the separator, or None exactly when it does not occur |
| `Day21.Split` | aoc/day21.py:15 | `str.split` gives at least one piece |
| `Day21.SplitJoin` | aoc/day21.py:15 | joining the pieces with the separator gives back the text |
| `Day21.SplitPieces` | aoc/day21.py:15 | no piece contains the separator |
| `Day21.JobOf` | aoc/day21.py:12-15 | a job is a number exactly when the text parses as an int; otherwise it is the text split on spaces, three parts making an operation |
| `Day21.ParseLineSplits` | aoc/day21.py:11 | a parsed line is the name, `": "` and the job's text |
| `Day21.Monkeys` | aoc/day21.py:8-16 | parsing fails exactly when some line does not split into exactly two pieces at `": "`; the last line's name maps to its job |
| `Day21.MonkeysNames` | aoc/day21.py:10-15 | every line's name is a key of the result |
| `Day21.MonkeysKeys` | aoc/day21.py:10-15 | every key of the result is the name of some line, so the keys are exactly the names |
| `Day21.MonkeysLastWins` | aoc/day21.py:10-15 | each name maps to the job of the last line that states it |
| `Day21.MonkeysFail` | aoc/day21.py:10-11 | a bad line anywhere fails the whole parse |
| `Day21.Parse` | aoc/day21.py:8-16 | the loop builds the same dictionary as the functional parse |
| `Day21.Construct` | aoc/day21.py:30-40 | the loop builds the same table as the functional construction |
| `Day21.BuiltWhole` | aoc/day21.py:30-40 | a table of numbers and known operations is kept whole |
| `Day21.FloorDiv` | aoc/day21.py:78 | Python's `//` rounds the quotient towards minus infinity |
| `Day21.MulDivCancel` | aoc/day21.py:78 | an exact multiple divided back gives the factor |
| `Day21.MulSign` | aoc/day21.py:20 | a positive factor keeps the sign |
| `Day21.AbsMul` | aoc/day21.py:20 | the magnitude of a product is the product of magnitudes |
| `Day21.TruncDivExact` | aoc/day21.py:20 | `int(a / b)` on an exact multiple is the factor |
| `Day21.FloorDivExact` | aoc/day21.py:78 | floor division of an exact multiple is the factor |
| `Day21.MulMod` | aoc/day21.py:78 | an exact multiple leaves remainder 0 |
| `Day21.Apply` | aoc/day21.py:19-27 | applying an operator fails with ZeroDivisionError exactly for division by 0 and with KeyError exactly for an unknown operator |
| `Day21.Eval` | aoc/day21.py:19-24 | a number job evaluates to itself, and only monkeys with a job evaluate |
| `Day21.EvalMono` | aoc/day21.py:19-24 | more fuel never changes a finished evaluation |
| `Day21.EvalExtend` | aoc/day21.py:19-24 | adding a monkey does not change a value that was already defined |
| `Day21.EvalOp` | aoc/day21.py:19-20 | an operation monkey evaluates to its operator applied to its operands |
| `Day21.Part1` | aoc/day21.py:43-45 | defined exactly when construction succeeds and root evaluates, and then root's value |
| `Day21.LeftInverse` | aoc/day21.py:70-81 | the value solved for a left operand gives back the target; for `*` exactly when the target is divisible |
| `Day21.RightInverse` | aoc/day21.py:88-99 | the value solved for a right operand gives back the target; for `*` exactly when divisible, for `/` when the division is exact |
| `Day21.RightInverseMul` | aoc/day21.py:88-99 | the floor quotient times the known factor is the target exactly when the factor divides the target |
| `Day21.RightInverseDiv` | aoc/day21.py:88-99 | dividing the dividend by its floor quotient by the target gives the target back when the division is exact |
| `Day21.SolveSound` | aoc/day21.py:54-101 | the solved human value makes the monkey evaluate to the target whenever every division on the path is exact |
| `Day21.SolveLeft` | aoc/day21.py:62-81 | the same when the human is in the left branch |
| `Day21.SolveRight` | aoc/day21.py:84-99 | the same when the human is in the right branch |
| `Day21.Part2` | aoc/day21.py:48-51 | the functional solve with the human removed |
| `Day21.Part2Sound` | aoc/day21.py:48-101 | with the solved number shouted by the human, both of root's operands evaluate to the same value |
| `Day21.ExampleHasJobs` | aoc/day21.py:110-129 | the example table holds the listed jobs, the human shouting 5 |
| `Day21.ExampleRight` | aoc/day21.py:122-127 | root's right operand is 150 on the example |
| `Day21.ExampleRoot` | aoc/day21.py:110-129 | root is 152 on the example |
| `Day21.ExampleWellFormed` | aoc/day21.py:110-129 | every example job is a number or a known operation |
| `Day21.ExamplePart1` | aoc/day21.py:136-137 | part 1 on the example is 152 |
| `Day21.ExampleLeftMissing` | aoc/day21.py:113-125 | without the human, root's left chain cannot be evaluated |
| `Day21.ExampleSolve` | aoc/day21.py:54-101 | solving the example for the human gives 301 |
| `Day21.ExamplePart2` | aoc/day21.py:144-145 | part 2 on the example is 301 |
| `Day22.TurnIndex` | aoc/day22.py:11-12 | turning left moves one place back in the facing list and turning right one place on |
| `Day22.TurnBack` | aoc/day22.py:43-44 | a left turn and a right turn cancel, in either order |
| `Day22.FacingIndex` | aoc/day22.py:89 | `index` finds a facing's place in the list |
| `Day22.ParseBoard` | aoc/day22.py:18-22 | parsing fails exactly for no lines (`lines[0]`) or a line longer than the first (IndexError); otherwise one row per line, each as wide as the first line, where a cell holds the code of the line's character (`.` 0, `#` 1, anything else -1) and 0 past the end of a shorter line |
| `Day22.DigitRun` | aoc/day22.py:24 | the longest run of digits at the start |
| `Day22.FindSegmentsEndsLeft` | aoc/day22.py:24 | text ending in a digit then `L` ends in a left-turn segment |
| `Day22.ParsePathEndsLeft` | aoc/day22.py:24 | a path ending in a digit gains a final left-turn segment from the appended `L` |
| `Day22.IsEmpty` | aoc/day22.py:76-83 | defined exactly when the position is on the board and not in no man's land, and then true exactly for an open tile |
| `Day22.NetCell` | aoc/day22.py:99-110 | on a board drawn in the cube's net every cell of the net can be looked up |
| `Day22.WrapLeftRight` | aoc/day22.py:58-66 | wrapping sideways keeps the row and the facing |
| `Day22.WrapUpDown` | aoc/day22.py:68-74 | wrapping vertically keeps the column and the facing |
| `Day22.Wrap2D` | aoc/day22.py:52-56 | the flat wrap keeps the facing, the row when moving sideways, and the moved column otherwise |
| `Day22.Wrap2DOnMap` | aoc/day22.py:52-74 | from a face of the net the flat wrap lands on a face of the net |
| `Day22.Wrap2DInside` | aoc/day22.py:52-74 | a step that stays on the net is not wrapped |
| `Day22.CycleBack` | aoc/day22.py:60-74 | stepping forward and back around a cyclic range returns to the start |
| `Day22.Wrap2DBackRow` | aoc/day22.py:58-66 | stepping sideways and back over the flat wrap returns to the start |
| `Day22.Wrap2DBackColumn` | aoc/day22.py:68-74 | stepping vertically and back over the flat wrap returns to the start |
| `Day22.RowBack` | aoc/day22.py:58-66 | on every band of rows, the horizontal wrap one way and then the other gives back the start column |
| `Day22.ColumnBack` | aoc/day22.py:68-74 | on every band of columns, the vertical wrap one way and then the other gives back the start row |
| `Day22.Wrap2DBack` | aoc/day22.py:52-74 | on the flat map every step can be undone by stepping back the opposite way |
| `Day22.Wrap3D` | aoc/day22.py:113-125 | the cube wrap yields one of the four facings |
| `Day22.Wrap3DInside` | aoc/day22.py:113-169 | a step that stays on the net is not wrapped |
| `Day22.Wrap3DOnMapUp` | aoc/day22.py:127-135 | wrapping up off an edge lands on the net |
| `Day22.Wrap3DOnMapDown` | aoc/day22.py:137-145 | wrapping down off an edge lands on the net |
| `Day22.Wrap3DOnMapRight` | aoc/day22.py:147-157 | wrapping right off an edge lands on the net |
| `Day22.Wrap3DOnMapLeft` | aoc/day22.py:159-169 | wrapping left off an edge lands on the net |
| `Day22.Wrap3DOnMap` | aoc/day22.py:113-169 | from a face of the net the cube wrap lands on a face of the net |
| `Day22.Wrap3DBackUp` | aoc/day22.py:127-169 | crossing an upper edge and turning around brings the walker back, facing down |
| `Day22.Wrap3DBackDown` | aoc/day22.py:137-169 | crossing a lower edge and turning around brings the walker back, facing up |
| `Day22.Wrap3DBackRight` | aoc/day22.py:147-169 | crossing a right edge and turning around brings the walker back, facing left |
| `Day22.Wrap3DBackLeft` | aoc/day22.py:159-169 | crossing a left edge and turning around brings the walker back, facing right |
| `Day22.Wrap3DBack` | aoc/day22.py:113-169 | the cube's edges are glued consistently: every crossing can be undone |
| `Day22.Wrap` | aoc/day22.py:52-56 | the chosen wrap keeps a valid facing |
| `Day22.Next` | aoc/day22.py:46-50 | a step fails exactly when the wrapped cell cannot be looked up; it moves only onto an open tile and stays put at a wall |
| `Day22.Steps` | aoc/day22.py:37-38 | repeated steps keep a valid facing |
| `Day22.NetSteps` | aoc/day22.py:37-38 | on a net board steps never fail and stay on the net |
| `Day22.WalkSegments` | aoc/day22.py:36-39 | walking the segments keeps a valid facing |
| `Day22.NetWalkSegments` | aoc/day22.py:36-39 | on a net board a walk never fails and stays on the net |
| `Day22.WalkSegmentsAppend` | aoc/day22.py:36-39 | a further segment walks its steps and then turns |
| `Day22.Walked` | aoc/day22.py:35-41 | the whole walk keeps a valid facing |
| `Day22.WalkEndsFacingLastSteps` | aoc/day22.py:35-41 | the final right turn undoes the appended left turn |
| `Day22.PasswordDecodes` | aoc/day22.py:85-90 | the password determines the row, the column and the facing |
| `Day22.Board.constructor` | aoc/day22.py:30-33 | the walker starts at row 0, column 50, facing right |
| `Day22.Board.TurnTo` | aoc/day22.py:43-44 | turning changes only the facing |
| `Day22.Board.Step` | aoc/day22.py:46-50 | the in-place step performs the functional step |
| `Day22.Board.Forward` | aoc/day22.py:37-38 | the step loop performs n functional steps |
| `Day22.Board.Walk` | aoc/day22.py:35-41 | the in-place walk performs the functional walk |
| `Day22.Board.ReadPassword` | aoc/day22.py:85-90 | the password of the current position and facing |
| `Day22.NetOutcome` | aoc/day22.py:93-175 | on a net board the walk succeeds with either wrapping |
| `Day22.Part1` | aoc/day22.py:93-96 | the password after walking with the flat wrap |
| `Day22.Part2` | aoc/day22.py:172-175 | the password after walking with the cube wrap |
| `Day23.Parse` | aoc/day23.py:18-26 | an elf stands exactly at each `#` of the grid |
| `Day23.RenderParse` | aoc/day23.py:18-26 | a rectangular grid of `#` and `.` drawn again from its parsed elves is the same grid |
| `Day23.ParseRender` | aoc/day23.py:18-26 | elves inside a rectangle, drawn and parsed again, are the same elves |
| `Day23.FirstFree` | aoc/day23.py:47-50 | no proposal exactly when every direction in the current order has an elf on one of its three squares |
| `Day23.FirstFreeIsFirst` | aoc/day23.py:47-50 | a proposal is the middle square of the first free direction in order |
| `Day23.Proposal` | aoc/day23.py:44-50 | an elf with no neighbour among the eight proposes nothing; otherwise it proposes the first free direction |
| `Day23.ProposalFree` | aoc/day23.py:47-50 | a proposed square is never occupied |
| `Day23.FindStep` | aoc/day23.py:47-50 | the direction loop finds the first free direction |
| `Day23.Movers` | aoc/day23.py:53 | only elves move |
| `Day23.MoversInjective` | aoc/day23.py:53-54 | two movers never propose the same square |
| `Day23.AloneStays` | aoc/day23.py:45-46 | an elf with no neighbours stays put |
| `Day23.RoundOrigins` | aoc/day23.py:55 | each position after a round is an elf that did not move or a square proposed by exactly one elf |
| `Day23.TargetsCard` | aoc/day23.py:53-54 | movers and their squares are in one-to-one correspondence |
| `Day23.MoversApart` | aoc/day23.py:53-54 | two different movers propose different squares |
| `Day23.RoundKeepsCount` | aoc/day23.py:41-55 | a round never loses or merges elves |
| `Day23.RoundStill` | aoc/day23.py:55 | the round reports no moves exactly when nobody changed place |
| `Day23.DistinctCard` | aoc/day23.py:49 | a list without repeats has as many elements as entries |
| `Day23.CollectedStep` | aoc/day23.py:44-50 | each loop iteration appends the elf to the list of the square it proposes |
| `Day23.CollectedList` | aoc/day23.py:43-50 | each square's list holds exactly the elves proposing it, once each |
| `Day23.CollectedSingle` | aoc/day23.py:53 | a list of length one holds a mover proposing that square |
| `Day23.CollectedMover` | aoc/day23.py:53-54 | a mover is alone in its square's list |
| `Day23.CollectedMovers` | aoc/day23.py:53 | the first entries of the single-entry lists are exactly the movers |
| `Day23.CollectedTargets` | aoc/day23.py:54 | the keys with single-entry lists are exactly the movers' squares |
| `Day23.ProposeAndMove` | aoc/day23.py:41-55 | the imperative round yields the functional round |
| `Day23.Rotation` | aoc/day23.py:31-34 | round i considers the four directions starting from direction i mod 4 |
| `Day23.Run` | aoc/day23.py:29-38 | a run of at most n rounds reports at least one and at most n rounds |
| `Day23.RunKeepsCount` | aoc/day23.py:29-38 | running rounds keeps the number of elves |
| `Day23.StillRound` | aoc/day23.py:55 | once nobody moves, another round with the same order moves nobody either |
| `Day23.MovedThroughStep` | aoc/day23.py:31-36 | a round with moves extends the run of moving rounds |
| `Day23.AfterStep` | aoc/day23.py:31-36 | the state after i + 1 rounds is one round applied to the state after i, and round i is still exactly when that round reports no moves |
| `Day23.FirstStillUnique` | aoc/day23.py:35-36 | the first round without moves is unique |
| `Day23.Simulate` | aoc/day23.py:29-38 | the imperative loop with a round limit yields the functional run |
| `Day23.SimulateUntilStill` | aoc/day23.py:29-38 | without a limit the loop stops at the first round in which nobody moves, returning that round's number and the positions |
| `Day23.Bounds` | aoc/day23.py:69-72 | `min` and `max` fail exactly for no elves; otherwise the tightest rectangle around every elf |
| `Day23.RowCard` | aoc/day23.py:78 | a row of the rectangle has its width in squares |
| `Day23.BoxCard` | aoc/day23.py:78 | the rectangle has height times width squares |
| `Day23.EmptyGround` | aoc/day23.py:75-78 | the empty ground is defined exactly when there are elves |
| `Day23.EmptyGroundNonNegative` | aoc/day23.py:78 | the empty ground count is never negative |
| `Day23.Part1` | aoc/day23.py:75-78 | the empty ground after ten rounds, never negative |
| `Day23.Part2` | aoc/day23.py:81-83 | the number of the first round in which no elf moves |
| `Day24.PyMod` | aoc/day24.py:36-47 | Python's `%`: the result has the sign of the divisor and, for a positive divisor, is the Euclidean remainder |
| `Day24.WrapFacts` | aoc/day24.py:36-47 | a value in range is unchanged, the divisor itself wraps to 0 and -1 wraps to the divisor minus one |
| `Day24.Parse` | aoc/day24.py:53-57 | the grid fails exactly for no lines or ragged lines; otherwise it is the lines between a wall row above and a wall row below |
| `Day24.IsWall` | aoc/day24.py:30-31 | the lookup succeeds exactly for indices within the grid, negative ones counting from the end, and a cell in the grid is a wall exactly when it holds `#` |
| `Day24.ShiftRight` | aoc/day24.py:36-38 | a right-moving blizzard moves one column right, from the last column back to column 1, keeping its row |
| `Day24.ShiftLeft` | aoc/day24.py:39-41 | a left-moving blizzard moves one column left, from column 1 back to the last column, keeping its row |
| `Day24.ShiftUp` | aoc/day24.py:42-44 | an up-moving blizzard moves one row up, from row 2 back to the last valley row, keeping its column |
| `Day24.ShiftDown` | aoc/day24.py:45-47 | a down-moving blizzard moves one row down, from the last valley row back to row 2, keeping its column |
| `Day24.ShiftSidewaysBack` | aoc/day24.py:36-41 | moving right then left, or left then right, restores a blizzard in the valley |
| `Day24.ShiftVerticalBack` | aoc/day24.py:42-47 | moving up then down, or down then up, restores a blizzard in the valley |
| `Day24.StepWinds` | aoc/day24.py:33-49 | a step keeps each direction's set empty or non-empty |
| `Day24.StepStaysInValley` | aoc/day24.py:33-49 | after a step every blizzard is inside the valley |
| `Day24.InjectiveImageCard` | aoc/day24.py:36-47 | a one-to-one move keeps the number of blizzards |
| `Day24.RightCount` | aoc/day24.py:36-38 | no right-moving blizzards merge |
| `Day24.LeftCount` | aoc/day24.py:39-41 | no left-moving blizzards merge |
| `Day24.UpCount` | aoc/day24.py:42-44 | no up-moving blizzards merge |
| `Day24.DownCount` | aoc/day24.py:45-47 | no down-moving blizzards merge |
| `Day24.StepKeepsCounts` | aoc/day24.py:33-49 | a step keeps the number of blizzards in each direction |
| `Day24.WindsAfter` | aoc/day24.py:33-49 | repeated steps stay well-defined (never a modulo by zero) |
| `Day24.WindsAfterAdd` | aoc/day24.py:33-49 | a steps followed by b steps are a + b steps |
| `Day24.Blizzards.constructor` | aoc/day24.py:14-24 | height is the rows minus four, width the columns minus two, and each direction's set holds exactly the cells with its arrow |
| `Day24.Blizzards.Step` | aoc/day24.py:33-50 | the blizzards advance by one functional step and the union of the four new sets is returned |
| `Day24.CandidatesAdjacent` | aoc/day24.py:67-69 | the candidate squares are exactly those at most one step from some position |
| `Day24.ExpandMeaning` | aoc/day24.py:65-73 | a minute fails exactly when some candidate square's wall lookup raises; otherwise the new positions are exactly the open squares adjacent to a position |
| `Day24.WaitingAllowed` | aoc/day24.py:6 | a position that stays clear can be kept by waiting |
| `Day24.AllowedSplit` | aoc/day24.py:67-71 | the allowed squares of a set are the union over its positions |
| `Day24.AllowedNext` | aoc/day24.py:68-71 | one more move adds its square exactly when it is open |
| `Day24.MovesFrom` | aoc/day24.py:68-71 | the move loop fails exactly when a lookup raises, and otherwise yields the open squares next to the position |
| `Day24.SafePart` | aoc/day24.py:67-71 | a failing lookup from one position fails the whole minute |
| `Day24.ExpandStep` | aoc/day24.py:65-73 | the imperative minute yields the functional one |
| `Day24.ReachOpen` | aoc/day24.py:64-74 | after minute k every reachable position is free of walls and of that minute's blizzards |
| `Day24.FirstArrivalUnique` | aoc/day24.py:64-77 | the first minute at which the goal is reached is unique |
| `Day24.NotYetStep` | aoc/day24.py:64 | one more minute without arrival extends the waiting period |
| `Day24.CrashedStays` | aoc/day24.py:70 | once a lookup raises, every later minute fails too |
| `Day24.CrashedNeverArrives` | aoc/day24.py:70 | once a lookup raises, the goal is never reached |
| `Day24.Walk` | aoc/day24.py:60-77 | returns the first minute at which the goal is reachable, with the blizzards advanced that many steps, or shows that it is not reached within the fuel |
| `Day24.Part1` | aoc/day24.py:80-83 | the first arrival time from the entrance to the exit, with the blizzards left advanced by that many minutes; if none is found within the fuel, no arrival happens at any minute up to the fuel |
| `Day24.LegsIntro` | aoc/day24.py:89-93 | three consecutive first arrivals make a trip there, back and there again |
| `Day24.Part2` | aoc/day24.py:86-93 | the sum of three consecutive first arrival times, each starting where the blizzards stopped, with the blizzards left advanced by the total; without an answer, some leg does not arrive within the fuel after the earlier legs arrived |
| `Day25.DigitValue` | aoc/day25.py:4 | each SNAFU digit is worth between -2 and 2 |
| `Day25.EncodeDigit` | aoc/day25.py:7-8 | the digit for a remainder is worth the remainder minus the offset 2 |
| `Day25.Pow5` | aoc/day25.py:5 | powers of the base are positive |
| `Day25.SnafuToDecimal` | aoc/day25.py:15-20 | the loop, multiplying after each digit and dividing by 5 at the end, gives the positional value, or a KeyError for a character outside the table |
| `Day25.DecimalToSnafu` | aoc/day25.py:23-29 | the loop builds the balanced base-5 numeral, empty for n <= 0 |
| `Day25.EncodeCanonical` | aoc/day25.py:23-29 | encoding gives only digits with a leading 1 or 2, non-empty for positive n |
| `Day25.EncodeValue` | aoc/day25.py:15-29 | decoding the encoding of any non-negative n gives n back |
| `Day25.ValuePrepend` | aoc/day25.py:15-20 | a leading digit adds its worth times the power of 5 for its place |
| `Day25.ValueBound` | aoc/day25.py:15-20 | the value of k digits lies within half of 5^k - 1 either side of 0 |
| `Day25.CanonicalPositive` | aoc/day25.py:15-20 | a numeral with a leading 1 or 2 is positive |
| `Day25.DecodeEncode` | aoc/day25.py:15-29 | encoding the value of a canonical numeral gives the numeral back |
| `Day25.Part1` | aoc/day25.py:32-33 | fails exactly when some number has a character outside the table; otherwise the encoding of the sum, which decodes back to the sum when it is non-negative and is empty otherwise |
| `Day25.Example1747` | aoc/day25.py:62-73 | `1=-0-2` is 1747 both ways |
| `Day25.Example906` | aoc/day25.py:62-73 | `12111` is 906 both ways |
| `Day25.Example198` | aoc/day25.py:62-66 | `2=0=` decodes to 198 |
| `Day25.Example4890` | aoc/day25.py:69-81 | `2=-1=0` is 4890 both ways |

## Left out

- aoc/day12.py and aoc/day15.py are not part of this model. Day 12 is a call to a graph library's shortest-path search. Day 15 is floating-point polygon geometry in a foreign library.
- Reading the puzzle input (`aocd`, network access) and the tests against personal puzzle answers are left out. Text splitting with `strip`, `splitlines` and `split("\n\n")` is left out too: every parser takes a sequence of lines or of already split fields.
- Printing, visualisation helpers and the progress bar (day 17, day 22 line 82, day 23, day 24) are left out: they have no effect on results.
- Memoisation with `lru_cache` (days 16 and 19) is left out. The searches are plain recursion, which computes the same values.
- The worked examples of days 1–5, 7–11, 13, 14, 16, 17, 19, 22, 23 and 24 are not proved. Days 18 and 20 prove part 1 only, and day 25 proves the number conversions only. The reason is that symbolic evaluation of these simulations on concrete inputs is far beyond the verifier's budget. Days 6, 18, 20, 21 and 25 prove the examples listed in the table.
- Day 10: the OCR of the rendered letters is left out, because it is a foreign library. Only the pixel rule and the 6×40 image are modelled.
- Day 13: parsing packets with `eval` is left out; packets are an int-or-list datatype. Transitivity of `compare` is not proved, so the sorted order is stated only as every neighbouring pair being in order.
- Day 16: building the graph, removing zero-flow valves and the Floyd–Warshall distances are left out, because they are graph-library calls. The distance matrix and flow rates are inputs of the search.
- Day 19: the regular-expression parser and part 2 are left out. Part 2 is a warm-start heuristic (search 28 minutes, then resume from the 12th-last state) with no stated guarantee. The `ceil` of a float quotient and `math.inf` are integer ceiling division and `None`.
- Day 19: `Day19.Solve` requires a sane state (at least one ore robot), because the source divides by the ore-robot count; only such states occur from the start state.
- Day 21: `int(a / b)` is truncating integer division. The float rounding that Python applies to quotients beyond 2^53 is not modelled.
- Day 21: evaluation takes a recursion `fuel`. Running out of fuel stands for a cyclic or too deep table (RecursionError).
- Day 9: the distance test `np.abs(head - tail) >= 2` on complex numbers is the equivalent integer test on squared distance (at least 4).
- Day 8: the forest must be rectangular. A ragged forest is a numpy construction error that the model does not represent.
- Day 20: `Day20.Mod` returns 0 for a zero modulus, as numpy does for a one-number file. Part 2 is stated as the same mix on the scaled numbers; its example is not proved.
- Day 22: the 3-D board is a `cube` flag on one class rather than a subclass. The facing is assumed to be one of the four unit vectors (the class invariant). The cube net is the hard-coded layout of the real input, as in the source.
- Day 23: `Day23.Simulate` requires n > 0. The source's `if n` treats n = 0 like "run until still", and that mode is modelled separately with fuel.
- `Day23.SimulateUntilStill`, `Day23.Part2`, `Day24.Walk`, `Day24.Part1` and `Day24.Part2` take a `fuel` bound in place of an unbounded loop that relies on the puzzle input to terminate. When the fuel runs out, they prove that no stop happened within it.
- Day 24: a modulo by zero (a valley with no columns or rows) raises ZeroDivisionError in `step`. The model requires the blizzard sets to be steppable instead of modelling that error. `is_wall` is a module-level function of the grid.
- Day 18: part 2 proves that the counted cells hold the droplet and every air pocket sealed inside it, and that every counted outer face belongs to a cube. The recursion depth of `_flood_fill` (the `sys.setrecursionlimit` it relies on) is not modelled.
- Day 11: the class invariant excludes a monkey that throws to itself, which in the source would make the item list grow during its own iteration. It also requires every test divisor to be positive, because a zero divisor raises ZeroDivisionError.
- `Common.ParseInt` accepts digit strings with an optional sign. Python's `int` also accepts surrounding whitespace and underscores, which the inputs never contain.
- Day 4: the numbers of a line are taken as already extracted; the regular expression `\d+` is not modelled.
- Day11.ValidRules: the class invariant also requires every throw target to be the index of another monkey in the list. The source's `self.monkeys[next_monkey]` raises IndexError for a target past the end and counts a negative target from the end; the model represents neither.
- Day03.IsUpper: ASCII only ('A' to 'Z'); Python's `str.isupper` also accepts other upper-case Unicode letters, which rucksack items never are.
- Day22.DigitRun: ASCII digits only; the regular expression `\d` also matches other Unicode decimal digits.
- Day20.Part2: the numbers are unbounded integers. numpy stores them as 64-bit integers, so multiplying by the decryption key 811589153 wraps around for numbers beyond about 1.1·10^10 in magnitude; the model does not wrap.
- Day11.Part2: worry levels are unbounded integers. In the source `np.prod` makes the common multiple a 64-bit numpy integer, so every reduced worry level is one too, and `old * old` wraps around at 2^63 once the product of the tests exceeds about 3·10^9. The model does not wrap.
- Day05.IsBlank: ASCII whitespace only. `str.strip` also removes other Unicode whitespace (such as U+00A0 and U+0085), which a crate drawing does not contain.
- Day01.Parse: groups are separated by each blank line. The source splits the text on `"\n\n"`, so a run of two blank lines makes one separator plus a leading newline that `np.fromstring` skips, where the model makes an extra empty group. An empty group totals 0, so with non-negative calories the answers are the same; the number of groups is not.
