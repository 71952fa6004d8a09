# Advent of Code 2025 solvers, modelled in Dafny

This project models the solvers of the Rust repository `aoc-2025-rust`, one
Dafny module per solver, and proves what each computes. The solvers are
Advent of Code 2025 puzzles. Each reads its puzzle input as lines and prints
one number:

- a safe dial turned left and right (day 1);
- product ID ranges with repeated-digit IDs (day 2);
- battery banks and their largest joltage (day 3);
- rolls of paper reachable by forklifts on a grid (day 4);
- fresh ingredient ID ranges (day 5);
- a cephalopod maths worksheet (day 6);
- a tachyon beam splitting through a manifold (day 7);
- junction boxes joined into circuits (day 8);
- rectangles between red floor tiles (day 9);
- machines with indicator lights and buttons (day 10, part 1);
- paths through a graph of devices (day 11);
- presents packed under Christmas trees (day 12).

Modules:

- `CoordGrid` (`coord_grid.dfy`) models the shared library `src/lib.rs`:
  - the bounded grid with checked `get`/`set`, `set_all` and `position`;
  - the eight compass directions with their turns;
  - moves between neighbouring cells;
  - reading a grid of characters from lines.
- `Strings`, `Itertools` and `Wrappers` hold the parts of the Rust standard
  library and of the `itertools` crate that the solvers use:
  - `split`, `trim`, `parse` and decimal formatting;
  - `tuple_combinations` and `max`;
  - `Option` and `Result`.
- `Day01Part1` … `Day12Part1` model `src/bin/day_XX_Y.rs`, one module per
  file.

How the Rust code is carried over:

- Code that changes state step by step becomes methods with loops, proved
  against specification functions:
  - grid updates;
  - vectors that are pushed to;
  - memo caches;
  - the worklist of day 8;
  - the cloned grids of day 12.
- Pure iterator code becomes functions.
- A Rust panic (`expect`, `unwrap`, `panic!`, an index out of range, an
  unsigned underflow) becomes a precondition.
- An `Err` return becomes a `Result`.
- Integers are unbounded except where a `u32`/`u64` bound decides a parse
  or a panic.
- Input files become a sequence of lines.

## Model

| member | source | states |
|---|---|---|
| CoordGrid.Heading | src/lib.rs:133-142 | each of the eight directions has a distinct position 0..7 in clockwise order from north |
| CoordGrid.HeadingInjective | src/lib.rs:133-142 | two directions with the same position are the same direction |
| CoordGrid.TurnsRotateHeading | src/lib.rs:145-182 | a 45-degree anticlockwise turn moves one position back, a 90-degree clockwise turn two forward, a 90-degree anticlockwise turn two back |
| CoordGrid.Turn90Inverse | src/lib.rs:158-182 | the two 90-degree turns undo each other |
| CoordGrid.Turn45Twice | src/lib.rs:145-182 | two 45-degree anticlockwise turns make one 90-degree anticlockwise turn |
| CoordGrid.Turn45TimesHeading | src/lib.rs:192-194 | n successive 45-degree turns move the heading n positions back, modulo 8 |
| CoordGrid.Turn45Period | src/lib.rs:192-194 | turning 45 degrees n times equals turning n mod 8 times, and 1 to 7 turns never come back to the start |
| CoordGrid.TurnCountModulo | src/lib.rs:192-194 | the heading arithmetic behind the period: reducing the turn count modulo 8 gives the same heading |
| CoordGrid.Turn45FullCircle | src/lib.rs:192-194 | eight 45-degree turns return to the start |
| CoordGrid.TurnAnticlockwise | src/lib.rs:188-197 | errors with the source's message exactly when the angle is not a multiple of 45, otherwise turns angle/45 times |
| CoordGrid.TurnAnticlockwiseComposes | src/lib.rs:188-197 | turning a then b steps is turning a+b steps, and a 360-degree turn is the identity |
| CoordGrid.ContainsCoords | src/lib.rs:25-28 | a grid with no rows or no columns holds no coordinates; IterCoords below lists exactly the coordinates it holds |
| CoordGrid.ContainsCoordsSigned | src/lib.rs:30-33 | signed coordinates are in the grid exactly when both are non-negative and below the height and width |
| CoordGrid.MoveCoords | src/lib.rs:66-77 | a move from a cell inside the grid that succeeds lands inside the grid |
| CoordGrid.MoveAgreesWithForce | src/lib.rs:66-91 | from a cell inside the grid, move_coords succeeds exactly when force_move_coords lands inside the grid, and then on the same cell |
| CoordGrid.ForceMoveCoords | src/lib.rs:79-91 | the unchecked neighbour is one of the eight cells around the start, changing one coordinate for a main direction and both for a diagonal one; MoveAgreesWithForce ties it to move_coords |
| CoordGrid.IterCoords | src/lib.rs:62-64 | yields height*width coordinates, exactly those inside the grid, in strictly row-major order |
| CoordGrid.RowCoords | src/lib.rs:63 | one row of iter_coords: the width cells of row i, in column order |
| CoordGrid.RowMajorDistinct | src/lib.rs:62-64 | a strictly row-major list of coordinates has no repeats |
| CoordGrid.CountWhere | src/lib.rs:62-64 | counting the coordinates that pass a test never exceeds their number |
| CoordGrid.CountWhereIsCard | src/lib.rs:62-64 | on a list without repeats, the count equals the size of the set of passing coordinates |
| CoordGrid.CountWhereIterCoords | src/lib.rs:62-64 | counting over iter_coords equals the size of the set of passing cells |
| CoordGrid.CountWhereMono | src/lib.rs:62-64 | a weaker test counts at least as many cells |
| CoordGrid.CountWhereStrict | src/lib.rs:62-64 | a weaker test that also admits one more listed cell counts strictly more |
| CoordGrid.Grid.Cells | src/lib.rs:8-10 | the grid's value is a height x width matrix equal to the stored cells |
| CoordGrid.Grid.Create | src/lib.rs:13-15 | a new grid of the given size with every cell set to the default |
| CoordGrid.Grid.Clone | src/lib.rs:7 | a fresh grid holding the same cells |
| CoordGrid.Grid.FromArray | src/lib.rs:8-10 | a grid over a given cell array |
| CoordGrid.Grid.SetAll | src/lib.rs:17-23 | every cell now holds v |
| CoordGrid.Grid.Get | src/lib.rs:35-42 | Ok exactly for coordinates inside the grid, with that cell's value |
| CoordGrid.Grid.Set | src/lib.rs:44-52 | Ok exactly for coordinates inside the grid; then only that cell changes, to v, otherwise nothing changes |
| CoordGrid.Grid.Position | src/lib.rs:93-102 | None exactly when no cell holds the needle; otherwise the first such cell in row-major order |
| CoordGrid.FileLinesToCharGrid | src/lib.rs:113-130 | the line-count error takes precedence over the line-length error; Ok exactly when there are height lines of width characters, and then the grid holds the lines |
| Itertools.CombinationsFrom | src/bin/day_08_1.rs:82 | exactly the index pairs i <= a < b < m |
| Itertools.Max | src/bin/day_09_1.rs:37-41 | None exactly for an empty sequence; otherwise an element of it no smaller than any other |
| Strings.DigitValue | src/bin/day_03_1.rs:14 | `to_digit(10)` of a decimal digit is below 10 |
| Strings.DigitChar | src/bin/day_03_1.rs:14 | the digit character of a value below 10 is a digit and converts back to that value |
| Strings.Decimal | src/bin/day_02_1.rs:13 | `format!("{n}")` is a non-empty string of digits without a leading zero |
| Strings.DecimalRoundTrip | src/bin/day_02_1.rs:13 | reading the decimal string of n back gives n |
| Strings.Pow10 | src/bin/day_03_2.rs:29 | `10_u64.pow(i)` is at least 1 |
| Strings.DigitsValueAppend | src/bin/day_03_2.rs:29 | the value of a concatenation of digit strings is the left value shifted by the right length plus the right value |
| Strings.DigitsValueUpper | src/bin/day_02_1.rs:13 | a k-digit string has a value below 10^k |
| Strings.DigitsValueLower | src/bin/day_02_1.rs:13 | a k-digit string without leading zero has a value of at least 10^(k-1) |
| Strings.DecimalOfCanonical | src/bin/day_02_1.rs:13 | formatting the value of a digit string without leading zero gives the same string back |
| Strings.DecimalLength | src/bin/day_02_1.rs:14 | n has exactly as many decimal digits as `format!("{n}")` has characters: 10^(len-1) <= n < 10^len |
| Strings.ParseNat | src/bin/day_02_1.rs:29 | `parse::<u64>()` (and the other unsigned widths) succeeds only with a value within the type's range |
| Strings.ParseInt | src/bin/day_01_2.rs:24 | `parse::<i32>()` (and other signed widths) succeeds only with a value within the type's range |
| Strings.ParseDecimal | src/bin/day_02_1.rs:29 | parsing the decimal string of an in-range n gives n |
| Strings.ParseSignedDecimal | src/bin/day_01_2.rs:24 | parsing an optionally minus-signed decimal string of an in-range value gives that value |
| Strings.Split | src/bin/day_02_1.rs:26 | `split(sep)` gives at least one part, and no part holds the separator |
| Strings.JoinSplit | src/bin/day_02_1.rs:26 | joining the parts of a split with the separator gives the string back |
| Strings.SplitPrefix | src/bin/day_02_1.rs:26 | splitting x, sep, y gives x followed by the parts of y when x has no separator |
| Strings.SplitNoSep | src/bin/day_02_1.rs:26 | a string without the separator splits into itself alone |
| Strings.SplitJoin | src/bin/day_02_1.rs:26 | splitting a join of separator-free parts gives the parts back |
| Strings.SplitLength | src/bin/day_02_1.rs:26 | the number of parts is one more than the number of separators |
| Strings.SplitWhitespace | src/bin/day_06_1.rs:21 | `split_ascii_whitespace` yields non-empty tokens without ASCII whitespace (space, tab, line feed, form feed, carriage return), the first starting with the string's first character when that is not ASCII whitespace |
| Strings.SplitWhitespaceToken | src/bin/day_06_1.rs:21 | a token followed by whitespace (or nothing) is split off as the first token |
| Strings.SplitWhitespaceUnwords | src/bin/day_06_1.rs:21 | splitting tokens joined by single spaces gives the tokens back |
| Strings.DecimalIsToken | src/bin/day_06_1.rs:22 | a decimal number is a whitespace-free token |
| Strings.TrimStart | src/bin/day_06_2.rs:37 | the result does not start with whitespace in the sense of `char::is_whitespace` (Unicode White_Space, U+000B and U+00A0 included) |
| Strings.TrimStartDropsWhitespace | src/bin/day_06_2.rs:37 | trimming the start keeps a suffix of the input and drops only Unicode whitespace before it |
| Strings.AsciiWhitespaceIsWhitespace | src/bin/day_06_2.rs:37 | the whitespace `trim` strips includes all ASCII whitespace `split_ascii_whitespace` splits at, and more: U+000B and U+00A0 are stripped but do not split |
| Strings.TrimEnd | src/bin/day_06_2.rs:37 | the result does not end with Unicode whitespace |
| Strings.TrimEndDropsWhitespace | src/bin/day_06_2.rs:37 | trimming the end keeps a prefix of the input and drops only Unicode whitespace after it |
| Strings.TrimEmpty | src/bin/day_05_1.rs:47 | `trim()` is empty exactly when the line is all whitespace |
| Strings.TrimStartEmpty | src/bin/day_05_1.rs:47 | trimming the start leaves nothing exactly when the line is all whitespace |
| Strings.TrimEndEmpty | src/bin/day_05_1.rs:47 | trimming the end leaves nothing exactly when the line is all whitespace |
| Strings.TrimUnpadded | src/bin/day_06_2.rs:41 | a string that neither starts nor ends with whitespace trims to itself |
| Strings.SignedDecimal | src/bin/day_01_2.rs:24 | the decimal form of an integer: an optional minus sign then digits |
| Strings.ParseSignedDecimalOf | src/bin/day_01_2.rs:24 | parsing the decimal form of an in-range integer gives it back |
| Day01Part1.ParseLine | src/bin/day_01_1.rs:15-25 | the direction is Left exactly for an `L` line, and the click count fits in a u32 |
| Day01Part1.ParseLineRoundTrip | src/bin/day_01_1.rs:15-25 | a line written from a direction and a u32 click count parses back to both |
| Day01Part1.TurnLeft | src/bin/day_01_1.rs:28-35 | from a dial position within 0..99 the new position is (dial - clicks) mod 100, again within 0..99 |
| Day01Part1.TurnRight | src/bin/day_01_1.rs:38-43 | the new position is (dial + clicks) mod 100, provided the u32 addition does not overflow |
| Day01Part1.DialAfter | src/bin/day_01_1.rs:46-53 | the dial stays within 0..99 |
| Day01Part1.ZeroCount | src/bin/day_01_1.rs:54-56 | the zero count never exceeds the number of instructions |
| Day01Part1.CalculateResult | src/bin/day_01_1.rs:45-59 | parses every line and counts the instructions after which the dial, started at 50, reads 0 |
| Day01Part1.CountZeros | src/bin/day_01_1.rs:49-57 | counts the instructions after which the dial, started at 50, reads 0 |
| Day01Part1.DialStep | src/bin/day_01_1.rs:49-53 | each instruction moves the dial by its signed click count, modulo 100 |
| Day01Part1.NetTurnAppend | src/bin/day_01_1.rs:49-53 | the net turn of two runs of instructions is the sum of their net turns |
| Day01Part1.TurnsCancel | src/bin/day_01_1.rs:28-43 | turning left then right by the same count leaves the dial where it was |
| Day01Part2.ParseLine | src/bin/day_01_2.rs:16-26 | the direction is Left exactly for an `L` line, and the click count fits in an i32 |
| Day01Part2.ParseLineRoundTrip | src/bin/day_01_2.rs:16-26 | a line written from a direction and an i32 click count parses back to both |
| Day01Part2.Turn | src/bin/day_01_2.rs:30-55 | the dial moves by the clicks modulo 100 and the counter grows by the clicks that land on 0; a non-positive count changes nothing |
| Day01Part2.ClickStep | src/bin/day_01_2.rs:34-51 | one step of the click loop (wrap at 0 going left, at 99 going right) is one more click of the offset modulo 100 |
| Day01Part2.ZeroHitsRight | src/bin/day_01_2.rs:44-51 | turning right from d by c clicks passes 0 exactly (d + c) div 100 times |
| Day01Part2.ZeroHitsLeft | src/bin/day_01_2.rs:34-41 | turning left from d by c clicks passes 0 exactly (c + (100 - d) mod 100) div 100 times |
| Day01Part2.DialAfter | src/bin/day_01_2.rs:57-62 | the dial stays within 0..99 |
| Day01Part2.CalculateResult | src/bin/day_01_2.rs:57-64 | parses every line and gives the total number of clicks, over all instructions from 50, that land on 0 |
| Day01Part2.CountZeroHits | src/bin/day_01_2.rs:60-62 | the total number of clicks, over all instructions from 50, that land on 0 |
| Day02Part1.CheckRange | src/bin/day_02_1.rs:8-22 | the total is the sum of the numbers in [a, b] whose decimal form is two equal halves |
| Day02Part1.DoubledIffMultiple | src/bin/day_02_1.rs:13-18 | a number is two equal halves exactly when it is m * (10^len(m) + 1) for some m >= 1 |
| Day02Part1.DoubledHalf | src/bin/day_02_1.rs:13-18 | a doubled number is its half m times 10^len(m) + 1 |
| Day02Part1.MultipleIsDoubled | src/bin/day_02_1.rs:13-18 | m * (10^len(m) + 1) is a doubled number |
| Day02Part1.TwiceIsDoubled | src/bin/day_02_1.rs:13-18 | a digit string without leading zero written twice is a doubled number |
| Day02Part1.OddLengthRangeSumsToZero | src/bin/day_02_1.rs:14 | a range of numbers that all have an odd number of digits contributes nothing |
| Day02Part1.SumDoubledSplit | src/bin/day_02_1.rs:12-20 | the sum over [a, c] splits into the sums over [a, b] and [b+1, c] |
| Day02Part1.ParseRange | src/bin/day_02_1.rs:28-31 | both bounds of an `a-b` range fit in a u64 |
| Day02Part1.ParseRangeRoundTrip | src/bin/day_02_1.rs:28-31 | the text `a-b` of two u64 bounds parses back to (a, b) |
| Day02Part1.ParseRanges | src/bin/day_02_1.rs:25-32 | one range per comma-separated part, each with an upper bound below u64::MAX |
| Day02Part1.CalculateResult | src/bin/day_02_1.rs:24-35 | the sum over all ranges of the first line of their doubled numbers |
| Day02Part2.Repeat | src/bin/day_02_2.rs:13-21 | a block written r times has r times the block's length |
| Day02Part2.RepeatBlock | src/bin/day_02_2.rs:15-16 | block i of r copies of b is b |
| Day02Part2.RepeatStep | src/bin/day_02_2.rs:15-21 | a prefix of i copies followed by one more matching block is a prefix of i+1 copies |
| Day02Part2.MismatchNotRepeating | src/bin/day_02_2.rs:16-19 | one block that differs from the first rules out block length k |
| Day02Part2.AllBlocksEqual | src/bin/day_02_2.rs:14-21 | the flag is true exactly when the string is its first k characters repeated |
| Day02Part2.CheckNumber | src/bin/day_02_2.rs:8-26 | true exactly when the decimal form is one block repeated, for some block length up to half the length |
| Day02Part2.RepeatedIffSomeBlock | src/bin/day_02_2.rs:8-26 | a number passes exactly when its decimal form is some string repeated at least twice |
| Day02Part2.SomeBlockIsRepeated | src/bin/day_02_2.rs:8-26 | a decimal form that is a string repeated at least twice passes |
| Day02Part2.DoubledIsRepeated | src/bin/day_02_2.rs:8-26 | every number invalid in part 1 is invalid in part 2 |
| Day02Part2.SingleDigitNotRepeated | src/bin/day_02_2.rs:10 | single-digit numbers never pass (the block-length loop is empty) |
| Day02Part2.CheckRange | src/bin/day_02_2.rs:29-37 | the total is the sum of the numbers in [a, b] that pass check_number |
| Day02Part2.SumRepeatedAtLeastDoubled | src/bin/day_02_2.rs:29-37 | a range's part-2 sum is at least its part-1 sum |
| Day02Part2.CalculateResult | src/bin/day_02_2.rs:39-50 | the sum over all ranges of the first line of their repeated numbers |
| Day03Part1.LargestDigitPositionValue | src/bin/day_03_1.rs:7-18 | (0, 0) for an empty bank; otherwise the position and value of the first occurrence of the largest digit |
| Day03Part1.FollowingLargestDigit | src/bin/day_03_1.rs:20-23 | the largest digit strictly after the given position, or 0 when there is none |
| Day03Part1.Joltage | src/bin/day_03_1.rs:27-32 | for a one-character line, whatever its character, or an all-digit line of two or more, the two-digit value is at most 99 |
| Day03Part1.JoltageIsBestPair | src/bin/day_03_1.rs:27-32 | the value is the largest 10*d[p] + d[q] over positions p < q, and is attained by one such pair; a one-digit bank gives 0 |
| Day03Part1.Total | src/bin/day_03_1.rs:25-35 | over such lines, the sum of the joltages is at most 99 per line |
| Day03Part2.GreedyStep | src/bin/day_03_2.rs:24 | the pick lies in the window searched |
| Day03Part2.GreedyStepIsFirstMax | src/bin/day_03_2.rs:24 | each pick is the first largest digit of its window, as the fold returns it |
| Day03Part2.GreedyPicks | src/bin/day_03_2.rs:21-27 | one pick per remaining digit, each inside the bank |
| Day03Part2.Greedy12 | src/bin/day_03_2.rs:20-27 | twelve picks |
| Day03Part2.GreedyIncreasing | src/bin/day_03_2.rs:23-27 | the picked positions strictly increase |
| Day03Part2.PlaceValueOfReverse | src/bin/day_03_2.rs:28-29 | summing d[i] * 10^i over the reversed digits is reading the digits most significant first |
| Day03Part2.Largest12DigitNumber | src/bin/day_03_2.rs:20-30 | a bank of exactly 11 characters, whatever they are, gives 0; an all-digit bank of 12 or more gives the number formed by the greedy picks |
| Day03Part2.GreedyProgressStep | src/bin/day_03_2.rs:24-26 | one round appends the greedy digit and continues after its pick with a window one wider, keeping the digits taken plus the digits still to come equal to all the greedy digits |
| Day03Part2.GreedyStepIsFold | src/bin/day_03_2.rs:7-18 | the greedy pick is the position and digit `largest_digit_position_value` returns for the window |
| Day03Part2.PickDigit | src/bin/day_03_2.rs:24 | with an empty window the pick is position 0 with digit 0; otherwise it is the greedy pick of the window, relative to its start |
| Day03Part2.LoopStateStep | src/bin/day_03_2.rs:23-27 | one round of the loop keeps the loop invariant: the digits taken are the first greedy digits and the search resumes after the last pick |
| Day03Part2.GreedyDigitsAreValues | src/bin/day_03_2.rs:23-27 | the digits the rounds collect are the digits at the greedy picks |
| Day03Part2.DigitsLeValue | src/bin/day_03_2.rs:28-29 | of two digit sequences of equal length, the one smaller or equal in dictionary order forms the smaller or equal number |
| Day03Part2.MsbValueBound | src/bin/day_03_2.rs:29 | k digits form a number below 10^k |
| Day03Part2.GreedyIsOptimal | src/bin/day_03_2.rs:20-30 | no increasing choice of positions of the same length gives a digit sequence larger in dictionary order than the greedy picks |
| Day03Part2.GreedyStepBeats | src/bin/day_03_2.rs:24 | every digit in the window is at most the picked one, and an equal digit lies at or after it |
| Day03Part2.Largest12IsMaximum | src/bin/day_03_2.rs:20-30 | the twelve greedy picks increase and form the largest 12-digit number any twelve increasing positions form, below 10^12 |
| Day03Part2.CalculateResult | src/bin/day_03_2.rs:32-40 | over banks of 11 arbitrary characters or of 12 or more digits, the sum of every bank's largest 12-digit number, at most 10^12 per bank |
| Day04Part1.CountInFirst | src/bin/day_04_1.rs:11-18 | counting over the first k directions gives at most k |
| Day04Part1.CountNeighbouringRolls | src/bin/day_04_1.rs:10-19 | at most 8 neighbouring rolls |
| Day04Part1.MovesDiffer | src/bin/day_04_1.rs:11-12 | two different directions that both stay inside the grid reach different cells |
| Day04Part1.CountInFirstIsCard | src/bin/day_04_1.rs:11-18 | the count over the first k directions is the number of distinct roll cells they reach |
| Day04Part1.AdjacentIsReached | src/bin/day_04_1.rs:11-12 | every cell adjacent to c (including diagonally) is reached by one of the eight moves |
| Day04Part1.NeighbourCountIsCard | src/bin/day_04_1.rs:10-19 | the neighbour count is the number of adjacent cells holding a roll |
| Day04Part1.AccessibleCountIsCard | src/bin/day_04_1.rs:25-29 | the answer is the number of roll cells with fewer than four adjacent rolls, at most height*width |
| Day04Part1.CalculateResult | src/bin/day_04_1.rs:21-33 | counts the roll cells with fewer than four neighbouring rolls |
| Day04Part2.Visit | src/bin/day_04_2.rs:25-29 | visiting one cell keeps the grid's shape |
| Day04Part2.VisitAll | src/bin/day_04_2.rs:24-30 | visiting a list of cells keeps the grid's shape |
| Day04Part2.Pass | src/bin/day_04_2.rs:22-32 | one removal pass keeps the grid's shape |
| Day04Part2.RemoveAccessibleRolls | src/bin/day_04_2.rs:22-32 | the grid becomes the result of visiting every cell in row-major order, each seeing the removals made before it |
| Day04Part2.BelowTransitive | src/bin/day_04_2.rs:22-32 | "has no roll where the other has none" is transitive |
| Day04Part2.VisitAllBelow | src/bin/day_04_2.rs:24-30 | a pass only removes rolls, never adds one |
| Day04Part2.VisitAllUnvisited | src/bin/day_04_2.rs:24-30 | a cell not in the visit list keeps its value |
| Day04Part2.VisitAllAppend | src/bin/day_04_2.rs:24-30 | visiting xs then ys is visiting xs + ys |
| Day04Part2.CountInFirstMonotone | src/bin/day_04_2.rs:11-20 | removing rolls never increases a neighbour count |
| Day04Part2.StillRemovable | src/bin/day_04_2.rs:24-30 | a removable roll not yet visited stays removable while other cells are visited |
| Day04Part2.RemovedStaysGone | src/bin/day_04_2.rs:24-30 | a roll removable when its turn comes is gone after it and stays gone for the rest of the pass |
| Day04Part2.PassRemovesRemovable | src/bin/day_04_2.rs:24-30 | a roll removable at the start of a pass is gone after it |
| Day04Part2.VisitAllNothingRemovable | src/bin/day_04_2.rs:24-30 | when no roll is removable the pass changes nothing |
| Day04Part2.PassStableIff | src/bin/day_04_2.rs:48-53 | a pass leaves the grid unchanged exactly when no roll is removable |
| Day04Part2.SameRollsEqual | src/bin/day_04_2.rs:48-53 | grids each below the other are equal |
| Day04Part2.PassShrinks | src/bin/day_04_2.rs:48-53 | a pass keeps a subset of the rolls, a strict one when it changes the grid |
| Day04Part2.Settle | src/bin/day_04_2.rs:48-53 | repeating passes until nothing changes keeps the grid's shape (and terminates, by the shrinking roll count) |
| Day04Part2.SettleIsStable | src/bin/day_04_2.rs:48-53 | the settled grid only lost rolls and has no removable roll left |
| Day04Part2.CalculateRemovedRolls | src/bin/day_04_2.rs:34-38 | at most one per cell; RemovedIsDifference below characterises it as the rolls of the start grid missing from the current one |
| Day04Part2.RemovedIsDifference | src/bin/day_04_2.rs:34-38 | the removed count is the number of rolls in the start grid missing from the current one |
| Day04Part2.RemovedGrows | src/bin/day_04_2.rs:48-53 | the removed count stays the same after a pass exactly when the pass changed nothing, so the loop's exit test is the fixpoint test |
| Day04Part2.DifferenceCard | src/bin/day_04_2.rs:34-38 | removing a subset removes its size |
| Day04Part2.InitialRolls | src/bin/day_04_2.rs:44 | a cell holds a roll exactly when its character is `@` |
| Day04Part2.RollGrid | src/bin/day_04_2.rs:42-44 | a new boolean grid marking the `@` cells |
| Day04Part2.CalculateResult | src/bin/day_04_2.rs:40-55 | the number of rolls removed between the start grid and the settled grid |
| Day05Part1.Contains | src/bin/day_05_1.rs:39-41 | a range holding an ID is well formed (start at most end), both ends inclusive |
| Day05Part1.TryCombine | src/bin/day_05_1.rs:15-23 | as written: a combined range starts no later and ends no earlier than both inputs |
| Day05Part1.TryCombineJoinsGap | src/bin/day_05_1.rs:15-23 | as written, [1,2] and [5,6] combine to [1,6], which holds 3, an ID in neither input |
| Day05Part1.TryCombineRefusesOverlap | src/bin/day_05_1.rs:15-23 | as written, two well-formed ranges are refused only when they share an ID |
| Day05Part1.FromString | src/bin/day_05_1.rs:26-36 | Ok exactly when the spec has one `-`, with both bounds within u64 |
| Day05Part1.FromStringRoundTrip | src/bin/day_05_1.rs:26-36 | the text `lo-hi` of a range parses back to it |
| Day05Part1.FirstBlank | src/bin/day_05_1.rs:45-49 | the index of the first line that trims to empty, or the line count |
| Day05Part1.Ranges | src/bin/day_05_1.rs:45-49 | one range per line before the first blank line, each parsed from its line |
| Day05Part1.Ids | src/bin/day_05_1.rs:50-52 | one ID per line after the blank line, each parsed as a u64 from its line |
| Day05Part1.CountContaining | src/bin/day_05_1.rs:57 | the number of ranges holding an ID is positive exactly when some range holds it |
| Day05Part1.CountFresh | src/bin/day_05_1.rs:57 | the count never exceeds the number of IDs |
| Day05Part1.CountFreshIsCard | src/bin/day_05_1.rs:57 | the count is the number of positions whose ID lies in some range |
| Day05Part1.CalculateResult | src/bin/day_05_1.rs:44-59 | at most one per listed ID |
| Day05Part1.CalculateResultCountsFresh | src/bin/day_05_1.rs:44-59 | the answer is the number of listed IDs that lie in some range |
| Day05Part2.TryCombine | src/bin/day_05_2.rs:15-23 | a combined range starts no later and ends no earlier than both inputs |
| Day05Part2.TryCombineIsUnion | src/bin/day_05_2.rs:15-23 | two well-formed ranges combine exactly when they share an ID, and then into a well-formed range holding exactly the IDs of both |
| Day05Part2.IdsCard | src/bin/day_05_2.rs:38-40 | a well-formed range holds hi - lo + 1 IDs |
| Day05Part2.Len | src/bin/day_05_2.rs:38-40 | `len` is the number of IDs in the range |
| Day05Part2.Insert | src/bin/day_05_2.rs:51 | inserting into a sorted list gives a sorted list with one more occurrence of the element |
| Day05Part2.Sort | src/bin/day_05_2.rs:51 | `sort` gives a lexicographically sorted permutation |
| Day05Part2.Merge | src/bin/day_05_2.rs:55-67 | the fold never lengthens the list and keeps a non-empty list non-empty |
| Day05Part2.MergePass | src/bin/day_05_2.rs:55-67 | the imperative fold with `pop`/`push` computes the merge |
| Day05Part2.CoveredIdsAppend | src/bin/day_05_2.rs:55-67 | the IDs covered by a concatenation are the union of the parts' |
| Day05Part2.TryCombineCovers | src/bin/day_05_2.rs:15-23 | whatever the inputs, a successful combination starts at the smaller start, is well formed and holds exactly the IDs of both, so an inverted range it absorbs adds nothing |
| Day05Part2.MergeStepCovers | src/bin/day_05_2.rs:56-65 | one fold step adds exactly the new range's IDs, and keeps well-formed ranges well formed |
| Day05Part2.MergeCovers | src/bin/day_05_2.rs:55-67 | a merge pass covers exactly the IDs the input covered, and keeps well-formed ranges well formed |
| Day05Part2.MergeStepSorted | src/bin/day_05_2.rs:56-65 | on ranges sorted by start, a fold step with a range starting no earlier keeps them sorted, all starting no later than it |
| Day05Part2.MergeSortedByStart | src/bin/day_05_2.rs:55-67 | a merge pass over ranges sorted by start leaves them sorted by start |
| Day05Part2.MergeSameLength | src/bin/day_05_2.rs:53 | a pass that leaves the number of ranges unchanged leaves the ranges unchanged, so the loop's length test detects the fixed point |
| Day05Part2.Settle | src/bin/day_05_2.rs:53-69 | the repeated passes end in ranges a further pass does not change, covering the same IDs |
| Day05Part2.SettleSortedByStart | src/bin/day_05_2.rs:53-69 | settling ranges sorted by start leaves them sorted by start |
| Day05Part2.MergeStepDisjoint | src/bin/day_05_2.rs:56-65 | on input sorted by start, a fold step keeps the accumulated ranges pairwise disjoint |
| Day05Part2.MergeSortedIsDisjoint | src/bin/day_05_2.rs:51-67 | one pass over ranges sorted by start leaves pairwise disjoint ranges |
| Day05Part2.MergeDisjointIsIdentity | src/bin/day_05_2.rs:53-69 | a second pass over disjoint ranges changes nothing, so the loop stops after it |
| Day05Part2.CoveredBelow | src/bin/day_05_2.rs:70 | ranges all ending below a bound cover only IDs below it |
| Day05Part2.SumLenIsCard | src/bin/day_05_2.rs:70 | on disjoint ranges the sum of lengths is the number of covered IDs |
| Day05Part2.CalculateResult | src/bin/day_05_2.rs:43-72 | the answer is the number of IDs covered by the ranges before the blank line; it only needs the ranges left after merging to be well formed, since `len` underflows on an inverted one |
| Day05Part2.InvertedRangeAbsorbed | src/bin/day_05_2.rs:43-72 | the input `1-10`, `5-3`, blank is accepted: the inverted range is absorbed into `1-10` and one range remains |
| Day05Part2.SortedSamePermutation | src/bin/day_05_2.rs:51 | sorting orders the ranges by start, covers the same IDs and keeps well-formed ranges well formed |
| Day05Part2.PermutationCovers | src/bin/day_05_2.rs:51 | a permutation covers the same IDs |
| Day05Part2.CoveredIdsMember | src/bin/day_05_2.rs:70 | an ID is covered exactly when some range holds it |
| Day06Part1.ParseNumberLine | src/bin/day_06_1.rs:19-26 | exactly n_problems numbers, each within u64 |
| Day06Part1.ParseNumberLineRoundTrip | src/bin/day_06_1.rs:19-26 | a line written from u64 numbers separated by spaces parses back to them |
| Day06Part1.OperationOf | src/bin/day_06_1.rs:31-35 | `+` is Add, `*` is Multiply, anything else is refused |
| Day06Part1.ParseOperationLine | src/bin/day_06_1.rs:28-39 | exactly n_problems operations |
| Day06Part1.ParseOperationLineRoundTrip | src/bin/day_06_1.rs:28-39 | a line written from operation symbols parses back to the operations |
| Day06Part1.ProductZero | src/bin/day_06_1.rs:48 | a product is zero exactly when one factor is zero |
| Day06Part1.Column | src/bin/day_06_1.rs:45 | column i holds the i-th number of every number line |
| Day06Part1.SumRowsStep | src/bin/day_06_1.rs:44-51 | summing one more column adds that column's sum |
| Day06Part1.AllAddIsGrandSum | src/bin/day_06_1.rs:44-51 | when every operation is Add the total is the sum of all numbers |
| Day06Part1.SumRowsZero | src/bin/day_06_1.rs:44-51 | no columns sum to zero |
| Day06Part1.NumberRows | src/bin/day_06_1.rs:42 | n_number_lines parsed lines, each of n_problems numbers |
| Day06Part1.CalculateResult | src/bin/day_06_1.rs:41-53 | when every operator is `+`, the answer is the sum of every number on the number lines; CalculateResultOfWrittenInput gives the general case |
| Day06Part1.CalculateResultOfWrittenInput | src/bin/day_06_1.rs:41-53 | for an input written from number rows and operations, the answer is the sum over columns of each column's sum or product |
| Day06Part2.Columns | src/bin/day_06_2.rs:24-31 | column j is the j-th character of every number line, a space where a line is shorter |
| Day06Part2.BlankColumnIff | src/bin/day_06_2.rs:37 | a column trims to empty exactly when every line has whitespace there |
| Day06Part2.Groups | src/bin/day_06_2.rs:34-44 | at least one group (the first is pushed before the loop) |
| Day06Part2.GroupsCount | src/bin/day_06_2.rs:34-44 | one group more than there are blank columns |
| Day06Part2.GroupsFlatten | src/bin/day_06_2.rs:34-44 | the groups, concatenated, are the non-blank columns' numbers in order |
| Day06Part2.FillChars | src/bin/day_06_2.rs:24-27 | a fresh space-filled character array holding each line's bytes |
| Day06Part2.Transpose | src/bin/day_06_2.rs:28-31 | transposed line j holds column j of the array |
| Day06Part2.GroupColumns | src/bin/day_06_2.rs:34-44 | the imperative grouping equals the group specification |
| Day06Part2.ParseNumberLines | src/bin/day_06_2.rs:22-45 | the problems' numbers are the groups of the input's columns |
| Day06Part2.CalculateResult | src/bin/day_06_2.rs:60-74 | the sum over the problems of the sum or product of their column numbers |
| Day07Part1.CellOf | src/bin/day_07_1.rs:36-44 | `.`, `S` and `^` are the only accepted characters, mapping to Empty, Source and Splitter |
| Day07Part1.Layout | src/bin/day_07_1.rs:32-47 | a height x width diagram whose cells are the parsed characters, Empty where a line is short |
| Day07Part1.LastSourceIsLast | src/bin/day_07_1.rs:38-41 | within one line, the recorded source column is the last `S`, or unchanged when there is none |
| Day07Part1.SourceColIsLast | src/bin/day_07_1.rs:34-46 | the source column is 0 without any `S`, otherwise the column of the last `S` read |
| Day07Part1.ParseRow | src/bin/day_07_1.rs:36-44 | reading one line fills that row of the grid with its parsed cells and keeps the last `S` column seen; an empty line past the last row writes nothing |
| Day07Part1.ParseManifoldLayout | src/bin/day_07_1.rs:32-47 | a fresh grid holding the parsed diagram, and the column of the last `S`; empty lines past the last row are accepted |
| Day07Part1.TrailingBlankLine | src/bin/day_07_1.rs:32-47 | a trailing empty line, past the last row or not, still parses and changes neither the diagram nor the source column |
| Day07Part1.PushIfNotPresent | src/bin/day_07_1.rs:49-51 | appends the element only when absent; the result holds exactly the old elements and the new one |
| Day07Part1.StepEndsMembers | src/bin/day_07_1.rs:56-70 | a column is a beam end of the next row exactly when some current end feeds it (straight on, or either side of a splitter) |
| Day07Part1.StepEndsLast | src/bin/day_07_1.rs:58-68 | the ends after the last current end are those before it plus those it feeds |
| Day07Part1.BeamRow | src/bin/day_07_1.rs:58-68 | a row's beam marks are exactly the cells marked by its beam ends |
| Day07Part1.BeamPaths | src/bin/day_07_1.rs:53-72 | a height x width diagram whose every row is that row's beam marks |
| Day07Part1.MarkedByAnySnoc | src/bin/day_07_1.rs:58-68 | marking by one more end adds that end's marks |
| Day07Part1.MarkNeighbours | src/bin/day_07_1.rs:63-64 | marks the two cells beside a splitter and nothing else |
| Day07Part1.SpreadEnd | src/bin/day_07_1.rs:59-67 | one beam end: the new ends gain both sides of a splitter (without repeats) or the column itself, and only that end's marks are added |
| Day07Part1.SpreadRow | src/bin/day_07_1.rs:57-69 | the next ends are the step of the current ones, and only this row gains exactly the current ends' marks |
| Day07Part1.PropagateBeam | src/bin/day_07_1.rs:53-72 | a fresh grid equal to the beam-path diagram |
| Day07Part1.CountReachedIsCard | src/bin/day_07_1.rs:74-82 | the corrected count is the number of splitters the beam reaches |
| Day07Part1.BeamPathsCell | src/bin/day_07_1.rs:53-72 | each cell of the diagram is marked exactly when an end of its row marks it |
| Day07Part1.EndMarkedAbove | src/bin/day_07_1.rs:56-70 | a beam end of row r + 1 is marked in row r |
| Day07Part1.ReachedIsHit | src/bin/day_07_1.rs:74-82 | every reached splitter is counted by count_splits |
| Day07Part1.MarkedAboveIsEnd | src/bin/day_07_1.rs:56-70 | a marked non-splitter cell above continues as a beam end |
| Day07Part1.MarkedIsFed | src/bin/day_07_1.rs:58-68 | a marked cell that is not a splitter becomes a beam end of the next row |
| Day07Part1.HitIsMarked | src/bin/day_07_1.rs:74-82 | a splitter counted by count_splits has a beam mark just above it |
| Day07Part1.MarkedSplitterIsReached | src/bin/day_07_1.rs:74-82 | without stacked splitters, a splitter marked from above is reached by the beam |
| Day07Part1.HitIsReached | src/bin/day_07_1.rs:74-82 | without stacked splitters, every splitter counted by count_splits is reached |
| Day07Part1.CountSplits | src/bin/day_07_1.rs:74-82 | at most one count per cell; CountSplitsBounds below relates it to the splits the beam makes |
| Day07Part1.CountSplitsBounds | src/bin/day_07_1.rs:74-82 | count_splits is at least the number of splits, and equal to it when no splitter sits on another |
| Day07Part1.SplitterColumnNotFed | src/bin/day_07_1.rs:60-64 | a splitter with no splitter beside it ends the beam in its own column |
| Day07Part1.HitUnreachedOvercounts | src/bin/day_07_1.rs:74-82 | one counted but unreached splitter makes count_splits exceed the number of splits |
| Day07Part1.StackedSplitterOvercounts | src/bin/day_07_1.rs:74-82 | a reached splitter with another directly below it (and none beside it) makes count_splits too high |
| Day07Part1.CalculateResult | src/bin/day_07_1.rs:108-115 | the answer is count_splits over the parsed diagram and its beam paths |
| Day07Part2.TimelinesPositive | src/bin/day_07_2.rs:50-68 | every start position has at least one timeline |
| Day07Part2.TimelinesClearColumn | src/bin/day_07_2.rs:53-65 | a beam whose column has no splitter below it ends its walk, with exactly one timeline |
| Day07Part2.TimelinesAcross | src/bin/day_07_2.rs:53-65 | a walk that ends and passes only splitter-free rows still ends from the lower row, with the same timeline count |
| Day07Part2.WalkedRows | src/bin/day_07_2.rs:66 | every row the walk passed has the same count as where it stopped, which is what the cache stores |
| Day07Part2.WellSpacedWalkEnds | src/bin/day_07_2.rs:50-68 | when no splitter of the diagram is in the first or last column or beside another, every walk ends |
| Day07Part2.UnreachedSplitterIgnored | src/bin/day_07_2.rs:50-68 | a splitter in column 0 that the beam never meets is not read: the walk ends with one timeline though the diagram is not well spaced |
| Day07Part2.CountMultiversesInner | src/bin/day_07_2.rs:50-68 | for any walk that ends (no splitter it meets at the border or beside another), the memoised walk returns the timeline count from (start_row, col), keeps every cache entry correct and caches its own start |
| Day07Part2.Splitters | src/bin/day_07_2.rs:40-41 | a boolean diagram true exactly at the splitters |
| Day07Part2.BuildSplitterLayout | src/bin/day_07_2.rs:40-41 | a fresh array marking exactly the splitter cells |
| Day07Part2.CountMultiverses | src/bin/day_07_2.rs:39-44 | whenever the beam's walk ends, the timeline count from the source column of the top row |
| Day07Part2.CalculateResult | src/bin/day_07_2.rs:84-89 | for a diagram that parses and whose reached splitters are well spaced (others may lie anywhere), the timeline count from its source, at least 1 |
| Day08Part1.FromString | src/bin/day_08_1.rs:33-47 | a line whose trimmed text does not split into exactly three comma-separated parts is an error; every parsed coordinate is within the i64 range |
| Day08Part1.FromStringRoundTrip | src/bin/day_08_1.rs:33-47 | printing any box with i64 coordinates as `x,y,z` and parsing it gives the same box back |
| Day08Part1.LineSplits | src/bin/day_08_1.rs:34 | the printed line of a box splits on commas into exactly its three signed decimals |
| Day08Part1.Boxes | src/bin/day_08_1.rs:81 | one junction box per input line, each the parse of its line |
| Day08Part1.CombinationsInside | src/bin/day_08_1.rs:82-87 | any reordering of the index pairs of `tuple_combinations` holds only pairs i < j below the box count |
| Day08Part1.BuildConnectionMatrix | src/bin/day_08_1.rs:50-57 | an n-by-n matrix, true exactly at the two orientations of the first `N_CONNECTIONS` pairs, and therefore symmetric |
| Day08Part1.ConnectionRows | src/bin/day_08_1.rs:50-57 | the value form of the matrix is square of the given size |
| Day08Part1.ConnectionRowsSymmetric | src/bin/day_08_1.rs:53-54 | the connection relation is symmetric, since each pair is entered both ways |
| Day08Part1.ReachableRefl | src/bin/day_08_1.rs:64 | every box is in its own circuit (the search starts with it) |
| Day08Part1.ReachableStep | src/bin/day_08_1.rs:66-69 | a box connected to a reachable box is reachable |
| Day08Part1.ReachableSymmetric | src/bin/day_08_1.rs:64-71 | over a symmetric matrix, reachability is symmetric, so circuits are equivalence classes |
| Day08Part1.ClosedContainsWalk | src/bin/day_08_1.rs:64-71 | a set closed under connections contains the end of every walk that starts inside it |
| Day08Part1.ClosedContainsCircuit | src/bin/day_08_1.rs:64-71 | a set closed under connections contains the whole circuit of each of its boxes |
| Day08Part1.CircuitClosed | src/bin/day_08_1.rs:64-71 | a circuit is closed under connections |
| Day08Part1.CircuitOutside | src/bin/day_08_1.rs:62-72 | the circuit of a box outside a closed checked set shares no box with it |
| Day08Part1.LowestUnchecked | src/bin/day_08_1.rs:63 | the first index that is not checked: all below it are checked, and it is unchecked unless it is the end |
| Day08Part1.LowestUncheckedUnique | src/bin/day_08_1.rs:63 | any index with those two properties is the first unchecked index |
| Day08Part1.CircuitSizes | src/bin/day_08_1.rs:62-74 | the sizes recorded in discovery order, each at least one |
| Day08Part1.CircuitSizesStep | src/bin/day_08_1.rs:62-74 | one outer iteration records the size of the lowest unchecked box's circuit and checks that circuit |
| Day08Part1.CircuitSizesAllDone | src/bin/day_08_1.rs:62 | when every box is checked no more sizes are recorded |
| Day08Part1.LowestAbove | src/bin/day_08_1.rs:62-72 | checking a circuit holding the lowest unchecked box moves the lowest unchecked index strictly up, so the loop ends |
| Day08Part1.Range | src/bin/day_08_1.rs:60 | the box indices below n, n of them |
| Day08Part1.CircuitSizesSum | src/bin/day_08_1.rs:62-74 | the recorded sizes add up to the number of boxes not yet checked: every box lies in exactly one circuit |
| Day08Part1.LeadersStep | src/bin/day_08_1.rs:62-74 | the lowest unchecked box is the lowest box of its circuit, and checking that circuit removes exactly it from the remaining circuit leaders |
| Day08Part1.CircuitSizesCount | src/bin/day_08_1.rs:62-74 | one size is recorded per circuit, counted by its lowest box |
| Day08Part1.SumConcat | src/bin/day_08_1.rs:62-74 | the sum of a concatenation is the sum of the sums |
| Day08Part1.SumPermutation | src/bin/day_08_1.rs:75-76 | sorting does not change the total size |
| Day08Part1.Insert | src/bin/day_08_1.rs:75 | insertion into an ascending list keeps it ascending and adds exactly the element |
| Day08Part1.SortAscending | src/bin/day_08_1.rs:75 | `sort_unstable`: ascending and a permutation of the input |
| Day08Part1.Reverse | src/bin/day_08_1.rs:76 | `reverse`: same length, element k comes from position length-1-k |
| Day08Part1.ReverseAscending | src/bin/day_08_1.rs:75-76 | reversing an ascending list gives a descending permutation of it |
| Day08Part1.ReverseMultiset | src/bin/day_08_1.rs:76 | reversing is a permutation |
| Day08Part1.SortedCircuitSizesSum | src/bin/day_08_1.rs:59-78 | the returned sizes are descending, each at least one, and add up to the number of boxes |
| Day08Part1.PositivePermutation | src/bin/day_08_1.rs:75-76 | a permutation of positive sizes is positive |
| Day08Part1.DistinctCard | src/bin/day_08_1.rs:69 | a list without repeats has as many elements as its set |
| Day08Part1.DistinctBounded | src/bin/day_08_1.rs:66-69 | a list of distinct indices below n has at most n entries, so the search ends |
| Day08Part1.NextUnchecked | src/bin/day_08_1.rs:63 | the first index whose flag is false, or the length when all are set |
| Day08Part1.CollectCircuit | src/bin/day_08_1.rs:64-71 | the breadth-first list starts at the given box, has no repeats, and holds exactly the boxes reachable from it |
| Day08Part1.MarkChecked | src/bin/day_08_1.rs:72 | a flag is set afterwards exactly when it was set before or its index is in the circuit |
| Day08Part1.ExtractStep | src/bin/day_08_1.rs:62-74 | after one iteration the sizes so far plus those still to come are still all the circuit sizes, and the lowest unchecked index has moved up |
| Day08Part1.ExtractCircuitSizes | src/bin/day_08_1.rs:59-78 | the result is the list of circuit sizes sorted largest first |
| Day08Part1.Take | src/bin/day_08_1.rs:91 | `take(k)`: a prefix of length k, or the whole list when shorter |
| Day08Part1.FewBoxesInside | src/bin/day_08_1.rs:50-55 | with at most `N_JUNCTION_BOXES` lines, every pair taken lies inside the connection matrix |
| Day08Part1.CalculateResult | src/bin/day_08_1.rs:80-93 | whenever the first `N_CONNECTIONS` pairs lie inside the matrix (however many lines there are), the product of the three largest circuit sizes after connecting those closest pairs |
| Day08Part2.BuildConnectionMatrix | src/bin/day_08_2.rs:49-57 | the matrix joins exactly the first `n_connections` pairs, and the pair returned is the last of them |
| Day08Part2.ConnectionRowsWithin | src/bin/day_08_2.rs:51-54 | more connections only add links |
| Day08Part2.ReachableWithin | src/bin/day_08_2.rs:59-78 | a box reachable with fewer links stays reachable with more |
| Day08Part2.CircuitCountMonotone | src/bin/day_08_2.rs:92-105 | adding connections never increases the number of circuits, which is what makes the search sound |
| Day08Part2.CircuitCountPositive | src/bin/day_08_2.rs:98 | there is at least one circuit exactly when there is at least one box |
| Day08Part2.SortedCircuitSizesCount | src/bin/day_08_2.rs:92-105 | the length of the size list is the number of circuits |
| Day08Part2.FirstSingleCircuitUnique | src/bin/day_08_2.rs:98-105 | at most one connection count is the fewest leaving a single circuit |
| Day08Part2.FirstSingleCircuitAt | src/bin/day_08_2.rs:98-105 | stopping at the first count with at most one circuit, after a count with two or more, stops at the fewest connections leaving a single circuit |
| Day08Part2.CoarseSearch | src/bin/day_08_2.rs:92-97 | when the first phase stops, it stops at a connection count leaving exactly two circuits; it gives up where the source panics, at a count past the pairs or a pair outside the matrix |
| Day08Part2.FineSearch | src/bin/day_08_2.rs:98-105 | stepping up one connection at a time from two circuits finds the fewest connections leaving one circuit, and the last pair joined; it gives up where the source panics |
| Day08Part2.SeveralCircuitsBefore | src/bin/day_08_2.rs:98-105 | with two or more circuits at m connections, every smaller count leaves more than one circuit |
| Day08Part2.CalculateResult | src/bin/day_08_2.rs:80-108 | for any parsed boxes and ordering of their pairs, when it answers, the answer is the product of the x coordinates of the two boxes joined by the connection that first leaves a single circuit |
| Day09Part1.FromString | src/bin/day_09_1.rs:17-24 | a line without exactly one comma is an error; parsed coordinates fit in a u64 |
| Day09Part1.FromStringRoundTrip | src/bin/day_09_1.rs:17-24 | printing any tile as `x,y` and parsing it gives the tile back |
| Day09Part1.ParseTiles | src/bin/day_09_1.rs:31-33 | one tile per line, each the parse of its line |
| Day09Part1.AbsDiff | src/bin/day_09_1.rs:27 | `abs_diff`: the distance between the two values, whichever is larger |
| Day09Part1.ConnectedArea | src/bin/day_09_1.rs:26-28 | the rectangle spanned by two tiles covers at least one tile |
| Day09Part1.ConnectedAreaSymmetric | src/bin/day_09_1.rs:26-28 | the area does not depend on which tile is first |
| Day09Part1.ConnectedAreaRow | src/bin/day_09_1.rs:26-28 | two tiles in one row span the tiles between them inclusive |
| Day09Part1.Areas | src/bin/day_09_1.rs:37-41 | one area per pair i < j, in `tuple_combinations` order |
| Day09Part1.LargestArea | src/bin/day_09_1.rs:37-42 | with two or more tiles the maximum exists, is the area of some pair and bounds every pair's area |
| Day09Part1.AreaListed | src/bin/day_09_1.rs:37-41 | every pair's area is among those compared |
| Day09Part1.CalculateResult | src/bin/day_09_1.rs:35-43 | the answer is the area of some pair of red tiles and no pair has a larger area |
| Day09Part2.MinOf | src/bin/day_09_2.rs:39 | `min`: no larger than either argument and equal to one of them |
| Day09Part2.MaxOf | src/bin/day_09_2.rs:40 | `max`: no smaller than either argument and equal to one of them |
| Day09Part2.NewRectangle | src/bin/day_09_2.rs:37-44 | the rectangle's sides are the two tiles' coordinates, ordered, so both tiles lie in it |
| Day09Part2.NewRectangleSymmetric | src/bin/day_09_2.rs:37-44 | the rectangle does not depend on the order of the tiles |
| Day09Part2.Contains | src/bin/day_09_2.rs:46-51 | a rectangle holding a point has its sides in order; PerimeterAndInterior splits it into sides and inside |
| Day09Part2.ContainsInPerimeter | src/bin/day_09_2.rs:53-56 | in a rectangle with its sides in order, a point on a side lies in the rectangle |
| Day09Part2.ContainsNotInPerimeter | src/bin/day_09_2.rs:58-63 | a point strictly inside lies in the rectangle and on none of its sides |
| Day09Part2.PerimeterAndInterior | src/bin/day_09_2.rs:46-63 | a point is in the rectangle exactly when it is on the perimeter or strictly inside, never both |
| Day09Part2.IsValid | src/bin/day_09_2.rs:69-71 | a rectangle is valid exactly when every listed point lies outside it or on one of its sides |
| Day09Part2.CornersInPerimeter | src/bin/day_09_2.rs:37-56 | both defining tiles are on the rectangle's perimeter |
| Day09Part2.Area | src/bin/day_09_2.rs:73-75 | every rectangle covers at least one tile |
| Day09Part2.AreaIsConnectedArea | src/bin/day_09_2.rs:73-75 | the rectangle's area is the connected area of part one for the same two tiles |
| Day09Part2.ColumnRunMembers | src/bin/day_09_2.rs:93-94 | a column run holds exactly the points of that column in the row range |
| Day09Part2.RowRunMembers | src/bin/day_09_2.rs:98-99 | a row run holds exactly the points of that row in the column range |
| Day09Part2.BetweenMembers | src/bin/day_09_2.rs:88-102 | the points pushed between two tiles are those strictly between them on their shared column, or on their shared row |
| Day09Part2.Coords | src/bin/day_09_2.rs:83 | the red tiles' own coordinates, in order |
| Day09Part2.EdgePointsMembers | src/bin/day_09_2.rs:87-103 | the points pushed by the first m steps are those on the first m edges |
| Day09Part2.ConnectionsMembers | src/bin/day_09_2.rs:82-105 | the listed points are exactly the red tiles and the points on edges between consecutive tiles, the last wrapping to the first |
| Day09Part2.EdgePointsStep | src/bin/day_09_2.rs:87-103 | one step of the loop appends the points of one more edge |
| Day09Part2.PushColumn | src/bin/day_09_2.rs:93-94 | appends the column run from `first` to `last` inclusive |
| Day09Part2.PushRow | src/bin/day_09_2.rs:98-99 | appends the row run from `first` to `last` inclusive |
| Day09Part2.ClosedCoords | src/bin/day_09_2.rs:86-89 | with the first tile pushed again at the end, entries i and i+1 are tile i and its successor, which are joinable |
| Day09Part2.FindRedTileConnections | src/bin/day_09_2.rs:82-105 | the result is the red tiles followed by the points on every edge of the closed loop |
| Day09Part2.PairRectangle | src/bin/day_09_2.rs:112-113 | the rectangle of a pair of tiles has its sides ordered |
| Day09Part2.ValidAreas | src/bin/day_09_2.rs:112-122 | an area is kept exactly when some pair's rectangle is valid and has that area |
| Day09Part2.ValidPairListed | src/bin/day_09_2.rs:112-122 | the area of every valid pair is among those compared |
| Day09Part2.LargestValidArea | src/bin/day_09_2.rs:112-123 | when some pair is valid the maximum exists, is the area of a valid pair and bounds every valid pair's area |
| Day09Part2.CalculateResult | src/bin/day_09_2.rs:107-124 | the answer is the area of a pair of red tiles whose rectangle has no listed point strictly inside, and no such pair has a larger area |
| Day10Part1.NewMachine | src/bin/day_10_1.rs:18-28 | the target has `MAX_N_LIGHTS` entries: the given states padded with lights off; the wiring is kept |
| Day10Part1.FromSpec | src/bin/day_10_1.rs:30-47 | a light is on in the target exactly when its character inside the brackets is `#`; there is one button per part between the first and the last, and each button's wiring lists the numbers in its parentheses |
| Day10Part1.ToggleLights | src/bin/day_10_1.rs:68 | pressing a button flips a light exactly when the button is wired to it an odd number of times |
| Day10Part1.TestButtonConfig | src/bin/day_10_1.rs:65-72 | true exactly when pressing the buttons in order from all lights off gives the target |
| Day10Part1.TogglesConcat | src/bin/day_10_1.rs:67-69 | the toggles of a light from two press sequences in a row add up |
| Day10Part1.TogglesSingle | src/bin/day_10_1.rs:68 | one press toggles a light as often as the button is wired to it |
| Day10Part1.TogglesRemove | src/bin/day_10_1.rs:67-69 | dropping one press removes exactly that button's toggles |
| Day10Part1.PermutationBelow | src/bin/day_10_1.rs:67-69 | a reordering of valid button numbers is valid |
| Day10Part1.RemoveLast | src/bin/day_10_1.rs:67-69 | a reordering's last press occurs in the original, and what remains of both are reorderings of each other |
| Day10Part1.TogglesPermutation | src/bin/day_10_1.rs:67-69 | the order of presses does not change how often a light is toggled |
| Day10Part1.SolvesPermutation | src/bin/day_10_1.rs:65-72 | a reordering of a press sequence solves the machine exactly when the original does |
| Day10Part1.DoublePressCancels | src/bin/day_10_1.rs:87 | two equal presses in a row cancel, which is why double presses are skipped |
| Day10Part1.GenerateButtonConfigs | src/bin/day_10_1.rs:78-97 | every configuration has exactly `n_presses` presses |
| Day10Part1.ExtendLengths | src/bin/day_10_1.rs:85-95 | extending by a button adds one press to every configuration |
| Day10Part1.ExtendAllLengths | src/bin/day_10_1.rs:85-95 | extending by every button adds one press to every configuration |
| Day10Part1.ExtendMembers | src/bin/day_10_1.rs:86-94 | extending by button n gives exactly the previous configurations not ending in n, with n appended |
| Day10Part1.ExtendAllMembers | src/bin/day_10_1.rs:85-95 | extending by every button gives exactly the previous configurations with a different button appended |
| Day10Part1.GenerateMembers | src/bin/day_10_1.rs:78-97 | the generated configurations are exactly the sequences of `n_presses` valid buttons with no double press |
| Day10Part1.DistinctConcat | src/bin/day_10_1.rs:85-95 | joining two repeat-free lists with nothing in common gives a repeat-free list |
| Day10Part1.ExtendDistinct | src/bin/day_10_1.rs:86-94 | extending a repeat-free list by one button gives no repeats |
| Day10Part1.ExtendAllDistinct | src/bin/day_10_1.rs:85-95 | extending a repeat-free list by every button gives no repeats |
| Day10Part1.GenerateDistinct | src/bin/day_10_1.rs:78-97 | no configuration is generated twice |
| Day10Part1.ExtendCount | src/bin/day_10_1.rs:86-94 | extending by button n keeps all the previous configurations except those ending in n |
| Day10Part1.EndingBelowStep | src/bin/day_10_1.rs:85 | counting configurations that end below k+1 adds those ending in k |
| Day10Part1.EndingBelowAll | src/bin/day_10_1.rs:85 | when every configuration ends below k, all are counted |
| Day10Part1.ExtendAllCount | src/bin/day_10_1.rs:85-95 | extending by the first k buttons gives k times as many configurations, less those that would double a press |
| Day10Part1.EndingBelowAll0 | src/bin/day_10_1.rs:85 | no configuration ends below button 0 |
| Day10Part1.GenerateCount | src/bin/day_10_1.rs:78-97 | there are b times (b-1) to the power n-1 configurations of n presses over b buttons |
| Day10Part1.LeastFrom | src/bin/day_10_1.rs:51-61 | the smallest press count from `from` on, below `MAX_PRESSES`, that solves the machine |
| Day10Part1.MinimumPresses | src/bin/day_10_1.rs:49-63 | the fewest presses, between 1 and `MAX_PRESSES`-1, of any configuration without a double press that solves the machine |
| Day10Part1.FindMinimumButtonPresses | src/bin/day_10_1.rs:49-63 | returns that fewest number of presses |
| Day10Part1.RemoveDoublePresses | src/bin/day_10_1.rs:87 | every press sequence has one no longer, without double presses, that solves the machine exactly when it does |
| Day10Part1.NoShorterSolution | src/bin/day_10_1.rs:49-63 | no press sequence of any kind that is shorter than the answer solves the machine, unless the target has every light off |
| Day10Part1.TotalPresses | src/bin/day_10_1.rs:107 | each machine needs between 1 and `MAX_PRESSES`-1 presses |
| Day10Part1.CalculateResult | src/bin/day_10_1.rs:99-109 | the sum over the machines of their fewest presses |
| Day11Part1.ParseDevices | src/bin/day_11_1.rs:27-38 | the map built line by line, with the reactor under `out` inserted last |
| Day11Part1.DevicesFromKeys | src/bin/day_11_1.rs:29-34 | after the first n lines, a label is a key exactly when one of those lines starts with it |
| Day11Part1.DevicesFromValue | src/bin/day_11_1.rs:29-34 | a label maps to the connections of the last of those lines that starts with it, as a device that is not the reactor |
| Day11Part1.DevicesMembers | src/bin/day_11_1.rs:27-38 | the devices are `out` and the labels at the start of lines; `out` is the reactor and every other label maps to the connections of its last line |
| Day11Part1.PathsPositive | src/bin/day_11_1.rs:49-58 | from every device reached there is at least one path, so the zero-path panic never fires |
| Day11Part1.PathsViaMonotone | src/bin/day_11_1.rs:49-57 | taking more connections into the sum never lowers it |
| Day11Part1.FindPathsInner | src/bin/day_11_1.rs:40-61 | returns the number of paths from the start to the reactor; the cache keeps its entries, stays correct and gains the start's count |
| Day11Part1.PrefixedMembers | src/bin/day_11_1.rs:49-57 | a route through connection k is k followed by a route from that connection |
| Day11Part1.RoutesViaMembers | src/bin/day_11_1.rs:49-57 | the routes counted through the first k connections are exactly the routes to the reactor whose first step is below k |
| Day11Part1.RoutesMembers | src/bin/day_11_1.rs:49-57 | the routes enumerated from a device are exactly its routes to the reactor |
| Day11Part1.PrefixedCount | src/bin/day_11_1.rs:49-57 | prefixing the same step does not merge routes |
| Day11Part1.DisjointCount | src/bin/day_11_1.rs:57 | routes through different first connections are counted separately |
| Day11Part1.RoutesViaStep | src/bin/day_11_1.rs:49-57 | adding connection k to the sum adds exactly the routes whose first step is k |
| Day11Part1.RoutesViaCount | src/bin/day_11_1.rs:49-57 | the partial sum over the first k connections is the number of routes through them |
| Day11Part1.RoutesCount | src/bin/day_11_1.rs:40-61 | the count computed is the number of distinct routes from the device to the reactor |
| Day11Part1.CalculateResult | src/bin/day_11_1.rs:63-69 | the number of paths from `you` to the reactor, at least one |
| Day11Part2.ParseConnections | src/bin/day_11_2.rs:20-31 | the map built line by line, with `out` mapped to no connections inserted last |
| Day11Part2.ConnectionsFromDevices | src/bin/day_11_2.rs:20-31 | after n lines the connection map has the same labels and connections as part one's device map |
| Day11Part2.ConnectionsMatchDevices | src/bin/day_11_2.rs:20-31 | the connection map agrees with part one's devices, and `out` has no connections |
| Day11Part2.CountPathsInner | src/bin/day_11_2.rs:41-61 | returns the number of paths from the start to the end that enter no forbidden device; the cache keeps its entries, stays correct and gains the start's count |
| Day11Part2.CountPaths | src/bin/day_11_2.rs:33-39 | with an empty cache, the number of paths from the start to the end avoiding the forbidden devices |
| Day11Part2.RoutesStopAtEnd | src/bin/day_11_2.rs:51-52 | a route stops on reaching the end, so the end's own connections never matter |
| Day11Part2.RoutesViaMembers | src/bin/day_11_2.rs:50-58 | the routes counted through the first k connections are exactly the routes to the end avoiding the forbidden devices whose first step is below k |
| Day11Part2.RoutesMembers | src/bin/day_11_2.rs:50-58 | the routes enumerated from a device are exactly its routes to the end that avoid the forbidden devices |
| Day11Part2.RoutesAtFirst | src/bin/day_11_2.rs:50-58 | every route through connection k starts with step k |
| Day11Part2.RoutesViaFirst | src/bin/day_11_2.rs:50-58 | every route through the first k connections starts with a step below k |
| Day11Part2.RoutesAtCount | src/bin/day_11_2.rs:51-57 | connection k contributes 1 when it is the end, 0 when forbidden, and otherwise the routes onward |
| Day11Part2.RoutesViaCount | src/bin/day_11_2.rs:50-58 | the partial sum over the first k connections is the number of routes through them |
| Day11Part2.RoutesCount | src/bin/day_11_2.rs:41-61 | the count computed is the number of distinct routes from the start to the end avoiding the forbidden devices |
| Day11Part2.CalculateResult | src/bin/day_11_2.rs:63-80 | the paths svr→fft→dac→out plus the paths svr→dac→fft→out, each leg counted avoiding the other named devices and multiplied |
| Day12Part1.Space | src/bin/day_12_1.rs:15-25 | the space under a tree is a 50-by-50 grid |
| Day12Part1.MarkRow | src/bin/day_12_1.rs:31-40 | marks row i from column `from` on as filled and changes nothing else |
| Day12Part1.NewTree | src/bin/day_12_1.rs:28-42 | a fresh tree of the given shape with no presents: a cell is filled exactly when it lies outside the tree's rows or columns |
| Day12Part1.Offset | src/bin/day_12_1.rs:63-73 | each of the eight orientations moves a present's cell to a cell of the 3-by-3 square, and `Unoffset` undoes it |
| Day12Part1.Unoffset | src/bin/day_12_1.rs:63-73 | the inverse orientation stays inside the 3-by-3 square |
| Day12Part1.OffsetOnto | src/bin/day_12_1.rs:63-73 | every cell of the square is the image of some cell, so each orientation is a bijection of the square |
| Day12Part1.CoversTargets | src/bin/day_12_1.rs:61-73 | a placed present covers exactly the targets of its filled cells |
| Day12Part1.Placed | src/bin/day_12_1.rs:58-92 | placing a present leaves a grid of the same size |
| Day12Part1.PlaceCell | src/bin/day_12_1.rs:74-81 | succeeds exactly when the cell is inside the grid and free, and then fills it and nothing else |
| Day12Part1.CoversStep | src/bin/day_12_1.rs:61-85 | visiting one more cell of the present in row-major order adds exactly its target to what is covered |
| Day12Part1.PlacedAll | src/bin/day_12_1.rs:61-85 | once every cell is visited the grid is the grid with the present placed |
| Day12Part1.FitsBeforeStep | src/bin/day_12_1.rs:61-85 | the cells visited so far stay placeable when the next one is empty or lands on a free cell |
| Day12Part1.TargetNotCoveredBefore | src/bin/day_12_1.rs:63-73 | a cell's target is not covered by the cells visited before it |
| Day12Part1.PlacePresentCell | src/bin/day_12_1.rs:61-84 | one step of the `all`: on success the grid holds the cells visited so far; on failure the present does not fit |
| Day12Part1.PlacePresentRow | src/bin/day_12_1.rs:61-85 | one row of the present: on success its cells are placed and still fit; on failure the present does not fit |
| Day12Part1.PlaceAll | src/bin/day_12_1.rs:61-85 | succeeds exactly when every filled cell lands inside the grid on a free cell, and then the grid holds the placed present |
| Day12Part1.WithPresent | src/bin/day_12_1.rs:58-92 | `Ok` exactly when the present fits; the new tree differs from the old only in its grid, which has the present placed |
| Day12Part1.FreeAmong | src/bin/day_12_1.rs:97-103 | keeps exactly the free coordinates, in their order |
| Day12Part1.FreeCoords | src/bin/day_12_1.rs:96-104 | exactly the free cells of the square shrunk by the padding, in row-major order |
| Day12Part1.IsValidInner | src/bin/day_12_1.rs:125-143 | true exactly when the presents from the index on can be placed one after another, each anchored at a free cell of the padded square in one of eight orientations |
| Day12Part1.AnchorPacks | src/bin/day_12_1.rs:133 | one working anchor among the free cells is enough |
| Day12Part1.NoAnchorCannotPack | src/bin/day_12_1.rs:133 | when no free cell works as an anchor the presents cannot be placed |
| Day12Part1.AnchorSearchDone | src/bin/day_12_1.rs:133 | the anchor search answers true exactly when the presents can be packed |
| Day12Part1.TryAnchor | src/bin/day_12_1.rs:134-141 | true exactly when some rotation and flip at this anchor leads to a packing |
| Day12Part1.TryOrientation | src/bin/day_12_1.rs:135-140 | true exactly when this orientation fits and the remaining presents can then be placed |
| Day12Part1.Expand | src/bin/day_12_1.rs:108-111 | every queued present is one of the types |
| Day12Part1.ExpandQueue | src/bin/day_12_1.rs:108-111 | builds the queue of presents from the counts |
| Day12Part1.SumPrefix | src/bin/day_12_1.rs:109-111 | the presents of the first k types are no more than all of them |
| Day12Part1.ExpandSlots | src/bin/day_12_1.rs:109-111 | the queue holds `n` copies of each type i, in type order |
| Day12Part1.PresentArea | src/bin/day_12_1.rs:115 | a present fills at most its 3 x 3 cells; PresentAreaCard below counts them |
| Day12Part1.RequiredArea | src/bin/day_12_1.rs:115 | the presents of a queue fill at most 9 cells each |
| Day12Part1.FreeSpaces | src/bin/day_12_1.rs:114 | at most the 50 x 50 cells of the tree are free; FreeSpacesCard below counts them |
| Day12Part1.FreeSpacesCard | src/bin/day_12_1.rs:114 | the free-space count is the number of free cells |
| Day12Part1.PresentAreaCard | src/bin/day_12_1.rs:115 | a present's area is the number of its filled cells |
| Day12Part1.TargetInjective | src/bin/day_12_1.rs:63-73 | two cells of a present never land on the same cell |
| Day12Part1.TargetsAdd | src/bin/day_12_1.rs:63-73 | adding a cell adds exactly its new target |
| Day12Part1.TargetsCard | src/bin/day_12_1.rs:63-73 | a placed present covers as many cells as it has filled |
| Day12Part1.CoversIsTargets | src/bin/day_12_1.rs:61-73 | what a placement covers is the image of the present's filled cells |
| Day12Part1.FitsCoversFree | src/bin/day_12_1.rs:74-81 | a fitting placement covers only free cells |
| Day12Part1.PlacedFreeSet | src/bin/day_12_1.rs:58-92 | placing a present removes exactly the covered cells from the free ones |
| Day12Part1.PlacedFreeCell | src/bin/day_12_1.rs:58-92 | a cell is free after placing exactly when it was free and is not covered |
| Day12Part1.PlacementArea | src/bin/day_12_1.rs:58-92 | placing a fitting present uses up exactly its area in free cells |
| Day12Part1.FirstPlacement | src/bin/day_12_1.rs:133-141 | when the presents can be packed, some anchor and orientation fits the first and leaves the rest packable |
| Day12Part1.OrientationAt | src/bin/day_12_1.rs:134-135 | a working anchor has a working rotation below four and a flip |
| Day12Part1.PackNeedsArea | src/bin/day_12_1.rs:114-120 | packable presents never need more than the free area |
| Day12Part1.TooLargeCannotPack | src/bin/day_12_1.rs:114-120 | the area pruning in `is_valid` never rejects a packable tree |
| Day12Part1.IsValid | src/bin/day_12_1.rs:107-122 | false when the presents need more area than is free, and otherwise exactly whether the queue can be packed |
| Day12Part1.FitsAfterPlaced | src/bin/day_12_1.rs:58-92 | a present that fits after another was placed fits the original grid and overlaps none of the other's cells |
| Day12Part1.DisjointCons | src/bin/day_12_1.rs:125-143 | a placement that overlaps none of the later ones keeps the whole list non-overlapping |
| Day12Part1.AllFitCons | src/bin/day_12_1.rs:125-143 | a placement fitting the grid followed by placements fitting it gives a list that all fit |
| Day12Part1.PackingOf | src/bin/day_12_1.rs:125-143 | whenever the search succeeds there is a list of placements, one per present, each inside the free cells and none overlapping |
| Day12Part1.CountWhereAll | src/bin/day_12_1.rs:114 | counting the coordinates where a test always holds counts them all |
| Day12Part1.SpaceFreeSet | src/bin/day_12_1.rs:28-42 | the free cells of a new tree are those inside both its shape and the 50-by-50 grid |
| Day12Part1.SpaceFreeSpaces | src/bin/day_12_1.rs:28-42 | a new tree has `min(size_i, 50)` times `min(size_j, 50)` free cells |
| Day12Part1.ShapeLines | src/bin/day_12_1.rs:153-154 | each present block has three shape lines after its header |
| Day12Part1.Shape | src/bin/day_12_1.rs:154-157 | a 3-by-3 present |
| Day12Part1.PresentTypes | src/bin/day_12_1.rs:151-163 | six 3-by-3 presents |
| Day12Part1.TreeDemand | src/bin/day_12_1.rs:168 | one count per present type |
| Day12Part1.ParseShapeLine | src/bin/day_12_1.rs:155-157 | fills exactly the cells of row i under a `#` of the line, changing nothing else |
| Day12Part1.ParseShape | src/bin/day_12_1.rs:154-158 | the present has a filled cell exactly where its line has `#` |
| Day12Part1.ParsePresents | src/bin/day_12_1.rs:151-163 | the six presents read from the six header-shape-separator blocks |
| Day12Part1.ParseTree | src/bin/day_12_1.rs:165-171 | a fresh tree of the line's dimensions, with the line's six present counts |
| Day12Part1.ParseTrees | src/bin/day_12_1.rs:165-172 | one tree per tree line, each the tree that line describes |
| Day12Part1.ParseInput | src/bin/day_12_1.rs:146-175 | the six presents, and one tree per line after the present blocks, in order, each the tree of its line |
| Day12Part1.CountFitting | src/bin/day_12_1.rs:180 | the count of trees whose presents fit is at most the number of trees |
| Day12Part1.TreeVerdict | src/bin/day_12_1.rs:178-180 | a parsed tree's packing verdict depends only on its line and the present types |
| Day12Part1.LineIsValid | src/bin/day_12_1.rs:180 | true exactly when the line's tree fits its presents |
| Day12Part1.CountFittingStep | src/bin/day_12_1.rs:180 | counting one more line adds one exactly when that tree fits |
| Day12Part1.FittingTreePacks | src/bin/day_12_1.rs:107-143 | every tree the count includes has a non-overlapping placement of all its presents inside its free space |
| Day12Part1.ExpandAllPresents | src/bin/day_12_1.rs:108-111 | the queue holds only 3-by-3 presents |
| Day12Part1.CountValid | src/bin/day_12_1.rs:180 | the number of trees whose presents fit |
| Day12Part1.CalculateResult | src/bin/day_12_1.rs:177-182 | the number of tree lines after the present blocks whose presents fit, at most the number of trees |

## Left out

- I/O: `main`, opening and reading the input file, `Instant` timing and every `println!` are left out. The printing helpers `Tree::print`, `print_diagram` and `print_beam_paths` are left out too. Each solver's `calculate_result` takes the input as a sequence of lines. Its `Ok` result is the method's return value.
- The hard-coded sizes are parameters of the model:
  - the grid sizes of days 4 and 7;
  - `N_PROBLEMS`, `N_NUMBER_LINES` and `N_NUMBER_CHARS` of day 6;
  - `N_JUNCTION_BOXES` and `N_CONNECTIONS` of day 8.
  The 50-by-50 tree of day 12 keeps its constant.
- Integer width: sums, products and areas are unbounded. Overflow of `u64`/`usize` arithmetic in totals, products and areas is not modelled; the source does not check it either. Parsers do enforce the `u32`/`u64`/`i64` ranges of the Rust types.
- `src/bin/day_10_2.rs` is not part of this model. Its answer comes from the z3 SMT solver, a foreign library.
- `src/bin/_template.rs` has no logic and is not modelled.
- Day 8 distances and sorting:
  - `JunctionBox::dist` and the `f32` `partial_cmp` sort are not modelled, since they are floating point.
  - The distance-sorted pair list is an input, required to be an ordering of all index pairs.
  - Day08Part1.SortAscending stands for `sort_unstable` on the circuit sizes, proved sorted and a permutation. The order it gives equal sizes does not matter.
- `Grid::iter_rows`, `raw` and `raw_mut`, and strum's `EnumIter`, are not modelled: the eight directions are listed explicitly.
- `Grid::iter_values_with_coords` is used by day 12 but is not defined in `src/lib.rs`. It is modelled as row-major iteration over `((i, j), value)`.
- Bytes are characters and only ASCII input is modelled (days 3, 6, 10 and 12 index strings by byte; on day 3 a one-character line of a multi-byte character would be sliced inside it). The whitespace sets are still kept apart: `trim` strips Unicode White_Space (`char::is_whitespace`), while `split_ascii_whitespace` splits only at ASCII whitespace, which leaves out U+000B.
- Day08Part2.CalculateResult: the first phase of the search (doubling, or trimming by a tenth) need not terminate. With fewer than ten connections and a single circuit it makes no progress. It therefore runs on `fuel`, and the result is `None` when the fuel runs out or when the search would index past the pair list (where the source panics). The contract says what a `Some` answer is; it does not say when the answer is `Some`.
- Day09Part2.CalculateResult: validity is the source's test, "no listed point strictly inside the rectangle". The model does not prove that this test means the rectangle lies inside the loop of red and green tiles; the source's comment calls it the idea of the test.
- Day10Part1.FindMinimumButtonPresses: requires a solution with fewer than `MAX_PRESSES` presses, because the source panics otherwise. Day10Part1.NoShorterSolution relates the search to unrestricted press sequences. It holds except when the target has every light off: the search starts at one press, so it never returns 0.
- Day11Part1.CalculateResult and Day11Part2.CalculateResult: the device graph must be acyclic from the start device, because the source recurses without a visited set. A ghost `rank` witnesses this. The `HashMap`s are Dafny maps.
- Day11Part2.CalculateResult: the sum of the two products of leg counts is proved equal to the source's formula. The model does not prove that it equals the number of `svr`→`out` paths through both `dac` and `fft`.
- Day12Part1.IsValidInner: faithful to the source, which tries only free cells inside the padded square as anchors. The search is therefore sound (Day12Part1.PackingOf) but not complete: it misses a packing when one of its placements can only be anchored at an occupied cell, or in the last two rows or columns. The model does not claim completeness.
- Day12Part1.CalculateResult: the source's `Result` is always `Ok`, so the result is a plain number.
- Day03Part2.Largest12DigitNumber: requires at least 11 characters, and digits only from 12 on, because the source works without panicking on a bank of 11 characters: every window is then empty and no character is read.
- Day07Part2.CountMultiversesInner: two side-by-side splitters that a walk meets make `count_multiverses_inner` call itself without end, and a reached splitter in the first or last column underflows or indexes past the row. The model requires instead that the walk from the source ends (Day07Part2.WalkEnds); splitters no walk meets are unconstrained.

## Findings

| source | as written | input that shows it | evidently intended | confidence | as-written member | corrected member |
|---|---|---|---|---|---|---|
| src/bin/day_05_1.rs:15-23 | `try_combine` merges two ranges when the first ends at or before the second starts (`first.1 <= second.0`), the reverse of part 2's overlap test | ranges `1-2` and `5-6` merge into `1-6`, which contains 3, an ID in neither | merge exactly when the ranges overlap (`first.1 >= second.0`), giving their union | not executed; the function is unused in part 1 | Day05Part1.TryCombine, Day05Part1.TryCombineJoinsGap | Day05Part2.TryCombine, Day05Part2.TryCombineIsUnion |
| src/bin/day_07_1.rs:74-82 | `count_splits` counts every splitter whose cell directly above is marked as on a beam path. That includes a splitter directly below another splitter that a beam reached, since the upper splitter's cell is marked | a source above a splitter in row 1 with a second splitter below it in row 2: the lower one is counted, though no beam reaches it | count the splitters a beam actually reaches | not executed | Day07Part1.CountSplits, Day07Part1.StackedSplitterOvercounts | Day07Part1.CountReachedSplitters, Day07Part1.CountReachedIsCard |
