# Advent of Code 2025 solutions, modelled in Dafny

This project models the puzzle solvers of a Rust Advent of Code 2025 repository, together with the command-line parser of its runner, and proves what the solvers compute. There is one module per source file:

- `Common` (common.dfy): the shared helpers. These are `Option`/`Result`, decimal digits, Rust's `str::parse::<u64>()`, ASCII whitespace trimming, splitting on a separator, and the widest line of a grid.
- `Day01` (day01.dfy): the safe dial with positions 0..99, starting at 50. Part 1 counts rotations that end on 0. Part 2 counts every click that lands on 0, and its per-rotation closed formula is proved equal to counting clicks one by one.
- `Day02` (day02.dfy): invalid product IDs, meaning numbers whose decimal form is one block repeated. Part 1 wants two copies, part 2 wants two or more. The string, modulo and divisor validators are all proved equal to one string-level definition, and the range sums are proved against it.
- `Day03` (day03.dfy): battery banks. The suffix-maximum two-digit search and the greedy k-digit search are each proved to return the largest joltage any choice of batteries gives.
- `Day04` (day04.dfy): rolls of paper on a grid. Accessibility counts neighbours. The naive solver, the flat grid solver, the dirty-set solver and the work-queue solver (classes over arrays) are all proved to remove exactly the rolls outside the largest stable part of the grid.
- `Day05` (day05.dfy): fresh-ingredient ranges. Input parsing, membership counts, and sorting plus merging of the ranges, proved to cover the same IDs without overlap.
- `Day06` (day06.dfy): the column-wise math worksheet, with its problem boundaries and its row-wise and column-wise readings.
- `Day07` (day07.dfy): tachyon beams. Splits are counted on merged beams, and timelines are counted with a column-to-count map.
- `Day08` (day08.dfy): junction boxes. A union-find class with path compression and union by size, the closest-pairs circuits, and Prim's minimum spanning tree over arrays.
- `Day11` (day11.dfy): path counting in a device graph. The backtracking search and the memoised search are a class whose marked set and memo table are fields.
- `Cli` (cli.dfy): the runner's argument loop (`--day`, `--all-impls`, `--help`).

The modelling conventions are:

- Integers are unbounded.
- Text is a sequence of characters, and inputs are given already split into lines.
- A place where the Rust code panics on bad input is either a `requires` clause or an error result, as the table says.

## Model

| member | source | states |
|---|---|---|
| Common.Split | src/days/day02/solution.rs:61 | the parts contain no separator and, joined back with it, give the text |
| Common.SplitJoin | src/days/day02/solution.rs:61 | splitting parts joined by the separator gives back the same parts |
| Common.TrimStartSpec | src/days/day02/solution.rs:60 | trimming the start drops exactly the leading whitespace |
| Common.TrimEndSpec | src/days/day02/solution.rs:60 | trimming the end drops exactly the trailing whitespace |
| Common.ToDecimalValue | src/days/day02/solution.rs:77 | the decimal text of a number reads back as that number |
| Common.ToDecimalNoLeadingZero | src/days/day02/solution.rs:77 | the decimal text starts with '0' only for zero |
| Common.ParseU64RoundTrip | src/days/day06/solution.rs:135 | every 64-bit value written in decimal parses back to itself |
| Common.MaxWidth | src/days/day06/solution.rs:19 | the width is at least every line's length and equals some line's, or 0 without lines |
| Day01.Rotate | src/days/day01/solution.rs:46-50 | the new dial position lies in 0..99 and differs from position plus (R) or minus (L) the distance by a multiple of 100, as `rem_euclid` does |
| Day01.FinalPosition | src/days/day01/solution.rs:32-56 | starting at 50 and applying every rotation, the dial always ends in 0..99 |
| Day01.Landings | src/days/day01/solution.rs:45-55 | every position a rotation lands on is a dial position |
| Day01.Clicks | src/days/day01/solution.rs:61-70 | a rotation of `distance` clicks passes exactly `distance` single-click positions |
| Day01.CountZeros | src/days/day01/solution.rs:28-59 | fails (the panic) exactly when some line has a direction other than L or R, naming the first such line; otherwise returns the number of rotations that leave the dial on 0 |
| Day01.CountZerosDuringRotations | src/days/day01/solution.rs:71-117 | fails exactly as part 1 does; otherwise returns the per-rotation crossing formula summed, which for non-negative distances is the number of single clicks that end on 0 |
| Day01.BlankStep | src/days/day01/solution.rs:35-39 | an empty line changes neither the position nor either count |
| Day01.RotationStep | src/days/day01/solution.rs:87-113 | one rotation moves the dial by `Rotate`, counts one landing exactly when it ends on 0, and adds its crossing count |
| Day01.CrossingsStep | src/days/day01/solution.rs:88-104 | extending a rotation by one click raises the crossing formula by one exactly when that click ends on 0 |
| Day01.ClicksSnoc | src/days/day01/solution.rs:61-70 | a rotation one click longer passes the same positions followed by one more |
| Day01.CrossingsCountClicks | src/days/day01/solution.rs:64-104 | the closed formula of the doc comment (both the L cases and the R case) equals the number of single clicks of the rotation that end on 0 |
| Day01.CrossingTotalCountsClicks | src/days/day01/solution.rs:61-117 | part 2's total equals the number of clicks, over all rotations, that end on 0 |
| Day01.CrossingTotalAtLeastLandings | src/days/day01/solution.rs:7-8 | with positive distances, part 2's count is at least part 1's: every landing on 0 is also a pass through 0 |
| Day01.ExamplePositions | src/days/day01/solution.rs:141-169 | on the worked example the dial visits 82, 52, 0, 95, 55, 0, 99, 0, 14, 32 |
| Day01.ExampleCrossings | src/days/day01/solution.rs:171-175 | on the worked example part 2 counts 6 |
| Day01.LandingsOfRotations | src/days/day01/solution.rs:45-55 | when every line is a rotation, the landings are exactly the positions after each prefix of the input, in order |
| Day01.ExampleLandings | src/days/day01/solution.rs:135-139 | on the worked example the landings are 82, 52, 0, 95, 55, 0, 99, 0, 14, 32, three of them 0: part 1 answers 3 |
| Day02.Repeat | src/days/day02/solution.rs:106 | `r` copies of a block have `r` times its length |
| Day02.RepeatValue | src/days/day02/solution.rs:158-164 | the value of a block written `r` times is the block's value times 1 0..0 1 0..0 1, the number the pattern loop builds |
| Day02.FixedWidth | src/days/day02/solution.rs:133-141 | a number below 10^width written with exactly `width` digits keeps its value |
| Day02.DigitSplit | src/days/day02/solution.rs:131-141 | dividing by 10^(n-k) keeps the leading k digits and the remainder modulo 10^k keeps the trailing ones |
| Day02.BlockByValue | src/days/day02/solution.rs:150-167 | a decimal string is its first `p` digits repeated exactly when its value equals that block's value times the divisor sum |
| Day02.ModuloBlock | src/days/day02/solution.rs:201-217 | a decimal string is its first `p` digits repeated exactly when its value is divisible by the divisor sum for `p` digits and `len / p` copies |
| Day02.MultipleIsBlock | src/days/day02/solution.rs:241-244 | a string of `r` blocks of `p` digits whose value the divisor sum divides is its first block repeated, the direction of the divisor test that needs the digit count |
| Day02.RepeatedTwiceHalves | src/days/day02/solution.rs:76-91 | a string is some block written twice exactly when it has even length and equal halves |
| Day02.RepeatedTwiceBlock | src/days/day02/solution.rs:219-231 | for an even length, "block written twice" is "its first half repeated" |
| Day02.RepeatedAtLeastTwiceBlock | src/days/day02/solution.rs:94-113 | a string is a block written two or more times exactly when some block length from 1 to half its length repeats to it |
| Day02.RepeatedTwiceIsRepeated | src/days/day02/solution.rs:75-113 | a part 1 id is always a part 2 id |
| Day02.CountDigits | src/days/day02/solution.rs:119-129 | returns the length of the decimal form, at least 1 (zero has one digit) |
| Day02.GetFirstKDigits | src/days/day02/solution.rs:133-135 | given the true digit count, the result is the value of the leading `k` digits |
| Day02.GetLastKDigits | src/days/day02/solution.rs:139-141 | the result is the value of the trailing `k` digits |
| Day02.MatchesRepeatedPattern | src/days/day02/solution.rs:150-167 | given the true digit count, answers whether the decimal form is its first `p` digits repeated |
| Day02.ComputeDivisor | src/days/day02/solution.rs:206-217 | returns the sum of 10^(i p) for i below the repeat count |
| Day02.IsInvalidIdString | src/days/day02/solution.rs:76-91 | true exactly when the decimal form is some block written twice |
| Day02.IsInvalidIdV2String | src/days/day02/solution.rs:94-113 | true exactly when the decimal form is some block written two or more times |
| Day02.IsInvalidId | src/days/day02/solution.rs:170-183 | true exactly when the decimal form is some block written twice |
| Day02.IsInvalidIdV2 | src/days/day02/solution.rs:186-197 | true exactly when the decimal form is some block written two or more times |
| Day02.IsInvalidIdModulo | src/days/day02/solution.rs:220-231 | for ids below 10^19, true exactly when the decimal form is some block written twice |
| Day02.IsInvalidIdV2Modulo | src/days/day02/solution.rs:234-251 | for ids below 10^19, true exactly when the decimal form is some block written two or more times |
| Day02.DivisibleByBlockDivisor | src/days/day02/solution.rs:240-247 | one pass of the divisor loop answers whether the decimal form is its first `p` digits repeated |
| Day02.DivisorTest | src/days/day02/solution.rs:241-244 | the divisor is positive, and divisibility by it is the block test on the id's decimal form |
| Day02.ParseRange | src/days/day02/solution.rs:62-71 | a piece is kept only as two u64 values |
| Day02.KeepRanges | src/days/day02/solution.rs:62-72 | keeps at most one range per piece, every bound a u64 |
| Day02.ParseRanges | src/days/day02/solution.rs:58-73 | every parsed bound is a u64 |
| Day02.ShownPieces | src/days/day02/solution.rs:61 | one `a-b` piece per range, in order |
| Day02.ParseShowRange | src/days/day02/solution.rs:62-71 | every u64 range written as `a-b` parses back to itself |
| Day02.KeepShownRanges | src/days/day02/solution.rs:62-72 | keeping the parsable pieces of written-out ranges returns the ranges |
| Day02.KeepAll | src/days/day02/solution.rs:62-72 | when every piece parses, all are kept, in order |
| Day02.ParseShowRanges | src/days/day02/solution.rs:58-73 | any list of u64 ranges written comma-separated parses back to the same list in the same order |
| Day02.Validate | src/days/day02/solution.rs:255-272 | every one of the six validators (math, string, modulo; parts 1 and 2) decides the same definition of an invalid id |
| Day02.Solve | src/days/day02/solution.rs:36-52 | both parts answer the decimal sum over all parsed ranges of the invalid ids in each inclusive range, whichever validator family is used |
| Day02.SumRanges | src/days/day02/solution.rs:38-41 | the sum over the ranges of their invalid-id sums |
| Day02.SumInvalid | src/days/day02/solution.rs:40 | the sum of the invalid ids in `start..=end` |
| Day02.TotalStep | src/days/day02/solution.rs:38-41 | one more range adds its own sum |
| Day02.Part1AtMostPart2 | src/days/day02/solution.rs:36-52 | part 1's sum never exceeds part 2's on the same input |
| Day02.RangeAtMost | src/days/day02/solution.rs:40-49 | within one range, part 1's sum never exceeds part 2's |
| Day03.SuffixMax | src/days/day03/solution.rs:32-37 | the largest battery from position i to the end of a digit bank is a digit |
| Day03.SuffixMaxBound | src/days/day03/solution.rs:32-37 | no battery from position i on exceeds the suffix maximum |
| Day03.SuffixMaxAt | src/days/day03/solution.rs:32-37 | the suffix maximum is the battery at some position from i on |
| Day03.SuffixMaxima | src/days/day03/solution.rs:33-37 | the reverse pass fills a fresh array whose entry i is the largest battery from i to the end |
| Day03.MaxJoltage | src/days/day03/solution.rs:27-49 | returns the best row joltage: each battery paired with the largest one after it, maximised |
| Day03.BestPairIsBest | src/days/day03/solution.rs:24-26 | the answer is the largest two-digit joltage of any pair i < j, attained by some pair, and 0 for a one-battery bank |
| Day03.BestRowsBound | src/days/day03/solution.rs:40-46 | no pair starting in the rows scanned so far beats the running maximum |
| Day03.BestRowsAttained | src/days/day03/solution.rs:40-46 | some pair starting in the rows scanned so far reaches the running maximum |
| Day03.RowBound | src/days/day03/solution.rs:42-44 | battery i pairs best with the suffix maximum after it |
| Day03.Pick | src/days/day03/solution.rs:51-53 | the digits of the chosen batteries, in bank order |
| Day03.LeftmostMax | src/days/day03/solution.rs:67-72 | the scan picks a position inside the window |
| Day03.LeftmostMaxIsMax | src/days/day03/solution.rs:66-72 | the picked digit is the window's largest, and every digit before it is strictly smaller (the strict `>` keeps the leftmost) |
| Day03.Greedy | src/days/day03/solution.rs:62-77 | the greedy choice has exactly `rem` positions, all from `start` on |
| Day03.GreedyIsChoice | src/days/day03/solution.rs:62-77 | the greedy positions strictly increase, so they are a choice of batteries in bank order |
| Day03.ScanMax | src/days/day03/solution.rs:67-72 | the inner loop returns the leftmost largest digit of the window |
| Day03.MaxJoltageK | src/days/day03/solution.rs:55-80 | returns the value of the greedy choice of `k` batteries |
| Day03.TakeDigit | src/days/day03/solution.rs:74-76 | one outer step keeps "result so far, shifted, plus the greedy value of the rest" unchanged |
| Day03.GreedyValueStep | src/days/day03/solution.rs:62-77 | the greedy value is the chosen leading digit followed by the greedy value of the rest |
| Day03.ChoiceBound | src/days/day03/solution.rs:51-53 | a choice of r batteries reads below 10^r |
| Day03.ChoiceGap | src/days/day03/solution.rs:63-64 | the t-th chosen position is at least t after the first |
| Day03.GreedyLead | src/days/day03/solution.rs:63-72 | any choice from `start` on has a leading digit no larger than the greedy one, and on a tie starts no earlier |
| Day03.GreedyOptimal | src/days/day03/solution.rs:51-53 | no choice of `rem` batteries from `start` on reads as a larger number than the greedy one |
| Day03.GreedyBeatsLead | src/days/day03/solution.rs:51-53 | a choice with a smaller leading digit loses to the greedy one |
| Day03.GreedyTie | src/days/day03/solution.rs:51-53 | with equal leading digits the tails decide |
| Day03.MaxJoltageKOptimal | src/days/day03/solution.rs:51-80 | the greedy answer is a valid choice of k batteries and no choice of k batteries beats it |
| Day03.Part1 | src/days/day03/solution.rs:9-11 | the decimal sum over the banks of their best pair |
| Day03.Part2 | src/days/day03/solution.rs:13-19 | the decimal sum over the banks of their greedy twelve-battery value |
| Day03.SumMaxJoltageK | src/days/day03/solution.rs:14-17 | the sum over the banks of the greedy value for k batteries |
| Day04.CellRowColumn | src/days/day04/solution.rs:127-129 | the flat index of cell (r, c) gives back r and c through `/` and `%`, as `count_adjacent` recovers them |
| Day04.IndexCell | src/days/day04/solution.rs:127-129 | every flat index inside the grid is the index of cell (i / cols, i % cols) |
| Day04.Adjacent | src/days/day04/solution.rs:71-95 | a cell has at most eight neighbouring rolls |
| Day04.Round | src/days/day04/solution.rs:34-62 | one naive round leaves a grid of the same shape holding a subset of the rolls |
| Day04.Remove | src/days/day04/solution.rs:358 | emptying one cell leaves a grid of the same shape holding a subset of the rolls |
| Day04.RoundShrinks | src/days/day04/solution.rs:51-61 | a round that finds an accessible roll lowers the roll count, so the part 2 loop ends |
| Day04.PeelShape | src/days/day04/solution.rs:34-62 | repeating rounds until none removes anything keeps the grid's shape and only removes rolls |
| Day04.PeelStable | src/days/day04/solution.rs:51-54 | the grid left when the rounds stop has no accessible roll |
| Day04.AdjacentMonotone | src/days/day04/solution.rs:71-95 | a grid with more rolls gives every cell at least as many neighbouring rolls |
| Day04.RoundKeeps | src/days/day04/solution.rs:40-58 | a round never removes a roll of a stable sub-grid |
| Day04.PeelGreatest | src/days/day04/solution.rs:34-62 | the grid the rounds stop at holds every stable sub-grid: it is the largest stable part of the input |
| Day04.RemoveKeeps | src/days/day04/solution.rs:351-371 | removing any one accessible roll never removes a roll of a stable sub-grid |
| Day04.StableIsPeeled | src/days/day04/solution.rs:213-242 | any sequence of removals of accessible rolls that stops at a stable grid leaves as many rolls as the rounds do, so every removal order gives the same part 2 answer |
| Day04.RoundRemovesAccessible | src/days/day04/solution.rs:40-61 | the first round removes exactly the rolls part 1 counts |
| Day04.AccessibleCountFlags | src/days/day04/solution.rs:191-193 | part 1's count is the number of accessible flags |
| Day04.StableIffNoneAccessible | src/days/day04/solution.rs:51-54 | the grid is stable exactly when part 1 would count nothing |
| Day04.PartOneAtMostPartTwo | src/days/day04/solution.rs:329-375 | part 2's count is at least part 1's, and part 2 removes nothing exactly when part 1 counts nothing |
| Day04.AccessibleIndex | src/days/day04/solution.rs:127-153 | accessibility by flat index agrees with accessibility by row and column |
| Day04.RollAfterRemove | src/days/day04/solution.rs:358 | after emptying one cell every other cell keeps its content |
| Day04.AdjacentAfterRemoveCell | src/days/day04/solution.rs:362-365 | emptying a roll lowers by one the neighbour count of exactly the cells touching it |
| Day04.AdjacentAfterRemove | src/days/day04/solution.rs:362-365 | the same, by flat index |
| Day04.AdjacentFrame | src/days/day04/solution.rs:127-153 | two grids that agree around a cell give it the same neighbour count |
| Day04.NearOffsets | src/days/day04/solution.rs:156-182 | two flat indices are neighbours exactly when one is one of the eight offsets of the other that stay in the grid |
| Day04.FlattenIndex | src/days/day04/solution.rs:107-114 | cell (r, c) of the lines sits at flat index r cols + c of the newline-free bytes |
| Day04.FlattenUpdate | src/days/day04/solution.rs:58 | overwriting one character of one line overwrites its flat index |
| Day04.Board | src/days/day04/solution.rs:107-114 | the parsed grid has as many rows as lines and as many columns as the first line |
| Day04.BoardRoll | src/days/day04/solution.rs:18 | a roll of the parsed grid is an '@' of the lines |
| Day04.RollsRemove | src/days/day04/solution.rs:58-61 | emptying a roll lowers the roll count by one |
| Day04.NoAccessibleCellStable | src/days/day04/solution.rs:51-54 | a grid with no accessible cell is stable |
| Day04.AccessibleCountStep | src/days/day04/solution.rs:16-25 | scanning one more cell in row-major order adds one exactly when it is accessible |
| Day04.OffsetSumIsAdjacent | src/days/day04/solution.rs:77-92 | the nine offset terms, centre skipped, sum to the neighbour count |
| Day04.OffsetStep | src/days/day04/solution.rs:79-90 | one offset of the double loop adds one exactly when it is a roll inside the grid other than the centre |
| Day04.CountAdjacentRolls | src/days/day04/solution.rs:71-95 | returns the number of rolls among the eight cells around (row, col) |
| Day04.NaivePart1 | src/days/day04/solution.rs:9-28 | returns the number of accessible rolls |
| Day04.NaiveScan | src/days/day04/solution.rs:40-49 | lists exactly the accessible cells, each once |
| Day04.NaiveRemove | src/days/day04/solution.rs:57-59 | overwrites exactly the listed cells with '.', removing one roll per listed cell |
| Day04.RemoveCellStep | src/days/day04/solution.rs:58 | overwriting one roll keeps the grid rectangular and lowers the roll count by one |
| Day04.NaiveRound | src/days/day04/solution.rs:40-59 | a scan followed by its removals is one round |
| Day04.NaivePart2 | src/days/day04/solution.rs:30-65 | returns the number of rolls the rounds remove |
| Day04.RollOffset | src/days/day04/solution.rs:133-150 | the cell dr rows and dc columns away is a roll exactly when it is inside the grid and its flat index holds '@' |
| Day04.AboveRolls | src/days/day04/solution.rs:133-138 | the three cells above, by flat index, with the guards `row > 0`, `col > 0`, `col < cols - 1` |
| Day04.BesideRolls | src/days/day04/solution.rs:141-142 | the two cells beside, by flat index, with their guards |
| Day04.BelowRolls | src/days/day04/solution.rs:145-150 | the three cells below, by flat index, with the guards `row < rows - 1`, `col > 0`, `col < cols - 1` |
| Day04.CountAround | src/days/day04/solution.rs:127-153 | the unrolled count equals the neighbour count of the cell |
| Day04.NearSymmetric | src/days/day04/solution.rs:156-182 | being neighbours is symmetric |
| Day04.FlatGrid.Value | src/days/day04/solution.rs:100-104 | the grid the flat array holds now |
| Day04.FlatGrid.Parse | src/days/day04/solution.rs:107-114 | the parsed array is the lines without newlines, as a grid of the first line's width |
| Day04.FlatGrid.CountAdjacent | src/days/day04/solution.rs:127-153 | returns the neighbour count of the cell at `idx` |
| Day04.AboveOffsets | src/days/day04/solution.rs:161-167 | the neighbours in the row above, increasing, exactly those inside the grid |
| Day04.BesideOffsets | src/days/day04/solution.rs:170-171 | the neighbours beside, increasing, exactly those inside the grid |
| Day04.BelowOffsets | src/days/day04/solution.rs:174-179 | the neighbours in the row below, increasing, exactly those inside the grid |
| Day04.NeighbourIndices | src/days/day04/solution.rs:156-182 | at most eight neighbours |
| Day04.NeighbourIndicesNear | src/days/day04/solution.rs:156-182 | the neighbour list holds exactly the cells touching `idx`, each once, in increasing order |
| Day04.FlatPart1 | src/days/day04/solution.rs:189-196 | returns the number of accessible rolls |
| Day04.Collect | src/days/day04/solution.rs:214-221 | collects, without repeats, exactly the candidates that are accessible |
| Day04.MarkRolls | src/days/day04/solution.rs:233-237 | adds to the next check set exactly the rolls touching `idx` |
| Day04.Clear | src/days/day04/solution.rs:228-238 | empties exactly the accessible rolls, one roll per entry, and marks every roll that touched one of them |
| Day04.EmptiedIsRound | src/days/day04/solution.rs:229-231 | emptying exactly the accessible rolls is one round |
| Day04.MarkedCovers | src/days/day04/solution.rs:233-241 | after a round, a cell that was not marked is not accessible, so checking only the marked cells misses nothing |
| Day04.DirtyPart2 | src/days/day04/solution.rs:198-245 | returns the number of rolls the rounds remove |
| Day04.PeeledTotal | src/days/day04/solution.rs:240-244 | a loop that has reached a stable grid on the way to the peeled grid has removed exactly the removable rolls |
| Day04.CountedGrid.Value | src/days/day04/solution.rs:249-254 | the grid the flat array holds now |
| Day04.CountedGrid.Parse | src/days/day04/solution.rs:257-291 | the parsed array is the lines without newlines, each roll's count is its number of neighbouring rolls, and every other count is 0 |
| Day04.CountRolls | src/days/day04/solution.rs:264-288 | a fresh array with each roll's neighbour count and 0 elsewhere |
| Day04.NeighbourSlots | src/days/day04/solution.rs:295-322 | exactly eight slots |
| Day04.NeighbourSlotsFilled | src/days/day04/solution.rs:295-322 | the filled slots are the neighbour list, in order, followed only by empty slots |
| Day04.TakeCounts | src/days/day04/solution.rs:362-365 | lowering the counts of the rolls touching a removed roll keeps every count accurate |
| Day04.CountPositive | src/days/day04/solution.rs:364 | a roll touching a roll has a count of at least one, so the decrement never underflows |
| Day04.Take | src/days/day04/solution.rs:357-371 | empties `idx`, lowers by one the count of each roll touching it, and pushes exactly those whose count falls below four |
| Day04.LowerCounts | src/days/day04/solution.rs:362-371 | the loop over the slots lowers the visited rolls' counts and pushes those below four |
| Day04.VisitSlot | src/days/day04/solution.rs:363-369 | one slot of that loop keeps both facts |
| Day04.QueueSkip | src/days/day04/solution.rs:352-355 | a popped cell that is no longer a roll can be dropped |
| Day04.QueueTake | src/days/day04/solution.rs:357-371 | after a removal, the rest of the queue and the pushed cells still hold every accessible roll |
| Day04.TakeProgress | src/days/day04/solution.rs:357-371 | removing an accessible roll keeps the loop on its way to the largest stable part, one more removed |
| Day04.QueueDrained | src/days/day04/solution.rs:351 | once the queue is empty the grid is stable and the total is the removable count |
| Day04.InitialQueue | src/days/day04/solution.rs:347-349 | the first queue holds every roll with fewer than four neighbours |
| Day04.Drain | src/days/day04/solution.rs:351-372 | draining the queue removes exactly the removable rolls |
| Day04.QueuePart2 | src/days/day04/solution.rs:339-375 | returns the number of rolls the rounds remove, the same count as the naive and dirty-set solvers |
| Day05.IdsMembers | src/days/day05/solution.rs:49 | a range covers exactly the IDs from its start to its end, inclusive |
| Day05.UnionMembers | src/days/day05/solution.rs:49 | an ID is covered by the list exactly when one of its ranges covers it |
| Day05.UnionPermutation | src/days/day05/solution.rs:66-67 | reordering the ranges, as the sort does, does not change what they cover |
| Day05.IdsSize | src/days/day05/solution.rs:94 | a well-formed range covers `end - start + 1` IDs |
| Day05.IsFresh | src/days/day05/solution.rs:48-50 | true exactly when some range covers the ID |
| Day05.CoveredTail | src/days/day05/solution.rs:49 | the early-terminating search: past a range that misses, the ID is covered exactly when the rest covers it |
| Day05.FreshCount | src/days/day05/solution.rs:100 | part 1's count is at most the number of listed IDs |
| Day05.FreshCountPositions | src/days/day05/solution.rs:98-102 | part 1 counts exactly the list positions whose ID some range covers, repeated IDs each time |
| Day05.Insert | src/days/day05/solution.rs:66-67 | inserting keeps the list sorted by start and adds exactly that range |
| Day05.SortByStart | src/days/day05/solution.rs:66-67 | the sort returns a permutation of the ranges sorted by start |
| Day05.ExtendIds | src/days/day05/solution.rs:77-79 | a range starting at most one past the last end extends it with no gap: the widened range covers both |
| Day05.ReplaceLast | src/days/day05/solution.rs:79 | widening the last merged range covers what the list and the new range covered |
| Day05.ExtendKeepsOrder | src/days/day05/solution.rs:79 | widening the last range keeps the list sorted, separated and well formed |
| Day05.AppendKeepsOrder | src/days/day05/solution.rs:80-83 | a range starting more than one past the last end extends the list in order and separated |
| Day05.MergeRanges | src/days/day05/solution.rs:60-87 | the merged list is empty exactly when the input is, is no longer than the input, is sorted with consecutive ranges neither overlapping nor touching, and covers exactly the IDs the input covers |
| Day05.MergeSorted | src/days/day05/solution.rs:69-86 | the loop over the sorted ranges gives a sorted, separated list covering the same IDs |
| Day05.MergeOne | src/days/day05/solution.rs:72-83 | one step folds the range into the last merged range or appends it, keeping order and separation, covering one more range |
| Day05.UnionBelowLast | src/days/day05/solution.rs:60-87 | every ID a merged list covers is at most its last end |
| Day05.SeparatedUnionSize | src/days/day05/solution.rs:92-95 | on separated, well-formed ranges the sizes `end - start + 1` add up to the number of distinct IDs covered |
| Day05.CountIdsInRanges | src/days/day05/solution.rs:92-95 | for well-formed ranges, returns the number of distinct IDs the ranges cover |
| Day05.SectionBreak | src/days/day05/solution.rs:24 | finds the first empty line from `from` on, or reports that there is none |
| Day05.ParseRangeLine | src/days/day05/solution.rs:29-32 | a parsed range has two u64 bounds |
| Day05.ParseRanges | src/days/day05/solution.rs:27-33 | one range per line of the first section |
| Day05.ParseIds | src/days/day05/solution.rs:36-40 | at most one ID per line of the second section |
| Day05.ParseInput | src/days/day05/solution.rs:23-43 | parsing succeeds only when there is a blank line after at least one line |
| Day05.ShowInput | src/days/day05/solution.rs:117-128 | the written input has the ranges, one blank line, then the IDs |
| Day05.ParseShowRange | src/days/day05/solution.rs:29-32 | a u64 range written as `a-b` parses back to itself |
| Day05.ParseRangesAll | src/days/day05/solution.rs:27-33 | when every line parses, the ranges come back in order |
| Day05.ParseIdsAll | src/days/day05/solution.rs:36-40 | when every line is a non-empty u64, the IDs come back in order |
| Day05.ParseShowInput | src/days/day05/solution.rs:23-43 | any input with at least one range and u64 values, written out and parsed, is returned unchanged |
| Day05.ShownBlankLine | src/days/day05/solution.rs:24 | the only blank line of a written input is the section break |
| Day05.Part1 | src/days/day05/solution.rs:98-102 | fails exactly when parsing fails; otherwise counts the listed IDs some range covers |
| Day05.Part2 | src/days/day05/solution.rs:104-108 | fails exactly when parsing fails; otherwise returns the number of distinct IDs the ranges cover |
| Day05.ExampleShown | src/days/day05/solution.rs:117-128 | the example text is the written form of its ranges and IDs |
| Day05.ExampleParses | src/days/day05/solution.rs:117-128 | the example parses to its four ranges and six IDs |
| Day05.ExampleFreshIds | src/days/day05/solution.rs:117-128 | of the example IDs, 5, 11 and 17 are fresh and 1, 8 and 32 are not |
| Day05.ExamplePart1 | src/days/day05/solution.rs:130-134 | part 1 answers 3 on the example |
| Day05.ExampleUnionSize | src/days/day05/solution.rs:136-140 | the example ranges cover fourteen IDs: part 2 answers 14 |
| Day06.SeparatorsBeyondWidth | src/days/day06/solution.rs:99-109 | every column at or beyond the longest line is a separator |
| Day06.NextSeparator | src/days/day06/solution.rs:112-119 | the first column from `c` on that is the width or a separator, with no separator before it |
| Day06.NextSeparatorIs | src/days/day06/solution.rs:112-119 | that column is the only one with those two properties |
| Day06.FindColumnEnd | src/days/day06/solution.rs:112-119 | `find_column_end` returns the first separator after `start`, or the width |
| Day06.ColumnInProblem | src/days/day06/solution.rs:24-39 | every non-blank column lies in some problem, one that starts at or before it |
| Day06.ProblemsDisjoint | src/days/day06/solution.rs:24-39 | two problems that share a column are the same problem |
| Day06.FirstOperator | src/days/day06/solution.rs:183-194 | the operator found is always '+' or '*' |
| Day06.FirstOperatorIsFirst | src/days/day06/solution.rs:162-170 | when column `c` holds the first '+' or '*' of the range, that is the operator |
| Day06.FirstOperatorDefault | src/days/day06/solution.rs:193 | with no operator in the range the operator is '+' |
| Day06.OperatorIn | src/days/day06/solution.rs:162-170 | the scan returns the first operator of the range, or '+' |
| Day06.ExtractOperation | src/days/day06/solution.rs:183-194 | the operator in columns `start` through `end` inclusive of the last line |
| Day06.SumPermutation | src/days/day06/solution.rs:147 | a sum does not depend on the order of its terms |
| Day06.ProductPermutation | src/days/day06/solution.rs:148 | a product does not depend on the order of its factors |
| Day06.CalculateResultPermutation | src/days/day06/solution.rs:141-151 | `calculate_result` gives the same answer on any reordering of the numbers |
| Day06.ParseNumberFromRange | src/days/day06/solution.rs:123-137 | a parsed number comes from a line long enough to reach `start` and fits in u64 |
| Day06.ParseNumberPadded | src/days/day06/solution.rs:123-137 | a u64 written with spaces on either side inside the range parses back to itself |
| Day06.TrimPadded | src/days/day06/solution.rs:130 | trimming removes exactly the padding spaces |
| Day06.ParseAndCalculateColumn | src/days/day06/solution.rs:154-180 | the row-by-row reading of one problem: each operand row's number, if any, combined by the first operator of the last row |
| Day06.ReadRowNumber | src/days/day06/solution.rs:172-175 | one operand row adds its number, if it has one |
| Day06.ColumnDigitsValue | src/days/day06/solution.rs:211-218 | the characters a column collects are digits, and their decimal value is read top to bottom |
| Day06.ColumnDigitsCount | src/days/day06/solution.rs:211-218 | one character is collected per digit in the column |
| Day06.ParseColumnDigits | src/days/day06/solution.rs:220-225 | parsing the collected digits gives the column's number, or none when the column has no digit or the number passes u64 |
| Day06.ReadColumn | src/days/day06/solution.rs:208-218 | the digits of one column over the operand rows, top to bottom |
| Day06.ParseAndCalculateProblemRtl | src/days/day06/solution.rs:198-232 | the column-by-column reading of one problem: each column's number combined by the problem's operator |
| Day06.ReadNumbers | src/days/day06/solution.rs:207-226 | one number per column that spells one, left to right |
| Day06.ReadColumnNumber | src/days/day06/solution.rs:220-225 | one column adds its number, if it spells one |
| Day06.RtlValueReversed | src/days/day06/solution.rs:196-232 | reading a problem's columns right to left instead gives the same result |
| Day06.Valuer | src/days/day06/solution.rs:35 | each problem's value under a reading, as a function of its column span |
| Day06.InsideProblem | src/days/day06/solution.rs:38 | columns inside a problem after its first start nothing new |
| Day06.ProblemAt | src/days/day06/solution.rs:31-38 | a problem adds its value and hands over to the column where it ends |
| Day06.Part1 | src/days/day06/solution.rs:12-42 | the sum over the problems, found left to right, of their row-by-row values; 0 for no lines |
| Day06.Part2 | src/days/day06/solution.rs:44-92 | the sum over the problems, found right to left, of their column-by-column values; 0 for no lines or empty lines |
| Day06.ProblemStartBefore | src/days/day06/solution.rs:68-77 | the leftward scan stops at the problem's first column: column 0 or one after a separator, with no separator in between |
| Day06.ProblemFound | src/days/day06/solution.rs:79-88 | the problem part 2 finds contributes its value, and the columns before it the rest, so both scans add the same problems |
| Day07.StartFrom | src/days/day07/solution.rs:122-131 | a found start lies in the rows searched and inside its line |
| Day07.StartFromFirst | src/days/day07/solution.rs:122-131 | the found `S` is the first in row-major order, and nothing is found exactly when no row from there on holds an `S` |
| Day07.FindStart | src/days/day07/solution.rs:122-131 | the scan returns the first `S` of the diagram, or none |
| Day07.SplitterRows | src/days/day07/solution.rs:133-145 | one set per row, holding exactly that row's `^` columns |
| Day07.SplittersWithin | src/days/day07/solution.rs:28 | every splitter lies left of the widest line's length |
| Day07.BuildSplitterMap | src/days/day07/solution.rs:133-145 | the loop builds exactly the per-row splitter sets |
| Day07.CardIsHitCount | src/days/day07/solution.rs:51-53 | the number of columns holding both a beam and a splitter, counted column by column |
| Day07.HitsCounted | src/days/day07/solution.rs:51-53 | the hits counted in a row are the columns holding both a beam and a splitter |
| Day07.NoHits | src/days/day07/solution.rs:46-48 | a row where no beam meets a splitter adds nothing |
| Day07.StartCell | src/days/day07/solution.rs:31 | the start, or (0, 0) when there is no `S`, lies in the diagram's rows |
| Day07.SpreadHits | src/days/day07/solution.rs:56-64 | each hit beam is replaced by its left and right neighbours inside the diagram; when no two hits are adjacent this is exactly the row's spread |
| Day07.SpreadOne | src/days/day07/solution.rs:56-64 | handling one more hit changes the spread only by that hit |
| Day07.NoBeamsNoSplits | src/days/day07/solution.rs:42-44 | once no beam is left no row splits, so the early exit changes nothing |
| Day07.HitsNonAdjacent | src/days/day07/solution.rs:56-64 | with no two splitters side by side, no two hits are side by side |
| Day07.CountSplits | src/days/day07/solution.rs:22-68 | with no adjacent splitters, returns the number of splits one beam from the start makes falling through every row below it |
| Day07.FollowBeams | src/days/day07/solution.rs:41-65 | the row loop counts the splits from the row below the start down |
| Day07.BeamsInside | src/days/day07/solution.rs:58-63 | beams that start inside the diagram stay inside it |
| Day07.AddToSwap | src/days/day07/solution.rs:104-111 | two `entry(..).or_default() +=` updates commute |
| Day07.ContributeSwap | src/days/day07/solution.rs:100-113 | two columns' contributions give the same map in either order, so the HashMap's iteration order does not matter |
| Day07.FlowRemove | src/days/day07/solution.rs:100-113 | the counts one row down do not depend on the order the columns are taken in |
| Day07.FlowRow | src/days/day07/solution.rs:97-115 | one row of the particle loop computes the counts one row down |
| Day07.FlowKeys | src/days/day07/solution.rs:100-113 | the columns holding timelines one row down are exactly where part 1's beams go |
| Day07.Restrict | src/days/day07/solution.rs:111 | keeps exactly the entries whose columns are listed |
| Day07.FlowNoSplitters | src/days/day07/solution.rs:93-95 | a row without splitters lets every timeline straight through |
| Day07.TotalRemove | src/days/day07/solution.rs:119 | the sum of the counts does not depend on which column is taken first |
| Day07.TotalAdd | src/days/day07/solution.rs:104-111 | adding to one entry adds to the total |
| Day07.SumCounts | src/days/day07/solution.rs:119 | returns the sum of all the counts |
| Day07.FlowTotal | src/days/day07/solution.rs:100-113 | a row whose hits lie strictly inside the diagram adds one timeline per particle it splits |
| Day07.NoTimelinesStay | src/days/day07/solution.rs:89-91 | once no timeline is left the later rows change nothing, so the early exit changes nothing |
| Day07.TimelinesFollowBeams | src/days/day07/solution.rs:88-116 | the columns holding timelines are, row after row, the columns part 1 has beams in |
| Day07.CountTimelines | src/days/day07/solution.rs:70-120 | returns the number of timelines one particle from the start makes falling through every row |
| Day07.FollowParticles | src/days/day07/solution.rs:88-116 | the row loop computes the counts from the row below the start down |
| Day08.Square | src/days/day08/solution.rs:82-87 | a squared coordinate difference is zero exactly when the difference is zero |
| Day08.DistanceSquared | src/days/day08/solution.rs:82-87 | the squared distance is a natural number and is zero exactly when the two boxes are equal |
| Day08.DistanceSymmetric | src/days/day08/solution.rs:82-87 | the squared distance from p to q equals the one from q to p |
| Day08.CountOf | src/days/day08/solution.rs:52-58 | the number of the first k elements whose root is r is at most k |
| Day08.RootCount | src/days/day08/solution.rs:9-13 | the number of roots among the first k elements is at most k |
| Day08.Relabel | src/days/day08/solution.rs:43-46 | moving one tree under another keeps one root entry per element |
| Day08.Deepen | src/days/day08/solution.rs:43-46 | the depth bookkeeping after a link keeps one entry per element |
| Day08.Identity | src/days/day08/solution.rs:16-22 | the identity parent table maps every element to itself |
| Day08.IdentityRoots | src/days/day08/solution.rs:16-22 | in a fresh structure every element is a root, so there are n components |
| Day08.IdentityCount | src/days/day08/solution.rs:16-22 | in a fresh structure each element is the only member of its own set |
| Day08.Compress | src/days/day08/solution.rs:24-29 | pointing an element straight at its root keeps the forest, the recorded sizes and the number of roots |
| Day08.SameRoots | src/days/day08/solution.rs:24-29 | two parent tables with the same roots count the same number of components |
| Day08.RootCountDrop | src/days/day08/solution.rs:43-48 | giving a root a parent removes exactly one root |
| Day08.RelabelCount | src/days/day08/solution.rs:43-46 | after a link the surviving root owns both sets' members, the linked root owns none and every other set is unchanged |
| Day08.LinkKeepsForest | src/days/day08/solution.rs:31-50 | linking one root under another keeps a forest, removes one root, and only merges sets |
| Day08.LinkSizes | src/days/day08/solution.rs:42-46 | after a link the surviving root records the sum of both sizes and every other root's size still matches its set |
| Day08.NonZeroCounts | src/days/day08/solution.rs:54-62 | the sizes kept after dropping the empty counts are all positive |
| Day08.SumAppend | src/days/day08/solution.rs:54-62 | appending a count adds it to the sum |
| Day08.CountBelowNext | src/days/day08/solution.rs:54-58 | counting the members of the roots below k + 1 adds the members of root k |
| Day08.CountBelowAll | src/days/day08/solution.rs:54-58 | once all roots are covered every element has been counted |
| Day08.NonZeroSum | src/days/day08/solution.rs:54-62 | the positive counts sum to the number of elements whose root they cover |
| Day08.CountBelowZero | src/days/day08/solution.rs:54-58 | no roots cover no elements |
| Day08.CountPositive | src/days/day08/solution.rs:54-61 | a root's count is positive exactly when some element belongs to it |
| Day08.NonZeroLength | src/days/day08/solution.rs:54-61 | there is one positive count per root |
| Day08.ClassSizesFacts | src/days/day08/solution.rs:52-64 | the set sizes number the components and sum to the number of elements |
| Day08.InsertBy | src/days/day08/solution.rs:61-62 | insertion adds the element to the multiset and keeps either it or the old first element in front |
| Day08.InsertBySorted | src/days/day08/solution.rs:61-62 | insertion into a sorted sequence keeps it sorted |
| Day08.SortBy | src/days/day08/solution.rs:61-62 | sorting gives a permutation of the input ordered by the key |
| Day08.SumInsert | src/days/day08/solution.rs:61-62 | insertion adds the element to the sum |
| Day08.SumSorted | src/days/day08/solution.rs:61-62 | sorting keeps the sum |
| Day08.UnionFind.constructor | src/days/day08/solution.rs:16-22 | every element is its own parent and root, every size is 1, and there are n components |
| Day08.UnionFind.Find | src/days/day08/solution.rs:24-29 | the result is the element's root, a self-parented element, and path compression keeps every root, size and the component count |
| Day08.UnionFind.Link | src/days/day08/solution.rs:40-48 | the child root points at the top root, whose size becomes the sum of both, the sets merge and there is one component fewer |
| Day08.UnionFind.Union | src/days/day08/solution.rs:31-50 | it merges exactly when the roots differ; then the root of the smaller tree goes under the other root (on a tie the second element's root goes under the first's), the sizes add and the components drop by one; otherwise nothing changes; afterwards both elements share a root |
| Day08.UnionFind.CountMembers | src/days/day08/solution.rs:54-58 | each slot holds the number of elements whose root it is |
| Day08.UnionFind.ComponentSizes | src/days/day08/solution.rs:52-64 | the sizes are a permutation of the set sizes, largest first, one positive entry per component, summing to the number of elements |
| Day08.SortedSizes | src/days/day08/solution.rs:61-62 | the set sizes sorted largest first are positive, one per component, and sum to the number of elements |
| Day08.RowMembers | src/days/day08/solution.rs:96-108 | a row holds exactly the pairs of box i with later boxes from j on, with their squared distances |
| Day08.PairsFromMembers | src/days/day08/solution.rs:93-109 | the rows from i on hold exactly the pairs i <= a < b with their squared distances |
| Day08.PairsMembers | src/days/day08/solution.rs:93-109 | the pair list holds exactly the pairs a < b of boxes with their squared distances |
| Day08.RowCount | src/days/day08/solution.rs:96-108 | the row of partners from j on has one entry per later box |
| Day08.PairsFromCount | src/days/day08/solution.rs:93-109 | the rows from i on hold (n - i)(n - i - 1)/2 pairs |
| Day08.PairsCount | src/days/day08/solution.rs:93-109 | there are n(n - 1)/2 pairs |
| Day08.AllPairs | src/days/day08/solution.rs:93-109 | the double loop builds exactly the pair list |
| Day08.PushRow | src/days/day08/solution.rs:96-108 | the inner loop appends exactly the row of box i |
| Day08.ClosestFirst | src/days/day08/solution.rs:111-113 | the first k pairs after sorting by distance are k of the pairs, none longer than any pair left out |
| Day08.PrefixBeforeSuffix | src/days/day08/solution.rs:111-113 | in a list sorted by distance no pair before position k is longer than one after it |
| Day08.StillTogether | src/days/day08/solution.rs:115-119 | merging keeps every pair joined so far in one circuit and adds the pair just joined |
| Day08.FinestStart | src/days/day08/solution.rs:114-115 | before any join every box is its own circuit, so any grouping is coarser |
| Day08.StillFinest | src/days/day08/solution.rs:116-119 | a union that merges the two ends' circuits, or leaves them when already merged, keeps the circuits the finest grouping that holds every joined pair together |
| Day08.TopProductLargest | src/days/day08/solution.rs:121-131 | with the sizes largest first no three of them have a larger product than the first three |
| Day08.JoinAll | src/days/day08/solution.rs:115-119 | after the union loop the two boxes of every chosen pair are in one circuit, and every grouping that keeps the chosen pairs together is coarser than the circuits |
| Day08.ClosestPairs | src/days/day08/solution.rs:93-113 | the chosen pairs are that many pairs of the boxes, each with a < b, none longer than any pair left out |
| Day08.SolvePart1 | src/days/day08/solution.rs:89-132 | the joined pairs are the closest ones, each joined pair lies in one circuit and the circuits join nothing else (every grouping that keeps the joined pairs together is coarser), the circuit sizes are sorted largest first and sum to the number of boxes, and the answer is the product of the up-to-three largest |
| Day08.PrimOrderMeaning | src/days/day08/solution.rs:151-186 | the tree starts at box 0 and every later box joins along a lightest edge leaving the boxes before it |
| Day08.PrimOrderAt | src/days/day08/solution.rs:164-174 | the box added at step k joins along a lightest edge leaving the tree so far |
| Day08.PrimOrderPrefix | src/days/day08/solution.rs:151-186 | every prefix of a Prim order is a Prim order |
| Day08.CountFalse | src/days/day08/solution.rs:141-149 | the number of unmarked boxes among the first k is at most k |
| Day08.CountFalseSet | src/days/day08/solution.rs:164 | marking an unmarked box removes exactly one unmarked box |
| Day08.SomeFalse | src/days/day08/solution.rs:152-162 | a positive count of unmarked boxes names one |
| Day08.AllFalse | src/days/day08/solution.rs:141-149 | at the start every box is unmarked |
| Day08.NoFalse | src/days/day08/solution.rs:152-186 | a zero count means every box is in the tree |
| Day08.NearestOutside | src/days/day08/solution.rs:154-162 | when some box outside the tree has a finite distance, the scan returns the first box outside the tree with the least distance; otherwise it returns box 0 |
| Day08.Relax | src/days/day08/solution.rs:177-185 | every box outside the tree gets the smaller of its old distance and its distance to the new box, with the new box as parent when that is shorter, and nothing else changes |
| Day08.RelaxKeepsNearest | src/days/day08/solution.rs:177-185 | after relaxing through a new tree box each outside box still records its nearest tree box and that distance |
| Day08.FirstNearest | src/days/day08/solution.rs:177-185 | after the first round each box records box 0 as its nearest tree box |
| Day08.ClosestIsLightest | src/days/day08/solution.rs:154-174 | the outside box with the least recorded distance and its recorded parent form a lightest edge leaving the tree |
| Day08.MarkStep | src/days/day08/solution.rs:164 | marking the new box keeps the marks equal to the tree's members |
| Day08.GrowOrder | src/days/day08/solution.rs:164-174 | adding a box along a lightest edge extends the Prim order |
| Day08.ReachedStep | src/days/day08/solution.rs:164-185 | after a round every box still outside the tree knows its nearest tree box |
| Day08.ReachedFirst | src/days/day08/solution.rs:141-185 | after the first round every other box knows its distance to box 0 |
| Day08.GrowingStep | src/days/day08/solution.rs:152-186 | a round that does not finish keeps the loop invariant: the Prim order, the marks, the nearest distances, the edges added and the last edge |
| Day08.FinishEarly | src/days/day08/solution.rs:164-174 | the round that adds the (n - 1)-th edge ends with every box in the tree and the last edge recorded |
| Day08.FinishLast | src/days/day08/solution.rs:152-188 | when the loop runs out of rounds every box is in the tree |
| Day08.SolvePart2 | src/days/day08/solution.rs:135-189 | the boxes join in a Prim order from box 0, every box joins, and the answer is the product of the x coordinates of the last edge's ends, or 0 with fewer than two boxes |
| Day08.Round | src/days/day08/solution.rs:152-186 | one loop round either finishes the tree or keeps the loop invariant for the next round |
| Day08.Choose | src/days/day08/solution.rs:152-162 | the chosen box is box 0 in the first round, and afterwards a box outside the tree at the end of a lightest edge |
| Day11.FindSeparator | src/days/day11/solution.rs:50 | the result is the first position from `from` on that holds ": ", or none when no later position does |
| Day11.SplitOnce | src/days/day11/solution.rs:50 | a split puts the device before the first ": " and the outputs after it, so joining them back gives the line; no split exactly when the line holds no ": " |
| Day11.WordEnd | src/days/day11/solution.rs:51 | the end of a word is the first whitespace character after its start, or the end of the text |
| Day11.Words | src/days/day11/solution.rs:51 | splitting on whitespace yields only non-empty words without whitespace |
| Day11.WordsCons | src/days/day11/solution.rs:51 | a word followed by whitespace or nothing splits off as the first word |
| Day11.WordEndAt | src/days/day11/solution.rs:51 | a word ends exactly at the first whitespace after it |
| Day11.WordsJoin | src/days/day11/solution.rs:51 | words joined by single spaces split back into the same words |
| Day11.Entry | src/days/day11/solution.rs:48-52 | an empty line is skipped, a line without ": " is an error, and every other line gives a device and its outputs |
| Day11.ParseGraphError | src/days/day11/solution.rs:45-55 | parsing fails exactly when some line is malformed, and the error is the first malformed line's |
| Day11.ParseGraphKeys | src/days/day11/solution.rs:45-55 | a device is in the graph exactly when some line names it |
| Day11.ParseGraphLast | src/days/day11/solution.rs:54 | when a device is named on several lines the last of them gives its outputs |
| Day11.EntryShowLine | src/days/day11/solution.rs:48-52 | a line written as `device: out1 out2 ...` parses back to that device and those outputs |
| Day11.ShowLines | src/days/day11/solution.rs:45-55 | writing entries gives one line per entry |
| Day11.ParseShowLines | src/days/day11/solution.rs:45-55 | parsing the written lines of a list of entries gives the map that the entries build in order |
| Day11.MarkShrinks | src/days/day11/solution.rs:75 | marking an unmarked device shrinks the set of unmarked devices, which bounds the search |
| Day11.Prepend | src/days/day11/solution.rs:79-83 | each path gets the current device in front |
| Day11.Paths | src/days/day11/solution.rs:58-89 | every enumerated path starts at the current device |
| Day11.PathsVia | src/days/day11/solution.rs:79-83 | every path through the outputs starts at an unmarked output |
| Day11.SimpleCons | src/days/day11/solution.rs:74-86 | a simple path of two or more devices is an edge followed by a simple path that avoids its first device |
| Day11.PathsMembers | src/days/day11/solution.rs:58-89 | the enumeration from a device holds exactly the simple paths from it to the target that avoid the marked devices |
| Day11.PathsStep | src/days/day11/solution.rs:74-86 | the step case of the enumeration holds exactly the simple paths from the device |
| Day11.PrependMembers | src/days/day11/solution.rs:79-83 | the prefixed paths are exactly the current device followed by one of the paths |
| Day11.PathsViaMembers | src/days/day11/solution.rs:79-83 | the paths through a list of outputs are exactly the simple paths that start at one of them |
| Day11.ViaSnoc | src/days/day11/solution.rs:79-83 | one more output adds its paths, unless it is marked |
| Day11.PathsDistinct | src/days/day11/solution.rs:58-89 | with no repeated outputs the enumeration lists each simple path once, so the count is the number of simple paths |
| Day11.PathsViaDistinct | src/days/day11/solution.rs:79-83 | with no repeated outputs the paths through distinct outputs are all different |
| Day11.DistinctAppend | src/days/day11/solution.rs:79-83 | two lists without repeats and without common elements join into a list without repeats |
| Day11.Next | src/days/day11/solution.rs:123-128 | the state after a device keeps every bit it had |
| Day11.NextIsOr | src/days/day11/solution.rs:123-128 | the state after a device is the old state with bit 1 set for "dac" and bit 2 for "fft" |
| Day11.SeenCons | src/days/day11/solution.rs:123-128 | the bits of a list of devices are those of its head or-ed with those of its tail |
| Day11.FinalSeen | src/days/day11/solution.rs:104-107 | the state reaching the target is the starting state with the bits of every device before it |
| Day11.OrAssoc | src/days/day11/solution.rs:123-128 | or-ing bits is associative |
| Day11.StateBounds | src/days/day11/solution.rs:94 | the state never loses a bit and stays within 0..3 |
| Day11.BothRequired | src/days/day11/solution.rs:104-107 | a path from state 0 reaches the target with state 3 exactly when it passes both "dac" and "fft" |
| Day11.Through | src/days/day11/solution.rs:104-107 | the number of paths that complete both bits is at most the number of paths |
| Day11.ThroughAppend | src/days/day11/solution.rs:130-135 | the count over two lists of paths is the sum of their counts |
| Day11.ThroughPrepend | src/days/day11/solution.rs:123-133 | counting the prefixed paths from a state is counting the paths from the state after the device |
| Day11.AcyclicPaths | src/days/day11/solution.rs:109-114 | on an acyclic graph the paths from a device do not depend on which devices above it are marked, so a memo keyed without the marks is sound |
| Day11.AcyclicPathsVia | src/days/day11/solution.rs:130-135 | the same holds for the paths through a list of lower outputs |
| Day11.Search.constructor | src/days/day11/solution.rs:27-36 | the search starts with no marked devices and an empty memo |
| Day11.Search.CountPaths | src/days/day11/solution.rs:58-89 | the count is the number of enumerated simple paths from the device to the target that avoid the marks, and the marks are restored |
| Day11.Search.CountPathsMemo | src/days/day11/solution.rs:96-145 | the marks are restored, the memo only grows, and the result is cached for a device with outputs; on an acyclic graph the count is the number of simple paths that complete both bits from the given state |
| Day11.Search.Expand | src/days/day11/solution.rs:116-144 | a device not yet in the memo is counted through its outputs and its count is cached |
| Day11.Search.CountNeighbors | src/days/day11/solution.rs:130-135 | the loop over the outputs sums the counts of the unmarked ones |
| Day11.MemoChain | src/days/day11/solution.rs:130-135 | two steps that only add memo entries for unmarked devices compose |
| Day11.MemoAdd | src/days/day11/solution.rs:139-142 | caching a new entry keeps every earlier entry |
| Day11.AboveStep | src/days/day11/solution.rs:121-133 | on an acyclic graph an output ranks below every marked device once the current device is marked |
| Day11.Part1 | src/days/day11/solution.rs:25-29 | a malformed line is an error; otherwise the answer is the number of simple paths from "you" to "out" |
| Day11.Part2 | src/days/day11/solution.rs:31-39 | a malformed line is an error; otherwise there is an answer, and on an acyclic graph it is the number of simple paths from "svr" to "out" through both "dac" and "fft" |
| Day11.OneOutput | src/days/day11/solution.rs:79-83 | a device with one output extends that output's paths |
| Day11.ViaOne | src/days/day11/solution.rs:79-83 | the paths through a single unmarked output are that output's paths |
| Day11.TwoOutputs | src/days/day11/solution.rs:79-83 | a device with two outputs extends both outputs' paths in order |
| Day11.ViaTwo | src/days/day11/solution.rs:79-83 | the paths through two unmarked outputs are theirs in order |
| Day11.ThreeOutputs | src/days/day11/solution.rs:79-83 | a device with three outputs extends all three outputs' paths in order |
| Day11.IntoTarget | src/days/day11/solution.rs:64-67 | a device whose only output is the target has the one path to it |
| Day11.CollectPrefix | src/days/day11/solution.rs:54 | each entry overrides the earlier entries for its device |
| Day11.ExampleOutputs | src/days/day11/solution.rs:169-176 | the example graph maps each device to the outputs the parse test expects |
| Day11.ExampleCollects | src/days/day11/solution.rs:151-161 | the example entries build the example graph |
| Day11.ShowLinesAt | src/days/day11/solution.rs:151-161 | the k-th written line is the k-th entry's |
| Day11.JoinTwo | src/days/day11/solution.rs:51 | two words joined by a space |
| Day11.JoinThree | src/days/day11/solution.rs:51 | three words joined by spaces |
| Day11.ExampleLinesHead | src/days/day11/solution.rs:152-156 | the first five example lines are the first five entries written out |
| Day11.ExampleLinesTail | src/days/day11/solution.rs:157-161 | the last five example lines are the last five entries written out |
| Day11.ExampleShowable | src/days/day11/solution.rs:151-161 | the example entries have devices without ':' and non-empty output words |
| Day11.ExampleShows | src/days/day11/solution.rs:151-161 | the example entries written out are the example text's lines |
| Day11.ExampleParses | src/days/day11/solution.rs:169-176 | the example text parses to the example graph |
| Day11.ExampleFromBbb | src/days/day11/solution.rs:163-167 | two paths lead from "bbb" to "out" in the example |
| Day11.ExampleFromCcc | src/days/day11/solution.rs:163-167 | three paths lead from "ccc" to "out" in the example |
| Day11.ExamplePart1 | src/days/day11/solution.rs:163-167 | the example has five paths from "you" to "out" |
| Day11.WrittenLines | src/days/day11/solution.rs:45-55 | lines that are the entries written out parse to the map the entries build |
| Day11.SimplePathParses | src/days/day11/solution.rs:178-183 | "you: out" parses to one device with the one output |
| Day11.SimplePathExample | src/days/day11/solution.rs:178-183 | that graph has one path |
| Day11.NoPathLines | src/days/day11/solution.rs:185-190 | the two lines parse to the map their entries build |
| Day11.NoPathParses | src/days/day11/solution.rs:185-190 | the two lines parse to the chain you, bbb, ccc |
| Day11.NoPathExample | src/days/day11/solution.rs:185-190 | that graph has no path to "out" |
| Day11.DiamondLinesAt | src/days/day11/solution.rs:192-199 | each diamond line is its entry written out |
| Day11.DiamondWritten | src/days/day11/solution.rs:192-199 | the diamond lines parse to the map their entries build |
| Day11.DiamondCollects | src/days/day11/solution.rs:192-199 | the diamond entries build the diamond graph |
| Day11.DiamondParses | src/days/day11/solution.rs:192-199 | the diamond text parses to the diamond graph |
| Day11.DiamondExample | src/days/day11/solution.rs:192-199 | the diamond has two paths from "you" to "out" |
| Day11.ThroughTarget | src/days/day11/solution.rs:104-107 | at the target a path counts exactly when the state is 3 |
| Day11.ThroughOne | src/days/day11/solution.rs:123-135 | on an acyclic graph a device with one output passes its updated state on to that output |
| Day11.ThroughTwo | src/days/day11/solution.rs:123-135 | on an acyclic graph a device with two outputs sums their counts from its updated state |
| Day11.DacThenFftAcyclic | src/days/day11/solution.rs:239-245 | the chain svr, dac, fft, out is acyclic |
| Day11.FftThenDacAcyclic | src/days/day11/solution.rs:247-253 | the chain svr, fft, dac, out is acyclic |
| Day11.DacThenFftExample | src/days/day11/solution.rs:239-245 | the chain through "dac" then "fft" has one counted path |
| Day11.FftThenDacExample | src/days/day11/solution.rs:247-253 | the chain through "fft" then "dac" has one counted path |
| Day11.NeitherExample | src/days/day11/solution.rs:223-229 | a graph without "dac" or "fft" has no counted path |
| Day11.OnlyDacExample | src/days/day11/solution.rs:231-237 | a path through "dac" only is not counted |
| Day11.Part2Outputs | src/days/day11/solution.rs:202-215 | the part 2 example graph lists the outputs of the example text |
| Day11.Part2Acyclic | src/days/day11/solution.rs:202-215 | the part 2 example graph is acyclic |
| Day11.Part2Edge | src/days/day11/solution.rs:202-215 | every edge of the part 2 example goes down in rank |
| Day11.Part2EdgeTop | src/days/day11/solution.rs:203-207 | the edges of the top devices go down in rank |
| Day11.Part2EdgeMid | src/days/day11/solution.rs:208-211 | the edges of the middle devices go down in rank |
| Day11.Part2EdgeLow | src/days/day11/solution.rs:212-213 | the edges of "dac" and "fff" go down in rank |
| Day11.Part2EdgeLast | src/days/day11/solution.rs:214-215 | the edges into "out" go down in rank |
| Day11.Part2FromFff | src/days/day11/solution.rs:213-215 | from "fff" two paths count when both bits are set and none otherwise |
| Day11.Part2FromDdd | src/days/day11/solution.rs:209-210 | from "ddd" two paths count when both bits are set and none otherwise |
| Day11.Part2FromEee | src/days/day11/solution.rs:211-212 | from "eee" two paths count when the "fft" bit is set, since the path passes "dac" |
| Day11.Part2FromCcc | src/days/day11/solution.rs:208 | from "ccc" two paths count after "fft" and none without it |
| Day11.Part2FromAaa | src/days/day11/solution.rs:204-205 | from "aaa" two paths count |
| Day11.Part2FromBbb | src/days/day11/solution.rs:206-207 | from "bbb" no path counts |
| Day11.Part2ExampleCount | src/days/day11/solution.rs:217-221 | the part 2 example graph is acyclic and has two counted paths from "svr" |
| Cli.ParseArgs | src/main.rs:53-98 | the loop agrees with the scan; it runs exactly on well-formed arguments, the flag is set exactly when some `--all-impls`/`-a` is given, the filter is none without `--day`, and otherwise it is the value after the last `--day` |
| Cli.ValueIsNoOption | src/main.rs:59-89 | a number is never one of the option names |
| Cli.OptionsDistinct | src/main.rs:59-89 | the three option spellings do not overlap |
| Cli.WellFormedIff | src/main.rs:58-95 | the scan runs to the end exactly when no help option appears, every `--day` is followed by a number in 1..25 and every other argument is an option |
| Cli.WellFormedAfterDay | src/main.rs:70-74 | a good `--day` and its value can be skipped without changing well-formedness |
| Cli.WellFormedAfterAllImpls | src/main.rs:85-88 | an `--all-impls` can be skipped without changing well-formedness |
| Cli.WellFormedFrom | src/main.rs:58-95 | skipping one or two accepted arguments keeps well-formedness |
| Cli.WellFormedStops | src/main.rs:59-93 | an argument that is neither `--all-impls` nor a good `--day` makes the arguments from there on ill-formed |
| Cli.RunAllImpls | src/main.rs:85-88 | after a run the flag is set exactly when it was set before or some later argument is `--all-impls`/`-a` |
| Cli.RunDay | src/main.rs:70-74 | after a run the filter is the value after the last `--day`, or the earlier filter when there is none |
| Cli.HelpNamed | src/main.rs:60-63 | the help outcome happens only when some argument asks for help |
| Cli.FailureNamed | src/main.rs:64-93 | each error names its cause: `--day` last, a value outside 1..25 after a `--day`, a value that is not a number after a `--day`, or an argument that is no option |
| Cli.StopsEarly | src/main.rs:60-93 | help and every error except a missing day value end the scan whatever follows |
| Cli.RunContinues | src/main.rs:58-95 | scanning a longer vector continues from where the shorter one ran out, with its filter and flag |
| Cli.LaterDayWins | src/main.rs:70-74 | appending `--day n` with n in 1..25 to runnable arguments makes n the filter and keeps the flag |
| Cli.OrderIrrelevant | src/main.rs:64-88 | `-a -d v` and `-d v -a` parse alike whatever comes before and after |
| Cli.ScanSuffix | src/main.rs:58-95 | the scan from index i depends only on the arguments from i on |
| Cli.NoArguments | src/main.rs:128-132 | no options give no filter and no flag |
| Cli.DayArgument | src/main.rs:134-141 | `--day 5` and `-d 1` give those filters without the flag |
| Cli.AllImplsArgument | src/main.rs:143-150 | `--all-impls` and `-a` set the flag without a filter |
| Cli.DayAndAllImpls | src/main.rs:152-161 | `--day 2 --all-impls` gives filter 2 and the flag |

## Left out

- Machine integer widths. `u64`, `i64`, `i32` and `usize` arithmetic is unbounded here, so no overflow or wrap-around is modelled. The only exceptions are the 64-bit range of `str::parse::<u64>()` and the `i64::MAX` sentinel of Prim's distances.
- Input handling. Reading files, `str::lines()` (including its handling of `\r`), printing, timing, the results table, the benchmarks, `print_help`, `print_usage` and `process::exit` are not modelled. The models take their input as lines, or as lines already split into records. Whitespace is ASCII only.
- Iteration order. `HashSet` and `HashMap` iteration order is not modelled; sets and maps are iterated in an order the proofs do not depend on.
- Days 09, 10 and 12, the runner registry, and Day 8's `parse_coordinates` are not part of this model.
- Day01.WellFormed: a direction letter other than `L` or `R` makes the source panic. Day01.CountZeros and Day01.CountZerosDuringRotations accept any lines and model that panic as a `Failure` naming the first such line's direction; only the specification functions they are proved against assume well-formed lines.
- Day02.Validate: the modulo validator is modelled only for IDs below 10^19, where the source's powers of ten stay within `u64`. Day02.Solve and Day02.SumRanges carry the same bound for the modulo implementation.
- Day02: the answers of the repository's example tests are not restated as lemmas.
- Day03.MaxJoltage: requires a non-empty bank of digits. On an empty line the source's `n - 1` underflows and panics. On a byte that is not a digit, `digit - b'0'` gives no meaningful joltage.
- Day03.Part1, Day03.Part2 and Day03.SumMaxJoltageK require every bank to be all digits and at least as long as the number of batteries turned on. For a shorter bank the source's `n - k` underflows.
- Day03, Day06 and Day07: the answers of the example tests are not restated as lemmas.
- Day04.NaivePart1, Day04.NaivePart2, Day04.FlatPart1, Day04.DirtyPart2, Day04.CountedGrid.Parse and Day04.QueuePart2 require at least one line, all of the same length; the model does not cover ragged grids. Every solver in the source panics on an empty grid and takes the width from the first line. The naive solvers index each line by that width, so a shorter line panics and a longer line's extra columns are ignored. The flat solvers (`Grid::parse`, `GridWithCounts::parse`) drop the newlines and cut the remaining bytes by that width, so a longer or shorter line shifts every later row, and a cell's neighbour index may fall outside the data and panic.
- Day05.Part2 and Day05.CountIdsInRanges require every range to have start <= end. The source's `end - start + 1` underflows only when a reversed range survives the merge. A reversed range that an earlier range absorbs (as `5-3` after `1-10`, which counts 10) is harmless in the source, but it is outside the model.
- Day07.CountSplits: the count is stated only when no two splitters in a row are adjacent. With adjacent splitters the source's result depends on the order in which it iterates a `HashSet`.
- Day08.SolvePart1: requires 1 <= pairs <= n(n - 1)/2, the range in which `select_nth_unstable_by_key(pairs - 1, …)` does not panic. How equal distances are ordered by the unstable selection and sort is not modelled: the chosen pairs are stated as any closest pairs. The runner's constant of 1000 pairs is not modelled.
- Day08.SolvePart2: requires every squared distance to be below `i64::MAX`. The tree is stated as a Prim order (each box joins along a lightest edge leaving the tree so far); that it is a minimum spanning tree is not proved.
- Day08: the example answers (40 and 25272) are not restated as lemmas.
- Day11.Part2: the count is stated only for acyclic graphs. The source's memo is keyed by device and state, not by the devices on the current path, so its result on a graph with cycles depends on the search order. Duplicate outputs of a device are counted once per listing, as in the source.
- Day11: the part 2 example lemmas start from the example graph, not from its text.
