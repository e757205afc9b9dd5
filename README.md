# Advent of Code 2021 solutions, modelled in Dafny

The repository holds one small program per puzzle day, in C (days 1 to 4 and a
brute-force search for day 8) and in Rust (days 5 to 25). Each program reads
its input, parses it and prints two answers. This project models the parsing
and the algorithm of each program and proves what each computes. Every source
file has its own module:

- `Adv1P1`, `Adv1P2`, `Adv2P2`: depth readings, the sliding window kept in a four-slot ring buffer, and the submarine's course with aim.
- `Adv3P1`, `Adv3P2`: gamma and epsilon from per-column balances, and the oxygen and CO2 ratings from the in-place majority filter.
- `Adv4P1`, `Adv4P2`: bingo boards as classes with a selection array; the first winner and the last winner.
- `Vec2`, `Adv5`: `gcd`, `unit_diff` and the point walk of a line; overlap counting for the vent lines.
- `Matrix`, `Adv6`: row-major matrices with multiplication, transposition and square-and-multiply powers; lanternfish counts by a power of the one-day matrix.
- `Adv7`: crab alignment fuel.
- `Adv8`, `Adv8Opt`: seven-segment patterns as letter bit sets, the wiring recovered by `get_true_digits`, and the C search for XOR identities between digit patterns.
- `Adv9`: low points and basins by breadth-first flood fill.
- `Adv10`: bracket matching with a stack, error and completion scores, and the median.
- `Adv11`: the octopus flash cascade.
- `Adv12`: cave path counting with a visit-state machine.
- `Adv13`: folding transparent paper.
- `Adv14`: polymer growth by pair counts.
- `Adv15`: the lowest-risk path by relaxation to a fixed point.
- `Adv16`: the bit-packet decoder and evaluator.
- `Adv17`: the probe trajectory search.
- `Adv18`: snailfish number reduction and magnitude.
- `Adv19`: rotations, translations and beacon alignment between scanners.
- `Adv20`: image enhancement with an infinite background.
- `Adv21`: Dirac dice, deterministic and by universe counts.
- `Adv22`: reactor reboot with disjoint cuboids.
- `Adv23Common`, `Adv23P1`, `Adv23P2`, `Adv23Main`: the amphipod burrow. There is a recursive search for the small burrow and a worklist search (the `World` class) for the folded large one.
- `Adv24`: the ALU program and the search for the largest and smallest model numbers.
- `Adv25`: sea cucumber herds moving on a wrapping grid.

Three modules are shared:

- `Common`: options, powers, bit operations on naturals, and iteration.
- `CString`: C's `atoi`.
- `RustStr`: Rust's `split_once`, `trim_end`, line splitting and integer `parse`.

Input files and printing are left out. Each program's input is a parameter
(lines of text, or parsed values), and its answers are return values. A
program that panics or exits on its input gives `None`, or is excluded by a
`requires` clause; the list below says which.

## Model

| member | source | states |
|---|---|---|
| CString.DigitValue | adv-1/p1.c:22 | a digit character's value, as `atoi` reads it, is below ten |
| CString.DigitRun | adv-1/p1.c:22 | the digits `atoi` reads are the longest run of decimal digits at the front |
| CString.SkipSpace | adv-1/p1.c:22 | `atoi` skips a run of leading white space and stops at the first other character |
| CString.Decimal | adv-1/p1.c:22 | the decimal text of a number, as the input files hold it, is one or more digits |
| CString.DecimalValue | adv-1/p1.c:22 | the digits of a number's decimal text have that number's value |
| CString.DigitRunOfDigitsThen | adv-1/p1.c:22 | the digit run of digits followed by a non-digit is exactly those digits |
| CString.SignedDigitsUnsigned | adv-1/p1.c:22 | text starting with a digit has no white space or sign to skip and is read as its digit run |
| CString.AtoiDigits | adv-1/p1.c:22 | `atoi` of digits followed by a non-digit is the digits' value |
| CString.AtoiNegDigits | adv-2/p2.c:38-44 | `atoi` of `-` and digits followed by a non-digit is the negated value |
| CString.AtoiDecimal | adv-1/p1.c:22 | `atoi` reads back a number written in decimal, with or without a minus sign, whatever non-digit follows |
| Adv1P1.CountIncreases | adv-1/p1.c:27-36 | the count is the number of readings larger than the one before, `INT_MAX` making the first never count |
| Adv1P1.IncreasesBound | adv-1/p1.c:31-34 | `n` readings give at most `n - 1` increases |
| Adv1P1.IncreasesMaximal | adv-1/p1.c:31-34 | the bound is met exactly by a strictly increasing sequence of readings |
| Adv1P2.WindowSums | adv-1/p2.c:27-41 | there are `n - 2` three-reading windows for `n >= 3` readings, none otherwise |
| Adv1P2.CountWindowIncreases | adv-1/p2.c:27-41 | the ring-buffer loop counts the readings larger than the one three places earlier |
| Adv1P2.WindowIncreasesAreSumIncreases | adv-1/p2.c:35-39 | that count is the number of increases between consecutive window sums, the puzzle's question |
| Adv1P2.WindowIncreasesBound | adv-1/p2.c:35-39 | `n >= 3` readings give at most `n - 3` increases |
| Adv2P2.Pilot | adv-2/p2.c:28-48 | the loop's position, depth and aim are those of the line-by-line `Run`, and the answer is their product |
| Adv2P2.RunSums | adv-2/p2.c:36-46 | the position is the sum of the `forward` amounts and the aim the `down` amounts less the `up` amounts; other lines change nothing |
| Adv2P2.ForwardDives | adv-2/p2.c:37-40 | `forward v` moves `v` ahead and dives by `aim * v` |
| Adv3P1.BalanceCounts | adv-3/p1.c:36-46 | a column's counter is its ones less its zeros, and every line holds one or the other there, so the counter is positive exactly when ones are the majority |
| Adv3P1.GammaOf | adv-3/p1.c:49-53 | gamma is below `2^12` for twelve columns |
| Adv3P1.GammaBits | adv-3/p1.c:49-53 | gamma's bit for column `i` (column 0 the most significant) is set exactly when that column's counter is positive |
| Adv3P1.ComplementBits | adv-3/p1.c:54 | each of the low twelve bits of epsilon is the opposite of gamma's |
| Adv3P1.ComplementValue | adv-3/p1.c:54 | epsilon is `4095 - gamma` |
| Adv3P1.Balances | adv-3/p1.c:35-48 | the twelve counters after all lines are the columns' balances |
| Adv3P1.CountColumns | adv-3/p1.c:33-48 | the loop exits exactly when some line has a character other than `0` or `1` in its first twelve; otherwise the counters are the balances |
| Adv3P1.Gamma | adv-3/p1.c:49-53 | the shift loop computes gamma from the counters |
| Adv3P1.PowerOf | adv-3/p1.c:28-56 | gamma read from the twelve counters is the gamma of the lines' column balances, and `eps` (its twelve bits flipped) is `4095 - gamma` |
| Adv3P1.PowerFrom | adv-3/p1.c:49-55 | from the twelve counters the tail of `main` computes `gamma * eps`, which is `gamma * (4095 - gamma)` for the lines' gamma |
| Adv3P1.PowerConsumption | adv-3/p1.c:28-56 | the printed value is `gamma * (4095 - gamma)`, or the exit on a bad character |
| Adv3P2.Keep | adv-3/p2.c:43-48 | filtering keeps no more entries than it is given |
| Adv3P2.CountBalance | adv-3/p2.c:36-39 | the counter of one round is the surviving entries' set bits less their clear bits at the mask |
| Adv3P2.Compact | adv-3/p2.c:43-48 | the in-place filter moves exactly the kept entries, in order, to the front |
| Adv3P2.Round | adv-3/p2.c:35-48 | one round leaves at the front, in order, exactly the surviving entries whose bit agrees with the wanted bit of that round |
| Adv3P2.Search | adv-3/p2.c:31-58 | `search` on a copy is the round-by-round filtering from the top bit, `None` at a trap |
| Adv3P2.LifeSupport | adv-3/p2.c:60-69 | the printed value is the product of the two ratings over at most 1024 entries, `None` at a trap |
| Adv3P2.BalanceCounts | adv-3/p2.c:36-40 | the counter is the set entries less the clear ones, and the two kept groups split the entries |
| Adv3P2.KeepsMajorityOrMinority | adv-3/p2.c:40-41 | the oxygen search keeps the larger group (ties keep ones); the CO2 search keeps the smaller one (ties keep zeros), but only for the twelve low bits the mask flips |
| Adv3P2.KeepMembers | adv-3/p2.c:43-48 | every entry kept is an entry given, with the wanted bit |
| Adv3P2.SearchFromMember | adv-3/p2.c:50-54 | a rating returned is one of the entries |
| Adv3P2.FirstRoundBit | adv-3/p2.c:34-48 | a rating returned has the bit wanted in the first round |
| Adv4P1.WinsMeansFullLine | adv-4/p1.c:102-113 | a board wins exactly when some row or some column is fully selected |
| Adv4P1.LineFromAll | adv-4/p1.c:106-109 | the `&=` accumulation over a row (a column) from position `j` holds exactly when every cell there is selected |
| Adv4P1.WinsFromExists | adv-4/p1.c:103-112 | the loop over lines from `i` returns 1 exactly when some full line is at `i` or later |
| Adv4P1.WinsMonotone | adv-4/p1.c:91-100 | a winning board keeps winning when more cells are selected |
| Adv4P1.Marked | adv-4/p1.c:91-100 | the selection flags after a series of calls have one flag per cell |
| Adv4P1.UnmarkedSumBounds | adv-4/p1.c:82-88 | with nothing selected the unmarked sum is the total, and selecting more cells never raises it |
| Adv4P1.Board.constructor | adv-4/p1.c:50-70 | a fresh board holds the 25 numbers read and no selection |
| Adv4P1.Board.MarkBoard | adv-4/p1.c:91-100 | exactly the cells holding the call become selected, others keep their flag; the answer is whether any cell holds the call |
| Adv4P1.Board.IsWinner | adv-4/p1.c:102-113 | the answer is whether the board has a full row or column |
| Adv4P1.Board.GetScore | adv-4/p1.c:82-88 | the score is the sum of the unselected numbers times the last call |
| Adv4P1.CellsOf | adv-4/p1.c:119 | one cell list per board |
| Adv4P1.NoWinNextBoard | adv-4/p1.c:126-131 | a board that does not win on this call extends the run of non-winning plays |
| Adv4P1.NoWinNextCall | adv-4/p1.c:125-132 | a call on which no board wins passes the search on to the next call |
| Adv4P1.MarkedAppend | adv-4/p1.c:91-100 | one more call selects exactly the cells holding it |
| Adv4P1.PlayCall | adv-4/p1.c:126-131 | the first board, in order, that wins on this call is scored with this call; `None` means no board wins on it |
| Adv4P1.FirstWinnerScore | adv-4/p1.c:115-133 | the printed score is that of the first board to win, calls in order and boards in order; nothing is printed when no board ever wins |
| Adv4P2.WinBoard.constructor | adv-4/p2.c:51-72 | a fresh board holds the numbers read, no selection and is not winning |
| Adv4P2.WinBoard.UpdateWinner | adv-4/p2.c:93-108 | answers 1 only on the transition into winning; once set the flag stays set |
| Adv4P2.WinBoard.MarkBoard | adv-4/p2.c:110-124 | the call is selected; the board becomes the last winner exactly when this call made it win, and `has_unwinning` is raised when it still has not won |
| Adv4P2.WinTable | adv-4/p2.c:139-147 | the table of wins has a row for each number of calls and a column per board |
| Adv4P2.WinRows | adv-4/p2.c:139-147 | the first `m` rows of the table are rectangular |
| Adv4P2.WinRowsAt | adv-4/p2.c:139-147 | each entry of the first rows is the win test of that board after that many calls |
| Adv4P2.WinTableAt | adv-4/p2.c:139-147 | each entry of the table is the win test of that board after that many calls |
| Adv4P2.StopFrom | adv-4/p2.c:139-147 | the loop stops at a call within the table |
| Adv4P2.LastBoard | adv-4/p2.c:141-143 | the last board newly winning on a call is among the boards scanned |
| Adv4P2.LastWin | adv-4/p2.c:139-147 | the last win recorded is of a call played and a board read |
| Adv4P2.CellsOfWin | adv-4/p2.c:130 | one cell list per board |
| Adv4P2.MarkedMiss | adv-4/p2.c:110-117 | a call that hits no cell of a board leaves its flags alone |
| Adv4P2.FreshIsPlayed | adv-4/p2.c:134 | fresh boards are marked with no call |
| Adv4P2.NextCall | adv-4/p2.c:139-143 | once every board is marked with call `i`, the next call starts from a uniform state |
| Adv4P2.ScanStepMeaning | adv-4/p2.c:141-143 | after each board the last winner is the last board so far that newly won on this call, and `has_unwinning` is raised exactly when some board so far has not won |
| Adv4P2.PlayBoard | adv-4/p2.c:142 | marking board `j` with call `i` is one step of the table scan |
| Adv4P2.PlayCall | adv-4/p2.c:140-143 | after all boards the last winner is updated as the table says and `has_unwinning` says whether some board has not won |
| Adv4P2.Play | adv-4/p2.c:139-147 | the loop processes calls until the first one after which every board has won, and records the last winner with its winning call |
| Adv4P2.CallStep | adv-4/p2.c:139-147 | one more call advances the winner bookkeeping and the stopping point as the loop does |
| Adv4P2.WinnerAtIsLastWin | adv-4/p2.c:139-147 | the recorded winner is the last (call, board) win in play order, with that call's number |
| Adv4P2.LastWinnerScore | adv-4/p2.c:126-149 | the printed score is that of the board that won last, with its winning call; the trap when there is no board |
| Adv4P2.NothingMarkedNoWin | adv-4/p2.c:51-53 | with nothing selected no board wins |
| Adv4P2.WonAfterMonotone | adv-4/p2.c:110-117 | a board that has won stays won as more numbers are called |
| Adv4P2.WinTableWellFormed | adv-4/p2.c:139-147 | the table of a real game starts with no winner and never loses one |
| Adv4P2.LastBoardIsLast | adv-4/p2.c:141-143 | the last board found is the highest one below `m` that newly wins on the call, and there is none exactly when no board newly wins |
| Adv4P2.StopFromIsFirst | adv-4/p2.c:144-146 | the loop stops after the first call that leaves every board won, or after the last call |
| Adv4P2.NoWinnerIffNoWin | adv-4/p2.c:137-148 | no winner is recorded exactly when no board has won yet |
| Adv4P2.LastWinnerWonLast | adv-4/p2.c:139-148 | when every board has won, the board scored won on the final call and no later board in reading order also won then: it is the last to win |
| Vec2.ComputeGcd | adv-5-rs/src/main.rs:80-92 | the loop computes `Gcd`, which is positive |
| Vec2.EuclidPositive | adv-5-rs/src/main.rs:87-91 | the remainder loop from a positive first argument ends on a positive value |
| Vec2.DivisorOfRemainder | adv-5-rs/src/main.rs:88 | a divisor of `b` divides `a` exactly when it divides `a % b` |
| Vec2.EuclidDivides | adv-5-rs/src/main.rs:87-91 | the loop's result divides both arguments |
| Vec2.EuclidGreatest | adv-5-rs/src/main.rs:87-91 | every common divisor divides the loop's result |
| Vec2.GcdIsGreatestCommonDivisor | adv-5-rs/src/main.rs:80-92 | `gcd` is the greatest common divisor, and 1 for (0, 0) |
| Vec2.QuotExact | adv-5-rs/src/main.rs:67-68 | dividing by an exact divisor loses nothing, whatever the sign |
| Vec2.UnitDiffExact | adv-5-rs/src/main.rs:64-70 | `gcd` copies of the unit step make up the whole difference |
| Vec2.PointsOf | adv-5-rs/src/main.rs:101-113 | a line yields one more point than it has unit steps |
| Vec2.PointsEndAtEnd | adv-5-rs/src/main.rs:101-113 | the points start at `start` and end exactly at `end` |
| Vec2.AxisOrDiagonalLength | adv-5-rs/src/main.rs:101-113 | horizontal, vertical and 45-degree lines yield `max(|dx|, |dy|) + 1` points |
| Vec2.UnitPositive | adv-5-rs/src/main.rs:102-109 | the unit step of a line with `start < end` is positive in the derived order |
| Vec2.ScaledLe | adv-5-rs/src/main.rs:105 | moving `m` positive steps stays at or above the start exactly when `m` is not negative |
| Vec2.ScaleSplit | adv-5-rs/src/main.rs:109 | `k` steps and then `d - k` more are `d` steps |
| Vec2.WalkBound | adv-5-rs/src/main.rs:105 | the test `pos > end` first fails after exactly `Steps + 1` positions |
| Vec2.GetPoints | adv-5-rs/src/main.rs:101-113 | the iterator yields exactly the points of the line |
| Vec2.PointsDistinct | adv-5-rs/src/main.rs:101-113 | a line never yields the same point twice |
| Adv5.Normalise | adv-5-rs/src/main.rs:153-155 | the end points are swapped exactly into order, keeping the line |
| Adv5.Straights | adv-5-rs/src/main.rs:244 | the filter keeps exactly the horizontal and vertical lines |
| Adv5.Record | adv-5-rs/src/main.rs:247-254 | after each point the map records every point seen, and `true` exactly for those seen twice or more |
| Adv5.RecordAll | adv-5-rs/src/main.rs:245-255 | recording the points of one line keeps the map in step with every point seen so far |
| Adv5.CountOverlaps | adv-5-rs/src/main.rs:256-262 | the count is the number of points covered at least twice |
| Adv5.CalcP1 | adv-5-rs/src/main.rs:240-264 | part one counts the overlaps of the horizontal and vertical lines |
| Adv5.CalcP2 | adv-5-rs/src/main.rs:266-289 | part two counts the overlaps of all lines |
| Adv5.DistinctCount | adv-5-rs/src/main.rs:245 | a point occurs at most once in a line's points |
| Adv5.MultiplicityIsLinesThrough | adv-5-rs/src/main.rs:245 | a point occurs in the chained points once per line through it |
| Adv5.OverlapMeansTwoLines | adv-5-rs/src/main.rs:240-289 | a point is counted exactly when at least two lines pass through it |
| Adv5.CollectByStart | adv-5-rs/src/main.rs:116-126 | the set holds one line of every start point and nothing else, whether the first or the last line of a start survives |
| Adv5.ReplaceSameStart | adv-5-rs/src/main.rs:292 | a later line replaces the kept line of its start and no other, keeping the set of starts |
| Adv5.StartsAppend | adv-5-rs/src/main.rs:292 | collecting one more line adds its start |
| Adv5.SameStartDropsOverlap | adv-5-rs/src/main.rs:292 | for (0,0)->(2,0) and (0,0)->(0,2) the set drops one of the two lines, whichever survives, and the overlap at (0,0) is lost |
| Adv5.SharedStartOverlap | adv-5-rs/src/main.rs:292 | two lines from the same start both pass through it, so the start is an overlap when both are walked |
| Adv5.SharedStartDropped | adv-5-rs/src/main.rs:292 | of two lines with one start only one is walked, for any set that keeps one line per start, so their shared start is never counted |
| Adv5.KeepsOne | adv-5-rs/src/main.rs:116-126 | two lines with one start leave exactly one of them: the first when inserted one at a time, the last when built in bulk |
| Adv5.ThroughTwo | adv-5-rs/src/main.rs:245 | a point on two lines is on one of the first and on two of both |
| Adv5.SolveAsWritten | adv-5-rs/src/main.rs:291-295 | `main` as written counts the overlaps of the lines the start-keyed set keeps, for either choice of survivor |
| Adv5.Solve | adv-5-rs/src/main.rs:291-295 | the intended `main` counts the overlaps of every normalised line |
| Adv5.Normalised | adv-5-rs/src/main.rs:140-158 | every line read is normalised and can be walked |
| Matrix.IndexBound | adv-6-rs/src/main.rs:79 | row-major index `row * C + col` stays inside the R×C backing array |
| Matrix.IndexDistinct | adv-6-rs/src/main.rs:79 | distinct (row, col) pairs have distinct row-major indices |
| Matrix.Build | adv-6-rs/src/main.rs:18-20 | an R×C matrix has `R * C` backing entries |
| Matrix.BuildGet | adv-6-rs/src/main.rs:18-20 | entry (row, col) of a built matrix is the defining function at (row, col) |
| Matrix.BuildExt | adv-6-rs/src/main.rs:18-20 | a backing array is determined by its entries |
| Matrix.FirstRows | adv-6-rs/src/main.rs:18-20 | the first R-1 rows of a backing array have the entries of its first R-1 rows |
| Matrix.LastRow | adv-6-rs/src/main.rs:18-20 | the last C backing entries are the last row's entries |
| Matrix.Add | adv-6-rs/src/main.rs:22-34 | the sum is element-wise and keeps the shape |
| Matrix.Sub | adv-6-rs/src/main.rs:36-48 | the difference is element-wise and keeps the shape |
| Matrix.AddThenSub | adv-6-rs/src/main.rs:22-48 | subtracting what was added gives the matrix back |
| Matrix.TransposeStep | adv-19-rs/src/main.rs:56 | one copy into `ret[col * RC + row]` extends the copied prefix by one entry and changes nothing else |
| Matrix.TransposeRow | adv-19-rs/src/main.rs:54-57 | one pass of the outer loop copies row `row` of the matrix into column `row` of the result, extending the copied prefix to the next row |
| Matrix.Transpose | adv-19-rs/src/main.rs:51-63 | the nested loops produce the transpose |
| Matrix.TransposeInvolution | adv-19-rs/src/main.rs:51-63 | transposing twice gives the matrix back |
| Matrix.ProductGet | adv-6-rs/src/main.rs:62-86 | entry (row, col) of the product is the dot product of row `row` and column `col` |
| Matrix.Accumulate | adv-6-rs/src/main.rs:77-80 | the innermost loop leaves the dot product in `ret[row * C + col]` and no other entry changes |
| Matrix.Multiply | adv-6-rs/src/main.rs:62-86 | `matrix_multiply` computes the matrix product |
| Matrix.ProductAssociative | adv-6-rs/src/main.rs:62-86 | matrix multiplication is associative |
| Matrix.EntryAssociative | adv-6-rs/src/main.rs:78-79 | an entry of (ab)c equals the same entry of a(bc) |
| Matrix.LeftEntry | adv-6-rs/src/main.rs:78-79 | an entry of (ab)c is the double sum of triple products, column by column |
| Matrix.RightEntry | adv-6-rs/src/main.rs:78-79 | an entry of a(bc) is the double sum of triple products, row by row |
| Matrix.IdentStep | adv-6-rs/src/main.rs:54 | setting `backing[i * (RC + 1)]` puts the next 1 on the diagonal and changes nothing else |
| Matrix.Ident | adv-6-rs/src/main.rs:51-59 | `ident` builds the identity matrix |
| Matrix.IdentityLeft | adv-6-rs/src/main.rs:51-59 | the identity is neutral on the left |
| Matrix.IdentityRight | adv-6-rs/src/main.rs:51-59 | the identity is neutral on the right |
| Matrix.PowerAdd | adv-6-rs/src/main.rs:88-101 | m^(p+q) is m^p times m^q |
| Matrix.Pow | adv-6-rs/src/main.rs:88-101 | square-and-multiply on `e >> 1` and `e & 1` computes the `e`-th power, the identity for 0 |
| Matrix.PowerLeft | adv-6-rs/src/main.rs:88-101 | m^t is m times m^(t-1) |
| Matrix.PowerSteps | adv-6-rs/src/main.rs:121 | when multiplying by `m` performs one step, multiplying by `m^t` performs `t` steps |
| Adv6.Ticked | adv-6-rs/src/main.rs:103-115 | every fish's timer ticks, in order |
| Adv6.Newborn | adv-6-rs/src/main.rs:111-113 | every newborn starts at timer 8 |
| Adv6.Histogram | adv-6-rs/src/main.rs:130-133 | a school's counts are nine entries |
| Adv6.SimStep | adv-6-rs/src/main.rs:103-115 | one day on nine counts gives nine counts |
| Adv6.CountDay | adv-6-rs/src/main.rs:103-115 | per timer, the fish after a day are those one value up, plus the restarted at 6 and the newborn at 8 |
| Adv6.HistogramDay | adv-6-rs/src/main.rs:103-115 | one day on the counts agrees with one day fish by fish |
| Adv6.TickedInRange | adv-6-rs/src/main.rs:103-115 | timers stay in 0..8 |
| Adv6.HistogramDays | adv-6-rs/src/main.rs:117-123 | after `t` days, the counts agree with `t` days fish by fish and timers stay in range |
| Adv6.StepTotal | adv-6-rs/src/main.rs:103-115 | a day adds one fish per fish at timer 0 |
| Adv6.OneSimGet | adv-6-rs/src/main.rs:103-115 | entry (row, col) of `ONE_SIM` is 1 exactly where count `col` flows into count `row` |
| Adv6.StepEntry | adv-6-rs/src/main.rs:103-115 | row `row` of `ONE_SIM` times the counts is the new count of timer `row` |
| Adv6.OneSimIsStep | adv-6-rs/src/main.rs:103-115 | multiplying nine counts by `ONE_SIM` is one day |
| Adv6.OneSimPower | adv-6-rs/src/main.rs:117-123 | `ONE_SIM^t` times nine counts is `t` days |
| Adv6.SimFor | adv-6-rs/src/main.rs:117-123 | `sim_for` leaves the counts after `time` days |
| Adv6.CountTimers | adv-6-rs/src/main.rs:130-133 | the histogram loop panics exactly on a timer outside 0..8 and otherwise counts each timer |
| Adv6.Solve | adv-6-rs/src/main.rs:129-138 | the answers are the school sizes after 80 and after 256 days; a timer out of range panics |
| Adv6.SumData | adv-6-rs/src/main.rs:125-127 | `sum_data` is the total of the nine counts |
| Adv6.FishTotal | adv-6-rs/src/main.rs:125-127 | the counts of a school add up to its size |
| Adv7.Part1 | adv-7-rs/src/main.rs:129-132 | part one's fuel is never negative and is zero exactly when every crab stands at the middle element |
| Adv7.FuelZero | adv-7-rs/src/main.rs:131 | linear fuel to `pos` is zero exactly when every crab stands at `pos` |
| Adv7.MinFuel | adv-7-rs/src/main.rs:135-140 | the result is reached by a target in the range and no target in the range costs less |
| Adv7.Part2 | adv-7-rs/src/main.rs:134-142 | part two is the least triangular fuel over targets from the first to the last position |
| Adv7.FuelAppend | adv-7-rs/src/main.rs:131-139 | fuel adds up over concatenated crab lists |
| Adv7.FuelRemove | adv-7-rs/src/main.rs:131-139 | taking a crab out of the list takes its own fuel out of the total |
| Adv7.FuelPermutation | adv-7-rs/src/main.rs:146 | the fuel does not depend on the order of the crabs, so sorting changes nothing but the targets chosen |
| Adv7.SortedRange | adv-7-rs/src/main.rs:146-148 | in sorted data the middle element lies between the first and the last, so part two's range is not empty |
| Adv7.Solve | adv-7-rs/src/main.rs:144-150 | part one prices the middle of the sorted data; part two is the least fuel of the input crabs over the sorted range |
| Adv8.OrBits | adv-8-rs/src/main.rs:42-50 | a letter is in the union exactly when it is in either set |
| Adv8.AndBits | adv-8-rs/src/main.rs:58-66 | a letter is in the intersection exactly when it is in both sets |
| Adv8.XorBits | adv-8-rs/src/main.rs:68-76 | a letter is in the XOR exactly when it is in one set and not the other |
| Adv8.LetterCnt | adv-8-rs/src/main.rs:37-39 | `letter_cnt` is 0 exactly for the empty letter set |
| Adv8.CountUnion | adv-8-rs/src/main.rs:37-50 | `letter_cnt` of union plus intersection is the sum of the two counts |
| Adv8.CountXor | adv-8-rs/src/main.rs:68-76 | `letter_cnt` of the XOR is the two counts less twice the shared letters |
| Adv8.TokenLetters | adv-8-rs/src/main.rs:99-110 | a token parses exactly when it holds only `a`..`g`; then it is a 7-bit set holding exactly its letters |
| Adv8.TokenSnoc | adv-8-rs/src/main.rs:99-110 | one more letter a..g adds its own bit to the token's set, which stays below `2^7` |
| Adv8.OrBelow | adv-8-rs/src/main.rs:99-110 | OR-ing values below `2^n` stays below `2^n` |
| Adv8.WordsFrom | adv-8-rs/src/main.rs:93-94 | every token of `\S+` is non-empty and holds no whitespace |
| Adv8.ParseTokens | adv-8-rs/src/main.rs:95-113 | every token but `|` becomes one set |
| Adv8.ParseTokensDefined | adv-8-rs/src/main.rs:95-113 | a line parses exactly when every token other than `|` holds only `a`..`g` (the `panic!` otherwise) |
| Adv8.LastUnique | adv-8-rs/src/main.rs:121-128 | when exactly one pattern matches, the last assignment in the loop stores it |
| Adv8.TrueDigits | adv-8-rs/src/main.rs:117-145 | the table has ten slots |
| Adv8.TableIs | adv-8-rs/src/main.rs:139-143 | slots 9, 2, 5 and 0 follow from slots 1, 3, 4, 6, 7 and 8 by the source's OR and XOR rules |
| Adv8.GetTrueDigits | adv-8-rs/src/main.rs:117-145 | the two passes fill the table `get_true_digits` describes |
| Adv8.CountPass | adv-8-rs/src/main.rs:121-128 | after the first pass slots 1, 4 and 7 hold the last patterns with two, four and three segments, and no other slot changes |
| Adv8.OnePass | adv-8-rs/src/main.rs:130-137 | after the second pass slot 6 holds the last pattern other than 8 that completes 1 to 8, slot 3 the last remaining one three segments away from 1, and no other slot changes |
| Adv8.UniqueCounts | adv-8-rs/src/main.rs:122-127 | on the standard display, 1, 4, 7 and 8 are the only digits with 2, 4, 3 and 7 letters |
| Adv8.UniqueSixThree | adv-8-rs/src/main.rs:130-137 | with 1 known, 6 and 3 are the only digits matching their rules |
| Adv8.StdTable | adv-8-rs/src/main.rs:139-143 | the derived slots come out as the standard 9, 2, 5 and 0 |
| Adv8.StdIdentified | adv-8-rs/src/main.rs:117-145 | from any listing of the ten standard patterns, in any order, the table is the standard one |
| Adv8.CountEasy | adv-8-rs/src/main.rs:150-158 | the count of easy outputs is at most the number of outputs |
| Adv8.EasyDigits | adv-8-rs/src/main.rs:151-157 | on the standard display exactly the digits 1, 4, 7 and 8 have an easy letter count |
| Adv8.CountEasyShown | adv-8-rs/src/main.rs:147-160 | `p1` counts the outputs that show 1, 4, 7 or 8 |
| Adv8.P1Append | adv-8-rs/src/main.rs:147-160 | `p1` adds up line by line |
| Adv8.P1 | adv-8-rs/src/main.rs:147-160 | `p1` is 0 exactly when no line has an output pattern with an easy letter count |
| Adv8.IndexIn | adv-8-rs/src/main.rs:166-174 | `find_map` over `enumerate` gives the first slot holding the pattern, or none when it is absent |
| Adv8.Lookup | adv-8-rs/src/main.rs:165-175 | every output is found in the table at its digit, or some output is missing (the `unwrap` panics) |
| Adv8.SumAllDefined | adv-8-rs/src/main.rs:163-176 | the sum has a value exactly when every line has one |
| Adv8.P2 | adv-8-rs/src/main.rs:162-178 | `p2` has a value exactly when every line decodes (a short line or an output missing from the table panics) |
| Adv8.IndexFirst | adv-8-rs/src/main.rs:166-174 | a pattern no earlier slot holds is found at its own slot |
| Adv8.FoundAt | adv-8-rs/src/main.rs:166-174 | each standard pattern is found at its own digit |
| Adv8.ValueFour | adv-8-rs/src/main.rs:175 | the fold `acc * 10 + v` over four digits spells the number |
| Adv8.DecodeStd | adv-8-rs/src/main.rs:163-176 | a line listing the standard patterns decodes its four outputs to the number they show |
| Adv8.DecodeWith | adv-8-rs/src/main.rs:163-176 | a line decodes to the number its outputs spell once each is found in the table |
| Adv8Opt.DigitsDistinct | adv-8-rs/opt/main.c:12-23 | the ten patterns are distinct non-empty 7-bit values |
| Adv8Opt.XorOfSingle | adv-8-rs/opt/main.c:40 | a single digit XORs to its own pattern, the trivial identity the search skips |
| Adv8Opt.SingleMeansOneDigit | adv-8-rs/opt/main.c:40 | `c & (c - 1) == 0` holds for `c` in 1..1023 exactly when `c` selects one digit |
| Adv8Opt.GuardMeansBelow | adv-8-rs/opt/main.c:38 | the loop guard `c & 1023` is non-zero exactly for `c` below 1024 |
| Adv8Opt.BitAndLowMask | adv-8-rs/opt/main.c:38 | `c & (2^n - 1)` keeps the low `n` bits |
| Adv8Opt.XorSum | adv-8-rs/opt/main.c:41-47 | the XOR loop gives the XOR of the selected digits' patterns |
| Adv8Opt.Match | adv-8-rs/opt/main.c:49-57 | the first digit whose pattern is `base`, or none exists |
| Adv8Opt.FirstMatch | adv-8-rs/opt/main.c:49-57 | the check loop stops at the first digit equal to `base` |
| Adv8Opt.Check | adv-8-rs/opt/main.c:39-57 | a combination is reported exactly when it selects more than one digit and XORs to a digit's pattern, and with that digit |
| Adv8Opt.Search | adv-8-rs/opt/main.c:37-60 | exactly the reported combinations are printed, each once, in increasing order, each with its first matching digit |
| Adv8Opt.CollectExactly | adv-8-rs/opt/main.c:38 | the collected lines are exactly the selected combinations, each once, in increasing order |
| Adv8Opt.ReportedIsIdentity | adv-8-rs/opt/main.c:39-57 | every printed line is a genuine identity of two or more digits |
| Adv8Opt.SetBits | adv-8-rs/opt/main.c:27-34 | the selected digits below `n`, each once, in ascending order |
| Adv8Opt.JoinedSnoc | adv-8-rs/opt/main.c:29-31 | one more digit appends " ^ " and the digit, except for the first |
| Adv8Opt.PrintDigits | adv-8-rs/opt/main.c:25-35 | `print_digits` writes the selected digits in ascending order joined by " ^ " |
| Adv9.Digits | adv-9-rs/src/main.rs:123-125 | a line yields at most one height per character, each below 10 |
| Adv9.DigitsOfDigitLine | adv-9-rs/src/main.rs:123-125 | a line of digits is read digit for digit |
| Adv9.GetDigBound | adv-9-rs/src/main.rs:127-134 | the height inside the (possibly ragged) rows, 255 for a negative or outside position |
| Adv9.GetAdjacent | adv-9-rs/src/main.rs:136-146 | every neighbour yielded lies inside the grid |
| Adv9.AdjacentExact | adv-9-rs/src/main.rs:136-146 | exactly the orthogonal neighbours inside the grid are yielded |
| Adv9.AllAboveMeans | adv-9-rs/src/main.rs:173-174 | the `all` test holds exactly when every neighbour listed is higher |
| Adv9.LowIsLocalMinimum | adv-9-rs/src/main.rs:173-174 | a low point is lower than every orthogonal neighbour inside the grid, and conversely |
| Adv9.RowLowsExact | adv-9-rs/src/main.rs:172-179 | a row's list holds exactly its low points left of `x` |
| Adv9.RowLowsOrdered | adv-9-rs/src/main.rs:172-179 | a row's low points are listed left to right |
| Adv9.LowsExact | adv-9-rs/src/main.rs:171-180 | the list holds exactly the grid's low points, in row-major order |
| Adv9.RiskSumAppend | adv-9-rs/src/main.rs:176 | the risk sum adds up over concatenated lists |
| Adv9.Part1 | adv-9-rs/src/main.rs:165-181 | the part-one loops collect the low points in row-major order and sum one plus each one's height |
| Adv9.ScanRow | adv-9-rs/src/main.rs:172-179 | one row of the part-one scan appends that row's low points left to right and adds their risk |
| Adv9.Drains | adv-9-rs/src/main.rs:154-157 | the filter keeps exactly the in-grid neighbours at least as high and not 9 |
| Adv9.BasinUnique | adv-9-rs/src/main.rs:148-161 | a start has one basin |
| Adv9.BasinHasNoNine | adv-9-rs/src/main.rs:156 | apart from its start, a basin holds no 9 |
| Adv9.DiscoveredInClosed | adv-9-rs/src/main.rs:152-159 | every visited cell lies in every step-closed set holding the start |
| Adv9.DiscoveredSnoc | adv-9-rs/src/main.rs:153 | visiting a queued cell keeps every visited cell reachable from the start |
| Adv9.LinkedSnoc | adv-9-rs/src/main.rs:152-157 | popping a cell and queueing its steps keeps every queued cell a step from a visited one |
| Adv9.FrontierSnoc | adv-9-rs/src/main.rs:152-157 | after a visit, every step out of a visited cell is visited or queued |
| Adv9.FindDrainsTo | adv-9-rs/src/main.rs:148-161 | the flood returns exactly the cells reachable from the start by uphill steps that avoid 9 |
| Adv9.SizesSnoc | adv-9-rs/src/main.rs:188 | one more basin appends its size |
| Adv9.AtLeastSnoc | adv-9-rs/src/main.rs:189-198 | one more size adds one to the count of sizes at least `t` exactly when it is at least `t` |
| Adv9.KeepTopThree | adv-9-rs/src/main.rs:189-198 | one step of the shifting comparisons keeps the three largest sizes seen |
| Adv9.Offer | adv-9-rs/src/main.rs:189-198 | the if-chain on `max_1`, `max_2`, `max_3` leaves the three largest sizes of the list extended by `n` |
| Adv9.TopThreeStart | adv-9-rs/src/main.rs:184-186 | with nothing seen all three maxima are the zero filler |
| Adv9.Part2 | adv-9-rs/src/main.rs:184-200 | every low point is flooded to its basin, the three largest sizes are kept and the answer is their product |
| Adv10.BracketExact | adv-10-rs/src/main.rs:123-135 | exactly the eight bracket characters are recognised, each as the entry it is written as |
| Adv10.BracketGlyph | adv-10-rs/src/main.rs:123-135 | every entry is recognised from its own character |
| Adv10.ReadLineAppend | adv-10-rs/src/main.rs:123-135 | reading distributes over concatenation |
| Adv10.ReadLineDropsOther | adv-10-rs/src/main.rs:133 | a character other than a bracket is dropped wherever it stands |
| Adv10.ReadRender | adv-10-rs/src/main.rs:122-136 | writing entries out and reading them back gives the entries |
| Adv10.CheckAppend | adv-10-rs/src/main.rs:158-176 | scanning a concatenation scans the second part from the stack the first left, unless the first is corrupted |
| Adv10.Check | adv-10-rs/src/main.rs:158-176 | the scan reports a line corrupted only at a closer kind the line contains, and leaves no more openers than the stack and the line can hold |
| Adv10.OpensPush | adv-10-rs/src/main.rs:161-163 | openers are pushed in order |
| Adv10.StackIsUnmatched | adv-10-rs/src/main.rs:158-176 | on an intact line the stack holds exactly the unmatched openers: the line behaves like them alone |
| Adv10.CorruptAt | adv-10-rs/src/main.rs:164-173 | a line is corrupted by closer kind `t` exactly when some intact prefix is followed by a mismatching closer `t` |
| Adv10.CorruptIndex | adv-10-rs/src/main.rs:164-173 | a corrupted scan stops at a closer `t` that does not match the top of the stack or meets an empty one |
| Adv10.ClosersPop | adv-10-rs/src/main.rs:177-186 | the closers of a stack, top first, pop it |
| Adv10.CompletionBalances | adv-10-rs/src/main.rs:177-186 | appending the completion of an intact line balances it |
| Adv10.Points | adv-10-rs/src/main.rs:180-185 | each completing closer scores 1 to 4 |
| Adv10.ErrorScore | adv-10-rs/src/main.rs:166-171 | every corrupted line adds at least 3 points to the syntax error score |
| Adv10.CompletionScore | adv-10-rs/src/main.rs:177-186 | the base-5 completion score of the stack is 0 exactly when the stack is empty: a balanced line scores 0, and only a balanced line |
| Adv10.CompletionScoreInjective | adv-10-rs/src/main.rs:177-186 | different stacks never score the same |
| Adv10.ScanLine | adv-10-rs/src/main.rs:158-175 | the stack scan of one line gives the line's verdict: the first closer that does not match the top of the stack, or else the openers left on the stack |
| Adv10.Complete | adv-10-rs/src/main.rs:177-186 | popping the stack and scoring each closer owed in base 5 gives the completion score of the openers left |
| Adv10.ScoreLines | adv-10-rs/src/main.rs:155-188 | the line loop sums the error points of corrupted lines (3/57/1197/25137) and lists the completion score of every other line |
| Adv10.SortedUnique | adv-10-rs/src/main.rs:189 | a sorted arrangement of the scores is unique |
| Adv10.CountLessBound | adv-10-rs/src/main.rs:191 | in sorted scores, fewer than `m + 1` lie below the entry at `m` |
| Adv10.CountAtMostBound | adv-10-rs/src/main.rs:191 | in sorted scores, at least `m + 1` lie at or below the entry at `m` |
| Adv10.Median | adv-10-rs/src/main.rs:189-191 | the answer is a score with at most half the scores below it and more than half at or below it |
| Adv11.Adjacent | adv-11-rs/src/main.rs:45-57 | at most eight neighbours, all on the 10×10 grid |
| Adv11.AdjacentCount | adv-11-rs/src/main.rs:45-57 | each on-grid cell one king's move away is listed exactly once, and nothing else, never the cell itself |
| Adv11.AdjacentExact | adv-11-rs/src/main.rs:45-57 | the neighbours are exactly the on-grid cells one king's move away |
| Adv11.Put | adv-11-rs/src/main.rs:62-64 | writing one cell changes that cell and no other |
| Adv11.CountAtMark | adv-11-rs/src/main.rs:80-81 | marking one more cell with `t` adds one to the count of a list holding it once |
| Adv11.PutGrows | adv-11-rs/src/main.rs:60-69 | no write touches a 10, and turning a 9 into 10 flashes one more cell |
| Adv11.LevelRange | adv-11-rs/src/main.rs:61-68 | every level stays in 0..10 during a tick |
| Adv11.StepBump | adv-11-rs/src/main.rs:62 | a level below 9 takes its increment |
| Adv11.StepFlash | adv-11-rs/src/main.rs:63-66 | a 9 becomes 10 and owes one increment to each neighbour |
| Adv11.StepIgnore | adv-11-rs/src/main.rs:67 | a cell that already flashed ignores its increment |
| Adv11.IncPos | adv-11-rs/src/main.rs:60-69 | `inc_pos` delivers its increment and every increment owed by the cells flashing on the way, and no flashed cell changes again |
| Adv11.IncEach | adv-11-rs/src/main.rs:65 | the `for_each` delivers one increment to each neighbour in order |
| Adv11.IncNext | adv-11-rs/src/main.rs:65 | one neighbour's increment is delivered, the increments still owed stay balanced, and flashed cells stay flashed |
| Adv11.UnflashedShrinks | adv-11-rs/src/main.rs:60-69 | cells only ever become 10, so each cell flashes at most once per tick |
| Adv11.Cells | adv-11-rs/src/main.rs:71-79 | the scan visits cell `k` at row `k / 10`, column `k % 10` |
| Adv11.Flashes | adv-11-rs/src/main.rs:77-86 | a tick flashes at most 100 cells |
| Adv11.AllInOrderCount | adv-11-rs/src/main.rs:71-74 | the scan lists every cell of the grid exactly once |
| Adv11.StartBalanced | adv-11-rs/src/main.rs:59 | at the start of a tick nothing has flashed and nothing is owed |
| Adv11.BaseBump | adv-11-rs/src/main.rs:73 | the scan hands the next cell its increment |
| Adv11.Finish | adv-11-rs/src/main.rs:77-86 | after the cascade, resetting the 10s to 0 leaves levels in 0..9 that obey the flash rule, and counts the flashes |
| Adv11.RaiseAll | adv-11-rs/src/main.rs:71-75 | the raising scan delivers one increment to every cell plus every flash's increments |
| Adv11.RaiseOne | adv-11-rs/src/main.rs:73 | `inc_pos` on cell number `n` in scan order keeps the books balanced and extends the raised prefix by that cell |
| Adv11.RaiseRow | adv-11-rs/src/main.rs:72-74 | one row of the raising scan keeps the books balanced and raises the levels of that row's cells by one |
| Adv11.ResetCell | adv-11-rs/src/main.rs:80-83 | one cell of the counting scan resets a 10 and counts it |
| Adv11.ResetFlashed | adv-11-rs/src/main.rs:77-85 | each 10 becomes 0 and is counted; every other level stays |
| Adv11.ResetOne | adv-11-rs/src/main.rs:80-83 | one step of the counting scan extends the reset prefix and the count of 10s by one cell in scan order |
| Adv11.ResetRow | adv-11-rs/src/main.rs:79-84 | one row of the counting scan resets the 10s of that row to 0 and adds their number to the count |
| Adv11.Tick | adv-11-rs/src/main.rs:59-87 | after `tick` every level is in 0..9 and obeys the flash rule, and the result is the number of cells that flashed |
| Adv11.TotalFlashesBound | adv-11-rs/src/main.rs:92 | `t` ticks flash at most `100 * t` cells |
| Adv11.FlashesAll | adv-11-rs/src/main.rs:95 | a tick flashes all 100 cells exactly when it leaves every level at 0 |
| Adv11.CountAtFull | adv-11-rs/src/main.rs:95 | a count reaches the list's length exactly when every listed cell holds the level |
| Adv11.Part1 | adv-11-rs/src/main.rs:92 | part one is the total of the flashes of a run of one hundred ticks, each of which obeys the flash rule |
| Adv11.TotalFlashesSnoc | adv-11-rs/src/main.rs:92 | one more tick adds its flashes |
| Adv11.TickOn | adv-11-rs/src/main.rs:94 | one tick of the loop condition extends the run by the next grid and answers its flash count; short of 100, no tick so far flashed every cell |
| Adv11.Part2 | adv-11-rs/src/main.rs:94-97 | part two is the number of the first tick after the hundredth that flashes every cell, in a run whose every tick obeys the flash rule |
| Adv12.WithoutExact | adv-12-rs/src/main.rs:134-138 | `without` keeps exactly the edges touching neither end at `n` |
| Adv12.WithoutShrinks | adv-12-rs/src/main.rs:134-138 | removing a cave that has an edge drops at least one edge |
| Adv12.Without | adv-12-rs/src/main.rs:134-138 | filtering the edge list never makes it longer |
| Adv12.ReachableExact | adv-12-rs/src/main.rs:120-132 | `reachable_from` lists exactly the targets of edges leaving `n` |
| Adv12.Reachable | adv-12-rs/src/main.rs:120-132 | no more targets than edges are listed |
| Adv12.NextStates | adv-12-rs/src/main.rs:76-117 | one or two continuations |
| Adv12.NextStatesKeep | adv-12-rs/src/main.rs:82-114 | a big cave keeps state and edges; the start, and a small cave under `NoTwice`, lose their edges and keep the state |
| Adv12.NextStatesBranch | adv-12-rs/src/main.rs:92-97 | `CanTwice` leaving a small cave branches into `(CanTwice, without)` and `(Needs(from), paths)` |
| Adv12.NextStatesNeeds | adv-12-rs/src/main.rs:98-109 | `Needs(n)` becomes `NoTwice` exactly on leaving `n` and stays `Needs(n)` otherwise; the cave's edges go either way |
| Adv12.NextSmaller | adv-12-rs/src/main.rs:156-167 | every continuation after an edge is smaller, so the recursion ends |
| Adv12.Count | adv-12-rs/src/main.rs:140-169 | at `end` one route is counted, none while the branch still needs its second visit (`is_needy`); a cave with no edge out counts no route |
| Adv12.FindPathCnt | adv-12-rs/src/main.rs:140-169 | the loops sum the route counts of every target and continuation |
| Adv12.StepCount | adv-12-rs/src/main.rs:158-166 | the inner loop sums the route counts from the target over every continuation state |
| Adv12.CountMono | adv-12-rs/src/main.rs:171-176 | with the second visit available there are at least as many routes as without |
| Adv12.NeedsDead | adv-12-rs/src/main.rs:148-154 | a `Needs(n)` branch with no edge left into `n` counts nothing, so routes without a second visit are counted once |
| Adv12.StripNewline | adv-12-rs/src/main.rs:34 | the trailing newline is removed when there is one |
| Adv12.PairsPrefix | adv-12-rs/src/main.rs:32-34 | the lines read so far parse to the prefix of the pairs |
| Adv12.DedupExact | adv-12-rs/src/main.rs:37-48 | every name gets an id and nothing else does |
| Adv12.DedupDistinct | adv-12-rs/src/main.rs:37-48 | different names get different ids |
| Adv12.DedupOrder | adv-12-rs/src/main.rs:37-48 | ids follow first appearance in the input |
| Adv12.Index | adv-12-rs/src/main.rs:37-48 | a known name's id names it |
| Adv12.BigFlags | adv-12-rs/src/main.rs:40-46 | `can_multi` is true exactly for the names that begin upper case |
| Adv12.EdgesBothWays | adv-12-rs/src/main.rs:49-50 | each line `a-b` is stored as `a -> b` followed by `b -> a` |
| Adv12.ReadSpec | adv-12-rs/src/main.rs:27-58 | what `read_data` returns is a well-numbered graph |
| Adv12.Intern | adv-12-rs/src/main.rs:37-48 | a name is looked up, or given the next id with its big flag; an empty new name fails |
| Adv12.PanicSplit | adv-12-rs/src/main.rs:33 | a line without `-` makes `read_data` panic |
| Adv12.PanicName | adv-12-rs/src/main.rs:40-46 | an empty new name makes `read_data` panic |
| Adv12.ReadStep | adv-12-rs/src/main.rs:32-50 | one line interns both names and pushes both edges |
| Adv12.ReadAdvance | adv-12-rs/src/main.rs:32-50 | after line `i` the tables cover one more line |
| Adv12.ReadEnd | adv-12-rs/src/main.rs:52-57 | after the last line, `read_data` succeeds exactly when `start` and `end` are known |
| Adv12.ReadData | adv-12-rs/src/main.rs:27-58 | the loop computes what `read_data` returns, failing where it panics |
| Adv12.ReadSpecBothWays | adv-12-rs/src/main.rs:49-50 | each line of the input is stored as an edge followed by its reverse |
| Adv12.Solve | adv-12-rs/src/main.rs:171-176 | both answers count routes from `start` to `end`, part two never fewer than part one; fails exactly where `read_data` panics |
| Adv13.Reflect | adv-13-rs/src/main.rs:52-58 | a reflected coordinate lies on the near side at the same distance from the line |
| Adv13.ReflectIdempotent | adv-13-rs/src/main.rs:52-58 | reflecting twice is reflecting once |
| Adv13.ReflectPreimage | adv-13-rs/src/main.rs:52-58 | exactly `b` and its mirror land on `b` |
| Adv13.MoveAxis | adv-13-rs/src/main.rs:60-69 | `Up(n)` moves only `y` and `Left(n)` only `x`, onto the near side |
| Adv13.ApplyFold | adv-13-rs/src/main.rs:60-69 | the folded set holds exactly the moved dots |
| Adv13.ApplyFoldCard | adv-13-rs/src/main.rs:60-69 | folding never adds dots |
| Adv13.ApplyFoldIdempotent | adv-13-rs/src/main.rs:60-69 | folding twice along the same line is folding once |
| Adv13.FoldAllBounded | adv-13-rs/src/main.rs:151-155 | after all the folds every dot lies on the near side of every fold line |
| Adv13.FoldKeepsBound | adv-13-rs/src/main.rs:153-155 | a dot on the near side of a line stays there through any later folds |
| Adv13.FoldRest | adv-13-rs/src/main.rs:153-155 | the loop applies the remaining folds in order |
| Adv13.Part1 | adv-13-rs/src/main.rs:151-152 | part one is the number of dots after the first fold, at most the number before |
| Adv13.GetDims | adv-13-rs/src/main.rs:71-79 | one more than the largest `x` and `y`, which some dot attains, and (1, 1) for no dots |
| Adv14.IncBy | adv-14-rs/src/main.rs:46-55 | the key gains `v` on top of its previous count (inserted when absent); every other key's count is unchanged |
| Adv14.IncByHolds | adv-14-rs/src/main.rs:46-55 | if the map held multiset `b`, after `inc_by` it holds `b` plus `v` copies of the key |
| Adv14.ScaleOne | adv-14-rs/src/main.rs:46-55 | `v` copies of one key hold that key `v` times and nothing else |
| Adv14.IncByPositive | adv-14-rs/src/main.rs:46-55 | `inc_by` keeps every stored count positive when it was |
| Adv14.Chain.Init | adv-14-rs/src/main.rs:62-78 | the counts are exactly the multiset of the chain's pairs (front marker, each adjacent pair, back marker); an empty chain gives an empty map |
| Adv14.CountPairs | adv-14-rs/src/main.rs:68-73 | the loop builds positive counts holding exactly the pairs of the chain |
| Adv14.CountStep | adv-14-rs/src/main.rs:70-72 | one iteration appends the next adjacent pair and the counts follow |
| Adv14.Chain.ApplyMap | adv-14-rs/src/main.rs:80-95 | the new counts hold the sum, over the old keys, of each key's expansion scaled by its old count |
| Adv14.Chain.Credit | adv-14-rs/src/main.rs:84-93 | one old key with count `n` adds `n` copies of its expansion (two pairs with a rule, itself without one, markers copied) |
| Adv14.CreditRule | adv-14-rs/src/main.rs:85-89 | a ruled pair's count `n` goes to the two pairs its rule makes, and every stored count stays positive |
| Adv14.CreditSame | adv-14-rs/src/main.rs:90-92 | a pair without a rule keeps its count `n`; an end marker not stored yet is stored with exactly `n` |
| Adv14.VisitStep | adv-14-rs/src/main.rs:83 | visiting one more key adds exactly that key's scaled expansion, so the HashMap's iteration order does not matter |
| Adv14.SentinelFresh | adv-14-rs/src/main.rs:91-93 | an end marker is never produced by another key's expansion, so `insert` in place of `inc_by` loses nothing |
| Adv14.Expand | adv-14-rs/src/main.rs:84-93 | a key expands into two pairs when a rule applies to it and into one otherwise |
| Adv14.FoldBagRemove | adv-14-rs/src/main.rs:83 | the total over a key set is the total without one key plus that key's share, in any order |
| Adv14.Grouping | adv-14-rs/src/main.rs:83 | summing per distinct key weighted by its count equals summing over the pair sequence itself |
| Adv14.HoldsDecrement | adv-14-rs/src/main.rs:83 | a map holding the pairs of a sequence holds the rest of it once the first pair's count drops by one |
| Adv14.FoldBagDecrement | adv-14-rs/src/main.rs:83 | one count less of a key takes one copy of its contribution out of the per-key sum |
| Adv14.InsertPairs | adv-14-rs/src/main.rs:84-90 | the inner pairs of the grown polymer are the expansion of the old inner pairs |
| Adv14.PairsInsert | adv-14-rs/src/main.rs:80-95 | with the end markers, the pairs of the grown polymer are exactly the expansion of the old pairs |
| Adv14.InsertLength | adv-14-rs/src/main.rs:84-90 | one step grows the polymer by exactly one letter per ruled adjacent pair |
| Adv14.StepTotal | adv-14-rs/src/main.rs:80-95 | the total count after a step is the old total plus the count of ruled pairs |
| Adv14.StepRepresents | adv-14-rs/src/main.rs:147-153 | one `apply_map` on counts standing for polymer `p` gives counts standing for the grown polymer |
| Adv14.InnerLetters | adv-14-rs/src/main.rs:99-106 | the letters of the inner pairs plus the two end letters count every letter twice |
| Adv14.InnerBag | adv-14-rs/src/main.rs:99-106 | the letters of a polymer's inner pairs are those of its first pair plus those of the inner pairs of the rest |
| Adv14.DoubleCount | adv-14-rs/src/main.rs:99-106 | putting a letter before a polymer adds its first pair and moves the front end letter, so every letter is still counted twice |
| Adv14.PairsLetters | adv-14-rs/src/main.rs:99-106 | with the end markers, the letters of all pairs are exactly every letter of the polymer twice |
| Adv14.AddLetters | adv-14-rs/src/main.rs:99-106 | crediting one key adds its letters, each `n` times, keeping counts positive |
| Adv14.MaxMin | adv-14-rs/src/main.rs:107-118 | the scan returns the largest and smallest multiplicity of the credited letters |
| Adv14.Chain.GetChainScore | adv-14-rs/src/main.rs:97-120 | the score is half the difference between the largest and smallest letter credit |
| Adv14.SpreadHalf | adv-14-rs/src/main.rs:119 | when every multiplicity is doubled, both extremes are even and halving the gap gives the true gap |
| Adv14.ScoreOfPolymer | adv-14-rs/src/main.rs:119 | on counts of a polymer the halved gap is exactly most-common minus least-common letter count |
| Adv14.Run | adv-14-rs/src/main.rs:143-155 | after `n` rounds (10 and 40 in `main`) the score is the letter-count gap of the polymer grown `n` times |
| Adv14.Track | adv-14-rs/src/main.rs:124-127 | the tally holds exactly the letters of the chain |
| Adv14.GetCharMax | adv-14-rs/src/main.rs:123-131 | returns the largest letter multiplicity of the chain |
| Adv14.GetCharMin | adv-14-rs/src/main.rs:133-141 | returns the smallest letter multiplicity of the chain |
| Adv15.PosProduct | adv-15-rs/src/main.rs:24-26 | the recursive row offset is `cols*y + x`, the index the slice uses |
| Adv15.CellIndex | adv-15-rs/src/main.rs:24-26 | a cell inside the grid lies in its row's slice, which lies inside the backing vector |
| Adv15.CellInjective | adv-15-rs/src/main.rs:24-26 | distinct cells of the grid use distinct backing positions |
| Adv15.Grid.Row | adv-15-rs/src/main.rs:21-27 | row `y` is a slice of exactly `cols` values |
| Adv15.GetAt | adv-15-rs/src/main.rs:21-33 | `grid[y][x]` reads backing position `cols*y + x` |
| Adv15.Grid.Set | adv-15-rs/src/main.rs:29-33 | writing through `index_mut` keeps the shape |
| Adv15.SetGet | adv-15-rs/src/main.rs:29-33 | after writing a cell, that cell reads the new value and every other cell reads its old value |
| Adv15.Grid.CopyMap | adv-15-rs/src/main.rs:36-42 | the mapped grid has the same shape |
| Adv15.CopyMapAt | adv-15-rs/src/main.rs:36-42 | each cell of the mapped grid is `f` of the same cell |
| Adv15.FromIterator | adv-15-rs/src/main.rs:44-60 | the row count is the number of lines, the column count the first line's length (0 without lines), the backing vector the lines concatenated |
| Adv15.FlattenAt | adv-15-rs/src/main.rs:48-49 | in the concatenation of equal-length rows, position `cols*y + x` holds row `y`'s element `x` |
| Adv15.FlattenLength | adv-15-rs/src/main.rs:48-49 | equal-length rows concatenate to `rows*cols` elements |
| Adv15.FromRows | adv-15-rs/src/main.rs:44-60 | for rectangular input the grid is well formed and every cell reads the matching line entry |
| Adv15.Grid.Adjacent | adv-15-rs/src/main.rs:62-69 | every neighbour of a cell inside the grid is inside the grid |
| Adv15.AdjacentExact | adv-15-rs/src/main.rs:62-69 | a cell is listed exactly when it is inside the grid and one orthogonal step away; at most four are listed |
| Adv15.AdjacentNonEmpty | adv-15-rs/src/main.rs:62-69 | in a grid of two or more cells every cell has a neighbour, so `min().unwrap()` cannot fail |
| Adv15.Table | adv-15-rs/src/main.rs:81-83 | the generated rows form a `rows` x `cols` table whose entry `(y, x)` is `f(y, x)` |
| Adv15.WithSizeAt | adv-15-rs/src/main.rs:77-85 | the generated grid is well formed and each cell is `f` of its coordinates |
| Adv15.SatAdd | adv-15-rs/src/main.rs:102-104 | the checked addition returns the exact sum unless it passes `usize::MAX`, where it saturates |
| Adv15.MinOf | adv-15-rs/src/main.rs:105 | the minimum is one of the values and no larger than any of them |
| Adv15.RelaxMeaning | adv-15-rs/src/main.rs:96-106 | the recomputed score is no more than going through any neighbour, and equals going through some neighbour |
| Adv15.RelaxMono | adv-15-rs/src/main.rs:96-106 | lowering neighbour scores can only lower the recomputed score |
| Adv15.RelaxLocal | adv-15-rs/src/main.rs:96-106 | the recomputed score depends only on the neighbours' scores |
| Adv15.InitScores | adv-15-rs/src/main.rs:90-91 | the all-`MAX` start is above every recomputation, and only the queued corner can be unsettled |
| Adv15.UpdateStep | adv-15-rs/src/main.rs:108-111 | a changed score strictly drops, stays above every recomputation, and the only cells that can become unsettled are queued |
| Adv15.RelaxSelf | adv-15-rs/src/main.rs:108-110 | writing a cell does not change that cell's own recomputation |
| Adv15.Untouched | adv-15-rs/src/main.rs:108-110 | writing a cell does not change the recomputation of a cell that is not its neighbour |
| Adv15.PopSettled | adv-15-rs/src/main.rs:93-108 | a popped cell whose score is unchanged is settled, so it leaves the queue |
| Adv15.TotalSet | adv-15-rs/src/main.rs:109 | the sum of scores changes by exactly the written difference |
| Adv15.LowerOne | adv-15-rs/src/main.rs:108-109 | lowering one score lowers the sum of scores, which bounds the loop |
| Adv15.CheapestPath | adv-15-rs/src/main.rs:89-115 | the loop terminates; the result, at most `usize::MAX`, is the top-left score of a grid where every cell equals its recomputation |
| Adv15.FixpointCorner | adv-15-rs/src/main.rs:96-97 | at the fixed point the bottom-right corner scores 0 |
| Adv15.FixpointBelowPath | adv-15-rs/src/main.rs:89-115 | at the fixed point a cell's score is at most the risk of any path from it to the corner |
| Adv15.Split | adv-15-rs/src/main.rs:160-163 | the remainder is below the divisor |
| Adv15.SplitIsDivMod | adv-15-rs/src/main.rs:160-163 | the split is the quotient and remainder of the division |
| Adv15.SplitSum | adv-15-rs/src/main.rs:160-163 | quotient times divisor plus remainder rebuilds the coordinate |
| Adv15.Raise | adv-15-rs/src/main.rs:164 | a risk raised by any number of tiles is still a digit 1-9 |
| Adv15.RaiseStep | adv-15-rs/src/main.rs:164 | raising once more adds one and wraps 9 to 1 |
| Adv15.Tile | adv-15-rs/src/main.rs:159-165 | every risk of the tiled grid is a digit 1-9 |
| Adv15.TileDown | adv-15-rs/src/main.rs:159-165 | one tile further down every risk goes up by one, 9 wrapping to 1 |
| Adv15.TileRight | adv-15-rs/src/main.rs:159-165 | one tile further right every risk goes up by one, 9 wrapping to 1 |
| Adv15.TileGridAt | adv-15-rs/src/main.rs:156-165 | the tiled grid has five times the rows and columns and each cell is the tile formula |
| Adv15.ParseLine | adv-15-rs/src/main.rs:133-137 | keeps at most the line's characters, each a value 0-9 |
| Adv15.ParseDigits | adv-15-rs/src/main.rs:133-137 | a line of digits followed by a newline parses to the digit values in order |
| Adv15.Solve | adv-15-rs/src/main.rs:154-169 | both answers are fixed-point top-left scores: part 1 of the read grid, part 2 of its five-fold tiling |
| Adv16.Load | adv-16-rs/src/main.rs:128-129 | `load_be` reads `w` bits as a big-endian number below 2^w |
| Adv16.LoadToBits | adv-16-rs/src/main.rs:128-129 | reading back a number written in enough bits gives the number |
| Adv16.ToBitsLoad | adv-16-rs/src/main.rs:52-56 | writing a loaded field back in its width gives the same bits |
| Adv16.LoadAppend | adv-16-rs/src/main.rs:128-129 | a big-endian field of concatenated bits is the front part shifted past the back part, plus the back part |
| Adv16.HexValue | adv-16-rs/src/main.rs:41-49 | an accepted byte has a value below 16 |
| Adv16.HexValueExact | adv-16-rs/src/main.rs:41-49 | a byte is accepted with value `d` exactly when it is the upper-case hex digit for `d`; all other bytes are dropped |
| Adv16.HexBits | adv-16-rs/src/main.rs:35-58 | the expansion has four bits per accepted digit |
| Adv16.HexBitsValue | adv-16-rs/src/main.rs:35-58 | the expansion has four bits per accepted digit, most significant first, and read whole it is the hex number the line spells |
| Adv16.HexString | adv-16-rs/src/main.rs:35-58 | bits whose length is a multiple of four become one hex character per four bits |
| Adv16.HexRoundTrip | adv-16-rs/src/main.rs:35-58 | expanding the hex text of some bits gives the bits back |
| Adv16.Literal | adv-16-rs/src/main.rs:132-149 | the literal loop consumes a whole number of 5-bit groups (at least one), yields a value below 2^64, and panics (`None`) when the bits run out |
| Adv16.Single | adv-16-rs/src/main.rs:127-179 | a decoded packet has 3-bit version and type, a `u64` literal or a non-4 operator type, and the remainder is a proper suffix of the input |
| Adv16.Many | adv-16-rs/src/main.rs:115-125 | length type 1 decodes exactly `n` packets and returns a suffix of the input |
| Adv16.All | adv-16-rs/src/main.rs:103-113 | length type 0 decodes packets until its `size` bits are used up |
| Adv16.ReadLiteral | adv-16-rs/src/main.rs:133-142 | the cursor loop computes the literal specification |
| Adv16.ParseSinglePacket | adv-16-rs/src/main.rs:127-179 | the cursor-walking parser returns exactly what the specification decodes, panicking on the same inputs |
| Adv16.ManyStep | adv-16-rs/src/main.rs:116-120 | decoding one more packet moves it from the remaining count to the collected list |
| Adv16.ParseNPackets | adv-16-rs/src/main.rs:115-125 | the loop over `0..n` returns exactly the specified `n` packets and remainder |
| Adv16.PrefixedNone | adv-16-rs/src/main.rs:116 | with nothing collected yet, the packets still to decode are the whole answer |
| Adv16.AllStep | adv-16-rs/src/main.rs:104-111 | decoding one more packet moves it from the remaining bits to the collected list |
| Adv16.ParseAllPackets | adv-16-rs/src/main.rs:103-113 | the loop until the slice is empty returns exactly the specified packets |
| Adv16.Nibbles | adv-16-rs/src/main.rs:132-149 | a value has at least one hex digit, each below 16 |
| Adv16.Groups | adv-16-rs/src/main.rs:132-149 | the literal groups take five bits per digit |
| Adv16.ShiftedNibbles | adv-16-rs/src/main.rs:137 | accumulating the hex digits of a value by `acc << 4 \| n` rebuilds the value |
| Adv16.LiteralGroups | adv-16-rs/src/main.rs:132-149 | the literal loop reads groups back as the concatenation of their 4-bit payloads and stops exactly after the group whose lead bit is clear |
| Adv16.LiteralHead | adv-16-rs/src/main.rs:133-142 | the first group of an encoded literal is read as its digit, and the loop stops after it exactly when it is the last group |
| Adv16.LiteralStep | adv-16-rs/src/main.rs:133-142 | one pass of the literal loop shifts the four payload bits into the value and continues exactly when the lead bit is set |
| Adv16.GroupsParts | adv-16-rs/src/main.rs:133-142 | an encoded group is a continuation flag set exactly when more groups follow, then the digit's four bits, then the remaining bits |
| Adv16.SingleRoundTrip | adv-16-rs/src/main.rs:127-179 | decoding the encoding of any packet the format can carry, followed by anything, gives the packet and exactly what followed |
| Adv16.LitRoundTrip | adv-16-rs/src/main.rs:128-149 | a literal's header and groups decode to the literal |
| Adv16.CountRoundTrip | adv-16-rs/src/main.rs:151-163 | an operator with an 11-bit sub-packet count decodes to itself |
| Adv16.SizeRoundTrip | adv-16-rs/src/main.rs:164-177 | an operator with a 15-bit body length decodes to itself and resumes right after its body |
| Adv16.ManyRoundTrip | adv-16-rs/src/main.rs:115-125 | decoding `n` packets from their encodings gives them back with the rest untouched |
| Adv16.ManyCons | adv-16-rs/src/main.rs:115-125 | a packet decoded by `parse_single_packet`, followed by the other `n - 1`, makes the `n` packets of length type 1 |
| Adv16.BodyCons | adv-16-rs/src/main.rs:115-125 | the encodings of a list of sub-packets are the first one's encoding followed by the others' |
| Adv16.AllRoundTrip | adv-16-rs/src/main.rs:103-113 | decoding exactly the bits of some encodings gives those packets back |
| Adv16.VersionSum | adv-16-rs/src/main.rs:77-82 | part 1 is the sum of every version field in the tree (listed by `Versions` in pre-order), each counted once |
| Adv16.SumVersions | adv-16-rs/src/main.rs:79 | the children's version sums add up to the sum of all their versions, in pre-order |
| Adv16.Least | adv-16-rs/src/main.rs:91 | `min` is one of the values and no larger than any |
| Adv16.Greatest | adv-16-rs/src/main.rs:92 | `max` is one of the values and no smaller than any |
| Adv16.Values | adv-16-rs/src/main.rs:89-95 | one value per child, in order |
| Adv16.ValuesAt | adv-16-rs/src/main.rs:89-95 | the `i`-th operand is the value of the `i`-th child |
| Adv16.ExecExtremes | adv-16-rs/src/main.rs:91-92 | a type-2/3 operator equals one child's value and is below/above all of them |
| Adv16.ExecCompare | adv-16-rs/src/main.rs:93-95 | types 5/6/7 give 1 exactly when the first child is greater than/less than/equal to the second, and 0 otherwise; only those two children need to run |
| Adv16.CompareIgnoresRest | adv-16-rs/src/main.rs:93-95 | children after the first two of a comparison are never evaluated: with any of them, even one whose `exec` would panic, the comparison runs and has the value of the comparison of its first two children alone |
| Adv16.ExecFolds | adv-16-rs/src/main.rs:89-90 | type 0 adds and type 1 multiplies the first child's value to the rest |
| Adv16.ExecEmpty | adv-16-rs/src/main.rs:89-90 | with no children, a sum is 0 and a product 1 |
| Adv16.Exec | adv-16-rs/src/main.rs:84-99 | a comparison (types 5, 6, 7) yields 0 or 1, and a minimum or maximum (types 2, 3) is the value of one of the children |
| Adv16.Answers | adv-16-rs/src/main.rs:181-191 | an answer exists exactly when the front packet decodes; the value is absent exactly where `exec` panics (an empty `min`/`max`, a comparison with fewer than two children, an unknown type) in a child it evaluates |
| Adv16.AnswersOf | adv-16-rs/src/main.rs:185-191 | when the line decodes to a runnable packet, the answers are its version sum and its value |
| Adv16.Transmission | adv-16-rs/src/main.rs:185-191 | the hex text of any encodable, runnable packet (padded to whole digits) is answered with that packet's version sum and value |
| Adv16.HexAnswers | adv-16-rs/src/main.rs:181-191 | bits that begin with a runnable packet, written in hex, are answered with that packet's version sum and value |
| Adv17.YClosed | adv-17-rs/src/main.rs:102-104 | after `n` steps at vertical speed `dy` the height is `n*dy - n(n-1)/2`, the relation `try_divide(2ty + n(n-1), 2n)` inverts |
| Adv17.XMoving | adv-17-rs/src/main.rs:96-97 | while still moving after `n` steps the probe has covered `n*dx - n(n-1)/2`, the relation solved for the passing speed |
| Adv17.XStopped | adv-17-rs/src/main.rs:93-95 | once drag has stopped it, the probe stays at `dx(dx+1)/2`, the relation solved for the stopping speed |
| Adv17.Apex | adv-17-rs/src/main.rs:134-135 | an upward launch at `dy` peaks at `dy(dy+1)/2` and is never higher |
| Adv17.DivisorsUpTo | adv-17-rs/src/main.rs:43-46 | exactly the divisors of `m` in `1..=k`, strictly increasing |
| Adv17.FindAllPlusDivides | adv-17-rs/src/main.rs:38-47 | exactly the divisors of `|v|` in `1..=|v|`, strictly increasing; none for 0 |
| Adv17.TryDivide | adv-17-rs/src/main.rs:49-55 | a result exactly when `d` divides `n`, and then `d * result == n` |
| Adv17.TryDivideExact | adv-17-rs/src/main.rs:49-55 | dividing a multiple `d*q` by `d` gives back `q` |
| Adv17.ExactRootMeaning | adv-17-rs/src/main.rs:57-86 | the reference root is a non-negative square root of `x`, and absent only when no natural number squares to `x` |
| Adv17.ExactRootOfSquare | adv-17-rs/src/main.rs:57-86 | the root of `k*k` is `k` |
| Adv17.IntSqrt | adv-17-rs/src/main.rs:57-86 | `int_sqrt` returns the exact root when there is one and `None` otherwise, agreeing with the reference search |
| Adv17.Search | adv-17-rs/src/main.rs:62-83 | the binary search keeps every root inside `low..high` and returns one or proves there is none |
| Adv17.StoppingMeaning | adv-17-rs/src/main.rs:93-95 | a stopping candidate `m` satisfies `0 <= m <= n` and `m(m+1) == 2tx` |
| Adv17.PassingFound | adv-17-rs/src/main.rs:96-97 | the speed of a launch still moving after `n` steps is the passing candidate |
| Adv17.StoppingFound | adv-17-rs/src/main.rs:93-95 | the speed of a launch stopped within `n` steps is the stopping candidate |
| Adv17.DyFound | adv-17-rs/src/main.rs:102-104 | the vertical speed reaching `ty` in `n` steps is recovered exactly |
| Adv17.Tagged | adv-17-rs/src/main.rs:98-100 | pairs each candidate speed with `n` and `dy`, nothing else |
| Adv17.HitsForSound | adv-17-rs/src/main.rs:92-104 | every hit for step count `n` has `n >= 1`, `dx >= 0` and reaches `(tx, ty)` after `n` steps |
| Adv17.HittingSound | adv-17-rs/src/main.rs:88-106 | every `(n, dx, dy)` from `find_all_hitting` puts the probe at `(|tx|, ty)` after `n >= 1` steps |
| Adv17.StepsFactor | adv-17-rs/src/main.rs:91 | twice the height reached after `n` steps from vertical speed `dy` is `n` times `2 * dy - n + 1` |
| Adv17.StepsDivide | adv-17-rs/src/main.rs:91 | a step count reaching a non-zero height divides twice that height, so it is among the divisors tried |
| Adv17.HitsForComplete | adv-17-rs/src/main.rs:92-104 | every launch reaching `(tx, ty)` in `n` steps is among the hits for `n` |
| Adv17.HittingComplete | adv-17-rs/src/main.rs:88-106 | every launch with `dx >= 0` reaching `(|tx|, ty)`, `ty != 0`, is found by `find_all_hitting` |
| Adv17.Range | adv-17-rs/src/main.rs:109 | `a..=b` holds exactly the integers from `a` to `b` |
| Adv17.Row | adv-17-rs/src/main.rs:111-114 | the points of one column are exactly `(tx, ty)` for `ty` in the range |
| Adv17.Grid | adv-17-rs/src/main.rs:109-115 | the points of the grid are exactly the pairs of a column and a row value |
| Adv17.FindInBounds | adv-17-rs/src/main.rs:108-116 | `find_in_bounds` yields exactly the integer points of the target area |
| Adv17.VelocitiesSound | adv-17-rs/src/main.rs:122-125 | every velocity collected lands in the target area after some step |
| Adv17.VelocitiesComplete | adv-17-rs/src/main.rs:122-125 | every landing velocity is collected when the area does not reach height 0 |
| Adv17.VelocitiesExact | adv-17-rs/src/main.rs:122-133 | the set counted by part 2 is exactly the landing velocities (both directions) |
| Adv17.MaxDy | adv-17-rs/src/main.rs:126-131 | the `inspect` fold yields the largest `dy` seen, and `None` exactly when nothing was seen |
| Adv17.ApexQuot | adv-17-rs/src/main.rs:135 | `m(m+1)/2` is the peak height for upward speed `m` |
| Adv17.HighestApex | adv-17-rs/src/main.rs:134-135 | part 1 is the peak height of the steepest launch found, and no step of it is higher |
| Adv17.Part1 | adv-17-rs/src/main.rs:121-135 | part 1 is absent (the `unwrap` panics) exactly when no velocity is found; when the steepest launch found goes up, it is the peak height of that launch |
| Adv17.Part2 | adv-17-rs/src/main.rs:122-133 | part 2 is the number of distinct velocities found, 0 exactly when none is found |
| Adv18.EndsOfLeaves | adv-18-rs/src/main.rs:33-45 | `leftmost` and `rightmost` reach the first and the last literal in left-to-right order |
| Adv18.AddEndsLeaves | adv-18-rs/src/main.rs:33-45 | adding through `leftmost` (`rightmost`) changes the first (last) literal in order and no other literal or depth |
| Adv18.PairAtMost | adv-18-rs/src/main.rs:27-30 | a pair's literals are its left half's followed by its right half's, so a bound holds for the pair exactly when it holds for both halves |
| Adv18.LeavesDepth | adv-18-rs/src/main.rs:27-30 | every literal lies between the subtree's own depth and that depth plus its height |
| Adv18.ExplodeNone | adv-18-rs/src/main.rs:54-73 | `attempt_explode` at depth `d` returns false exactly when no pair is nested `d` deep |
| Adv18.ExplodeKeepsHeight | adv-18-rs/src/main.rs:54-73 | an explosion never makes the tree deeper |
| Adv18.ExplodeShape | adv-18-rs/src/main.rs:54-73 | the leftmost pair `[u,v]` nested `d` deep becomes a 0 one level up, `u` goes to the literal just before it and `v` to the one just after, and neither is lost when it has no neighbour inside the subtree, since it is handed to the caller |
| Adv18.ExplodeLeftStep | adv-18-rs/src/main.rs:68 | when the left half explodes, the right carry lands on the right half's first literal and the pair still matches the explosion's description |
| Adv18.ExplodeRightStep | adv-18-rs/src/main.rs:69 | when only the right half explodes, the left carry lands on the left half's last literal and the pair still matches the explosion's description |
| Adv18.ExplodeShrinks | adv-18-rs/src/main.rs:58-66 | each explosion removes exactly one literal, so `while attempt_explode {}` ends |
| Adv18.SplitNone | adv-18-rs/src/main.rs:75-90 | `attempt_split` returns false exactly when every literal is below 10 |
| Adv18.SplitShape | adv-18-rs/src/main.rs:75-90 | the first literal `n >= 10` in order, every literal before it below 10, is replaced by `n/2` and `n - n/2` one level deeper, and the halves add up to `n` |
| Adv18.SplitHeight | adv-18-rs/src/main.rs:75-90 | a split deepens the tree by at most one level |
| Adv18.ExplodeAll | adv-18-rs/src/main.rs:112-114 | exploding until nothing explodes leaves no pair inside four pairs |
| Adv18.Reduce | adv-18-rs/src/main.rs:108-117 | the reduction `normalize` performs; when it completes it leaves no pair inside four pairs and no literal of 10 or more |
| Adv18.ReduceReducedIdentity | adv-18-rs/src/main.rs:108-117 | a number that is already reduced is left unchanged, so reduction is idempotent |
| Adv18.Normalize | adv-18-rs/src/main.rs:108-117 | the explode-then-split loop computes the reduction `Reduce` |
| Adv18.Add | adv-18-rs/src/main.rs:129-137 | the sum is the pair of the two numbers, reduced, and it is a reduced number |
| Adv18.MagBound | adv-18-rs/src/main.rs:119-126 | each pair level multiplies the largest literal by at most 5 in the magnitude |
| Adv18.Mag | adv-18-rs/src/main.rs:119-126 | the magnitude is 0 exactly when every literal of the number is 0 |
| Adv18.ReducedMagFits | adv-18-rs/src/main.rs:119-126 | the magnitude of a reduced number is at most 5625, so `mag`'s `u32` arithmetic cannot overflow |
| Adv18.Total | adv-18-rs/src/main.rs:195-198 | the running sum is never nested deeper than four pairs |
| Adv18.TotalReduced | adv-18-rs/src/main.rs:195-198 | the sum of two or more numbers is reduced |
| Adv18.TotalNoneGrows | adv-18-rs/src/main.rs:196-198 | once the running sum fails it fails for every longer list |
| Adv18.Part1 | adv-18-rs/src/main.rs:193-199 | the loop's answer is the magnitude of the running sum of the whole list; an empty list gives `None`, the `data[0]` panic |
| Adv18.Part2 | adv-18-rs/src/main.rs:201-212 | the answer is at least the magnitude of every sum of two different numbers and is one of them (0 for fewer than two numbers) |
| Adv18.NextToken | adv-18-rs/src/main.rs:154-175 | every token consumes text, and a number token fits in `u32` (the `parse().unwrap()` panics otherwise) |
| Adv18.ParseSingle | adv-18-rs/src/main.rs:177-186 | parsing consumes text, and every literal of the parsed number fits in `u32` |
| Adv18.ParseLine | adv-18-rs/src/main.rs:188-190 | a number read from a line has only literals that fit in `u32` |
| Adv18.SkipPrefix | adv-18-rs/src/main.rs:162-163 | commas, `]` and newlines in front of the text do not change the next token |
| Adv18.LiteralToken | adv-18-rs/src/main.rs:164-171 | a literal in decimal followed by a non-digit reads back as that literal |
| Adv18.ParseSkip | adv-18-rs/src/main.rs:162-163 | commas, `]` and newlines in front do not change what `parse_single` reads |
| Adv18.OpenToken | adv-18-rs/src/main.rs:159-161 | a formatted pair opens with `[` followed by its left half |
| Adv18.SkipToRight | adv-18-rs/src/main.rs:162-163 | after the left half, its closing brackets and the comma lead straight to the right half |
| Adv18.ParsePair | adv-18-rs/src/main.rs:179-183 | a pair reads back when both halves do |
| Adv18.Format | adv-18-rs/src/main.rs:139-146 | `Display` writes non-empty text with no line break that opens with `[` exactly for a pair |
| Adv18.ParseFormat | adv-18-rs/src/main.rs:139-186 | parsing what `Display` writes gives back the number, leaving only its trailing `]`s, whatever non-digit text follows |
| Adv18.LineRoundTrip | adv-18-rs/src/main.rs:188-190 | a formatted line, with or without its newline, parses back to the number |
| Adv19.PlusMinus | adv-19-rs/src/main.rs:94-108 | adding the difference `a - b` to `b` gives `a`, and translation by a fixed vector is one-to-one |
| Adv19.ApplyRotIsProduct | adv-19-rs/src/main.rs:111-113 | `apply_rot` is `matrix_multiply(rot, v)` on the 3×3 and 3×1 backing arrays, entry for entry |
| Adv19.ComposeIsProduct | adv-19-rs/src/main.rs:137-143 | `Rot * Rot` is `matrix_multiply` of the two backing arrays |
| Adv19.TransposeIsTransposed | adv-19-rs/src/main.rs:51-63 | `transpose` on a 3×3 backing array gives the matrix with rows and columns exchanged |
| Adv19.Id3IsIdentity | adv-19-rs/src/main.rs:256 | `EMPTY_ROTATION` is the 3×3 identity of the flat matrices |
| Adv19.ApplyId | adv-19-rs/src/main.rs:256 | applying `EMPTY_ROTATION` leaves every vector unchanged |
| Adv19.ApplyCompose | adv-19-rs/src/main.rs:137-143 | applying `q` and then `p` is applying the product `p * q` |
| Adv19.ComposeAssociative | adv-19-rs/src/main.rs:137-143 | the product of rotations is associative |
| Adv19.ApplyPlus | adv-19-rs/src/main.rs:111-113 | `apply_rot` is linear: it distributes over vector addition |
| Adv19.WithFlips | adv-19-rs/src/main.rs:275-283 | the first `flat_map` doubles the list: each matrix, then the same matrix with its last two rows negated |
| Adv19.WithTurns | adv-19-rs/src/main.rs:284-292 | the second `flat_map` doubles the list: each matrix, then rows `(r0, -r2, r1)` |
| Adv19.FlipProper | adv-19-rs/src/main.rs:275-283 | negating the last two rows keeps a rotation proper: rows and columns orthonormal, determinant 1 |
| Adv19.TurnProper | adv-19-rs/src/main.rs:284-292 | replacing the rows by `(r0, -r2, r1)` keeps a rotation proper |
| Adv19.AxisProper | adv-19-rs/src/main.rs:262-274 | each of the six starting matrices is a proper rotation |
| Adv19.AllRotationsProper | adv-19-rs/src/main.rs:258-305 | `generate_all_rotations` yields 24 matrices, the identity first, each a proper rotation (orthonormal rows and columns, determinant 1) |
| Adv19.UnitRows | adv-19-rs/src/main.rs:258-305 | every row of a proper integer rotation has one entry ±1 and the others 0, so each generated rotation is a signed permutation matrix |
| Adv19.InverseUndoes | adv-19-rs/src/main.rs:152-155 | for a proper rotation `R`, `R·transpose(R) = transpose(R)·R = I`, so `inverse` undoes `apply_rot` on both sides |
| Adv19.RotInjective | adv-19-rs/src/main.rs:111-113 | a proper rotation maps different points to different points |
| Adv19.CombineApply | adv-19-rs/src/main.rs:331-336 | `v.apply_rt(combine_rt(f, s)) == v.apply_rt(f).apply_rt(s)` for every vector and pair of transforms |
| Adv19.CombineAssociative | adv-19-rs/src/main.rs:331-336 | `combine_rt` is associative |
| Adv19.OriginRtIdentity | adv-19-rs/src/main.rs:220-225 | the origin transform of `place_origin` changes nothing, and the image of the zero vector under a transform is its translation (the scanner position `p1` uses) |
| Adv19.InvertAsWrittenFails | adv-19-rs/src/main.rs:321-328 | `invert` as written does not undo a translation: with the identity rotation and translation (1,0,0) the origin goes to (2,0,0) |
| Adv19.Invert | adv-19-rs/src/main.rs:321-328 | the corrected inverse rotates by the transpose |
| Adv19.InvertUndoes | adv-19-rs/src/main.rs:321-328 | the corrected inverse undoes a transform with a proper rotation on both sides |
| Adv19.ShiftedIn | adv-19-rs/src/main.rs:343-344 | a point is in the translated plug exactly when it is some plug point plus `d` |
| Adv19.ShiftedCard | adv-19-rs/src/main.rs:343-344 | a plug without repeated points keeps its size when translated |
| Adv19.FitsMeans | adv-19-rs/src/main.rs:345 | for a plug without repeats, the size test `new_ls.len() + 12 <= socket.len() + plug.len()` holds exactly when at least 12 translated plug points are socket points |
| Adv19.TryFindTrans | adv-19-rs/src/main.rs:338-351 | `Some(d)` only for a `d` that moves some plug point onto some socket point and passes the size test; `None` only when no such `d` passes |
| Adv19.Rotated | adv-19-rs/src/main.rs:355-358 | the rotated plug has the same length and entry `i` is plug point `i` rotated |
| Adv19.RotatedDistinct | adv-19-rs/src/main.rs:355-358 | rotating by a proper rotation keeps the plug's points distinct |
| Adv19.TryRotation | adv-19-rs/src/main.rs:355-364 | one round of the rotation loop: a found translation fits the rotated plug; `None` means no translation from a plug point to a socket point fits under this rotation |
| Adv19.TryRotations | adv-19-rs/src/main.rs:354-366 | the rotation loop returns the first rotation in the list under which a translation fits, with that translation; `None` when no rotation has one |
| Adv19.TryFindRt | adv-19-rs/src/main.rs:353-367 | the same over the 24 rotations of `generate_all_rotations`, in their order |
| Adv19.Enumerate | adv-19-rs/src/main.rs:355-357 | iterating a `HashSet` yields each of its elements exactly once |
| Adv19.ImageIsShifted | adv-19-rs/src/main.rs:355-358 | translating the rotated enumeration gives the image of the beacon set under the transform |
| Adv19.FoundOverlap | adv-19-rs/src/main.rs:338-367 | for a generated rotation, the size test holds exactly when at least 12 of the scanner's beacons, moved by the transform, are beacons of the base scanner |
| Adv19.NoOverlap | adv-19-rs/src/main.rs:338-367 | a generated rotation for which the search finds no translation brings no 12 beacons onto the base's by any beacon-to-beacon translation |
| Adv19.AttemptPlaceBy | adv-19-rs/src/main.rs:235-242 | `Ok` carries the same beacons and id and a transform `combine_rt(rt, base.rt)` whose relative part brings at least 12 beacons onto the base's; `Err` returns the chunk unchanged, and then no generated rotation with any beacon-to-beacon translation gives 12 |
| Adv19.PlacedWorld | adv-19-rs/src/main.rs:231-233 | a placed scanner's beacons in the first scanner's frame are its beacons moved by the relative transform, then by the base's |
| Adv19.TryRemove | adv-19-rs/src/main.rs:369-384 | on `Ok` the element at `pos` is removed and the rest keep their order; on `Err` only slot `pos` changes, to what `f` handed back |
| Adv19.TryRemoveKeeps | adv-19-rs/src/main.rs:369-384 | when `f` hands back its argument on failure, a failed `try_remove` leaves the list unchanged, and a successful one removes exactly `ls[pos]` |
| Adv19.ManDist | adv-19-rs/src/main.rs:125-131 | the loop returns the sum of the absolute component differences |
| Adv19.ManhattanMetric | adv-19-rs/src/main.rs:125-131 | the distance is symmetric, zero exactly on equal points, and obeys the triangle inequality |
| Adv19.LineAsCoords | adv-19-rs/src/main.rs:171-176 | `Some` only for a trimmed line `a,b,c` whose three parts parse as the returned `i32` values |
| Adv19.LineParts | adv-19-rs/src/main.rs:171-176 | a line of three comma-free fields and trailing white space is trimmed to the fields with their commas, and the two `split_once` calls give the fields back |
| Adv19.LineRoundTrip | adv-19-rs/src/main.rs:171-176 | a line `x,y,z` written in decimal, with any trailing white space, parses back to `(x, y, z)` |
| Adv19.LineWithoutComma | adv-19-rs/src/main.rs:171-176 | a line without a comma (a blank line or a scanner header) gives `None` |
| Adv19.ReadOne | adv-19-rs/src/main.rs:183-197 | one line of the loop: coordinates join the current scanner (started on demand), any other line closes it with the next id; the new state is the per-line step of the old |
| Adv19.ReadData | adv-19-rs/src/main.rs:178-204 | the loop computes the fold of the per-line step over the lines, then closes the last scanner |
| Adv19.ReadLinesWell | adv-19-rs/src/main.rs:178-204 | during reading, the finished scanners are numbered 0, 1, 2, … and none is empty, and neither is the one being read |
| Adv19.ReadDataIds | adv-19-rs/src/main.rs:178-204 | `read_data` numbers the scanners by position and yields none without beacons |
| Adv20.FromLightList | adv-20-rs/src/main.rs:21-26 | the listed cells are exactly the stored ones and the background is dark |
| Adv20.GetBlankId | adv-20-rs/src/main.rs:32-38 | the blank id is 0 or 511 |
| Adv20.BlankArea | adv-20-rs/src/main.rs:32-38 | a cell with no stored cell in its 3×3 area has `get_blank_id` as its area code |
| Adv20.Code | adv-20-rs/src/main.rs:59-68 | an area code read from `n` cells is below `2^n` |
| Adv20.CodeBits | adv-20-rs/src/main.rs:59-68 | bit `n-1-k` of the code is cell `k` of the area, row by row from the top left: the first cell is the most significant bit |
| Adv20.CodeAgree | adv-20-rs/src/main.rs:59-68 | the code depends only on the nine cells of the area |
| Adv20.CodeUniform | adv-20-rs/src/main.rs:59-68 | an area all dark codes as 0 and an area all lit codes as `2^n - 1` |
| Adv20.ShiftInBit | adv-20-rs/src/main.rs:63-64 | `acc <<= 1; acc \|= bit` with a one-bit `bit` is `2*acc + bit` |
| Adv20.CodeStep | adv-20-rs/src/main.rs:59-68 | one pass of the area loops shifts the colour of the cell at offset `(y, x)` into the code, so after nine the code is the area read row by row |
| Adv20.AreaCodeBound | adv-20-rs/src/main.rs:59-68 | nine bits make codes below 512, the length of the enhancement table |
| Adv20.NumberInArea | adv-20-rs/src/main.rs:59-68 | the nested loop computes the 9-bit code of the area around `pos` read through `read_pixel`, and it is below 512 |
| Adv20.AreaBits | adv-20-rs/src/main.rs:28-30 | bit `8-k` of a cell's area code is `read_pixel` of its neighbour `k`: stored membership XOR the background flag |
| Adv20.NumberInSet | adv-20-rs/src/main.rs:128-137 | the free `number_in_area` computes the code of the area in a set of lit cells, below 512 |
| Adv20.BlockIndex | adv-20-rs/src/main.rs:44-46 | each of the nine cells `point + (y, x)` visited by `enhance` is one of the area neighbours |
| Adv20.EnhanceSpecIn | adv-20-rs/src/main.rs:40-57 | a cell is stored after `enhance` exactly when it is near a stored cell and its looked-up colour differs from the new background |
| Adv20.EnhancePixels | adv-20-rs/src/main.rs:40-57 | after `enhance`, every cell of the infinite grid, near a stored cell or not, reads as the table entry of its old area code |
| Adv20.EnhanceAround | adv-20-rs/src/main.rs:44-51 | the inner loops add to the new set exactly the cells around `point` whose looked-up colour differs from the new background |
| Adv20.Enhance | adv-20-rs/src/main.rs:40-57 | the loop over the stored cells builds exactly the image one step defines, with the background `f(get_blank_id)` |
| Adv20.EnhanceCount | adv-20-rs/src/main.rs:78-82 | the loop applies one step `n` times |
| Adv20.EnhanceCountPixels | adv-20-rs/src/main.rs:78-82 | after `n` steps every cell reads as its colour computed cell by cell on the infinite grid |
| Adv20.GetCount | adv-20-rs/src/main.rs:70-76 | `get_count` fails exactly when the background is lit and otherwise gives the number of stored cells |
| Adv20.GetCountLit | adv-20-rs/src/main.rs:70-76 | when it answers, the stored cells are exactly the lit ones |
| Adv20.IntoBoolArray | adv-20-rs/src/main.rs:101-103 | one entry per character, true exactly at `#` |
| Adv20.LitInRow | adv-20-rs/src/main.rs:111-121 | the `(row, col)` of exactly the `#` characters of one line |
| Adv20.LitCells | adv-20-rs/src/main.rs:109-124 | the `(row, col)` of exactly the `#` characters of the picture |
| Adv20.ReadData | adv-20-rs/src/main.rs:105-126 | fails exactly when the table line or the blank line is missing; otherwise the table is the first line and a cell is lit exactly when it is a `#` of the picture below the blank line |
| Adv21.DieValue | adv-21-rs/src/main.rs:34-40 | every value of the deterministic die is between 1 and 100 |
| Adv21.DieP1.constructor | adv-21-rs/src/main.rs:42-47 | a new die has rolled nothing and is in its consistent state |
| Adv21.DieP1.Roll | adv-21-rs/src/main.rs:34-40 | roll number `k` returns `k % 100 + 1`, so the values run 1, 2, …, 100, 1, …; `inner` stays `roll_cnt % 100` and `roll_cnt` grows by one |
| Adv21.DieP1.GetRollCount | adv-21-rs/src/main.rs:49-51 | the number of rolls so far |
| Adv21.Player.NewWithPos | adv-21-rs/src/main.rs:77-82 | the zero-based position `p - 1` and score 0 |
| Adv21.Player.Turn | adv-21-rs/src/main.rs:84-88 | the position becomes `(pos + n) % 10` and the score grows by the one-based space, between 1 and 10 |
| Adv21.PlayOne | adv-21-rs/src/main.rs:95-111 | a part-one game ends with the loser below 1000 after a positive multiple of three rolls |
| Adv21.TakeTurn | adv-21-rs/src/main.rs:104 | a turn moves the mover by the sum of the next three die values and counts three rolls |
| Adv21.Move | adv-21-rs/src/main.rs:104-106 | one turn of the loop raises the mover's score; if it reaches 1000 the game's result is the other's score and the roll count, otherwise the game goes on with the other player to move |
| Adv21.P1 | adv-21-rs/src/main.rs:95-111 | the loop plays alternate turns until the mover reaches 1000 and answers the loser's score times the roll count |
| Adv21.WeightsAreDistribution | adv-21-rs/src/main.rs:141-149 | the table of three-roll totals is the distribution of the sum of three three-sided dice: each count is the number of triples, no other total occurs, and the counts make 27 |
| Adv21.Next | adv-21-rs/src/main.rs:126-137 | a non-winning move leaves a game in play whose score sum is higher, with the turn passed |
| Adv21.Start | adv-21-rs/src/main.rs:156-159 | the starting game is in play with both scores 0 |
| Adv21.IncHashmap | adv-21-rs/src/main.rs:114-123 | `inc_hashmap` adds `n` to the count of `k`, starting at 0 when absent, and leaves the other counts alone |
| Adv21.MapSumInc | adv-21-rs/src/main.rs:114-123 | adding `n` to a key's count adds `n` times its weight to any weighted sum of the map |
| Adv21.PlayGameRoll | adv-21-rs/src/main.rs:126-138 | a winning move (score at least 21) adds `g_cnt` to the mover's win count; any other move passes the turn and adds `g_cnt` to the next game |
| Adv21.PlayGame | adv-21-rs/src/main.rs:140-152 | `play_game_roll` is applied for each of the seven totals with `g_cnt` times its count |
| Adv21.PlayRollUniverses | adv-21-rs/src/main.rs:126-138 | one move credits its universes to exactly one win or game |
| Adv21.PlayGameConserves | adv-21-rs/src/main.rs:140-152 | `play_game` distributes exactly `27 * g_cnt` universes between the wins and the next games |
| Adv21.PlayRollValue | adv-21-rs/src/main.rs:126-138 | one move keeps the eventual wins: it adds `c` times the outcome of the move |
| Adv21.PlayGameValue | adv-21-rs/src/main.rs:140-152 | `play_game` replaces the `g_cnt` universes of a game by wins and games worth `g_cnt` times the game's outcome |
| Adv21.PlayGameOpens | adv-21-rs/src/main.rs:126-152 | every game `play_game` opens is in play and has a strictly higher score sum |
| Adv21.Drain | adv-21-rs/src/main.rs:162-165 | `play_game` on one open game keeps the sum of the tally's and the remaining games' eventual wins, and opens only games with a higher score sum |
| Adv21.DrainStep | adv-21-rs/src/main.rs:162-165 | draining one game moves its eventual wins from the games still to drain to the new tally, so their sum is unchanged |
| Adv21.PlayRound | adv-21-rs/src/main.rs:160-166 | draining the open games into a new map keeps the eventual wins, and raises every open game's score sum |
| Adv21.P2 | adv-21-rs/src/main.rs:125-168 | the loop ends, because score sums strictly rise, with each player's win count equal to the number of universes that player wins from the start, and answers the larger |
| RustStr.RSplitOnce | adv-21-rs/src/main.rs:55 | `rsplit_once` gives the text before and after the last separator, and `None` exactly when there is none |
| Adv21.ParseStart | adv-21-rs/src/main.rs:54-56 | the starting position is the `u32` after the last space of the line |
| Adv21.ReadData | adv-21-rs/src/main.rs:58-63 | the two starting positions come from the first two lines; fewer than two lines fail |
| Adv22.Volume | adv-22-rs/src/main.rs:74-79 | the volume of a cuboid with non-empty ranges is at least 1 |
| Adv22.Split | adv-22-rs/src/main.rs:74-79 | cutting a cuboid across one axis gives two disjoint parts that hold all its cubes and whose volumes add up to its volume |
| Adv22.VolumeInside | adv-22-rs/src/main.rs:74-79 | a cuboid inside another has at most its volume |
| Adv22.Intersect1d | adv-22-rs/src/main.rs:82-89 | the common range is `(max of the lows, min of the highs)`, and it is `None` exactly when that range is empty |
| Adv22.Intersect1dCells | adv-22-rs/src/main.rs:82-89 | a coordinate is in the common range exactly when it is in both ranges |
| Adv22.Intersect1dCommutes | adv-22-rs/src/main.rs:82-89 | the order of the two ranges does not matter |
| Adv22.Intersect | adv-22-rs/src/main.rs:91-97 | `None` exactly when some axis has no common range; otherwise a cuboid with non-empty ranges inside both |
| Adv22.IntersectCells | adv-22-rs/src/main.rs:91-97 | a cube is in the common cuboid exactly when it is in both cuboids |
| Adv22.IntersectCommutes | adv-22-rs/src/main.rs:91-97 | the order of the two cuboids does not matter |
| Adv22.DisjointCells | adv-22-rs/src/main.rs:91-97 | `intersect` gives `None` exactly when the two cuboids have no common cube |
| Adv22.DisjointInside | adv-22-rs/src/main.rs:91-97 | a part of a cuboid that misses `b` also misses `b` |
| Adv22.SlabApart | adv-22-rs/src/main.rs:106-152 | a slab of the rest that shares no cube with the common part shares none with the removing cuboid, and the earlier slabs are disjoint from both the slab and what remains |
| Adv22.SlabCovers | adv-22-rs/src/main.rs:106-152 | when the slab and what remains make up the rest, the slabs (this one included) plus what remains still cover exactly the cubes of `a` |
| Adv22.CutStep | adv-22-rs/src/main.rs:106-152 | taking one slab off the rest of `a` keeps the slabs inside `a`, outside `rem`, pairwise disjoint, and slabs plus rest equal to `a` cube for cube and in volume |
| Adv22.CutLow | adv-22-rs/src/main.rs:106-113 | cutting off the slab below the common part across one axis keeps that state and narrows the rest to start at the common part |
| Adv22.CutHigh | adv-22-rs/src/main.rs:114-121 | cutting off the slab above the common part across one axis keeps that state and narrows the rest to end at the common part |
| Adv22.CutStateAxis | adv-22-rs/src/main.rs:104-152 | the rest of `a` always holds the common part on every axis |
| Adv22.CutAxis | adv-22-rs/src/main.rs:106-121 | the two cuts across one axis keep the state, add at most two slabs and leave the rest equal to the common part on that axis and unchanged on the others |
| Adv22.CutDone | adv-22-rs/src/main.rs:99-154 | once the rest is the common part, the slabs cover exactly the cubes of `a` not in `rem`, and their volumes add up to the volume of `a` minus that of the common part |
| Adv22.Without | adv-22-rs/src/main.rs:99-154 | `[a]` when `a` misses `rem`; otherwise at most six pairwise disjoint slabs inside `a` and outside `rem`, covering exactly the cubes of `a` not in `rem`, with volume `volume(a) - volume(a ∩ rem)` |
| Adv22.RemoveStep | adv-22-rs/src/main.rs:164-177 | replacing one more element by its slabs keeps the list outside `rem`, equal to the elements so far minus `rem`, and pairwise disjoint |
| Adv22.RemoveStepVolume | adv-22-rs/src/main.rs:164-177 | each replaced element loses exactly the volume of its overlap with `rem` |
| Adv22.RemoveIntersecting | adv-22-rs/src/main.rs:164-177 | the new list misses `rem`, covers exactly the old cubes outside `rem`, stays pairwise disjoint, and loses exactly the volume of the overlaps with `rem` |
| Adv22.SetIntersecting | adv-22-rs/src/main.rs:179-184 | after the step a cube inside the step's cuboid is covered exactly when the step is `on`, and every other cube keeps its state; an `on` step puts its cuboid in front; disjointness is kept |
| Adv22.Reboot | adv-22-rs/src/main.rs:193-195 | after all steps the list is pairwise disjoint and covers exactly the cubes whose last covering step is `on` |
| Adv22.LitOnlyIfOnStep | adv-22-rs/src/main.rs:193-195 | a cube is on at the end only when some `on` step covered it |
| Adv22.FilterP1 | adv-22-rs/src/main.rs:156-162 | the clipped cuboid holds exactly the cubes of `a` with every coordinate in `-50..=50` |
| Adv22.VolumeWithinP1 | adv-22-rs/src/main.rs:186-188 | at most the volume of the cuboid, and 0 exactly when it misses the initialisation region |
| Adv22.SumP1AtMost | adv-22-rs/src/main.rs:197-198 | the part-one sum never exceeds the part-two sum |
| Adv22.Solve | adv-22-rs/src/main.rs:190-201 | both answers are the sums over a pairwise disjoint list covering exactly the cubes that are on, and part one is at most part two |
| Adv22.ParseEq | adv-22-rs/src/main.rs:32-36 | a parsed range comes from text `a..b` after the two-character label, with both ends read as `i32` |
| Adv22.ParseEqText | adv-22-rs/src/main.rs:32-36 | a labelled range written in the input format is read back exactly |
| Adv22.StepHead | adv-22-rs/src/main.rs:38-44 | the line is `on ` or `off ` followed by the rest |
| Adv22.StepHeadText | adv-22-rs/src/main.rs:38-44 | both heads are read back with the right state |
| Adv22.ParseLine | adv-22-rs/src/main.rs:31-58 | a parsed step is `on` exactly when the line starts with `on ` |
| Adv22.ParseRangesText | adv-22-rs/src/main.rs:45-57 | three `i32` ranges written with their labels and separated by commas are read back exactly |
| Adv22.ParseStepText | adv-22-rs/src/main.rs:31-58 | every step written in the input format with `i32` coordinates is read back exactly |
| Adv22.ReadData | adv-22-rs/src/main.rs:60-64 | one parsed step per line, in order |
| RustStr.FindStr | adv-22-rs/src/main.rs:34 | the first occurrence of the pattern at or after `i`, `|s|` when there is none |
| RustStr.SplitOnceStr | adv-22-rs/src/main.rs:34 | a split gives the text before and after an occurrence of the pattern |
| RustStr.SplitOnceStrAt | adv-22-rs/src/main.rs:34 | splitting `a + pat + b`, where `a` holds no first character of the pattern, gives `a` and `b` |
| Adv23Common.Idx | adv-23-rs/src/common.rs:10-17 | a colour's room number is one of the four rooms |
| Adv23Common.FromIdx | adv-23-rs/src/common.rs:19-21 | the colour of room `i` has room number `i`, for `i` below four (the array index panics otherwise) |
| Adv23Common.FromIdxOfIdx | adv-23-rs/src/common.rs:10-21 | `from_idx(get_idx(c))` is `c` |
| Adv23Common.Cost | adv-23-rs/src/common.rs:23-30 | one step of the colour costs `10` to the power of its room number |
| Adv23Common.Letter | adv-23-rs/src/common.rs:32-39 | the letters are `A` to `D` in room order |
| Adv23P1.HallPos | adv-23-rs/src/p1.rs:12-14 | the hallway cells stand in columns 0, 1, 3, 5, 7, 9 and 10 |
| Adv23P1.RoomPos | adv-23-rs/src/p1.rs:16-18 | slot `r` lies below door column `2 + 2 * (r % 4)` |
| Adv23P1.RoomOff | adv-23-rs/src/p1.rs:20-22 | slot `r` lies `r / 4 + 1` steps below the hallway |
| Adv23P1.PathScore | adv-23-rs/src/p1.rs:24-26 | the walk between a hallway cell and a slot is the column distance plus the depth, at least two steps |
| Adv23P1.TakeIdx | adv-23-rs/src/p1.rs:28-38 | the slot a room takes its colour into is empty, in that room, with only settled amphipods below it and a free slot above; there is one exactly when the top is free and the bottom is free or already settled |
| Adv23P1.GiveIdx | adv-23-rs/src/p1.rs:40-55 | the slot a room gives from holds an unsettled amphipod with nothing above it; `None` exactly when the room's occupied slots are all settled |
| Adv23P1.LeftSearch | adv-23-rs/src/p1.rs:57-68 | walking left, the first amphipod met is the target, with clear cells up to it; `None` means no target amphipod has a clear way |
| Adv23P1.RightSearch | adv-23-rs/src/p1.rs:70-81 | walking right, the first amphipod met is the target, with clear cells up to it; `None` means no target amphipod has a clear way |
| Adv23P1.SearchAround | adv-23-rs/src/p1.rs:103-112 | the answer holds the room's colour and has a clear path to the door; `None` means no amphipod of that colour has one |
| Adv23P1.LeftEmpty | adv-23-rs/src/p1.rs:83-89 | the empty cells walking left from `start`, nearest first, each with a clear path, stopping at the first amphipod |
| Adv23P1.RightEmpty | adv-23-rs/src/p1.rs:91-96 | the empty cells walking right from `start`, nearest first, each with a clear path, stopping at the first amphipod |
| Adv23P1.EmptyAround | adv-23-rs/src/p1.rs:98-101 | at most seven distinct empty hallway cells, each reachable from the room's door |
| Adv23P1.EmptyAroundComplete | adv-23-rs/src/p1.rs:98-101 | every empty hallway cell with a clear path to the door is listed |
| Adv23P1.CountMono | adv-23-rs/src/p1.rs:114-180 | the measure's counting is monotone in the flags it counts |
| Adv23P1.CountDrop | adv-23-rs/src/p1.rs:114-180 | dropping a flag lowers the count |
| Adv23P1.CountSet | adv-23-rs/src/p1.rs:114-180 | changing one flag changes the count by that flag alone |
| Adv23P1.HallFlags | adv-23-rs/src/p1.rs:114-180 | flag `k` is set exactly when hallway cell `k` is occupied |
| Adv23P1.UnsettledFlags | adv-23-rs/src/p1.rs:114-180 | flag `k` is set exactly when slot `k` holds an amphipod that still has to move |
| Adv23P1.SettledUnchanged | adv-23-rs/src/p1.rs:114-180 | writing a slot does not change whether slots above it or in other rooms are settled |
| Adv23P1.NotSettledAbove | adv-23-rs/src/p1.rs:114-180 | a slot above a foreign amphipod or an empty slot is not settled |
| Adv23P1.MoveInWeight | adv-23-rs/src/p1.rs:131-153 | a move from the hallway into the own room above settled amphipods lowers the measure |
| Adv23P1.MoveOutWeight | adv-23-rs/src/p1.rs:155-179 | moving an unsettled amphipod with nothing above it out to the hallway lowers the measure |
| Adv23P1.ApplyKeeps | adv-23-rs/src/p1.rs:140-141 | a move keeps every amphipod: hallway and rooms hold the same multiset |
| Adv23P1.ReplaySnoc | adv-23-rs/src/p1.rs:142-143 | a legal history extended by a legal move replays to the moved layout and costs the move's energy more |
| Adv23P1.IsWon | adv-23-rs/src/p1.rs:121-128 | the win check holds exactly when every slot holds its room's colour |
| Adv23P1.TakeMove | adv-23-rs/src/p1.rs:131-153 | the move into a room the search makes is strictly legal, is the swap the source performs, and lowers the measure |
| Adv23P1.GiveMove | adv-23-rs/src/p1.rs:155-179 | every move out to an empty hallway cell the search makes is strictly legal and lowers the measure |
| Adv23P1.BestScoreR | adv-23-rs/src/p1.rs:114-180 | the best score only goes down, and whenever it is set it is the cost of the recorded legal move sequence from the start to a winning layout |
| Adv23P1.BestScore | adv-23-rs/src/p1.rs:208-227 | an answer is the total energy of a legal move sequence that wins; `None` is the `unwrap` panic when no way is found |
| Adv23P2.RoomPos | adv-23-rs/src/p2.rs:16-18 | slot `r` of sixteen lies below door column `2 + 2 * (r % 4)` |
| Adv23P2.RoomOff | adv-23-rs/src/p2.rs:20-22 | slot `r` lies `r / 4 + 1` steps below the hallway |
| Adv23P2.PathScore | adv-23-rs/src/p2.rs:24-26 | the walk between a hallway cell and a slot of the deep rooms is the same distance as in part one, at least two steps |
| Adv23P2.Digit | adv-23-rs/src/p2.rs:149-160 | a cell's digit is below five |
| Adv23P2.CodeBound | adv-23-rs/src/p2.rs:149-160 | the code of `n` cells is below `5^n` |
| Adv23P2.CodeInjective | adv-23-rs/src/p2.rs:149-160 | different cell sequences of one length get different codes |
| Adv23P2.UniqueId | adv-23-rs/src/p2.rs:149-160 | the loop computes the base-5 code of the hallway and rooms |
| Adv23P2.UniqueIdInjective | adv-23-rs/src/p2.rs:149-160 | games with different layouts get different ids |
| Adv23P2.TakeScan | adv-23-rs/src/p2.rs:162-175 | a slot found is empty, in the room, above settled amphipods only |
| Adv23P2.TakeScanNone | adv-23-rs/src/p2.rs:162-175 | when the scan finds nothing, every empty slot in the scanned rows has a non-settled slot below it |
| Adv23P2.TakeTo | adv-23-rs/src/p2.rs:162-175 | the slot a room takes into is empty and above settled amphipods only |
| Adv23P2.TakeToNone | adv-23-rs/src/p2.rs:162-175 | `None` only when every empty slot of the room has an unsettled slot below it |
| Adv23P2.FilledBelow | adv-23-rs/src/p2.rs:177-191 | a filled slot has only occupied slots below it |
| Adv23P2.SettledBelow | adv-23-rs/src/p2.rs:177-191 | a settled slot has only settled slots below it |
| Adv23P2.GetGiveFromIdx | adv-23-rs/src/p2.rs:177-191 | the slot given from holds an unsettled amphipod with nothing above it; `None` means every filled slot of the room is settled |
| Adv23P2.SlotOf | adv-23-rs/src/p2.rs:177-191 | the slot `4 * j + rm` lies in room `rm`, and it is filled (settled) exactly when it is occupied (by the room's own colour) and so is every slot below it |
| Adv23P2.GiveNone | adv-23-rs/src/p2.rs:177-191 | once the walk up meets an empty slot or the top with only settled amphipods, every filled slot is settled |
| Adv23P2.IsWinning | adv-23-rs/src/p2.rs:193-204 | the win check holds exactly when every slot of the four rows holds its room's colour |
| Adv23P2.WithSwapHr | adv-23-rs/src/p2.rs:227-235 | the swap is the move's `Apply`, adds the walk's energy and one move, and keeps every amphipod |
| Adv23P2.ClearScan | adv-23-rs/src/p2.rs:211-218 | the scan succeeds exactly when the hallway range is clear |
| Adv23P2.IsPathBetweenRooms | adv-23-rs/src/p2.rs:211-218 | true exactly when the hallway between the two doors is clear |
| Adv23P2.RoomPathCost | adv-23-rs/src/p2.rs:220-225 | the walk between two slots is the door distance plus both depths |
| Adv23P2.WithSwapRr | adv-23-rs/src/p2.rs:237-247 | the two slots trade contents, nothing else in the layout changes, the amphipods are kept, and the score grows by the colour's energy for the walk from the lower slot to the higher one |
| Adv23P2.ReachedSnoc | adv-23-rs/src/p2.rs:227-235 | a game reached by legal moves and then moved legally is reached, with the score adding the move's energy |
| Adv23P2.TakeToMove | adv-23-rs/src/p2.rs:266-278 | the move into a room that `reproduce` queues is legal (strictly so when the rooms are packed), keeps them packed and lowers the measure |
| Adv23P2.GiveFromMove | adv-23-rs/src/p2.rs:302-315 | each move out to the hallway that `reproduce` queues is legal (strictly so when the rooms are packed), keeps them packed and lowers the measure |
| Adv23P2.TreeBound | adv-23-rs/src/p2.rs:363-368 | the bound on games expanded on account of one game is positive |
| Adv23P2.TreeBoundMono | adv-23-rs/src/p2.rs:363-368 | a heavier game has a larger bound |
| Adv23P2.PotentialConcat | adv-23-rs/src/p2.rs:363-368 | the potential of a stack is the sum over its parts |
| Adv23P2.PotentialLighter | adv-23-rs/src/p2.rs:363-368 | games lighter than `w` add at most the bound of weight `w - 1` each |
| Adv23P2.FewLighter | adv-23-rs/src/p2.rs:249-316 | at most 28 lighter games have less potential than the game they replace |
| Adv23P2.Shrinks | adv-23-rs/src/p2.rs:363-368 | popping a game and pushing what `reproduce` pushes lowers the potential, so `run` stops |
| Adv23P2.GrowsTrans | adv-23-rs/src/p2.rs:249-316 | two rounds of pushes of lighter games are one round |
| Adv23P2.FirstTake | adv-23-rs/src/p2.rs:266-278 | the first room with a slot to take into and a reachable amphipod of its colour, with both; no room before it has both |
| Adv23P2.QueueKeeps | adv-23-rs/src/p2.rs:336-361 | queuing a game not queued before, with a legal way to it, keeps the world's invariant |
| Adv23P2.World.AddGame | adv-23-rs/src/p2.rs:336-361 | a game not queued before is pushed and keyed with its score; one queued before changes nothing |
| Adv23P2.World.Push | adv-23-rs/src/p2.rs:227-235 | queuing a legal move's game keeps the world's invariant and pushes at most that one lighter game |
| Adv23P2.World.PushOut | adv-23-rs/src/p2.rs:303-314 | pushes at most seven games, all lighter, keeping the invariant |
| Adv23P2.World.PushRoomOut | adv-23-rs/src/p2.rs:303-314 | one room's round pushes at most seven games, all lighter, keeping the invariant |
| Adv23P2.World.PushAllOut | adv-23-rs/src/p2.rs:302-315 | pushes at most 28 games, all lighter, keeping the invariant |
| Adv23P2.World.Reproduce | adv-23-rs/src/p2.rs:249-316 | a game no cheaper than the best is dropped, a winning one lowers the best score to its own, otherwise at most 28 lighter games are pushed |
| Adv23P2.World.Pop | adv-23-rs/src/p2.rs:364 | taking the top game off the stack keeps every queued game's record and leaves the stack without it |
| Adv23P2.World.Run | adv-23-rs/src/p2.rs:363-368 | the stack empties; the answer is `u64::MAX` or the cost of a legal way from the start to a winning layout |
| Adv23P2.BestScore | adv-23-rs/src/p2.rs:472-502 | the answer is `u64::MAX` or the total energy of a legal winning move sequence, strictly legal when the rooms start packed |
| Adv23Main.ParseColor | adv-23-rs/src/main.rs:50-56 | exactly the letters `A` to `D` name amphipods, and each names the colour whose letter it is |
| Adv23Main.Colors | adv-23-rs/src/main.rs:47-56 | a text names no more amphipods than it has characters |
| Adv23Main.ColorsAppend | adv-23-rs/src/main.rs:47-49 | the amphipods of the chained lines are those of the first line then those of the second |
| Adv23Main.ReadSpec | adv-23-rs/src/main.rs:39-63 | `None` exactly on fewer than four lines or more than eight letters; otherwise an empty hallway of seven cells and eight slots |
| Adv23Main.RoomsOf | adv-23-rs/src/main.rs:57-60 | the letters fill the first slots in order and the rest stay empty |
| Adv23Main.ColorsDrawing | adv-23-rs/src/main.rs:47-56 | the letters read from a drawn row are the amphipods drawn |
| Adv23Main.ReadDrawing | adv-23-rs/src/main.rs:39-63 | reading a drawing of the burrow gives back its top and bottom rows and an empty hallway |
| Adv23Main.ReadData | adv-23-rs/src/main.rs:39-63 | the array filled letter by letter is `ReadSpec`, including both panics |
| Adv23Main.P2AlterRooms | adv-23-rs/src/main.rs:65-83 | the top row, the rows `D C B A` and `D B A C`, then the bottom row |
| Adv23Main.AlterCounts | adv-23-rs/src/main.rs:65-83 | the folded rows add two amphipods of each colour |
| Adv23Main.AlterPacked | adv-23-rs/src/main.rs:65-83 | a full small burrow becomes a full deep one, so part two's moves are strictly legal |
| Adv23Main.Solve | adv-23-rs/src/main.rs:85-93 | a read failure is reported exactly when the lines do not read; otherwise part one's `unwrap` either panics before part two runs or both answers are the energy of legal winning move sequences from the read layout and from its deep version |
| Adv23Main.AlterKeeps | adv-23-rs/src/main.rs:67-78 | the top row stays in slots 0-3 and the bottom row moves to slots 12-15, each amphipod in the same room |
| Adv23P2.World.constructor | adv-23-rs/src/p2.rs:327-334 | no games, no scores yet and a best score of `u64::MAX` |
| Adv24.Apply | adv-24-rs/src/main.rs:107-113 | `add`, `mul` and `eql` store the sum, the product and the 0/1 equality; `div` stores a quotient whose remainder is smaller than the divisor and has the sign of the dividend (rounding toward zero); `mod` stores the Euclidean remainder, in `0..|b|` and congruent to the dividend; a zero divisor is a panic, and only it |
| Adv24.ModMeaning | adv-24-rs/src/main.rs:111 | `rem_euclid` lies in `0..|b|` and differs from the dividend by a multiple of `|b|` |
| Adv24.SetReg | adv-24-rs/src/main.rs:241-242 | setting the input register changes that register to the digit and keeps the other three |
| Adv24.StepRegs | adv-24-rs/src/main.rs:102-114 | one register instruction changes only its target register, to what `Apply` gives for the target and the operand, and panics exactly when `Apply` does |
| Adv24.Run | adv-24-rs/src/main.rs:214-247 | running the program on a digit string panics only at a `div` or `mod` instruction |
| Adv24.Exec | adv-24-rs/src/main.rs:102-128 | executing an instruction in place on the register array leaves exactly the registers `StepRegs` computes |
| Adv24.InputsConcat | adv-24-rs/src/main.rs:214-247 | the `inp` instructions of two program pieces add up |
| Adv24.AllRegInputs | adv-24-rs/src/main.rs:202-212 | a block of register instructions reads no input |
| Adv24.RunConcat | adv-24-rs/src/main.rs:214-247 | running a program piece by piece, each piece from the state the last one left, is running the whole program with the inputs concatenated |
| Adv24.RunBlock | adv-24-rs/src/main.rs:226-228 | the block loop over the register array succeeds exactly when the run of the block does not panic, and leaves the registers the run ends with |
| Adv24.SplitRegIns | adv-24-rs/src/main.rs:202-212 | the program splits into a prefix of register instructions and a rest that is empty or starts with `inp`, which together are the program |
| Adv24.KeysOf | adv-24-rs/src/main.rs:223-224 | iterating the map visits exactly its keys |
| Adv24.Collect | adv-24-rs/src/main.rs:166-200 | after collecting, every pair's state is a key whose stored number is at least as large (part one) or as small (part two) as the pair's, and every stored entry is one of the pairs |
| Adv24.RunState | adv-24-rs/src/main.rs:225-229 | running the block on one state succeeds exactly when the run does not panic, and yields the state the run ends in |
| Adv24.MapBlock | adv-24-rs/src/main.rs:220-231 | mapping the block over the states succeeds exactly when no state panics; then every state's result is stored with a number at least as good as its own, and every stored entry is the result of some state with that state's number |
| Adv24.Spread | adv-24-rs/src/main.rs:239-244 | a state spreads into nine pairs: the input register set to 1..9 and the number extended by that digit |
| Adv24.SpreadAllHas | adv-24-rs/src/main.rs:235-245 | the `flat_map` holds every state with every digit |
| Adv24.SpreadAllFrom | adv-24-rs/src/main.rs:235-245 | everything in the `flat_map` is some state with some digit |
| Adv24.Expand | adv-24-rs/src/main.rs:232-246 | after an `inp`, every state with every digit is stored with a number at least as good as the extended one, and every stored entry is some state with some digit and that extended number |
| Adv24.Best | adv-24-rs/src/main.rs:248-258 | the answer is absent exactly when no state has `z == 0`; otherwise it is the number of such a state and at least as good as every such state's number |
| Adv24.SearchStart | adv-24-rs/src/main.rs:215-216 | the initial map (zero registers, number 0) is reached by the empty digit string and covers it |
| Adv24.SearchBlock | adv-24-rs/src/main.rs:219-231 | after a block, every stored state is reached by a digit string with its number, and every digit string reaches a stored state with a number at least as good |
| Adv24.InputStep | adv-24-rs/src/main.rs:238-244 | one more `inp` appends a digit to the string, multiplies the number by ten and adds the digit, and sets the input register |
| Adv24.InputSplit | adv-24-rs/src/main.rs:232-246 | a digit string for the program with one more `inp` is a digit string for the program before it followed by one digit |
| Adv24.InputWitnessed | adv-24-rs/src/main.rs:232-246 | after an `inp`, every stored state is still reached by a digit string with its stored number |
| Adv24.InputDominates | adv-24-rs/src/main.rs:232-246 | after an `inp`, every digit string still reaches a stored state whose number is at least as good as its own |
| Adv24.SearchPanic | adv-24-rs/src/main.rs:226-228 | a panic of the block in a reached state is a panic of some complete digit string |
| Adv24.SearchEnd | adv-24-rs/src/main.rs:248-258 | the best stored number with `z == 0` is the number of an accepted digit string and at least as good as every accepted one; when there is none, no digit string is accepted |
| Adv24.Search | adv-24-rs/src/main.rs:214-306 | with no panic, the answer is the number of an accepted digit string and the largest (part one) or smallest (part two) of all accepted ones; a panic means some digit string hits a zero divisor or none is accepted |
| Adv24.P1 | adv-24-rs/src/main.rs:214-259 | the answer is the largest number of a digit string after which `z` is 0 |
| Adv24.P2 | adv-24-rs/src/main.rs:261-306 | the answer is the smallest number of a digit string after which `z` is 0 |
| Adv24.ParseReg | adv-24-rs/src/main.rs:35-43 | a register is read only from its own one-letter name |
| Adv24.ParseRegName | adv-24-rs/src/main.rs:35-43 | each of `w`, `x`, `y`, `z` is read as its register |
| Adv24.ParseRVal | adv-24-rs/src/main.rs:45-50 | an operand is a register read from its name, or else the `i64` the text parses to |
| Adv24.OpOf | adv-24-rs/src/main.rs:66-73 | an operation is read only from its own four-character head |
| Adv24.OpOfName | adv-24-rs/src/main.rs:66-73 | each operation head is read as its operation and is not `inp ` |
| Adv24.ParseIns | adv-24-rs/src/main.rs:59-79 | a parsed line has at least four characters; it is an `inp` exactly when it starts with `inp `, and otherwise starts with its operation's head |
| Adv24.ParseRValText | adv-24-rs/src/main.rs:45-50 | a written operand, register or `i64` literal, is read back as itself |
| Adv24.ParseAbText | adv-24-rs/src/main.rs:52-57 | a register name, a space and a written operand are read back as that pair |
| Adv24.ParseAb | adv-24-rs/src/main.rs:52-57 | a pair is read only from a register's one-letter name, a space, and text that parses as the operand |
| Adv24.ParseInsOp | adv-24-rs/src/main.rs:59-79 | a line whose head names an operation and whose body parses as two operands is that register instruction |
| Adv24.ParseInsText | adv-24-rs/src/main.rs:59-79 | every instruction written in the input format, with its literal in the `i64` range, is read back as itself |
| Adv24.ReadData | adv-24-rs/src/main.rs:81-84 | one instruction per line, each as `parse_ins` reads it |
| Adv25.Target | adv-25-rs/src/main.rs:124-128 | one step of the herd (`get_diff` added, then wrapped by `set`/`is_occupied`) stays on the grid |
| Adv25.Source | adv-25-rs/src/main.rs:124-128 | the cell a herd member steps into `(x, y)` from is on the grid and its step lands on `(x, y)` |
| Adv25.SourceOfTarget | adv-25-rs/src/main.rs:124-128 | stepping and stepping back are inverse, so no two cucumbers of a herd share a target |
| Adv25.Wrap | adv-25-rs/src/main.rs:101-105 | a wrapped coordinate is below the dimension and a coordinate already in range is kept |
| Adv25.WrapMod | adv-25-rs/src/main.rs:101-105 | wrapping by repeated subtraction is the remainder `%` that `correct_coords` computes |
| Adv25.WrapTarget | adv-25-rs/src/main.rs:124-128 | `correct_coords(x + dx, y + dy)` of a herd's step is exactly `Target`, wrapping only past the last column or row |
| Adv25.Coords | adv-25-rs/src/main.rs:89 | the row-major position of entry `i` has a column below the width and indexes entry `i` back |
| Adv25.CoordsIn | adv-25-rs/src/main.rs:89 | an entry of a `height`-row grid lies in a row below `height` |
| Adv25.CoordsOf | adv-25-rs/src/main.rs:89 | the position of entry `y * width + x` is `(x, y)` |
| Adv25.Step | adv-25-rs/src/main.rs:117-137 | the herd's move yields a grid of the same shape |
| Adv25.StepCell | adv-25-rs/src/main.rs:117-137 | every cell of the moved grid is what the cell-wise movement rule gives |
| Adv25.CellsEqual | adv-25-rs/src/main.rs:76-80 | two grids of the same shape that agree on every cell are equal |
| Adv25.HerdMoves | adv-25-rs/src/main.rs:125-133 | a cucumber of the herd whose target is empty leaves its cell empty and fills the target; one whose target is taken stays; other cucumbers stay; an empty cell is filled exactly when the cucumber behind it moves |
| Adv25.StepStill | adv-25-rs/src/main.rs:117-137 | the move leaves the grid as it was exactly when no cucumber of the herd moves (the returned `did_move` is the change) |
| Adv25.StepKeepsOthers | adv-25-rs/src/main.rs:125-133 | a herd's move never puts a cucumber of the other herd where there was none |
| Adv25.StepKeepsHerd | adv-25-rs/src/main.rs:125-133 | the moving herd keeps its number of cucumbers |
| Adv25.StepKeepsEmpty | adv-25-rs/src/main.rs:125-133 | the number of empty cells is kept |
| Adv25.StepKeepsOtherHerd | adv-25-rs/src/main.rs:130-131 | the herd that does not move keeps exactly its positions |
| Adv25.StepKeepsCounts | adv-25-rs/src/main.rs:117-137 | a herd's move keeps the number of cells of every kind |
| Adv25.PartialStep | adv-25-rs/src/main.rs:126-133 | visiting one more cell of the scan changes the partially written board only at the mover's target or at the staying cucumber's own cell |
| Adv25.FilledStart | adv-25-rs/src/main.rs:119-123 | the fresh all-empty board is what the scan has written before its first cell |
| Adv25.Written | adv-25-rs/src/main.rs:112-115 | writing one cell keeps the grid's shape |
| Adv25.WrittenCells | adv-25-rs/src/main.rs:112-115 | writing changes the written cell to the value and no other cell |
| Adv25.FilledMove | adv-25-rs/src/main.rs:127-129 | writing a mover into its target advances the partially written board by one cell of the scan |
| Adv25.FilledStay | adv-25-rs/src/main.rs:130-131 | writing a staying cucumber in place advances the partially written board by one cell |
| Adv25.FilledSkip | adv-25-rs/src/main.rs:126-133 | an empty cell advances the scan without any write |
| Adv25.Visited | adv-25-rs/src/main.rs:126-133 | the board after visiting one cell keeps its shape |
| Adv25.FilledVisit | adv-25-rs/src/main.rs:126-133 | whatever the visited cell holds, the board after the visit is the scan's partial board one cell further |
| Adv25.FilledRow | adv-25-rs/src/main.rs:125-126 | the end of a row is the start of the next |
| Adv25.FilledEnd | adv-25-rs/src/main.rs:125-135 | after the last row the new board is exactly the moved grid |
| Adv25.MovedBeforeStep | adv-25-rs/src/main.rs:127-129 | after visiting a cell, some visited cucumber has moved exactly when one had before or this one moves |
| Adv25.MovedBeforeRow | adv-25-rs/src/main.rs:125-126 | the end of a row and the start of the next have seen the same movers |
| Adv25.MovedBeforeAll | adv-25-rs/src/main.rs:125-136 | after the whole scan some cucumber has moved exactly when some cucumber of the herd moves |
| Adv25.Grid.constructor | adv-25-rs/src/main.rs:67-73 | a grid holds the given cells, width and height |
| Adv25.Grid.CorrectCoords | adv-25-rs/src/main.rs:101-105 | the corrected coordinates are on the grid and each is the wrapped coordinate |
| Adv25.Grid.IsOccupied | adv-25-rs/src/main.rs:107-110 | true exactly when the cell at the wrapped coordinates is not empty |
| Adv25.Grid.Set | adv-25-rs/src/main.rs:112-115 | the cell at the wrapped coordinates becomes the value and nothing else changes |
| Adv25.Grid.Visit | adv-25-rs/src/main.rs:126-133 | one pass of the inner loop leaves the new board as `Visited` says and reports a move exactly when the cucumber moves |
| Adv25.Grid.TickSpace | adv-25-rs/src/main.rs:117-137 | the grid becomes the herd's move and the result is true exactly when some cucumber of the herd moves |
| Adv25.Grid.Tick | adv-25-rs/src/main.rs:139-143 | the east-facing herd moves and then the south-facing herd on the updated grid; the result is true exactly when either moves |
| Adv25.TickOf | adv-25-rs/src/main.rs:139-143 | a step keeps the grid's shape |
| Adv25.TickFn | adv-25-rs/src/main.rs:139-143 | one step, as the function the loop in `main` iterates, maps every grid of a shape to a grid of the same shape |
| Adv25.TickStill | adv-25-rs/src/main.rs:139-143 | a step leaves the grid as it was exactly when no cucumber of either herd moves, which is when `tick` returns false |
| Adv25.Grid.Settle | adv-25-rs/src/main.rs:146-156 | the number printed is the first step in which nothing moves; `None` means every step up to the fuel changed the grid |
| Adv25.ParseChar | adv-25-rs/src/main.rs:55-60 | `.`, `>` and `v` parse to the cell that prints as that character; every other character is the panic |
| Adv25.ParseLine | adv-25-rs/src/main.rs:52-61 | a line parses to one cell per character, printing back as the line, and panics exactly when some character is not `.`, `>` or `v` |
| Adv25.RowText | adv-25-rs/src/main.rs:88-94 | a row prints as one character per cell, `.`, `v` or `>` |
| Adv25.Rows | adv-25-rs/src/main.rs:84-95 | `Display` writes one text per row, in order |
| Adv25.Show | adv-25-rs/src/main.rs:82-98 | `Display` writes one character per cell and a line break between each two rows |
| Adv25.Row | adv-25-rs/src/main.rs:89 | the slice `y * width .. y * width + width` holds the cells of row `y` |
| Adv25.ParseRow | adv-25-rs/src/main.rs:52-61 | parsing the printed text of a row gives the row's cells |
| Adv25.ParseAllSnoc | adv-25-rs/src/main.rs:68-70 | reading one more line appends its cells to the collected cells |
| Adv25.ParseRows | adv-25-rs/src/main.rs:68-70 | lines that each read back as the next `width` cells read back as the first `k * width` cells |
| Adv25.ReadData | adv-25-rs/src/main.rs:63-74 | the width is the length of the first line and the height the number of lines; an empty input is the panic at `lines[0]` |
| Adv25.RowsPlain | adv-25-rs/src/main.rs:84-95 | no printed row is empty or holds a line break |
| Adv25.RowsParse | adv-25-rs/src/main.rs:52-61 | each printed row reads back as its run of cells |
| Adv25.ParseAllRows | adv-25-rs/src/main.rs:68-70 | the printed rows read back as the whole grid |
| Adv25.ReadShow | adv-25-rs/src/main.rs:63-98 | reading the lines of what `Display` writes gives back the grid, its width and its height |
| RustStr.FirstIndex | adv-19-rs/src/main.rs:173 | the index returned holds the first `c` of the string (or is its length when there is none) |
| RustStr.SplitOnce | adv-19-rs/src/main.rs:173-174 | `split_once` is `None` exactly when the separator does not occur; otherwise the string is `before + [c] + after` with no `c` in `before` |
| RustStr.SplitOnceAt | adv-19-rs/src/main.rs:173-174 | splitting `a + [c] + b` where `a` has no `c` gives back `(a, b)` |
| RustStr.TrimEnd | adv-19-rs/src/main.rs:172 | `trim_end` returns a prefix that does not end in white space, and everything it removed is white space |
| RustStr.TrimEndAfter | adv-19-rs/src/main.rs:172 | trimming text that ends in something other than white space, followed by white space, gives the text back |
| RustStr.ParseInt | adv-19-rs/src/main.rs:175 | a successful `parse` into an integer type returns a value within the type's range |
| RustStr.Signed | adv-19-rs/src/main.rs:175 | an integer written in decimal is nonempty, has no comma and does not end in white space |
| RustStr.ParseSigned | adv-19-rs/src/main.rs:175 | parsing an in-range integer written in decimal gives it back |
| RustStr.ParseDigits | adv-19-rs/src/main.rs:175 | a run of digits parses as its value when that value is in range |
| RustStr.ParseNegative | adv-19-rs/src/main.rs:175 | a `-` followed by digits parses as minus their value when that is in range |
| RustStr.ParseNoDigits | adv-19-rs/src/main.rs:175 | text containing no digit never parses |
| RustStr.LinesJoin | adv-25-rs/src/main.rs:19-33 | the lines `read_lines` yields for lines joined with `\n` are those lines, when none is empty or holds a `\n` |
| RustStr.LinesOne | adv-25-rs/src/main.rs:19-33 | a non-empty text without `\n` is one line |
| RustStr.LinesCons | adv-25-rs/src/main.rs:19-33 | text up to the first `\n` is the first line, and the lines of what follows come after it |

## Left out

- `fetch_line`, `fetch_int`, `fetch_bin_int`, `fetch_csv_ints`, `skip_line`, `read_lines` and the `PARSE_FILE`/`CHECK_INPUT` macros in every program: file I/O; each model takes the lines, numbers or parsed values as parameters, and `printf`/`println!` output is the model's return value.
- adv-1, adv-2, adv-3: C `int` overflow of the counters and sums is not modelled (unbounded integers); `atoi` is modelled by `CString` for inputs whose value fits in an `int`.
- Adv1P1.CountIncreases: requires every reading to be a C `int`, since the `INT_MAX` start value relies on it.
- Adv3P1.Balances: requires lines of at least twelve `0`/`1` characters; the full program's exit on any other character is `Adv3P1.CountColumns`.
- adv-3/p2.c and adv-4: the fixed capacities `LINE_COUNT_MAX` (1024), `MAX_CALLS` and `MAX_BOARDS` (128) are not modelled; input beyond them is silently ignored by the source and is simply not passed to the model.
- adv-4: the digit parsing inside `fetch_bingo` (`strtol` on each row) is not modelled; a board is built from its 25 numbers, each below 256 as the `unsigned char` cells require.
- adv-5-rs, adv-7-rs: the `LINE_RE` regex tokenising of `read_data` and the `SimpleLine` events are not modelled; lines and crab positions are parameters.
- adv-5-rs, adv-7-rs: `i32` coordinates and the `u32` of `gcd` are unbounded integers.
- Adv5.Solve: requires no line to start where it ends; `get_points` would step by (0, 0) and loop forever on such a line.
- Adv5.CollectByStart: the set's order (sorted by start) is not modelled, since the counts do not depend on it; which line of a start survives is a parameter (`keepLast`), because `BTreeSet::from_iter` keeps the first before Rust 1.57 and the last from then on.
- Adv5.SolveAsWritten: states the counts for the chosen survivor; `Adv5.SharedStartDropped` gives the lost overlap for any survivor.
- Vec2.GetPoints: requires a normalised line (`start < end`), which `read_data`'s swap provides; with `start > end` the source's iterator yields nothing.
- adv-7-rs: the `Vec2i`, `Line`, `gcd` and `unit_diff` copies in adv-7-rs/src/main.rs are unused there; they are the ones of `Vec2`.
- Adv7.Part1: requires at least one crab; `data[len / 2]` panics on an empty input, as `p2`'s `unwrap` does.
- Adv7.Solve: the library sort is not modelled; any sorted permutation of the input is accepted.
- adv-6-rs: `i128` counts and the `usize` exponent are unbounded; `read_data`'s split and parse are not modelled and the timers are a parameter.
- Matrix: the const generic dimensions are explicit parameters; `i128` and `i32` entries are unbounded integers.
- adv-8-rs: `read_lines` and the `\S+` regex are replaced by a split on ASCII white space (`Adv8.WordsFrom`); `u32` letter sets and the `u64` sum are unbounded.
- Adv8.StdIdentified: `get_true_digits` is shown correct for a line that lists the ten standard patterns, in any order; on a scrambled display it is not proved to recover the wiring.
- adv-8-rs/opt/main.c: `putc`/`fputs` output is a sequence of (combination, digit) records and strings; `unsigned int` wrap-around cannot occur below 1024.
- adv-9-rs: `chunk_count`, `take_number`, `take_white_numbers`, `map_nonwhite_chunks`, `take_ignore_white`, `take_any_white`, `expect_char` and `take_nonwhite` are unused by the solution (and `take_number` never returns a number).
- adv-9-rs: `u8` heights and `u32`/`usize` sums and products are unbounded.
- Adv9.Part1: requires a non-empty, rectangular grid; `data[0]` panics on an empty input, and a ragged row would index out of bounds in `data[v.0][v.1]`.
- adv-9-rs `find_drains_to`: the `HashSet` is a set and the `VecDeque` a sequence; hashing is not modelled.
- adv-10-rs: the unused parsing helpers copied from adv-9-rs are not modelled; `usize` completion scores are unbounded.
- Adv10.Median: requires at least one incomplete line; `line_scores[len / 2]` panics otherwise; the library sort is any sorted permutation.
- Adv11.Tick: states that the result obeys the flash rule, not that it is the only grid that does.
- Adv11.Part2: the source ticks until all cells flash; here at most `fuel` ticks are run and `None` reports running out, because the grid is not proved to fall in step.
- Adv11.Part1: the total is stated for a run whose every tick obeys the flash rule (`Adv11.Settled`); that rule also admits grids in which more cells flashed than the cascade makes flash, so the total is not tied to the least such grid.
- Adv11.Part2: likewise, the first all-flash tick is stated for a run of grids that obey the flash rule, not for the least such grids.
- adv-11-rs: `read_data`'s digit filter is not modelled; the grid is a 10×10 parameter of levels 0..9; the `PType` and `Action` enums are unused.
- adv-12-rs: `usize` route counts are unbounded.
- Adv12.Solve: requires that no tunnel join two big caves; the source recurses forever between two such caves.
- adv-13-rs: `read_data` (`split_once`, `parse`), `Cursor` and `display_map` are not modelled: parsing and printing; the dots and folds are parameters.
- Adv13.ApplyFold: requires every dot to be at most `2n` along the fold axis; `2 * r - a` underflows a `u32` otherwise.
- adv-14-rs `read_data`: parsing of the template line and the `AB -> C` rules is not modelled; the template is a character sequence and the rules a map.
- adv-14-rs `HashMap` iteration order: which of several letters with the same count `get_chain_score`, `get_char_max` and `get_char_min` meet first is not modelled; only the counts are stated.
- adv-14-rs `usize` counts: unbounded naturals.
- adv-14-rs `main`: the ten and then thirty more rounds are `Adv14.Run` with a round count; the `Fold` enum is unused.
- adv-15-rs `read_data` and `read_lines`: the digit lines are parsed by `Adv15.Solve` from a sequence of strings; file I/O is not modelled.
- Adv15.CheapestPath: states that the result is the top-left score of a grid in which every cell equals its recomputation from its neighbours, not that it is the least total risk of a path; `usize::MAX` is the unreached score and sums saturate at it as `checked_add` makes them.
- Adv15.Solve: both answers are stated as fixed-point top-left scores (`Adv15.Settles`), not as least total risks. It requires every digit to be at least 1: a digit 0 makes `by + bx + risk_grid[ly][lx] - 1` (adv-15-rs/src/main.rs:164) underflow the `u8` at the first tile, a panic in a debug build that the model does not give.
- adv-15-rs `inc_by`: unused there.
- Adv16.Exec: overflow is not modelled (unbounded integers). A literal carries up to 64 bits, so the source's `u64` sum and product can overflow: two literals of 2^40 multiplied pass `u64::MAX`. That panics in a debug build and wraps in a release build.
- Adv16.VersionSum: unbounded, where the source sums in `u32`.
- adv-16: the `println!` tracing inside `parse_single_packet` and the `bitvec` container are not modelled; bits are `seq<bool>` and a slice out of range is `None`.
- Adv16.Encode: the round trip is stated for trees whose operators all use the same length type; a transmission mixing both types decodes by the same `Single`, but the encoder does not produce one.
- adv-17: all arithmetic is unbounded where the source uses `i32`; only `int_sqrt`'s overflowing `checked_mul` is modelled, and it takes the same branch as a square above `x`.
- adv-17: `read_data`'s `scan_fmt!` parsing is not modelled; the target area is a `Target` value.
- Adv17.IntSqrt: requires `x >= 0`, since the source loops forever on a negative `x`; every `int_sqrt` call passes `1 + 8*tx` with `tx >= 0`.
- Adv17.HittingComplete: stated for `ty != 0`; for a target at height 0 the source tries no step count at all (the divisors of 0 are empty) and finds nothing.
- Adv18: the source rewrites the tree in place through `&mut` references (`leftmost`, `rightmost`, `attempt_explode`, `attempt_split`, `normalize`); here each step returns the new tree.
- Adv18.Normalize: the source loops until reduction ends; here more than `fuel` splits give `None`, because termination of snailfish reduction is not proved.
- Adv18.Add: requires both numbers to be nested at most four pairs deep; a deeper input makes the source's `assume_lit` panic and is not modelled.
- Adv18: `u32` literals are unbounded naturals; `ReducedMagFits` shows the magnitude of a reduced number fits in `u32`, but sums of split halves are not bounded.
- Adv18: `fully_explode` and `fully_split` (adv-18-rs/src/main.rs:92-106) are never called and are not modelled.
- Adv18: `read_lines` is file I/O; the list of numbers is a parameter.
- adv-19 `p1`: the placement worklist and the final maximum-distance loop are not modelled; the steps it is built from (`attempt_place_by`, `try_remove`, `combine_rt`, `man_dist`) are.
- adv-19 `combine_placed_chunks`: the union of placed beacon sets and its debug output are not modelled separately; `Image` and `PlacedWorld` give what it computes for one scanner.
- adv-19 `HashSet` iteration order: the order in which `try_find_trans` visits socket points and `try_find_rt` enumerates plug points is chosen nondeterministically, so the model does not say which fitting transform is found when several exist.
- adv-19 `i32` arithmetic: coordinates, translations and distances are unbounded integers; only `line_as_coords` checks the `i32` range.
- adv-19 `read_lines`: file I/O; the lines are a parameter of `ReadData`.
- adv-19 `generate_all_rotations`: the 24 rotations are proved proper, with the identity first; that they are pairwise distinct is not proved.
- adv-20 `enhance_count`: the source replaces `*self` in place; here the steps return the new image.
- adv-20 lookup closure: `table[idx]` panics on a table shorter than 512 entries; the model takes the lookup as a total function `f`.
- adv-20 `i32` coordinates: unbounded integers here.
- adv-20 `main` and `read_lines`: printing and file I/O; the lines are a parameter of `ReadData`.
- adv-21 `u32`/`usize` arithmetic: roll counts, scores and universe counts are unbounded; the real counts stay far below the limits.
- Adv21.Player.NewWithPos: requires a start of at least 1; `pos - 1` on a `u32` start of 0 panics in a debug build, which the model does not give.
- adv-21 `read_lines` and the printing in `p1`, `p2` and `main`: I/O; the lines are a parameter of `ReadData`.
- adv-21 `HashMap::drain` order: the next game is chosen nondeterministically; the result does not depend on the order.
- adv-22 `i32` and `u64` arithmetic: coordinates and volumes are unbounded integers; `rem.x.0 - 1` and the like cannot overflow here, and volume sums cannot wrap.
- Adv22.Volume: requires non-empty ranges; the source's `(hi - lo) as u64 + 1` on an empty range wraps to a huge number, and the model does not say what it gives.
- Adv22.Solve: requires every step's ranges to be non-empty, as in the puzzle input; the volume of the final list is not proved to equal the number of cubes that are on, only the disjointness and coverage that make it so.
- adv-22 `LinkedList` and its cursor: the list is a sequence; `remove_intersecting` builds the new sequence in the order the cursor leaves it.
- adv-22 `&s[2..]` on a non-character boundary and `read_lines`: strings are sequences of characters, and the lines are a parameter of `ReadData`.
- adv-24 `i64` and `u64` arithmetic: register values and numbers are unbounded, so an overflow (including `i64::MIN / -1`), which panics in a debug build, is not modelled; the register values of the puzzle stay small.
- Adv24.Collect: `collect_big` and `collect_small` are one method with a flag for which of the two comparisons keeps an entry; `p1` and `p2` are likewise `Adv24.Search` with that flag.
- adv-24 `HashMap` iteration order: the map's keys are visited in an unspecified order (`Adv24.KeysOf`); the results do not depend on it.
- adv-24 `unwrap_reg` and `unwrap_inp`: the program is split so that a block holds only register instructions and an `inp` follows it, so these never panic and are pattern matches in the model.
- adv-24 `&s[4..]` on a line shorter than four characters, and the panics in `parse_ab` and `parse_rval`: all are `None` of `Adv24.ParseIns`; `read_lines` is I/O, and the lines are a parameter of `ReadData`.
- adv-24 `Game`: unused by the solution.
- adv-25 `usize` arithmetic: coordinates, widths and heights are unbounded naturals; `y * width + x` and `x + diff.0` cannot overflow here.
- Adv25.Grid.Settle: `main` loops over `1..` until a step in which nothing moves; here the loop stops after `fuel` steps with `None`, because the herds are not proved to settle.
- Adv25.Diff: requires a herd; `get_diff` on `Space::Empty` is `unreachable!` and every caller passes a herd.
- Adv25.Shaped: requires a width and a height of at least 1. For an empty first line the source builds a 0-wide grid, finds nothing to move and prints `1> 1`; `Adv25.ReadData` reads such a grid, but the steps and `Adv25.Grid.Settle` are not modelled for it.
- adv-25 `read_data`: lines of other lengths than the first are not rejected by the source, and the model keeps that (`Adv25.ReadData` does not say the grid is well shaped).
- adv-25 `swap` in `tick_space`: the grid takes the new board's cells; the old board's object is dropped and not modelled.
- adv-25 `read_lines`, `println!` and the commented-out debug printing: I/O; the lines are a parameter of `ReadData`.
- RustStr.TrimEnd, Adv8.Space, Adv12.Big: white space and upper case are the ASCII ones (`CString.IsSpace` is C's `isspace` in the C locale); Rust's `trim_end`, the regex class `\S` and `is_uppercase` also treat other Unicode characters so, which the model does not.
- Adv23P1.BestScore: does not prove the answer is the least energy over all ways to win, only that it is the cost of a legal winning way; the search only tries the source's moves (a room fills from the hallway first, and rooms never pass amphipods to each other directly).
- Adv23P2.BestScore: likewise does not prove minimality; moves are strictly legal (nothing in the slot above) only when the start is packed, which `Adv23Main.AlterPacked` gives for a full input.
- adv-23 `best_score` replay loop and `display_game`: printing of the best way found; its role in the model is `Adv23P1.Replay`, which checks each move of the recorded way.
- adv-23 `u64` and `usize` arithmetic: scores and ids are unbounded; `Adv23P2.World` starts from `u64::MAX` and the model keeps the best score at or below it, but a sum past `u64::MAX` is not modelled.
- adv-23 p2 `HashMap<Game, u64>`: a map keyed by the whole game (score and move count included, as the derived `Hash` and `Eq` do), so a game is queued at most once; hashing itself is not modelled.
- adv-23 p2 `has_room_jam`, `get_room_take_idx`, `get_room_give_idx`, the commented-out room-to-room loop and `best_score_r`, and `Ord for Game`: unused by the solution (`has_room_jam` always answers `false` and is never called).
- Adv23P2.WithSwapRr: requires the door of the lower-numbered slot to lie left of the other's, since the source subtracts in `u64`; it is only called from commented-out code.
- adv-23 `println!` calls ("BASED", "DITCH", "W:", the `@` rows in `p2_alter_rooms`) and `read_lines`: I/O; the lines are a parameter of `Adv23Main.ReadData`.

## Findings

| source | as written | input that shows it | evidently intended | confidence | as-written member | corrected member |
|---|---|---|---|---|---|---|
| adv-19-rs/src/main.rs:321-328 | `RotAndTrans::invert` sets the translation to `trans.apply_rot(rot.inverse())`, not negated | rotation `EMPTY_ROTATION`, translation (1,0,0): the origin goes to (1,0,0) and then to (2,0,0) instead of back | the translation of the inverse is `-(transpose(R)·t)`; `invert` is never called, so the answers are not affected | high; not executed | Adv19.InvertAsWrittenFails | Adv19.InvertUndoes |
| adv-5-rs/src/main.rs:116-126, 292 | `Ord for Line` compares only `start`, and `main` collects the lines into a `BTreeSet`, so of several lines with the same start only one survives to be counted | lines (0,0)->(2,0) and (0,0)->(0,2): (0,0) lies on two lines but is not counted, because the set keeps one line per start (the first or the last, depending on the standard library version) | every line of the input is walked (for example collecting into a `Vec`), so each point on two or more lines is counted | medium; not executed | Adv5.SameStartDropsOverlap | Adv5.Solve |
