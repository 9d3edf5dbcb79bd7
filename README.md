# Advent of Code 2025 solvers, modelled in Dafny

This project models the puzzle solvers of the Rust repository
`Zargn/AdventOfCode25` whose logic is finished, uses integers only and runs
sequentially. Each day has one module:

- `Day01Dial` (`day01_dial.dfy`): a safe dial numbered 0 to 99. `Rotation::parse`
  reads an `L`/`R` instruction. `Dial::turn` moves the `u8` position with
  wrap-around. `calculate` counts how often the dial reads 0.
- `Day03Batteries` (`day03_batteries.dfy`): battery banks. `BatteryBank::parse` reads one digit per
  character. The greedy `joltage` pass picks the largest two-digit number
  `10 * b[i] + b[j]` with `i < j`. `calculate` sums it over all banks.
- `Day03Operations` (`day03_operations.dfy`): the character tokenizer of
  `operations.rs`. It has the states `None`, `Integer`, `Float` and `String`, the four
  `*_get_next` transitions, `Operation::next` and `collect_operation`.
- `Day04Tiles` (`day04_tiles.dfy`): the padded 138 x 138 tile array
  (`class Map` over an `array2`). It is loaded in place from the input lines. Then
  `is_accessable` and `accessable_tiles` count the occupied tiles whose
  3 x 3 block holds at most four occupied tiles.
- `Day07Beams` (`day07_beams.dfy`): beams falling through splitters. Part one
  rewrites the grid row by row and counts splits. Part two drains a queue of
  beams and counts the paths ("timelines") that reach the last row.
- `Day09Rectangles` (`day09_rectangles.dfy`): rectangles spanned by pairs of
  points. Part one takes the largest area. Part two covers `Point`,
  `Rectangle`, `dir`, `outside`, the `is_valid` filter and its `calculate`.
- `Day11Paths` (`day11_paths.dfy`): part one of the path counter. It reads the
  connection table, seeds "you" and "out", and runs the recursive `solver`.
  `class PathCounter` holds the table and the `path_trace` set that `solver` mutates.

Two helper modules stand in for Rust's standard library. `Wrappers` has `Option`
and `Result`. `RustText` has `str::parse` for unsigned and signed integers and
`str::split` with a non-empty separator.

The source's integers are modelled as unbounded `int`/`nat`, and the input
file as a sequence of lines. Where the source would panic (an empty slice,
a `usize` underflow, an index out of range), the model states the condition
as a precondition. Loops, in-place updates and recursion are methods. Each
method is proved against a function of its inputs (`ParseAll`,
`ZeroCount`, `BestJoltage`, `Scan`, `Timelines`/`SumOver`, `IsLargestArea`,
`IsValid`, `SolveSpec`/`LoopSpec`). Lemmas then prove what those functions
promise.

## Model

| member | source | states |
|---|---|---|
| Day01Dial.Parse | Rust/2025/day_01/src/main.rs:63-85 | parsing succeeds exactly when the first character is `L` or `R` and the rest is a `u16`; the direction follows the letter and the steps are the parsed value; any other letter gives the direction error, and an `L`/`R` followed by a non-`u16` gives the steps error, each exactly in its case |
| Day01Dial.ParseInstruction | Rust/2025/day_01/src/main.rs:63-85 | every rotation with at most 65535 steps is read back from its written form `L<n>`/`R<n>` |
| Day01Dial.Turned | Rust/2025/day_01/src/main.rs:97-119 | a dial position after a turn always lies in 0..99 |
| Day01Dial.Dial.constructor | Rust/2025/day_01/src/main.rs:93-95 | a new dial points at 50 |
| Day01Dial.Dial.Turn | Rust/2025/day_01/src/main.rs:97-119 | the new position is the old one plus the signed steps, modulo 100 (Euclidean); it stays in 0..99 with no `u8` overflow, and the returned value is the new position |
| Day01Dial.TurnCases | Rust/2025/day_01/src/main.rs:101-117 | the source's case split (borrow 100 on a left turn past 0, subtract 100 on a right turn past 99) gives the Euclidean residue |
| Day01Dial.WholeTurnsIgnored | Rust/2025/day_01/src/main.rs:98-101 | `s` and `s + 100` steps end at the same position |
| Day01Dial.TurnedLanding | Rust/2025/day_01/src/main.rs:34-36 | turning one rotation at a time from 50 agrees with 50 plus the running sum of signed steps, modulo 100 |
| Day01Dial.ParseAll | Rust/2025/day_01/src/main.rs:34-35 | a successful parse yields one rotation per line |
| Day01Dial.ParseAllLines | Rust/2025/day_01/src/main.rs:34-35 | a successful parse holds each line's own rotation in order; a failed one carries the error of a line that does not parse, every line before it having parsed, so that it is the first failing line's error |
| Day01Dial.ParseAllFront | Rust/2025/day_01/src/main.rs:34-35 | the line at `i` decides: its parse error ends the parse with that error, or its rotation comes first, before those of the lines after it |
| Day01Dial.Calculate | Rust/2025/day_01/src/main.rs:30-43 | needs only the lines it reaches to be sliceable; the result is the first parse error, or else the number of rotations after which the dial reads 0 |
| Day01Dial.SampleCountsThree | Rust/2025/day_01/src/main.rs:122-133 | the puzzle's ten-instruction sample leaves the dial at 0 three times, the value the test expects |
| Day03Batteries.ParseBank | Rust/2025/day_03/src/main.rs:37-43 | parsing succeeds exactly when every character is a digit, and then yields one digit per character in order |
| Day03Batteries.BestPairIsBest | Rust/2025/day_03/src/main.rs:10-22 | the reference definition is the maximum of `10 * b[i] + b[j]` over all `i < j`, and it is attained |
| Day03Batteries.Joltage | Rust/2025/day_03/src/main.rs:45-64 | for two or more batteries the greedy pass returns the maximum over all pairs `i < j`; a single battery gives itself; the result is at most 99 |
| Day03Batteries.TensDigitSkipsLast | Rust/2025/day_03/src/main.rs:49-57 | the tens digit is the best battery among all but the last one |
| Day03Batteries.UnitsDigitSkipsFirst | Rust/2025/day_03/src/main.rs:58-63 | the units digit is at most the best battery after the first one |
| Day03Batteries.Calculate | Rust/2025/day_03/src/main.rs:67-77 | fails exactly when some line holds a non-digit; otherwise returns the sum of the best joltages of all banks |
| Day03Operations.IntegerResult | Rust/2025/day_03/src/operations.rs:71-74 | an integer text collects to an `Integer` exactly when it parses as an `i64`, and then holds the parsed value; otherwise it collects to `ParsingError(text)` |
| Day03Operations.FloatResult | Rust/2025/day_03/src/operations.rs:90-93 | a float text collects to a `Float` exactly when it is a literal of Rust's `f64` grammar, and then holds that text; otherwise it collects to `ParsingError(text)` |
| Day03Operations.NoneGetNext | Rust/2025/day_03/src/operations.rs:51-56 | the new state holds just the character, emits nothing, and is well formed |
| Day03Operations.IntegerGetNext | Rust/2025/day_03/src/operations.rs:58-80 | a token is emitted exactly when the character is neither a digit nor a `.` after text other than `-`; the token is `IntegerResult` of the old text, and the new state is the one `None` starts from that character |
| Day03Operations.FloatGetNext | Rust/2025/day_03/src/operations.rs:82-99 | a token is emitted exactly when the character is not a digit; the token is `FloatResult` of the old text, and the new state is the one `None` starts from that character |
| Day03Operations.StringGetNext | Rust/2025/day_03/src/operations.rs:101-111 | a token is emitted exactly on a space, and then it is the accumulated string and the state is `None` |
| Day03Operations.Next | Rust/2025/day_03/src/operations.rs:18-25 | every state other than `None` holds non-empty text of its kind, before and after each character; only a space after a string returns to `None` |
| Day03Operations.CollectOperation | Rust/2025/day_03/src/operations.rs:29-48 | always returns to `None`; `None` gives `OperationResult::None` and nothing else does; a string is returned unchanged; an integer gives `IntegerResult` of its text and a float `FloatResult` of its text |
| Day03Operations.NoneStarts | Rust/2025/day_03/src/operations.rs:51-56 | from `None`, a digit or `-` starts an integer and any other character, a space too, starts a string, emitting nothing |
| Day03Operations.IntegerAppendsDigit | Rust/2025/day_03/src/operations.rs:60-64 | an integer takes a digit by appending it, emitting nothing |
| Day03Operations.IntegerDotStartsFloat | Rust/2025/day_03/src/operations.rs:65-69 | a `.` turns an integer into a float holding the `.`, unless the text is exactly `-` |
| Day03Operations.IntegerEnds | Rust/2025/day_03/src/operations.rs:70-78 | any other character emits the integer result and restarts from `None` with that character |
| Day03Operations.DigitsBuildInteger | Rust/2025/day_03/src/operations.rs:51-64 | feeding a non-empty run of digits to `next` from `None`, one character at a time, ends in the integer state holding exactly that run and emits no token |
| Day03Operations.DigitsThenSpace | Rust/2025/day_03/src/operations.rs:51-78 | a run of digits followed by a space emits exactly one token, the run's integer result, and leaves a string state holding the space |
| Day03Operations.FloatDigitGivesInteger | Rust/2025/day_03/src/operations.rs:84-88 | a float followed by a digit appends it but comes back as an `Integer` state |
| Day03Operations.StringAppends | Rust/2025/day_03/src/operations.rs:101-110 | a string appends every character other than a space, digits and `-` included |
| Day03Operations.IntegerWithDotFails | Rust/2025/day_03/src/operations.rs:71-74 | an integer text holding a `.` (reachable through the float quirk) always collects to a parsing error |
| Day03Operations.FloatTextBody | Rust/2025/day_03/src/operations.rs:90-93 | a float text has no exponent and is no special word, so it parses exactly when its unsigned part is a mantissa |
| Day03Operations.FloatCollects | Rust/2025/day_03/src/operations.rs:90-93 | a float text collects to a `Float` exactly when no `.` precedes its final `.` |
| Day04Tiles.ParseTile | Rust/2025/day_04/src/main.rs:43-49 | `.` is empty, `@` is occupied, and every other character is an error naming it |
| Day04Tiles.ParseTileChar | Rust/2025/day_04/src/main.rs:43-49 | parsing the character that `Map::print` writes for a tile gives that tile back |
| Day04Tiles.Map.Blank | Rust/2025/day_04/src/main.rs:63-64 | a new 138 x 138 array is all empty and `size_override` is 0 |
| Day04Tiles.LoadFromLines | Rust/2025/day_04/src/main.rs:61-76 | fails exactly when some line has a character other than `.`/`@`, with the first such character; otherwise character `x` of line `y` sits at `[x + 1, y + 1]`, every other cell is empty, and `size_override` is the number of lines |
| Day04Tiles.BorderStaysEmpty | Rust/2025/day_04/src/main.rs:52-53 | with at most 136 lines of at most 136 characters, the outer ring of the array stays empty |
| Day04Tiles.Map.IsAccessible | Rust/2025/day_04/src/main.rs:94-104 | true exactly when the 3 x 3 block around the tile, centre included, holds at most four occupied tiles; every read is inside the array |
| Day04Tiles.Map.AccessibleTiles | Rust/2025/day_04/src/main.rs:78-92 | the result is the number of occupied tiles of the data square whose block is accessible, which is at most the number of occupied tiles there; the grid is not modified |
| Day04Tiles.AccessibleAtMostOccupied | Rust/2025/day_04/src/main.rs:78-92 | only occupied tiles are counted, so the count never exceeds the occupied tiles of the rows scanned |
| Day04Tiles.Calculate | Rust/2025/day_04/src/main.rs:121-124 | fails exactly when some line has a character that is no tile; otherwise the count is at most the size of the data square |
| Day07Beams.Step | Rust/2025/day_07/src/main.rs:88-97 | a beam above `.` or `|` writes `|` below it; a beam above `^` writes `|` on both sides of the splitter and counts one split; a beam above anything else is an error; only row `y + 1` changes, and only with `|` |
| Day07Beams.Scan | Rust/2025/day_07/src/main.rs:86-100 | the scan only ever writes `|`, never in the first row, and the split count only grows |
| Day07Beams.CalculatePartOne | Rust/2025/day_07/src/main.rs:76-103 | uneven lines are an error; otherwise the result is the scan's error or its split count |
| Day07Beams.StepSplitsBound | Rust/2025/day_07/src/main.rs:88-97 | one step counts a split only at the splitter directly below it and leaves lower rows alone |
| Day07Beams.ScanSplitsBound | Rust/2025/day_07/src/main.rs:86-100 | every split is counted at a splitter that the scan reaches from directly above |
| Day07Beams.PartOneSplitsBound | Rust/2025/day_07/src/main.rs:86-102 | part one never counts more splits than there are splitters below the first row |
| Day07Beams.Timelines | Rust/2025/day_07/src/main.rs:121-134 | a beam has at least one path to the last row and at most 2^(rows below it); the only error is an invalid character |
| Day07Beams.Seeds | Rust/2025/day_07/src/main.rs:115-119 | the starting beams are exactly the `S` cells of the first row, on row 0 |
| Day07Beams.QueueFront | Rust/2025/day_07/src/main.rs:121 | taking the front beam off the queue removes its paths and its weight from the totals |
| Day07Beams.QueueAppend | Rust/2025/day_07/src/main.rs:127-130 | putting a beam at the back of the queue adds its paths and its weight |
| Day07Beams.BottomStep | Rust/2025/day_07/src/main.rs:122-125 | a beam on the last row adds one timeline, and the queue weight drops |
| Day07Beams.DownStep | Rust/2025/day_07/src/main.rs:126-127 | a beam above `.` moves one row down: total paths are kept and the queue weight drops |
| Day07Beams.SplitStep | Rust/2025/day_07/src/main.rs:128-131 | a beam above `^` becomes the two beams beside the splitter: total paths are kept, the queue weight drops, and `x - 1` does not underflow |
| Day07Beams.DrainQueue | Rust/2025/day_07/src/main.rs:121-134 | the queue loop terminates and returns the sum of the paths of the initial beams, or the first error |
| Day07Beams.CalculatePartTwo | Rust/2025/day_07/src/main.rs:105-137 | uneven lines are an error; otherwise the result is the total number of paths from every `S` of the first row |
| Day07Beams.SumOverBounds | Rust/2025/day_07/src/main.rs:114-136 | the timelines lie between the number of starts and that number times 2^(rows - 1) |
| Day09Rectangles.GetPoint | Rust/2025/day_09/src/main.rs:27-33 | succeeds exactly when the first two comma-separated parts are `i64`s, giving the point they spell; a bad first part is reported before a missing second part (E2); later parts are ignored |
| Day09Rectangles.GetPointRoundTrip | Rust/2025/day_09/src/main.rs:163-169 | reading back a point written as `x,y` gives the point |
| Day09Rectangles.ParseAll | Rust/2025/day_09/src/main.rs:37-39 | on success, one point per line in order; on failure, the error of some line |
| Day09Rectangles.ParseAllFailurePersists | Rust/2025/day_09/src/main.rs:37-39 | once a line fails, the whole input fails with that error |
| Day09Rectangles.ParsePoints | Rust/2025/day_09/src/main.rs:273-276 | the reading loop returns the parsed points or the first line's error |
| Day09Rectangles.PairArea | Rust/2025/day_09/src/main.rs:44 | the area of two points is at least each side length, both corners included |
| Day09Rectangles.LargestArea | Rust/2025/day_09/src/main.rs:41-49 | the pair loop returns the largest area over all pairs of distinct positions, or 0 without a pair |
| Day09Rectangles.LargestAreaAttained | Rust/2025/day_09/src/main.rs:41-51 | the largest area is 0 exactly when there are fewer than two points, and is otherwise some pair's area |
| Day09Rectangles.PartOne | Rust/2025/day_09/src/main.rs:35-52 | the first parse error, or else the largest pair area |
| Day09Rectangles.Add | Rust/2025/day_09/src/main.rs:151-157 | adding a point shifts each coordinate by that point's coordinate |
| Day09Rectangles.Clamp | Rust/2025/day_09/src/main.rs:173-174 | a clamped value lies in -1..1, keeps its sign and zero, and leaves -1..1 unchanged |
| Day09Rectangles.Dir | Rust/2025/day_09/src/main.rs:171-176 | each coordinate of the direction is in -1..1 with the sign of `to - from` |
| Day09Rectangles.DirStepsCloser | Rust/2025/day_09/src/main.rs:171-176 | one step in that direction brings the point one closer to the target in every coordinate that differs |
| Day09Rectangles.Outside | Rust/2025/day_09/src/main.rs:265-270 | the quarter turn is perpendicular to the direction and has the same length |
| Day09Rectangles.OutsideFourTimes | Rust/2025/day_09/src/main.rs:265-270 | two quarter turns reverse a direction and four give it back |
| Day09Rectangles.RectangleOf | Rust/2025/day_09/src/main.rs:189-208 | `corner_1` is the componentwise minimum and `corner_2` the maximum |
| Day09Rectangles.RectangleOfSymmetric | Rust/2025/day_09/src/main.rs:186-208 | the parsed rectangle does not depend on the order of the two points |
| Day09Rectangles.ContainsBetween | Rust/2025/day_09/src/main.rs:257-262 | a parsed rectangle contains exactly the points between its source points, and contains both of them |
| Day09Rectangles.Area | Rust/2025/day_09/src/main.rs:252-255 | a rectangle covers at least one tile |
| Day09Rectangles.AreaIsPairArea | Rust/2025/day_09/src/main.rs:252-255 | the area of the rectangle of two points is part one's area of the same points |
| Day09Rectangles.NextIndex | Rust/2025/day_09/src/main.rs:279-283 | the point after the last one is the first one |
| Day09Rectangles.PrevIndex | Rust/2025/day_09/src/main.rs:211-213 | the point before the first one is the last one, and the next of the previous is the point itself |
| Day09Rectangles.CheckValid | Rust/2025/day_09/src/main.rs:210-250 | the pass over the points accepts exactly when every point passes its checks against the point before it, the first one against the last |
| Day09Rectangles.MarkAll | Rust/2025/day_09/src/main.rs:278-283 | every point is paired with the direction to the next one, the last with the direction to the first |
| Day09Rectangles.MarkDirections | Rust/2025/day_09/src/main.rs:278-283 | the direction loop gives the points that `MarkAll` describes |
| Day09Rectangles.BoundStep | Rust/2025/day_09/src/main.rs:290-294 | one pair of the loop keeps the result an upper bound of the valid areas seen and an area actually attained |
| Day09Rectangles.LargestValid | Rust/2025/day_09/src/main.rs:286-296 | the result is the largest area over pairs whose rectangle `is_valid` accepts, or 0 |
| Day09Rectangles.PartTwo | Rust/2025/day_09/src/main.rs:272-299 | the first parse error, or else the largest accepted area over the points marked with their directions |
| Day09Rectangles.PartTwoAtMostPartOne | Rust/2025/day_09/src/main.rs:286-296 | part two only filters part one's pairs, so its answer never exceeds part one's on the same points |
| Day11Paths.ParseConnections | Rust/2025/day_11/src/main.rs:69-80 | reading fails exactly when some line has no `": "`, with the first such line |
| Day11Paths.ParseConnectionsTable | Rust/2025/day_11/src/main.rs:70-79 | the table has one entry per line head, and each holds all of that id's targets in input order, with zero count and both flags clear |
| Day11Paths.AddLineTargets | Rust/2025/day_11/src/main.rs:72-79 | adding a line appends its targets to its head's list and leaves every other entry alone |
| Day11Paths.ParseStep | Rust/2025/day_11/src/main.rs:69-80 | reading one more line adds that line to the table, or fails on it |
| Day11Paths.ParseFailurePersists | Rust/2025/day_11/src/main.rs:71-73 | once a line fails, the whole input fails with that error |
| Day11Paths.Seed | Rust/2025/day_11/src/main.rs:82-83 | "you" gets count 1 and "out" an entry; no other entry changes and no other key appears |
| Day11Paths.SolveSpec | Rust/2025/day_11/src/main.rs:97-163 | a solver call keeps the keys of the table and removes at most the current id from the trace |
| Day11Paths.PathCounter.constructor | Rust/2025/day_11/src/main.rs:85 | the solver starts with the seeded table and an empty trace |
| Day11Paths.PathCounter.Solve | Rust/2025/day_11/src/main.rs:97-163 | the result and the new table and trace are those of `SolveSpec`; recursion depth is bounded by the number of keys, since each call's id was freshly traced |
| Day11Paths.PathCounter.ProcessTargets | Rust/2025/day_11/src/main.rs:125-156 | the loop over the current node's targets does what `LoopSpec` describes |
| Day11Paths.PathCounter.VisitTarget | Rust/2025/day_11/src/main.rs:126-133 | one target joins the trace; it is solved only when newly traced and the current id is not "out"; a missing entry is E5 |
| Day11Paths.PathCounter.FeedTarget | Rust/2025/day_11/src/main.rs:134-154 | the newly traced target receives the count (or the count less `last_cost` once the current node is visited) and is solved with its old count |
| Day11Paths.SolveKeepsShape | Rust/2025/day_11/src/main.rs:97-163 | a solver call keeps every key, target list and dead-end flag, only raises counts, never clears `visited`, and fails only with E2 or E5 on an id without an entry |
| Day11Paths.LoopKeepsShape | Rust/2025/day_11/src/main.rs:125-156 | the same for the loop over the targets |
| Day11Paths.SolveFinishes | Rust/2025/day_11/src/main.rs:157-161 | after a successful call the current node is visited and its id is no longer in the trace |
| Day11Paths.LoopAtOut | Rust/2025/day_11/src/main.rs:126 | at "out" every target joins the trace but none is solved and nothing else changes |
| Day11Paths.SolveAtOut | Rust/2025/day_11/src/main.rs:108-162 | solving "out" (no dead-end flag) returns `true`, marks it visited and takes it off the trace |
| Day11Paths.SeededHasNoDeadEnds | Rust/2025/day_11/src/main.rs:108-110 | no entry of a freshly read table has its dead-end flag set, so the early return never fires on such a table |
| Day11Paths.SolveFeedsOut | Rust/2025/day_11/src/main.rs:134-154 | a node feeding only "out" pushes its count onto "out" and returns `false` |
| Day11Paths.ReadLine | Rust/2025/day_11/src/main.rs:70-79 | reading one line does what `AddLine` describes |
| Day11Paths.ReadConnections | Rust/2025/day_11/src/main.rs:69-80 | the reading loop yields the table `ParseConnections` describes |
| Day11Paths.Calculate | Rust/2025/day_11/src/main.rs:65-95 | read, seed, solve from "you", and answer with the count of "out", as `CalculateSpec` describes |
| Day11Paths.ExampleTable | Rust/2025/day_11/src/main.rs:69-80 | the lines `you: a b`, `a: out`, `b: out` give the expected three-entry table |
| Day11Paths.ExampleSolve | Rust/2025/day_11/src/main.rs:97-163 | on that table, solving from "you" returns `true` and leaves count 2 on "out" |
| Day11Paths.ExampleCountsTwoPaths | Rust/2025/day_11/src/main.rs:65-95 | on those lines the answer is 2, the number of paths from "you" to "out" |
| RustText.ParseUnsigned | Rust/2025/day_01/src/main.rs:74 | a parsed unsigned value is at most the type's maximum, and the text is neither empty nor a lone `+` |
| RustText.DecimalTextValue | Rust/2025/day_01/src/main.rs:74 | the decimal text of a number reads back as that number |
| RustText.ParseSingleDigit | Rust/2025/day_03/src/main.rs:40 | a one-character string parses as a `u8` exactly when it is an ASCII digit, to that digit's value |
| RustText.ParseI64 | Rust/2025/day_03/src/operations.rs:34 | a parsed signed value lies in the `i64` range, and the text is neither empty nor a lone sign |
| RustText.ParseI64IntText | Rust/2025/day_09/src/main.rs:30-31 | every `i64` reads back from its decimal text |
| RustText.IndexOf | Rust/2025/day_11/src/main.rs:70 | the separator is found at the first position where it matches, and nowhere before |
| RustText.JoinSplit | Rust/2025/day_09/src/main.rs:28 | joining the split parts with the separator gives the original text |
| RustText.SplitPiecesFree | Rust/2025/day_11/src/main.rs:73 | no split part contains the separator |
| RustText.SplitAtOnly | Rust/2025/day_11/src/main.rs:70 | text made of two separator-free parts around one separator splits into exactly those parts |

## Left out

- Reading the input file (`reader::get_lines`), every `main`, all console output (including the debug prints inside the day 11 `solver`) and `Map::print`. The input is a sequence of lines, and output has no effect on results.
- The `f64` value of a collected float token. `FloatResult` keeps the literal text that Rust's `f64` grammar accepts, so no floating-point arithmetic is modelled.
- Machine-width integers: the `i64` products of day 9, the `u64` sums of days 3, 4, 7 and 11, and the `u16`/`u8` values of day 1 are unbounded. `Dial.Turn` proves that the `u8` position never overflows. `count - last_cost` in day 11 is proved never to go negative. Overflow of the sums and products is not modelled.
- Panics become preconditions:
  - a reached instruction that is empty or starts with a non-ASCII character (`Day01Dial.ReachedSliceable`);
  - an empty bank in `joltage`;
  - in day 4, a line of more than 137 characters, more than 137 lines, or a tile `@` in row or column 137 of a 137-line map, each covered by the stronger bounds below;
  - an empty grid and splitters in the first or last column in day 7;
  - an empty point list in day 9 part two.
- Day07Beams.CalculatePartOne: its precondition `EdgesClear` rules out a splitter in the first or last column of any row below the first. The source needs this only for splitters a beam actually reaches, so the precondition is stronger than needed. The same holds for `Day07Beams.CalculatePartTwo`.
- Day03Batteries.Calculate: requires every line to be non-empty, although the source panics only when an empty line is reached after all earlier lines have parsed.
- Day01Dial.Calculate: needs only the lines it reaches to be sliceable (`ReachedSliceable`), as the source does: a line after a parse error is never read.
- Day04Tiles.LoadFromLines: requires at most 137 lines and at most 137 characters in every line. The source fails with the tile error at the first bad line before it reads later lines, and it accepts a 138th line only when that line is empty. So a longer line after a bad one, or an empty 138th line, is excluded here although the source handles it.
- Day04Tiles.Calculate: requires at most 136 lines, which is stronger than the source. With 137 lines the source panics only when a tile `@` stands in row or column 137, where `is_accessable` reads past the array; such a map without those tiles is accepted there but excluded here. It also states the error case and a bound, not the exact count in terms of the lines. The exact count is stated by `Map.AccessibleTiles` on the loaded array, and `LoadFromLines` states what that array holds.
- Day09Rectangles.CheckValid: models what `is_valid` computes. It does not claim that the check decides whether a rectangle lies inside the polygon; the source calls it a heuristic.
- E1 in day 9 (`get_point`, `Point::parse`) and E1 in day 11 are not modelled, because `split` always yields a first part. E3, E4 and E6 in day 11 are not modelled, because they follow a successful lookup of the same id, and `SolveKeepsShape` shows the keys never change.
- The expected values of the tests (3, 357, 13, 21 and 40, 50 and 24, 5) depend on `testdata.txt` files that are not part of this model. `Day01Dial.SampleCountsThree` proves 3 on the puzzle's published sample, and `Day11Paths.ExampleCountsTwoPaths` proves 2 on a three-line network of its own.
- Day 11 part two returns `NotImplemented` and is not modelled. Days 2, 5, 6, 8 and 10 hold stubs or floating-point code and are not part of this model.
- Loops inside one source function are separate methods, each tied to a function: `ParsePoints`, `LargestArea`, `MarkDirections` and `LargestValid` (day 9), `DrainQueue` (day 7), and `ProcessTargets`, `VisitTarget`, `FeedTarget`, `ReadLine` and `ReadConnections` (day 11).
- The `HashMap`/`HashSet` of day 11 are a `map` and a `set`, so iteration order is never observed. The source only iterates the `Vec` of targets, which keeps its order.
