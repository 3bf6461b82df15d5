# Advent of Code 2024, days 1 to 7, in Dafny

A model of eight small Rust programs that solve puzzles of Advent of Code
2024, with proofs about them. Each program reads a puzzle input, computes one
number and prints it. The model keeps the computation and leaves out the
reading and printing.

- **Historian hysteria (day 1).** Every line holds two integers. The two
  columns are sorted independently and paired up. The answer is the sum of the
  pairs' absolute differences.
- **Red-nosed reports (day 2).** A report is a line of levels. It is safe when
  it has at least two levels, all increasing or all decreasing, and adjacent
  levels differ by one to three. The answer is the number of non-blank lines
  that are safe.
- **Mull it over, part 2 (day 3).** The program finds `mul(X,Y)`, `don't()` and
  a word ending in `do()` in corrupted memory. It runs them in order of
  position: `do` enables, `don't` disables, and an enabled `mul` adds `X*Y`.
- **Ceres search (day 4).** Lists every occurrence of `XMAS` in a letter grid,
  in any of the eight directions. Part 2 counts the 3×3 windows whose two
  diagonals each read `MAS` or `SAM`.
- **Print queue (day 5).** Ordering rules `a|b` say that page `a` must come
  before page `b` when both are in an update. The answer is the sum of the
  middle pages of the updates that break no rule.
- **Guard gallivant (day 6).** A guard starts at `^`, facing up. It walks
  forward and turns right whenever the next cell is `#`. It stops when the next
  cell is off the map. The answer is the number of distinct cells it stood on.
- **Bridge repair (day 7).** Each line `v: a b c ...` is an equation. It counts
  if some choice of `+` and `*` between the operands, evaluated left to right,
  gives `v`. The answer is the sum of the test values of the equations that
  count.

## Modules

One module per program, plus four shared ones:

- `Wrappers`: Option and Result.
- `Text`: the standard-library string operations the programs use, written
  out. These are ASCII whitespace, `trim`, `split_whitespace`, `split`,
  `lines`, and integer `parse` with a width given as bounds.
- `Sorting`: `sort_by_key` and `sort_unstable`, both as insertion sort, with
  their specification.
- `Grids`: rectangular grids, the shared `validate_grid` of day 4, and
  cardinality of index rectangles.

Integers are unbounded. Every value a program parses fits its declared width
(`i32` or `i64`); parsing checks that range.

The day 3 regular expressions are replaced by recognisers, `DoAt`, `DontAt`
and `MulAt`. Each holds at exactly the positions where the program's
`find_iter` / `captures_iter` reports a match, with positions counted in
characters (see "Left out"). The comments on those
recognisers give the argument: matches of `\w*do\(\)` start where a run of
word characters starts, and none of the three patterns can overlap itself.

The source's loops are methods, each proved against a function of its
inputs:

- day 1: `HistorianHysteria.ReadNumbers`, `HistorianHysteria.ProcessFile`;
- day 2: `RedNosedReports.IsSafe`, `RedNosedReports.CheckReadings`,
  `RedNosedReports.CountSafeReports`, `RedNosedReports.IsCounted`;
- day 3: `MullItOver.CollectDos`, `MullItOver.CollectDonts`,
  `MullItOver.CollectMuls`, `MullItOver.ParseOperations`, `MullItOver.Run`,
  `MullItOver.ProcessLine`;
- day 4: `CeresSearch.FindAllXmasInstances`, `CeresSearch.SearchRow`,
  `CeresSearch.SearchCell`, `CeresSearch.CheckDirection`,
  `CeresSearch.Search`; part 2: `CeresSearchPart2.CountXMasPatterns`,
  `CeresSearchPart2.CountRow`, `CeresSearchPart2.Search`;
- day 6: `Guard.FindStart`, `Guard.CountVisitedPositions`;
- day 7: `BridgeRepair.Evaluate`, `BridgeRepair.FindValidCombinations`,
  `BridgeRepair.LineCalibration`, `BridgeRepair.TotalCalibration`.

Day 5 has no loop that updates variables. All of its operations, and the
other operations of the remaining days, are functions, because the source
computes them with iterator chains.

## Model

| member | source | states |
|---|---|---|
| HistorianHysteria.ProcessLineMeans | day_1_historian_historia/src/main.rs:5-19 | a line is accepted exactly when all its words parse as `i64` and there are two of them, and then the pair is those two values; a bad word gives the parse error, a wrong count gives the count error |
| HistorianHysteria.ProcessFormatted | day_1_historian_historia/src/main.rs:5-19 | round trip: the line `"a b"` written from two `i64` values is read back as `(a, b)` |
| HistorianHysteria.ReadNumbers | day_1_historian_historia/src/main.rs:21-49 | the reading loop gives the column-reading function's result, and on success the two columns are equally long (so the mismatch error cannot occur) |
| HistorianHysteria.ReadColumnsOk | day_1_historian_historia/src/main.rs:28-34 | reading succeeds exactly when every line is accepted, and then gives the first and second numbers of each line, in line order |
| HistorianHysteria.ReadColumnsErr | day_1_historian_historia/src/main.rs:28-34 | a failed read reports the error of the first refused line, numbered from 1 |
| HistorianHysteria.ReadAfterError | day_1_historian_historia/src/main.rs:31 | once a prefix of the lines has failed, later lines do not change the result |
| HistorianHysteria.SortedTuplesColumns | day_1_historian_historia/src/main.rs:51-55 | for equal-length columns: one pair per line, the first components are the first column sorted, the second components the second column sorted |
| HistorianHysteria.CalculateAbsDiff | day_1_historian_historia/src/main.rs:57-65 | the result is `a - b` or `b - a`, never negative, and zero exactly when `a == b` |
| HistorianHysteria.AbsDiffSymmetric | day_1_historian_historia/src/main.rs:57-65 | swapping the pair does not change the difference |
| HistorianHysteria.SumDifferences | day_1_historian_historia/src/main.rs:67-72 | the sum of differences is never negative |
| HistorianHysteria.SumZeroIffEqualPairs | day_1_historian_historia/src/main.rs:67-72 | the sum is zero exactly when every pair has equal components |
| HistorianHysteria.SumSwapped | day_1_historian_historia/src/main.rs:67-72 | swapping every pair keeps the sum |
| HistorianHysteria.DistanceDependsOnMultisets | day_1_historian_historia/src/main.rs:51-78 | the distance depends only on the multisets of the two columns, not on their order in the file |
| HistorianHysteria.DistanceSymmetric | day_1_historian_historia/src/main.rs:74-78 | exchanging the two columns keeps the distance |
| HistorianHysteria.DistanceSameNumbers | day_1_historian_historia/src/main.rs:74-78 | two columns holding the same numbers have distance zero |
| HistorianHysteria.ProcessFile | day_1_historian_historia/src/main.rs:74-78 | success exactly when every line is accepted, and then the result is the distance of the two columns; otherwise the error is the first refused line's |
| RedNosedReports.IsSafe | day_2_red_nosed_reports/src/main.rs:4-24 | `is_safe` holds exactly when the line's words all parse as `i32` and the readings are a safe report |
| RedNosedReports.CheckReadings | day_2_red_nosed_reports/src/main.rs:10-23 | with the first difference fixing the direction, the loop accepts exactly the safe reports: at least two readings, every step in 1..3 or every step in -3..-1 |
| RedNosedReports.FailedStepUnsafe | day_2_red_nosed_reports/src/main.rs:17-21 | a step the loop rejects makes the report unsafe |
| RedNosedReports.AllStepsOkSafe | day_2_red_nosed_reports/src/main.rs:17-23 | when every step passes the loop's test, the report is safe |
| RedNosedReports.FlatStartUnsafe | day_2_red_nosed_reports/src/main.rs:14-19 | two equal first readings make the report unsafe, whatever follows |
| RedNosedReports.DirectionOfFirstStep | day_2_red_nosed_reports/src/main.rs:14-22 | in a safe report the sign of the first difference gives the direction of every difference |
| RedNosedReports.SafeReversed | day_2_red_nosed_reports/src/main.rs:4-24 | a report is safe exactly when it is safe read backwards |
| RedNosedReports.BlankUnsafe | day_2_red_nosed_reports/src/main.rs:33 | a blank line is never a safe report |
| RedNosedReports.IsCounted | day_2_red_nosed_reports/src/main.rs:33 | the loop's condition holds exactly when the line is non-blank after trimming and is a safe report |
| RedNosedReports.CountSafeReports | day_2_red_nosed_reports/src/main.rs:29-36 | the loop counts the lines satisfying its condition |
| RedNosedReports.CountWhereIsSize | day_2_red_nosed_reports/src/main.rs:29-36 | the count is the number of line indices satisfying the condition |
| RedNosedReports.CountIsSafeLines | day_2_red_nosed_reports/src/main.rs:29-38 | the printed count is the number of lines that are safe reports (skipping blank lines loses none) and at most the number of lines |
| MullItOver.WordRun | day_3_mull_it_over_part_2/src/main.rs:13 | the run at `s` is a maximal run of `\w` characters |
| MullItOver.DigitRun | day_3_mull_it_over_part_2/src/main.rs:12 | the run at `s` is a maximal run of ASCII digits |
| MullItOver.MulAt | day_3_mull_it_over_part_2/src/main.rs:34-43 | a `mul` recognised at `s` carries two operands of one to three digits, so both lie in 0..999 and always parse as `i32` |
| MullItOver.KindsExclusive | day_3_mull_it_over_part_2/src/main.rs:12-14 | no position starts two kinds of instruction |
| MullItOver.DoTokens | day_3_mull_it_over_part_2/src/main.rs:18-24 | every `do` found before `n` is a `do` without operands at a position where the `do` pattern matches |
| MullItOver.DontTokens | day_3_mull_it_over_part_2/src/main.rs:26-32 | every `don't` found before `n` is a `dont` without operands at a position where `don't()` occurs |
| MullItOver.MulTokens | day_3_mull_it_over_part_2/src/main.rs:34-44 | every `mul` found before `n` lies at a position where the `mul` pattern matches, and carries that match's operands |
| MullItOver.DoTokensOrdered | day_3_mull_it_over_part_2/src/main.rs:18 | the `do` matches come in strictly increasing position |
| MullItOver.DontTokensOrdered | day_3_mull_it_over_part_2/src/main.rs:26 | the `don't` matches come in strictly increasing position |
| MullItOver.MulTokensOrdered | day_3_mull_it_over_part_2/src/main.rs:34 | the `mul` matches come in strictly increasing position |
| MullItOver.CollectDos | day_3_mull_it_over_part_2/src/main.rs:18-24 | the first loop appends exactly the `do` matches, in order |
| MullItOver.CollectDonts | day_3_mull_it_over_part_2/src/main.rs:26-32 | the second loop appends exactly the `don't` matches, in order |
| MullItOver.CollectMuls | day_3_mull_it_over_part_2/src/main.rs:34-44 | the third loop appends exactly the `mul` matches, in order |
| MullItOver.CollectedWellFormed | day_3_mull_it_over_part_2/src/main.rs:16-44 | every collected instruction is well formed for its kind at its position |
| MullItOver.CollectedPositionsDistinct | day_3_mull_it_over_part_2/src/main.rs:16-44 | no two collected instructions share a position |
| MullItOver.WellFormedUnique | day_3_mull_it_over_part_2/src/main.rs:16-44 | a well-formed instruction is determined by its position |
| MullItOver.ParseOperations | day_3_mull_it_over_part_2/src/main.rs:11-48 | the result is sorted by position and is a permutation of the collected instructions |
| MullItOver.OperationsWellFormed | day_3_mull_it_over_part_2/src/main.rs:11-48 | every parsed instruction is well formed, a `mul` carries operands in 0..999, and `do` and `dont` carry none |
| MullItOver.OperationsStrictlyOrdered | day_3_mull_it_over_part_2/src/main.rs:46-47 | after sorting, positions strictly increase: no two instructions tie |
| MullItOver.DoPrecedesItsText | day_3_mull_it_over_part_2/src/main.rs:13 | a `do` match is word characters followed by the text `do()`, which begins at or after the match's start |
| MullItOver.Run | day_3_mull_it_over_part_2/src/main.rs:51-71 | the loop over instructions computes the flag-guarded sum of products |
| MullItOver.ProcessLine | day_3_mull_it_over_part_2/src/main.rs:50-75 | `process_line` returns the flag-guarded sum of products of the instructions in position order, never negative |
| MullItOver.EnabledAfterMeans | day_3_mull_it_over_part_2/src/main.rs:52-58 | the flag is on after a list exactly when every `dont` in it is followed later by a `do` |
| MullItOver.TotalWithoutDont | day_3_mull_it_over_part_2/src/main.rs:55-71 | with no `dont`, the flag stays on and every product counts |
| MullItOver.TotalNonNegative | day_3_mull_it_over_part_2/src/main.rs:59-66 | with non-negative operands the total is never negative |
| MullItOver.DontDisables | day_3_mull_it_over_part_2/src/main.rs:58-67 | after a `dont` that no `do` follows, the flag is off and no later product is added |
| MullItOver.DoEnables | day_3_mull_it_over_part_2/src/main.rs:57 | after a `do` the flag is on |
| MullItOver.NoDontTokens | day_3_mull_it_over_part_2/src/main.rs:26-32 | where the text has no `don't()`, no `dont` instruction is collected |
| MullItOver.WithoutDontTextAllCount | day_3_mull_it_over_part_2/src/main.rs:50-75 | on memory without `don't()`, the total is the sum of all products |
| MullItOver.ExampleTotal | day_3_mull_it_over_part_2/src/main.rs:50-75 | the puzzle's example instruction list `mul(2,4)`, `don't()`, `mul(5,5)`, `mul(11,8)`, `do()`, `mul(8,5)` totals 48 |
| Grids.ValidateGrid | day_4_ceres_search/src/main.rs:16-27 | the grid is accepted exactly when it is non-empty with all rows of equal length; an empty grid gives "empty grid", any other failure "inconsistent row lengths" |
| Grids.RectangleSize | day_4_ceres_search/src/main.rs:75-76 | the cells the two nested loops visit number height × width |
| Grids.InsideRectangle | day_4_ceres_search/src/main.rs:75-76 | a set of cells inside the rectangle has at most height × width members |
| CeresSearch.DirectionsMeans | day_4_ceres_search/src/main.rs:29-40 | there are eight directions, all non-zero unit steps, pairwise distinct and with distinct names, and every non-zero unit step is among them |
| CeresSearch.WithinBoundsMeans | day_4_ceres_search/src/main.rs:42-55 | for a unit direction, checking only the end cell is the same as checking that every cell of the word is on the grid |
| CeresSearch.WithinBoundsReadable | day_4_ceres_search/src/main.rs:42-68 | when the bounds check passes, every cell `extract_word` reads exists |
| CeresSearch.ExtractWord | day_4_ceres_search/src/main.rs:57-68 | the word has the requested length and its `i`-th letter is the cell `i` steps from the start |
| CeresSearch.XmasAtMeans | day_4_ceres_search/src/main.rs:78-82 | a hit at `(row, col)` in direction `k` means the four cells along `k` are on the grid and spell `XMAS`; such a hit starts on an `X` |
| CeresSearch.CheckDirection | day_4_ceres_search/src/main.rs:78-83 | the bounds check followed by the comparison with `XMAS` succeeds exactly for an occurrence |
| CeresSearch.SearchCell | day_4_ceres_search/src/main.rs:77-84 | after one cell, exactly the occurrences up to that cell are listed, in search order, at most eight more |
| CeresSearch.SearchRow | day_4_ceres_search/src/main.rs:76-86 | after one row, exactly the occurrences up to the end of that row are listed, in search order |
| CeresSearch.FindAllXmasInstances | day_4_ceres_search/src/main.rs:70-88 | every listed result is an occurrence, every occurrence is listed, the results are in row, column, direction order, and there are at most 8 × height × width |
| CeresSearch.CountIsOccurrences | day_4_ceres_search/src/main.rs:94-95 | a sound, complete, ordered list is exactly as long as the set of occurrences |
| CeresSearch.SoundResultsStartAtX | day_4_ceres_search/src/main.rs:70-88 | every result starts on an `X` inside the grid and no result is listed twice |
| CeresSearch.Search | day_4_ceres_search/src/main.rs:90-97 | an error exactly for a non-rectangular grid, with the message `main` prints; otherwise the printed number is the number of occurrences |
| CeresSearchPart2.Diagonal | day_4_ceres_search_part_2/src/main.rs:34-40 | the word read has three letters, letter `i` taken from row `row + i` and column `col + i` (down-right) or `col + 2 - i` |
| CeresSearchPart2.IsMasMeans | day_4_ceres_search_part_2/src/main.rs:42 | the letter test equals `word == "MAS" \|\| word == "SAM"` |
| CeresSearchPart2.IsMasReverse | day_4_ceres_search_part_2/src/main.rs:42 | a word is accepted exactly when its reverse is |
| CeresSearchPart2.CheckMasMeans | day_4_ceres_search_part_2/src/main.rs:26-43 | the diagonal check holds exactly when the 3×3 window fits and its diagonal reads `MAS` or `SAM` |
| CeresSearchPart2.XMasCentre | day_4_ceres_search_part_2/src/main.rs:42-53 | every X-MAS window fits in the grid and has an `A` at its centre |
| CeresSearchPart2.XMasWindowsMember | day_4_ceres_search_part_2/src/main.rs:45-58 | a top-left corner is in the window set exactly when both diagonals of its window check |
| CeresSearchPart2.XMasWindowsBounds | day_4_ceres_search_part_2/src/main.rs:50-51 | every window corner is in the ranges the loops visit, bounded by `saturating_sub(2)` |
| CeresSearchPart2.CountRow | day_4_ceres_search_part_2/src/main.rs:51-57 | the inner loop counts the X-MAS windows in one row |
| CeresSearchPart2.RowXMasIsCount | day_4_ceres_search_part_2/src/main.rs:51-57 | counting along the row equals counting the row's members of the window set |
| CeresSearchPart2.CountXMasPatterns | day_4_ceres_search_part_2/src/main.rs:45-61 | the nested loops count the window set over the visited rows and columns |
| CeresSearchPart2.CountIsWindows | day_4_ceres_search_part_2/src/main.rs:45-61 | that count is the number of X-MAS windows, at most `(h-2) × (w-2)`, and zero on a grid under 3×3 |
| CeresSearchPart2.Search | day_4_ceres_search_part_2/src/main.rs:63-68 | an error exactly for a non-rectangular grid, with the message `main` prints; otherwise the printed number is the number of X-MAS windows |
| CeresSearchPart2.FlipDiagonal | day_4_ceres_search_part_2/src/main.rs:34-40 | turning the grid upside down turns a diagonal into the reverse of the other diagonal |
| CeresSearchPart2.XMasFlip | day_4_ceres_search_part_2/src/main.rs:52-53 | a window is an X-MAS exactly when its mirror image in the upside-down grid is |
| CeresSearchPart2.CountFlip | day_4_ceres_search_part_2/src/main.rs:45-61 | the upside-down grid has as many X-MAS windows as the grid |
| PrintQueue.PositionIsFirst | day_5_print_queue/src/main.rs:4-5 | `position` finds the first index holding the page, and none exactly when the page is absent |
| PrintQueue.CheckOrderAbsent | day_5_print_queue/src/main.rs:7-10 | a rule that names a page missing from the update holds |
| PrintQueue.CheckOrderMeans | day_5_print_queue/src/main.rs:3-11 | a rule fails exactly when `before` is present and some occurrence of `after` is not preceded by any `before` |
| PrintQueue.CheckOrderFirstIndices | day_5_print_queue/src/main.rs:3-11 | with both pages present, the rule holds exactly when the first `before` precedes the first `after` |
| PrintQueue.SelfRuleRejects | day_5_print_queue/src/main.rs:8 | a rule `x\|x` rejects every update containing `x` |
| PrintQueue.IsValidSequenceMeans | day_5_print_queue/src/main.rs:13-17 | an update is valid exactly when no rule is broken in the sense above |
| PrintQueue.NoRulesAcceptAll | day_5_print_queue/src/main.rs:13-17 | with no rules every update is valid |
| PrintQueue.FewerRulesStillValid | day_5_print_queue/src/main.rs:13-17 | an update valid under some rules is valid under any subset of them |
| PrintQueue.AbsentPageRule | day_5_print_queue/src/main.rs:13-17 | adding a rule about a page the update lacks does not change its validity |
| PrintQueue.BrokenRule | day_5_print_queue/src/main.rs:13-17 | one broken rule makes the update invalid |
| PrintQueue.ValidByRank | day_5_print_queue/src/main.rs:13-17 | if every rule between present pages agrees with the pages' order in the update, the update is valid |
| PrintQueue.ValidSequences | day_5_print_queue/src/main.rs:39-42 | the filter keeps only valid updates taken from the input, and keeps every valid one |
| PrintQueue.FilterThenSum | day_5_print_queue/src/main.rs:39-48 | summing the middle pages of the filtered updates is summing the middle pages of the valid updates |
| PrintQueue.ParseRuleFormat | day_5_print_queue/src/main.rs:26-29 | round trip: the text `a\|b` of two `i64` pages parses to the rule `(a, b)` |
| PrintQueue.ParseRuleIgnoresRest | day_5_print_queue/src/main.rs:27-28 | only the first two fields of a rule line are read |
| PrintQueue.ParseSequence | day_5_print_queue/src/main.rs:36 | a parsed update is non-empty and has one page per comma-separated field |
| PrintQueue.ParseSequenceFormat | day_5_print_queue/src/main.rs:36 | round trip: a non-empty update written with commas parses back to itself |
| PrintQueue.ParseRules | day_5_print_queue/src/main.rs:22-30 | when the rules section parses, it gives one rule per line, each the parse of its line |
| PrintQueue.ParseSequences | day_5_print_queue/src/main.rs:32-37 | when the updates section parses, it gives one non-empty update per line, each the parse of its line |
| PrintQueue.ParseInput | day_5_print_queue/src/main.rs:19-37 | every update of a parsed input is non-empty, so its middle page exists |
| PrintQueue.Solve | day_5_print_queue/src/main.rs:19-49 | the answer is the sum of the middle pages of the updates valid under the rules |
| PrintQueue.ExampleFirstValid | day_5_print_queue/src/main.rs:86 | the example's first update is valid |
| PrintQueue.ExampleSecondValid | day_5_print_queue/src/main.rs:87 | the example's second update is valid |
| PrintQueue.ExampleThirdValid | day_5_print_queue/src/main.rs:88 | the example's third update is valid |
| PrintQueue.ExampleFourthInvalid | day_5_print_queue/src/main.rs:89 | the example's fourth update breaks a rule |
| PrintQueue.ExampleFifthInvalid | day_5_print_queue/src/main.rs:90 | the example's fifth update breaks a rule |
| PrintQueue.ExampleSixthInvalid | day_5_print_queue/src/main.rs:91 | the example's sixth update breaks a rule |
| PrintQueue.ParseInputFormat | day_5_print_queue/src/main.rs:19-37 | round trip: rules and non-empty updates of `i64` numbers, written one per line with a blank line between the sections, parse back to themselves |
| PrintQueue.ExampleSum | day_5_print_queue/src/main.rs:64-92 | the valid middle pages of the example's rules and updates sum to 143 |
| PrintQueue.ExampleSolve | day_5_print_queue/src/main.rs:63-92 | `solve` on the example's rules and updates, written in the puzzle's format as the test writes them, parses and answers 143 |
| Guard.Next | day6_guard_gallivant/src/main.rs:14-21 | the step of each heading: up is one row less, down one row more, left one column less, right one column more, and the other coordinate unchanged |
| Guard.TurnRight | day6_guard_gallivant/src/main.rs:33-40 | turning changes the heading, and rotates its step a quarter turn clockwise (rows grow downward) |
| Guard.FourTurns | day6_guard_gallivant/src/main.rs:33-40 | four right turns restore the heading, two do not |
| Guard.TurnAroundReturns | day6_guard_gallivant/src/main.rs:14-40 | a step followed by a step in the reversed heading returns to the cell |
| Guard.StartUnique | day6_guard_gallivant/src/main.rs:53-62 | the first `^` in row-major order is unique |
| Guard.FindStart | day6_guard_gallivant/src/main.rs:53-62 | the search returns the first `^` in row-major order, and none exactly when the map has no `^` |
| Guard.IsValidIsInBounds | day6_guard_gallivant/src/main.rs:64-69 | on a rectangular map, `is_valid` holds exactly for cells on the map |
| Guard.Step | day6_guard_gallivant/src/main.rs:99-114 | one loop step: the patrol ends exactly when the next cell is off the map; otherwise the guard turns in place exactly when the next cell is `#`, and else moves ahead onto it |
| Guard.Visited | day6_guard_gallivant/src/main.rs:92-117 | every cell recorded by the rest of a patrol is on the map and not `#` |
| Guard.StepBack | day6_guard_gallivant/src/main.rs:99-114 | the cells recorded from a state are those recorded from the next state, plus the next cell when the guard moved |
| Guard.CountVisitedPositions | day6_guard_gallivant/src/main.rs:92-117 | the loop returns the number of distinct cells the patrol from the start, facing up, stands on, and none when there is no start |
| Guard.PatrolBounds | day6_guard_gallivant/src/main.rs:92-117 | the patrol's cells are on the map and not `#`, there is at least one, and at most height × width |
| BridgeRepair.Parse | day_7_bridge_repair/src/main.rs:12-29 | a parsed equation's test value and operands all fit in `i64` |
| BridgeRepair.ParseNeedsOneColon | day_7_bridge_repair/src/main.rs:13-16 | a line without exactly one `:` does not parse |
| BridgeRepair.ParseIffPartsParse | day_7_bridge_repair/src/main.rs:13-23 | a line with one `:` parses exactly when the trimmed part before it is an `i64` and every word of the trimmed part after it is an `i64`; a bad test value or a bad operand gives no equation |
| BridgeRepair.ParseJoinedNumerals | day_7_bridge_repair/src/main.rs:19-23 | numbers written out and joined with spaces parse back to themselves |
| BridgeRepair.ParseFormat | day_7_bridge_repair/src/main.rs:12-29 | round trip: an `i64` equation written as `v: a b c` parses back to itself |
| BridgeRepair.ParseExample | day_7_bridge_repair/src/main.rs:110-114 | `190: 10 19` parses to test value 190 with operands 10 and 19 |
| BridgeRepair.EvalExamples | day_7_bridge_repair/src/main.rs:116-121 | evaluation runs left to right: `10*19` is 190, `10+19` is 29, `2+3*4` is 20 |
| BridgeRepair.Evaluate | day_7_bridge_repair/src/main.rs:31-41 | the loop folds the operators into the first operand, left to right |
| BridgeRepair.Combination | day_7_bridge_repair/src/main.rs:49-53 | the combination built from a mask has one operator per slot, each `+` or `*` |
| BridgeRepair.BitsOfMask | day_7_bridge_repair/src/main.rs:51 | bit `j` of an operator sequence's mask is set exactly when operator `j` is `*` |
| BridgeRepair.CombinationOfMask | day_7_bridge_repair/src/main.rs:47-53 | every operator sequence of length `k` has a mask below `2^k` that the loop turns back into it |
| BridgeRepair.MaskOfCombination | day_7_bridge_repair/src/main.rs:47-53 | every mask below `2^k` is the mask of the combination built from it, so masks and combinations are in bijection |
| BridgeRepair.FindValidCombinations | day_7_bridge_repair/src/main.rs:43-61 | the loop over masks returns the valid combinations in mask order |
| BridgeRepair.ValidCombinationsSound | day_7_bridge_repair/src/main.rs:55-57 | each returned combination has one operator per gap and evaluates to the test value |
| BridgeRepair.ValidCombinationsComplete | day_7_bridge_repair/src/main.rs:47-57 | every operator sequence that evaluates to the test value is returned |
| BridgeRepair.ValidCombinationsOrdered | day_7_bridge_repair/src/main.rs:47-60 | the combinations come in strictly increasing mask order, with no repeats, at most `2^k` of them |
| BridgeRepair.SolvableIffFound | day_7_bridge_repair/src/main.rs:78-80 | the result is non-empty exactly when some choice of operators makes the equation true |
| BridgeRepair.ValidCombinationsFirstExample | day_7_bridge_repair/src/main.rs:124-128 | `190: 10 19` has exactly one valid combination, `*` |
| BridgeRepair.ValidCombinationsSecondExample | day_7_bridge_repair/src/main.rs:130-132 | `3267: 81 40 27` has exactly two, `* +` and `+ *` |
| BridgeRepair.ContributionCounts | day_7_bridge_repair/src/main.rs:71-98 | a line adds its test value exactly when it parses and is solvable; blank and malformed lines add nothing |
| BridgeRepair.NoColonInBlank | day_7_bridge_repair/src/main.rs:72-73 | a blank line has no colon, so skipping it agrees with its not parsing |
| BridgeRepair.LineCalibration | day_7_bridge_repair/src/main.rs:71-98 | one iteration of `main`'s loop adds that line's contribution |
| BridgeRepair.TotalCalibration | day_7_bridge_repair/src/main.rs:64-103 | the printed total is the sum of the lines' contributions |
| Text.Trim | day_7_bridge_repair/src/main.rs:18-20 | the trimmed text neither starts nor ends with whitespace, and is empty exactly when the text is all whitespace |
| Text.TrimStartShape | day_7_bridge_repair/src/main.rs:18-20 | `trim_start` removes a whitespace prefix, and the rest does not start with whitespace |
| Text.TrimEndShape | day_7_bridge_repair/src/main.rs:18-20 | `trim_end` removes a whitespace suffix, and the rest does not end with whitespace |
| Text.TrimUnchanged | day_7_bridge_repair/src/main.rs:18 | text without whitespace at either end is left unchanged |
| Text.Words | day_2_red_nosed_reports/src/main.rs:5 | `split_whitespace` yields non-empty words without whitespace, and none exactly for all-whitespace text |
| Text.WordsJoin | day_7_bridge_repair/src/main.rs:19-23 | words joined with single spaces split back into the same words |
| Text.SplitOnChar | day_7_bridge_repair/src/main.rs:13-14 | splitting on a character gives one more piece than its occurrences, and no piece contains it |
| Text.JoinSplit | day_5_print_queue/src/main.rs:20 | joining the pieces of a split with the separator restores the text |
| Text.SplitJoinChar | day_5_print_queue/src/main.rs:36 | pieces free of the separator character, joined with it, split back into themselves |
| Text.Lines | day_5_print_queue/src/main.rs:35 | `lines` of empty text is empty, and no line contains a newline |
| Text.ParseInt | day_1_historian_historia/src/main.rs:9 | a parsed number lies in the target type's range and comes from non-empty text without whitespace |
| Text.ParseIntToString | day_1_historian_historia/src/main.rs:9 | round trip: a number in range, written in decimal, parses back to itself |
| Text.ParseAll | day_1_historian_historia/src/main.rs:6-12 | a successful collection has one number per word, each in range |
| Text.ParseAllMeans | day_1_historian_historia/src/main.rs:6-12 | collecting succeeds exactly when every word parses, and then gives each word's value in order |
| Text.NumeralsParse | day_7_bridge_repair/src/main.rs:19-23 | numbers in range written in decimal parse back to themselves |
| Sorting.SortBy | day_3_mull_it_over_part_2/src/main.rs:46 | `sort_by_key` gives a list sorted by the key that is a permutation of the input |
| Sorting.Sort | day_1_historian_historia/src/main.rs:52-53 | `sort_unstable` gives a sorted permutation of the input |
| Sorting.SortedUnique | day_1_historian_historia/src/main.rs:52-53 | two sorted lists of integers with the same multiset are equal, so an unstable sort's result is still determined |
| Sorting.SortDependsOnMultiset | day_1_historian_historia/src/main.rs:52-53 | inputs with the same multiset sort to the same list |

## Left out

- Reading input files, reading lines, and every `println!`. Each program's
  input is a parameter: a list of lines, a grid, or a string. Every top-level
  member returns the value the program prints. Read errors (`line?`,
  `File::open`) are not modelled.
- Day 6 `Grid::new`: the model takes the grid of characters directly. The
  example map in `main` (41 cells) is not evaluated, because unfolding the
  patrol over the literal map is beyond what the verifier can do in
  reasonable time.
- `visualize_path` (day 6): output only.
- `day_3_mull_it_over/src/main.rs` (part 1) is not a model of its own. It
  adds up the product of every `mul(X,Y)` of every line, using the same
  `mul` pattern as part 2 and no `do()` or `don't()`. Per line that is
  `MullItOver.SumProducts` of the line's instructions, and
  WithoutDontTextAllCount proves that part 2 gives that sum on memory
  without `don't()`. The running total over the lines of the file is not
  modelled.
- MullItOver.Operations: positions are character indices into the line,
  where `mat.start()` in the source gives byte offsets. The two differ on
  non-ASCII text but grow together, so the order in which the
  instructions are run, the only use of the positions, is the same.
- PrintQueue.ExampleSum: the test passes `solve` the example as one string
  literal. The model proves the answer on the rules and updates of that
  text and, in ExampleSolve, on that text as `FormatInput` writes it (the
  rules one per line, a blank line, the updates one per line, no final
  line break). That this text is character for character the literal of
  the test is not proved: the verifier compares strings of that length one
  character at a time, which is too costly here.
- The regular expression engine: the three patterns are recognisers over
  the line, argued equal to the patterns' matches as explained above.
- Guard.CountVisitedPositions: requires that the patrol leaves the map within
  a given number of steps. A patrol that loops forever, on which the source
  never returns, is not modelled.
- Guard.CountVisitedPositions: requires a rectangular map. On a ragged map,
  `is_blocked` can index past a short row and panic; that panic is not
  modelled.
- Guard.FindStart: where the source panics on a map without `^`, the model
  returns none.
- BridgeRepair.FindValidCombinations: requires one to 31 operands. With no
  operands, `len() - 1` underflows and `numbers[0]` panics. With more than
  31, `2_i32.pow` overflows.
- BridgeRepair.Evaluate: requires at least one operand, because the source
  indexes `numbers[0]`. It computes with unbounded integers, where the source
  overflows `i64`.
- BridgeRepair.TotalCalibration: the same operand-count precondition on
  every parsed line, and the total is unbounded where the source's `i64`
  would overflow.
- PrintQueue.Solve: requires the input to parse. The source panics through
  `unwrap` when a section, a field or a number is missing or malformed (the
  model's parser returns none there). The sum is unbounded where `i64` may
  overflow.
- MullItOver.ProcessLine: the `i32` total and product are unbounded. The
  source overflows after about two thousand products of three-digit
  operands.
- HistorianHysteria.ProcessFile: differences and their sum are unbounded
  where the source's `i64` may overflow. The column-length mismatch error
  of `read_numbers_from_file` (lines 40-46) is not a branch of the model:
  ReadNumbers proves the column lengths always equal, so the error cannot
  occur.
- RedNosedReports.CheckReadings: differences of readings are unbounded.
  In the source, `readings[i] - readings[i - 1]` and `diff.abs()` on two
  `i32` values far apart can overflow; that is not modelled.
- HistorianHysteria.ProcessLine: the error-message texts are modelled
  exactly, but the line number is a mathematical integer written in decimal
  (no `usize` limit).
- Whitespace is the ASCII subset of Rust's `char::is_whitespace` (space, tab,
  line feed, vertical tab, form feed, carriage return). Non-ASCII whitespace
  is not treated as whitespace.
- `\w` is taken as ASCII letters, digits and `_`; the regex crate's Unicode
  word characters beyond ASCII are not modelled.
- Integer parsing follows `str::parse` for `i32` and `i64`: an optional sign,
  at least one ASCII digit, and a range check. Leading zeros are accepted.
- CeresSearchPart2.Diagonal: the source builds a `String` and compares it
  with `"MAS"` and `"SAM"`. The model compares letter by letter; IsMasMeans
  proves the two tests equal.
- Sorting.SortBy models Rust's stable `sort_by_key` as insertion sort. Its
  contract states sortedness and permutation but not stability. Stability
  is not needed here, because the day 3 instructions never share a
  position (OperationsStrictlyOrdered).
