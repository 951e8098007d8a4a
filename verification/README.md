# Advent of Code 2025 solvers, days 4, 7, 8, 9, 10 and 11, in Dafny

This project models six puzzle solvers written in Python and proves what
they compute. Each solver becomes one Dafny module; two more modules
model the Python builtins the solvers rely on.

- **Day 4, `Rolls`** (`day04/main.py`): a grid of paper rolls (`@`) and empty cells (`.`).
  - `Grid` is a class holding the cells and a roll-to-neighbours table.
  - `remove_rolls` selects every roll with fewer than four neighbouring rolls, clears them all at once and returns how many it cleared.
  - Part 1 counts one round.
  - Part 2 repeats rounds until one removes nothing, and returns the total removed.
- **Day 7, `Beams`** (`day07/main.py`): a beam starts below the `S` of the top row.
  - It falls straight through `.`.
  - At `^` it splits into the columns to its left and right; columns outside the top row's width are dropped.
  - Part 1 counts the splits, using a set of beam positions.
  - Part 2 counts timelines, carrying a count per position.
- **Day 8, `Circuits`** (`day08/main.py`): junction boxes in 3-D.
  - Every pair of boxes is an edge, sorted by length.
  - Kruskal's merging of circuits (lists of sets, looked up with `find_sets`) runs over the edges.
  - Part 1 takes the first 1000 edges and returns the product of the three largest circuit sizes.
  - Part 2 takes edges until one circuit is left, and returns the product of the x coordinates of the last edge that merged two circuits.
- **Day 9, `Tiles`** (`day09/main.py`): red tiles on a 2-D lattice.
  - Part 1 returns the largest rectangle spanned by two red tiles.
  - Part 2 builds the green border by walking the red tiles in a cycle. It then takes the rectangles by decreasing area and returns the first one with no green tile strictly inside.
- **Day 10, `Machines`** (`day10/main.py`): each machine has indicator lights, buttons that toggle sets of lights, and joltage counters.
  - `turn_on` is a breadth-first search for the fewest button presses.
  - In light mode it works modulo 2 and skips states already explored.
  - In joltage mode it adds, and prunes states that exceed the target.
  - Part 1 sums the fewest presses over all machines.
- **Day 11, `Paths`** (`day11/main.py`): a directed graph read from `src: dst dst ...` lines.
  - `Graph.find_all_paths` runs a breadth-first walk over (node, depth) states and counts the paths that reach each state.
  - It returns the sum of the counts recorded for the target label.
  - Part 1 counts `you` to `out`.
  - Part 2 multiplies the counts for `svr` to `fft`, `fft` to `dac` and `dac` to `out`.
- **`Text`** models `str.split`, `str.strip`, `str.replace`, `str.index`, `int()` and `str()`.
  - Whitespace for `strip()` is Python's whitespace class: the ASCII and Latin-1 spaces and the Unicode space separators (U+1680, U+2000 to U+200A, U+2028, U+2029, U+202F, U+205F, U+3000).
  - `int()` skips a smaller set around a numeral. The ASCII characters it skips are only space, tab, line feed, vertical tab, form feed and carriage return. The separators U+001C to U+001F, which `strip()` removes, make `int()` raise `ValueError`.
  - It also models the filter `[l for l in lines if l]` shared by days 7 and 10.
- **`Sorting`** models `sorted(key=...)` as a stable insertion sort.
- **`Results`** holds the `Result` and `Option` types.

Exceptions the Python raises become `Err` values. Each day's `Error`
datatype has one constructor per exception site. Where the code is
imperative, the model is imperative as well:
- a loop becomes a method with invariants;
- an object whose fields change becomes a class.

Each method is proved equal to, or to satisfy, a specification function.
The properties of those functions are proved as lemmas.

## Model

| member | source | states |
|---|---|---|
| Text.Find | day11/main.py:40 | the first occurrence of the separator at or after `from`, and none is skipped |
| Text.Split | day11/main.py:40-41 | `str.split(sep)` always returns at least one piece |
| Text.SplitPiecesFree | day10/main.py:32-33 | no piece returned by `split` contains the separator |
| Text.JoinSplit | day11/main.py:40-41 | joining the pieces of `split(sep)` with `sep` gives back the string |
| Text.SplitJoin | day08/main.py:93 | splitting a join of separator-free pieces on a one-character separator gives back the pieces |
| Text.IndexOf | day07/main.py:29 | `str.index(c)` is the first position holding `c`, and it is absent exactly when `c` does not occur |
| Text.FreeOfChar | day07/main.py:29 | a string with no occurrence of the one-character separator does not contain that character |
| Text.TrimStartSpec | day10/main.py:41 | stripping the front removes only characters of the set and stops at the first character outside it |
| Text.TrimEndSpec | day10/main.py:41 | stripping the back removes only characters of the set and stops at the last character outside it |
| Text.StripCharsSpec | day10/main.py:41 | `strip("()")` leaves a middle slice whose ends are outside the set, with only set characters cut away |
| Text.Strip | day09/main.py:90 | `strip()` leaves the slice of the input with only whitespace cut from either end, and that slice neither starts nor ends with whitespace |
| Text.BlankIffAllSpace | day11/main.py:38 | `line.strip()` is empty exactly when every character is whitespace, with Python's full whitespace class |
| Text.RemoveChar | day10/main.py:35-36 | `replace("[", "")` leaves no `[` |
| Text.RemoveCharCounts | day10/main.py:35-36 | `replace("[", "")` keeps every other character, as often as it occurs |
| Text.RemoveCharAppend | day10/main.py:35-36 | `replace` keeps the order: it distributes over concatenation, drops a lone `[` and keeps any other lone character |
| Text.NonEmpty | day07/main.py:24 | the filter `if l` keeps exactly the non-empty lines |
| Text.NonEmptyAppend | day07/main.py:24 | the filter keeps order and count: it distributes over concatenation, drops a lone empty line and keeps a lone non-empty one |
| Text.NonEmptyKeeps | day07/main.py:24 | a list with no empty line is kept whole |
| Text.ParseNonEmptySnoc | day10/main.py:116 | one more line of the comprehension: an empty line adds nothing, a non-empty one is converted after the lines before it |
| Text.ParseNonEmptyStep | day10/main.py:116 | after lines that all convert, an empty line keeps the values, a good line appends its value and a bad line is the error |
| Text.ParseNonEmptyErr | day10/main.py:116 | once the lines so far fail, later lines do not change the error |
| Text.Show | day09/main.py:98 | `str(n)` is a minus sign exactly when `n` is negative, followed by a run of decimal digits |
| Text.ShowNat | day04/main.py:94 | `str(n)` of a natural number is a non-empty run of decimal digits |
| Text.ShowNatValue | day04/main.py:94 | the digits written by `str(n)` denote `n` |
| Text.StripNoop | day10/main.py:41 | stripping a string whose ends are outside the set changes nothing |
| Text.StripSigned | day08/main.py:93 | a numeral, possibly after a minus sign, has nothing around it for `int()` to skip |
| Text.ParseInt | day09/main.py:39 | when `int()` succeeds, the text is a signed numeral with only skippable whitespace around it, and the result is that numeral's value |
| Text.ParseIntPadded | day09/main.py:39 | conversely, `int()` accepts every signed numeral with skippable whitespace on either side and returns its value |
| Text.ParseNonNegative | day08/main.py:93 | `int()` of a run of digits is the value of those digits |
| Text.ParseNegative | day08/main.py:93 | `int()` of `-` followed by digits is the negated value |
| Text.ParseShow | day09/main.py:39 | `int(str(n)) == n` for every integer |
| Sorting.Insert | day08/main.py:131 | inserting into a sorted list keeps it sorted and adds exactly that one element |
| Sorting.ConsSorted | day08/main.py:131 | an element whose key is no larger than the head's can be put in front of a sorted list |
| Sorting.SortBy | day08/main.py:131 | `sorted(key=...)` is ordered by the key and is a permutation of its input |
| Sorting.InsertStable | day08/main.py:131 | insertion keeps the relative order of elements with equal keys |
| Sorting.SortStable | day09/main.py:92-94 | `sorted` is stable: elements with equal keys keep their original order |
| Sorting.SortedLastIsMax | day09/main.py:92-97 | the last element of the sorted list has the largest key, so `rectangles[-1]` is a maximum |
| Rolls.DecodeCell | day04/main.py:23-25 | `GridElement(c)` accepts exactly `@` (roll) and `.` (nothing) |
| Rolls.DecodeRow | day04/main.py:36-38 | a row decodes when every character does; otherwise the error names the first bad column and its character |
| Rolls.Decode | day04/main.py:35-39 | the grid decodes when every row does; otherwise the error is the first bad row's error |
| Rolls.DecodeStopsAt | day04/main.py:35-39 | once a row fails after good rows, the whole decode fails with that row's error |
| Rolls.Shifted | day04/main.py:53-61 | one offset `(i, j)` yields the shifted position exactly when it is in bounds and not `(0, 0)` |
| Rolls.ShiftedRow | day04/main.py:53-61 | one row offset yields exactly the in-bounds positions at column distance at most one, without the cell itself |
| Rolls.AdjacentPositions | day04/main.py:53-61 | `_adjacent_positions` lists exactly the in-bounds king-move neighbours, never the cell itself and at most 8 |
| Rolls.InNeighbourhood | day04/main.py:68-70 | the neighbour set stored in the table holds exactly the in-bounds neighbours |
| Rolls.AdjacentSet | day04/main.py:68-70 | `set(_adjacent_positions(p))` is the neighbourhood of `p` |
| Rolls.RollsIn | day04/main.py:67 | the set of roll positions is exactly the cells holding `@` |
| Rolls.Lonely | day04/main.py:72-77 | the rolls selected for removal are rolls |
| Rolls.Cleared | day04/main.py:80-82 | clearing a set of positions makes those cells empty and leaves every other cell and the shape unchanged |
| Rolls.RollsCleared | day04/main.py:80-82 | after clearing, the rolls are the old rolls minus the cleared positions |
| Rolls.RoundCount | day04/main.py:72-84 | one round lowers the number of rolls by exactly the number it returns |
| Rolls.AdjacencyCleared | day04/main.py:80-82 | deleting the cleared positions from the table gives the table of the cleared grid |
| Rolls.ClearedNone | day04/main.py:80-82 | clearing nothing changes nothing |
| Rolls.ClearedOne | day04/main.py:81 | clearing one more position is one cell assignment |
| Rolls.FitsCleared | day04/main.py:75 | a grid whose neighbour lookups are all in range stays so after clearing |
| Rolls.RemovedStep | day04/main.py:103-106 | part 2's total is one round's count plus the total for the grid that round leaves, and 0 once a round removes nothing |
| Rolls.RemovedBound | day04/main.py:103-106 | part 2 never removes more rolls than the grid holds |
| Rolls.SettledStable | day04/main.py:103-106 | the grid where part 2 stops has no removable roll, and removed plus remaining rolls is the original count |
| Rolls.SelectNone | day04/main.py:73 | the selection starts empty |
| Rolls.SelectStep | day04/main.py:74-77 | visiting one more roll adds it to the selection exactly when fewer than four neighbours are rolls |
| Rolls.Fault | day04/main.py:75 | a neighbour past the end of a shorter row makes the lookup raise `IndexError` |
| Rolls.ClearStep | day04/main.py:80-82 | one iteration of the clearing loop keeps cells and table equal to the partial clear |
| Rolls.SelectRolls | day04/main.py:73-77 | the selection loop returns exactly the rolls with fewer than four neighbouring rolls, or an `IndexError` the grid can raise |
| Rolls.SelectNext | day04/main.py:74-77 | one pass of the selection loop keeps the selection equal to the specification over the visited rolls |
| Rolls.SelectFault | day04/main.py:75 | an out-of-row neighbour in the table is a fault of the grid |
| Rolls.SelectDone | day04/main.py:74 | the table's keys are exactly the rolls |
| Rolls.CountRolls | day04/main.py:75-76 | counts the neighbouring rolls, or fails on the first neighbour outside its row |
| Rolls.ClearCells | day04/main.py:80-82 | the clearing loop empties exactly the selected cells and deletes exactly their table entries |
| Rolls.Grid.constructor | day04/main.py:30-41 | the grid holds the decoded cells, the size is `(len(grid), len(grid[0]))` and the table starts empty |
| Rolls.Grid.New | day04/main.py:30-43 | `Grid(lines)` fails exactly as decoding does and otherwise holds the decoded cells with a valid table |
| Rolls.Grid.BuildAdjacency | day04/main.py:63-70 | `_build_adjacency_matrix` maps every roll, and only rolls, to its neighbourhood |
| Rolls.Grid.Select | day04/main.py:73-77 | selection on the object returns the lonely rolls or a fault of the grid |
| Rolls.Grid.RemoveRolls | day04/main.py:72-84 | `remove_rolls` clears exactly the lonely rolls and returns their count; on error the cells are unchanged |
| Rolls.Grid.Clear | day04/main.py:80-82 | clears exactly the given cells and their table entries |
| Rolls.BuiltRoll | day04/main.py:66-70 | visiting a roll adds its neighbourhood to the table |
| Rolls.BuiltSkip | day04/main.py:67 | visiting an empty cell leaves the table unchanged |
| Rolls.BuiltRow | day04/main.py:64-65 | the end of one row is the start of the next |
| Rolls.BuiltAll | day04/main.py:63-70 | after every cell the table is the roll-to-neighbourhood map |
| Rolls.Part1 | day04/main.py:88-94 | part 1 is the number of lonely rolls in the input grid, or the input's error |
| Rolls.Round | day04/main.py:104-106 | one round's count plus what is still to be removed equals what was to be removed, and the count 0 means nothing is left to remove |
| Rolls.Part2 | day04/main.py:97-109 | part 2 is the total removed by rounds until a round removes nothing, or the input's error |
| Beams.Parse | day07/main.py:23-24 | `parse_input` yields non-empty lines of the input without newlines, in input order by `Text.NonEmptyAppend` |
| Beams.ParseJoin | day07/main.py:23-24 | parsing the newline-join of non-empty rows gives back the rows |
| Beams.Start | day07/main.py:29 | the start column is the first `S` of the top row; `IndexError` for no rows, `ValueError` for no `S` |
| Beams.Targets | day07/main.py:42-57 | a beam's successors are all on the next row |
| Beams.TargetsShape | day07/main.py:44-53 | `.` passes the beam straight down; `^` sends it to in-width neighbouring columns and never straight down |
| Beams.TargetsCell | day07/main.py:44-53 | the exact successors of `.` and of `^`, with the left column dropped at 0 and the right one at the top row's width |
| Beams.NextAdd | day07/main.py:40-53 | the next row's beams grow by each visited beam's successors |
| Beams.SplittersAdd | day07/main.py:46-53 | the split count grows by one exactly for each visited `^` beam |
| Beams.SweepRows | day07/main.py:33-60 | after each row every beam is on the next row and inside the width |
| Beams.StuckStays | day07/main.py:54-57 | once the sweep has raised, later rows do not change the outcome |
| Beams.SplitBeam | day07/main.py:42-57 | one beam's successors and whether it split, or the error it raises |
| Beams.SplitRow | day07/main.py:39-60 | one row of part 1 gives the next beam set and the number of splits, or an error of that row's beams |
| Beams.Part1 | day07/main.py:28-64 | part 1 is the total number of splits over every row, or an error the beams meet |
| Beams.StuckOn | day07/main.py:54-57 | an error on some row is the outcome of the whole sweep |
| Beams.FaultOf | day07/main.py:54-57 | a beam whose cell raises makes its row faulty with that error |
| Beams.StuckNext | day07/main.py:54-60 | a faulty row stops the sweep with its beams |
| Beams.FeedsTargets | day07/main.py:86-94 | a beam feeds a cell exactly when that cell is one of its successors |
| Beams.Neighbour | day07/main.py:86-94 | a beam feeds only the cells below it and diagonally below it |
| Beams.PullOutside | day07/main.py:82-94 | a cell that no beam reaches gets count 0 |
| Beams.PullAdd | day07/main.py:82-94 | visiting a beam adds its count to each of its successors |
| Beams.Bump | day07/main.py:87-94 | `new_beams[t] += cnt` for each successor: the keys grow by the successors and only their counts rise |
| Beams.BumpNone | day07/main.py:87-94 | adding to no successor changes nothing |
| Beams.BumpOne | day07/main.py:87-94 | adding to one more successor is one dictionary update |
| Beams.PulledAdd | day07/main.py:82-94 | the part 2 inner loop keeps the new counts equal to the sum over visited beams |
| Beams.PulledFlow | day07/main.py:81-101 | once every beam is visited, the counts are the next row's flow |
| Beams.PassOn | day07/main.py:84-98 | one beam's contribution to the next row's counts, or its error |
| Beams.CountRow | day07/main.py:81-101 | one row of part 2 gives the next row's counts, or an error of that row's beams |
| Beams.FlowFollowsSweep | day07/main.py:67-101 | part 2 raises exactly when part 1 does, and its positions are part 1's beams |
| Beams.FlowPositive | day07/main.py:77-94 | every position part 2 records has at least one timeline |
| Beams.BlockedNext | day07/main.py:95-98 | a faulty row stops part 2 with its positions |
| Beams.BlockedStays | day07/main.py:95-98 | once part 2 has raised, later rows do not change the outcome |
| Beams.SumValuesRemove | day07/main.py:105 | the sum of the counts splits into one count plus the rest |
| Beams.SumValuesAtLeast | day07/main.py:105 | counts that are all positive sum to at least the number of keys |
| Beams.TimelinesCoverBeams | day07/main.py:28-105 | there are at least as many timelines as part 1 has beams on the same row |
| Beams.Part2 | day07/main.py:67-105 | part 2 is the sum of the counts on the last row, or an error the beams meet |
| Circuits.ParsePoint | day08/main.py:92-93 | a malformed line fails with that line |
| Circuits.ParseShowPoint | day08/main.py:92-99 | parsing the printed form of a point gives the point back |
| Results.ParseEachSnoc | day10/main.py:116 | converting one more line appends its value, or yields the earlier error, or the new line's error |
| Results.ParseEachErr | day10/main.py:116 | once some lines fail, lines after them do not change the error |
| Results.ParseEachPrefixErr | day10/main.py:116 | when a prefix of the lines fails, the whole list fails with the prefix's error |
| Results.ParseEach | day08/main.py:130 | `[Point(l) for l in lines]`: every line converts, in order and one value per line, or the error is that of the first line that fails |
| Circuits.SqDistSymmetric | day08/main.py:111 | the edge weight is symmetric and zero only between equal points |
| Circuits.Row | day08/main.py:131 | one row of `combinations`: `(i, j)` for every `j` from `from` up, in order |
| Circuits.PairsFrom | day08/main.py:131 | `combinations` from `from` on: every pair `i < j` exactly once, in lexicographic order |
| Circuits.Pairs | day08/main.py:131 | `combinations(points, 2)` lists exactly the index pairs `i < j`, in lexicographic order |
| Circuits.Edges | day08/main.py:131 | the sorted edges are a permutation of all pairs, ordered by weight |
| Circuits.EdgesArePairs | day08/main.py:131 | an edge is in the sorted list exactly when it is a pair `i < j` |
| Circuits.EdgesDistinct | day08/main.py:131 | no edge appears twice in the sorted list |
| Circuits.FindSet | day08/main.py:119-124 | `find_sets` returns the first circuit holding the point, or raises when none does |
| Circuits.Find | day08/main.py:119-124 | the `find_sets` loop computes exactly `FindSet` |
| Circuits.FindUnique | day08/main.py:119-124 | among disjoint circuits the one holding the point is found |
| Circuits.Start | day08/main.py:133 | the initial circuits are the singletons, in order |
| Circuits.StartPartition | day08/main.py:133 | the singletons partition the points, and two points start together only if they are equal |
| Circuits.Delete | day08/main.py:143-147 | `del circuits[k]` shifts the later circuits down by one |
| Circuits.DeleteTwo | day08/main.py:142-147 | deleting the higher index first and then the lower one removes exactly those two circuits |
| Circuits.MergeAt | day08/main.py:141-148 | the merge keeps the other circuits in order and appends the union last |
| Circuits.MergeDisjoint | day08/main.py:141-148 | merging keeps the circuits pairwise disjoint |
| Circuits.MergePartition | day08/main.py:141-148 | merging keeps a partition of the points, with one circuit fewer |
| Circuits.MergeFindAt | day08/main.py:141-148 | after a merge, each point is found in the union or at its circuit's new index |
| Circuits.MergeFindUnion | day08/main.py:141-148 | points of the two merged circuits are found in the union |
| Circuits.MergeFindRest | day08/main.py:141-148 | points of the other circuits are found at the shifted index |
| Circuits.MergeTogether | day08/main.py:141-148 | after a merge two points share a circuit exactly when they did before or each was in one of the merged circuits |
| Circuits.LinkedTogether | day08/main.py:136-148 | points joined by a walk over edges whose ends share circuits share a circuit |
| Circuits.WalkTogether | day08/main.py:136-148 | the ends of such a walk share a circuit |
| Circuits.InitialValid | day08/main.py:133-134 | the initial state is a partition, and no edge has been processed |
| Circuits.StepKeep | day08/main.py:138 | an edge inside one circuit changes nothing |
| Circuits.StepMergeShape | day08/main.py:138-148 | an edge between two circuits merges them, records the edge and leaves one circuit fewer |
| Circuits.StepMergeCovers | day08/main.py:138-148 | after a merge every processed edge still lies inside one circuit |
| Circuits.StepValid | day08/main.py:138-148 | one loop turn never raises, keeps the partition, and merges exactly when the ends are apart |
| Circuits.RunValid | day08/main.py:136-148 | the loop over in-range edges never raises and keeps a partition that covers its edges |
| Circuits.Components | day08/main.py:136-148 | after the loop two points share a circuit exactly when the processed edges connect them |
| Circuits.AllPairsJoin | day08/main.py:171-185 | processing every pair leaves a single circuit |
| Circuits.AllTogether | day08/main.py:172 | a partition in which every point is with point 0 has one circuit |
| Circuits.UntilOneIsRun | day08/main.py:171-173 | the `break` at one circuit does not change the outcome |
| Circuits.UntilOneStays | day08/main.py:172-173 | once a single circuit is left, later edges change nothing |
| Circuits.LastAtEnd | day08/main.py:186 | a merging edge processed last is the recorded last connection |
| Circuits.LastMerge | day08/main.py:186 | a recorded last connection is an edge whose processing merged two circuits |
| Circuits.Prefix | day08/main.py:136 | `s[:k]` keeps the first `min(k, len(s))` elements |
| Circuits.BySize | day08/main.py:152 | `sorted(circuits, key=len, reverse=True)` is a permutation ordered by decreasing size |
| Circuits.Sizes | day08/main.py:158 | `[len(s) for s in ...]` |
| Circuits.Product | day08/main.py:158 | `reduce` multiplies a non-empty list and raises on an empty one |
| Circuits.ProductIsProd | day08/main.py:158 | `reduce` over a non-empty list is the product of its elements |
| Circuits.EdgesInRange | day08/main.py:131-136 | every edge of any prefix of the sorted edges joins two input points |
| Circuits.Answer1Ok | day08/main.py:128-161 | part 1 succeeds exactly when every line parses |
| Circuits.Answer2Closing | day08/main.py:163-195 | with two or more points part 2 is the product of the x coordinates of the last merging edge; with one point it raises `UnboundLocalError` |
| Circuits.Connect | day08/main.py:138-148 | the loop body computes one Kruskal step and reports whether it merged |
| Circuits.RunNext | day08/main.py:136-148 | one loop turn extends the run by one step |
| Circuits.Answer1Of | day08/main.py:152-158 | part 1's value is the product of the three largest circuit sizes after the first 1000 edges |
| Circuits.Part1 | day08/main.py:128-161 | the method returns part 1's value as text, or its error |
| Circuits.UntilOneNext | day08/main.py:171-186 | while more than one circuit is left, one loop turn is one step |
| Circuits.Answer2Of | day08/main.py:186-195 | part 2's value is the product of the last connection's x coordinates, and `UnboundLocalError` when no edge merged |
| Circuits.Part2 | day08/main.py:163-195 | the method returns part 2's value as text, or its error |
| Tiles.ParsePoint | day09/main.py:38-39 | a malformed line fails with that line |
| Tiles.ParseShowPoint | day09/main.py:38-45 | parsing the printed form of a tile gives the tile back |
| Tiles.AreaFacts | day09/main.py:57-65 | min is at most max on each axis, `area` is width times height, it is at least 1 and does not depend on corner order |
| Tiles.Column | day09/main.py:78-79 | the inner loop yields every row of one column, bottom to top |
| Tiles.ColumnsSize | day09/main.py:76-79 | the first `n` columns hold `n * height` tiles |
| Tiles.ColumnsMembers | day09/main.py:76-79 | the first `n` columns hold exactly the tiles in those columns and the rectangle's rows |
| Tiles.ColumnsOrder | day09/main.py:76-79 | the tiles come column by column, then row by row |
| Tiles.LatticeSpec | day09/main.py:76-79 | `points()` yields each covered tile exactly once, `area` of them |
| Tiles.LatticePoints | day09/main.py:76-79 | the nested loops yield exactly the lattice |
| Tiles.InsideSpec | day09/main.py:82-85 | `contains_not_border` holds exactly for covered tiles off the border, never for the corners |
| Tiles.Rectangles | day09/main.py:92-94 | one rectangle per pair `i < j`, and none otherwise; none for fewer than two tiles |
| Tiles.LargestSpec | day09/main.py:89-98 | part 1 is the largest area over pairs of red tiles; `IndexError` with fewer than two tiles |
| Tiles.Part1 | day09/main.py:88-98 | part 1 succeeds exactly when the tiles parse and there are at least two; its text is the largest area over pairs of red tiles; otherwise the parse error or `IndexError` |
| Tiles.GreensSpec | day09/main.py:105-107 | the green tiles are exactly those covered by the side from each red tile to the next, wrapping around; every red tile is green |
| Tiles.ByAreaDesc | day09/main.py:109-113 | `sorted(key=area, reverse=True)` is a permutation ordered by decreasing area |
| Tiles.FirstClear | day09/main.py:116-119 | the loop stops at the first rectangle with no green tile strictly inside, or runs to the end |
| Tiles.FirstClearLargest | day09/main.py:116-119 | the first clear rectangle is at least as large as any clear rectangle |
| Tiles.ChosenLargest | day09/main.py:109-121 | when some rectangle is clear, part 2 chooses a clear one of largest area |
| Tiles.ChosenFallback | day09/main.py:116-121 | when none is clear, `r` keeps the last, smallest, rectangle |
| Tiles.LargestClearSpec | day09/main.py:101-122 | when some pair of red tiles spans a clear rectangle, part 2 is the largest clear area |
| Tiles.LargestClearFallback | day09/main.py:116-121 | when no pair is clear, part 2 is the smallest area |
| Tiles.LargestClearUnbound | day09/main.py:116-121 | with fewer than two red tiles `r` is never bound: `UnboundLocalError` |
| Tiles.FirstFit | day09/main.py:116-121 | the `for ... break` loop computes exactly `Chosen` |
| Tiles.Part2 | day09/main.py:101-122 | the method returns part 2's value as text, or its error |
| Machines.Ints | day10/main.py:41 | `map(int, parts)` succeeds exactly when every part is an integer numeral, and keeps the order |
| Machines.Wrap | day10/main.py:42 | numpy indexing: a negative position counts from the end |
| Machines.Mark | day10/main.py:40-42 | the button vector is 1 exactly at the listed positions and 0 elsewhere |
| Machines.ButtonOf | day10/main.py:39-43 | a parsed button is a 0/1 vector over the lights |
| Machines.ButtonOfSpec | day10/main.py:40-42 | a button fails exactly when a position is out of range, and otherwise marks exactly its positions |
| Machines.Buttons | day10/main.py:38-44 | the list is Ok exactly when every raw button parses; then button `k` is what `ButtonOf` makes of raw button `k`, and otherwise the error is the first failing button's |
| Machines.ButtonsErr | day10/main.py:38-44 | the first failing button fails the whole list |
| Machines.ParseButtons | day10/main.py:38-44 | the button loop computes exactly `Buttons` |
| Machines.LightsOf | day10/main.py:36 | one 0/1 light per pattern character |
| Machines.MachineOf | day10/main.py:30-46 | a parsed machine is well formed: the start is all zeros and every button and the lights match its width |
| Machines.MachineOfSpec | day10/main.py:32-46 | the target lights are 1 exactly at `#`, the start state is all zeros, the buttons are `Buttons` of the stripped, space-split button text and the joltage is `int` of each comma-separated field inside the braces |
| Machines.ParseMachine | day10/main.py:30-46 | `Machine(line)` computes exactly `MachineOf` |
| Machines.Machines | day10/main.py:115-116 | `parse_input` is Ok exactly when every non-empty line parses; then it holds one well-formed machine per non-empty line, in order, each `MachineOf` its line, and otherwise the error is the first failing line's |
| Machines.ParseInput | day10/main.py:115-116 | the parsing loop computes exactly `Machines` |
| Machines.Press | day10/main.py:80-85 | pressing a button keeps the state's width |
| Machines.ReachNext | day10/main.py:69-101 | the states reachable in `n + 1` presses are the successors of those reachable in `n` |
| Machines.NextAdd | day10/main.py:72-85 | one more frontier state adds its presses to the successors |
| Machines.PressesInNext | day10/main.py:77-85 | a state's presses are among the successors of any set holding it |
| Machines.ReachShape | day10/main.py:80-85 | every reachable state has the machine's width, and is 0/1 in light mode |
| Machines.UptoHas | day10/main.py:92-94 | in light mode, every state reachable within `d` presses is explored after depth `d` |
| Machines.NewDisjoint | day10/main.py:92-94 | the frontiers of different depths share no state |
| Machines.NextUpto | day10/main.py:92-99 | the successors of everything explored are explored one depth later |
| Machines.UptoSplit | day10/main.py:92-99 | the explored set is the previous one plus the new frontier |
| Machines.LightLevel | day10/main.py:92-99 | the explored set plus the frontier's successors is the next explored set |
| Machines.SeenOrFrontier | day10/main.py:92-99 | every successor of an explored state is explored or a successor of the frontier |
| Machines.LightFrontier | day10/main.py:92-99 | the next frontier is the frontier's successors not yet explored |
| Machines.LightEarlier | day10/main.py:90-94 | every state reachable in `i + 1 <= d + 1` presses is a successor of the states explored by depth `d` |
| Machines.LightClosed | day10/main.py:92-94 | once a frontier is empty, no reachable state lies outside the explored set |
| Machines.LightNever | day10/main.py:69-103 | an empty frontier with the goal unseen means no number of presses reaches the lights |
| Machines.InCube | day10/main.py:36-44 | a 0/1 vector is one of the `2^n` light states |
| Machines.UptoCube | day10/main.py:92-94 | the explored light states stay inside the `2^n` light states |
| Machines.UptoSize | day10/main.py:92-101 | while the frontier is non-empty, `depth + 1` distinct states have been explored |
| Machines.LightDeep | day10/main.py:69-101 | a non-empty light frontier at depth `d` has `d < 2^n`, so the light search ends |
| Machines.EmptyStays | day10/main.py:69 | an empty light frontier stays empty |
| Machines.UptoGrow | day10/main.py:92-99 | the explored set grows by the new frontier exactly, which is disjoint from it |
| Machines.PrunedNext | day10/main.py:95-99 | the joltage frontier is the successors of the previous one that do not exceed the goal |
| Machines.PrunedInReach | day10/main.py:95-99 | every joltage frontier state is reachable in that many presses |
| Machines.ReachPruned | day10/main.py:95-97 | every reachable state that does not exceed the goal survives the pruning |
| Machines.TargetsPruned | day10/main.py:90-97 | if the goal is reachable at some depth, it is in that depth's frontier |
| Machines.PrunedEmpty | day10/main.py:95-99 | an empty joltage frontier stays empty |
| Machines.JoltageNever | day10/main.py:69-103 | an empty joltage frontier with the goal never met means no number of presses reaches it |
| Machines.SumPress | day10/main.py:85 | pressing adds the button's total to the counters' total |
| Machines.SumBelow | day10/main.py:95-97 | a state not exceeding the goal has no larger total |
| Machines.SumNonNegative | day10/main.py:42 | a 0/1 vector has a non-negative total |
| Machines.SumActs | day10/main.py:42 | a button with a marked position has total at least 1 |
| Machines.SumZero | day10/main.py:35 | the all-zero start has total 0 |
| Machines.PrunedSum | day10/main.py:85-97 | a joltage frontier state at depth `d` has total at least `d` and does not exceed the goal |
| Machines.JoltageDeep | day10/main.py:95-101 | a non-empty joltage frontier at depth `d >= 1` has `d` at most the goal's total, so the joltage search ends |
| Machines.PressesSnoc | day10/main.py:77 | one more button adds one successor |
| Machines.PressAll | day10/main.py:77-99 | the button loop detects the goal exactly when a press reaches it, and otherwise adds the new presses (deduplicated or pruned) |
| Machines.Level | day10/main.py:72-99 | one depth's loop detects the goal exactly among the frontier's successors, and otherwise yields the next frontier |
| Machines.LightSets | day10/main.py:92-99 | the new explored set and frontier are the next depth's |
| Machines.LightMissed | day10/main.py:90-91 | the goal missed at every depth so far is not a successor of anything explored |
| Machines.LightShape | day10/main.py:98-99 | every light frontier state has the machine's width |
| Machines.LightSearchStep | day10/main.py:69-101 | a light-mode level that misses the goal keeps the search invariant one depth further |
| Machines.JoltageFrontier | day10/main.py:95-99 | a joltage level that misses the goal yields the next pruned frontier, and the goal is not reachable at that depth |
| Machines.JoltageSearchStep | day10/main.py:69-101 | a joltage-mode level that misses the goal keeps the search invariant one depth further |
| Machines.NotBeforeStep | day10/main.py:90-101 | the goal unreached at the next depth extends "not reached before" by one |
| Machines.SearchHit | day10/main.py:90-91 | every state the search meets at depth `d + 1` is reachable in `d + 1` presses |
| Machines.HitIsFewest | day10/main.py:90-91 | the goal met at depth `d + 1` and missed before is reached in fewest presses |
| Machines.SearchStart | day10/main.py:61-67 | the start state satisfies the search invariant at depth 0 |
| Machines.SearchEnd | day10/main.py:69-103 | an empty frontier means the goal can never be reached |
| Machines.Advance | day10/main.py:70-101 | one turn of the outer loop either returns the fewest presses or keeps the invariant at the next depth |
| Machines.Search | day10/main.py:61-103 | the search returns the fewest presses to the goal, or raises exactly when no press sequence reaches it |
| Machines.TurnOn | day10/main.py:57-103 | `turn_on` returns the fewest presses, fails with `ValueError` only when the goal is unreachable, and a joltage target of the wrong width is a shape error |
| Machines.FewestUnique | day10/main.py:90-91 | the fewest number of presses is unique |
| Machines.SumFewest | day10/main.py:123-129 | the loop adds each machine's fewest presses, or fails when some machine cannot be turned on |
| Machines.Part1 | day10/main.py:119-133 | part 1 is the text of the total of fewest presses over every machine, or the parse error, or the error of an unreachable machine |
| Paths.ParseLine | day11/main.py:40-41 | a line is accepted exactly when `split(": ")` gives two parts |
| Paths.ParseLineJoin | day11/main.py:40-41 | joining the source and destinations back gives the line |
| Paths.NodesOfOk | day11/main.py:36-42 | `Graph(lines)` succeeds exactly when every non-blank line has one `": "` |
| Paths.NodesOfLastWins | day11/main.py:42 | a source's destinations come from its last line |
| Paths.NodesOfKeys | day11/main.py:36-42 | every key of the graph comes from some non-blank line |
| Paths.NodesOfNext | day11/main.py:36-42 | one loop turn skips a blank line, raises on a malformed one, and otherwise sets that source's destinations |
| Paths.NodesOfStopsAt | day11/main.py:36-42 | the first malformed line is the constructor's error |
| Paths.Graph.constructor | day11/main.py:35 | the graph starts with no nodes |
| Paths.Graph.Parse | day11/main.py:34-42 | `Graph(lines)` holds exactly the parsed map, or raises the first line's error |
| Paths.StepAppend | day11/main.py:66 | expanding a concatenation of frontiers is the concatenation of expansions |
| Paths.EndsStayEmpty | day11/main.py:56-69 | once no walk has length `d`, none is longer |
| Paths.WalksSettle | day11/main.py:71 | counting walks shorter than a length beyond the longest walk changes nothing |
| Paths.EmptyWalkCounted | day11/main.py:49 | the start itself counts as one walk to the start |
| Paths.SinkNotExpanded | day11/main.py:62-63 | a label with no line has no successors |
| Paths.InStep | day11/main.py:66-69 | a successor of a frontier label is in the next frontier |
| Paths.StepLabels | day11/main.py:66-69 | expansion yields only labels reachable from the start |
| Paths.EndsLabels | day11/main.py:66-69 | every walk ends at a reachable label |
| Paths.AmongAdd | day11/main.py:66-67 | expanding one more explored label adds its walk count times its edge multiplicity |
| Paths.SearchingInit | day11/main.py:48-54 | the initial counts, explored set and queue satisfy the search invariant |
| Paths.AllPassed | day11/main.py:56-69 | when the queue moves to the next depth, every state of the current depth was explored and passed on |
| Paths.QueueDeeper | day11/main.py:56-69 | the queue at the next depth still has its shape, and some walk has that length |
| Paths.ExploredDeeper | day11/main.py:56-69 | the explored set still has its shape at the next depth |
| Paths.CoveredDeeper | day11/main.py:56-69 | every state of the next depth is queued or explored |
| Paths.CountedDeeper | day11/main.py:66-67 | the counts at the next depth are complete |
| Paths.SearchingNextDepth | day11/main.py:56-69 | the search invariant moves to the next depth |
| Paths.FrontDepth | day11/main.py:57 | the popped state is at the current depth and ends some walk |
| Paths.SearchingSkip | day11/main.py:58-59 | popping an explored state keeps the invariant |
| Paths.InUniverse | day11/main.py:56-60 | every state ends a walk no longer than the bound, so the states are finitely many |
| Paths.Shrinks | day11/main.py:60 | exploring a new state shrinks the unexplored states |
| Paths.PassedAdd | day11/main.py:66-67 | exploring a state passes its walk count along each edge |
| Paths.SearchingSink | day11/main.py:60-63 | exploring a label with no line keeps the invariant |
| Paths.Fresh | day11/main.py:68-69 | the queued states are successors at the next depth not yet explored |
| Paths.FreshAll | day11/main.py:68-69 | every successor is queued when nothing at its depth is explored |
| Paths.AddedNone | day11/main.py:66 | before the inner loop nothing is added |
| Paths.AddedNext | day11/main.py:66-67 | one inner turn adds the walk count to one successor |
| Paths.FreshNext | day11/main.py:68-69 | one inner turn queues that successor exactly when it is unexplored |
| Paths.PassOnNext | day11/main.py:66-69 | one inner turn keeps counts and queue equal to their specifications |
| Paths.ExpandQueue | day11/main.py:68-69 | pushing successors at the next depth keeps the queue's shape |
| Paths.ExpandCounted | day11/main.py:66-67 | passing a state's count on keeps the counts complete |
| Paths.ExpandCovered | day11/main.py:66-69 | after expanding a state its successors are queued or explored |
| Paths.SearchingExpand | day11/main.py:60-69 | exploring a label with successors keeps the invariant |
| Paths.ExpandExplored | day11/main.py:60 | exploring a state keeps the explored set's shape |
| Paths.SearchingDone | day11/main.py:56-69 | when the queue is empty, every recorded count is the number of walks of that length |
| Paths.TotalWalks | day11/main.py:71 | summing the final label's counts over depths gives the number of walks shorter than that depth |
| Paths.WalksAt | day11/main.py:71 | when no walk has length `n`, every walk is shorter than `n` |
| Paths.Graph.FindAllPaths | day11/main.py:44-75 | `find_all_paths` returns the number of walks from the initial label to the final label |
| Paths.Graph.Expand | day11/main.py:57-69 | exploring one popped state keeps the search invariant |
| Paths.Graph.PassOn | day11/main.py:66-69 | the inner loop adds the walk count to each successor and queues the unexplored ones |
| Paths.Part1 | day11/main.py:91-97 | part 1 is the number of walks from `you` to `out`, or the parse error |
| Paths.Part2 | day11/main.py:100-114 | part 2 is the product of the walk counts `svr` to `fft`, `fft` to `dac` and `dac` to `out`, or the parse error |

## Left out

- Reading files, fetching puzzle input, timers, console output, submission and `main` are not modelled. Each part takes its input as a string, or for day 4 as a list of lines.
- Day 4's `parse_input` comes from the `elf.helpers` library, which is not part of this model. `Rolls.Part1` and `Rolls.Part2` take the lines it would produce.
- `Rolls.Grid.RemoveRolls`: Python iterates the table in insertion order. When several neighbour lookups would raise `IndexError`, the model says only that the error is one of them.
- `Beams.SplitRow`, `Beams.CountRow`: Python iterates sets and dictionaries in an order the program does not fix. The model visits beams in an arbitrary order. When several beams would raise, it says only that the error is one of theirs.
- `Circuits.Edges`: weights are compared as squared distances. Python compares the float square roots, which agree for integer coordinates small enough that the square root is exact in ordering.
- `Circuits.Edges`: points are identified by their index. Python's `Point` compares by identity, so duplicate coordinates are distinct points in both.
- `Circuits.Part1`, `Circuits.Part2`: the `forest` set is kept but never read, as in the source.
- `Tiles.GreensSpec`: the green tiles are a set of coordinates. Python's set holds `Point` objects compared by identity, but only `any` over it is used, which does not depend on duplicates.
- Day 10 part 2 (integer linear programming through `pulp`) is not modelled: it calls an external solver.
- `Machines.TurnOn`: only the modes `"light"` and `"joltage"` are modelled. The Python treats any other string as joltage without pruning, and then it may never stop.
- `Machines.TurnOn`: a joltage target whose width differs from the lights fails with `ShapeMismatch`, standing for numpy's broadcast error. numpy's broadcasting of a one-counter target is not modelled.
- `Machines.Press`: numpy float arrays are modelled as integer sequences. All values are small integers, so no rounding occurs.
- `Machines.Ints`, `Circuits.ParsePoint`, `Tiles.ParsePoint`: `int()` is modelled for the whitespace it skips, an optional sign and ASCII digits. Underscores and non-ASCII digits are not accepted.
- Loops with long bodies are extracted as methods of their own, each proved against a specification function. These are `ParseButtons`, `SumFewest`, `Search`, `Advance`, `Level`, `PressAll`, `SplitBeam`, `SplitRow`, `PassOn`, `CountRow`, `CountRolls`, `SelectRolls`, `ClearCells`, `Find`, `Connect`, `FirstFit`, `LatticePoints` and `Graph.Expand`.
- `Paths.Graph.FindAllPaths`: it requires that every walk from the start is bounded, which means no cycle is reachable. With a reachable cycle the Python loop never ends.
- `Paths.Graph.FindAllPaths` keeps a `depth` variable that the Python lacks. The final dictionary sum is modelled as a sum over depths up to the deepest one explored. Keys that are never written count 0, as `defaultdict` reads do.
- `Paths.Part2`: it requires bounded walks from each of `svr`, `fft` and `dac`, for the same reason.
