# Advent of Code 2022, days 3 to 11, in Dafny

This project models the solvers for days 3 to 11 of Advent of Code 2022. Each solver is a Go `main.go` that reads a puzzle input and prints the answers.

Each solver's kernel is modelled with the parsed input as its parameters, and the model proves what the kernel computes:

- **Day 3, rucksacks**: item priorities, the item shared by a rucksack's two compartments, and the badge shared by each group of three elves.
- **Day 4, section assignments**: ranges that contain or overlap one another.
- **Day 5, crate stacks**: parsed by column, then moved by a crane that reverses the block it lifts (part one) or keeps it in order (part two).
- **Day 6, the marker**: the first window of fourteen distinct characters.
- **Day 7, a directory tree**: built from a `cd`/`ls` log. The model computes its sizes and the two directory queries.
- **Day 8, a tree grid**: edge trees, interior trees visible from outside, and scenic scores.
- **Day 9, a rope**: knots follow the head, and the model tracks the cells the tail and the last knot visit.
- **Day 10, a CPU and a CRT**: a cycle counter, an X register, a three-pixel sprite and a scanline cursor.
- **Day 11, monkeys**: they pass items by worry-level tests. Counters feed the "monkey business", and part two reduces worry levels modulo the product of all test divisors.

There is one module per solver (`Day3Rucksacks` … `Day11Monkeys`, plus `Day11Properties`). `GoStd` models the few Go standard-library calls the solvers use, with their edge cases:

- `strings.Split`, `strings.Join` and `strings.HasPrefix`;
- `strconv.Atoi`, including its round trip with decimal formatting;
- Go's truncating `%`.

A Go panic or `log.Fatal` becomes `None`. Where the source iterates over a Go map, the iteration order is a parameter, or the choice is left open with `:|`.

The form follows the source:

- State the Go code updates in place is a class or an array with `modifies` clauses: day 11's monkeys, day 10's sprite and output, day 5's `reverse`.
- Loops are methods with invariants, proved equal to specification functions.
- Day 4's comparisons and the rope's follow rule are functions and lemmas.

## Model

| member | source | states |
|---|---|---|
| Day3Rucksacks.ItemPriority | day3/main.go:16-27 | 'a'..'z' map to 1..26 and 'A'..'Z' to 27..52, each its offset in the alphabet; any other character maps to 0 |
| Day3Rucksacks.PriorityRoundTrip | day3/main.go:16-27 | priorities and letters correspond one to one: priority-to-letter inverts letter-to-priority, both ways |
| Day3Rucksacks.PriorityInjective | day3/main.go:16-27 | two letters with the same priority are the same letter |
| Day3Rucksacks.DuplicateItemInCompartments | day3/main.go:29-47 | the result is the first item of the second half (from len/2) that also occurs in the first half; 0 when the halves share nothing |
| Day3Rucksacks.ContainingAll | day3/main.go:60-76 | an item is counted in every rucksack exactly when every rucksack carries it |
| Day3Rucksacks.BadgeOfThree | day3/main.go:78-85 | in a group of at most three, an item reaches count 3 iff the group has three rucksacks and all three carry it |
| Day3Rucksacks.CountRucksack | day3/main.go:60-76 | one later rucksack raises the count of each of its distinct items held by the table by exactly one, whatever the repeats |
| Day3Rucksacks.FindDuplicateItemInElfGroup | day3/main.go:49-86 | an empty group panics; otherwise the result is an item of the first rucksack counted 3 times (1 + later rucksacks carrying it) when one exists, else 0 |
| Day3Rucksacks.GroupLines | day3/main.go:94-106 | the groups are the consecutive runs of three lines, the last possibly shorter, with one empty group for no input |
| Day3Rucksacks.SumOfBadges | day3/main.go:94-113 | an empty input panics; otherwise the answer is the sum of the priorities of one admissible badge result per group of three lines |
| Day4Sections.GetSectionAssignment | day4/main.go:16-33 | "a-b" parses iff both bounds are accepted by `Atoi` and a '-' is present |
| Day4Sections.GetSectionAssignmentWritten | day4/main.go:16-33 | a range written as "start-end" in decimal is read back unchanged |
| Day4Sections.ContainedSymmetric | day4/main.go:35-47 | full containment does not depend on the order of the pair |
| Day4Sections.OverlappingSymmetric | day4/main.go:49-61 | overlap does not depend on the order of the pair |
| Day4Sections.ContainedMeansSubset | day4/main.go:35-47 | for well-formed ranges, the pair is fully contained iff one range's sections are a subset of the other's |
| Day4Sections.OverlapMeansSharedSection | day4/main.go:49-61 | for well-formed ranges, overlap iff some section is in both, iff max(starts) ≤ min(ends) |
| Day4Sections.ContainedOverlaps | day4/main.go:35-61 | for well-formed ranges, a contained pair overlaps |
| Day4Sections.ParsePair | day4/main.go:76-86 | a line parses iff it has a comma and both sides parse as ranges |
| Day4Sections.ContainedAtMostOverlapping | day4/main.go:75-95 | with well-formed ranges, contained pairs ≤ overlapping pairs ≤ lines |
| Day5Crates.Reversed | day5/main.go:92-97 | the reversal keeps the length and puts element k at position n−1−k |
| Day5Crates.ReversedInvolution | day5/main.go:92-97 | reversing twice restores the sequence |
| Day5Crates.ReversedSameCrates | day5/main.go:92-97 | reversing keeps the same crates (multiset) |
| Day5Crates.Reverse | day5/main.go:92-97 | the in-place swap loop leaves the array reversed |
| Day5Crates.Copy | day5/main.go:150-151 | a fresh array holding the slice's crates |
| Day5Crates.MoveCrates | day5/main.go:144-161 | corrected move: it touches only the source and destination stacks (and creates them if missing) |
| Day5Crates.MoveBetweenStacks | day5/main.go:145-160 | between two stacks the source keeps its crates below the top `count` in order, and the destination gets those `count` on top (reversed for part one) over its old crates |
| Day5Crates.MoveConservesCrates | day5/main.go:144-161 | a move between two stacks neither creates nor loses a crate |
| Day5Crates.MoveOntoItself | day5/main.go:144-161 | corrected: a move onto the same stack leaves every stack as it was, in order, for both cranes |
| Day5Crates.AsWrittenBetweenStacks | day5/main.go:144-161 | the code as written agrees with the corrected move whenever source ≠ destination |
| Day5Crates.AsWrittenDuplicatesOnSelfMove | day5/main.go:145-160 | as written, a move onto the same stack grows it by `count` crates |
| Day5Crates.SelfMoveExample | day5/main.go:145-160 | "move 1 from 1 to 1" on stack AB gives AAB as written; "move 2 from 1 to 1" on ABC gives BAABC with the part-one crane; corrected, both stacks stay as they were |
| Day5Crates.MoveOne | day5/main.go:145-160 | moving one crate between two stacks puts the source's top crate on top of the destination and removes it from the source |
| Day5Crates.SingleMovesOthers | day5/main.go:159-160 | one-crate moves touch only the source and destination stacks |
| Day5Crates.SingleMovesSource | day5/main.go:148-150 | `n` one-crate moves take exactly the top `n` crates off the source, leaving the rest in order |
| Day5Crates.SingleMovesDestination | day5/main.go:151-157 | `n` one-crate moves stack those crates on the destination in reverse order, over its old crates |
| Day5Crates.PartOneMovesOneAtATime | day5/main.go:153-157 | the part-one crane moving `count` crates at once equals `count` single-crate moves |
| Day5Crates.MoveAllStopped | day5/main.go:144-161 | a move asking for more crates than the source holds stops the whole run |
| Day5Crates.ApplyInstructions | day5/main.go:144-161 | the move loop, with self-moves corrected to leave the stack alone, equals applying the corrected moves in order, failing on the first impossible move |
| Day5Crates.SortedKeys | day5/main.go:163-167 | the keys come out strictly ascending, each stack number exactly once |
| Day5Crates.TopCrates | day5/main.go:163-172 | the message has the top crate of every stack in ascending stack number; any empty stack panics |
| Day5Crates.ParseInstruction | day5/main.go:28-50 | a line's captures parse iff all three fields are accepted by `Atoi` |
| Day5Crates.ParseInstructionWritten | day5/main.go:28-50 | an instruction written in decimal is read back with its fields in order |
| Day5Crates.ParseInstructions | day5/main.go:22-56 | one instruction per line, in order, iff every line parses |
| Day5Crates.ColumnAt | day5/main.go:71-75 | a character position belongs to stack i + 1 only when it is 1 + 4i with i < maxColumns |
| Day5Crates.ColumnOfStack | day5/main.go:71-75 | position 1 + 4(n−1) belongs to stack n for every n ≤ maxColumns |
| Day5Crates.ColumnIndex | day5/main.go:69-75 | the table maps exactly the positions 1 + 4i (i < maxColumns) to stack i + 1 |
| Day5Crates.ScanLineStopped | day5/main.go:77-83 | a letter outside every column stops the scan of its line |
| Day5Crates.ScanLinesStopped | day5/main.go:77-87 | a line that fails stops the scan of all lines |
| Day5Crates.ParseCrates | day5/main.go:58-90 | a bad column count is an error; otherwise the stacks are the lines scanned top to bottom |
| Day5Crates.ScanLineColumn | day5/main.go:77-86 | scanning a line appends to stack n exactly the letter at its column |
| Day5Crates.ScanLineSucceeds | day5/main.go:77-86 | a line whose letters all sit in columns scans without panic |
| Day5Crates.StacksAreColumns | day5/main.go:71-87 | parsing succeeds iff every letter sits in a stack's column, and stack n then lists, top first, the letters at position 1 + 4(n−1) |
| Day6Marker.HasUniqueCharacters | day6/main.go:10-22 | true iff no character occurs twice, so true for the empty input |
| Day6Marker.FindMarker | day6/main.go:38-59 | the answer is 1 + the first index ending a window of fourteen distinct characters, and 1 when there is none; no earlier index ends such a window |
| Day6Marker.MarkerHasFourteenCharacters | day6/main.go:46-53 | a marker window holds fourteen different characters |
| Day6Marker.DistinctCardinality | day6/main.go:10-22 | a sequence without repeats has as many distinct characters as elements |
| Day7Directories.GetSize | day7/main.go:49-67 | the loop with a recursive call per subdirectory computes the directory's size: its files plus its subdirectories |
| Day7Directories.FilesSizeAtLeastEach | day7/main.go:52-64 | with non-negative file sizes, the partial sum is non-negative and at least each subdirectory counted so far |
| Day7Directories.SizeNonNegative | day7/main.go:49-67 | with non-negative file sizes, a size is non-negative and at least each child's size |
| Day7Directories.SizeAgrees | day7/main.go:49-67 | arenas that differ only at one directory of equal size give every directory the same size |
| Day7Directories.FilesSizeAgrees | day7/main.go:52-64 | the same, for the partial sums of a directory's entries |
| Day7Directories.SizeIgnoresEarlier | day7/main.go:49-67 | a change to a directory does not affect the sizes of directories created after it |
| Day7Directories.FilesSizeIgnoresEarlier | day7/main.go:52-64 | the same, for the partial sums of a directory's entries |
| Day7Directories.AppendEntrySize | day7/main.go:140-166 | appending an entry adds the file's size, or the subdirectory's size, to the directory's size |
| Day7Directories.AppendEntryPrefix | day7/main.go:140-166 | appending an entry leaves the partial sums of the earlier entries unchanged |
| Day7Directories.ParseFile | day7/main.go:69-83 | "size name" parses iff the size is accepted by `Atoi` and a name follows; the result is a file |
| Day7Directories.ParseFileWritten | day7/main.go:69-83 | a file written as "size name" is read back unchanged |
| Day7Directories.ChangeDirectoryWellFormed | day7/main.go:107-140 | `cd` keeps the tree well formed, and once set the root is kept |
| Day7Directories.AddFileWellFormed | day7/main.go:154-166 | a file line keeps the tree well formed and the root |
| Day7Directories.ReadLineWellFormed | day7/main.go:97-168 | every line keeps the tree well formed, and once set the root is never replaced |
| Day7Directories.ListingChangesNothing | day7/main.go:141-152 | `ls` and `dir` lines leave the whole state unchanged |
| Day7Directories.EnterKeepsSizes | day7/main.go:118-140 | `cd x` pushes x, registers a new empty directory under the joined path, and changes no existing directory's size |
| Day7Directories.AppendedKeepsSize | day7/main.go:118-131 | registering a new directory does not change any existing directory's size |
| Day7Directories.AppendedKeepsFilesSize | day7/main.go:118-131 | the same, for the partial sums of a directory's entries |
| Day7Directories.FileAddsToCurrent | day7/main.go:154-166 | a file line raises the current directory's size by the file's size and leaves directories created after it alone |
| Day7Directories.Replay | day7/main.go:96-168 | replaying any log yields a well-formed tree or an error |
| Day7Directories.RootNeverReplaced | day7/main.go:132-136 | once a prefix of the log has set the root, the whole log ends with the same root |
| Day7Directories.ReplayStopped | day7/main.go:96-168 | a failing line stops the whole replay |
| Day7Directories.BuildTree | day7/main.go:92-168 | the scanning loop equals the line-by-line replay |
| Day7Directories.ProcessLine | day7/main.go:98-167 | one pass of the scanning loop equals reading that line: `cd`, `ls`, an unknown command (fatal), `dir`, or a file |
| Day7Directories.ChangeTo | day7/main.go:107-140 | the `cd` branch equals the specified change of directory, including its panics |
| Day7Directories.SmallTotalWithout | day7/main.go:170-179 | removing a key from the visiting order removes exactly its contribution |
| Day7Directories.SameKeysRegistered | day7/main.go:170-179 | orders with the same keys name only registered directories |
| Day7Directories.SmallTotalAnyOrder | day7/main.go:170-179 | the part-one total is the same for every iteration order of the lookup map |
| Day7Directories.SumSmallDirectories | day7/main.go:170-179 | visiting every registered key exactly once, the total is the sum of the sizes below 100000, and every such visiting order gives the same total |
| Day7Directories.FirstSmallest | day7/main.go:201-206 | the index picked has the smallest size, and strictly smaller than every earlier entry (stable sort, then `[0]`) |
| Day7Directories.CollectEligible | day7/main.go:182-199 | the filter keeps, in iteration order, exactly the directories not keyed "/" whose size reaches the space still needed |
| Day7Directories.SelectDirectory | day7/main.go:182-206 | visiting every registered key exactly once, a directory is selected iff some registered key other than "/" has size ≥ 30000000 − (70000000 − root size); it is the smallest of all such directories, the first of its size in iteration order |
| Day8Trees.EdgeCountAsWritten | day8/main.go:13-40 | as written, a rectangular grid with R ≥ 2 rows and C ≥ 2 columns counts 3R + C − 4 edge trees when R − 1 is within the last row's capacity, and panics when it is past it |
| Day8Trees.EdgeCellsInRowCount | day8/main.go:13-40 | the top and bottom rows are all edge cells; any other row has exactly its two ends |
| Day8Trees.EdgeCellsCount | day8/main.go:13-40 | the first r rows hold the counted number of edge cells |
| Day8Trees.EdgeCountIsEdgeCells | day8/main.go:13-40 | corrected, the count is the number of grid cells on the edge, 2R + 2C − 4 |
| Day8Trees.EdgeCountAsWrittenExample | day8/main.go:36 | as written equals corrected on square grids, whatever the capacity; the 2×3 grid counts 5 of its 6 edge trees |
| Day8Trees.VisibleTreesAtEdge | day8/main.go:13-40 | the loop computes the corrected edge count, or panics on an empty grid, an empty row, or a last row of one column |
| Day8Trees.LeftSight | day8/main.go:61-66 | the trees left of a cell, nearest first |
| Day8Trees.RightSight | day8/main.go:70-75 | the trees right of a cell, nearest first |
| Day8Trees.TopSight | day8/main.go:79-84 | the trees above a cell, nearest first |
| Day8Trees.BottomSight | day8/main.go:88-93 | the trees below a cell, nearest first |
| Day8Trees.VisibleFromLeft | day8/main.go:60-66 | true iff every tree to the left is strictly shorter |
| Day8Trees.VisibleFromRight | day8/main.go:69-75 | true iff every tree to the right is strictly shorter |
| Day8Trees.VisibleFromTop | day8/main.go:78-84 | true iff every tree above is strictly shorter |
| Day8Trees.VisibleFromBottom | day8/main.go:87-93 | true iff every tree below is strictly shorter |
| Day8Trees.VisibleInteriorTrees | day8/main.go:42-102 | counts each interior tree once iff, in some direction, every tree to the edge is strictly shorter |
| Day8Trees.NoVisibleOnEdgeRow | day8/main.go:45-50 | the top and bottom rows contribute nothing |
| Day8Trees.RowVisibleBound | day8/main.go:52-56 | a row contributes at most its interior cells |
| Day8Trees.GridVisibleBound | day8/main.go:45-56 | the interior count is at most (R−2)(C−2) |
| Day8Trees.RowVisibleCounts | day8/main.go:95-97 | each visible interior tree adds one to its row's count |
| Day8Trees.ViewingDistance | day8/main.go:120-162 | the distance is at most the trees to the edge, and at least 1 when there is one |
| Day8Trees.ViewingDistanceMeaning | day8/main.go:120-129 | the trees counted before the last are all shorter, and the last one counted is at least as tall unless it is the edge tree |
| Day8Trees.ViewingDistanceStops | day8/main.go:120-129 | when the first tree at least as tall is at j, the distance is j + 1; with none, it is the distance to the edge |
| Day8Trees.VisibleSeesToEdge | day8/main.go:58-129 | a tree visible from a direction sees every tree to that edge |
| Day8Trees.LeftScenicScore | day8/main.go:120-129 | the count loop gives the viewing distance to the left |
| Day8Trees.RightScenicScore | day8/main.go:131-140 | the count loop gives the viewing distance to the right |
| Day8Trees.TopScenicScore | day8/main.go:142-151 | the count loop gives the viewing distance upwards |
| Day8Trees.BottomScenicScore | day8/main.go:153-162 | the count loop gives the viewing distance downwards |
| Day8Trees.ScoreBounds | day8/main.go:120-164 | for an interior tree each distance is between 1 and the distance to the edge, so the score is at least 1 |
| Day8Trees.ScoresOfAt | day8/main.go:164-165 | the k-th score is the score of the k-th cell |
| Day8Trees.ScenicScores | day8/main.go:104-170 | the loops produce the score of each interior tree, in row-major order |
| Day8Trees.ScoreRow | day8/main.go:114-166 | one interior row appends the scores of that row's interior cells |
| Day8Trees.TreeScore | day8/main.go:120-164 | the product of the four viewing distances |
| Day8Trees.NoCellsOnEdgeRow | day8/main.go:108-112 | the top and bottom rows produce no scores |
| Day8Trees.RowCellsLayout | day8/main.go:114-118 | an interior row yields its interior columns in order |
| Day8Trees.GridCellsLength | day8/main.go:107-118 | the first r rows yield (r−1)(C−2) cells |
| Day8Trees.GridCellsPrefix | day8/main.go:107-118 | scoring more rows only appends |
| Day8Trees.CellAt | day8/main.go:107-166 | interior tree (r, c) is cell (r−1)(C−2) + (c−1) of the row-major order |
| Day8Trees.ScoreCount | day8/main.go:104-170 | the score list has (R−2)(C−2) entries, one per interior tree |
| Day8Trees.ScoreOfCell | day8/main.go:164-165 | the score at a cell's index is that cell's score |
| Day8Trees.ScoreAt | day8/main.go:104-170 | the score of interior tree (r, c) is at index (r−1)(C−2) + (c−1) |
| Day8Trees.HighestScore | day8/main.go:203-209 | the reported score is a member of the list and at least every score; an empty list panics |
| Day9Rope.KnotPosition | day9/main.go:23-94 | the branch-by-branch rule equals the follow rule: stay if touching, else step by the sign of the difference on each axis |
| Day9Rope.FollowCloses | day9/main.go:23-94 | a knot moves at most one cell; it stays when touching, and otherwise gets one step closer |
| Day9Rope.FollowRestoresTouch | day9/main.go:23-94 | a knot at most two steps from the one ahead touches it after following |
| Day9Rope.DistanceTriangle | day9/main.go:23-94 | king-move distance obeys the triangle inequality |
| Day9Rope.FollowChainLinks | day9/main.go:96-115 | knot i follows the already-moved knot i−1; knot 0 follows the head |
| Day9Rope.MoveKnots | day9/main.go:96-115 | the fill loop builds the moved chain |
| Day9Rope.FollowChainConnects | day9/main.go:96-115 | a connected chain whose head moved one step is connected again |
| Day9Rope.IsDirectionMeans | day9/main.go:258-293 | the one-letter tests pick out exactly the directions "R", "L", "U" and "D" |
| Day9Rope.StepHead | day9/main.go:258-303 | each head step moves exactly one cell (R, L, U, D) |
| Day9Rope.StepOnce | day9/main.go:262-270 | one head step, the tail and the knots follow, and their cells are marked |
| Day9Rope.StepRope | day9/main.go:262-270 | `count` head steps in one direction |
| Day9Rope.Simulate | day9/main.go:257-305 | the visited sets are those of applying the moves from the start cell |
| Day9Rope.StepKeepsTaut | day9/main.go:262-270 | after every step the tail touches the head and the knots stay connected |
| Day9Rope.StepsKeepTaut | day9/main.go:262-270 | the rope stays taut over a whole move |
| Day9Rope.MovesKeepTaut | day9/main.go:257-305 | however the head moves, the rope never comes apart |
| Day9Rope.FirstKnotIsTail | day9/main.go:257-305 | the part-one tail and the part-two first knot are always on the same cell |
| Day9Rope.StepsKeepFirstKnot | day9/main.go:262-270 | the same, over one move |
| Day9Rope.StepsMarkAtMostOnePerStep | day9/main.go:117-120 | the visited sets only grow, by at most one cell per step |
| Day9Rope.VisitedAtMostSteps | day9/main.go:257-305 | neither visited count exceeds the number of head steps |
| Day9Rope.StepMarksCurrent | day9/main.go:264-269 | after a step the tail's and the last knot's cells are marked, and earlier marks remain |
| Day9Rope.ParseMove | day9/main.go:196-209 | a line parses iff it has a second field accepted by `Atoi`; the direction is the first field |
| Day9Rope.ParseMoveWritten | day9/main.go:196-209 | a move written as "direction count" is read back |
| Day9Rope.ParseMoves | day9/main.go:192-210 | one move per line iff every line parses |
| Day9Rope.Solve | day9/main.go:192-309 | the answers are the visited counts of the parsed moves, or an error when a line does not parse |
| Day10Crt.Sprite.constructor | day10/main.go:76-79 | the sprite starts over columns 0..2 |
| Day10Crt.Sprite.Move | day10/main.go:30-33 | the sprite covers register−1 .. register+1 |
| Day10Crt.Pixel | day10/main.go:36-42 | "#" iff the column is inside the sprite window, else "." |
| Day10Crt.Output.constructor | day10/main.go:68-74 | the output starts empty at row 0, column 0 |
| Day10Crt.Output.Draw | day10/main.go:35-54 | appends exactly one pixel for the current column, then a newline, a new row and column 0 exactly when the cycle is a multiple of 40 |
| Day10Crt.Decode | day10/main.go:84-122 | "noop" decodes to noop; "addx n" decodes iff n is accepted by `Atoi`; anything else is fatal |
| Day10Crt.DecodeNoop | day10/main.go:108 | "noop" is read back |
| Day10Crt.DecodeAddx | day10/main.go:88-92 | "addx v" is read back as addx v |
| Day10Crt.CursorStep | day10/main.go:44-53 | the cursor after n+1 pixels is the row and column of n pixels, advanced |
| Day10Crt.TickSnapshot | day10/main.go:95-103 | one cycle extends the register trace by the current register |
| Day10Crt.PerformSnapshot | day10/main.go:82-123 | running a program reaches the state determined by its register trace: noop one cycle, addx two with the old register, then the new value |
| Day10Crt.RunLinesMeaning | day10/main.go:82-123 | the run fails iff some line does not decode, and otherwise reaches the snapshot of the decoded program's trace |
| Day10Crt.TraceLength | day10/main.go:94-119 | noop lasts one cycle and addx two |
| Day10Crt.SignalsRecorded | day10/main.go:100-118 | a strength is recorded exactly for the cycles run that are multiples of 20, and equals cycle × register during that cycle |
| Day10Crt.RenderLength | day10/main.go:44-53 | the screen has one character per cycle plus a line break per 40 cycles |
| Day10Crt.SignalSumOfTrace | day10/main.go:125 | the sum is cycle × register over cycles 20, 60, …, 220, zero for cycles not reached |
| Day10Crt.RunCycle | day10/main.go:95-103 | one cycle on the objects equals one step of the machine |
| Day10Crt.RunLine | day10/main.go:83-122 | one line succeeds iff it decodes, and then moves the objects exactly as the decoded instruction moves the machine |
| Day10Crt.Run | day10/main.go:56-128 | fails iff some line is fatal; otherwise reports the signal sum and the screen of the run |
| Day10Crt.NoRunAfter | day10/main.go:120-122 | a fatal line stops the run |
| Day11Monkeys.GoRem | day11/main.go:186 | Go's `%`: the remainder has the dividend's sign and is smaller than the divisor in magnitude |
| Day11Monkeys.GoRemCongruent | day11/main.go:186 | a number and its Go remainder differ by a multiple of the divisor |
| Day11Monkeys.InspectMeans | day11/main.go:165-179 | `old + c`, `old * c`, `old + old` or `old * old`; any other operator is fatal |
| Day11Monkeys.Relieve | day11/main.go:181-187 | part one is floor(w / 3); part two differs from w by a multiple of the dividend and, for w ≥ 0, lies in [0, dividend) |
| Day11Monkeys.TopTwo | day11/main.go:213-217 | the two counters of two different monkeys that a descending sort puts first: no counter exceeds the first, and at most one exceeds the second |
| Day11Monkeys.Monkey.constructor | day11/main.go:27-33 | a monkey starts with its items, its rules and no inspections |
| Day11Monkeys.ComputeDividend | day11/main.go:153-156 | the loop multiplies up every test divisor |
| Day11Monkeys.ApplyOperation | day11/main.go:165-187 | the worry level after the operation and the relief |
| Day11Monkeys.InspectItem | day11/main.go:163-205 | one item is appended to the back of its target's list and the monkey's counter rises by one |
| Day11Monkeys.InspectAll | day11/main.go:162-205 | the items held at the start of the turn are thrown in order, and the counter rises by their number |
| Day11Monkeys.TakeTurn | day11/main.go:162-209 | the in-place turn equals the specified turn, ending with the monkey's list reset |
| Day11Monkeys.PlayRound | day11/main.go:159-210 | every monkey takes its turn in index order |
| Day11Monkeys.PlayRounds | day11/main.go:153-211 | the in-place rounds equal the specified rounds |
| Day11Monkeys.Simulate | day11/main.go:153-218 | plays the rounds and returns the product of the two largest counters |
| Day11Properties.DivisorDividesDividend | day11/main.go:153-156 | every test divisor divides the dividend |
| Day11Properties.ReductionKeepsEveryTest | day11/main.go:186-197 | reducing modulo the dividend leaves every monkey's test and target unchanged |
| Day11Properties.InspectCongruent | day11/main.go:165-179 | the operation maps congruent worry levels to congruent ones |
| Day11Properties.CongruentSameTarget | day11/main.go:191-197 | congruent worry levels go to the same monkey |
| Day11Properties.NewWorryCongruent | day11/main.go:165-197 | an inspection with reduction stays congruent to one without relief |
| Day11Properties.ThrowCongruent | day11/main.go:189-201 | throws of congruent items give congruent lists |
| Day11Properties.ThrowAllCongruent | day11/main.go:162-205 | inspecting congruent lists gives congruent lists |
| Day11Properties.TurnCongruent | day11/main.go:162-209 | a turn keeps states congruent and counters equal |
| Day11Properties.TurnSameCounts | day11/main.go:162-209 | a turn raises the counters alike whatever the relief |
| Day11Properties.RoundUpToCongruent | day11/main.go:159-210 | partial rounds keep states congruent and counters equal |
| Day11Properties.RoundsCongruent | day11/main.go:158-211 | whole rounds keep states congruent and counters equal |
| Day11Properties.ReductionKeepsCounts | day11/main.go:153-211 | part two's reduction gives exactly the inspection counts of unrelieved play |
| Day11Properties.ThrowAllAppends | day11/main.go:199-201 | inspecting only appends, to the back of each target's list |
| Day11Properties.SentIsRouted | day11/main.go:191-201 | every item sent to a monkey is one the test routes there |
| Day11Properties.ThrowAllTotal | day11/main.go:189-205 | each inspected item is appended exactly once |
| Day11Properties.TurnEffect | day11/main.go:162-209 | a turn empties the monkey's list, raises its counter by that list's length, and only appends to the others |
| Day11Properties.TurnTotal | day11/main.go:200-209 | a turn loses exactly the items the monkey threw to itself |
| Day11Properties.RoundUpToTotal | day11/main.go:159-210 | partial rounds never create items, and conserve them without self-throws |
| Day11Properties.RoundConservesItems | day11/main.go:159-210 | a round never creates items, and conserves them when no monkey throws to itself |
| Day11Properties.RoundUpToCountsGrow | day11/main.go:204 | counters never decrease within a round |
| Day11Properties.CountersNeverDecrease | day11/main.go:157-211 | counters never decrease from one round to a later one |
| Day11Properties.OtherTurnsOnlyAppend | day11/main.go:159-209 | other monkeys' turns only append to a monkey's list and leave its counter alone |
| Day11Properties.ThrownAheadInspectedSameRound | day11/main.go:159-164 | items thrown to a monkey not yet visited are inspected in the same round |
| Day11Properties.ThrownBehindWaits | day11/main.go:159-210 | items thrown to a monkey already visited wait for the next round |

## Left out

- Reading the input file, `bufio` scanning and printing are not modelled. Each solver's parsed input is a parameter, and a fatal exit is `None`.
- Machine-integer overflow is not modelled (e.g. squaring worry levels in day 11, `int64` sizes in day 7): integers are unbounded.
- Day 3 `unicode.IsLower` and `unicode.IsUpper` are modelled for ASCII letters only. Non-ASCII letters, which the source maps through the same modulo formula, are not modelled.
- Day3Rucksacks.DuplicateItemInCompartments: splits at half the number of characters, not bytes; the two agree on ASCII input.
- Day3Rucksacks.FindDuplicateItemInElfGroup: the Go map is iterated in random order, so when several items reach count 3 the model leaves open which one is returned.
- Day3Rucksacks.SumOfBadges: with several badges in a group the sum depends on that choice, so it is stated for some admissible choice per group.
- Day 5's regular expressions and the classification of input lines (day5/main.go:112-132) are not modelled. The three captured fields of an instruction are the input, and crate letters are 'A'..'Z'.
- Day 6 indexes the stream by byte offset, while the model indexes by character; the two agree on ASCII input.
- Day5Crates.ScanLine: keys crates by character index, while `range line` in day5/main.go:77-78 yields byte offsets; the two differ once a non-ASCII character precedes a crate letter, and agree on ASCII input.
- Day8Trees.EdgeCountAsWritten: the capacity of the last row is a parameter; Go's `append` growth policy, which decides it, is not modelled.
- Day7Directories.SumSmallDirectories and Day7Directories.SelectDirectory: the lookup map's iteration order is a parameter, required to list every registered key exactly once, as `range` does; part one is proved independent of it, and part two depends on it only in which of several smallest directories comes first.
- Day 7's log that returns to the empty path and then runs `cd` with an empty name would make a directory its own child; the source's `getSize` would then never return, and the model treats that line as an error.
- Day 7 directories live in an arena (a sequence indexed by creation order) instead of heap pointers.
- Day 7: a path registered twice replaces the lookup entry, while the old directory stays in its parent; the arena keeps both, as the source does.
- Day 8's digit parsing (day8/main.go:179-198) is not modelled; the grid is the input.
- Day8Trees.VisibleInteriorTrees, Day8Trees.ScenicScores and the directional methods require a rectangular grid. A ragged grid can make the source index past a shorter row and panic; that path is not modelled.
- Day 8's `sort.Ints` is not modelled; only the last element it yields is, as the maximum (`HighestScore`).
- Day 9's grid sizing (day9/main.go:212-234) and `getGridOutput` (day9/main.go:122-183) are debug rendering and not modelled. The start cell is a parameter, and `math.Abs` on floats is an integer absolute value.
- Day 9's `markVisitedPosition` keys cells by a formatted string; the model keeps cells as positions in a set, which is the same up to that one-to-one key.
- Day 10's `Output.position` pointer is flattened into the `row` and `column` fields of `Output`.
- Day 11's regular-expression parsing of monkey definitions (day11/main.go:48-151) is not modelled; monkeys come already parsed.
- Day 11: `math.Floor(float64(w)/3)` is integer division, which equals it for the worry levels the puzzle produces.
- Day 11's `sort.Slice` is not modelled; only the two largest counters it yields are (`TopTwo`).
- Day11Monkeys.Simulate: requires at least two monkeys, where the source would panic at `monkeys[1]`. It also requires every operator to be `+` or `*`, every divisor non-zero and every target in range; the source only fails when a faulty monkey first inspects an item. It also requires the monkey at position i to carry index i (`Troop`). The source keeps the monkeys in file order (day11/main.go:56 and :150), takes turns in that order (:160) and sends each throw through `monkeyMap`, which is keyed by the parsed index (:57 and :200). So it also runs a file that lists the monkeys out of index order, and the model says nothing about such a file.

## Findings

| source | as written | input that shows it | evidently intended | confidence | as-written member | corrected member |
|---|---|---|---|---|---|---|
| day8/main.go:36 | the bottom edge is sliced `[1 : len(rows)-1]`, with the row count, giving 3R + C − 4 edge trees | the 2×3 grid [[1,2,3],[4,5,6]] counts 5 edge trees, but it has 6 | slice to the row's own length, giving 2R + 2C − 4 | not executed | Day8Trees.EdgeCountAsWrittenExample | Day8Trees.EdgeCountIsEdgeCells |
| day5/main.go:145-160 | the destination is read before the source is written back, so a move onto the same stack writes the lifted crates on top of the full old stack | "move 1 from 1 to 1" on stack A over B gives A, A, B | a move onto the same stack leaves it as it was, for either crane | not executed | Day5Crates.SelfMoveExample | Day5Crates.MoveOntoItself |
