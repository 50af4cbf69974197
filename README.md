# Advent of Code 2022, days 1 to 14, in Dafny

This project models a Rust solution to the first fourteen puzzles of Advent of Code 2022. It
also models the small `Vec2d` grid type that days 8 and 14 share. It also models `src/main.rs`,
the single file that held days 1 to 11 before they were split out.

Each day reads a puzzle input file line by line. It parses the lines into the puzzle's entities:
calorie lists, rock-paper-scissors rounds, rucksacks, section ranges, crate stacks, a datastream,
a shell transcript, a forest, rope moves, CPU instructions, monkeys, a heightmap, packets and rock
paths. It then computes two answers, `part_1` and `part_2`.

The model keeps the form of the code:

- Iterators whose `next` updates fields become classes with those fields, for example
  `Day01.CaloriesInput` and `Day02.TournamentInput`.
- The grid is a class over a flat buffer, `Grid.Vec2d`.
- Loops that fold over the input become methods with loop invariants, proved against a
  specification function.
- Parsers and pure computations become functions.

A `unwrap`, `expect`, `assert!` or out-of-range index in the source panics. The model handles
these in one of two ways:

- Where the source returns a `Result`, or where the panic is the behaviour being modelled, the
  model returns an `Option` or a `Result`.
- Where the panic only guards the puzzle input's format, it becomes a precondition, such as
  `Day01.Parses` or `Day05.Legal`.

Reading files is left out. Every operation takes the file's lines, as `seq<string>`, in place of
the file name.

Integers are unbounded. The source's integer widths matter in these places:

- Modelled explicitly, as a `None` where the source panics or as an explicit bound:
  - the `u32` worry levels of `main.rs`, for one throw only (`MainRs.NewWorryU32`,
    `MainRs.SquareOverflows`); the game that `main.rs` plays is modelled in unbounded arithmetic;
  - day 7's `u64` subtractions in `part_2` (`Day07.DirectoryToDelete`);
  - day 14's `usize` underflows: `500 - y_count` (`Day14.BoxOf`, `Day14.CaveBox`) and the
    `x -= 1` below zero in `fall_until` (`Day14.Landing`'s `Underflow`).
- Excluded by a precondition: day 12's `u8` sum `me + 1`, which overflows on the byte 255
  (`Day12.NoTopByte`).

Everywhere else, overflow is not modelled; "## Left out" lists those widths.

## Model

| member | source | states |
|---|---|---|
| Grid.Vec2d.constructor | src/vec2d.rs:12-19 | a grid is built only from a buffer of exactly `row * col` cells, and keeps that buffer and those dimensions |
| Grid.Vec2d.Row | src/vec2d.rs:21-24 | `row(r)` is a slice of exactly `col_count` cells |
| Grid.Vec2d.RowAt | src/vec2d.rs:21-36 | cell `c` of `row(r)` is `index(r, c)` |
| Grid.Vec2d.StepFromAt | src/vec2d.rs:26-31 | element `k` of the `step_by(col_count)` walk from `i` is the flat cell `i + k * col_count` |
| Grid.Vec2d.ColAt | src/vec2d.rs:26-36 | for a column inside the grid, `col(c)` has one cell per row, and its cell `r` is `index(r, c)` |
| Grid.Vec2d.StepFromLength | src/vec2d.rs:26-31 | the walk down a column from row `k` visits exactly the remaining `row_count - k` rows |
| Grid.Vec2d.Set | src/vec2d.rs:38-41 | writing through `index_mut(row, col)` replaces exactly one flat cell; every other cell of the grid keeps its value |
| Grid.Vec2d.RowsPrefix | src/vec2d.rs:21-24 | the first `n` rows, one after another, are the first `n * col_count` cells of the buffer |
| Grid.Vec2d.RowsFlatten | src/vec2d.rs:21-24 | all rows, one after another, give back the whole buffer |
| Grid.SixByFive | src/vec2d.rs:57-62 | on 1..=30 as six rows of five, column 0 is `[1, 6, 11, 16, 21, 26]` and row 0 is `[1, 2, 3, 4, 5]` |
| Util.Cmp | src/day13.rs:38 | `cmp` on integers answers `Less`, `Equal` or `Greater` exactly when `a < b`, `a == b` or `a > b` |
| Text.ParseShowNat | src/day01.rs:20 | parsing an unsigned number undoes printing it |
| Text.ParseShowInt | src/day09.rs:88-91 | parsing a signed number undoes printing it |
| Text.ParseRejectsEmpty | src/day01.rs:20 | the empty string and a lone sign do not parse as numbers |
| Text.Find | src/day04.rs:24-26 | a position that `Find` returns is at or after the start and has the separator at it |
| Text.FindFirst | src/day04.rs:24-26 | `Find` returns the first occurrence, and returns `None` only when there is no occurrence |
| Text.SplitOnce | src/day04.rs:24-26 | a successful `split_once` gives two parts that, with the separator between them, rebuild the string |
| Text.SplitOnceFirst | src/day04.rs:24-26 | the split is at the first occurrence, and `split_once` fails only when the separator does not occur |
| Text.SplitOnceAt | src/day05.rs:24-25 | a string that begins with a part lacking the separator's first character splits exactly after that part |
| Text.SplitOnceAbsent | src/day05.rs:24-25 | a string lacking the separator's first character is not split |
| Text.Split | src/day14.rs:47 | `split` yields at least one piece |
| Text.SplitJoin | src/day14.rs:47 | splitting undoes joining, when no piece holds the separator's first character |
| Text.FirstBlankIsFirst | src/day01.rs:15-18 | the lines before `FirstBlank` are not blank, and the line at it, if any, is blank |
| Text.ParseEachSome | src/day11.rs:28-31 | when every part parses, each value is the parse of its own part |
| Text.ParseEachNone | src/day11.rs:28-31 | parsing every part fails exactly when some part fails to parse |
| Day01.CaloriesStep | src/day01.rs:21 | one more line read adds that line's value to the running total |
| Day01.CaloriesInput.constructor | src/day01.rs:39-46 | `file_calories` starts an iterator over all the lines with nothing read yet |
| Day01.CaloriesInput.Next | src/day01.rs:14-36 | when the lines before the next blank line are numbers, one `next` yields their total, or `None` when that run is empty, and consumes the blank line; see `NextGroup` |
| Day01.NextGroup | src/day01.rs:14-36 | each `next` consumes input, and one that yields a total consumes at least one line |
| Day01.Part1 | src/day01.rs:57-67 | the answer is at least every group total, and it is one of them, or 0 when there are none |
| Day01.Part2 | src/day01.rs:74-91 | the answer is the sum of the three largest totals in the pool (three zeros, then the group totals) |
| Day01.InsertKeepsTopAt | src/day01.rs:78-87 | each of the four branches of the insertion keeps `top_three` the three largest values, in order |
| Day01.TopAtHeadIsMax | src/day01.rs:78-81 | the first of the top three is the largest value: `part_2` holds `part_1`'s answer in `top_three[0]` |
| Day01.ExampleMost | src/day01.rs:69-72 | on the example totals, `part_1` is 24000 |
| Day01.ExampleTopThree | src/day01.rs:93-96 | on the example totals, `part_2` is 45000 |
| Day01.NextGroupOfRun | src/day01.rs:14-36 | a run of numbers ended by a blank line, or by the end of input, is read by one `next` |
| Day01.NextGroupOfRender | src/day01.rs:14-36 | on runs printed with blank lines between them, the first `next` yields the first run's total and leaves the rest as printed |
| Day01.RenderParses | src/day01.rs:20 | printed runs are read to the end without a panic |
| Day01.AllNumbersParse | src/day01.rs:15-20 | input whose every non-blank line is a number is read without a panic, whatever its blank lines |
| Day01.UnreadAfterEmptyRun | src/day01.rs:15-35 | after a blank line that opens no run, the loop stops: the rest is never read, even where it is not a number, and only the earlier totals are yielded |
| Day01.ExampleUnreadLine | src/day01.rs:57-67 | on `1`, blank, blank, `abc` the iterator yields just 1, so `part_1` answers 1 without reading `abc` |
| Day01.GroupsOfRender | src/day01.rs:48-55 | reading undoes printing: the iterator yields one total per run, in order |
| Day02.DecryptTheirMove | src/day02.rs:14-21 | A, B and C are the moves 0, 1 and 2 of the cycle, and every other character is an error |
| Day02.DecryptMyMove | src/day02.rs:23-30 | X, Y and Z are the moves 0, 1 and 2, and every other character is an error |
| Day02.DecryptMyMoveDifferently | src/day02.rs:32-47 | X picks the move that loses to the opponent's, Y the same move, Z the move that beats it; every other character is an error |
| Day02.ScoreRound | src/day02.rs:84-104 | a round scores its move's points plus its outcome's points, which is between 1 and 9 |
| Day02.OutcomeTable | src/day02.rs:90-102 | the outcome table gives 6 exactly for a win, 0 exactly for a loss and 3 exactly for a draw, by the cyclic rule |
| Day02.OutcomeAntisymmetric | src/day02.rs:90-102 | a win one way is a loss the other way |
| Day02.DifferentlyOutcome | src/day02.rs:32-47 | read the second way, X, Y and Z score 0, 3 and 6 outcome points against any move |
| Day02.ScoreExamples | src/day02.rs:106-112 | the three test rounds score 1, 5 and 9 |
| Day02.ParseRound | src/day02.rs:64-81 | a three-character line is a round exactly when its first character is a known move, its second a space and its third a known code, and each move is then the decryptor's |
| Day02.Rounds | src/day02.rs:61-82 | the iterator yields at most one round per line |
| Day02.RoundsParsed | src/day02.rs:64-78 | round `i` is line `i` parsed, and the iteration stops at the first line that is not three characters long |
| Day02.TournamentInput.constructor | src/day02.rs:114-116 | the iterator starts on all the lines with the given decryptor |
| Day02.TournamentInput.Next | src/day02.rs:64-81 | one `next` consumes one line and yields its round, or ends on a line that is not three characters long, keeping the rounds still to come |
| Day02.TotalScoreBounds | src/day02.rs:114-122 | the total lies between the number of rounds and nine times that number |
| Day02.ProcessTournament | src/day02.rs:114-122 | `process_tournament` returns the sum of the scores of the rounds the iterator yields |
| Day02.Part1 | src/day02.rs:124-126 | `part_1` totals the rounds read with `decrypt_my_move` |
| Day02.Part2 | src/day02.rs:135-137 | `part_2` totals the rounds read with `decrypt_my_move_differently` |
| Day02.ExampleTournament | src/day02.rs:128-143 | the example strategy guide totals 15 read the first way and 12 read the second way |
| Day03.Letters | src/day03.rs:91-93 | the starting set holds exactly the 52 letters |
| Day03.Compartments | src/day03.rs:25-36 | the first compartment holds exactly the items at positions below half the line's length, and the second exactly the rest |
| Day03.Rucksacks | src/day03.rs:20-40 | the iterator yields one rucksack per line, and rucksack `i` is line `i` split in half |
| Day03.RucksacksInput.constructor | src/day03.rs:63-64 | the iterator starts on all the lines |
| Day03.RucksacksInput.Next | src/day03.rs:20-40 | one `next` consumes one line and yields its two compartments, or yields `None` at the end of input |
| Day03.Priority | src/day03.rs:43-49 | 'a' to 'z' are 1 to 26, 'A' to 'Z' are 27 to 52, and every other character is an error |
| Day03.PriorityInjective | src/day03.rs:43-49 | different letters have different priorities |
| Day03.PriorityExamples | src/day03.rs:51-60 | 'a', 'z', 'A' and 'Z' are 1, 26, 27 and 52, and '@' is an error |
| Day03.SharedPriority | src/day03.rs:67-73 | the scan of the first compartment adds the priority of some item both compartments hold, or nothing when they share none |
| Day03.Part1 | src/day03.rs:62-76 | the answer is the sum of one such amount per rucksack |
| Day03.PicksUnique | src/day03.rs:62-76 | when each rucksack shares a single item, the answer is fixed: that item's priority for each rucksack, whatever the hash set's order |
| Day03.PicksBound | src/day03.rs:62-76 | the answer is at most 52 per rucksack, and a rucksack whose compartments share nothing adds 0 |
| Day03.CommonItemsMeaning | src/day03.rs:96-104 | a character is in the running intersection exactly when it is a letter and every rucksack so far holds it |
| Day03.CommonItems | src/day03.rs:96-104 | the running intersection never holds anything but item letters |
| Day03.ReadRucksack | src/day03.rs:88-110 | the first rucksack of a group restarts the intersection, each rucksack narrows it, and at the third the one badge's priority completes the group's share of the total |
| Day03.CommonStep | src/day03.rs:89-104 | one intersection step gives the letters common to one more rucksack |
| Day03.BadgeStep | src/day03.rs:106-110 | any letter in a group's common set is its badge and adds its priority to the total |
| Day03.Part2 | src/day03.rs:83-113 | the answer is the sum of the badge priorities of every complete group of three; an incomplete last group adds nothing |
| Day04.ParseRenderRange | src/day04.rs:25-29 | a range written `a-b` parses back to itself |
| Day04.ParseRender | src/day04.rs:22-31 | parsing a line undoes writing the pair as `a-b,c-d` |
| Day04.Pairs | src/day04.rs:16-32 | the iterator yields one pair per line |
| Day04.PairsAt | src/day04.rs:22-31 | pair `i` is line `i` parsed |
| Day04.ParseExampleShort | src/day04.rs:35 | the test line `1-2,5-100` parses to `(1..=2, 5..=100)` |
| Day04.ParseExampleLong | src/day04.rs:35 | the test line `3-4,100-1000` parses to `(3..=4, 100..=1000)` |
| Day04.ParseExampleTwoDigits | src/day04.rs:36 | the test line `7-11,13-14` parses to `(7..=11, 13..=14)` |
| Day04.ParseExampleEmpty | src/day04.rs:37 | the empty input yields no pairs |
| Day04.AssignmentPairsInput.constructor | src/day04.rs:64-66 | the iterator starts on all the lines |
| Day04.AssignmentPairsInput.Next | src/day04.rs:22-31 | one `next` consumes one line and yields its pair, or `None` exactly at the end of input, keeping the pairs still to come |
| Day04.OneContainsOther | src/day04.rs:47-50 | a pair in which one range holds the other also overlaps |
| Day04.Symmetric | src/day04.rs:47-50 | neither `one_contains_other` nor `overlaps` depends on the order of the pair |
| Day04.ContainmentMeaning | src/day04.rs:47-50 | for non-empty ranges, `one_contains_other` holds exactly when every section of one range lies in the other |
| Day04.OverlapMeaning | src/day04.rs:79-84 | for non-empty ranges, `overlaps` holds exactly when some section is in both, that is, when the later start is at most the earlier end |
| Day04.PredicateExamples | src/day04.rs:52-95 | the eleven test cases of both predicates |
| Day04.CountBounds | src/day04.rs:62-107 | part 1's count is at most part 2's, which is at most the number of pairs |
| Day04.CountPairs | src/day04.rs:62-72 | one pass over the iterator counts exactly the pairs that satisfy the test |
| Day04.Part1 | src/day04.rs:62-72 | `part_1` counts the pairs in which one range holds the other |
| Day04.Part2 | src/day04.rs:97-107 | `part_2` counts the overlapping pairs |
| Day04.ExampleCounts | src/day04.rs:74-112 | the published example has two containing pairs and four overlapping pairs |
| Day05.WithLayer | src/day05.rs:13-20 | after one more layer there is a stack for every chunk of the layer, and no stack is lost |
| Day05.ReadLayer | src/day05.rs:13-20 | the loop over the chunks of a layer puts each chunk's crate at the bottom of its stack, creating the stacks it lacks |
| Day05.StacksAreColumns | src/day05.rs:8-21 | the layers give one stack per chunk of the widest layer, and stack `i` lists column `i` from the top down, so the front of a stack is its top crate |
| Day05.ReadCrates | src/day05.rs:8-21 | the `take_while` loop reads every layer into the stacks in turn |
| Day05.ParseRenderMove | src/day05.rs:23-33 | parsing a move line undoes writing it as `move n from a to b` |
| Day05.Reversed | src/day05.rs:34-37 | reversing keeps the number of crates |
| Day05.ReversedAt | src/day05.rs:34-37 | position `i` of the reversal holds position `n - 1 - i` of the original |
| Day05.Moved | src/day05.rs:34-37 | a move keeps the number of stacks |
| Day05.MovedTransfer | src/day05.rs:34-37 | `Moved`'s definition for two different stacks, stated once: the top `count` crates leave the source and land on the destination, reversed by the first crane |
| Day05.Lifted | src/day05.rs:34-37 | the block lands with as many crates as were lifted |
| Day05.RearrangedStep | src/day05.rs:22-38 | a legal move line at the front of the list is carried out before the rest |
| Day05.MovedNothing | src/day05.rs:34-37 | a move of no crates, or from a stack onto itself, changes nothing |
| Day05.MovedElsewhere | src/day05.rs:34-37 | a move leaves every stack other than its source and destination unchanged |
| Day05.MovedConserves | src/day05.rs:34-37 | either crane keeps every crate: the total number of crates is unchanged |
| Day05.MoversCompared | src/day05.rs:34-37 | the two cranes agree on a move of at most one crate, and otherwise put the same crates on the destination in opposite orders |
| Day05.MoveOneAtATime | src/day05.rs:34-37 | the pop-front and push-front loop leaves the stacks as the one-at-a-time move specifies |
| Day05.PopPushOther | src/day05.rs:35-36 | one more pop from the source and push onto the destination advances the move by one crate |
| Day05.PopPushSame | src/day05.rs:35-36 | popping a stack's top and pushing it back changes nothing |
| Day05.MoveBlock | src/day05.rs:76-78 | draining the top `count` crates and appending the destination under them leaves the stacks as the block move specifies |
| Day05.RunMoves | src/day05.rs:22-38 | the loop over the move lines parses and carries out every move in order |
| Day05.ScanLayers | src/day05.rs:8 | `take_while` reads up to the first blank line |
| Day05.OutcomeParts | src/day05.rs:5-40 | a run that does not panic reads readable layers, carries out every move, and returns the top crates |
| Day05.Rearrange | src/day05.rs:5-40 | `part_1` and `part_2` read the layers, run the moves and return the top crate of every stack |
| Day05.Part1 | src/day05.rs:5-40 | `part_1` is the rearrangement with the one-at-a-time crane |
| Day05.Part2 | src/day05.rs:47-81 | `part_2` is the rearrangement with the block crane |
| Day05.ExampleOneAtATime | src/day05.rs:42-45 | the example's three stacks and four moves leave `CMZ` on top with the first crane |
| Day05.ExampleBlock | src/day05.rs:83-86 | the same example leaves `MCD` on top with the block crane |
| Day05.ExampleParsed | src/day05.rs:23-33 | the example's move lines parse to its four moves |
| Day06.MarkerSlice | src/day06.rs:9-29 | a marker is a window of the last `n` bytes read in which no byte repeats |
| Day06.FirstMarkerUnique | src/day06.rs:9-29 | at most one answer is the first marker, so the description fixes `find_marker`'s result |
| Day06.DistinctSnoc | src/day06.rs:14 | a window grows by one byte without a repeat exactly when the byte is new to it |
| Day06.ElementsCard | src/day06.rs:18-19 | the set of a window's bytes has one entry per byte exactly when no byte repeats, and fewer otherwise |
| Day06.MarkerWindow | src/day06.rs:13-20 | reading byte `i` completes a marker exactly when it is not among the `n - 1` bytes before it and those are distinct |
| Day06.Shift | src/day06.rs:15-16 | pushing the new byte and popping the front moves the window on by one byte |
| Day06.FindMarker | src/day06.rs:9-29 | `find_marker` returns the number of bytes read up to the end of the first marker, or `None` when there is no marker |
| Day06.Repeated | src/day06.rs:9-29 | two equal bytes among the last `n` rule out a marker |
| Day06.FirstMarkerInFile | src/day06.rs:50-57 | on a file with a marker, the answer is the end of the first marker |
| Day06.Part1 | src/day06.rs:59-61 | `part_1` is the end of the first marker of four distinct bytes |
| Day06.Part2 | src/day06.rs:68-70 | `part_2` is the end of the first marker of fourteen distinct bytes |
| Day06.ExamplePacket1 | src/day06.rs:32 | `bvwbjplbgvbhsrlpgdmjqwftvncz` with 4 gives 5 |
| Day06.ExamplePacket2 | src/day06.rs:33 | `nppdvjthqldpwncqszvftbrmjlhg` with 4 gives 6 |
| Day06.ExamplePacket3 | src/day06.rs:34 | `nznrnfrfntjfmvfwmzdfjlvtqnbhcprsg` with 4 gives 10 |
| Day06.ExamplePacket4 | src/day06.rs:35 | `zcfzfwzzqfrljwzlrfnpqdbhtmscgvjw` with 4 gives 11 |
| Day06.ExamplePacket5 | src/day06.rs:36 | `abcabcabcabcabcabcabcabc` with 4 has no marker |
| Day06.ExampleMessage1 | src/day06.rs:37 | `mjqjpqmgbljsphdztnvjfqwrcgsmlb` with 14 gives 19 |
| Day06.ExampleMessage2 | src/day06.rs:38 | `bvwbjplbgvbhsrlpgdmjqwftvncz` with 14 gives 23 |
| Day06.ExampleMessage3 | src/day06.rs:39 | `nppdvjthqldpwncqszvftbrmjlhg` with 14 gives 23 |
| Day06.ExampleMessage4 | src/day06.rs:40 | `nznrnfrfntjfmvfwmzdfjlvtqnbhcprsg` with 14 gives 29 |
| Day06.ExampleMessage5 | src/day06.rs:41 | `zcfzfwzzqfrljwzlrfnpqdbhtmscgvjw` with 14 gives 26 |
| Day07.LookupInsert | src/day07.rs:66-76 | after `insert`, the name maps to the new value and every other name to what it mapped to before |
| Day07.Insert | src/day07.rs:66-76 | an `insert` either overwrites the entry for the name or adds exactly one entry |
| Day07.InsertUnique | src/day07.rs:9-10 | insertion keeps each name to one entry, as in a `HashMap` |
| Day07.InsertTwice | src/day07.rs:76 | inserting the same entry twice is the same as inserting it once |
| Day07.InsertAbsent | src/day07.rs:69 | inserting an absent name adds one entry |
| Day07.TotalInsert | src/day07.rs:24 | after an insertion, the sum of the values has the name's old value, if any, replaced by the new one (also line 76) |
| Day07.ChildSizeBelow | src/day07.rs:23-30 | a directory is at least as large as each of its subdirectories |
| Day07.ChildSizesGrow | src/day07.rs:23-30 | counting more subdirectories never lowers the sum |
| Day07.AllSizesBounded | src/day07.rs:83-90 | `all_sizes(dir)` ends with the size of `dir`, and no entry exceeds it |
| Day07.ChildAllSizesBounded | src/day07.rs:85-87 | each size collected from the first `t` subdirectories is at most their summed size |
| Day07.CollectSizes | src/day07.rs:83-90 | the loop that extends the result with each subdirectory's sizes, then pushes the directory's own, computes `all_sizes` |
| Day07.AtMostMeaning | src/day07.rs:94-97 | the filter keeps exactly the sizes of at most the bound |
| Day07.MinAtLeastMeaning | src/day07.rs:112-116 | `filter(..).min()` finds a size at least the bound that no other such size undercuts, and `None` only when every size is below the bound |
| Day07.DirectoryToDeleteExists | src/day07.rs:107-117 | once the subtractions succeed, the final `unwrap` cannot fail: the chosen size is one of the directories' and lies between the shortfall and the root's size |
| Day07.Start | src/day07.rs:34-36 | a fresh root, with the cursor on it, is a valid shell |
| Day07.CdValid | src/day07.rs:40-56 | `cd` keeps the shell valid and moves only the cursor |
| Day07.MakeDirGrows | src/day07.rs:58-70 | `dir` with a new name appends an empty child to the current directory |
| Day07.GrowEntries | src/day07.rs:65-69 | adding a child keeps every entry of every directory and adds one entry, for the new directory, at the end of the current one's |
| Day07.GrowLater | src/day07.rs:65-69 | adding a child keeps every subdirectory entry pointing to a later directory, so sizes stay well-defined |
| Day07.GrowLinks | src/day07.rs:65-69 | each subdirectory entry of the grown tree names a directory whose parent is the one listing it |
| Day07.GrowWellFormed | src/day07.rs:58-70 | adding a child with a new name keeps the tree well-formed |
| Day07.MakeDirValid | src/day07.rs:58-70 | `dir` keeps the shell valid |
| Day07.SetFileValid | src/day07.rs:71-77 | a file line keeps the shell valid |
| Day07.StepValid | src/day07.rs:37-78 | every line that does not panic keeps the shell valid |
| Day07.CdRoot | src/day07.rs:42-45 | `cd /` always lands on the root, whether or not the cursor was already there |
| Day07.CdParent | src/day07.rs:48-50 | `cd ..` panics exactly at the root, and otherwise moves to the parent, an earlier directory |
| Day07.CdChildParent | src/day07.rs:51-55 | `cd dirname` succeeds exactly when the current directory lists `dirname`, and a `cd ..` afterwards comes back |
| Day07.MakeDirTwice | src/day07.rs:58-70 | after `dir dirname` the current directory lists `dirname` and every other name keeps its entry; a second `dir dirname` changes nothing |
| Day07.GrowChildSizes | src/day07.rs:23-30 | adding an empty directory leaves the summed sizes of existing subdirectories unchanged |
| Day07.GrowSize | src/day07.rs:23-30 | adding an empty directory changes no existing directory's size |
| Day07.MakeDirSizes | src/day07.rs:58-70 | `dir` changes no existing directory's size |
| Day07.SetFileTwice | src/day07.rs:71-77 | a file line replaces the file's old size in the current directory's total; listing the same file again changes nothing |
| Day07.StepCdLine | src/day07.rs:38-41 | a line `$ cd dirname` runs `cd` on the whole name |
| Day07.StepLsLine | src/day07.rs:38-40 | `$ ls` changes nothing |
| Day07.StepDirLine | src/day07.rs:58-59 | a line `dir dirname` runs `dir` on the rest of the line |
| Day07.StepFileLine | src/day07.rs:72-76 | a line `<size> <filename>` sets that file's size |
| Day07.RunValid | src/day07.rs:37-78 | every state the transcript reaches is valid |
| Day07.FilesystemWellFormed | src/day07.rs:33-81 | the tree `inspect_filesystem` builds is well-formed |
| Day07.InspectFilesystem | src/day07.rs:33-81 | the loop over the transcript builds the tree line by line, or panics where a line does |
| Day07.ExampleLeafSizes | src/day07.rs:23-30 | in the sample tree, `e` has size 584 and `d` has size 24933642 |
| Day07.ExampleInnerSizes | src/day07.rs:23-30 | in the sample tree, `a` has size 94853 |
| Day07.ExampleAllSizes | src/day07.rs:83-90 | `all_sizes` of the sample tree is `[584, 94853, 24933642, 48381165]` |
| Day07.ExampleParts | src/day07.rs:100-124 | on the sample tree, `part_1` is 95437 and `part_2` is 24933642 |
| Day08.MaxBeforeMeaning | src/day08.rs:94-100 | the running `max` of `find_min_heights` bounds every tree before the position and is one of them, or -1 when there is none |
| Day08.MaxBeforeMonotone | src/day08.rs:98 | the running maximum never decreases along the row |
| Day08.TallerThanBefore | src/day08.rs:68-71 | a tree is taller than the running maximum exactly when it is taller than every tree before it |
| Day08.FindMinHeights | src/day08.rs:93-102 | `find_min_heights` gives, at each position, the tallest tree before it, -1 at the start |
| Day08.MinHeightsSorted | src/day08.rs:93-102 | the output of `find_min_heights` never decreases |
| Day08.ExampleMinHeights | src/day08.rs:87-91 | `[2,5,5,1,2]` gives `[-1,2,5,5,5]` |
| Day08.Blocker | src/day08.rs:109-113 | walking left from a position never passes the row's start |
| Day08.BlockerMeaning | src/day08.rs:110 | the walk stops at the edge or at a tree at least as tall, and every tree it passes is lower |
| Day08.BlockerSkip | src/day08.rs:111-112 | a stretch of lower trees can be jumped over without changing where the walk stops |
| Day08.DistanceMeaning | src/day08.rs:104-116 | a tree's viewing distance lies between 1 and its position, covers only lower trees, and ends at the edge or at a tree at least as tall |
| Day08.JumpOver | src/day08.rs:110-113 | from a lower tree, jumping left by that tree's score reaches the same blocker |
| Day08.FindDirectionalScores | src/day08.rs:104-116 | the jumping loop of `find_directional_scores` computes every tree's viewing distance to the left, 0 for the first |
| Day08.ExampleScores | src/day08.rs:118-122 | `[3,5,3,9,0]` gives `[0,1,1,3,1]` |
| Day08.Cells | src/vec2d.rs:21-24 | the rows of a valid grid form a rectangle of its dimensions |
| Day08.CellsAt | src/vec2d.rs:21-36 | cell `c` of row `r` is `index(r, c)` |
| Day08.Reversed | src/day08.rs:37 | `iter().rev()` reads the row right to left |
| Day08.Column | src/day08.rs:49 | `col(c)` reads column `c` top to bottom |
| Day08.ScanLine | src/day08.rs:28 | scanning a line gives, at each position, that line's running maximum or viewing distance (also line 128) |
| Day08.RowView | src/day08.rs:26-46 | `from_left` and `from_right` hold at each cell the scan of the tree's row from that edge; `from_right` reverses the row and the result (also lines 126-146) |
| Day08.WriteColumn | src/day08.rs:50-52 | the inner `index_mut` loop sets column `j` to the scan and leaves the other columns as they were |
| Day08.ColumnView | src/day08.rs:47-63 | `from_top` and `from_bottom` hold at each cell the scan of the tree's column from that edge (also lines 147-164) |
| Day08.ScanColumn | src/day08.rs:49-59 | the column scan, reversed and reversed back for `from_bottom`, matches the view from that edge |
| Day08.ReversedBefore | src/day08.rs:37-39 | the trees before a position of the reversed line are the trees after it in the line |
| Day08.ViewMeaning | src/day08.rs:68-71 | a tree beats the scan from an edge exactly when every tree between it and that edge is lower |
| Day08.VisibleMeaning | src/day08.rs:67-74 | a tree is counted exactly when every tree between it and some edge is lower |
| Day08.EdgeVisible | src/day08.rs:67-74 | every tree on the forest's edge is counted |
| Day08.VisibleRow | src/day08.rs:66-75 | a row of visibility flags has one flag per column |
| Day08.VisibleGrid | src/day08.rs:65-76 | the visibility flags have one row per forest row |
| Day08.CountTrueBounds | src/day08.rs:72-74 | the count along a row is at most its length, all of it when every flag is set, and positive when one is |
| Day08.VisibleRowCount | src/day08.rs:64-77 | the first and last rows count in full, and every other row counts at least its edge trees and at most its width |
| Day08.ViewCell | src/day08.rs:68-71 | each view's cell `(r, c)` is the scan from its edge at that tree |
| Day08.RowSeenOfForest | src/day08.rs:66-75 | comparing with the four height views along a row tells exactly which of its trees are visible |
| Day08.CountRow | src/day08.rs:66-75 | the inner loop of `part_1` counts the trees of a row that beat one of the four views |
| Day08.CountVisible | src/day08.rs:64-77 | the outer loop of `part_1` sums the rows' counts |
| Day08.Part1 | src/day08.rs:24-78 | `part_1` counts exactly the visible trees of the forest |
| Day08.ScenicScoreBounds | src/day08.rs:168-171 | a scenic score is never negative, and zero for a tree on the edge |
| Day08.ScenicRow | src/day08.rs:167-175 | a row of scenic scores has one score per column |
| Day08.RunningBestIsMax | src/day08.rs:172-174 | the running `best_score` is at least every score seen and is 0 or one of them |
| Day08.ScenicGrid | src/day08.rs:166-176 | the scenic scores have one row per forest row |
| Day08.BestRowsIsMax | src/day08.rs:165-177 | carried over the rows, the running best is at least every score and is 0 or one of them |
| Day08.ScenicGridAt | src/day08.rs:168-171 | cell `(r, c)` of the score grid is the product of tree `(r, c)`'s four viewing distances |
| Day08.BestScenicScore | src/day08.rs:165-177 | `part_2`'s answer is the largest scenic score of the forest, or 0 |
| Day08.RowScoresOfForest | src/day08.rs:168-171 | the products of the four distance views along a row are that row's scenic scores |
| Day08.BestRow | src/day08.rs:167-175 | the inner loop of `part_2` keeps the larger of the carried best and the row's best score |
| Day08.BestOfViews | src/day08.rs:165-177 | the outer loop of `part_2` carries the running best over the rows |
| Day08.Part2 | src/day08.rs:124-178 | `part_2` computes the best scenic score of the forest |
| Day08.DigitValues | src/day08.rs:19 | each byte of a line parses to one digit |
| Day08.DigitRows | src/day08.rs:16-20 | each line of the file gives one row of digits |
| Day08.ForestInputRejects | src/day08.rs:15-19 | an empty file, or a byte that is not a digit, panics |
| Day08.ForestInputAt | src/day08.rs:8-22 | lines of one length, all digits, give a forest with one row per line whose cell `(r, c)` is digit `c` of line `r` |
| Day08.ForestInputRagged | src/day08.rs:15-21 | only the total cell count is checked: lines of lengths 2, 1 and 3 pass as a three-by-two forest |
| Day08.ForestFromFile | src/day08.rs:8-22 | `forest_from_file` builds the grid of `ForestInput`, or panics exactly where it is `None` |
| Day08.ExampleForest | src/day08.rs:80-82 | the test forest is five by five |
| Day08.ExampleColumns | src/day08.rs:49 | the columns of the test forest |
| Day08.ExampleReversedColumns | src/day08.rs:56 | the test forest's columns read bottom to top |
| Day08.ExampleVisibleRow0 | src/day08.rs:64-77 | every tree of the test forest's first row is visible |
| Day08.ExampleVisibleRow1 | src/day08.rs:64-77 | in the second row, all trees but the fourth are visible |
| Day08.ExampleVisibleRow2 | src/day08.rs:64-77 | in the third row, all trees but the middle one are visible |
| Day08.ExampleVisibleRow3 | src/day08.rs:64-77 | in the fourth row, the second and fourth trees are hidden |
| Day08.ExampleVisibleRow4 | src/day08.rs:64-77 | every tree of the last row is visible |
| Day08.ExampleScenicRow0 | src/day08.rs:165-177 | the first row's scenic scores are all zero |
| Day08.ExampleScenicRow1 | src/day08.rs:165-177 | the second row's scenic scores are 0, 1, 4, 1 and 0 |
| Day08.ExampleScenicRow2 | src/day08.rs:165-177 | the third row's scenic scores are 0, 6, 1, 2 and 0 |
| Day08.ExampleScenicRow3 | src/day08.rs:165-177 | the fourth row's scenic scores are 0, 1, 8, 3 and 0 |
| Day08.ExampleScenicRow4 | src/day08.rs:165-177 | the last row's scenic scores are all zero |
| Day08.ExampleVisibleCount | src/day08.rs:80-85 | 21 trees of the test forest are visible |
| Day08.ExampleBestScenicScore | src/day08.rs:180-185 | the test forest's best scenic score is 8 |
| Day08.ExampleInput | src/day08.rs:8-22 | the lines of `test08.txt` give the test forest |
| Day09.TouchingMeaning | src/day09.rs:23-26 | the floating-point test `sqrt(dx² + dy²) < 1.5` holds exactly when the knots are at most one unit apart on each axis |
| Day09.FollowMeaning | src/day09.rs:20-40 | a knot stays put exactly while it touches the knot ahead, moves at most one unit per axis, and from two units away ends up touching it |
| Day09.UnitMeaning | src/day09.rs:13-19 | for an axis-aligned move, each head step is one unit along the move's axis, and `head_steps` of them make the whole move |
| Day09.Step | src/day09.rs:16-41 | one step keeps the rope's length |
| Day09.Steps | src/day09.rs:15-43 | any number of steps keeps the rope's length |
| Day09.Final | src/day09.rs:9-44 | a whole move keeps the rope's length |
| Day09.StepRope | src/day09.rs:16-41 | one pass of the outer loop rewrites the rope array in place to the next step of the rope |
| Day09.MoveRope | src/day09.rs:9-44 | `move_rope` calls `after_step` once per head step, each time with the rope after that many steps, and leaves the rope after the whole move; the head must move along one axis |
| Day09.MovedNear | src/day09.rs:20-40 | in a step of one unit, every knot of a taut rope moves at most one unit and ends up touching the knot ahead |
| Day09.StepTaut | src/day09.rs:15-43 | a rope whose knots touch stays that way through a step, and no knot moves more than one unit |
| Day09.StepsTaut | src/day09.rs:15-43 | a taut rope stays taut through any number of unit steps |
| Day09.FinalTaut | src/day09.rs:9-44 | a taut rope stays taut through a whole move |
| Day09.HeadOfSteps | src/day09.rs:16-19 | after `n` steps the head has moved `n` units |
| Day09.FinalHead | src/day09.rs:13-19 | the head ends at its start plus the move |
| Day09.ParseMoveAligned | src/day09.rs:86-93 | every line that parses gives a move along one axis |
| Day09.ParseDirection | src/day09.rs:86-93 | a one-letter direction, a space and a count split and parse to that direction and count |
| Day09.ParseRenderMove | src/day09.rs:86-93 | a move written as the puzzle writes it parses back to itself |
| Day09.MovesFromFile | src/day09.rs:80-96 | `moves_from_file` gives one move per line |
| Day09.MovesFromFileMeaning | src/day09.rs:80-96 | each move is its line parsed, and the file panics exactly when some line does not parse |
| Day09.MovesAligned | src/day09.rs:80-96 | every move read from a file is one `move_rope` accepts |
| Day09.MovesFromRendered | src/day09.rs:80-96 | moves written one per line read back as the same moves |
| Day09.ExampleMoveLinesText | src/day09.rs:98-113 | the lines of `test09.txt` |
| Day09.ExampleMovesFromFile | src/day09.rs:98-113 | `test09.txt` reads as the eight moves of the test |
| Day09.Run | src/day09.rs:118-122 | running the moves keeps the rope's length |
| Day09.Day09 | src/day09.rs:115-124 | `day_09` counts the distinct positions the last knot takes after the steps of the file's moves |
| Day09.TailVisits | src/day09.rs:116-123 | the loop over the moves collects into the set exactly the last knot's positions after every step |
| Day09.InsertTails | src/day09.rs:119-121 | the `after_step` callback adds the last knot of each rope it is handed to the set |
| Day09.StatesTails | src/day09.rs:117-121 | the ropes `move_rope` reports end in the tail positions of the move |
| Day09.LastKnotsOfSteps | src/day09.rs:117-121 | the first `n` reported ropes end in the first `n` tail positions |
| Day09.RunStep | src/day09.rs:118-122 | one more move continues the rope from where the earlier moves left it, and adds that move's tail positions to the visits |
| Day09.Part1 | src/day09.rs:126-128 | `part_1` counts the tail's positions for a rope of two knots at the origin |
| Day09.Part2 | src/day09.rs:137-139 | `part_2` counts the tail's positions for ten knots at the origin |
| Day09.TailsUpToBound | src/day09.rs:119-121 | a move of `n` steps adds at most `n` positions, and at least one when `n > 0` |
| Day09.VisitsBound | src/day09.rs:123 | the tail cannot visit more places than there are steps, and visits at least one place when there is a step |
| Day09.RunTaut | src/day09.rs:118-122 | a taut rope stays taut for every sequence of axis-aligned moves |
| Day09.RunHead | src/day09.rs:118-122 | the head ends displaced by the sum of the moves |
| Day09.StepOfTwo | src/day09.rs:15-43 | a step of a two-knot rope: the head moves and the tail follows it |
| Day09.StepOfThree | src/day09.rs:15-43 | a step of a three-knot rope: each knot follows the already moved knot ahead |
| Day09.ExampleOnTop | src/day09.rs:47 | the tail on top of the head does not move |
| Day09.ExampleOneLeft | src/day09.rs:48 | a head step left from a shared cell leaves the tail put |
| Day09.ExampleOneRight | src/day09.rs:49 | a head step right from a shared cell leaves the tail put |
| Day09.ExampleOneUp | src/day09.rs:50 | a head step up from a shared cell leaves the tail put |
| Day09.ExampleOneDown | src/day09.rs:51 | a head step down from a shared cell leaves the tail put |
| Day09.ExampleNe | src/day09.rs:52 | a head step keeping the knots diagonal leaves the tail put |
| Day09.ExampleSe | src/day09.rs:53 | two steps across the tail leave it put |
| Day09.ExampleSw | src/day09.rs:54 | a diagonal move of the head leaves the tail put |
| Day09.ExampleNw | src/day09.rs:55 | a diagonal move of the head leaves the tail put |
| Day09.ExampleNne | src/day09.rs:56 | a head two up and one right of the tail pulls it diagonally |
| Day09.ExampleSse | src/day09.rs:57 | three steps down pull the tail diagonally, then straight |
| Day09.ExampleSsw | src/day09.rs:58 | two steps down pull the tail diagonally |
| Day09.ExampleNnw | src/day09.rs:59 | three steps up pull the tail diagonally, then straight |
| Day09.ExampleEne | src/day09.rs:60 | two steps right pull the tail diagonally |
| Day09.ExampleEse | src/day09.rs:61 | two steps right pull the tail diagonally |
| Day09.ExampleWsw | src/day09.rs:62 | a step that keeps the knots diagonal leaves the tail put |
| Day09.ExampleWnw | src/day09.rs:63 | two steps left pull the tail diagonally |
| Day09.StepsAdd | src/day09.rs:15 | `a` steps and then `b` more are `a + b` steps |
| Day09.ExampleLineOfThree | src/day09.rs:64 | a rope of three knots on one cell, moved six to the right, ends stretched out behind the head |
| Day09.ExampleCallbackCount | src/day09.rs:70-78 | a move of five units makes five head steps, so `after_step` runs five times |
| Day10.Scan | src/day10.rs:20-23 | the `map` with the captured `x` gives one entry per increment |
| Day10.RunProgram | src/day10.rs:7-26 | the trace is the initial 1 followed by one entry per cycle |
| Day10.DeltasAppend | src/day10.rs:13-19 | one more instruction appends its increments: `[0, a]` for `addx a`, `[0]` for `noop` |
| Day10.ScanAppend | src/day10.rs:20-23 | scanning two runs of increments one after the other continues from the first run's last X |
| Day10.RunProgramAppend | src/day10.rs:7-26 | one more instruction appends its cycles to the trace, starting from the last X: X changes only at the end of an `addx`, by its argument |
| Day10.RunProgramLength | src/day10.rs:13-19 | the trace has one entry per `noop`, two per `addx`, plus the initial one |
| Day10.RunProgramEnds | src/day10.rs:8-23 | the trace starts at 1 and ends at 1 plus the sum of the `addx` arguments |
| Day10.ScanAt | src/day10.rs:20-23 | entry `k` of the scan is the start plus the first `k + 1` increments |
| Day10.RunProgramAt | src/day10.rs:7-26 | X during cycle `k + 1` is 1 plus every increment of the first `k` cycles |
| Day10.ExampleRunProgram | src/day10.rs:28-34 | `[noop, addx 3, addx -5]` gives `[1, 1, 1, 4, 4, -1]` |
| Day10.ParseAddx | src/day10.rs:45-48 | a line `addx ` followed by a number parses to that `addx` |
| Day10.ParseRenderInstruction | src/day10.rs:41-50 | an instruction written as a line parses back to itself |
| Day10.ProgramFromFile | src/day10.rs:36-52 | `program_from_file` gives one instruction per line |
| Day10.ProgramFromFileMeaning | src/day10.rs:36-52 | each instruction is its line parsed, and the file panics exactly when some line does not parse |
| Day10.ProgramFromRendered | src/day10.rs:36-52 | a program written one instruction per line reads back as the same program |
| Day10.ExampleProgramLinesText | src/day10.rs:54-60 | the lines of `test10.txt` |
| Day10.ExampleProgramFromFile | src/day10.rs:54-60 | `test10.txt` reads as `[noop, addx 3, addx -5]` |
| Day10.Part1Meaning | src/day10.rs:62-67 | `part_1` is the sum, over cycles 20, 60, ..., 220, of the cycle times X during it |
| Day10.SampledCycles | src/day10.rs:64-66 | the fold over the six sampled cycles, written out |
| Day10.SignalStrengthSnoc | src/day10.rs:66 | each step of the fold adds the cycle times the trace entry before it |
| Day10.RowPixels | src/day10.rs:80-88 | a CRT row has 40 pixels |
| Day10.Screen | src/day10.rs:79-90 | each screen row is 40 pixels and a newline |
| Day10.Part2 | src/day10.rs:76-92 | the nested loops of `part_2` build the six-row screen of the trace |
| Day10.ScreenAt | src/day10.rs:79-90 | pixel `c` of row `r` is `#` exactly when X during the cycle drawing it is within one of `c`, and each row ends in a newline |
| Day11.Throw | src/day11.rs:110-132 | a throw keeps the rules runnable and the number of monkeys, and takes the thrower's first item off its list |
| Day11.Throws | src/day11.rs:109-133 | the first `k` throws take the thrower's first `k` items off its list |
| Day11.Turn | src/day11.rs:108-134 | after its turn a monkey holds nothing |
| Day11.PlayedTurn | src/day11.rs:108-134 | a turn with its inspection count keeps the state runnable and the number of monkeys |
| Day11.Turns | src/day11.rs:107-135 | the first `k` turns keep the state runnable |
| Day11.TurnsStep | src/day11.rs:107 | the `k`-th turn is played on the state the first `k - 1` turns left |
| Day11.Round | src/day11.rs:107-135 | a round keeps the state runnable and the number of monkeys |
| Day11.Rounds | src/day11.rs:106-136 | any number of rounds keeps the state runnable and the number of monkeys |
| Day11.MaxWorry | src/day11.rs:103 | `max_worry`, the product of the tests, is positive when every test is |
| Day11.MaxWorryDivisible | src/day11.rs:103 | every monkey's test divides `max_worry` |
| Day11.SlotFinds | src/day11.rs:121-130 | the `idx` formula finds monkey `t` in the deque while monkey `i` is popped: at position `(t - 1 - i) mod n` |
| Day11.WithoutUpdate | src/day11.rs:125-131 | pushing onto `monkeys[idx]` is pushing onto the target monkey by its number |
| Day11.WithoutIgnores | src/day11.rs:108 | the popped monkey is not in the deque |
| Day11.RotateParts | src/day11.rs:108-134 | `pop_front` takes monkey `i` off the front of the deque and `push_back` leaves the deque rotated once more |
| Day11.RotateWhole | src/day11.rs:107-135 | after every monkey's turn the deque is back in its original order |
| Day11.ThrowInDeque | src/day11.rs:110-132 | one throw as the deque sees it: the popped monkey loses its first item, which with its new worry level is pushed onto the target's slot |
| Day11.ThrowItem | src/day11.rs:110-132 | the body of the item loop performs exactly one throw on the deque |
| Day11.PlayTurn | src/day11.rs:108-134 | a monkey's turn on the deque plays the turn and counts one inspection per item it held |
| Day11.PlayRound | src/day11.rs:107-135 | the loop over the monkeys plays one round, leaving the deque in its original order |
| Day11.Zeros | src/day11.rs:101 | `vec![0; num_monkeys]` has one zero per monkey |
| Day11.TopTwoIndices | src/day11.rs:137-138 | the two largest counts sit at two different positions, and no other count exceeds the second |
| Day11.MonkeyBusinessMeaning | src/day11.rs:137-138 | with two or more monkeys, the answer is the largest count times the largest count of any other monkey |
| Day11.Start | src/day11.rs:99-101 | the monkeys as parsed, with no inspections yet, are a runnable state |
| Day11.DoMonkeyBusiness | src/day11.rs:99-139 | `do_monkey_business` plays the rounds with worry divided by `relief` and reduced modulo `max_worry`, and multiplies the two largest inspection counts |
| Day11.Part1 | src/day11.rs:141-143 | `part_1` plays twenty rounds with worry divided by three |
| Day11.Part2 | src/day11.rs:152-154 | `part_2` plays ten thousand rounds with no relief |
| Day11.TotalItemsUpdate | src/day11.rs:125-131 | replacing one monkey changes the total by the difference in its items |
| Day11.ThrowConserves | src/day11.rs:110-132 | a throw moves one item from one monkey to another |
| Day11.ThrowsConserve | src/day11.rs:109-133 | a run of throws keeps the number of items |
| Day11.PlayedTurnConserves | src/day11.rs:108-134 | a turn keeps the number of items |
| Day11.TurnsConserve | src/day11.rs:107-135 | the turns of a round keep the number of items |
| Day11.RoundsConserve | src/day11.rs:106-136 | however many rounds are played, the monkeys hold as many items as they started with |
| Day11.OperatedBelow | src/day11.rs:112-119 | on a worry level and an operand below `m`, the operation stays below `m * m` |
| Day11.ThrowStaysBelow | src/day11.rs:112-119 | a throw reduced modulo `m` keeps every worry level below `m` |
| Day11.ThrowsStayBelow | src/day11.rs:109-133 | a run of reduced throws keeps every worry level below `m` |
| Day11.TurnsStayBelow | src/day11.rs:107-135 | reduced turns keep every worry level below `m` |
| Day11.RoundsStayBelow | src/day11.rs:106-136 | with reduction modulo `m`, levels that start below `m` stay below it for any number of rounds |
| Day11.ApplyCongruent | src/day11.rs:112-117 | congruent operands give congruent sums and products |
| Day11.DivisorOfModulus | src/day11.rs:119-120 | modulo a multiple of the test, a reduced level is divisible by the test exactly when the unreduced one is |
| Day11.ResidueOfMultiple | src/day11.rs:119 | modulo a divisor of `m`, a number and its residue modulo `m` leave the same remainder |
| Day11.SameRules | src/day11.rs:11-18 | monkeys with equal rules agree on every rule |
| Day11.CongruentUpdate | src/day11.rs:125-131 | replacing one monkey of each deque by congruent monkeys with the old rules keeps the deques congruent |
| Day11.ValidCongruent | src/day11.rs:120-131 | congruent deques are equally runnable |
| Day11.WorryCongruent | src/day11.rs:112-131 | with no relief, congruent items get congruent new levels and go to the same monkey, reduced or not |
| Day11.ThrowCongruent | src/day11.rs:110-132 | with no relief, a throw with reduction and one without keep the deques congruent |
| Day11.ThrowsCongruent | src/day11.rs:109-133 | a run of throws with and without reduction keeps the deques congruent |
| Day11.PlayedTurnCongruent | src/day11.rs:108-134 | a turn with and without reduction keeps the deques congruent and the inspection counts equal |
| Day11.TurnsCongruent | src/day11.rs:107-135 | the turns of a round, with and without reduction, keep the deques congruent and the counts equal |
| Day11.ReductionKeepsInspections | src/day11.rs:106-136 | with no relief, reducing modulo a common multiple of the tests gives the same inspection counts as not reducing, for any number of rounds |
| Day11.MaxWorryKeepsInspections | src/day11.rs:103 | `max_worry` is such a multiple, so `part_2`'s counts are those of the unreduced game (also lines 119, 152-154) |
| Day11.ShowItems | src/day11.rs:29-32 | one rendering per item |
| Day11.ParseShowItems | src/day11.rs:29-32 | the item list, written with `, `, parses back item by item |
| Day11.MonkeyLines | src/day11.rs:28 | a monkey is written as six lines |
| Day11.MonkeyLinesLack | src/day11.rs:25-28 | no line of a written monkey holds a line break, so `split("\n")` finds the six lines |
| Day11.MonkeyLinesFields | src/day11.rs:29-45 | the fields sit at the byte offsets 18, 23, 21, 29 and 30 that `monkeys_from_file` slices at |
| Day11.ParseShowOperation | src/day11.rs:33-42 | the operation field splits into an operator and an operand that parse back |
| Day11.ParseRenderMonkey | src/day11.rs:27-54 | reading a written monkey back gives the monkey, whatever its number |
| Day11.EmptyItemsRejected | src/day11.rs:29-31 | a monkey without items panics on read: `"".parse()` fails |
| Day11.ExampleMonkeysValid | src/day11.rs:58-97 | the test monkeys' rules can be run and their `max_worry` is 96577 (also line 103) |
| Day12.MapInput | src/day12.rs:15-21 | a map that passes `Vec2d::new`'s check has at least one row and exactly `rows * cols` letters |
| Day12.MapFromFile | src/day12.rs:15-21 | `map_from_file` builds the grid of the file's letters, as wide as the first line, or panics exactly where `MapInput` is `None` |
| Day12.ElevationsMeaning | src/day12.rs:30-36 | only `S` and `E` change, to `a` and `z`; neither is left, and rewriting twice is rewriting once |
| Day12.LastBeforeMeaning | src/day12.rs:30-35 | the scan's last `S` (or `E`) holds that letter with none after it, and there is none exactly when the letter does not occur |
| Day12.SquareAtFlat | src/day12.rs:27-29 | the square at `(r, c)` is flat position `cols * r + c` |
| Day12.Normalise | src/day12.rs:25-38 | the nested loops rewrite every `S` to `a` and every `E` to `z` in place, and leave `start` and `end` at the last `S` and the last `E`, or `(0, 0)` |
| Day12.RewrittenAll | src/day12.rs:27-38 | once every position is scanned, the whole grid is rewritten |
| Day12.NormaliseRow | src/day12.rs:28-37 | one row of the scan rewrites that row and tracks its last `S` and `E` |
| Day12.HeightmapFromFile | src/day12.rs:23-44 | `heightmap_from_file` gives the rewritten elevations, the start and the end, or panics where `map_from_file` does |
| Day12.LastBeforeSkip | src/day12.rs:30-35 | positions without the letter leave the last one found where it was |
| Day12.ElevationsAppend | src/day12.rs:27-38 | rewriting a grid is rewriting its parts |
| Day12.ExampleElevations | src/day12.rs:46-58 | the example map's elevations are `aabqponm` ... `abdefghi`, five rows of eight |
| Day12.ExampleStart | src/day12.rs:54 | the example's start is `(0, 0)` |
| Day12.ExampleEnd | src/day12.rs:55 | the example's end is `(2, 5)` |
| Day12.ClimbsMeaning | src/day12.rs:70-123 | a step is an edge exactly when it goes to a side neighbour on the map at most one letter higher |
| Day12.FlipMeaning | src/day12.rs:79-80 | turning every edge round swaps its ends, and turning twice gives the edges back |
| Day12.PathsFromHeightmap | src/day12.rs:60-125 | `paths_from_heightmap` has a node per square and an edge per climbable step, pointing back when `reversed_edges` is set |
| Day12.EdgesComplete | src/day12.rs:70-123 | once every square is done, the edges are all the climbable steps, oriented |
| Day12.AddClimbs | src/day12.rs:72-121 | one square's turn adds an edge for each of the four neighbours it may climb to |
| Day12.EdgesStep | src/day12.rs:72-121 | adding the steps from one more square extends the finished squares by one |
| Day12.NeighbourCases | src/day12.rs:74-110 | a side neighbour on the map is above, below, left or right, and the guard of that case holds |
| Day12.Link | src/day12.rs:76-84 | one neighbour gets an edge exactly when `them <= me + 1` |
| Day12.WalkWithin | src/day12.rs:130 | a walk of `k` steps ends within `k` steps of where it starts |
| Day12.WithinWalk | src/day12.rs:130 | every square within `k` steps ends a walk of at most `k` steps |
| Day12.WithinGrows | src/day12.rs:130-145 | allowing more steps never loses a square |
| Day12.WithinStable | src/day12.rs:130-145 | once a step adds nothing, no later step does |
| Day12.StableStep | src/day12.rs:130-145 | from a set that no edge leads out of, one more step reaches the same set |
| Day12.WithinHeads | src/day12.rs:130-145 | every reachable square is the start or the end of some edge |
| Day12.FewestIsShortest | src/day12.rs:130 | no walk to a target is shorter than the fewest steps |
| Day12.FewestIsReached | src/day12.rs:130 | there is a walk to a target of exactly the fewest steps |
| Day12.UnreachableNoWalk | src/day12.rs:131-132 | when the target is unreachable, no walk from the start ends at it |
| Day12.MissedStep | src/day12.rs:130 | missing the targets once more extends the search by one step |
| Day12.StableUnreachable | src/day12.rs:131-132 | a step that adds nothing, with no target reached, leaves every target unreachable |
| Day12.Narrows | src/day12.rs:130 | each widening step leaves fewer squares outside, so the search ends |
| Day12.FewestSteps | src/day12.rs:130-145 | the breadth-first search returns the fewest steps from the start to a target, or `None` exactly when no target is reachable |
| Day12.ElevationsBelow | src/day12.rs:30-36 | rewriting keeps every letter below 255 |
| Day12.Part1 | src/day12.rs:127-133 | `part_1` is the fewest steps from the start to the end, and panics on a malformed map or an unreachable end |
| Day12.Part2 | src/day12.rs:142-157 | `part_2` is the fewest reversed steps from the end to any `a` square, and panics when none is reachable |
| Day12.FlipWalk | src/day12.rs:79-80 | a walk read backwards walks the reversed edges (also line 144) |
| Day12.Backwards | src/day12.rs:144 | a walk read from its end |
| Day12.ReversedNoFarther | src/day12.rs:142-157 | when the start is one of the reversed search's targets, that search succeeds and is no longer than the forward one |
| Day12.StartIsLow | src/day12.rs:30-32 | a map with a start has it at elevation `a` |
| Day12.Part2AtMostPart1 | src/day12.rs:127-157 | on a map with a start, `part_2` never exceeds `part_1` |
| Day13.AsList | src/day13.rs:52-55 | an integer stands for the one-element array `json!([p])`, an array for itself |
| Day13.CompareDefined | src/day13.rs:34-59 | two packets of integers and arrays always compare; the panic needs a JSON value of another kind |
| Day13.CompareFromDefined | src/day13.rs:42-51 | the array loop never panics on packets |
| Day13.CompareReflexive | src/day13.rs:12-15 | every packet equals itself, as `PartialEq` needs (also lines 34-59) |
| Day13.CompareFromReflexive | src/day13.rs:42-51 | the array loop finds every array equal to itself |
| Day13.CompareAntisymmetric | src/day13.rs:22-59 | swapping the packets reverses the outcome, and a panic stays a panic |
| Day13.CompareFromAntisymmetric | src/day13.rs:42-51 | swapping the arrays reverses the loop's outcome |
| Day13.CompareFromLists | src/day13.rs:42-51 | the loop depends on its values only through the arrays they stand for |
| Day13.IntegerPromoted | src/day13.rs:52-55 | an integer compared with an array is compared as the one-element array holding it, on either side |
| Day13.IntegersByValue | src/day13.rs:35-38 | integers compare by value, in all three outcomes |
| Day13.FirstDifferenceDecides | src/day13.rs:42-50 | equal elements up to position `k`, then the first unequal pair decides |
| Day13.PrefixComesFirst | src/day13.rs:42-51 | an array that is a proper prefix of another comes first, from any position |
| Day13.ProperPrefixLess | src/day13.rs:51 | an array that is a proper prefix of another comes first |
| Day13.OtherPanics | src/day13.rs:56-58 | a value of another JSON kind makes the comparison panic, on either side |
| Day13.ElementSize | src/day13.rs:42-46 | an element of an array is smaller than the array, so the recursion ends |
| Day13.CompareIsLex | src/day13.rs:34-59 | every comparison, two integers included, is the lexicographic one of the arrays the values stand for |
| Day13.CompareFromIsLex | src/day13.rs:42-51 | the array loop from position `i` is lexicographic comparison from `i` |
| Day13.CompareTransitive | src/day13.rs:28-59 | `compare_packets` is transitive on packets, so `sort` gets a total order |
| Day13.LexTransitive | src/day13.rs:42-51 | lexicographic comparison of packet arrays is transitive |
| Day13.ExampleOne | src/day13.rs:62 | `[1,1,3,1,1]` comes before `[1,1,5,1,1]` |
| Day13.ExampleTwo | src/day13.rs:63 | `[[1],[2,3,4]]` comes before `[[1],4]` |
| Day13.ExampleThree | src/day13.rs:64 | `[9]` comes after `[[8,7,6]]` |
| Day13.ExampleFour | src/day13.rs:65 | `[[4,4],4,4]` comes before `[[4,4],4,4,4]` |
| Day13.ExampleFive | src/day13.rs:66 | `[7,7,7,7]` comes after `[7,7,7]` |
| Day13.ExampleSix | src/day13.rs:67 | `[]` comes before `[3]` |
| Day13.ExampleSeven | src/day13.rs:68 | `[[[]]]` comes after `[[]]` |
| Day13.SecondDecides | src/day13.rs:42-50 | arrays that agree on an integer first element are decided by their second elements |
| Day13.ExampleEight | src/day13.rs:69 | `[1,[2,[3,[4,[5,6,7]]]],8,9]` comes after `[1,[2,[3,[4,[5,6,0]]]],8,9]` |
| Day13.Values | src/day13.rs:82-83 | the non-blank lines give at most one value each |
| Day13.Part1 | src/day13.rs:74-98 | the loop of `part_1` computes the score of the file's groups of three lines |
| Day13.RightOrderSumStep | src/day13.rs:89-95 | each pair adds its number unless it compares `Greater` |
| Day13.FirstGroup | src/day13.rs:79-85 | `take(3)` reads the first pair and its blank line, leaving the file of the other pairs |
| Day13.ScoreOfPairs | src/day13.rs:74-98 | on a file of pairs of arrays, `part_1` is the sum of the numbers of the pairs in the right order |
| Day13.NestedWf | src/day13.rs:69 | the deep test packets are packets |
| Day13.ExamplePairsWf | src/day13.rs:61-69 | the test pairs are pairs of arrays |
| Day13.ExampleTermsOne | src/day13.rs:62-63 | the first two test pairs are in the right order |
| Day13.ExampleTermsTwo | src/day13.rs:64-65 | the third pair is not in the right order and the fourth is |
| Day13.ExampleTermsThree | src/day13.rs:66-67 | the fifth pair is not in the right order and the sixth is |
| Day13.ExampleTermsFour | src/day13.rs:68-69 | neither of the last two pairs is in the right order |
| Day13.ExampleRightOrder | src/day13.rs:61-69 | the pairs in the right order are 1, 2, 4 and 6, summing to 13 |
| Day13.SumOfExampleTerms | src/day13.rs:92 | the terms 1, 2, 0, 4, 0, 6, 0, 0 sum to 13 |
| Day13.ExamplePart1 | src/day13.rs:100-105 | `part_1` of the example file is 13 |
| Day13.InsertOrdered | src/day13.rs:126 | inserting a packet after those not `Greater` than it and before one that is keeps the order |
| Day13.Insert | src/day13.rs:126 | one insertion adds the packet and keeps the sequence ordered |
| Day13.InsertAdds | src/day13.rs:126 | putting a packet anywhere adds it to the multiset |
| Day13.Sort | src/day13.rs:126 | `packets.sort()` leaves a permutation of the packets with no neighbours out of order |
| Day13.Part2 | src/day13.rs:107-139 | `part_2` multiplies the 1-based positions of the packets equal to a divider after the sort |
| Day13.CountAppend | src/day13.rs:126 | counts add up over concatenation |
| Day13.CountSingle | src/day13.rs:126 | a single packet counts once or not at all |
| Day13.FindIn | src/day13.rs:126 | a packet of the multiset sits at some position, and taking it out leaves the rest |
| Day13.CountRemoveAt | src/day13.rs:126 | taking out one packet takes away its share of the count |
| Day13.CountPermutation | src/day13.rs:126 | counts depend only on which packets there are, not on their order |
| Day13.CountsSplit | src/day13.rs:22-32 | every packet is `Less`, `Equal` or `Greater` than a divider, exactly one of them |
| Day13.CountNone | src/day13.rs:126 | with no packet comparing as `o`, the count is 0 |
| Day13.OrderedSorted | src/day13.rs:126 | in a sorted sequence an earlier packet never comes after a later one |
| Day13.PrefixOrdered | src/day13.rs:126 | dropping the last packet keeps the sequence sorted |
| Day13.LastNotAfter | src/day13.rs:126 | when the last packet of a sorted sequence does not come after `d`, no earlier packet is `Greater`, and when it is `Less`, none is `Equal` |
| Day13.BandAt | src/day13.rs:126-136 | in a sorted sequence the packets `Less` than a divider come first, then those equal to it, then the rest |
| Day13.Bands | src/day13.rs:126-136 | the bands hold at every position |
| Day13.RunsFiltered | src/day13.rs:127-137 | filtering a prefix whose dividers fill two runs gives the 1-based positions of those runs |
| Day13.DividerRuns | src/day13.rs:126-136 | after sorting, the packets equal to `[[2]]` and those equal to `[[6]]` fill two runs, in that order, each right after the packets `Less` than its divider |
| Day13.SortedDividers | src/day13.rs:126-138 | every sorted arrangement of the packets puts the dividers at the same positions, so `part_2` does not depend on how the sort breaks ties |
| Day13.SortedPositions | src/day13.rs:127-137 | in a sorted sequence the dividers sit right after the packets `Less` than each of them |
| Day13.SlotsPermutation | src/day13.rs:126 | the divider positions depend only on which packets there are |
| Day13.RunsPositions | src/day13.rs:127-137 | dividers filling the runs `a..b` and `c..e` sit at positions `a + 1` to `b` and `c + 1` to `e` |
| Day14.ParsePoint | src/day14.rs:49-50 | a point that parses has both coordinates within `usize` |
| Day14.ParsePath | src/day14.rs:47-55 | a line that parses gives a path of at least one point |
| Day14.Rocks | src/day14.rs:42-57 | the parsed file has one path per line plus the source's |
| Day14.SourceParses | src/day14.rs:45 | the appended line `500,0` is the one-point path at the source |
| Day14.RocksEndAtSource | src/day14.rs:42-57 | the parsed paths end with the source on its own, and no path is empty |
| Day14.Box.Index | src/day14.rs:93 | the flat position of a point inside the box lies inside the map (also line 151) |
| Day14.Xs | src/day14.rs:51 | the x coordinates of the points, in order |
| Day14.Ys | src/day14.rs:52 | the y coordinates of the points, in order |
| Day14.LeastIsLeast | src/day14.rs:51-52 | the folded `min` is at most every coordinate and is one of them |
| Day14.GreatestIsGreatest | src/day14.rs:51-52 | the folded `max` is at least every coordinate and is one of them |
| Day14.BoxOf | src/day14.rs:41-62 | the computed box is never empty |
| Day14.BoxCovers | src/day14.rs:41-62 | the box holds every point; without the floor each bound is some point's coordinate, and with the floor it has two extra rows and reaches `500 ± rows` across |
| Day14.OnPathStep | src/day14.rs:80-97 | the first `n + 1` segments of a path cover what the first `n` do and segment `n` |
| Day14.OnPathsStep | src/day14.rs:78-98 | the first `m + 1` paths cover what the first `m` do and path `m` |
| Day14.IndexPoint | src/day14.rs:93 | a point's cell of the map is the only one showing that point (also line 151) |
| Day14.CaveCells | src/day14.rs:63-98 | the finished map has one cell per point of the box |
| Day14.SandStateOf | src/day14.rs:148-156 | `sand_state` is `OffEdge` exactly outside the box and `Obstructed` exactly on rock or sand inside it |
| Day14.FallRests | src/day14.rs:158-183 | a grain at rest has obstructed cells, inside the box, below, down-left and down-right of it, and rests where it started or on a free cell |
| Day14.RestsInside | src/day14.rs:158-183 | a grain from inside the box comes to rest inside it |
| Day14.FreeFill | src/day14.rs:191 | filling a free cell leaves one free cell fewer |
| Day14.PourFill | src/day14.rs:187-197 | a grain at rest on a free cell fills it, with the same answer to come; one at rest on rock means `part_1` never stops |
| Day14.PourToSourceFill | src/day14.rs:210-221 | in `part_2`, a grain at rest away from the source fills a free cell, with the same answer to come |
| Day14.PourBounded | src/day14.rs:185-199 | `part_1` counts no more grains than there are free cells |
| Day14.PourToSourceBounded | src/day14.rs:208-223 | `part_2` counts at most one grain more than there are free cells |
| Day14.FloorCatches | src/day14.rs:158-183 | above a floor, in a box wide enough, every grain comes to rest |
| Day14.PourToSourceAnswers | src/day14.rs:208-223 | with the floor, no grain falls off, so `part_2` never reaches its panic |
| Day14.PointsOf | src/day14.rs:42-57 | every point of every path is among all the points |
| Day14.PointsFrom | src/day14.rs:42-57 | every one of all the points belongs to some path |
| Day14.RocksFit | src/day14.rs:49-50 | every parsed coordinate fits in a `usize` |
| Day14.CaveSetup | src/day14.rs:40-62 | the source is among the points, no path is empty, and the box holds the source and every point |
| Day14.CaveOf | src/day14.rs:40-100 | a cave that can be built has a valid box holding the source and one map cell per point of the box |
| Day14.FloorBox | src/day14.rs:58-62 | with the floor, the box starts at row 0 and is wide enough for any grain from the source |
| Day14.FloorCells | src/day14.rs:65-69 | with the floor, the map's last row is rock |
| Day14.FloorOfCave | src/day14.rs:40-100 | with the floor, the built cave has a rock bottom row, starts at row 0 and is wide enough for any grain |
| Day14.Part2Answers | src/day14.rs:208-223 | `part_2` has an answer exactly when the cave can be built |
| Day14.Part2Built | src/day14.rs:208-223 | a cave that can be built with the floor gives `part_2` an answer |
| Day14.Cave.constructor | src/day14.rs:71-77 | the struct literal holds the map and the bounds it is given |
| Day14.Cave.Settle | src/day14.rs:191-217 | a grain at rest turns its own cell to `true`, and no other cell changes |
| Day14.Cave.DrawSegment | src/day14.rs:81-95 | drawing a segment sets every cell between its two ends and changes no other cell |
| Day14.Cave.DrawPaths | src/day14.rs:78-98 | the drawing loop sets exactly the cells on some segment of some path |
| Day14.Cave.FallUntil | src/day14.rs:158-183 | the `fall_until` loop ends where the grain comes to rest or falls off, as `Fall` describes |
| Day14.PointRange | src/day14.rs:41-52 | the ranges widened from the empty `usize::MAX..=0` end as the least and greatest coordinates of all the points |
| Day14.CaveFromFile | src/day14.rs:40-100 | `cave_from_file` builds the box and map of `CaveOf`, or panics exactly where that is `None` |
| Day14.CaveBox | src/day14.rs:58-63 | the box is the points' ranges, with two more rows and a wider span for the floor, or a panic when `500 - y_count` underflows |
| Day14.EmptyMap | src/day14.rs:64-69 | before any rock is drawn the map is all free, except the last row when there is a floor |
| Day14.Part1 | src/day14.rs:185-199 | the loop of `part_1` counts the grains that come to rest before one falls off |
| Day14.Part2 | src/day14.rs:208-223 | the loop of `part_2` counts the grains until one rests at the source, that one included |
| MainRs.ForestTransposed | src/main.rs:756-785 | main.rs's `forest_from_file` accepts and rejects the same files as day08.rs's and lays out the same cells, with the row and column counts swapped |
| MainRs.ForestSquare | src/main.rs:778-784 | on a square forest, such as the five-by-five test forest, the swap makes no difference |
| MainRs.ForestOneLine | src/main.rs:778-784 | the one-line file `123` gives three rows of one tree in main.rs and one row of three in day08.rs |
| MainRs.ThrowItem | src/main.rs:1280-1301 | the body of main.rs's item loop performs one throw with worry divided by `relief` and not reduced |
| MainRs.PlayTurn | src/main.rs:1278-1303 | one monkey's turn on the deque without reduction, counting one inspection per item |
| MainRs.PlayRound | src/main.rs:1277-1304 | one round without reduction, leaving the deque in its original order |
| MainRs.DoMonkeyBusiness | src/main.rs:1272-1308 | main.rs's `do_monkey_business` plays the rounds with no reduction and multiplies the two largest inspection counts |
| MainRs.MonkeyBusinessPart2 | src/main.rs:1319-1321 | `day_11_2` without reduction gives, in unbounded arithmetic, the answer day11.rs computes with its reduction |
| MainRs.MonkeyBusinessPart1 | src/main.rs:1310-1312 | `day_11_1` plays twenty rounds with worry divided by three |
| MainRs.NewWorryU32Agrees | src/main.rs:1282-1288 | where `u32` arithmetic does not overflow, it gives the unreduced worry level, which is at most `u32::MAX` |
| MainRs.SquareOverflows | src/main.rs:1184-1191 | a worry level of 65536 squared by `old * old` overflows `u32` (also lines 1282-1288) |

## Left out

- Reading files: `fs::read_lines`, `File::open`, `read_to_end` and the line reader of main.rs's `forest_from_file` are left out. Every operation takes the file's lines, or its bytes for day 6, in place of the file name. Lines the reader fails on (`filter_map(|r| r.ok())`) are not modelled.
- `vec2d::input_from_file`, which days 8, 12 and 14 call, is not part of this model. It is taken to give the file's lines as bytes.
- Output is not modelled. This covers `main`'s `println!` of every answer, the `println!` of `max_worry` in day11.rs's `do_monkey_business`, the `Display` impl of `Vec2d` and the `Debug` impl of day 14's `Cave`. Day 14's two rendering tests (`test_cave_from_file`, `test_cave_from_file_with_floor`) compare strings and are not modelled. The cells they show are what `Day14.Cave.DrawPaths` and `Day14.EmptyMap` state.
- Tests against puzzle input files (`input01.txt` to `input14.txt`) are left out: those files are not part of this model.
- Some tests read example files that are not part of this model. Where the puzzle publishes the example, it is modelled on that text. The answers below are still left out:
  - day 3's 157 and 70;
  - day 9's 13, 1 and 36: the set of tail positions over the example's steps is too large a literal for the verifier to evaluate;
  - day 10's 13140 and its screen;
  - day 11's 10605 and 2713310158: twenty and ten thousand rounds of concrete arithmetic;
  - day 12's 31 and 29;
  - day 13's part 2 answer 140: counting the sorted example packets against the dividers is too costly to evaluate;
  - day 14's 24 and 93.
- Integer widths: the source's `u32` sums and scores, `usize` counts, `i32` register values and `u64` worry levels and inspection counts are unbounded here, so their overflow is not modelled. The places where a width is handled are listed with the model conventions above. The `u32` overflow of main.rs's worry levels is modelled for a single throw only (`MainRs.NewWorryU32`), not in the rounds `MainRs.DoMonkeyBusiness` plays. Day 7's `u64` subtractions and day 14's `usize` underflows are modelled, and day 12's `u8` overflow at the byte 255 is excluded by a precondition.
- Strings stand for byte strings, and the input is taken to be ASCII. Rust measures and slices a `String` in bytes, while the model counts characters. The two differ on non-ASCII text: day 2's `round_string.len() != 3`, day 3's halving of `line.len()`, day 5's `as_bytes().chunks(4)` and `[5..]`, day 7's `[2..]` and `[4..]`, day 10's `[5..]` and day 11's fixed offsets would count a multi-byte character as several bytes, and a slice inside a multi-byte character panics. Neither is modelled.
- Day 12's shortest paths come from `petgraph`'s `dijkstra`, which is not part of this model. Every edge weighs 1, so the model finds the fewest steps by breadth-first search. `Day12.FewestSteps` proves that this is the shortest walk, and that `None` means the target is unreachable.
- Day 13's packets are the values `serde_json::from_str` reads. Parsing JSON text is not modelled. A line is either blank or a value, and a syntax error, which panics, is not modelled. `Day13.Value`'s `Int` stands for a number `is_i64` accepts, so a float, or an integer outside the `i64` range, is `Other`.
- Day13.Part2: requires every packet of the file to be an integer or an array, all the way down (`AllWf`). The source panics on another JSON kind, such as a string, `true`, `null`, an object or a float, only when a comparison reaches it. Which comparisons `sort` makes depends on Rust's sorting algorithm, which is not modelled. So files whose odd values no comparison reaches are left out. For example, on the one-line file `[1,"x"]` every comparison is decided at element 0, and the source answers 6. `Day13.Part1` does model those values, as `None` where its loop compares them.
- In main.rs, days 1 to 10 are the same code as the day files, apart from `forest_from_file`. They share the day files' model and have no rows of their own. `main` itself only prints.
- Day12.PathsFromHeightmap: requires that no letter is the byte 255 (`Day12.NoTopByte` for the whole file), where `me + 1` overflows a `u8` and the source panics. That case is excluded by the precondition rather than modelled as a panic.
- Day11.DoMonkeyBusiness: requires `Day11.Valid`, which asks of every monkey that its test is positive and that both its targets are other monkeys' numbers. The source is more lenient about targets. It panics on a target only when an item is actually thrown there: a monkey that never throws to its own number runs normally. A target equal to the monkey count, thrown by monkey `i >= 1`, gives an `idx` (`Day11.SlotFinds`) inside the deque, and the item lands on monkey 0 without a panic. Those inputs are not modelled. (A test of 0 makes `max_worry` 0, so the first inspection panics on `% max_worry`; that case the precondition matches.) `Day11.Part1` and `Day11.Part2` inherit the precondition.
- Day11.Part1: requires `Day11.Valid`; see `Day11.DoMonkeyBusiness`.
- Day11.Part2: requires `Day11.Valid`; see `Day11.DoMonkeyBusiness`.
- MainRs.DoMonkeyBusiness: requires `Day11.Valid`. main.rs uses the same `idx` formula, so the same lenient targets are left out as for `Day11.DoMonkeyBusiness`. main.rs does not reduce modulo `max_worry`, so a test of 0 panics only when that monkey inspects an item; that case is left out too. Its rounds are also played in unbounded arithmetic (`Day11.Rounds` with no modulus). main.rs computes worry levels in `u32` (src/main.rs:1282-1288), so where a level passes `u32::MAX`, as for the monkey of `MainRs.SquareOverflows`, the source fails on the overflow and the model returns a number. That overflow is modelled only for one throw, by `MainRs.NewWorryU32`. `MainRs.MonkeyBusinessPart1` and `MainRs.MonkeyBusinessPart2` inherit it.
- MainRs.MonkeyBusinessPart1: requires `Day11.Valid` and plays in unbounded arithmetic, without main.rs's `u32` overflow; see `MainRs.DoMonkeyBusiness`.
- Day14.Part1: the source loops forever once a grain comes to rest on the source's own cell, which `cave_from_file` has already marked as rock by drawing the appended `500,0` point. The model returns `None` there.
- Day11.ReductionKeepsInspections: the agreement of the reduced and unreduced games is proved only with no relief (`part_2`). With relief 3 (`part_1`), division does not commute with the reduction.
- MainRs.MonkeyBusinessPart2: requires `Day11.Valid`; see `MainRs.DoMonkeyBusiness`. It also states the answer in unbounded arithmetic. With `u32` worry levels, main.rs overflows on most inputs (`MainRs.SquareOverflows`).
- Day09.ExampleCallbackCount: states that the move makes five head steps. That `after_step` runs once per head step is `Day09.MoveRope`'s contract.
- Day07.ExampleParts: checked on the example's directory tree written out, not on the example's transcript.

## Findings

| source | as written | input that shows it | evidently intended | confidence | as-written member | corrected member |
|---|---|---|---|---|---|---|
| src/main.rs:778-784 | `Vec2d::new(forest_vec, width, height)` makes the first line's length the row count and the number of lines the column count | the one-line file `123`: three rows of one tree, whose first row holds only `1` | one row per line, as src/day08.rs:21 passes `height, width` | high (not executed) | MainRs.ForestOneLine | Day08.ForestInputAt |
| src/main.rs:1184-1191 | worry levels are `u32` and are never reduced, so they grow past `u32::MAX` | a monkey holding 65536 whose operation is `old * old` | levels reduced modulo `max_worry` in a wider type, as `src/day11.rs` does at lines 12, 103 and 119 | high (not executed) | MainRs.SquareOverflows | Day11.RoundsStayBelow |
