# Advent of Code 2022, days 1 to 7, modelled in Dafny

This project models the puzzle solutions of a Rust repository for the first
seven days of Advent of Code 2022 and proves properties of them. Day 7 is the
centre of the model. It reads a terminal transcript of `cd` and `ls` commands
and their output, then replays the transcript to build a directory tree.

One Dafny module per puzzle, plus three shared modules:

- `wrappers.dfy`: `Option` and `Result`. A Rust `unwrap`, `expect` or
  `panic!` becomes a `None` or a `Failure`, never a precondition.
- `text.dfy`: the parts of Rust's `str` API that the puzzles use.
  - `split` on a character and on a string pattern, `lines`, `trim`.
  - `parse::<usize>()`, which accepts an optional `+` and then digits.
  - The decimal rendering, with round-trip lemmas.
- `seqs.dfy`: an all-or-nothing map (the shape of `map(..).collect()` with a
  panicking closure), `Iterator::sum`, and reversal.
- `day1_calorie_counting.dfy` (`CalorieCounting`): elves are blank-line
  separated blocks of calorie lines. The elves are sorted heaviest first, in
  place, and the top `n` are summed.
- `day2_rock_paper_scissors.dfy` (`RockPaperScissors`): symbols, the
  win/lose permutations, the score table and the outcome mapping.
- `day3_rucksack.dfy` (`Rucksack`): compartments, common items and
  priorities.
- `day4_camp_cleanup.dfy` (`CampCleanup`): section ranges and nesting.
- `day5_supply_stacks.dfy` (`SupplyStacks`): the stack drawing, the move
  instructions, and the two cranes.
  - The 9000 moves crates one at a time, so it reverses them.
  - The 9001 moves them as a block, keeping their order.
  - The in-place loops of `parse_stacks` and `execute_instructions` are
    methods, proved equal to reference functions.
- `day6_tuning_trouble.dfy` (`TuningTrouble`): the 32-bit shift-register
  scan for the start-of-packet marker, as a loop. Its invariant is that the
  register holds the last four bytes.
- `day7_transcript.dfy` (`Transcript`): the line parsers
  `InputType::from`, `Command::from`, `Output::from`, `Directory::from`,
  `File::from` and `parse_input`.
  - The records keep the shape of the Rust structs: two optional fields
    each.
  - A printer is the parsers' partner for the round-trip lemmas.
- `day7_file_system.dfy` (`DirectoryTree`): `FileSystem::from`, `add_child`
  and `change_dir`.
  - The tree is an arena of nodes addressed by id, with the root at id 0. A
    directory lists its children by id.
  - The stack of open directories is a sequence of ids.
  - `Step`/`Run`/`Replay` are the reference definitions.
  - The class `FileSystem` holds the arena and grows it in place.
  - `Build` is the loop of `FileSystem::from`, proved equal to `Replay`.

The Rust day 7 code shares nodes through `Rc<RefCell<Node>>` and keeps
`&Node` references on its directory stack. That plumbing does not borrow-check
as written (`main.rs:45`, `:56`, `:94-96`), so the model builds what it
evidently means: `cd x` enters the first directory child named `x` of the
current directory, `cd ..` leaves it, and listed entries are appended to the
current directory.

## Model

| member | source | states |
|---|---|---|
| Transcript.CommandFrom | day-7_no-space-left-on-device/src/main.rs:127-138 | Succeeds exactly when the line has a second space-separated token. The prompt token, the name and the arguments are then the line's tokens in order. |
| Transcript.DirectoryFrom | day-7_no-space-left-on-device/src/main.rs:167-176 | Succeeds exactly when there is a second token, which is the directory's name. |
| Transcript.FileFrom | day-7_no-space-left-on-device/src/main.rs:184-194 | Succeeds exactly when the first token parses as an unsigned number and a second token exists. The size is that number and the name is the second token. |
| Transcript.OutputFrom | day-7_no-space-left-on-device/src/main.rs:146-160 | `Output::from`: a line starting with `dir` is read as a directory, any other as a file. It has no contract of its own; `ParsedLineHasOneKind` and `ParseShow` state its results. |
| Transcript.InputTypeFrom | day-7_no-space-left-on-device/src/main.rs:105-119 | `InputType::from`: a line starting with `$` is read as a command, any other as output. It has no contract of its own; `ParsedLineHasOneKind` and `ParseShow` state its results. |
| Transcript.ParsedLineHasOneKind | day-7_no-space-left-on-device/src/main.rs:105-119 | A parsed line holds exactly one of a command and an output, and a command exactly when it starts with `$`. An output holds exactly one of a directory and a file, and a directory exactly when the line starts with `dir`. |
| Transcript.ParseInput | day-7_no-space-left-on-device/src/main.rs:14-16 | One parsed line per input line, in order. It fails exactly when some line fails to parse. |
| Transcript.ParseShow | day-7_no-space-left-on-device/src/main.rs:105-194 | Parsing a printed command, directory or file line gives that line back. |
| Transcript.ParseShowAll | day-7_no-space-left-on-device/src/main.rs:14-16 | `parse_input` reads a printed transcript back line for line. |
| Transcript.ShowIsOneLine | day-7_no-space-left-on-device/src/main.rs:14-16 | A printed line is non-empty and holds no line break, so `lines` keeps it whole. |
| Transcript.ExampleParse | day-7_no-space-left-on-device/src/main.rs:201-220 | The test transcript parses as `cd /`, `ls` with no arguments, directory `a`, and file `b.txt` of size 14848514. |
| DirectoryTree.AddChildTo | day-7_no-space-left-on-device/src/main.rs:90-92 | The child becomes the new last node and is listed last under the parent. The parent keeps its kind and no other node changes. |
| DirectoryTree.FindDir | day-7_no-space-left-on-device/src/main.rs:94-96 | Finds nothing exactly when no listed child is a directory with that name. Otherwise it returns the first such child. |
| DirectoryTree.ChangeDir | day-7_no-space-left-on-device/src/main.rs:94-96 | Finds nothing exactly when the parent lists no directory child of that name. Otherwise it returns a listed child that is a directory of that name. |
| DirectoryTree.Start | day-7_no-space-left-on-device/src/main.rs:42-46 | The first line starts the replay exactly when it is a command with an argument. |
| DirectoryTree.Step | day-7_no-space-left-on-device/src/main.rs:49-71 | Every id in the state after a line still names a node. |
| DirectoryTree.Run | day-7_no-space-left-on-device/src/main.rs:41-72 | Replaying lines in order keeps every id in range. |
| DirectoryTree.Replay | day-7_no-space-left-on-device/src/main.rs:36-76 | The whole of `FileSystem::from` as a function, with every id in range. |
| DirectoryTree.RunStops | day-7_no-space-left-on-device/src/main.rs:41-72 | The first failing line decides the outcome of the whole replay. |
| DirectoryTree.FileSystem.constructor | day-7_no-space-left-on-device/src/main.rs:29-33 | A file system holds only its root. |
| DirectoryTree.FileSystem.AddChild | day-7_no-space-left-on-device/src/main.rs:90-92 | Grows the arena in place, exactly as `AddChildTo` says. |
| DirectoryTree.StepInPlace | day-7_no-space-left-on-device/src/main.rs:49-71 | One pass of the loop. It mutates the arena and returns the stack and flag, matching `Step`, including the exact error. |
| DirectoryTree.Build | day-7_no-space-left-on-device/src/main.rs:36-76 | Fails exactly when `Replay` fails, with the same error. Otherwise the fresh file system's arena equals `Replay`'s. |
| DirectoryTree.StepCommand | day-7_no-space-left-on-device/src/main.rs:49-60 | A command leaves the arena alone. The listing flag is then true exactly for `ls`. Only `cd` moves the stack, and only `cd` can fail. |
| DirectoryTree.StepChangeDir | day-7_no-space-left-on-device/src/main.rs:53-56 | `cd x` fails exactly when no directory is open or the current one has no directory child `x`. Otherwise it pushes the first such child. |
| DirectoryTree.StepChangeDirUp | day-7_no-space-left-on-device/src/main.rs:57-58 | `cd ..` fails exactly when the stack is empty, and otherwise pops it. |
| DirectoryTree.StepOutput | day-7_no-space-left-on-device/src/main.rs:61-70 | A listed entry appends exactly one child to the current directory and nothing else changes. The listing flag is not consulted. It fails exactly when no directory is open. |
| DirectoryTree.OutputTwice | day-7_no-space-left-on-device/src/main.rs:66-70 | The same entry listed twice becomes two equal nodes, both listed. Names are never merged. |
| DirectoryTree.StartTree | day-7_no-space-left-on-device/src/main.rs:42-46 | The first line's argument names the root, and the stack starts as exactly `[root]`. |
| DirectoryTree.AppendKeepsTree | day-7_no-space-left-on-device/src/main.rs:66-70 | Appending a child keeps the tree invariant. |
| DirectoryTree.StepKeepsTree | day-7_no-space-left-on-device/src/main.rs:49-71 | Every line keeps the tree invariant: ids point forward, no id is listed twice, every non-root node is listed, files are leaves, each node is exactly one kind, and the stack is a path from the root. |
| DirectoryTree.RunKeepsTree | day-7_no-space-left-on-device/src/main.rs:41-72 | The invariant holds through any sequence of lines. |
| DirectoryTree.ReplayTree | day-7_no-space-left-on-device/src/main.rs:36-76 | Every successful replay of a non-empty transcript builds a tree. |
| DirectoryTree.RunCountsOutputs | day-7_no-space-left-on-device/src/main.rs:61-70 | Each listed file or directory adds exactly one node, and nothing else adds nodes. |
| DirectoryTree.ReplayCountsOutputs | day-7_no-space-left-on-device/src/main.rs:36-76 | The arena has one node more than the number of listed entries. |
| DirectoryTree.RunBalancesNavigation | day-7_no-space-left-on-device/src/main.rs:49-60 | After any successful run, the open directories plus the `cd ..` lines equal the open directories at the start plus the `cd x` lines. |
| DirectoryTree.ReplayBalancesNavigation | day-7_no-space-left-on-device/src/main.rs:36-76 | After a successful replay, the open directories plus the `cd ..` lines equal one (the root) plus the `cd x` lines after the first. |
| DirectoryTree.RunKeeps | day-7_no-space-left-on-device/src/main.rs:41-72 | No node is ever removed, changes kind or name, or loses or reorders a child. |
| DirectoryTree.ReplayRoot | day-7_no-space-left-on-device/src/main.rs:42-46 | A successful replay starts with a command that has an argument. Its root is the directory that argument names. |
| DirectoryTree.ReplayEmpty | day-7_no-space-left-on-device/src/main.rs:29-33 | An empty transcript leaves the bare root of `FileSystem::new`. |
| DirectoryTree.ExampleReplay | day-7_no-space-left-on-device/src/main.rs:222-234 | The test transcript builds `/` holding directory `a` and then file `b.txt`. |
| DirectoryTree.ExampleBuild | day-7_no-space-left-on-device/src/main.rs:18-22 | Parsing and building the test input gives that tree. |
| DirectoryTree.ExampleLeaveRoot | day-7_no-space-left-on-device/src/main.rs:53-70 | `cd /` then `cd ..` leaves no directory open, and a following `dir a` fails with `NoOpenDirectory`. |
| SupplyStacks.FilterMoves | day-5_supply-stacks/src/main.rs:22 | Keeps exactly the blocks with `move` (or exactly those without), and every block it keeps is one of the given blocks. |
| SupplyStacks.FilterMovesPartition | day-5_supply-stacks/src/main.rs:22 | `partition` puts every block in exactly one of the two halves. |
| SupplyStacks.GetStacksAndInstructions | day-5_supply-stacks/src/main.rs:21-23 | `get_stacks_and_instructions`: split on blank lines, then glue the blocks with and without `move`. It has no contract of its own; `GetStacksAndInstructionsSplits` states its result. |
| SupplyStacks.GetStacksAndInstructionsSplits | day-5_supply-stacks/src/main.rs:21-23 | A drawing and a move list joined by a blank line split back into the two. |
| SupplyStacks.Column | day-5_supply-stacks/src/main.rs:36-42 | A stack holds at most one crate per drawing row. |
| SupplyStacks.PushRow | day-5_supply-stacks/src/main.rs:36-42 | The chunk loop over one row equals placing that row's crates on the stacks. |
| SupplyStacks.ReadDrawing | day-5_supply-stacks/src/main.rs:28-44 | The loops over the drawing's rows give column `k` as stack `k`. |
| SupplyStacks.ParseStacks | day-5_supply-stacks/src/main.rs:25-47 | `parse_stacks` equals its reference definition. |
| SupplyStacks.StacksOf | day-5_supply-stacks/src/main.rs:25-47 | The reference definition of `parse_stacks`. It has no contract of its own; `ParseStacks` is proved equal to it and `StacksOfShape` states its result. |
| SupplyStacks.StacksOfShape | day-5_supply-stacks/src/main.rs:30-34 | The number of stacks is the last digit of the label row, and stack `k` is column `k` of the drawing, read bottom-up. |
| SupplyStacks.ColumnTop | day-5_supply-stacks/src/main.rs:36-42 | The highest drawn crate of a column is the top of its stack. |
| SupplyStacks.ExampleDrawing | day-5_supply-stacks/src/main.rs:123-144 | The example drawing gives `ZN`, `MCD` and `P`. |
| SupplyStacks.InstructionWords | day-5_supply-stacks/src/main.rs:81-92 | An instruction prints as six space-free words. |
| SupplyStacks.ShowInstructionReads | day-5_supply-stacks/src/main.rs:81-92 | The printed instruction reads `move N from A to B`. |
| SupplyStacks.ParseShowInstruction | day-5_supply-stacks/src/main.rs:81-92 | `Instruction::from` reads a printed instruction back. |
| SupplyStacks.ParseInstruction | day-5_supply-stacks/src/main.rs:81-92 | `Instruction::from`: tokens 1, 3 and 5 are the numbers. It has no contract of its own; `ParseShowInstruction` states the round trip. |
| SupplyStacks.ParseInstructions | day-5_supply-stacks/src/main.rs:49-51 | One instruction per line, in order. It fails exactly when some line fails. |
| SupplyStacks.ExecuteInstruction | day-5_supply-stacks/src/main.rs:55-70 | The in-place pop/push loop of one instruction equals the reference crane move. |
| SupplyStacks.ExecuteInstructions | day-5_supply-stacks/src/main.rs:53-73 | The loop over all instructions equals the reference definition. |
| SupplyStacks.MoveOne | day-5_supply-stacks/src/main.rs:60-64 | One crate from the top of `from` onto `to`. It has no contract of its own; `MoveOneConserves` states what it keeps. |
| SupplyStacks.Move9000 | day-5_supply-stacks/src/main.rs:59-65 | The 9000: `n` single moves in a row. It has no contract of its own; `Move9000Reverses`, `Move9000FailsWhen` and `Move9000Conserves` state its result. |
| SupplyStacks.Move9001 | day-5_supply-stacks/src/main.rs:59-69 | The 9001: the top `n` crates as one block. It has no contract of its own; `Move9001KeepsOrder` and `Move9001Conserves` state its result. |
| SupplyStacks.Apply | day-5_supply-stacks/src/main.rs:55-70 | One instruction with its stack numbers lowered by one. It has no contract of its own; `ExecuteInstruction` is proved equal to it. |
| SupplyStacks.Execute | day-5_supply-stacks/src/main.rs:53-73 | All instructions in order. It has no contract of its own; `ExecuteInstructions` is proved equal to it and `ExecuteConserves` states what it keeps. |
| SupplyStacks.Move9000Fails | day-5_supply-stacks/src/main.rs:59-60 | Once a single move fails, the multi-crate move fails. |
| SupplyStacks.ExecuteFails | day-5_supply-stacks/src/main.rs:55-70 | One failing instruction fails the whole run. |
| SupplyStacks.Move9000Reverses | day-5_supply-stacks/src/main.rs:59-65 | With distinct stacks, the 9000 moves the top `n` crates onto the destination in reverse order. Every other stack is unchanged. |
| SupplyStacks.Move9000FailsWhen | day-5_supply-stacks/src/main.rs:57-60 | With distinct stacks, the 9000 fails exactly when `n > 0` and a stack is missing or the source holds fewer than `n` crates. |
| SupplyStacks.Move9000SameStack | day-5_supply-stacks/src/main.rs:59-65 | Moving a stack onto itself one crate at a time changes nothing. It fails only on a missing or empty stack. |
| SupplyStacks.Move9001KeepsOrder | day-5_supply-stacks/src/main.rs:61-69 | The 9001 moves the top `n` crates as a block in their original order. |
| SupplyStacks.AllCratesUpdate | day-5_supply-stacks/src/main.rs:55-70 | Replacing one stack changes the multiset of all crates by exactly that stack's difference. |
| SupplyStacks.MoveOneConserves | day-5_supply-stacks/src/main.rs:60-64 | A single move keeps the number of stacks and the multiset of crates. |
| SupplyStacks.Move9000Conserves | day-5_supply-stacks/src/main.rs:59-65 | The 9000 keeps the number of stacks and every crate. |
| SupplyStacks.Move9001Conserves | day-5_supply-stacks/src/main.rs:59-69 | The 9001 keeps the number of stacks and every crate. |
| SupplyStacks.ExecuteConserves | day-5_supply-stacks/src/main.rs:53-73 | A whole run keeps the number of stacks and every crate. |
| SupplyStacks.TopCrates | day-5_supply-stacks/src/main.rs:18 | One top crate per stack, in stack order. It fails exactly when some stack is empty. |
| SupplyStacks.RestackCratesAndReturnTopCrate | day-5_supply-stacks/src/main.rs:12-19 | Equals its reference definition. |
| SupplyStacks.Restack | day-5_supply-stacks/src/main.rs:12-19 | The reference definition of `restack_crates_and_return_top_crate`. It has no contract of its own; `RestackOnePerStack` states its result. |
| SupplyStacks.RestackOnePerStack | day-5_supply-stacks/src/main.rs:12-19 | The answer has one crate per drawn stack. |
| SupplyStacks.ExampleFirstMove | day-5_supply-stacks/src/main.rs:172-198 | `move 1 from 2 to 1` gives `ZND, MC, P` on both cranes. |
| SupplyStacks.ExampleMoves9000 | day-5_supply-stacks/src/main.rs:172-198 | The 9000 example ends with `"", MC, PDNZ`. |
| SupplyStacks.ExampleMoves9001 | day-5_supply-stacks/src/main.rs:222-248 | The 9001 example ends with `"", MC, PZND`. |
| SupplyStacks.ExampleThirdMove9000 | day-5_supply-stacks/src/main.rs:200-220 | `move 2 from 2 to 1` on the 9000 gives `CM, "", PDNZ`. |
| SupplyStacks.ExampleFourthMove9000 | day-5_supply-stacks/src/main.rs:200-220 | `move 1 from 1 to 2` on the 9000 gives `C, M, PDNZ`. |
| SupplyStacks.ExampleTopCrates9000 | day-5_supply-stacks/src/main.rs:200-220 | The four example moves on the 9000 leave the top crates `C`, `M`, `Z`. |
| TuningTrouble.ShiftIn | day-6_tuning-trouble/src/main.rs:13-14 | Shifting a byte into the register drops the oldest byte. |
| TuningTrouble.Unpack | day-6_tuning-trouble/src/main.rs:17-22 | The masks and shifts read back the packed bytes. |
| TuningTrouble.AllDifferentPack | day-6_tuning-trouble/src/main.rs:17-22 | The six comparisons hold exactly when the four packed bytes are pairwise different. |
| TuningTrouble.AllDifferentWindow | day-6_tuning-trouble/src/main.rs:17-22 | On the register after byte `i`, the comparisons hold exactly when bytes `i-3..i` are pairwise different. |
| TuningTrouble.PacketMarkerSpec | day-6_tuning-trouble/src/main.rs:12-28 | The result is 0 exactly when no window qualifies. Otherwise it is one past the first qualifying window. |
| TuningTrouble.PacketMarker | day-6_tuning-trouble/src/main.rs:12-28 | The reference scan from a given first index. It has no contract of its own; `PacketMarkerSpec` states its result. |
| TuningTrouble.ScanForMarker | day-6_tuning-trouble/src/main.rs:11-28 | The shift-register loop equals the reference scan. Its invariant is that the register holds the last four bytes. |
| TuningTrouble.GetStartOfPacketMarker | day-6_tuning-trouble/src/main.rs:10-29 | As written: returns 0 or `index + 1` for the first `index >= 4` whose window is pairwise different. It returns 0 when there is none. |
| TuningTrouble.StartOfPacketMarker | day-6_tuning-trouble/src/main.rs:10-29 | Corrected: the same for the first `index >= 3`, so the first full window counts. |
| TuningTrouble.MarkerSkipsFirstWindow | day-6_tuning-trouble/src/main.rs:16 | The two agree unless the very first window qualifies. |
| TuningTrouble.Bytes | day-6_tuning-trouble/src/main.rs:3 | `as_bytes` on ASCII text (every character below 128): one byte per character, of the same value. |
| TuningTrouble.PacketMarkerOfBytes | day-6_tuning-trouble/src/main.rs:3 | On ASCII text, scanning the bytes finds the marker that scanning the characters finds. |
| TuningTrouble.FirstWindowMissed | day-6_tuning-trouble/src/main.rs:16 | `abcd` has a marker ending at byte 4, yet the scan as written returns 0. |
| TuningTrouble.Example5 | day-6_tuning-trouble/src/main.rs:60 | The first test stream gives 5. |
| TuningTrouble.Example6 | day-6_tuning-trouble/src/main.rs:61 | The second test stream gives 6. |
| TuningTrouble.Example10 | day-6_tuning-trouble/src/main.rs:62 | The third test stream gives 10. |
| TuningTrouble.Example11 | day-6_tuning-trouble/src/main.rs:63 | The fourth test stream gives 11. |
| CalorieCounting.ItemCalories | day-1_calorie-counting/src/main.rs:33-35 | One line: trimmed, a blank line adds nothing, anything else must parse. It has no contract of its own; `ItemCaloriesOfNumber` and `ItemCaloriesOfBlank` state its results. |
| CalorieCounting.ItemCaloriesOfNumber | day-1_calorie-counting/src/main.rs:31-36 | A line holding a number adds that number. |
| CalorieCounting.ItemCaloriesOfBlank | day-1_calorie-counting/src/main.rs:33-34 | A blank line adds nothing. |
| CalorieCounting.CaloriesOfNumbers | day-1_calorie-counting/src/main.rs:31-36 | An elf's calories are the sum of its lines' numbers. |
| CalorieCounting.CaloriesOfNumbersThenBlank | day-1_calorie-counting/src/main.rs:31-36 | A trailing blank line does not change the sum. |
| CalorieCounting.Calories | day-1_calorie-counting/src/main.rs:31-36 | `Elf::calories`: the sum of the lines, failing when one fails. It has no contract of its own; `CaloriesOfNumbers` states its result. |
| CalorieCounting.NewElf | day-1_calorie-counting/src/main.rs:27-29 | `Elf::new`: an elf carrying its lines' calories. It has no contract of its own; `ExtractElves` states its use. |
| CalorieCounting.ExtractElves | day-1_calorie-counting/src/main.rs:16-20 | One elf per `"\n\n"`-separated block, each built from its block's lines. It fails exactly when some block's elf fails. |
| CalorieCounting.IndexOfMax | day-1_calorie-counting/src/main.rs:12 | Finds a heaviest elf in the unsorted part. |
| CalorieCounting.SortDescending | day-1_calorie-counting/src/main.rs:12 | Sorts in place, heaviest first, as a permutation of the input. |
| CalorieCounting.PlaceMax | day-1_calorie-counting/src/main.rs:12 | One selection-sort pass: the sorted, heaviest-first prefix grows by one place, as a permutation. |
| CalorieCounting.FindCaloriesOfTopElves | day-1_calorie-counting/src/main.rs:11-14 | Leaves the elves sorted heaviest first as a permutation. Returns the calories of the first `n`. |
| CalorieCounting.TopOfDescending | day-1_calorie-counting/src/main.rs:11-14 | In sorted order the top elf carries at least as much as any elf. |
| CalorieCounting.TopOfDescendingIsMost | day-1_calorie-counting/src/main.rs:11-14 | No arrangement of the same elves puts more calories in its first `n` places than the heaviest-first one, so sorting and taking `n` finds the most any `n` elves carry. |
| CalorieCounting.TopCaloriesIsSum | day-1_calorie-counting/src/main.rs:13 | The result is the sum of the first `min(n, len)` calorie values. |
| CalorieCounting.TopCalories | day-1_calorie-counting/src/main.rs:13 | `take(n).map(..).sum()`. It has no contract of its own; `TopCaloriesIsSum` and `TopOfDescendingIsMost` state its result. |
| RockPaperScissors.FromStr | day-2_rock-paper-scissors/src/main.rs:39-50 | `from_str` after `to_uppercase`, with the panic as `None`. It has no contract of its own; `FromStrAliases` states its results. |
| RockPaperScissors.FromStrAliases | day-2_rock-paper-scissors/src/main.rs:39-50 | A/X is Rock, B/Y is Paper and C/Z is Scissors, in either case. Anything else is rejected. |
| RockPaperScissors.WinsAgainst | day-2_rock-paper-scissors/src/main.rs:52-58 | `wins_against`. It has no contract of its own; `WinsLosesInverse` states its properties. |
| RockPaperScissors.LosesAgainst | day-2_rock-paper-scissors/src/main.rs:60-66 | `looses_against`. It has no contract of its own; `WinsLosesInverse` states its properties. |
| RockPaperScissors.WinsLosesInverse | day-2_rock-paper-scissors/src/main.rs:52-66 | `wins_against` and `looses_against` are mutually inverse permutations with no fixed point. |
| RockPaperScissors.Value | day-2_rock-paper-scissors/src/main.rs:68-74 | A symbol is worth between 1 and 3. |
| RockPaperScissors.Reward | day-2_rock-paper-scissors/src/main.rs:22-29 | The reward is 0, 3 or 6. |
| RockPaperScissors.RewardMatchesWins | day-2_rock-paper-scissors/src/main.rs:22-29 | The reward is 6 exactly for a win, 0 exactly for a loss, and 3 exactly for a draw. |
| RockPaperScissors.Score | day-2_rock-paper-scissors/src/main.rs:18-20 | A round scores between 1 and 9. |
| RockPaperScissors.ScoreTable | day-2_rock-paper-scissors/src/main.rs:146-166 | The nine scores of the table. |
| RockPaperScissors.MapSymbolForOutcome | day-2_rock-paper-scissors/src/main.rs:81-87 | `map_symbol_for_outcome`. It has no contract of its own; `MapSymbolForOutcomeCorrect` states its result. |
| RockPaperScissors.MapSymbolForOutcomeCorrect | day-2_rock-paper-scissors/src/main.rs:81-87 | The chosen move reaches the demanded outcome, and it is the only move that does. |
| RockPaperScissors.ParseRound | day-2_rock-paper-scissors/src/main.rs:6-7 | One line: every space-separated token must be a symbol and there must be at least two. It has no contract of its own; `RoundScore` states its use. |
| RockPaperScissors.RoundScore | day-2_rock-paper-scissors/src/main.rs:5-8 | A parsed line scores between 1 and 9 in either reading. |
| RockPaperScissors.TotalScoreBounds | day-2_rock-paper-scissors/src/main.rs:5-14 | The total lies between the number of lines and nine times that. |
| RockPaperScissors.TotalScore | day-2_rock-paper-scissors/src/main.rs:5-14 | The two `sum`s over the lines. It has no contract of its own; `TotalScoreBounds`, `TotalScoreEmpty` and `TotalScoreCons` state its result. |
| RockPaperScissors.TotalScoreEmpty | day-2_rock-paper-scissors/src/main.rs:5-14 | A text without lines scores 0. |
| RockPaperScissors.TotalScoreCons | day-2_rock-paper-scissors/src/main.rs:5-14 | The total is the first line's score plus the total of the rest, failing when either fails. |
| Rucksack.GetCompartments | day-3_rucksack-reorganization/src/main.rs:30-33 | The halves concatenate back to the line, and the first half has length `len/2`. |
| Rucksack.CommonItems | day-3_rucksack-reorganization/src/main.rs:17-22 | Keeps exactly the items also in the second half, with their multiplicity in the first. |
| Rucksack.CommonItemsFirst | day-3_rucksack-reorganization/src/main.rs:17-22 | Filtering keeps the first half's order, so the first first-half item that the second half holds is the first common item. |
| Rucksack.CommonItemsHead | day-3_rucksack-reorganization/src/main.rs:17-22 | The common items are empty exactly when no first-half item occurs in the second half. Otherwise they start with the first one that does. |
| Rucksack.FindErroneousItem | day-3_rucksack-reorganization/src/main.rs:17-22 | `find_errornous_item`: the common items of the two halves. It has no contract of its own; `CommonItems`, `CommonItemsHead` and `LinePriorityIsFirstCommonItem` state its result. |
| Rucksack.Position | day-3_rucksack-reorganization/src/main.rs:27 | The index of the first occurrence, or none exactly when the item is absent. |
| Rucksack.CalculateValue | day-3_rucksack-reorganization/src/main.rs:26-28 | `calculate_value`. It has no contract of its own; `CalculateValueRanges` states its results. |
| Rucksack.CalculateValueRanges | day-3_rucksack-reorganization/src/main.rs:24-28 | a..z map to 1..26 and A..Z map to 27..52. Nothing else has a value. |
| Rucksack.CalculateValueInjective | day-3_rucksack-reorganization/src/main.rs:24-28 | Different items have different priorities. |
| Rucksack.LinePriority | day-3_rucksack-reorganization/src/main.rs:12-13 | A trimmed line's priority lies in 1..52. |
| Rucksack.LinePriorityIsFirstCommonItem | day-3_rucksack-reorganization/src/main.rs:12-13 | The priority is that of the first first-half item that the second half also holds. A line whose halves share no item has no priority. |
| Rucksack.CalculateSumBounds | day-3_rucksack-reorganization/src/main.rs:9-15 | The sum lies between the number of lines and 52 times that. |
| Rucksack.CalculateSumOfErroneousItems | day-3_rucksack-reorganization/src/main.rs:9-15 | `calculate_sum_of_errornous_items`. It has no contract of its own; `CalculateSumBounds`, `CalculateSumCons` and `CalculateSumEmpty` state its result. |
| Rucksack.CalculateSumCons | day-3_rucksack-reorganization/src/main.rs:9-15 | The sum adds the first line's priority (after `trim`) to the sum of the rest, failing when either fails. |
| Rucksack.CalculateSumEmpty | day-3_rucksack-reorganization/src/main.rs:9-15 | Text without lines sums to 0. |
| CampCleanup.ParseRange | day-4_camp-cleanup/src/main.rs:18-21 | One assignment: every `-`-separated piece must parse, and the range is the first two. It has no contract of its own; `ParseShowRange` states the round trip. |
| CampCleanup.GetPairOfSections | day-4_camp-cleanup/src/main.rs:16-23 | One range per comma-separated part. |
| CampCleanup.GetPairOfSectionsShow | day-4_camp-cleanup/src/main.rs:16-23 | `a-b,c-d` gives `[a..b, c..d]`. |
| CampCleanup.ParseShowRange | day-4_camp-cleanup/src/main.rs:19-21 | A printed range parses back. |
| CampCleanup.FullyContained | day-4_camp-cleanup/src/main.rs:25-28 | `fully_contained_in_ranges`. It has no contract of its own; the next two rows state its properties. |
| CampCleanup.FullyContainedSymmetricReflexive | day-4_camp-cleanup/src/main.rs:25-28 | Nesting is symmetric and reflexive. |
| CampCleanup.FullyContainedMeansWithin | day-4_camp-cleanup/src/main.rs:25-28 | True exactly when every section of one range lies in the other. |
| CampCleanup.LineNests | day-4_camp-cleanup/src/main.rs:11-12 | One trimmed line: its pair, failing on fewer than two ranges. It has no contract of its own; `DigitPairNests` states its result on well-formed lines. |
| CampCleanup.CountTrue | day-4_camp-cleanup/src/main.rs:12-13 | The count is the number of `true` entries, so it never exceeds the number of entries. |
| CampCleanup.CountTrueCons | day-4_camp-cleanup/src/main.rs:12-13 | Counting goes entry by entry: one for a `true` first entry, then the count of the rest. |
| CampCleanup.CountWhere | day-4_camp-cleanup/src/main.rs:11-13 | `map(..).filter(..).count()` with a panicking `map`. It has no contract of its own; `CountWhereCons` states its result. |
| CampCleanup.CountWhereCons | day-4_camp-cleanup/src/main.rs:11-13 | The count adds one for the first entry when it is accepted to the count of the rest, failing when either fails. |
| CampCleanup.CountOfTrimmedLinesCons | day-4_camp-cleanup/src/main.rs:10-13 | Counting over the trimmed lines of `first + "\n" + rest` takes the trimmed first line, then the trimmed lines of `rest`. |
| CampCleanup.TotalFullyContained | day-4_camp-cleanup/src/main.rs:9-14 | `get_total_number_of_fully_contained_ranges`. It has no contract of its own; the next four rows state its result. |
| CampCleanup.TotalFullyContainedBound | day-4_camp-cleanup/src/main.rs:9-14 | The total is at most the number of lines. |
| CampCleanup.TotalFullyContainedEmpty | day-4_camp-cleanup/src/main.rs:9-14 | A text without lines counts 0. |
| CampCleanup.TotalFullyContainedCons | day-4_camp-cleanup/src/main.rs:9-14 | The first line counts one when its trimmed pair nests, plus the count of the rest, failing when either fails. |
| CampCleanup.TotalFullyContainedOne | day-4_camp-cleanup/src/main.rs:9-14 | A one-line text counts one exactly when its trimmed pair nests. |
| CampCleanup.DigitPairNests | day-4_camp-cleanup/src/main.rs:16-28 | A pair `a-b,c-d` of single digits nests exactly when the ranges `a..b` and `c..d` do. |
| CampCleanup.DigitLineNests | day-4_camp-cleanup/src/main.rs:10-12 | The same pair indented by spaces is one line, and `trim` gives the pair back. |
| CampCleanup.ExampleLines | day-4_camp-cleanup/src/main.rs:62-67 | Of the test lines, `2-8,3-7` and `6-6,4-6` nest and the other four do not. |
| CampCleanup.ExampleTotal | day-4_camp-cleanup/src/main.rs:60-74 | The test input, with its sixteen-space indentation, counts 2. |
| Text.JoinSplit | day-7_no-space-left-on-device/src/main.rs:129-132 | Splitting on a character loses nothing: gluing the pieces gives the input back. |
| Text.SplitJoin | day-7_no-space-left-on-device/src/main.rs:129-132 | Separator-free pieces come back from splitting their join. |
| Text.Split | day-7_no-space-left-on-device/src/main.rs:129-132 | `split` on a character: one more piece than separators, and no piece holds the separator. |
| Text.SplitOn | day-1_calorie-counting/src/main.rs:17 | `split` on a string pattern: never an empty list of pieces. `JoinSplitOn` states that nothing is lost. |
| Text.JoinSplitOn | day-1_calorie-counting/src/main.rs:17 | Splitting on `"\n\n"` loses nothing. |
| Text.Lines | day-7_no-space-left-on-device/src/main.rs:15 | `lines` gives one piece per newline, plus one for an unterminated last line. No piece holds a newline. |
| Text.LinesJoin | day-7_no-space-left-on-device/src/main.rs:15 | Lines glued with newlines come back from `lines`. |
| Text.LinesEmpty | day-3_rucksack-reorganization/src/main.rs:10 | The empty text has no lines. |
| Text.LinesOne | day-4_camp-cleanup/src/main.rs:10 | A non-empty text without a newline is one line, kept as it is. |
| Text.LinesCons | day-3_rucksack-reorganization/src/main.rs:10 | The lines of `a + "\n" + b` are `a` (less a final carriage return) followed by the lines of `b`. |
| Text.Trim | day-3_rucksack-reorganization/src/main.rs:11 | `trim`. It has no contract of its own; `TrimRemovesWhitespace` states its result. |
| Text.TrimRemovesWhitespace | day-3_rucksack-reorganization/src/main.rs:11 | `trim` keeps one stretch of the text that neither starts nor ends with whitespace, and removes only whitespace around it. |
| Text.TrimIndented | day-4_camp-cleanup/src/main.rs:10 | Leading whitespace before a text with no whitespace at either end is exactly what `trim` removes. |
| Text.ParseNat | day-7_no-space-left-on-device/src/main.rs:187 | `parse::<usize>()`: an optional `+`, then at least one digit. It has no contract of its own; `ParseNatToString` states the round trip. |
| Text.ParseNatToString | day-7_no-space-left-on-device/src/main.rs:187 | `parse::<usize>` reads a printed number back. |
| Seqs.MapAll | day-7_no-space-left-on-device/src/main.rs:15 | `map(..).collect()` with a failing closure: results in order, failing exactly when some element fails. |
| Seqs.SumConcat | day-1_calorie-counting/src/main.rs:35 | Summing distributes over concatenation. |
| Seqs.SumAllCons | day-3_rucksack-reorganization/src/main.rs:12-14 | A fallible sum goes element by element: 0 for none, otherwise the first value plus the sum of the rest, failing when either fails. |
| LinePipeline.TrimmedLinesCons | day-3_rucksack-reorganization/src/main.rs:10-11 | The trimmed lines of `first + "\n" + rest` are the trimmed first line followed by the trimmed lines of `rest`. |
| LinePipeline.SumOfTrimmedLinesCons | day-3_rucksack-reorganization/src/main.rs:10-14 | A sum over trimmed lines adds the first trimmed line's value to the sum over the rest. |
| LinePipeline.SumOfLinesCons | day-2_rock-paper-scissors/src/main.rs:5-8 | A sum over lines adds the first line's value to the sum over the rest. |
| Seqs.ReverseReverse | day-5_supply-stacks/src/main.rs:59-65 | Reversing twice is the identity. |

## Left out

- The `main` functions: reading `input.txt` and printing the answers are
  I/O.
- The debug `println!` in `parse_stacks`, the unused `format!` strings of
  day 6, and the `eprintln!` of day 7. Only their effect on control flow is
  modelled, which for the `eprintln!` is none: the entry is still appended.
- Machine integers. Numbers are unbounded naturals. The following are not
  modelled:
  - the `u32` overflow of the day 1 sums and the `i32` of days 2 and 3;
  - `parse` rejecting values above the type's maximum;
  - that `num_elves` is a `u32`, so a request for more than `2^32 - 1`
    elves cannot be written (`as usize` only widens it).
- Text is a sequence of Unicode scalar values. The puzzles slice by byte
  index (`get_compartments`, the 4-byte chunks of `parse_stacks`), and that
  coincides with the character index only on ASCII input. The model
  assumes ASCII there. Day 6 works on bytes, and `Bytes` relates ASCII
  text to them.
- `get_start_of_message_marker` (day 6, `main.rs:31-50`). It still checks a
  4-byte window and its first mask is malformed, so its asserted results
  contradict the code and there is no coherent behaviour to state.
- Day 7 directory-size totals, smallest-directory queries, de-duplication
  and name-conflict errors. The repository has no code for any of them:
  `main` is empty and the builder test asserts nothing.
- The `Rc<RefCell<Node>>` sharing and `&Node` stack entries of day 7 are
  replaced by an arena of nodes addressed by id and a stack of ids. The
  model does not capture aliasing between the tree and the stack.
- CalorieCounting.SortDescending: a selection sort stands in for
  `sort_by`. Both give a heaviest-first permutation, but the order of elves
  with equal calories may differ, because `sort_by` is stable and selection
  sort is not. The sum of the top `n` does not depend on that order.
- Rust's `-` on `usize` fails on underflow only in debug builds. The model
  follows debug builds, so a stack number 0 in a day 5 instruction fails.
- SupplyStacks.StacksOfShape: like the code, the label row contributes only
  its last character, so a drawing with ten or more stacks is read with the
  wrong count. The model states the code's behaviour, not the puzzle's.
- The asserted results of two tests are not proved: three elves for the
  day 1 input at `main.rs:47-60`, and 157 for the day 3 input at
  `main.rs:109-120`. Unfolding those long, indented inputs character by
  character is beyond what the verifier does in reasonable time. The laws
  such results rest on are proved: `ExtractElves` gives one elf per block,
  and `CalculateSumCons` and `CalculateSumEmpty` give the sum line by
  line. The day 4 test value is proved (`CampCleanup.ExampleTotal`).
- Day 2 upper-casing is modelled for ASCII letters only. No other character
  upper-cases to one of the six accepted aliases.

## Findings

| source | as written | input that shows it | evidently intended | confidence | as-written member | corrected member |
|---|---|---|---|---|---|---|
| day-6_tuning-trouble/src/main.rs:16 | A window is only checked once `index > 3`, so one ending at index 3 (the first full window) is never reported. | The stream `abcd`: its first four bytes differ, yet the function returns 0. | Every full window counts (`index >= 3`), so `abcd` gives 4. | high; not executed | TuningTrouble.GetStartOfPacketMarker, TuningTrouble.FirstWindowMissed | TuningTrouble.StartOfPacketMarker |
