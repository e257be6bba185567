# Advent of Code 2022, days 1 to 9, in Dafny

This project models the nine puzzle programs of days 1 to 9 of the Advent of
Code 2022 solutions, one Dafny module per day. Each program reads its input,
runs one computation and prints the answer. The model covers each computation
over in-memory lines, strings or records, and proves what it computes.

- `calories.dfy` (`Calories`, day 1): the lines are split into elves at blank
  lines and each elf's calories are totalled. The model then finds the
  largest total and the sum of the three largest.
- `rock_paper_scissors.dfy` (`RockPaperScissors`, day 2): the strategy guide
  is decoded. The player's shape is chosen to reach each target outcome, and
  the shape and outcome values are summed.
- `rucksack.dfy` (`Rucksack`, day 3): rucksacks are taken in groups of three.
  Each group's single common item is its badge, and item priorities are found
  by binary search in the two alphabets.
- `camp_cleanup.dfy` (`CampCleanup`, day 4): `lo-hi` section pairs are parsed
  and checked for overlap, and the overlapping pairs are counted.
- `supply_stacks.dfy` (`SupplyStacks`, day 5): the input is split at the label
  line and the stack drawing is parsed into stacks keyed by token position.
  Each "move Q from F to T" operation then cuts the top Q crates off stack F
  and appends them to stack T in reverse order. The answer is the top crate
  of each stack.
- `tuning_trouble.dfy` (`TuningTrouble`, day 6): finds the first 14-character
  window in which no character repeats.
- `no_space_left.dfy` (`NoSpaceLeft`, day 7): shell transcript lines are
  classified and replayed into a map from path keys to directory nodes.
  Directory sizes are computed recursively, and the smallest directory whose
  removal frees enough space is chosen.
- `treetop_tree_house.dfy` (`TreetopTreeHouse`, day 8): a height matrix with
  1-based access. Each tree gets four viewing distances, and its scenic score
  is their product (0 on the edge).
- `rope_bridge.dfy` (`RopeBridge`, day 9): for each instruction the head jumps
  the whole distance at once. The tail then catches up until it touches the
  head, and every tile it enters is recorded. The answer is the number of
  distinct tiles visited.

Shared modules:

- `wrappers.dfy`: an `Option` type; a `panic!` or `unwrap` on a bad input
  becomes `None`.
- `decimal.dfy`: Rust's `str::parse` for integer types, and decimal printing.
- `text.dfy`: `split`, `split_whitespace`, `split_once`, `join` and `replace`.
- `seq_ops.dfy`: `Vec::reverse`.
- `map_sums.dfy`: sums over a `HashMap`'s values, proved independent of the
  order in which the map yields them.

Modelling choices:

- Where a program iterates over a `HashMap`, the Dafny method picks the next
  key with `:|`. Its contract therefore holds for every iteration order.
- Machine integers are unbounded `int`/`nat`. The three overflows that decide
  behaviour become preconditions:
  - the `u8` elf counter of day 1;
  - the `usize` subtraction `len() - 3` of day 1, which needs at least three
    elves;
  - the two `usize` subtractions of day 7.
- Day 5 keys crates by their position among the tokens of `split(' ')`, not
  by drawing column, as the code does. `SupplyStacks.TokenPositionKeying`
  shows what this means for a line with leading spaces.
- Day 7 shows that the code's two key schemes agree:
  - the tree is populated under the path joined with "/";
  - sizing looks subdirectories up under the parent key, "/" and the name.

  `NoSpaceLeft.CdChildKey` proves both give the same key.
- Day 8 computes scenic scores only. The program has no count of trees
  visible from outside the grid, so none is modelled.

## Model

| member | source | states |
|---|---|---|
| Calories.ElfCalories | 01_day/calories/src/main.rs:8-25 | Succeeds exactly when every non-blank line is a number. The keys are exactly the elves with at least one item line, where elf `e` is the elf after `e - 1` blank lines. Each value is the sum of that elf's item lines, and ids stay within the `u8` range. |
| Calories.PrefixStep | 01_day/calories/src/main.rs:11-24 | One more line: a blank line moves on to the next elf; any other line is checked as a number and adds its value to the current elf only. |
| Calories.NoItemsNoCalories | 01_day/calories/src/main.rs:20-24 | An elf with no item lines has 0 calories, so inserting the first item gives the right total. |
| Calories.BlankCountPrefix | 01_day/calories/src/main.rs:9-15 | The elf counter never exceeds its final value, so the overflow bound on the whole input covers every step. |
| Calories.MaxElf | 01_day/calories/src/main.rs:27-34 | The amount is at least every total. It is 0 with id 0 when no total is positive; otherwise it is the total of the returned elf. |
| Calories.InsertPermutes | 01_day/calories/src/main.rs:42 | Inserting into a list adds exactly one copy of the element. |
| Calories.InsertSorted | 01_day/calories/src/main.rs:42 | Inserting into a sorted list keeps it sorted. |
| Calories.Sort | 01_day/calories/src/main.rs:42 | The result is sorted ascending and is a permutation of the input. |
| Calories.TopThreeSum | 01_day/calories/src/main.rs:41-48 | The totals collected and sorted are a permutation of the map's values, with one entry per elf. The figure is the sum of the last three. |
| Calories.TopThreeIsLargest | 01_day/calories/src/main.rs:45-48 | In a sorted list no three entries sum to more than the last three, so the figure is the largest sum of three totals. |
| RockPaperScissors.RoundWinner | 02_day/rock-paper-scissors/src/main.rs:135-153 | Equal shapes tie. The player wins exactly when their shape follows the opponent's on the cycle Rock, Paper, Scissors, and loses exactly when it precedes it. |
| RockPaperScissors.RoundWinnerSwap | 02_day/rock-paper-scissors/src/main.rs:142-150 | Swapping the two shapes swaps the winner and keeps a tie. |
| RockPaperScissors.UniqueShapeFor | 02_day/rock-paper-scissors/src/main.rs:120-133 | For every opponent shape and target outcome, exactly one player shape reaches the target. |
| RockPaperScissors.ChoosePlayerShape | 02_day/rock-paper-scissors/src/main.rs:120-133 | Trying Paper, Rock, Scissors returns the unique shape that reaches the target, so the panic after the loop cannot be reached. |
| RockPaperScissors.OutcomeValue | 02_day/rock-paper-scissors/src/main.rs:88-100 | Every outcome value is a multiple of 3 between 0 and 6. Exactly a win is worth more than 3 and exactly a tie is worth 3, so a loss is worth 0. |
| RockPaperScissors.ShapeValue | 02_day/rock-paper-scissors/src/main.rs:155-166 | Rock, Paper and Scissors are worth 1, 2 and 3: one more than their place on the cycle. |
| RockPaperScissors.OpponentShape | 02_day/rock-paper-scissors/src/main.rs:43-48 | Decodes exactly the letters A, B and C; any other letter fails. |
| RockPaperScissors.TargetOutcome | 02_day/rock-paper-scissors/src/main.rs:49-54 | Decodes exactly the letters X, Y and Z; any other letter fails. |
| RockPaperScissors.DecodeRound | 02_day/rock-paper-scissors/src/main.rs:42-54 | A record decodes exactly when both of its first two fields are known letters. |
| RockPaperScissors.DecodeLetters | 02_day/rock-paper-scissors/src/main.rs:43-54 | The letters of any shape and outcome decode back to that shape and outcome, whatever fields follow. |
| RockPaperScissors.LoadStrategyGuide | 02_day/rock-paper-scissors/src/main.rs:20-63 | Fails exactly when some record with two fields has an unknown letter. Otherwise the round ids are exactly 1 to the number of such records, and round `id` holds the decoded `id`-th such record. |
| RockPaperScissors.UndecodableRecord | 02_day/rock-paper-scissors/src/main.rs:42-54 | A two-field record that does not decode is one of the records the guide requires to decode. |
| RockPaperScissors.TotalContestScore | 02_day/rock-paper-scissors/src/main.rs:75-86 | The sum over all rounds of the outcome value, in any iteration order. |
| RockPaperScissors.TotalShapeValue | 02_day/rock-paper-scissors/src/main.rs:102-118 | The sum over all rounds of the value of the shape chosen for the round. |
| RockPaperScissors.CalculateTotalScore | 02_day/rock-paper-scissors/src/main.rs:65-73 | The total is the sum over all rounds of shape value plus outcome value. |
| RockPaperScissors.TotalScoreBounds | 02_day/rock-paper-scissors/src/main.rs:65-73 | Each round scores between 1 and 9, so the total lies between the number of rounds and nine times that number. |
| Rucksack.Alphabets | 03_day/rucksack-reorganization/src/main.rs:6-14 | The two alphabet arrays hold 26 consecutive letters from 'a' and from 'A'. |
| Rucksack.BinarySearch | 03_day/rucksack-reorganization/src/main.rs:82-88 | On a strictly sorted slice, a found position holds the item, and a miss means the item is absent. |
| Rucksack.SearchConsecutive | 03_day/rucksack-reorganization/src/main.rs:82-88 | In an alphabet the search succeeds exactly for its letters, at their offset from the first letter. |
| Rucksack.ItemPriority | 03_day/rucksack-reorganization/src/main.rs:81-91 | 'a'..'z' have priority 1..26, 'A'..'Z' have 27..52, and any other character has 0. |
| Rucksack.TotalItemPriority | 03_day/rucksack-reorganization/src/main.rs:73-95 | The total is at most 52 per item. |
| Rucksack.TotalItemPriorityAppend | 03_day/rucksack-reorganization/src/main.rs:79-92 | The total over two lists is the sum of their totals. |
| Rucksack.GroupBadge | 03_day/rucksack-reorganization/src/main.rs:37-51 | Succeeds exactly when the three rucksacks of the group share exactly one item type, and returns that item. |
| Rucksack.FindGroupBadges | 03_day/rucksack-reorganization/src/main.rs:28-55 | Succeeds exactly when every complete group of three has a single common item. There is one badge per complete group, and badge `g` is group `g`'s only common item. |
| Rucksack.BadgesCarried | 03_day/rucksack-reorganization/src/main.rs:36-51 | Each badge is carried by all three rucksacks of its group. |
| CampCleanup.ParseRange | 04_day/camp-cleanup/src/main.rs:48-62 | A field parses exactly when splitting it at '-' gives at least two pieces and the first two are numbers. The range runs from the first number to the second; later pieces are ignored. |
| CampCleanup.ParseRangeText | 04_day/camp-cleanup/src/main.rs:48-62 | Every range reads back from its "lo-hi" text. |
| CampCleanup.ParseRecord | 04_day/camp-cleanup/src/main.rs:43-81 | Succeeds exactly when the record has two fields and both parse; the result is the pair of parsed ranges. |
| CampCleanup.Overlapping | 04_day/camp-cleanup/src/main.rs:83-97 | True exactly when some section lies in both ranges, exactly when max(lo1, lo2) <= min(hi1, hi2). Never true when either range is empty. |
| CampCleanup.OverlapSymmetric | 04_day/camp-cleanup/src/main.rs:83-97 | The overlap test does not depend on the order of the two ranges. |
| CampCleanup.CountTrue | 04_day/camp-cleanup/src/main.rs:19-22 | The count equals the number of positions holding `true`. |
| CampCleanup.RangeEvaluations | 04_day/camp-cleanup/src/main.rs:10-17 | Fails exactly when some record does not parse. Otherwise verdict `i` is the overlap test of record `i`. |
| CampCleanup.CountOverlapping | 04_day/camp-cleanup/src/main.rs:10-22 | The printed figure is the number of records whose ranges overlap. |
| SupplyStacks.StripsToRemoveWhitespace | 05_day/supply-stacks/src/main.rs:20 | A line strips to a string exactly when removing its whitespace gives that string. |
| SupplyStacks.IsLabelWords | 05_day/supply-stacks/src/main.rs:20 | A line is the label line exactly when its whitespace-separated words, collected into one string, read "123456789". |
| SupplyStacks.SplitInputComplete | 05_day/supply-stacks/src/main.rs:13-34 | The composition lines followed by the operation lines are all the non-blank, non-label lines, in order. |
| SupplyStacks.SplitInput | 05_day/supply-stacks/src/main.rs:12-34 | The composition lines are the non-blank lines before the first label line. The operation lines are the non-blank, non-label lines after it. |
| SupplyStacks.RouteLine | 05_day/supply-stacks/src/main.rs:19-32 | A label line switches to operations and is dropped, and a blank line is dropped. Any other line goes to the list being filled. |
| SupplyStacks.CrateAt | 05_day/supply-stacks/src/main.rs:58-65 | A drawing line gives each stack at most one crate, and never an empty one. |
| SupplyStacks.TokenPositionKeying | 05_day/supply-stacks/src/main.rs:58-72 | In "    [D]" the crate D is keyed 4, its token position, and nothing is keyed 1. |
| SupplyStacks.PushCrate | 05_day/supply-stacks/src/main.rs:67-71 | Pushing onto a stack, creating it if missing, adds the crate to that stack only. |
| SupplyStacks.LoadCrate | 05_day/supply-stacks/src/main.rs:62-71 | A token that names a crate adds it to its own stack, creating the stack if missing; no other stack changes. |
| SupplyStacks.LoadCargoRow | 05_day/supply-stacks/src/main.rs:58-72 | Each stack gains the crate of its token position in the line, if any, and nothing else changes. |
| SupplyStacks.ReverseStacks | 05_day/supply-stacks/src/main.rs:75-78 | Same keys, and every stack is reversed. |
| SupplyStacks.LoadCargoComposition | 05_day/supply-stacks/src/main.rs:50-81 | A stack exists exactly for the token positions where some line has a crate. It holds those crates from the bottom line up, so the first-listed crate is on top. |
| SupplyStacks.ParseOperation | 05_day/supply-stacks/src/main.rs:90-113 | A line parses exactly when its six space-separated words are "move", a number, "from", a number, "to" and a number. The operation holds those three numbers in that order. |
| SupplyStacks.ParseOperationText | 05_day/supply-stacks/src/main.rs:90-113 | Every operation reads back from its "move Q from F to T" text. |
| SupplyStacks.LoadCargoOperations | 05_day/supply-stacks/src/main.rs:83-117 | Fails exactly when some line does not parse. Otherwise operation `i` is the parse of line `i`. |
| SupplyStacks.ApplyOperation | 05_day/supply-stacks/src/main.rs:130-141 | Succeeds exactly when stacks `from - 1` and `to - 1` exist and the source holds at least `quantity` crates. The stack keys are kept. |
| SupplyStacks.MoveEffect | 05_day/supply-stacks/src/main.rs:131-141 | Between distinct stacks, the source keeps its lower crates and the destination gains the removed top crates reversed. No other stack changes. |
| SupplyStacks.CrateCountUpdate | 05_day/supply-stacks/src/main.rs:136-141 | Replacing one stack changes the crate count by the difference in that stack's size. |
| SupplyStacks.MovePreservesCount | 05_day/supply-stacks/src/main.rs:129-142 | A move keeps the total number of crates, also when `from == to`. |
| SupplyStacks.ApplyAllStep | 05_day/supply-stacks/src/main.rs:129-142 | Running the operations is running the first, then the rest, stopping at a failure. |
| SupplyStacks.ApplyAllPreserves | 05_day/supply-stacks/src/main.rs:119-145 | A whole rearrangement keeps the stack keys and the total number of crates. |
| SupplyStacks.ExecuteCargoOperations | 05_day/supply-stacks/src/main.rs:119-145 | The loop, whose body cuts off, reverses and appends the top crates, ends in the state of running the operations one after another, and fails at the first operation that fails. |
| SupplyStacks.TopCratesLetters | 05_day/supply-stacks/src/main.rs:154-157 | With one-letter crates the answer has one letter per stack, letter `i` being the top crate of stack `i`. |
| SupplyStacks.GetTopCargo | 05_day/supply-stacks/src/main.rs:147-160 | Fails exactly when a key from 0 to the number of stacks minus one is missing or its stack is empty. Otherwise returns the top crates in key order. |
| TuningTrouble.ElementsBound | 06_day/tuning-trouble/src/main.rs:23 | A window has at most as many distinct characters as characters. |
| TuningTrouble.DistinctIffFullSet | 06_day/tuning-trouble/src/main.rs:23-25 | The set of a window's characters has size 14 exactly when the 14 characters are pairwise distinct. |
| TuningTrouble.FindMarker | 06_day/tuning-trouble/src/main.rs:17-35 | Given that some marker exists, the result `c + 14` lies between 14 and the stream length. The window at `c` is a marker, and no earlier window is. |
| NoSpaceLeft.ParseLine | 07_day/no-space-left/src/main.rs:39-64 | A line of fewer than two words fails. A "$" line parses exactly when it is "$ ls" or "$ cd X", giving that command. "dir X" lists directory X. Any other line parses exactly when its first word is a number, and lists a file with that size named by the second word. |
| NoSpaceLeft.ParseLineText | 07_day/no-space-left/src/main.rs:39-64 | Every well-formed line reads back from its transcript text. |
| NoSpaceLeft.Step | 07_day/no-space-left/src/main.rs:84-117 | One line fails exactly when it is `cd ..` and the shorter key is missing. Otherwise keys are only added and the current directory exists. |
| NoSpaceLeft.Replay | 07_day/no-space-left/src/main.rs:83-119 | Replaying lines only adds keys, and the current directory always exists. |
| NoSpaceLeft.ReplayStep | 07_day/no-space-left/src/main.rs:83-119 | Replaying lines is one step, then the rest, stopping at a failure. |
| NoSpaceLeft.PopulateFileTree | 07_day/no-space-left/src/main.rs:66-122 | The loop fails exactly when the replay fails, and otherwise builds the tree the replay describes. |
| NoSpaceLeft.RootPersists | 07_day/no-space-left/src/main.rs:67-76 | The root key "/" is in every tree built. |
| NoSpaceLeft.StepTracks | 07_day/no-space-left/src/main.rs:86-100 | Each step keeps the current key equal to the joined path, once the path is non-empty. |
| NoSpaceLeft.CdChildKey | 07_day/no-space-left/src/main.rs:91-99 | `cd X` below a non-empty path gives the key that sizing builds for `dir X`: parent key, "/", X. |
| NoSpaceLeft.CdFresh | 07_day/no-space-left/src/main.rs:90-100 | `cd X` pushes X and puts a fresh empty node under the new key, replacing any node already there. No other key changes. |
| NoSpaceLeft.CdParent | 07_day/no-space-left/src/main.rs:87-89 | `cd ..` pops the path and makes the node under the shorter key current, without changing the tree. |
| NoSpaceLeft.OutputEntry | 07_day/no-space-left/src/main.rs:106-117 | A listing line inserts its entry into the current directory, overwriting one of the same name. Nothing else changes. |
| NoSpaceLeft.StartAtRoot | 07_day/no-space-left/src/main.rs:67-100 | "$ cd /" at the start replaces the root with a fresh one and sets the path to ["/"], whose key is "/". |
| NoSpaceLeft.ChildKey | 07_day/no-space-left/src/main.rs:137-139 | A child key is longer than its parent key, which bounds the recursion. |
| NoSpaceLeft.LongerShrinks | 07_day/no-space-left/src/main.rs:137-142 | The set of tree keys longer than a child's key is strictly smaller than the set for its parent. |
| NoSpaceLeft.EntrySizes | 07_day/no-space-left/src/main.rs:131-146 | There is one non-negative size per entry of the directory. |
| NoSpaceLeft.CalculateDirectorySize | 07_day/no-space-left/src/main.rs:124-149 | In any iteration order, the result is the sum of file sizes and recursive subdirectory sizes. It fails exactly when some subdirectory key is missing. |
| NoSpaceLeft.CalculateTotalDirectorySizes | 07_day/no-space-left/src/main.rs:151-164 | The result has exactly the keys of the tree, each with that directory's size. It fails exactly when some directory's size is undefined. |
| NoSpaceLeft.ChildSizeBound | 07_day/no-space-left/src/main.rs:129-148 | A directory is at least as large as each of its entries. |
| NoSpaceLeft.EmptyDirectory | 07_day/no-space-left/src/main.rs:129-148 | A directory with no entries has size 0. |
| NoSpaceLeft.SelectDirectory | 07_day/no-space-left/src/main.rs:20-29 | Finds nothing exactly when no directory is large enough. Otherwise it returns a directory of size at least the space needed, and no large-enough directory is smaller. |
| NoSpaceLeft.SelectionFreesEnough | 07_day/no-space-left/src/main.rs:20-29 | The root always qualifies, and deleting the chosen directory leaves at least the needed space free. |
| TreetopTreeHouse.MinOf | 08_day/treetop-tree-house/src/main.rs:50 | The minimum is an element and no element is smaller. |
| TreetopTreeHouse.MaxOf | 08_day/treetop-tree-house/src/main.rs:50 | The maximum is an element and no element is larger. |
| TreetopTreeHouse.RowLengths | 08_day/treetop-tree-house/src/main.rs:48 | Entry `i` is the length of row `i`. |
| TreetopTreeHouse.From | 08_day/treetop-tree-house/src/main.rs:47-59 | Succeeds exactly when there is at least one row and all rows have the first row's length. It then has the row count, the first row's length and the rows. |
| TreetopTreeHouse.GetRow | 08_day/treetop-tree-house/src/main.rs:66-69 | Row `idx` counted from 1: `numCols` heights, entry `j` being `data[idx - 1][j]`. |
| TreetopTreeHouse.GetColumn | 08_day/treetop-tree-house/src/main.rs:61-64 | Column `idx` counted from 1: `numRows` heights, entry `k` being `data[k][idx - 1]`. |
| TreetopTreeHouse.At | 08_day/treetop-tree-house/src/main.rs:134-139 | `m[[i, j]]` is entry `j - 1` of row `i` and entry `i - 1` of column `j`. |
| TreetopTreeHouse.ViewingDistance | 08_day/treetop-tree-house/src/main.rs:107-114 | A viewing distance is at most the number of trees in that direction, and at least 1 when there is one. |
| TreetopTreeHouse.ViewingDistanceSkip | 08_day/treetop-tree-house/src/main.rs:108-114 | Trees shorter than the target are counted and the walk goes on. |
| TreetopTreeHouse.ViewingDistanceFirstBlock | 08_day/treetop-tree-house/src/main.rs:108-114 | The distance reaches exactly the first tree at least as tall as the target, which is counted. |
| TreetopTreeHouse.ViewingDistanceClear | 08_day/treetop-tree-house/src/main.rs:108-114 | With no tree as tall, the distance is the whole direction. |
| TreetopTreeHouse.ViewingDistanceMonotone | 08_day/treetop-tree-house/src/main.rs:108-114 | A taller tree sees at least as far. |
| TreetopTreeHouse.Directions | 08_day/treetop-tree-house/src/main.rs:82-100 | Left, right, up and down hold, nearest first, exactly the other trees of the row and column, never the tree itself. |
| TreetopTreeHouse.InteriorScore | 08_day/treetop-tree-house/src/main.rs:104-119 | An interior tree's score is the product of its four viewing distances. |
| TreetopTreeHouse.SetHeight | 08_day/treetop-tree-house/src/main.rs:134-139 | Changing one height changes `m[[i, j]]` at that tree only and keeps the grid's shape. |
| TreetopTreeHouse.PartsUnchanged | 08_day/treetop-tree-house/src/main.rs:82-100 | Changing a tree's height leaves the four directions seen from it unchanged. |
| TreetopTreeHouse.PartialScoreMonotone | 08_day/treetop-tree-house/src/main.rs:104-119 | Over the same directions, a taller tree's product of distances is no smaller. |
| TreetopTreeHouse.ScenicScoreMonotone | 08_day/treetop-tree-house/src/main.rs:71-120 | Raising one tree, and nothing else, never lowers its scenic score. |
| TreetopTreeHouse.ScenicScoreBounds | 08_day/treetop-tree-house/src/main.rs:71-120 | An edge tree scores 0. An interior tree scores at least 1 and at most the product of the four distances to the edges. |
| TreetopTreeHouse.DetermineScenicScore | 08_day/treetop-tree-house/src/main.rs:71-120 | The loops compute the scenic score: 0 on the edge, otherwise the product of the four viewing distances. |
| TreetopTreeHouse.CountVisibleTrees | 08_day/treetop-tree-house/src/main.rs:107-114 | Counting until the first tree at least as tall gives the viewing distance. |
| TreetopTreeHouse.RowScores | 08_day/treetop-tree-house/src/main.rs:125-127 | Entry `j - 1` is the score of column `j` in the row. |
| TreetopTreeHouse.AllScores | 08_day/treetop-tree-house/src/main.rs:122-131 | There are `numCols` scores per row. |
| TreetopTreeHouse.GetTreeScenicScores | 08_day/treetop-tree-house/src/main.rs:122-131 | The nested loops give every tree's score, row by row. |
| TreetopTreeHouse.ScoreAt | 08_day/treetop-tree-house/src/main.rs:122-131 | Entry `(i - 1) * numCols + (j - 1)` is the score of the tree in row `i`, column `j`. |
| TreetopTreeHouse.RowOffset | 08_day/treetop-tree-house/src/main.rs:124-126 | Row-major positions of later rows come after those of earlier rows. |
| TreetopTreeHouse.BestScore | 08_day/treetop-tree-house/src/main.rs:10 | `max().unwrap()`: the greatest score, an element of the list; there is none for an empty list. |
| TreetopTreeHouse.BestScoreOfGrid | 08_day/treetop-tree-house/src/main.rs:8-10 | The printed answer is the score of some tree, and no tree scores more. |
| TreetopTreeHouse.ScoreIn | 08_day/treetop-tree-house/src/main.rs:122-131 | Every tree's score is among the scores. |
| TreetopTreeHouse.ScoreInRows | 08_day/treetop-tree-house/src/main.rs:124-128 | The score of a tree in the first `n` rows is among those rows' scores. |
| TreetopTreeHouse.RowColumnOf | 08_day/treetop-tree-house/src/main.rs:124-126 | Every position of the scores is the row-major position of some row and column. |
| TreetopTreeHouse.ExampleScore | 08_day/treetop-tree-house/src/main.rs:71-120 | The puzzle's 5-by-5 example grid is accepted, and its height-5 tree in row 4, column 3 scores 8. |
| TreetopTreeHouse.ExampleDirections | 08_day/treetop-tree-house/src/main.rs:82-102 | In the example, that tree has height 5 and sees [3, 3] left, [4, 9] right, [3, 5, 3] up and [3] down. |
| TreetopTreeHouse.ExampleProduct | 08_day/treetop-tree-house/src/main.rs:104-117 | Those four directions give distances 2, 2, 2 and 1, whose product is 8. |
| TreetopTreeHouse.ScoreFromLines | 08_day/treetop-tree-house/src/main.rs:82-119 | An interior tree's score is determined by its row and its column alone. |
| TreetopTreeHouse.ExampleRowTwoScores | 08_day/treetop-tree-house/src/main.rs:82-119 | In the example, the inner trees of row 2 score 1, 4 and 1. |
| TreetopTreeHouse.ExampleRowThreeScores | 08_day/treetop-tree-house/src/main.rs:82-119 | In the example, the inner trees of row 3 score 6, 1 and 2. |
| TreetopTreeHouse.ExampleRowFourScores | 08_day/treetop-tree-house/src/main.rs:82-119 | In the example, the inner trees of row 4 score 1, 8 and 3. |
| TreetopTreeHouse.ExampleColumns | 08_day/treetop-tree-house/src/main.rs:61-64 | The example's inner columns are [0, 5, 5, 3, 5], [3, 5, 3, 5, 3] and [7, 1, 3, 4, 9]. |
| TreetopTreeHouse.ExampleAtMostEight | 08_day/treetop-tree-house/src/main.rs:71-120 | No tree of the example scores more than 8. |
| TreetopTreeHouse.ExampleAllAtMostEight | 08_day/treetop-tree-house/src/main.rs:71-120 | The same, for all 25 trees at once. |
| TreetopTreeHouse.BestScoreIs | 08_day/treetop-tree-house/src/main.rs:8-10 | When every score is at most `v` and some tree scores `v`, the printed answer is `v`. |
| TreetopTreeHouse.ExampleBestScore | 08_day/treetop-tree-house/src/main.rs:8-10 | The printed answer for the example grid is 8. |
| RopeBridge.Sign | 09_day/rope-bridge/src/main.rs:92 | `signum` is -1, 0 or 1 with the sign of its argument. |
| RopeBridge.ParseData | 09_day/rope-bridge/src/main.rs:49-61 | An accepted line has a direction letter, a space and the signed step count. |
| RopeBridge.ParseDataAccepts | 09_day/rope-bridge/src/main.rs:49-61 | A line is accepted exactly when it is R, L, U or D, a space and a signed number; the letter names the movement. |
| RopeBridge.ParseDataText | 09_day/rope-bridge/src/main.rs:49-61 | Every movement reads back from its text. |
| RopeBridge.MoveHead | 09_day/rope-bridge/src/main.rs:70-75 | The head moves by the absolute step count on one axis only: U and D change the row, L and R the column. U moves the row, and R the column, in the direction of the count's sign; D and L move the other way, so a negative count reverses the move. |
| RopeBridge.MoveHeadInverse | 09_day/rope-bridge/src/main.rs:70-75 | A move followed by the opposite move of the same count returns the head; a negated count is the opposite direction. |
| RopeBridge.InclusiveRange | 09_day/rope-bridge/src/main.rs:95-97 | `(lo..=hi).collect()` holds `lo + k` at position `k`, and `hi - lo + 1` entries. |
| RopeBridge.TileRange | 09_day/rope-bridge/src/main.rs:92-102 | The straight-run steps are 1, 2, ... towards a positive distance and -1, -2, ... towards a negative one, one per tile to move. |
| RopeBridge.StepTile | 09_day/rope-bridge/src/main.rs:151-154 | One tail step is a king step that strictly shrinks the gap to the head. |
| RopeBridge.Step | 09_day/rope-bridge/src/main.rs:148-159 | A step leaves the head alone and strictly shrinks the gap. |
| RopeBridge.CatchUp | 09_day/rope-bridge/src/main.rs:86-172 | The tail catches up, ending adjacent to the unchanged head. |
| RopeBridge.Move | 09_day/rope-bridge/src/main.rs:67-177 | The head moves as the instruction says and the tail ends adjacent to it. The earlier visited tiles stay as a prefix. |
| RopeBridge.ExecuteMovement | 09_day/rope-bridge/src/main.rs:67-177 | The head update and catch-up loop end in the rope `Move` describes. |
| RopeBridge.FollowStep | 09_day/rope-bridge/src/main.rs:89-160 | One loop iteration leaves the head alone and strictly shrinks the gap. The tail stands on the last visited tile, and the final catch-up is unchanged. |
| RopeBridge.MoveRows | 09_day/rope-bridge/src/main.rs:89-115 | The row branch pushes one tile per row crossed and leaves the tail one row from the head, on its last tile. This is the same as stepping one tile at a time. |
| RopeBridge.PushRow | 09_day/rope-bridge/src/main.rs:104-112 | The pushed tiles run along the tail's column to the tile next to the head. Pushing them is stepping towards the head once per tile. |
| RopeBridge.MoveColumns | 09_day/rope-bridge/src/main.rs:116-147 | The column branch pushes one tile per column crossed and leaves the tail one column from the head, on its last tile. This is the same as stepping one tile at a time. |
| RopeBridge.PushColumn | 09_day/rope-bridge/src/main.rs:136-144 | The pushed tiles run along the tail's row to the tile next to the head. Pushing them is stepping towards the head once per tile. |
| RopeBridge.StepAlongRow | 09_day/rope-bridge/src/main.rs:106-109 | A tile pushed in the row branch is one step towards the head. |
| RopeBridge.StepAlongColumn | 09_day/rope-bridge/src/main.rs:138-141 | A tile pushed in the column branch is one step towards the head. |
| RopeBridge.MoveDiagonally | 09_day/rope-bridge/src/main.rs:148-159 | The diagonal branch is exactly one tail step. |
| RopeBridge.DiagonalStep | 09_day/rope-bridge/src/main.rs:148-154 | In the diagonal branch both distances are non-zero, and each shrinks by one. |
| RopeBridge.TrailKingPath | 09_day/rope-bridge/src/main.rs:92-159 | The tiles of a catch-up form a king path from the starting tail. |
| RopeBridge.CatchUpTrail | 09_day/rope-bridge/src/main.rs:86-172 | A catch-up appends its trail to the visited tiles. |
| RopeBridge.MoveKingPath | 09_day/rope-bridge/src/main.rs:67-177 | A move appends a king path that starts at the old tail. |
| RopeBridge.CatchUpEndsOnLastTile | 09_day/rope-bridge/src/main.rs:112-115 | After a catch-up that moves the tail, or one that starts on the last tile, the tail stands on the last visited tile. |
| RopeBridge.MoveKeepsTailOnLastTile | 09_day/rope-bridge/src/main.rs:67-177 | A move keeps the tail on the last visited tile. |
| RopeBridge.Simulate | 09_day/rope-bridge/src/main.rs:16-19 | Running instructions keeps the earlier visited tiles as a prefix. |
| RopeBridge.ReadData | 09_day/rope-bridge/src/main.rs:30-41 | Fails exactly when some line does not parse. Otherwise movement `i` is the parse of line `i`. |
| RopeBridge.CountVisitedTiles | 09_day/rope-bridge/src/main.rs:10-25 | The count is the number of distinct tiles visited when running the instructions from the origin. |
| RopeBridge.DistinctBound | 09_day/rope-bridge/src/main.rs:22-25 | Removing duplicates never makes the list longer. |
| RopeBridge.VisitedCountBounds | 09_day/rope-bridge/src/main.rs:10-25 | The count is at least 1 (the origin) and at most the number of recorded tiles. |
| RopeBridge.SimulateTailOnLastTile | 09_day/rope-bridge/src/main.rs:16-19 | Across any instructions, a tail on its last visited tile stays on it. |
| Decimal.ParseUnsigned | 04_day/camp-cleanup/src/main.rs:57-58 | `parse::<usize>()` accepts exactly an optional '+' and one or more digits, up to the type's range, which is not modelled. |
| Decimal.ParseSigned | 09_day/rope-bridge/src/main.rs:53-56 | `parse::<isize>()` accepts exactly an optional sign and one or more digits, up to the type's range, which is not modelled. The sign gives the result's sign. |
| Decimal.ParseToDecimal | 04_day/camp-cleanup/src/main.rs:57-58 | Parsing a printed number gives it back. |
| Decimal.ParseSignedToDecimal | 09_day/rope-bridge/src/main.rs:53-56 | Parsing a printed signed number gives it back. |
| Text.JoinSplit | 05_day/supply-stacks/src/main.rs:58 | Joining the pieces of `split` with the separator gives the string back. |
| Text.SplitJoin | 04_day/camp-cleanup/src/main.rs:48-53 | Pieces free of the separator, joined with it, split back into those pieces. |
| Text.WordsJoin | 07_day/no-space-left/src/main.rs:46 | Words joined by single spaces read back as those words under `split_whitespace`. |
| Text.ConcatWords | 05_day/supply-stacks/src/main.rs:20 | The words of a line, collected into one string, are the line without its whitespace. |
| Text.SplitOnceFirst | 09_day/rope-bridge/src/main.rs:50 | `split_once` splits at the first separator, whatever follows it. |
| SeqOps.Reverse | 05_day/supply-stacks/src/main.rs:76-78 | `reverse` keeps the length and puts entry `i` at position `n - 1 - i`. |
| SeqOps.ReverseReverse | 05_day/supply-stacks/src/main.rs:76-78 | Reversing twice gives the sequence back. |
| MapSums.TotalRemove | 02_day/rock-paper-scissors/src/main.rs:80-83 | Taking any key out of a map splits its sum of values, so the sum does not depend on iteration order. |
| MapSums.TotalAdd | 02_day/rock-paper-scissors/src/main.rs:65-73 | The sums of two maps over the same keys add up to the sum of their pointwise sum. |
| MapSums.TotalBounds | 02_day/rock-paper-scissors/src/main.rs:109-115 | Values within [lo, hi] give a sum within [lo * n, hi * n]. |
| MapSums.SumValues | 02_day/rock-paper-scissors/src/main.rs:80-83 | `values().sum()` in any order is the sum of the values. |
| MapSums.CollectValues | 01_day/calories/src/main.rs:41 | `values().collect()` in any order holds each value once per key. |

## Left out

- Reading files, CSV parsing and path building: each kernel takes the lines,
  strings or already-split records. This covers day 1 `read_lines`, the day-2
  `csv` reader, day 3 `read_inventory`, day 4 `get_file_reader`, day 5
  `read_data_file`, and the day 6 to 9 readers. Read errors are not modelled:
  days 2, 4 and 5 skip a line or record that fails to read (`if let Ok`).
  Day 3 skips the line but still counts it, so the check of its group of
  three panics, unless the line falls in the trailing incomplete group. Days
  1, 7, 8 and 9 panic on it (`unwrap`).
- All `println!` output, including day 9's tracing, which changes no state. In
  day 6 `find_marker` prints its answer and returns `()`; the model returns the
  printed number.
- Day 8's `read_data` digit conversion (`to_digit(10).unwrap()`): the matrix is
  given as rows of natural numbers.
- Calories.ElfCalories: the `u32` sums are unbounded here; `u32` overflow is
  not modelled. The `u8` elf counter is kept as the precondition of at most
  254 blank lines.
- Calories.MaxElf: which of several equally large elves is reported depends on
  the `HashMap`'s iteration order. The contract states only what holds for
  every order.
- RockPaperScissors.CalculateTotalScore: `u64` overflow of the sums is not
  modelled.
- Rucksack.TotalItemPriority: the `usize` sum is unbounded.
- Decimal.ParseUnsigned: Rust's `parse` also fails on a number beyond the
  target type's range (`u32` in day 1, `usize` in days 4, 5 and 7); the model
  accepts every digit string.
- Decimal.ParseSigned: likewise, `parse::<isize>()` in day 9 fails beyond the
  `isize` range; the model accepts every signed digit string.
- Rucksack.BinarySearch: the search follows a textbook midpoint, not Rust's
  `binary_search` internals. On the strictly sorted alphabets both find the
  same position.
- SupplyStacks.ParseOperation: the `regex` crate is not modelled. The model
  accepts exactly "move Q from F to T" with ASCII digits, while the program's
  unanchored regex would also find that text inside a longer line. The
  three `parse::<usize>()` captures also fail beyond the `usize` range, while
  the model's digit reading is unbounded.
- SupplyStacks.ApplyOperation: `usize` underflow of `from - 1`, `to - 1` and
  `len - quantity` is modelled as failure, like the program's panic.
- TuningTrouble.FindMarker: the out-of-bounds slice when no marker exists
  becomes the precondition that a marker exists.
- NoSpaceLeft.SelectDirectory: which of several equally small directories
  `min_by_key` returns depends on the `HashMap`'s order; the contract states
  only that the chosen size is least. The two `usize` subtractions are kept as
  preconditions.
- NoSpaceLeft.CalculateDirectorySize: the `usize` sum is unbounded. A
  directory key that reaches itself through its children cannot arise, since
  child keys are strictly longer.
- RopeBridge.ExecuteMovement: `isize` overflow of positions is not modelled.
  The rope is passed and returned by value, as the Rust function takes and
  returns it.
- The `HashMap`s of days 5 and 7 are map values that the loops reassign, not
  tables updated in place; no other reference to them exists in the programs.
- RopeBridge.CountVisitedTiles: `sort` then `dedup` is modelled as the set of
  visited tiles, whose size is the same count.
