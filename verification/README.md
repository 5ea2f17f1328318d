# The diff and merge engine of KDiff3

KDiff3 shows two or three text files side by side and merges them.  Between the loaded files and the
merged text lies a chain of algorithms without user interface or I/O, and this project models that chain
in Dafny and proves what each link promises:

1. **Line differ** (`gnudiff_analyze.cpp`, `gnudiff_io.cpp`).  Lines get equivalence codes from a hash
   table (`LineCoder`, `Lines`).  Lines that cannot match are left out (`DiscardLines`,
   `ProvisionalDiscards`).  Myers' linear-space search finds a point in the middle of a cheapest way
   through the edit grid (`EditDistance`, `EditGrid`, `Frontier`, `ForwardSearch`, `BackwardSearch`,
   `MiddleSnake`), the recursion marks the changed lines (`CompareSeq`, `Alignment`, `FlagVector`), runs
   of changes slide to nicer places (`ShiftBoundaries`), and the marks become an edit script
   (`EditScript`, `DiffTwoFiles`).
2. **Difference lists** (`diff.cpp`).  The script becomes a list of equal runs and differences
   (`DiffLists`), cut at the ranges that the user aligned by hand (`Windows`, `ManualDiffHelp`).  Single
   lines are compared by a home-made character differ (`CharDiff`, `FineDiffs`, `TextComparison`);
   `Mergers` walks two such lists in lock step to colour a line.
3. **Three-way alignment** (`diff.cpp`).  Rows that name a line of A, of B and of C are built from the
   comparisons A-B and A-C, corrected for manual alignments and compacted (`Diff3Lines`, `RowEdits`,
   `RowMoves`, `FirstLines`, `TrimRules`, `Twins`, `Pairs`, `TrimSteps`, `TrimRun`, `TrimRanges`,
   `TrimDensity`, `Diff3Lists`, `AlignFiles`).
4. **Merge** (`MergeEditLine.cpp`, `MergeEditLine.h`, `EncodedData.h`).  Each row gets a decision
   (`MergeRule`, `WhiteSpace`), rows are grouped into blocks that can be split, joined, chosen and written
   (`MergeLines`, `MergeBlocks`, `MergeTexts`, `MergeBlockLists`, `MergeResults`, `MergeKinds`,
   `MergeJoins`, `MergeFiles`).

Two predicates run through everything. `Alignment.Aligned` says that the unmarked elements of two
sequences are the same, in order; `RowEdits.Complete` says that the rows carry the lines 0 to n - 1 of an
input, each once and in order.  Each stage establishes or keeps them, and the end-to-end results compose
the stages: `DiffTwoFiles.Diff2Files` (the script turns file 0 into file 1 and is minimal on request),
`AlignFiles.AlignThree` (no line of any file is lost, doubled or moved; equal lines stand side by side in
as many rows as any alignment allows, if that is asked for; and aligned ranges start in one row), and
`MergeFiles.MergeChoosing` and `MergeFiles.MergeAutomatically` (choosing X everywhere writes the file X;
the automatic merge is the three-way rule applied row by row, with a default for conflicts in white space
if there is one, and without manual ranges merging a side that is the same file as A writes the other
side).

Arrays that the differ updates in place are arrays here, with one false sentinel at each end of the
`changed` flags, so flag i of the original is element i + 1.  `GNULINEREF_MAX` is the largest signed
64-bit number; that the files have fewer lines in total is a precondition, which keeps this sentinel apart
from positions.  A `std::list` that holds values is a sequence in a field of a class; its elements are
datatype values, and updating an element replaces it in the sequence.

## Findings

Properties that the code or its documentation suggests and that turned out not to hold, each with the
exact condition under which it does:

- The runtime check behind each equal run of the second alignment step (`src/diff.cpp:231`) fails when the
  rows end with a line of A that equals a line of C, or there are no rows, and C goes on: for A and B with
  the one line "x" and C with the lines "x" and "y" (`RowEdits.CheckFailsAtTheEnd`), or for A and B
  without lines.  It holds in all other cases (`Diff3Lists.Diff3LineList.CalcDiff3LineListUsingAC`,
  out-parameter `asserted`).
- Splitting the block list at a row behind the last one, as happens when the last row is part of the
  selection, fails an assertion or, without assertions, adds a block that was never filled in, so that the
  blocks no longer divide the rows.  The model shows what happens without assertions.  The split keeps the
  division exactly for rows in range (`MergeBlockLists.MergeBlockList.SplitAtDiff3LineIdx`).
- Choosing an input for all unsolved conflicts does not always solve them all, and as long as a block
  starts with a conflict the result cannot be saved.  Such a choice keeps the list as it was edited (a
  choice for everything builds it anew and always writes the input, `MergeFiles.ChooseEverywhere`).  A
  block that starts unsolved stays so exactly if it has no change, or if somebody typed into it
  (`MergeJoins.ChooseForUnsolved`).  Two neighbouring blocks without change that were joined are such a
  block: after the join and the choice it is unsolved, and its lines are missing from the text, exactly if
  neither of the two had a change (`MergeJoins.JoinThenSolve`; the halves of a block without change are
  such blocks, `MergeJoins.TwoUnchangedBlocks`).
- Removing lines without source drops an edited line exactly when the line before it has no source either,
  so of two edited lines in a row the second is lost (`MergeLines.EditedLineDropped`,
  `MergeLines.SecondEditedLineIsLost`); what is written stays the same exactly if nothing visible is
  dropped (`MergeLines.DroppingIsInvisible`).
- The differ and the alignment do not compare lines in the same way: the differ takes the low byte of a
  code unit where the alignment converts to Latin-1, and for the alignment an empty line equals nothing,
  not even another empty line, because an empty string compares equal to the null pointer at
  `src/diff.cpp:93`.  Lines that are equal for the alignment are equal for the differ; the converse fails
  in both ways (`Lines.SameEssenceIsNotAlignerEqual`).  A line compares in the same way with all lines
  that are not empty and in which no character is skipped by the differ alone exactly if it is such a line
  itself (`Lines.RelationsAgreeExactlyOnComparable`).  This is why flags are shown to be justified with
  respect to what the differ compares.
- The comment at `src/diff.cpp:789-790` says that after the second input the third one is moved up until
  all three first lines are aligned.  The code moves a further input only if the range has no line in it.
  Whenever the lines of each input are in order, all three first lines of a range share a row afterwards
  exactly if they shared one before; two of them always do (`Diff3Lists.Diff3LineList.CorrectEntry`).
  Complete rows in which the third line stands apart are `FirstLines.ThirdStaysApart`.

## Model

| member | source | states |
|---|---|---|
| EditDistance.FrontStep | src/gnudiff_analyze.cpp:89-169 | dropping one line at the start of a box changes the edit distance by at most one |
| EditDistance.BackStep | src/gnudiff_analyze.cpp:89-169 | the same at the end of a box |
| EditDistance.BackUnroll | src/gnudiff_analyze.cpp:148-169 | the distance, defined from the front, satisfies the same recurrence from the back |
| EditDistance.Triangle | src/gnudiff_analyze.cpp:115-166 | a way through a point costs at least the distance |
| EditDistance.DistShape | src/gnudiff_analyze.cpp:104-113 | the distance lies between the difference and the sum of the sizes and has their parity |
| EditDistance.TrimmedCostsTwo | src/gnudiff_analyze.cpp:344-352 | a box trimmed at both ends costs at least 2, so the cost 1 is impossible |
| EditDistance.ZeroMeansEqual | src/gnudiff_analyze.cpp:332-343 | distance 0 means equal sides |
| EditGrid.Box.Meet | src/gnudiff_analyze.cpp:132-138 | where the two searches overlap the costs add up to the distance and the point lies inside the box, although the reaches may overrun it |
| EditGrid.Box.OnTheWay | src/gnudiff_analyze.cpp:115-166 | from a point of a cheapest way on, each cost up to the distance is attained at a point of a cheapest way |
| Frontier.NextWindow | src/gnudiff_analyze.cpp:114-116 | widening and narrowing at the borders of the grid keeps the window of diagonals right for the next cost |
| ForwardSearch.FwdCoverNext | src/gnudiff_analyze.cpp:117-131 | after a round the stored reaches are sound and cover all points of its cost |
| ForwardSearch.ForwardPass | src/gnudiff_analyze.cpp:114-139 | one forward round keeps the frontier sound and complete, or reports an exact meeting point, and tells whether it followed a long snake |
| BackwardSearch.BwdCoverNext | src/gnudiff_analyze.cpp:144-158 | the same for points seen from the end |
| BackwardSearch.BackwardPass | src/gnudiff_analyze.cpp:141-166 | one backward round keeps the frontier sound and complete, or reports an exact meeting point, and tells whether it followed a long snake |
| MiddleSnake.ApartMeansMore | src/gnudiff_analyze.cpp:114-166 | if the frontiers do not overlap the distance exceeds the cost of both rounds |
| MiddleSnake.BigSnakeForward | src/gnudiff_analyze.cpp:183-214 | the point proposed is the live reach with the most progress among those far enough and behind a long snake, and lies strictly inside the box; none is proposed exactly if there is none |
| MiddleSnake.BigSnakeBackward | src/gnudiff_analyze.cpp:216-247 | the same for the backward search |
| MiddleSnake.ForwardBest | src/gnudiff_analyze.cpp:259-272 | no point that the rounds made can reach, with their parity, has a larger x + y than the best point, which lies inside the box and not in a corner |
| MiddleSnake.BackwardBest | src/gnudiff_analyze.cpp:274-287 | the same for the smallest x + y from which the end can be reached |
| MiddleSnake.Diag | src/gnudiff_analyze.cpp:89-307 | the split lies inside the box and is no corner, the cost is never 1; with `findMinimal`, and whenever the distance of the box is at most 402 or, without `speedLargeFiles`, at most twice the limit, the cost is the distance, the split lies on a cheapest way and both halves are to be minimal; otherwise the split may also be the live reach with the most progress behind a long snake, or, at the limit, the better of the furthest and the nearest point, with the half on the searched side to be minimal; the search goes on only while no such snake is due |
| Alignment.KeptConcat | src/gnudiff_analyze.cpp:323-360 | the unmarked elements of two parts are those of the whole |
| Alignment.DistIsLowerBound | src/gnudiff_diff.h:93-95 | no valid alignment marks fewer elements than the edit distance |
| Alignment.DistIsAttained | src/gnudiff_diff.h:93-95 | some valid alignment marks exactly as many |
| CompareSeq.MarkRange | src/gnudiff_analyze.cpp:335-341 | marks exactly the real lines of a range |
| CompareSeq.Slide | src/gnudiff_analyze.cpp:328-333 | trims equal lines at both ends and nothing else |
| CompareSeq.ComparedJoin | src/gnudiff_analyze.cpp:356-358 | two compared parts make a compared whole, minimal if the split is on a cheapest way |
| CompareSeq.CompareSeq | src/gnudiff_analyze.cpp:323-360 | terminates, marks only lines of its box, leaves unmarked lines that are pairwise equal in order; with `findMinimal`, for equal sides, and whenever the distance stays within the limits of the heuristics it marks exactly the edit distance; in every case the marks come from dividing the box at splits that the search may propose |
| CompareSeq.TracedKeeps | src/gnudiff_analyze.cpp:323-360 | such a division depends only on the flags of its own box, so that the halves make up the whole |
| DiscardLines.CountEquivs | src/gnudiff_analyze.cpp:395-403 | the table holds how often each code occurs |
| DiscardLines.MarkDiscards | src/gnudiff_analyze.cpp:410-436 | lines without match are discarded, lines with many matches provisionally |
| DiscardLines.ManyMatches | src/gnudiff_analyze.cpp:416-422 | the threshold is five times the power of two that the loop finds, which is the root of the file size by 64 up to a factor of two |
| ProvisionalDiscards.Minimum | src/gnudiff_analyze.cpp:489-498 | one more than the power of two that the loop finds, which is the root of a quarter of the length up to a factor of two |
| ProvisionalDiscards.CancelSubruns | src/gnudiff_analyze.cpp:500-509 | the loop that backs up its own index ends, and cancels exactly the provisional discards that belong to as many in a row as given |
| ProvisionalDiscards.ProcessRun | src/gnudiff_analyze.cpp:454-547 | of the provisional discards of a run exactly those survive that are rare in it, stand in no long subrun, and have on both sides three nonprovisional discards in a row or one at least 8 lines in |
| ProvisionalDiscards.CancelProvisional | src/gnudiff_analyze.cpp:438-549 | terminates; in the whole file exactly the provisional discards survive that survive in their run, the run being trimmed to nonprovisional ends |
| ProvisionalDiscards.RunsEndNonprovisional | src/gnudiff_analyze.cpp:438-440 | every run of discards begins and ends with a nonprovisional one |
| DiscardLines.Collect | src/gnudiff_analyze.cpp:551-566 | the real indexes ascend strictly and, with the lines marked now, partition the file |
| DiscardLines.AllTakePart | src/gnudiff_analyze.cpp:558-563 | with `minimal` each line takes part under its own number |
| DiscardLines.DiscardConfusingLines | src/gnudiff_analyze.cpp:374-570 | both files: exactly the lines without match, and the lines with many matches that survive in a run of discards, are left out and marked |
| FlagVector.KeptAt | src/gnudiff_analyze.cpp:582-675 | the line at a position is the unmarked element of its rank |
| FlagVector.SameRankEqual | src/gnudiff_analyze.cpp:582-675 | unmarked lines of equal rank in a valid alignment are equal |
| ShiftBoundaries.SlideKeeps | src/gnudiff_analyze.cpp:622-660 | moving a run over an equal line changes neither the unmarked codes nor the number of marks |
| ShiftBoundaries.ShiftOne | src/gnudiff_analyze.cpp:586-674 | terminates, keeps the unmarked codes and the count, never reads outside the sentinels, and leaves each run where it belongs: of the places that it can be moved to, at the last one beside a run of the other file, and if there is none as far down as possible |
| ShiftBoundaries.ShiftBoundaries | src/gnudiff_analyze.cpp:582-675 | a valid alignment becomes a valid alignment with the same unmarked codes and as many changed lines in each file, with each run of both files settled |
| EditScript.ReplayYieldsFile1 | src/gnudiff_diff.h:97-105 | replaying a script that describes the marks of an alignment turns file 0 into file 1 |
| EditScript.ScriptUnique | src/gnudiff_analyze.cpp:700-764 | ordered, disjoint hunks with equal gaps are determined by the marks |
| EditScript.BuildScript | src/gnudiff_analyze.cpp:736-764 | the hunks ascend, are disjoint, and the gaps between them match line by line |
| EditScript.BuildReverseScript | src/gnudiff_analyze.cpp:700-731 | the same hunks in opposite order |
| DiffTwoFiles.TooExpensive | src/gnudiff_analyze.cpp:804-809 | the limit is 256 or more, namely the power of two that quartering the input size finds, which is its root up to a factor of two |
| DiffTwoFiles.KeptVirtual | src/gnudiff_analyze.cpp:558-563 | the unmarked lines of the file are the unmarked ones of those that took part |
| DiffTwoFiles.MarkChanges | src/gnudiff_analyze.cpp:775-822 | discarding, comparing and sliding together give a valid alignment; of the lines that take part no more are marked than their distance demands as long as the heuristics stay out of play, so the result is minimal on request and for equal files; every run is settled |
| DiffTwoFiles.EconomicalIsMinimal | src/gnudiff_diff.h:93-95 | with `minimal`, and for equal files, all lines take part, and the number of marks is the edit distance |
| DiffTwoFiles.SizeIsMarked | src/gnudiff_analyze.cpp:736-764 | the script deletes and inserts exactly the marked lines |
| DiffTwoFiles.Diff2Files | src/gnudiff_analyze.cpp:767-840 | replaying the script on file 0 yields file 1; with `minimal` its size is the edit distance, and without it the size is the discarded lines and the distance of the others as long as the heuristics stay out of play; the marks come from discarding, dividing and sliding |
| DiffTwoFiles.MinimalScript | src/gnudiff_diff.h:93-95 | no valid alignment of the files changes fewer lines than a minimal script |
| DiffTwoFiles.BothScripts | src/gnudiff_analyze.cpp:700-764 | the forward script turns file 0 into file 1, and the reverse script is its reversal |
| Lines.LinesDiffer | src/gnudiff_io.cpp:75-122 | lines differ exactly if they differ in the characters that are not skipped |
| Lines.LineDataEqual | src/diff.cpp:91-123 | lines are equal exactly if neither is empty and they agree in what is not white space |
| Lines.AlignerEqualIsSameEssence | src/diff.cpp:91-123 | lines that are equal for the alignment are equal for the differ |
| Lines.SameEssenceIsNotAlignerEqual | src/gnudiff_io.cpp:91-103 | two pairs of lines that only the differ takes as equal: one with U+0120, and two empty lines |
| Lines.RelationsAgreeExactlyOnComparable | src/diff.cpp:104-113 | the relations agree between a line and all comparable lines exactly if the line is comparable: not empty, and with no character skipped by the differ alone |
| LineCoder.HashLine | src/gnudiff_io.cpp:174-197 | the hash depends only on what the differ does not skip |
| LineCoder.NoClassYet | src/gnudiff_io.cpp:203-246 | the hash pre-filter never separates equal lines |
| LineCoder.AddClass | src/gnudiff_io.cpp:208-220 | a new class keeps the bucket chains acyclic and complete |
| LineCoder.Coder.Encode | src/gnudiff_io.cpp:199-246 | the code stands for the line's class, and a new class is made exactly if there was none |
| LineCoder.Coder.EncodeFile | src/gnudiff_io.cpp:127-270 | each line of a file gets the code of its class |
| LineCoder.EncodeBoth | src/gnudiff_io.cpp:506-540 | two lines of either file have the same code exactly if they agree in what is not skipped |
| DiffLists.CoversTotals | src/diff.cpp:708-722 | a list that covers both sides has the right totals |
| DiffLists.CoversIsAligned | src/diff.cpp:617-699 | a list that covers both sides is a valid alignment of them |
| DiffLists.ScriptToDiffs | src/diff.cpp:656-672 | the entries cover the files up to the last change and mark the lines that the script marks, the counters agree, and the rest is equal |
| DiffLists.EndsCostNothing | src/gnudiff_io.cpp:320-485 | cutting off equal ends does not change the edit distance |
| DiffLists.AddEnds | src/diff.cpp:681-698 | adding the equal ends completes the coverage |
| DiffLists.RunDiff | src/diff.cpp:617-704 | the list covers both files, with exact totals, and marks exactly the lines that the differ marks between some equal ends; with `minimal`, or for equal files, as few as any alignment; without text it is one entry |
| DiffLists.MadeIsMinimal | src/diff.cpp:617-704 | with `minimal`, and for equal files, a list of this kind leaves exactly as many lines unpaired as the edit distance demands |
| ManualDiffHelp.ValidMoveMeansSameSides | src/diff.cpp:582-602 | a move is valid exactly if the two lines lie on the same side of all borders of all ranges |
| ManualDiffHelp.RunEntry | src/diff.cpp:734-758 | both counters stand on the borders of a range together |
| ManualDiffHelp.RunWindow | src/diff.cpp:734-743 | the list of one window covers it and marks the lines that the differ marks for codes that are equal exactly for equal lines |
| ManualDiffHelp.RunManualDiff | src/diff.cpp:725-762 | the totals are the sizes of the files, the list can be cut at each border, so no equal run crosses one, and between two borders it is what the differ makes of the window; without ranges `minimal` leaves no more lines unpaired than any alignment of the files, and equal files leave none |
| Windows.WindowMinimal | src/diff.cpp:734-762 | with `minimal` no alignment of the lines of a window leaves fewer lines unpaired |
| Diff3Lines.ExactMeansEqual | src/diff.cpp:91-123 | exact flags say which lines of a row are equal for the alignment |
| Diff3Lines.PresentMove | src/diff.cpp:966-1169 | moving a line up over rows without line of that input keeps the input's order |
| Diff3Lines.RemoveEmptyKeeps | src/diff.cpp:1191 | removing empty rows loses no line |
| RowEdits.CompleteInFiles | src/diff.cpp:1572-1618 | complete rows name only lines of the files |
| RowEdits.StageNext | src/diff.cpp:132-198 | a further row continues A and B and tells exactly which lines are equal |
| RowEdits.NextRow | src/diff.cpp:217-220 | while a line of A is still to come the cursor is not at the end, and the row at hand carries this line or none |
| RowEdits.SecondFill | src/diff.cpp:222-229 | joining a line of C keeps A and B, continues C, and justifies the flags set |
| RowEdits.SecondInsert | src/diff.cpp:233-255 | a row of its own for a line of C disturbs nothing |
| RowEdits.EndReached | src/diff.cpp:231 | when the runtime check behind an equal run holds |
| RowEdits.CheckFailsAtTheEnd | src/diff.cpp:231 | concrete rows for which it fails |
| Diff3Lists.Diff3LineList.CalcDiff3LineListUsingAB | src/diff.cpp:132-197 | A and B complete and in order, flags exactly for the equal lines of the list and justified, as many rows as the list asks for |
| Diff3Lists.Diff3LineList.FindRow | src/diff.cpp:217-220 | the search for a line of A never reaches the end of the list |
| Diff3Lists.Diff3LineList.CalcDiff3LineListUsingAC | src/diff.cpp:200-257 | A and B kept, C complete and in order, flags exactly for the equal lines and justified, one row per line of C that equals none of A, and when the runtime check holds |
| FirstLines.FirstIn | src/diff.cpp:794-800 | the first input, in the order A, B, C, whose range starts in the row |
| RowMoves.MoveOthers | src/diff.cpp:817-850 | moving two inputs up loses and reorders nothing, keeps their flag, and leaves justified flags |
| RowMoves.MoveOne | src/diff.cpp:884-916 | the same for one input; the flag of the two that stay is kept |
| RowMoves.JoinRow | src/diff.cpp:853-877 | the same for a line that joins the row it is aligned with |
| FirstLines.ThereIfComplete | src/diff.cpp:792-803 | in complete rows every first line of a range inside the files is found |
| FirstLines.SearchOn | src/diff.cpp:810-851 | a row without a second first line: both others move up, and nothing before the range is separated |
| FirstLines.JoinKeeps | src/diff.cpp:853-877 | joining the found line separates no lines before the range |
| FirstLines.MetKept | src/diff.cpp:771-923 | two first lines of a range that share a row still do after the correction for a later range |
| FirstLines.ThirdStaysApart | src/diff.cpp:789-790 | complete rows with the first lines of all three inputs, which do not share a row |
| Diff3Lists.Diff3LineList.MoveMissing | src/diff.cpp:879-919 | which lines of the input without range get rows of their own, in front of which row, and where the move stops |
| Diff3Lists.Diff3LineList.CorrectEntry | src/diff.cpp:770-923 | for any range no line is lost or reordered and flags stay justified; two of the first lines share a row whenever two of them are there, both of them if the range has two; all three share a row exactly if they did before; lines before the range that share a row still do; from there on no line of an input without range is left before one that counts as equal |
| Diff3Lists.Diff3LineList.CorrectManualDiffAlignment | src/diff.cpp:764-924 | for any list no line is lost or reordered and flags stay justified; for successive ranges two first lines of each range that is reached share a row in the end; in the last range the input without lines has left the rows; without ranges nothing changes |
| TrimRules.MatchingJustified | src/diff.cpp:966-1013 | the first kind of move keeps the flags of both rows justified |
| TrimRules.UnmatchedExact | src/diff.cpp:1015-1079 | the second kind of move keeps exact flags exact |
| TrimRules.PairExact | src/diff.cpp:1081-1169 | the third kind of move keeps exact flags exact |
| Twins.UnmatchedTwin | src/diff.cpp:1015-1079 | moves 4 to 6 keep two inputs side by side that no line of the third tells apart, with the same flags towards the third |
| Twins.PairTwin | src/diff.cpp:1081-1169 | the same for moves 7 to 9 |
| Twins.TwinsStart | src/diff.cpp:200-257 | if the comparison with A leaves no line unpaired the two inputs stand side by side in every row |
| TrimSteps.MatchingStep | src/diff.cpp:966-1013 | moves 1 to 3 keep each input, the flags, the other inputs' room and inputs with the same text together |
| TrimSteps.UnmatchedStep | src/diff.cpp:1015-1079 | the same for moves 4 to 6 |
| TrimSteps.PairStep | src/diff.cpp:1081-1169 | the same for moves 7 to 9 |
| Pairs.PairCountTold | src/diff.cpp:132-257 | two inputs are shown equal in as many rows as the list of differences leaves lines paired |
| Pairs.MoveKeepsPairs | src/diff.cpp:966-1169 | a move after which two rows show each pair at least as often as before shows no pair in fewer rows of the list |
| TrimRanges.RangesNext | src/diff.cpp:944-964 | at the row of a range that the pass expects nothing moves up, so first lines that share a row stay together |
| TrimDensity.UnmatchedDensity | src/diff.cpp:1015-1079 | moves 4 to 6 put a line directly below a line of its input |
| TrimDensity.PairDensity | src/diff.cpp:1081-1169 | moves 7 to 9 put a pair directly below a line of one of its inputs, and no flag stays behind |
| TrimDensity.PackedRest | src/diff.cpp:1191 | removing empty rows keeps lone lines below a line of their input, and lone pairs below a line of one of theirs |
| Diff3Lists.NoneLeftOver | src/diff.cpp:1191 | no row without lines keeps a flag, so all of them are removed |
| Diff3Lists.Diff3LineList.TrimMatching | src/diff.cpp:966-1013 | when moves 1 to 3 are made and what they do, with the cursor on the next row that has room |
| Diff3Lists.Diff3LineList.TrimUnmatched | src/diff.cpp:1015-1079 | when moves 4 to 6 are made and what they do; without ranges a lone line stays only if there is no room above |
| Diff3Lists.Diff3LineList.TrimPair | src/diff.cpp:1081-1169 | when moves 7 to 9 are made and what they do; without ranges a lone pair leaves no flag behind |
| Diff3Lists.Diff3LineList.CalcDiff3LineListTrim | src/diff.cpp:927-1192 | the nine moves on one row after the other; they lose, double and reorder nothing for any ranges; justified flags stay justified, exact flags exact for the equality of the alignment, and no pair of inputs is shown equal in fewer rows; no row without lines remains; without ranges each lone line stands directly below a line of its input and each lone pair below one of one of its inputs; inputs with the same text that stand side by side stay so; first lines of a range that share a row stay together |
| AlignFiles.DebugLineCheck | src/diff.cpp:1572-1618 | the data loss check passes exactly if the input is complete and in order |
| AlignFiles.AlignThree | src/pdiff.cpp:222-265 | from three files to rows: each line of each file once and in order, justified flags, no empty row; without ranges lone lines and lone pairs are packed, a file with the text of A stands beside A in every row, and A is shown equal to B, and to C, in as many rows as the differ pairs lines, with `minimal` as many as any alignment does; the first lines of successive ranges in two inputs share a row |
| CharDiff.FindMatch | src/diff.cpp:1257-1297 | the nearest strict match in the search range, and of those the one nearest in the first line, or none |
| CharDiff.OnlyOneNearest | src/diff.cpp:1257-1297 | there is only one such match |
| CharDiff.Farther | src/diff.cpp:1300-1316 | behind a match lies more than before it, which makes the loop end |
| CharDiff.DiffList.NextEntry | src/diff.cpp:1249-1325 | one more entry with a truly equal run, leading strictly farther |
| CharDiff.DiffList.Redo | src/diff.cpp:1342-1385 | going back takes exactly the matched characters off the list, as `Undone` says, never empties it, and does not touch a finished list |
| CharDiff.DiffList.CalcDiff | src/diff.cpp:1233-1408 | terminates, after exactly the passes that follow the equal characters, take the nearest match and go back; equal runs are equal character by character; both lines are covered unless the cap is hit, which takes lines of three times its size; no entry ends behind characters that still match, and the last differences hold no strict match |
| CharDiff.DiffList.Optimize | src/diff.cpp:1410-1432 | which short runs are dissolved |
| CharDiff.OptimizedShows | src/diff.h:134-142 | no run of four or more equal characters is dissolved, and afterwards a shorter one stands with differences only if there is such a run |
| CharDiff.RefinedCovers | src/diff.h:134-142 | dissolving runs keeps the coverage |
| Mergers.MergeData.Update | src/merger.cpp:46-60 | one step takes one character off what is still to come |
| Mergers.Reports | src/merger.cpp:34-44 | equal exactly if the character at hand is in no difference; the end exactly if none is left |
| Mergers.Merger.Next | src/merger.cpp:62-66 | both lists advance by one character |
| Mergers.CharChanged | src/difftextwindow.cpp:1141-1149 | for each character whether it lies in a difference of either list, in exactly as many steps as there are characters, after which the merger reports its end and not before |
| Mergers.CoversFitLengths | src/merger.cpp:17-32 | the lists of the character differ fit the lines |
| FineDiffs.FineDiffRow | src/diff.cpp:1434-1499 | a list of differences exactly for two lines with different texts, namely that of the character differ made fit for display, and what happens to the flag and the result |
| FineDiffs.ComparedOnly | src/diff.cpp:1434-1499 | lines and the other pairs are left alone |
| Diff3Lists.Diff3LineList.FineDiff | src/diff.cpp:1542-1556 | all rows, and whether all texts are the same |
| TextComparison.CompareAllTexts | src/pdiff.cpp:268-304 | after all three comparisons each row knows exactly which texts differ, has the flags it had and those of lines that count as empty, and the results tell whether two inputs agree in each row |
| Diff3Lists.Diff3LineList.CalcWhiteDiff3Lines | src/diff.cpp:1216-1227 | each row knows which inputs have no line or a blank one there |
| WhiteSpace.JudgedRow | src/pdiff.cpp:222-348 | in the end a flag is set only for lines that agree in what is compared or both count as empty, always for the latter, and the flags for white lines are exact |
| MergeRule.MergeOneLine | src/MergeEditLine.cpp:79-201 | the decision by what B and C did to A; no assertion fails |
| MergeRule.DecideIsThreeWay | src/MergeEditLine.cpp:111-201 | the decision is the rule that an equal pair wins and three different texts conflict, for lines and missing lines alike |
| MergeRule.DecideIsTwoWay | src/MergeEditLine.cpp:87-108 | with two inputs only equal lines are taken over |
| MergeRule.UnchangedSideGivesOther | src/MergeEditLine.cpp:111-201 | a side that left the row as in A gives way to the other side |
| MergeKinds.DetailsTell | src/MergeEditLine.cpp:111-201 | what the details say in terms of the three texts, and which input is taken |
| MergeKinds.SameKindTells | src/MergeEditLine.cpp:63-75 | a row joins a block exactly if the same input is taken for it, with lines added by both sides apart, or if both are conflicts with the same equalities |
| MergeLines.WriteLines | src/EncodedData.h:59-82 | the output consists of the visible lines with line feeds between them |
| MergeLines.RemoveEmptySource | src/MergeEditLine.cpp:319-341 | which lines are kept |
| MergeLines.DroppingIsInvisible | src/MergeEditLine.cpp:319-341 | the written text stays the same exactly if nothing visible is dropped |
| MergeLines.EditedLineDropped | src/MergeEditLine.cpp:333-335 | when an edited line is dropped |
| MergeLines.SecondEditedLineIsLost | src/MergeEditLine.cpp:333-335 | concrete lines of which one is lost |
| MergeBlocks.DivisionSums | src/MergeEditLine.cpp:205-252 | the lengths of the blocks add up to the number of rows |
| MergeBlocks.Split | src/MergeEditLine.h:126-157 | the two halves of a block |
| MergeBlocks.FreshSplit | src/MergeEditLine.h:126-157 | halves of a fresh block keep one line per row, or one line per conflict |
| MergeBlocks.DivisionJoin | src/MergeEditLine.h:159-168 | joining neighbours keeps the division of the rows |
| MergeTexts.CompleteText | src/MergeEditLine.cpp:25-62 | complete rows carry the whole text of an input |
| MergeTexts.ChosenSays | src/MergeEditLine.cpp:278-305 | choosing an input makes a block say what this input has there |
| MergeTexts.UnchangedSays | src/MergeEditLine.cpp:205-252 | a block without change says what each input has there |
| MergeBlockLists.MergeBlockList.BuildFromDiff3 | src/MergeEditLine.cpp:205-252 | the blocks divide the rows, are as long as possible and of one kind, with one line per row without conflict and one per conflict, and are white-space conflicts exactly if all their rows are; what kind and white space mean in terms of the texts is `MergeKinds.GroupedIsRuns` and `MergeKinds.WhiteSpaceTells` |
| MergeKinds.GroupedIsRuns | src/MergeEditLine.cpp:205-252 | the blocks are the longest runs of rows of one kind |
| MergeKinds.WhiteSpaceTells | src/MergeEditLine.cpp:308-317 | the lines of a conflict in white space agree in what is compared, or count as empty, in all inputs, or are blank in all of them; a conflict whose lines are marked equal in all inputs, or are blank in all, is one |
| MergeBlockLists.MergeBlockList.SplitAtDiff3LineIdx | src/MergeEditLine.cpp:344-372 | for rows in range the block at the returned place starts at the row, the division, freshness and all texts are kept; for others the division is lost |
| MergeBlockLists.MergeBlockList.JoinNext | src/mergeresultwindow.cpp:1337-1350 | the division is kept, and soundness exactly if one block has a change |
| MergeBlockLists.MergeBlockList.UpdateDefaults | src/MergeEditLine.cpp:257-306 | the new state of each block; choosing an input everywhere makes each block say what the input has |
| MergeBlockLists.MergeBlockList.RemoveEmptySources | src/mergeresultwindow.cpp:343-347 | the text stays the same if nothing visible is dropped |
| MergeBlockLists.MergeBlockList.Write | src/EncodedData.h:54-86 | the lines of all blocks joined by line feeds |
| MergeBlockLists.MergeBlockList.NumberOfUnsolvedConflicts | src/mergeresultwindow.cpp:706-724 | how many blocks start with a conflict |
| MergeResults.ListText | src/mergeresultwindow.cpp:338-347 | the text after a run: for blocks that the choice reaches what the input has there, for others what they said without their dropped lines |
| MergeResults.SolvedIfReached | src/MergeEditLine.cpp:257-306 | choosing an input solves the conflict of each block that it reaches and of no other |
| MergeResults.TypedTextStays | src/MergeEditLine.cpp:257-275 | a choice for conflicts or white space only leaves blocks into which somebody typed, and blocks without change, as they are |
| MergeResults.Merge | src/mergeresultwindow.cpp:294-347 | a run: new blocks unless only conflicts are to be solved, the choice made by the parameters and the default for white space, and no line without source left |
| MergeJoins.ChooseForUnsolved | src/mergeresultwindow.cpp:893-902 | the list is kept; which blocks stay unsolved, and the text block by block |
| MergeJoins.JoinedStuck | src/MergeEditLine.h:159-168 | a joined block is out of reach for such a choice exactly if neither of the two blocks had a change |
| MergeJoins.TwoUnchangedBlocks | src/MergeEditLine.h:126-168 | two rows in which all inputs agree, the block made of them, and its halves, whose join stays unsolved and says nothing |
| MergeJoins.JoinThenSolve | src/mergeresultwindow.cpp:1337-1359 | after a join and a choice for all unsolved conflicts the joined block is unsolved and says nothing exactly if neither block had a change; if nobody typed into the result this decides whether a conflict is left |
| MergeFiles.FreshSolved | src/mergeresultwindow.cpp:318-347 | a fresh block says what the default for white space gives if it is a white-space conflict, and otherwise what the three-way rule gives row by row |
| MergeFiles.ConflictsAgree | src/MergeEditLine.cpp:205-252 | a fresh block is in conflict exactly if a row is |
| MergeFiles.WinnerTakesAll | src/MergeEditLine.cpp:111-201 | if one input wins in each row the merge of the rows is this input, without conflict |
| MergeFiles.ChooseEverywhere | src/mergeresultwindow.cpp:312-347 | whatever the list was before, it is built anew, and choosing an input that takes part writes exactly its lines |
| MergeFiles.AutoMerge | src/mergeresultwindow.cpp:312-347 | the output is what the three-way rule gives row by row, conflicts giving nothing, except that blocks that conflict in white space only follow their default; conflicts are reported exactly if there are others, and a conflict of lines that neither agree in what is compared nor are blank stays for each default; if B is as A in each row the output is C, and if C is as A it is B |
| MergeFiles.BlankConflictSolved | src/mergeresultwindow.cpp:318-338 | a conflict of rows that are all blank, or marked equal in all inputs, is solved by the default |
| MergeFiles.MergeChoosing | src/pdiff.cpp:222-348 | from three files to the output: choosing X writes the file X |
| MergeFiles.MergeAutomatically | src/pdiff.cpp:222-348 | from three files to the output: without manual ranges, if the files A and B are the same the output is C without conflict, and likewise for C; for any ranges the output is the merge of complete rows by the three-way rule, with the default for blocks that conflict in white space only; conflicts of lines that neither agree in what is compared nor are blank stay; A and B are reported equal exactly if they agree in every row |

## Left out

- The third alignment step, `calcDiff3LineListUsingBC`: the program's own check excludes it, and it reuses one row object across insertions.
- `ManualDiffHelpList::insertEntry`: the ranges are taken as ascending in both files, which `RunManualDiff` requires.
- `find_identical_ends`: `DiffLists.FindIdenticalEnds` leaves open which equal ends are cut off; all results hold for each choice.
- The `ignore_case` branches of the differ, which KDiff3 never switches on.
- Memory management, the growth of line tables, and lines with exactly overflowing counts: integers are unbounded, and the number of lines is bounded by a precondition.
- `isspace` depends on the C locale; the model uses the six characters of the default locale.  Which code units are digits is a parameter.
- Strings are sequences of UTF-16 code units; encoders, byte order marks and encoding errors of the output are not part of the model.
- The nine moves of the compacting pass are written as three kinds of moves with the inputs as parameters.
- Rows, blocks, lines of the result and entries of difference lists are values in sequences: aliasing through list iterators is not captured, positions stand for iterators.
- How the user interface edits lines of a block (`choose`, typing, undo), the question before edits are lost, history merging and regular expressions.
- File decoding, preprocessors, comment parsing, directory merge, options and all widgets.
- CharDiff.DiffList.CalcDiff: the cap of 50 MB is a number of entries here, a parameter.
