# Verified models of the edit, read, operation, idempotency and observation cores

The repository lets remote agents change files and run long operations in a
workspace.  Six of its parts decide whether that is safe, and each is modelled
here in the form its Go code has and proved against an independent statement of
what it is for.

- **Diffs.** The Myers search, backtracking, hunks, the unified-diff printer and
  the two readers of printed diffs (`EditScript`, `Myers`, `Hunks`, `DiffText`,
  `UnifiedDiff`, `PatchFile`, `DiffReaders`, `DiffRoundTrip`, `DiffLocations`,
  `DiffGuarantees`).
- **Byte formats.** UTF-8 and UTF-16, byte-order marks and mixed line endings:
  what decoding accepts and what encoding gives back (`Text`, `Unicode`,
  `LineEndings`, `TextFormat`).
- **Windowed reading.** The one-pass UTF-16 state machine and the line-wise UTF-8
  reader, against windows of the whole decoded text (`Windows`, `WindowReader`,
  `Utf8Reader`, `Utf8Windows`, `Reading`).
- **Batch edits.** Simultaneous replacements, line ranges, and the batch that
  plans everything, checks everything again, and then writes (`Replacements`,
  `LineRanges`, `BatchPlan`, `Batch`, `BatchLaws`, `BatchCommit`).
- **Operations.** A DAG of steps on a worker pool, with confirmation waits,
  cancel, resume and restart, as a transition system over every interleaving
  (`SpecValidation` and the `Operation...` modules).
- **Delivery protocols.** Idempotent claims on one key (`Idempotency...`) and the
  observer's history-then-live stream across reconnects (`Observation...`,
  `Observer...`).

A Go object whose methods update its fields is a class; a Go loop is a loop with
invariants.  Each method is tied to a function of its inputs or of the old state,
and the promises are lemmas about that function.  In the three protocols the
class methods and the transition system use the same functions, one per SQL
statement, locked section or frame.

Where the code does not keep a promise on all inputs, the model keeps the code's
behaviour and a lemma says exactly when the promise holds, or gives a complete
run that breaks it:

- one `reconcile` skips only one level of dependants, so a chain A, B, C whose A
  fails leaves the operation running for ever; a submission can be stranded so if and
  only if its dependency relation is not transitively closed (`StrandsExactlyWhen`);
- the diff readers take a removed line starting with `-- `, or an added line
  starting with `++ `, for a file header (`ReportedCountsAreParsed`, `HeaderLikeLineIsLost`);
- an edit of a file with mixed endings may write a CR, an empty line and an LF,
  which reads back as one line end (`EditReadsBackExactlyWhen`,
  `EmptiedLineCollapses`);
- a UTF-8 read reports an unknown mark when its four-byte prefix cuts a character
  (`FormatAgreesExactlyWhen`, `CutInsideACharacter`);
- the UTF-8 reader adds a newline to a file that ends in a lone CR, and splits
  lines at LF only (`ReadPagesMakeTheText`, `LoneCRGainsANewline`);
- two callers can own one idempotency key when a claim stalls for a whole lease,
  acquires the key while an `Abandon` has deleted the row but not released the
  flight, or when a caller that was answered in doubt fails to mark the row while
  another owner's flight stands (the six `...HasTwoOwners` runs, one for each
  assumption of a calm run);
- an observer whose buffer overflows misses the event if a later one is sent before
  the gap is taken (`OverflowLosesAnEvent`), and a backlog above the history limit
  is cut (`LongBacklogLosesAnEvent`);
- a batch whose paths have blanks around them is planned under the trimmed paths and
  then refused (`UndisturbedPassesExactlyWhen`, `PaddedPathIsStale`);
- a process that dies between the two statements of a cancel can leave an operation
  waiting for a confirmation that no step asks for (`CutCancelWaitsForNothing`).

## Model

| member | source | states |
|---|---|---|
| EditScript.DistanceIsLowerBound | internal/edit/diff.go:178-210 | no script from a prefix of `a` to a prefix of `b` has fewer changes than the recursive edit distance of the prefixes |
| EditScript.KeptIsCommon | internal/edit/diff.go:178-210 | the lines any script keeps are a common subsequence of its two texts |
| EditScript.CommonIsKept | internal/edit/diff.go:178-210 | every common subsequence of two texts is what some script between them keeps |
| Myers.BeyondEntryLinesMatch | internal/edit/diff.go:186-205 | on a diagonal, every point between the entry from the previous round and the furthest point of this round lies on equal lines, so the greedy slide never stops early, also outside the grid |
| Myers.Advance | internal/edit/diff.go:186-200 | one diagonal step returns the furthest point on it with at most `distance` changes |
| Myers.Round | internal/edit/diff.go:183-207 | a round that reports the end has met exactly the corner at the true distance; otherwise the distance is larger and the new frontier is furthest on every diagonal |
| Myers.LineDiff | internal/edit/diff.go:178-210 | a script is always returned; it turns `a` into `b`, no other script between them is shorter, none keeps more lines, and its change count is `n + m - 2 * LCS` |
| Myers.ShortestKeepsLongest | internal/edit/diff.go:178-210 | a script of distance length is shortest among all scripts and keeps a longest common subsequence |
| Myers.StepBack | internal/edit/diff.go:217-240 | backtracking moves from a furthest point of one round to a furthest point of the round before and adds one change and the equal lines between them |
| Myers.Backtrack | internal/edit/diff.go:212-256 | from the recorded frontiers it reconstructs a script from `a` to `b` with one change per round; every index is in range |
| Myers.ReverseInPlace | internal/edit/diff.go:252-254 | the swapping loop reverses the script |
| Hunks.ContextualHunks | internal/edit/diff.go:125-151 | hunks are ordered and separated by at least one operation, and hold exactly the operations within the context distance of a change |
| Hunks.NearbyChangeIsInside | internal/edit/diff.go:134-148 | a change within the context distance of a line of a hunk is in that hunk |
| Hunks.HunkEdgesAreNearChanges | internal/edit/diff.go:134-148 | a hunk starts and ends at most the context distance from one of its own changes |
| Hunks.LineNumbers | internal/edit/diff.go:70-85 | at each operation the two counters are one more than the old and new lines before it |
| Hunks.DescribeHunk | internal/edit/diff.go:89-115 | starts and counts follow the GNU convention, zero counts included |
| Hunks.PatchGivesNewText | internal/edit/diff.go:58-123 | a patch program that trusts only the printed starts, counts and lines turns the old lines into the new lines |
| DiffText.ValueOfDecimal | internal/edit/diff.go:115 | the printed decimal of a number reads back as that number |
| DiffText.RenderDiff | internal/edit/diff.go:58-123 | the text is the two headers and the described hunks of a grouping with three lines of context, the count is the number of changes, and nothing is printed for no change |
| Text.NormalizeIsLogical | internal/edit/diff.go:273-276 | replacing CRLF and then CR by LF in two passes equals the one-pass normalization, and leaves no CR |
| Text.MarkIsStripped | internal/edit/apply.go:553-555 | exactly one leading U+FEFF is taken off |
| Text.BlankExamples | internal/operation/service.go:946 | tabs, line ends and Unicode spaces are blank; letters, digits and U+FEFF are not |
| UnifiedDiff.TextIsItsLines | internal/edit/diff.go:258-280 | two normalized texts are equal exactly when their lines and their final-newline flags are |
| UnifiedDiff.LastLineReplaced | internal/edit/diff.go:21-34 | a change of only the final newline is shown as a script of two changes that keeps the lines |
| UnifiedDiff.UnifiedDiff | internal/edit/diff.go:10-49 | the diff is empty exactly when the normalized texts are equal; otherwise it prints a script between their lines, shortest when the lines differ, and the count is zero, two for a change of only the final newline, or the edit distance of the lines |
| UnifiedDiff.DiffIsAPatch | internal/edit/diff.go:10-123 | the hunks that `UnifiedDiff` prints, as records of their starts, counts and lines, patch the lines of the old text into the lines of the new text |
| PatchFile.DecimalSample | internal/edit/diff.go:115 | numbers are printed in base ten |
| PatchFile.HeaderIsRead | internal/edit/diff.go:115 | a patch program's header reader recovers all four numbers of a printed hunk header |
| PatchFile.PrintedIsRead | internal/edit/diff.go:87-122 | read line by line with only the counts of its own headers, a printed diff gives back its path, its hunks and its remark on the final newline |
| DiffGuarantees.DiffTextIsAPatch | internal/edit/diff.go:10-123 | the text that `UnifiedDiff` returns, read by a patch program, names the file, remarks on exactly a changed final newline, and turns the old lines into the new lines |
| DiffReaders.CountChangedLines | internal/edit/diff.go:154-171 | the counting loop equals a line-by-line definition |
| DiffReaders.ParseDiffDocument | internal/observation/diff.go:75-140 | the parser's loop equals folding one line at a time over the reader's counters, with 64-bit wrap-around of line numbers |
| DiffRoundTrip.HeaderReads | internal/observation/diff.go:84-92 | the parser recovers both starts from a printed hunk header |
| DiffRoundTrip.HunksHoldAllChanges | internal/edit/diff.go:125-151 | summed over the hunks, any kind of change occurs as often as in the whole script |
| DiffRoundTrip.CountsReadBack | internal/observation/diff.go:75-132 | for every printed diff both readers report exactly the changes that do not look like file headers |
| DiffRoundTrip.CountsSurviveExactlyWhen | internal/edit/diff.go:154-171 | both readers agree with the printer's counts if and only if no removed line starts with `-- ` and no added line with `++ ` |
| DiffLocations.LocatedLineIsThere | internal/observation/diff.go:113-129 | a located line's number indexes that very line in the old or the new text |
| DiffLocations.NumbersIndexTheirLines | internal/observation/diff.go:75-132 | without header-like lines, the parser locates every body line of the printed diff at the operation it was printed from |
| DiffGuarantees.ReportedCountsAreParsed | internal/edit/diff.go:154-171 | for the diff of any two texts both readers count what `UnifiedDiff` reported if and only if no change looks like a file header; texts without lines that start so are safe |
| DiffGuarantees.HeaderLikeLineIsLost | internal/edit/diff.go:160-162 | for an old text of one line that starts with two dashes and a blank, and a new text of one line, the printer reports two changes and both readers count one |
| DiffGuarantees.ParsedLinesAreThere | internal/observation/diff.go:75-132 | each numbered line the parser makes of the diff of two texts stands at that number in the old or the new text |
| Unicode.Utf8RoundTrip | internal/edit/write.go:66-74 | every text encodes to valid UTF-8 (section 3 of RFC 3629) that decodes to it |
| Unicode.Utf8Examples | internal/edit/write.go:66-74 | the published examples of section 7 of RFC 3629 encode as printed there |
| Unicode.Utf8IsCanonical | internal/file/read.go:305-314 | valid UTF-8 is the encoding of what it decodes to |
| Unicode.NeighboursSuffice | internal/file/read.go:327-338 | looking at each surrogate's neighbour accepts exactly the well-paired unit strings (section 2.2 of RFC 2781) |
| Unicode.Utf16RoundTrip | internal/edit/write.go:147-154 | every text encodes to well-paired units (section 2.1 of RFC 2781) that decode to it |
| Unicode.Utf16Examples | internal/edit/write.go:147-154 | the published surrogate pair of section 5 of RFC 2781 is encoded as printed there, in both byte orders |
| Unicode.Utf16IsCanonical | internal/file/read.go:339-340 | well-paired units are the encoding of what they decode to |
| Unicode.BytesReadBack | internal/file/read.go:323-326 | an even byte string is rebuilt from its units in either byte order |
| LineEndings.ObserveLineEndings | internal/file/read.go:610-624 | the counting loop adds the numbers of CRLF, LF and CR endings of the bytes to the three counters |
| LineEndings.CollectEndings | internal/edit/write.go:119-135 | the loop collects the line endings of the bytes in order |
| LineEndings.MixNamesTheEndings | internal/file/read.go:626-650 | the reported name is a single kind exactly when all endings are of it, `none` exactly without endings, `mixed` exactly when two differ |
| LineEndings.EndingsOfEncoded | internal/file/read.go:346-352 | line endings of the UTF-8 bytes are those of the text |
| LineEndings.TextIsWoven | internal/edit/write.go:100-115 | every text is its normalized lines woven with its own endings |
| LineEndings.LinesReadBackExactlyWhen | internal/edit/write.go:100-115 | lines woven with any endings read back as the same lines if and only if no CR, empty line, LF occurs in the weave |
| TextFormat.DecodeText | internal/file/read.go:302-344 | the loops decide and decode as the specification does: charset by mark, then validity of the body |
| TextFormat.EncodeUtf16 | internal/edit/write.go:147-154 | the buffer holds the bytes of the text's units in the given order |
| TextFormat.EncodeWithOriginalFormat | internal/edit/write.go:89-117 | mixed files reuse separators by position and then the last one, uniform files their ending; then charset and mark |
| TextFormat.NoOpIsExact | internal/edit/write.go:58-154 | for every content that decodes, encoding its own normalized text with its own format gives the original bytes |
| TextFormat.EditReadsBackExactlyWhen | internal/edit/write.go:58-154 | for every content and every edited text, the written file decodes, and reads back as the edited text if and only if the text has no CR, does not lose a leading mark character and no endings collapse |
| TextFormat.EndingsAreReused | internal/edit/write.go:100-115 | read back, a surviving edit has the original's endings by position and behind them the original's last one, LF if there was none |
| TextFormat.EmptiedLineCollapses | internal/edit/write.go:100-116 | in a file with a CR and then an LF, emptying the line between them writes CRLF, which reads back with a line less |
| TextFormat.UniformNeverCollapses | internal/edit/write.go:58-92 | in a file without mixed endings no two written endings merge |
| Windows.LengthIsBytes | internal/file/read.go:451-455 | summed code-point lengths are the length of the UTF-8 encoding |
| Windows.FitIsLongest | internal/file/read.go:393-417 | the budgeted text is the longest prefix, cut at a code point, that fits the budget |
| Windows.WindowIsLines | internal/file/read.go:428-466 | what the character-wise reader shows is the concatenation of the selected lines |
| Windows.PagesMakeTheText | internal/file/read.go:381-546 | windows at line offsets 0, L, 2L, ... concatenate to the whole normalized text |
| Windows.OffsetFitsExactlyWhen | internal/file/read.go:418-466 | an in-line byte offset is accepted if and only if its line exists and the offset is a code-point boundary within it |
| Windows.OffsetDropsItsBytes | internal/file/read.go:418-466 | reading at a boundary offset gives the unbudgeted window without its first that many bytes |
| WindowReader.Utf16Window.constructor | internal/file/read.go:377-391 | the reader starts having seen nothing |
| WindowReader.Utf16Window.AppendChunkRune | internal/file/read.go:393-407 | the chunk stays the longest fitting part of what is shown; it fails exactly when not even the first code point fits |
| WindowReader.Utf16Window.AppendChunkNewline | internal/file/read.go:408-417 | the same for the newline of a selected line |
| WindowReader.Utf16Window.Emit | internal/file/read.go:428-450 | ending a line keeps the reader's state equal to that of the text seen so far; a failure means no continuation can be read |
| WindowReader.Utf16Window.AppendRune | internal/file/read.go:451-466 | the same for one character |
| WindowReader.Utf16Window.Feed | internal/file/read.go:495-521 | with the pending CR, feeding a character normalizes newlines on the fly and records the ending |
| WindowReader.OneMore | internal/file/read.go:495-521 | normalizing a text with one more character changes only the pending ending, the law the pending-CR flag rests on |
| WindowReader.Utf16Window.Finish | internal/file/read.go:523-546 | at the end of input the line count, ending counts, final-newline flag and truncation flag are those of the whole text |
| WindowReader.ReadRune | internal/file/read.go:468-494 | two or four bytes are consumed as one code point, or rejected, as decoding the unit string does |
| WindowReader.ReadUtf16Window | internal/file/read.go:354-554 | the stream reader succeeds if and only if the whole file decodes and the window is readable, and then returns the budgeted window of the normalized decoded text with the decoder's format |
| WindowReader.LineCountCountsLines | internal/file/read.go:523-537 | the reported line total is the number of lines, one for an empty text |
| WindowReader.FullWindowIsTheText | internal/file/read.go:354-554 | a window over all lines with enough budget always succeeds, untruncated, with the whole normalized text |
| WindowReader.ResultMeans | internal/file/read.go:541-553 | the total is the number of lines, the offset is the requested one or the total if that is less, and a result is truncated exactly when lines remain behind the window or its text was cut |
| WindowReader.Defaults | internal/file/read.go:105-116 | without options a read shows 500 lines and one mebibyte from the start; given positive options are taken as they are |
| Utf8Reader.TruncateUtf8 | internal/file/read.go:715-726 | the backwards scan cuts at the last code-point start within the budget |
| Utf8Reader.Scan | internal/file/read.go:157-188 | the line loop validates every line, selects the window, counts lines and line endings, also when CRLF or CR stand inside a line |
| Utf8Reader.ReadUtf8Window | internal/file/read.go:157-222 | the reader's result is a function of the whole content and the window |
| Utf8Windows.ValidByLines | internal/file/read.go:162-188 | validating line by line is validating the whole content |
| Utf8Windows.BudgetedIsFit | internal/file/read.go:704-726 | cutting bytes equals encoding the longest fitting prefix of the text |
| Utf8Windows.FinalEndingIs | internal/file/read.go:147-151 | the last byte tells whether the text ends in LF or CR |
| Utf8Windows.Utf8ReadIsAWindow | internal/file/read.go:157-222 | the UTF-8 reader succeeds exactly when the body is valid UTF-8, the offset fits and the first code point is within budget; it then returns the longest affordable part of the window of the decoded text, with exact totals |
| Utf8Windows.ReadPagesMakeTheText | internal/file/read.go:190-201 | consecutive UTF-8 windows concatenate to the text, with one more LF if and only if it ends in a lone CR |
| Utf8Windows.LoneCRGainsANewline | internal/file/read.go:197-200 | the text `a` CR is read as `a` CR LF |
| Reading.Read | internal/file/read.go:104-222 | after the options are defaulted, a file with a UTF-16 mark gets the UTF-16 result and every other file the UTF-8 result, each with its exact success condition |
| Reading.FormatAgreesExactlyWhen | internal/file/read.go:563-577 | a UTF-8 read reports the decoder's format if and only if the file has a mark or its first four bytes are valid by themselves |
| Reading.CutInsideACharacter | internal/file/read.go:137-143 | three ASCII letters and a euro sign are read with an unknown mark |
| Replacements.IndexIsFirst | internal/edit/apply.go:471-477 | the non-overlapping count is zero exactly when the text does not occur, and the index is its first occurrence |
| Replacements.CountIsOneExactlyWhen | internal/edit/apply.go:471-479 | the count is one if and only if the text occurs and does not occur again behind its first occurrence; occurrences that overlap the first do not count |
| Replacements.CollectHits | internal/edit/apply.go:466-481 | hits are collected if and only if each search text is non-empty and occurs once; otherwise the first offender is named with its code |
| Replacements.SortHits | internal/edit/apply.go:483-498 | the exchange sort only rearranges, ends descending, and its adjacent check reports an overlap exactly when some two hits overlap |
| Replacements.StackedIsDisjoint | internal/edit/apply.go:489-497 | adjacent hits that do not overlap are pairwise disjoint once sorted |
| Replacements.Splice | internal/edit/apply.go:499-503 | splicing from the right equals one simultaneous substitution into the original text |
| Replacements.ApplyReplacements | internal/edit/apply.go:459-504 | succeeds if and only if all search texts are unique and their places disjoint; then in some order the old text is gaps with the search texts between them and the new text is the same gaps with the new texts between them; a refusal names the first offender with its reason, or a replacement that overlaps another |
| Replacements.SubstitutionExchanges | internal/edit/apply.go:499-503 | substitution exchanges each search text for its new text and keeps everything between |
| Replacements.OrderDoesNotMatter | internal/edit/apply.go:499-503 | substitution depends only on the set of places and texts |
| Replacements.PermutedReplacementsAgree | internal/edit/apply.go:459-504 | every permutation of accepted replacements is accepted and gives the same text |
| LineRanges.NewlineCount | internal/edit/apply.go:422-425 | counting newlines gives the number of lines, one for an empty text |
| LineRanges.FindRange | internal/edit/apply.go:429-451 | the offsets found are where the first line of the range starts and its last line ends |
| LineRanges.ApplyLineRange | internal/edit/apply.go:417-457 | each error occurs exactly on its range condition; otherwise lines are replaced |
| LineRanges.OtherLinesStay | internal/edit/apply.go:452-456 | cut into lines again, the edited text has exactly the lines before the range, the lines of the closed replacement and the lines behind the range: none is merged, dropped or added, also for an empty or unended replacement and an empty text |
| LineRanges.ReplacedIsRangeEdited | internal/edit/apply.go:431-456 | line for line, the edited text is the lines before the range, the lines of the normalized replacement and the lines behind; the final newline stays unless the last line was replaced, and then follows the replaced range |
| BatchPlan.ApplyUpdate | internal/edit/apply.go:397-415 | a range, replacements or whole content give the edited text or the error of that kind |
| BatchPlan.CountChanged | internal/edit/apply.go:117 | the counted changes of a planned edit are a function of the two normalized texts: zero, two for a final newline, or the edit distance |
| BatchPlan.PrepareOne | internal/edit/apply.go:53-250 | preparing one edit gives its plan from the files, the policies and the paths taken so far, and then takes its own paths |
| Batch.PrepareAll | internal/edit/apply.go:48-250 | the loop with its path map and running total plans the batch, with the total of its changes at most 1000 |
| Batch.AcceptedExactlyWhen | internal/edit/apply.go:53-250 | a batch is accepted if and only if each edit is plannable by itself, no two edits use a common path and the changes total at most 1000 |
| BatchLaws.PlannedFits | internal/edit/apply.go:53-250 | a planned edit has a usable, allowed path, a file with the digest the caller named, bytes and a count of changed lines as asked, and keeps the contract of exact bytes and expected format |
| BatchLaws.AcceptedBasesHold | internal/edit/apply.go:136-178 | every update, delete and rename of an accepted batch finds its file with the digest the caller named |
| BatchLaws.StaleBaseIsRefused | internal/edit/apply.go:506-525 | an edit that would pass with the digest of the file is refused as stale with any other digest |
| BatchLaws.CreatedReadsBack | internal/edit/apply.go:111-118 | a created file decodes to the normalized content without a leading mark, is marked as the content was, and has the content's one kind of line ending, or LF |
| BatchLaws.RefusalHasItsReason | internal/edit/apply.go:53-250 | each code with which an edit is refused states a fact about the files, the policies or the request |
| BatchCommit.RecheckAll | internal/edit/apply.go:294-333 | the second check reports the first plan that the current files or policies no longer allow |
| BatchCommit.FaultHasItsReason | internal/edit/apply.go:294-333 | a refusal by the second check names a fact about one of the planned edits: a path, a content, a free target or a permission that changed |
| BatchCommit.Workspace.WriteAll | internal/edit/apply.go:351-369 | writing one plan after the other is one simultaneous update: each path is what its only plan says, every other path is untouched |
| BatchCommit.TargetsHoldPlannedBytes | internal/edit/apply.go:371-393 | afterwards each target holds its planned bytes and each deleted path is gone |
| BatchCommit.Workspace.ReadBack | internal/edit/apply.go:371-393 | the read-back passes if and only if every written target has the planned digest |
| BatchCommit.ReadBackMatches | internal/edit/apply.go:371-393 | after the simultaneous update the read-back cannot fail |
| BatchCommit.Workspace.ApplyBatch | internal/edit/apply.go:27-395 | every failure and every dry run leaves the files as they are (as an outside writer left them during the hook); after success every edit is carried out as asked on a file with the digest the caller named, and every path that no edit names is as it was |
| BatchCommit.BatchIsCommitted | internal/edit/apply.go:53-369 | said of files and request alone: created files hold the content asked for, updated files hold a text edited as asked or the exact bytes, deleted files are gone, renamed files are moved unchanged, and formats insisted on are met |
| BatchCommit.UpdateIgnoresOrder | internal/edit/apply.go:351-369 | the update does not depend on the order of the plans |
| BatchCommit.BatchOrderDoesNotMatter | internal/edit/apply.go:53-369 | every permutation of an accepted batch is accepted with the same plans in some order, and makes the same files of any files |
| BatchCommit.UndisturbedPassesExactlyWhen | internal/edit/apply.go:58-69 | on unchanged files and policies an accepted batch passes the second check if and only if every path, and every new path of a rename, leads where its trimmed form leads |
| BatchCommit.PaddedPathIsStale | internal/edit/apply.go:294-299 | a batch that creates a file under a path with a leading blank is accepted and then refused as stale |
| OperationService.AggregateState | internal/operation/service.go:842-888 | the flags of the loop give the state the steps add up to |
| OperationCore.AggregateMeaning | internal/operation/service.go:842-888 | the sum is terminal exactly when all steps are settled, succeeded exactly when all succeeded or were skipped, and running whenever a step runs |
| OperationService.Service.constructor | internal/operation/service.go:530-547 | start-up interrupts every operation that was not purely waiting or finished, with all its open steps |
| OperationService.Service.Submit | internal/operation/service.go:141-193 | all rows appear at once, queued, unless the operation exists |
| OperationService.Service.SendHead | internal/operation/service.go:551-560 | the head of the list enters the bounded channel only when there is room |
| OperationService.Service.DropHead | internal/operation/service.go:559-563 | after a send exactly the head leaves the list |
| OperationService.Service.Receive | internal/operation/service.go:571-581 | a worker takes the oldest job |
| OperationService.Service.BeginStep | internal/operation/service.go:583-611 | a job starts its step only for a live, uncancelled operation and a queued step, with the row, the operation state and the handle changed together |
| OperationService.Service.FinishStep | internal/operation/service.go:636-655 | the step row gets the state of its outcome, cancellation and unconfirmed effects first |
| OperationService.Service.EnqueueReady | internal/operation/service.go:674-712 | exactly the steps ready in the snapshot and without a job are marked and appended, in order |
| OperationService.Service.SkipUnreachable | internal/operation/service.go:749-766 | the loop with its writes equals one pass that judges every step by the states read before it |
| OperationService.Service.Reconcile | internal/operation/service.go:714-792 | the whole section as one change of one operation |
| OperationService.Service.Cancel | internal/operation/service.go:381-418 | open steps become cancelled; without a handle the operation does too; a terminal operation is refused unchanged |
| OperationService.Service.Resume | internal/operation/service.go:420-497 | a step is queued again exactly when it waits, the token is the one stored and not blank, the operation is neither terminal nor being cancelled and an executor is at hand; each refusal has its exact condition and changes nothing |
| OperationProtocol.SkippedHasFailedAncestor | internal/operation/service.go:749-766 | from a skipped step dependencies lead to a failed, cancelled or interrupted one |
| OperationProtocol.NothingFailedNothingSkipped | internal/operation/service.go:842-888 | steps that are all succeeded or skipped are all succeeded |
| OperationProtocol.BegunInv | internal/operation/service.go:583-611 | starting a step keeps the operation's invariant: started steps have succeeded dependencies |
| OperationProtocol.FinishedInv | internal/operation/service.go:636-655 | finishing a step keeps the invariant |
| OperationProtocol.ReconciledInv | internal/operation/service.go:714-780 | reconciling keeps the invariant, a finished operation included |
| OperationProtocol.CancelCalledInv | internal/operation/service.go:381-418 | cancelling keeps the invariant |
| OperationProtocol.ResumedInv | internal/operation/service.go:420-497 | resuming keeps the invariant |
| OperationProtocol.RestartedInv | internal/operation/service.go:530-547 | a restart keeps the invariant, also when the process died between the two statements that start a step, between the two of a cancel, or after any part of the skip loop |
| OperationProtocol.PartSkipsReadAlike | internal/operation/service.go:674-697 | a scheduling call that reads in the middle of the skip loop finds the same steps ready |
| OperationSystem.StepKeepsInv | internal/operation/service.go:549-792 | every step of any thread, the dispatcher and a restart after any database statement included, keeps the system invariant |
| OperationHistory.RunKeepsInv | internal/operation/service.go:549-792 | the invariant holds in every state of every run |
| OperationHistory.RunContinues | internal/operation/service.go:794-802 | over any run settled steps and terminal operations never change state and dependencies never change |
| OperationHistory.StartsAfterDependencies | internal/operation/service.go:583-663 | when a step enters running all its dependencies have succeeded, and they stay succeeded in every later state |
| OperationHistory.CountsAreHistory | internal/operation/service.go:890-902 | the counters the invariant speaks of are the numbers of starts and accepted resumes in the run |
| OperationHistory.StartsAtMostOncePerResume | internal/operation/service.go:890-917 | in every run, with processes that die after any database statement, a step enters running at most once plus once per accepted resume of it |
| OperationEvents.EveryChangeHasItsEvent | internal/operation/service.go:583-802 | in every run a step's state changes only as a table of events allows: an end of an executor call is recorded as what it was, a skip needs a bad dependency, only a cancel, a restart or an end leaves waiting or running otherwise |
| OperationEvents.WaitingWasAsked | internal/operation/service.go:636-650 | in every run a waiting step holds the token that its last executor call asked for, and has waited since |
| OperationEvents.ResumesNeedTheirToken | internal/operation/service.go:441-443 | in every run a resume that queues a waiting step presents the token that the step's executor asked for, with no start and no accepted resume of the step in between |
| OperationEvents.EveryEndingHasItsEvent | internal/operation/service.go:728-780 | in every run an operation ends only by a reconcile, a cancel without a handle or a restart, in the state that its steps and the cancellation call for |
| OperationEvents.RecoveryEnds | internal/operation/service.go:530-547 | recovery interrupts what was queued, running, or waiting beside a running step, and leaves a purely waiting operation untouched |
| OperationGuarantees.NoReadyStepIsForgotten | internal/operation/service.go:674-712 | every ready step of a live uncancelled operation has a job on the list, in the channel or with a worker, or a thread still owes it an `enqueueReady` |
| OperationGuarantees.JobsAreDeliveredInOrder | internal/operation/service.go:549-581 | list and channel deliver every enqueued job once and in order |
| OperationGuarantees.TerminalMeansSettled | internal/operation/service.go:714-802 | a terminal operation has only settled steps, a succeeded one only succeeded steps |
| OperationGuarantees.SkippedBecauseOfAncestor | internal/operation/service.go:749-766 | in every reachable state a skipped step has a failed, cancelled or interrupted ancestor |
| OperationGuarantees.RestartLeavesNothingRunning | internal/operation/service.go:530-547 | after a restart, wherever the process died, nothing runs, and each operation is terminal with settled steps or waits with exactly the rows the process left |
| OperationGuarantees.IdleOperations | internal/operation/service.go:714-780 | in every reachable idle state without waiting steps, an operation is terminal if and only if one more pass would skip nothing |
| OperationSettling.SkippingReachesExactlyTheDoomed | internal/operation/service.go:749-766 | within as many passes as steps the skips reach exactly the queued steps from which dependencies lead to a bad step |
| OperationSettling.OnePassIsEnoughExactlyWhen | internal/operation/service.go:749-766 | one pass completes the skips if and only if no queued step depends on a queued step with a bad dependency while itself having none |
| OperationSettling.IdleIsTerminalExactlyWhen | internal/operation/service.go:842-888 | under the invariant an idle operation without waiting steps has a terminal sum if and only if its skips are complete |
| OperationStuck.ChainOfThreeStaysRunning | internal/operation/service.go:749-780 | a run exists in which a chain of three steps is left with a failed, a skipped and a queued step, running, with nothing due |
| OperationStuck.CutCancelWaitsForNothing | internal/operation/service.go:400-415 | a run exists in which a process dies between the two statements of a cancel and the operation is left waiting for confirmation with all its steps settled; a further cancel ends it |
| OperationClosure.ClosedRelationsFinish | internal/operation/service.go:714-780 | in every run, an idle operation without waiting steps whose dependency relation is transitively closed is terminal |
| OperationStranding.Drive | internal/operation/service.go:549-780 | any run of an unharmed operation goes on, with at most two busy workers, until everything is done but one chosen step |
| OperationStranding.StrandsExactlyWhen | internal/operation/service.go:749-780 | if the dependency relation of a submission is transitively closed, no run leaves it running with nothing due, whatever the number of workers; if not, some run with at most two busy workers does |
| SpecValidation.CollectSteps | internal/operation/service.go:951-968 | steps are indexed if and only if all have ids and tools and ids are distinct |
| SpecValidation.Visitor.Visit | internal/operation/service.go:969-985 | the recursive search ends; acceptance puts the step after its dependencies in a topological order, rejection means no order exists |
| SpecValidation.SearchCycles | internal/operation/service.go:969-991 | the search accepts if and only if all dependencies exist and some ranking makes every dependency lower |
| SpecValidation.CycleHasNoRank | internal/operation/service.go:971-973 | meeting a step that is being visited refutes every ranking |
| SpecValidation.ValidateSpec | internal/operation/service.go:945-992 | a submission is accepted if and only if session and workspace are left when blanks are trimmed, there are 1 to 32 steps with ids and tools, trimmed ids are distinct, and some ranking puts each step above all the steps it names, which exist |
| SpecValidation.AcceptedSpecsCanBeSubmitted | internal/operation/service.go:113-193 | the rows of an accepted submission satisfy what the transition system demands of a submission |
| IdempotencyStore.Store.Claim | internal/idempotency/store.go:115-225 | run at one moment, a claim owns exactly when no flight and no tombstone stands and the row is absent or a stale one of its own; each other answer has its exact condition and changes nothing |
| IdempotencyStore.Store.FirstCheck | internal/idempotency/store.go:123-138 | flights come before tombstones, another fingerprint is a conflict |
| IdempotencyStore.Store.Insert | internal/idempotency/store.go:161-170 | the row and the flight appear together, or nothing changes |
| IdempotencyStore.Store.TakeOver | internal/idempotency/store.go:196-209 | the swap happens only on the very row that was read |
| IdempotencyStore.Store.Complete | internal/idempotency/store.go:263-291 | settles the row and releases the flight, or changes nothing |
| IdempotencyStore.Store.UpdatePending | internal/idempotency/store.go:296-311 | renews only a pending row of its own fingerprint |
| IdempotencyStore.Store.Abandon | internal/idempotency/store.go:317-340 | only an actual deletion releases the flight |
| IdempotencyStore.Store.MarkInDoubt | internal/idempotency/store.go:351-389 | whether or not the database writes, and whoever calls, a flight of the same fingerprint ends and leaves a settled row or a tombstone; the row changes only by the mark |
| IdempotencyProtocol.CalmStepKeepsInv | internal/idempotency/store.go:115-389 | every calm step keeps the protocol invariant: of owners, of callers answered in doubt that repair or mark the row, of other processes, the purge and a crash |
| IdempotencyGuarantees.AtMostOneOwner | internal/idempotency/store.go:115-225 | in every state of every calm run at most one caller of the process holds the key |
| IdempotencyGuarantees.SettledRowsNeverRunAgain | internal/idempotency/store.go:181-223 | in every run, calm or not, from the time the row is settled until it is purged it stays settled with its fingerprint and nobody becomes owner |
| IdempotencyGuarantees.RowsKeepTheirRequest | internal/idempotency/store.go:276-279 | in every run a row belongs to one fingerprint for as long as it exists |
| IdempotencyGuarantees.AbandonsOwnOnly | internal/idempotency/store.go:324-339 | abandoning deletes only a pending row of the caller's own fingerprint |
| IdempotencyGuarantees.NoOwnerAfterDoubt | internal/idempotency/store.go:351-389 | in a calm run no claim started after an owner's `MarkInDoubt` returned ever owns the key, even if the database refused the mark, while the process lives and no settled row is purged |
| IdempotencyGuarantees.AbandonRaceHasTwoOwners | internal/idempotency/store.go:317-349 | a run in which deletion and release straddle another claim's insert ends with two owners, and every other step is calm |
| IdempotencyGuarantees.SlowInsertHasTwoOwners | internal/idempotency/store.go:154-170 | a run in which a claim inserts a lease after reading the clock ends with two owners, and every other step is calm |
| IdempotencyGuarantees.ForeignDeleteHasTwoOwners | internal/idempotency/store.go:317-326 | a run in which another process deletes the held row ends with two owners, and every other step is calm |
| IdempotencyGuarantees.RefusedMarkHasTwoOwners | internal/idempotency/store.go:354-365 | a run in which a caller answered in doubt fails to mark the row while another owner's flight stands ends with two owners, and every other step is calm |
| IdempotencyGuarantees.StaleStampHasTwoOwners | internal/idempotency/store.go:196-201 | a run in which another process writes back an old stamp ends with two owners, and every other step is calm |
| IdempotencyGuarantees.PurgeHasTwoOwners | internal/state/retention.go:267-283 | a run in which the row of a running owner expires and is purged ends with two owners, and every other step is calm |
| ObservationBroker.Broker.constructor | internal/observation/broker.go:26-28 | a broker starts open and without subscribers |
| ObservationBroker.Broker.Subscribe | internal/observation/broker.go:30-50 | a new id gets an empty buffer of the requested or the default size; a closed broker changes nothing |
| ObservationBroker.Broker.Publish | internal/observation/broker.go:52-77 | exactly the subscribers of the workspace are offered the event: it is queued, or the newest gap replaces the old one |
| ObservationBroker.Broker.Unsubscribe | internal/observation/broker.go:93-101 | only that subscriber goes |
| ObservationBroker.Broker.Close | internal/observation/broker.go:79-91 | afterwards the broker is closed and empty |
| ObservationBroker.ReplayHistory | internal/observation/socket.go:161-170 | the loop sends the history events above the last number sent, in order |
| ObservationBroker.ReadConnection | internal/observation/client.go:97-127 | the loop hands on what is new, keeps the last number, and asks for a reconnect after a gap |
| ObservationBroker.HandsOnOthers | internal/observation/client.go:106-127 | every frame that is no event is handed on up to the first gap, and exactly a gap asks for a reconnect |
| ObservationBroker.HandsOnRisingEvents | internal/observation/client.go:107-114 | the events handed on rise above the client's number, which becomes the last of them |
| ObservationBroker.ReverseInPlace | internal/observation/store.go:156-158 | the swapping loop reverses the events |
| ObservationBroker.NewestFirst | internal/observation/store.go:140-152 | the descending query is the reverse of the workspace's last events |
| ObservationBroker.RecentHistory | internal/observation/store.go:127-160 | a new observer's history is the last events of the workspace, oldest first |
| ObservationCore.BetweenMembers | internal/observation/store.go:109-122 | an event is in a range exactly when it is stored, of the workspace and numbered within |
| ObserverDelivery.HistoryIsBacklog | internal/observation/store.go:127-160 | a backlog within the limit is returned whole |
| ObserverDelivery.QuietStepKeepsInv | internal/observation/socket.go:147-203 | every quiet step of writer, broker, server, wire and client keeps the delivery invariant, buffer overflows and gaps included |
| ObserverGuarantees.ReceivedWithoutGapOrRepeat | internal/observation/client.go:49-114 | in every state of every quiet run, over any number of overflows and reconnects, the client has received exactly the workspace's events from its start up to its last number, each once, rising |
| ObserverGuarantees.DrainedMeansComplete | internal/observation/client.go:49-114 | in a quiet run, once everything in flight has arrived and no gap is pending, every later event of the workspace has been received |
| ObserverGuarantees.OverflowLosesAnEvent | internal/observation/socket.go:187-195 | a run in which a later event wins the select after an overflow ends drained, with an event missing and no gap pending |
| ObserverGuarantees.LongBacklogLosesAnEvent | internal/observation/socket.go:154-170 | a run with a backlog above the history limit ends drained with an event missing |

## Left out

- IdempotencyGuarantees.AtMostOneOwner: holds for calm runs only: a claim acquires within a lease of reading the clock and not between an `Abandon`'s deletion and its release; no caller without the key fails to mark it in doubt while another caller's flight stands; other processes write recent stamps and do not delete a held row; no row is purged while a caller relies on it. Each of the six runs above breaks one of these once and has two owners.
- IdempotencyGuarantees.NoOwnerAfterDoubt: assumes the same calm runs; what another process owns is not covered, since flights and tombstones are per process.
- IdempotencyGuarantees.SettledRowsNeverRunAgain: ends with the purge of the row; when rows expire is not modelled, a purge may come at any time.
- ObserverGuarantees.ReceivedWithoutGapOrRepeat: assumes quiet runs (after an overflow no event is sent past a lost one before the gap is taken, and each backlog is within the history limit); the two runs above break it without them.
- OperationGuarantees.NoReadyStepIsForgotten: says what is owed, not that the Go scheduler eventually lets the owing goroutine go on.
- UnifiedDiff.UnifiedDiff: a string is a sequence of Unicode code points, so Go strings that are not valid UTF-8 are not modelled; lines are compared as such.
- DiffGuarantees.ReportedCountsAreParsed: assumes a path without a line break; it speaks of what the printer printed, not of diffs from elsewhere.
- DiffGuarantees.ParsedLinesAreThere: assumes fewer lines than the largest 64-bit integer.
- Utf8Reader.ReadUtf8Window: reads the file as one byte string; the 64 KiB buffer and files that change during a read are not modelled.
- BatchCommit.Workspace.ApplyBatch: one file system with no outside writer after the second check; a blank workspace root, failures of the operating system during the writes, partial writes, modes, symbolic links and directories are not modelled, and path resolution and validation are a parameter that may change during the hook.
- WindowReader.ReadUtf16Window: line numbers, offsets and limits are unbounded, as they are in `Utf8Reader`; in the source `start + opts.Limit` wraps for limits near the largest 64-bit integer.
- BatchLaws.RefusalHasItsReason: says nothing of what makes an input invalid or a format differ, nor which reason is reported when several hold.
- BatchCommit.Workspace.ReadBack: the tail and format that a receipt carries are not modelled.
- SpecValidation.AcceptedSpecsCanBeSubmitted: steps are numbered in the order the table is listed by; ids with surrounding blanks are taken as they are stored.
- OperationService.Service.Submit: the comparison of submission hashes for a repeated id, retention and expired results are not modelled.
- OperationStranding.StrandsExactlyWhen: does not say what a single worker can strand; the number of workers is no part of the transition system.
- OperationService.Service.BeginStep: workspace locks of exclusive steps, contexts and the executor's work are left out; an executor call is any of five outcomes at any later time.
- SQL, JSON, timestamps other than the claim clock, random ids, logs and event sinks: database statements are atomic changes of typed rows and always succeed, except in `MarkInDoubt`.
- SHA-256 and base64: a digest is injective, decoded bytes are given.
- `operation.Result`, `operation.Wait`, `idempotency.Wait`, `Lookup`, expiry and the diff document cache: reads of what is modelled, or a channel that only signals.
- `ReadFull`, MIME detection, terminal rendering of diffs, regular-expression redaction, sockets, pipes and command line: presentation or input and output.
- Error messages and, where several checks would fail for a specification, which error is reported first.
