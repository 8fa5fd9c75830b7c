# Verification of the agent SDK's cores

This project models the stateful and string-processing cores of the agent SDK and its tool packages and proves
what they promise. It has one module per source file.

- `JobQueue.dfy`: the bounded background job queue as a step protocol. Every step is one synchronous stretch of
  the program (enqueue, start callback, call of the job function, settling, `finally`, cancel), and any sequence
  of steps is a run. A class holds the fields of the program; each of its methods is proved equal to the step.
- `ApplyPatch.dfy`: the patch tool. A whole patch is planned against the initial files and then executed; the
  reference is applying the hunks one by one to the evolving files.
- `GlobRegex.dfy`, `GlobWalk.dfy`: the glob compiler, whose output is read back as a regular expression and
  compared with a direct meaning of globs, and the local and the backend walk.
- `EditFile.dfy`: exact, then white-space-tolerant replacement, with the walk that maps a match back.
- `Truncation.dfy`: cutting UTF-8 output without splitting a character.
- `Processors.dfy`: the white-space normaliser and the token cap.
- `SearchText.dfy`: the early-exit text search over shared mutable state, local and through a backend.
- `PtySessions.dfy`: terminal sessions: output windows, turns of writes, the ceiling on live sessions.
- `ReadBeforeWrite.dfy`: reads, guarded writes and foreign writers, interleaved at every await point.
- `ReadView.dfy`: the paged and the numbered view of a file.
- `Logbook.dfy`: the append-only screenshot log and its queue.
- `Compaction.dfy`: splitting a transcript by tokens or by count, compacting it, filtering from a checkpoint.
- `LexicalHash.dfy`: the rolling 32-bit hash and the bucket counts of the lexical embedder.
- `StreamTranslator.dfy`: the message translator that gives up after ten failed sends in a row.
- `CircuitBreaker.dfy`: the memory adapter's breaker against its event history.
- `Sequences.dfy`, `JsText.dfy`: shared facts about sequences; strings as UTF-16 code units, white space, `trim`,
  `split`, and the order of `sort`.

The main results are statements over every reachable state or every run (`JobQueues.SlotAccounting`,
`JobQueues.CanDrain`, `JobQueues.BoundKeptIff`, `ReadBeforeWrite.BackendWritesReplaceWhatWasRead`,
`PtySessions.OutputIsPartitioned`, `PtySessions.UncappedDrainsLoseNothing`,
`Logbook.EveryRecordLandsOnce`), refinements of a simple form (`ApplyPatch.PlanMatchesOneByOne`,
`GlobRegex.CompiledRegexMeansGlob`, `Processors.CollapseJoinsWords`, `SearchText.SearchLocal`), and round trips
(`Truncation.DecodeUndoesEncode`, `ReadView.NumberedViewReadsBack`, `EditFile.NormalizedMatchIffSpan`).

Standards: UTF-8 follows section 3 of RFC 3629 and decoding section 8.1.1 of the WHATWG Encoding Standard; patterns
follow sections 22.2.1 and 22.2.2 of ECMA-262; white space and line terminators are those of ECMA-262.

## Where the code and its documentation differ

The model follows the code; the lemma in brackets states the difference exactly.

- The concurrency bound counts only functions that are not cancelled. A cancelled function that ignores its signal
  runs on beside it. The bound is safe exactly as long as no running job is cancelled (`JobQueues.BoundKeptIff`,
  `JobQueues.CancelKeepsBoundIff`).
- The duplicate check of a patch compares spellings, not files. It does what it is for on every patch exactly when no
  two spellings resolve to one file (`ApplyPatch.RawCheckSufficesIffInjective`); a patch that passes it does what its
  hunks do one by one exactly under the condition of `ApplyPatch.PatchAgreesIff`. Examples are
  `ApplyPatch.AliasedAddsDisagree` and `ApplyPatch.MoveOntoItselfLosesFile`. An update with an empty destination is
  not a move but is reported under the empty name (`ApplyPatch.ReportedNameIff`).
- A double star in a glob matches characters of one line, not path segments, and swallows the slash behind it
  (`GlobRegex.DoubleStarName`).
- A cut tail opens with one replacement character for each severed byte, up to three, not one
  (`Truncation.TailDecodes`, `Truncation.SeveredShowsInBuffer`, `Truncation.ThreeReplacements`), and a byte order mark
  right at a cut is dropped (`Truncation.MarkDroppedIff`). A negative byte budget keeps the text but that many last
  bytes (`Truncation.BudgetKeptIffNotNegative`).
- No-break spaces and the other Unicode white space are collapsed (`Processors.OtherSpacesKeptIff`,
  `Processors.NoBreakSpaceIsCollapsed`).
- The token cap can leave an estimate above its limit when surrogate pairs are kept (`Processors.CapWithinLimitIff`).
- A drain whose cap is larger than the buffer's by less than the marker's length cuts the truncation marker in two
  (`PtySessions.DrainCapIff`); a buffer cap of 0 keeps everything (`PtySessions.CapsChunkwiseIffPositive`).
- A write reads only its own output window once the start call has returned; before that, the end of the start call's
  window can take the first part (`PtySessions.KeepsWindowIff`, `PtySessions.BothCanWait`).
- A file that appears between the check and the write of a new file is overwritten unread, also through a backend
  (`ReadBeforeWrite.NewFileClobbersIff`, `ReadBeforeWrite.NewFileClobbers`).
- Compaction moves every system prompt to the front, not only leading ones (`Compaction.OrderKeptIff`); keeping a count
  of 0 turns keeps all of them (`Compaction.CountKeptIff`), and a negative count drops turns at every pass
  (`Compaction.SettlesIffNotNegative`).

## Model

| member | source | states |
|---|---|---|
| JobQueues.SlotAccounting | packages/sdk/src/job-queue.ts:58-159 | In every reachable state the counter plus the waiting jobs are the registered controllers, the counter is the number of jobs that took a slot and did not give it back and stays within the bound asked for, at least 1; a job waits only when every slot is taken, and no job gives back twice |
| JobQueues.StepInv | packages/sdk/src/job-queue.ts:71-159 | Every step, in any order, keeps the invariant that ties slots, waiting line, status, signal and controller of every job together |
| JobQueues.RunInv | packages/sdk/src/job-queue.ts:71-159 | So does every run |
| JobQueues.ReleaseInv | packages/sdk/src/job-queue.ts:147-159 | Giving back a held slot hands it to the head of the waiting line, if there is one, or leaves it free, and restores the invariant |
| JobQueues.FinallyInv | packages/sdk/src/job-queue.ts:97-98 | A late `finally`, also one of a job cancelled earlier, keeps the invariant: the slot is given back once |
| JobQueues.RunExtends | packages/sdk/src/job-queue.ts:84-98 | Over any run a completed, failed or cancelled job's record never changes again, and grants, starts and releases are only appended |
| JobQueues.OutcomeRecorded | packages/sdk/src/job-queue.ts:84-97 | Over any run a job is completed with a result exactly when its function resolved with it while the job was running, and failed with a message exactly when it rejected with it then; any other job has neither |
| JobQueues.GrantsInEnqueueOrder | packages/sdk/src/job-queue.ts:71-98 | At any moment of any run the jobs that got a slot are the first ones enqueued, and their start callbacks run in that order |
| JobQueues.CancelledCallsExactly | packages/sdk/src/job-queue.ts:78-86 | A cancelled job's function is called in some continuation if and only if it was called already or the start callback had passed its check; its signal is aborted in any case |
| JobQueues.NeverCalled | packages/sdk/src/job-queue.ts:78-83 | A job cancelled while waiting or before its start callback never has its function called, whatever happens later |
| JobQueues.CancelFreesSlotNotFunction | packages/sdk/src/job-queue.ts:115-128 | Cancelling a running job frees its slot for the head of the line at once and leaves its function running |
| JobQueues.InFlightBound | packages/sdk/src/job-queue.ts:28-31 | In any state the functions in flight are at most the bound plus the cancelled ones among them |
| JobQueues.BoundKeptIff | packages/sdk/src/job-queue.ts:28-31 | From a given state every continuation without a further cancel keeps the functions in flight within the bound if and only if no job was cancelled between its start callback and the settling of its function |
| JobQueues.CancelKeepsBoundIff | packages/sdk/src/job-queue.ts:115-128 | A cancel leaves the bound safe if and only if it was safe and the job's status is not running at that moment |
| JobQueues.AnyBoundCanBeExceeded | packages/sdk/src/job-queue.ts:115-128 | For every bound there is a run with one function more in flight |
| JobQueues.StuckMeansDrained | packages/sdk/src/job-queue.ts:44-47 | When no callback can run but those of cancelled functions that never settle, no slot is held, nobody waits and every job is finished |
| JobQueues.CanDrain | packages/sdk/src/job-queue.ts:122-127 | From every state a schedule drains the queue without any cancelled function settling: no deadlock |
| JobQueues.DrainsInBoundedSteps | packages/sdk/src/job-queue.ts:122-127 | Every schedule without new jobs and cancellations is no longer than the callbacks left |
| JobQueues.JobQueue.constructor | packages/sdk/src/job-queue.ts:58-63 | Starts empty with the bound clamped to at least 1, or unbounded |
| JobQueues.JobQueue.AcquireSlot | packages/sdk/src/job-queue.ts:134-145 | The queue object takes a free slot or joins the waiting line |
| JobQueues.JobQueue.ReleaseSlot | packages/sdk/src/job-queue.ts:153-159 | Releases once per job and starts the next waiting job |
| JobQueues.JobQueue.EnqueueJob | packages/sdk/src/job-queue.ts:71-101 | The whole new state of an enqueue |
| JobQueues.JobQueue.RunStartCallback | packages/sdk/src/job-queue.ts:78-84 | The whole new state of a start callback, for a cancelled and for a pending job |
| JobQueues.JobQueue.SettleFunction | packages/sdk/src/job-queue.ts:87-96 | A result or an error is recorded unless the job was cancelled |
| JobQueues.JobQueue.RunFinally | packages/sdk/src/job-queue.ts:97 | The slot is released if the job still has its controller |
| JobQueues.JobQueue.CancelJob | packages/sdk/src/job-queue.ts:115-131 | True exactly for a pending or running job, which is then cancelled, its signal fired and a running job's slot released |
| JobQueues.JobQueue.Dispatch | packages/sdk/src/job-queue.ts:51-159 | Any step of the object is the protocol's step and keeps the invariant |
| ApplyPatch.PlanMatchesOneByOne | packages/sdk-tools/src/apply-patch.ts:120-158 | If no hunk needs what an earlier one changes (its file is not touched before it, or is only updated in place while the hunk asks for nothing but its existence), planning against the initial files and executing gives the result, the files and the names of applying the hunks one by one, or the same error |
| ApplyPatch.TwoHunksAgreeIff | packages/sdk-tools/src/apply-patch.ts:120-158 | For two hunks with resolved targets that condition is exact: both ways agree for all files and matchers if and only if it holds |
| ApplyPatch.PatchAgreesIff | packages/sdk-tools/src/apply-patch.ts:120-158 | For a whole patch that passes the duplicate check and whose targets resolve: both ways agree for all files and matchers if and only if every hunk that can be reached at all finds its file as the plan saw it, as far as it looks |
| ApplyPatch.DistinctIsFollowable | packages/sdk-tools/src/apply-patch.ts:117-124 | Distinct resolved targets meet it |
| ApplyPatch.RawCheckSufficesIffInjective | packages/sdk-tools/src/apply-patch.ts:137-146 | The duplicate check on raw spellings makes that hold for all patches and files if and only if no two spellings resolve to one file |
| ApplyPatch.AliasedAddsDisagree | packages/sdk-tools/src/apply-patch.ts:117-124 | Two spellings of one file: the second Add silently replaces the first, where one by one it is refused |
| ApplyPatch.MoveOntoItselfLosesFile | packages/sdk-tools/src/apply-patch.ts:224-228 | A planned move between two spellings of one file deletes it |
| ApplyPatch.EveryHunkDone | packages/sdk-tools/src/apply-patch.ts:171-229 | After a planned patch is executed, every Add, Delete, Update and move is done with respect to the files before the patch, and every other path is as before |
| ApplyPatch.OneHunkDone | packages/sdk-tools/src/apply-patch.ts:171-229 | The operations planned for one hunk do what the hunk asks for |
| ApplyPatch.OrderIrrelevant | packages/sdk-tools/src/apply-patch.ts:120-158 | Any permutation of the hunks succeeds alike and leaves the same files |
| ApplyPatch.PlanAllSucceeds | packages/sdk-tools/src/apply-patch.ts:125-133 | Planning succeeds if and only if every hunk can be planned |
| ApplyPatch.FinalValue | packages/sdk-tools/src/apply-patch.ts:149-158 | A path touched by a hunk ends up as that hunk alone would leave it |
| ApplyPatch.ExecFrame | packages/sdk-tools/src/apply-patch.ts:149-158 | Executing changes only the paths the operations name |
| ApplyPatch.PlanTouchesTargets | packages/sdk-tools/src/apply-patch.ts:111-115 | A hunk's operations touch exactly its resolved targets |
| ApplyPatch.PlanReadsTargets | packages/sdk-tools/src/apply-patch.ts:171-229 | A hunk's plan depends on nothing but the existence of its own file and, for an update, its content |
| ApplyPatch.ReportedNameIff | packages/sdk-tools/src/apply-patch.ts:131 | The reported name is a path the hunk touches, except for an update with an empty destination |
| ApplyPatch.ReportedNames | packages/sdk-tools/src/apply-patch.ts:125-133 | A planned patch reports one name for each hunk, in order: the destination of a move, else the path; it resolves to what the hunk's operation writes or, for a Delete, removes |
| ApplyPatch.ReportedNamesHold | packages/sdk-tools/src/apply-patch.ts:125-158 | After execution with distinct targets each reported name is a file with its hunk's new content, or one that is gone |
| ApplyPatch.HunkAnswer | packages/sdk-tools/src/apply-patch.ts:171-229 | Which hunk is planned and which error another one gives, by whether its path is accepted, whether its file exists and what the matcher makes of it |
| ApplyPatch.FirstFailureAnswers | packages/sdk-tools/src/apply-patch.ts:127-130 | Planning fails with the error of the first hunk that cannot be planned |
| ApplyPatch.FirstRepeatIsFirst | packages/sdk-tools/src/apply-patch.ts:136-146 | The reported duplicate occurs before its place and nothing before that place repeats |
| ApplyPatch.FirstDuplicateTarget | packages/sdk-tools/src/apply-patch.ts:137-146 | The loop over a growing set finds that first repeat, or none exactly when all targets differ |
| ApplyPatch.BuildPlan | packages/sdk-tools/src/apply-patch.ts:120-134 | The plan of all hunks, the first error, or the duplicate; nothing is written |
| ApplyPatch.ExecutePlan | packages/sdk-tools/src/apply-patch.ts:149-158 | Performs the operations in order up to the first that raises an error |
| ApplyPatch.ApplyPatch | packages/sdk-tools/src/apply-patch.ts:87-109 | A failure before writing, an input/output error while planning included, leaves the files as they were; one while writing leaves the operations before it done; without one, a patch that meets the condition has the one-by-one outcome |
| ApplyPatch.DistinctSpellings | packages/sdk-tools/src/apply-patch.ts:137-146 | Distinct files pass the duplicate check |
| GlobRegex.GlobToRegex | packages/sdk-tools/src/glob-files.ts:203-230 | The loop emits the compiled text between anchors, a valid pattern that accepts exactly what the glob means |
| GlobRegex.EscapedIffSyntax | packages/sdk-tools/src/glob-files.ts:221-223 | What the compiler escapes or treats as a wildcard are exactly the syntax characters of the pattern grammar |
| GlobRegex.CompiledTextReadsBack | packages/sdk-tools/src/glob-files.ts:203-230 | The emitted text is a valid pattern and parses back to the glob's terms, every special character taken literally |
| GlobRegex.CompiledRegexMeansGlob | packages/sdk-tools/src/glob-files.ts:203-230 | The pattern accepts exactly the strings a direct recursive meaning of the glob accepts |
| GlobRegex.SingleStarsKeepDepth | packages/sdk-tools/src/glob-files.ts:213-219 | A glob without a double star matches only paths with as many slashes as it has |
| GlobRegex.PlainGlobIsLiteral | packages/sdk-tools/src/glob-files.ts:221-226 | A glob without wildcards matches itself only |
| GlobRegex.DoubleStarIgnoresSegments | packages/sdk-tools/src/glob-files.ts:208-212 | A leading double star and slash match any prefix within a line |
| GlobRegex.DoubleStarName | packages/sdk-tools/src/glob-files.ts:208-212 | A double star, slash and name match exactly the one-line strings ending in the name, also in mid-segment |
| GlobWalk.WalkDir | packages/sdk-tools/src/glob-files.ts:125-150 | Pushes onto the shared results exactly the files the specification lists, in order |
| GlobWalk.LocalWalkIsExact | packages/sdk-tools/src/glob-files.ts:125-150 | These are the files below the directory that no excluded segment hides and whose relative path matches, and no others |
| GlobWalk.LocalWalkMovesAlong | packages/sdk-tools/src/glob-files.ts:141-147 | Only the path below the search root counts: the same tree under another root reports the same files below it |
| GlobWalk.BackendWalkMovesAlong | packages/sdk-tools/src/glob-files.ts:186-197 | The same for the backend walk, on any backend |
| GlobWalk.SpelledOutGlob | packages/sdk-tools/src/glob-files.ts:141-147 | A glob of plain names with slashes between them reports exactly the file the tree holds under these names below the search root |
| GlobWalk.LeadsIffNoneHidden | packages/sdk-tools/src/glob-files.ts:139 | A file is hidden exactly when one of its segments is `node_modules`, `.git`, `dist` or `.theo` |
| GlobWalk.LocalReportsOnce | packages/sdk-tools/src/glob-files.ts:125-150 | None is reported twice when no directory names an entry twice |
| GlobWalk.WalkDirBackend | packages/sdk-tools/src/glob-files.ts:155-173 | The backend walk ends on every backend, also a cyclic one, with the listed files |
| GlobWalk.WalkBackendEntry | packages/sdk-tools/src/glob-files.ts:176-199 | One entry of it |
| GlobWalk.BackendReportsOnlyFiles | packages/sdk-tools/src/glob-files.ts:155-199 | Whatever the backend answers, only files that exist by `stat`, match, are not excluded and lie within the depth limit are reported |
| GlobWalk.BackendReportsOnce | packages/sdk-tools/src/glob-files.ts:155-199 | And none twice if no listing repeats a name |
| GlobWalk.MirrorReportsOnce | packages/sdk-tools/src/glob-files.ts:155-199 | Nor on a backend that mirrors a tree, whatever it answers elsewhere |
| GlobWalk.BackendWalkMatchesLocal | packages/sdk-tools/src/glob-files.ts:152-199 | On a symlink-free tree the backend walk reports a file if and only if the local one does and it is within the depth limit |
| GlobWalk.WalksAgreeUpToDepth | packages/sdk-tools/src/glob-files.ts:92-106 | The sorted lists handed to the caller are equal if and only if no locally reported file lies deeper than 65 segments |
| JsText.SortedListingIsUnique | packages/sdk-tools/src/glob-files.ts:99-105 | A collection of strings has one sorted listing, so the order of traversal does not show |
| JsText.PrecedesIff | packages/sdk-tools/src/glob-files.ts:99-105 | The order of the listing is by the first code unit that differs, a beginning first |
| JsText.SpacesAre | packages/sdk-tools/src/edit-file.ts:229-231 | The white space the class `\s` and `trim` take are these 25 code units |
| EditFile.FindOriginalSpan | packages/sdk-tools/src/edit-file.ts:238-283 | The lockstep loops stop at the positions reached by walking that many normalised characters |
| EditFile.AdvanceSplitsCollapse | packages/sdk-tools/src/edit-file.ts:252-280 | Walking n characters passes exactly the stretch that collapses to the first n characters, and leaves the rest |
| EditFile.SpanReadsLike | packages/sdk-tools/src/edit-file.ts:67-73 | Every occurrence in the normalised text maps back to a span within bounds that normalises to the normalised old string |
| EditFile.SpanGivesOccurrence | packages/sdk-tools/src/edit-file.ts:65-68 | Every span that reads like the old string is found by the search in the normalised text |
| EditFile.NormalizedMatchIffSpan | packages/sdk-tools/src/edit-file.ts:65-68 | The normalised search succeeds if and only if some span of the content reads like the old string |
| EditFile.SpanTakenIsFirst | packages/sdk-tools/src/edit-file.ts:67-73 | The span replaced is the first one |
| EditFile.FirstSpanIsUnique | packages/sdk-tools/src/edit-file.ts:67-73 | There is one such span, so the edit is determined |
| EditFile.ComputeEdit | packages/sdk-tools/src/edit-file.ts:57-80 | The first exact occurrence is replaced, else the first span that reads like the old string (for an all-whitespace one the empty span in front of the first visible character), else the line ladder decides; all else is kept |
| Truncation.DecodeUndoesEncode | packages/sdk-tools/src/truncation.ts:86-88 | The streaming decoder gives back every encoded text |
| Truncation.HeadDecodes | packages/sdk-tools/src/truncation.ts:86-88 | Any cut at the end withholds the character it falls into and yields the longest whole-character prefix |
| Truncation.TailDecodes | packages/sdk-tools/src/truncation.ts:150-158 | Any cut at the start yields one replacement per severed byte and then every character that begins behind the cut |
| Truncation.FittingIsLongest | packages/sdk-tools/src/truncation.ts:167-168 | The fitting characters are the longest prefix whose encoding fits |
| Truncation.BegunIsLeast | packages/sdk-tools/src/truncation.ts:157-158 | The tail's first whole character is the first one that begins at or behind the cut |
| Truncation.HeadIsLongestPrefix | packages/sdk-tools/src/truncation.ts:105-107 | The head mode copies the longest whole-character prefix within the budget, less a leading byte order mark |
| Truncation.UntouchedIffFits | packages/sdk-tools/src/truncation.ts:118-122 | An output is handed back whole if and only if it fits the budget; any other is cut in the mode asked for |
| Truncation.BudgetKeptIffNotNegative | packages/sdk-tools/src/truncation.ts:119-172 | In both modes the bytes copied stay within the budget if and only if it is not negative; a negative one cuts that many bytes off the end |
| Truncation.MarkDroppedIff | packages/sdk-tools/src/truncation.ts:86-88 | The head loses a byte order mark exactly when it starts with one, the tail exactly when a whole one begins right at the cut |
| Truncation.HeadAndTailDecode | packages/sdk-tools/src/truncation.ts:150-160 | For every budget the head-tail mode copies a whole-character prefix, and replacements followed by a whole-character suffix, each from half the budget |
| Truncation.HeadAndTailFit | packages/sdk-tools/src/truncation.ts:150-160 | Together they copy no more than half the budget each, do not overlap, and sever at most three bytes; a negative budget has no tail |
| Truncation.SeveredShowsInBuffer | packages/sdk-tools/src/truncation.ts:151-155 | The tail opens with one or with more replacements exactly when its first byte, or its first two, are continuation bytes |
| Truncation.ThreeReplacements | packages/sdk-tools/src/truncation.ts:151-155 | An input whose tail opens with three replacement characters |
| Processors.CollapseJoinsWords | packages/sdk/src/built-in-processors.ts:56-62 | The four passes together give the words of the text joined by one space, one line break or one blank line |
| Processors.CollapseReachesTidy | packages/sdk/src/built-in-processors.ts:56-62 | The result is always in normal form: single spaces and at most two newlines, only between visible characters |
| Processors.FixedIffTidy | packages/sdk/src/built-in-processors.ts:56-62 | A text is left alone if and only if it is in normal form, so normalising is idempotent |
| Processors.CollapseKeepsVisible | packages/sdk/src/built-in-processors.ts:56-62 | The sequence of visible characters is untouched |
| Processors.NoBreakSpaceIsCollapsed | packages/sdk/src/built-in-processors.ts:29-58 | A no-break space becomes a space, contrary to the option's comment |
| Processors.OtherSpacesKeptIff | packages/sdk/src/built-in-processors.ts:29-62 | No white space but space and newline survives, so it is left alone if and only if there is none |
| Processors.CapKeepsWholeCodePoints | packages/sdk/src/built-in-processors.ts:92-101 | A text within the limit is kept whole; truncation keeps the first four code points per token, and capping again changes nothing |
| Processors.CapSplitsNoPair | packages/sdk/src/built-in-processors.ts:98-100 | A truncated text never ends inside a surrogate pair, and its code points, counted by units and pairs, are four per token or all there are |
| Processors.BlockAbortsIff | packages/sdk/src/built-in-processors.ts:93-97 | Blocking aborts exactly the texts whose estimate is over the limit |
| Processors.CapWithinLimitIff | packages/sdk/src/built-in-processors.ts:92-101 | The result's own estimate is within the limit if and only if nothing was cut or no surrogate pair is kept; it is never more than twice the limit |
| SearchText.SearchState.RecordMatch | packages/sdk-tools/src/search-text.ts:281-293 | Keeps the state equal to the list of matches so far cut at the limit, and says whether to go on |
| SearchText.IsBinaryBuffer | packages/sdk-tools/src/search-text.ts:273-279 | A null byte in the first 8 KB |
| SearchText.ScanLines | packages/sdk-tools/src/search-text.ts:299-304 | Scanning the lines, early exit included, equals cutting the full list |
| SearchText.ScanFile | packages/sdk-tools/src/search-text.ts:295-305 | The same for a file |
| SearchText.HandleEntry | packages/sdk-tools/src/search-text.ts:236-245 | The same for an entry |
| SearchText.Walk | packages/sdk-tools/src/search-text.ts:247-255 | The same for a directory, whatever was found before |
| SearchText.WalkBackend | packages/sdk-tools/src/search-text.ts:331-349 | The same through a backend, which may be cyclic |
| SearchText.HandleBackendEntry | packages/sdk-tools/src/search-text.ts:352-372 | The same for a backend entry |
| SearchText.ScanFileBackend | packages/sdk-tools/src/search-text.ts:374-395 | The same for a backend file |
| SearchText.SearchLocal | packages/sdk-tools/src/search-text.ts:146-186 | The local search returns the first matches up to the limit, truncated exactly when there are more, and a total of at most one over the limit |
| SearchText.SearchBackend | packages/sdk-tools/src/search-text.ts:161-174 | So does the backend search |
| SearchText.AllMatchesExactly | packages/sdk-tools/src/search-text.ts:236-305 | The full local list holds exactly the matching lines of the readable text files that no forbidden path hides, with number and preview |
| SearchText.BackendMatchesExactly | packages/sdk-tools/src/search-text.ts:331-395 | On any backend, also a cyclic one, the full list holds exactly the matching lines of the text files its listings reach within the depth limit past no forbidden path |
| SearchText.SearchesAgreeIff | packages/sdk-tools/src/search-text.ts:307-395 | On a mirrored tree both lists are equal if and only if, for every file of acceptable size with a matching line, it is text by its bytes exactly when it is text by its characters and lies within the depth limit |
| SearchText.LineMatchesExactly | packages/sdk-tools/src/search-text.ts:281-304 | Within a file, exactly the matching lines, the preview being the line up to 200 code units and otherwise its first 200 with an ellipsis |
| SearchText.LineMatchesInOrder | packages/sdk-tools/src/search-text.ts:299-304 | In ascending order of line numbers, none twice |
| SearchText.LargerLimitExtends | packages/sdk-tools/src/search-text.ts:281-293 | A larger limit only adds matches at the end |
| PtySessions.ChunkwiseCap | packages/sdk-pty/src/pty-interactive-backend.ts:319-321 | Capping chunk by chunk is capping the whole output |
| PtySessions.CapsChunkwiseIffPositive | packages/sdk-pty/src/pty-interactive-backend.ts:86-89 | That holds for all outputs if and only if the cap is positive |
| PtySessions.DrainCapIff | packages/sdk-pty/src/pty-interactive-backend.ts:212-217 | A drain with its own cap gives the data capped once, at the smaller cap, if and only if nothing was cut before, its cap is at most the buffer's, or it has room for the marker too |
| PtySessions.OutputIsPartitioned | packages/sdk-pty/src/pty-interactive-backend.ts:212-217 | Over any run the buffer is the capped output since the last drain, the k-th drain gave back the k-th window capped by the buffer and by its own cap, and the windows followed by what came since are all the process emitted |
| PtySessions.UncappedDrainsLoseNothing | packages/sdk-pty/src/pty-interactive-backend.ts:212-217 | Over any run in which no window exceeds the caps that apply to it, what the callers were given followed by what is pending is exactly what the process emitted |
| PtySessions.WritesTakeTurns | packages/sdk-pty/src/pty-interactive-backend.ts:358-372 | Over any run writes happen in call order, and none after the session's death |
| PtySessions.OneAtATime | packages/sdk-pty/src/pty-interactive-backend.ts:358-372 | Over any run the outputs go to the write calls in the order their turns came, one each, at most the latest still waiting; the start call gets one |
| PtySessions.KeepsWindowIff | packages/sdk-pty/src/pty-interactive-backend.ts:343-345 | A write is sure to get everything emitted since the drain before it, whatever happens until its window ends, if and only if the start call has had its own output |
| PtySessions.BothCanWait | packages/sdk-pty/src/pty-interactive-backend.ts:327-358 | A run from the start that reaches a write waiting beside the start call |
| PtySessions.RunInv | packages/sdk-pty/src/pty-interactive-backend.ts:319-371 | Every run keeps the session invariant, and a dead session accepts and types nothing more |
| PtySessions.PtySession.OnData | packages/sdk-pty/src/pty-interactive-backend.ts:319-321 | Appends a chunk and caps the buffer |
| PtySessions.PtySession.Collect | packages/sdk-pty/src/pty-interactive-backend.ts:212-217 | Empties the buffer and returns it capped |
| PtySessions.PtySession.FinishStart | packages/sdk-pty/src/pty-interactive-backend.ts:328-329 | The start call takes the first window |
| PtySessions.PtySession.BeginWrite | packages/sdk-pty/src/pty-interactive-backend.ts:360-363 | The head of the chain types, or is refused on a dead session |
| PtySessions.PtySession.FinishWrite | packages/sdk-pty/src/pty-interactive-backend.ts:364-369 | Returns the window of that write |
| PtySessions.PtyBackend.StartInteractive | packages/sdk-pty/src/pty-interactive-backend.ts:290-330 | Refused exactly at the ceiling, with the live ids; otherwise registers a fresh session; never more than the ceiling |
| PtySessions.PtyBackend.WriteStdin | packages/sdk-pty/src/pty-interactive-backend.ts:351-373 | Accepted exactly for a live session and queued behind its earlier writes; other sessions untouched |
| PtySessions.PtyBackend.Remove | packages/sdk-pty/src/pty-interactive-backend.ts:322-326 | A session that ends dies and leaves the map in one step |
| PtySessions.PtyBackend.Kill | packages/sdk-pty/src/pty-interactive-backend.ts:383-388 | Ends that session only; unknown ids are ignored |
| PtySessions.PtyBackend.KillAll | packages/sdk-pty/src/pty-interactive-backend.ts:408-410 | Ends every session |
| ReadBeforeWrite.BackendWritesReplaceWhatWasRead | packages/sdk-tools/src/write-file.ts:224-249 | In any interleaving with other writers, a backend write over a file that existed at its check replaces exactly the version whose content the last recorded read delivered |
| ReadBeforeWrite.LocalWritesReplaceWhatWasChecked | packages/sdk-tools/src/write-file.ts:171-186 | In any run a local write that replaces a version with the time its check saw replaces the content last read |
| ReadBeforeWrite.VersionKeptIff | packages/sdk-tools/src/write-file.ts:171-176 | Over any window of events a version is still on disk at the end if and only if nothing created, rewrote or deleted the file in between |
| ReadBeforeWrite.ThereIffLastChange | packages/sdk-tools/src/write-file.ts:171-176 | A file is there at the end if and only if the last change leaves it, or none happened and it was there |
| ReadBeforeWrite.OverwriteIff | packages/sdk-tools/src/write-file.ts:171-186 | For every schedule between stat and commit of a write over an existing file: it replaces the version it checked, which is what was last read, if and only if nothing touched the file; nothing if and only if the last change deleted it; otherwise a backend write is refused and a local one replaces a version it never saw |
| ReadBeforeWrite.LocalWriteLosesUpdate | packages/sdk-tools/src/write-file.ts:171-176 | A run from the start in which a local write, after a read and a check, replaces another writer's version |
| ReadBeforeWrite.GapBetweenCheckAndCommit | packages/sdk-tools/src/write-file.ts:171-176 | A foreign write in the gap is refused by the backend and lost by the local write |
| ReadBeforeWrite.NewFileClobbersIff | packages/sdk-tools/src/write-file.ts:235-244 | For every schedule between stat and commit of a write whose check saw no file: it goes through on both paths, and replaces a newer version it never saw if and only if the last change leaves a file |
| ReadBeforeWrite.NewFileClobbers | packages/sdk-tools/src/write-file.ts:235-244 | A run from the start in which a backend write of a new file replaces content that was never read |
| ReadBeforeWrite.WriteNeedsFreshRead | packages/sdk-tools/src/read-tracker.ts:38-48 | After a write the file must be read again before the next one |
| ReadBeforeWrite.RunInv | packages/sdk-tools/src/read-file.ts:279-306 | Every run keeps: a version on disk with the recorded time has the content the read delivered, wherever foreign writes fall between stat, probe and read |
| ReadBeforeWrite.ReadTracker.Record | packages/sdk-tools/src/read-tracker.ts:16-18 | The last time recorded per path |
| ReadBeforeWrite.ReadTracker.Expected | packages/sdk-tools/src/read-tracker.ts:21-23 | And its lookup |
| ReadBeforeWrite.FileTools.constructor | packages/sdk-tools/src/read-tracker.ts:12-13 | The tools start with an empty tracker |
| ReadBeforeWrite.FileTools.StatForRead | packages/sdk-tools/src/read-file.ts:215-224 | The stretch up to `stat`: not found, too large, or under way; the protocol's step |
| ReadBeforeWrite.FileTools.ProbeForRead | packages/sdk-tools/src/read-file.ts:295-297 | The local probe: binary, gone, or under way; the protocol's step |
| ReadBeforeWrite.FileTools.LoadBytes | packages/sdk-tools/src/read-file.ts:225 | The read of the bytes; the protocol's step |
| ReadBeforeWrite.FileTools.DeliverRead | packages/sdk-tools/src/read-file.ts:226-230 | Refused as binary, or recorded and delivered; the protocol's step |
| ReadBeforeWrite.FileTools.StatForWrite | packages/sdk-tools/src/write-file.ts:192-218 | The time the check will see; the protocol's step |
| ReadBeforeWrite.FileTools.CheckWrite | packages/sdk-tools/src/write-file.ts:140-151 | The decision of the tracker; the protocol's step |
| ReadBeforeWrite.FileTools.ProbeForWrite | packages/sdk-tools/src/write-file.ts:180-183 | The local probe of the file to be overwritten; the protocol's step |
| ReadBeforeWrite.FileTools.CommitWrite | packages/sdk-tools/src/write-file.ts:240-245 | The write, or the backend's refusal of a stale one; the protocol's step |
| ReadBeforeWrite.FileTools.AbandonRead | packages/sdk-tools/src/read-file.ts:231-239 | An error in the middle of a read ends it, a security error as path_traversal; the protocol's step |
| ReadBeforeWrite.FileTools.AbandonWrite | packages/sdk-tools/src/write-file.ts:256-270 | An error in the middle of a write ends it with the answer for its kind; the protocol's step |
| ReadBeforeWrite.FileTools.WriteUnguarded | packages/sdk-tools/src/write-file.ts:145 | A write without a tracker is a foreign writer's step |
| ReadBeforeWrite.FileTools.ReadViaBackend | packages/sdk-tools/src/read-file.ts:208-240 | The stretches in sequence: the answer for every backend error, missing, large and binary file, else the content, whose time is recorded exactly then |
| ReadBeforeWrite.FileTools.ReadContent | packages/sdk-tools/src/read-file.ts:279-306 | The same locally, with a probe of the first 8 KB |
| ReadBeforeWrite.FileTools.WriteViaBackend | packages/sdk-tools/src/write-file.ts:224-270 | The stretches in sequence follow the decision: refused they change nothing, allowed they replace the file; an error of the backend changes nothing and is answered by its kind |
| ReadBeforeWrite.FileTools.WriteViaLocalFs | packages/sdk-tools/src/write-file.ts:154-190 | The same locally: refused outside the root, and a binary file is never replaced |
| ReadBeforeWrite.IsBinaryFile | packages/sdk-tools/src/write-file.ts:272-292 | A null byte in the first 8 KB |
| ReadView.PagesReassemble | packages/sdk-tools/src/read-file.ts:103-116 | The pages of a file, of any size, joined by newlines are the file |
| ReadView.NoOffsetIsFirstLine | packages/sdk-tools/src/read-file.ts:108-110 | Without an offset a view starts at the first line |
| ReadView.NumberedViewReadsBack | packages/sdk-tools/src/read-file.ts:108-116 | Each line of a numbered view reads back as its number in the file and its whole text, and as many are shown as the file and the limit allow; a page behind the last line is empty |
| Logbook.ParseLog | packages/sdk-tools/src/screenshot-logbook.ts:229-240 | All entries, or the first line that is none, blank lines skipped |
| Logbook.LinesRead | packages/sdk-tools/src/screenshot-logbook.ts:229-240 | A log is corrupt at its first line that is neither blank nor an entry, and otherwise holds the entries of its other lines in their order |
| Logbook.AppendAddsOneEntry | packages/sdk-tools/src/screenshot-logbook.ts:284-301 | The rewritten log holds the old entries and the new one, whether or not the old text ended in a newline; a corrupt line stays the one reported |
| Logbook.RecordAddsOrLeaves | packages/sdk-tools/src/screenshot-logbook.ts:319-337 | A call adds exactly the entry it reports, numbered next and holding what was asked for, or leaves the file alone |
| Logbook.RecordedIff | packages/sdk-tools/src/screenshot-logbook.ts:201-226 | A call is recorded exactly when nothing stands in its way, and every failure has the cause it names |
| Logbook.EveryRecordLandsOnce | packages/sdk-tools/src/screenshot-logbook.ts:376-397 | Over any log any number of queued calls land exactly the entries they report, once each, in order, numbered on, and never grow it over the limit; a corrupt log stays as it is |
| Logbook.ScreenshotLogbook.constructor | packages/sdk-tools/src/screenshot-logbook.ts:376-380 | The instance starts with an empty queue |
| Logbook.ScreenshotLogbook.Submit | packages/sdk-tools/src/screenshot-logbook.ts:393-395 | A call queues behind the earlier ones |
| Logbook.ScreenshotLogbook.RunNext | packages/sdk-tools/src/screenshot-logbook.ts:393-396 | The queue runs one call at a time, and a failed one does not stop it |
| Logbook.ScreenshotLogbook.RecordOrThrow | packages/sdk-tools/src/screenshot-logbook.ts:319-337 | The call's new file and outcome, every refusal and error included, in the order of the checks |
| Logbook.ScreenshotLogbook.AppendEntry | packages/sdk-tools/src/screenshot-logbook.ts:284-301 | Rewrites the log with the new line, or fails and leaves it |
| Logbook.ListIsEnd | packages/sdk-tools/src/screenshot-logbook.ts:350-351 | A listing is the end of the log, as long as asked for or 20, and no longer than the log may be |
| Logbook.ListEndsInLatest | packages/sdk-tools/src/screenshot-logbook.ts:339-352 | After a record a listing ends in the new entry and is otherwise the end of the earlier listing |
| Compaction.SelectByTokenBudget | packages/sdk/src/compaction.ts:102-117 | Head and tail together are the transcript, split at the budget position |
| Compaction.BudgetSplitIsLongest | packages/sdk/src/compaction.ts:97-117 | The tail is the longest that fits the budget, or the last message alone |
| Compaction.BudgetSplitIsUnique | packages/sdk/src/compaction.ts:97-117 | No other split is |
| Compaction.SplitLosesNothing | packages/sdk/src/compaction.ts:120-129 | In both modes the prompts, and the older window followed by the tail, are in transcript order and together are its messages |
| Compaction.PromptsExactly | packages/sdk/src/compaction.ts:86-88 | The prompts set aside are exactly the system messages that are no checkpoints |
| Compaction.SummaryStandsBetween | packages/sdk/src/compaction.ts:187-214 | A summary of the older window stands between prompts and tail and nothing else changes; a summariser that throws leaves the transcript or fails the call; an empty marker is refused |
| Compaction.EstimateTokens | packages/sdk/src/compaction.ts:444-446 | The estimate is the number of code units over four, rounded up |
| Compaction.CountKeptIff | packages/sdk/src/compaction.ts:120-129 | By count the tail is the last turns asked for if and only if the count is positive or there is no turn; a count of 0 keeps all |
| Compaction.OrderKeptIff | packages/sdk/src/compaction.ts:119-129 | Compacting by count leaves the messages in their order if and only if there is nothing to drop or every system prompt stands before every kept turn |
| Compaction.CompactedTwice | packages/sdk/src/compaction.ts:187-202 | Compacting without a summariser twice is compacting once |
| Compaction.SettlesIffNotNegative | packages/sdk/src/compaction.ts:187-202 | That holds for all transcripts if and only if the window is by tokens or the count is not negative |
| Compaction.NegativeCountKeepsDropping | packages/sdk/src/internal/runtime/compression/compression-helpers.ts:27-38 | A transcript that a negative count shortens at every pass |
| Compaction.FilterFromLatestCheckpoint | packages/sdk/src/compaction.ts:244-256 | The backward loop returns the turns from or behind the latest checkpoint, and all of them when there is none |
| Compaction.FilterSettles | packages/sdk/src/compaction.ts:239-256 | Filtering twice is filtering once, in both modes |
| LexicalHash.Hash | packages/sdk-cache/src/lexical-embedder.ts:50-51 | The loop computes the base-31 polynomial of the token as a signed 32-bit value |
| LexicalHash.WrapStep | packages/sdk-cache/src/lexical-embedder.ts:51 | Wrapping at each character is wrapping once |
| LexicalHash.BucketIsRemainder | packages/sdk-cache/src/lexical-embedder.ts:52 | The bucket is the remainder of the hash without its sign |
| LexicalHash.Embed | packages/sdk-cache/src/lexical-embedder.ts:47-54 | Every bucket holds the number of tokens that hash to it |
| LexicalHash.CountsSumToTokens | packages/sdk-cache/src/lexical-embedder.ts:48-54 | The counts sum to the number of tokens |
| LexicalHash.CountIgnoresOrder | packages/sdk-cache/src/lexical-embedder.ts:48-54 | They do not depend on the order of the tokens |
| StreamTranslator.SafeSendState.SafeNotify | packages/acp/src/translator.ts:64-86 | Attempts are the updates said so far, or a prefix that ended in the tenth failure in a row |
| StreamTranslator.SafeSendState.HandleAssistant | packages/acp/src/translator.ts:88-118 | The same over the blocks of a message |
| StreamTranslator.SafeSendState.DispatchMessage | packages/acp/src/translator.ts:179-211 | The same over any message |
| StreamTranslator.UpdatesExactly | packages/acp/src/translator.ts:88-157 | The updates of a stream are exactly those of its text blocks, tool uses, tool calls and, unless suppressed, thoughts |
| StreamTranslator.TranslateStream | packages/acp/src/translator.ts:170-177 | The attempts are the flattened translation of the messages taken, up to the attempt that is the tenth failure in a row; an abort cuts only between messages |
| StreamTranslator.TranslationIsUnique | packages/acp/src/translator.ts:170-177 | Messages, aborts and failures determine exactly what is attempted |
| StreamTranslator.StopIsUnique | packages/acp/src/translator.ts:71-84 | How many are attempted is determined by the failures |
| StreamTranslator.StreakIsTrailing | packages/acp/src/translator.ts:74-81 | The counter is the number of failures behind the last success |
| CircuitBreakers.CircuitBreaker.constructor | packages/memory-mem0/src/circuit-breaker.ts:52-58 | Starts closed |
| CircuitBreakers.CircuitBreaker.EnsureClosed | packages/memory-mem0/src/circuit-breaker.ts:61-69 | Refuses exactly when at least the threshold of failures followed the last success and the last one's cooldown is not over |
| CircuitBreakers.CircuitBreaker.RecordFailure | packages/memory-mem0/src/circuit-breaker.ts:72-77 | Keeps the two fields equal to the history |
| CircuitBreakers.CircuitBreaker.RecordSuccess | packages/memory-mem0/src/circuit-breaker.ts:80-83 | The same for a success |
| CircuitBreakers.FailuresSinceAreTheLast | packages/memory-mem0/src/circuit-breaker.ts:35-36 | The failures counted are the ones behind the last success |
| CircuitBreakers.OpensAtThreshold | packages/memory-mem0/src/circuit-breaker.ts:72-77 | Behind a success, a run of failures opens the breaker exactly when there are at least the threshold of them, for the cooldown behind the last |
| CircuitBreakers.OneFailureReopens | packages/memory-mem0/src/circuit-breaker.ts:42-44 | After a cooldown without a success a single failure opens the breaker for a whole cooldown |

## Left out

- Real files, processes, terminals, timers and the network: they are steps, parameters or a map of contents here.
- The patch parser, the matcher of update chunks, the path and secret guards, the line-based replacement ladder, JSON
  and its schemas, Unicode normal form NFC and the UTF-8 decoder of the search: parameters, or assumed to answer the
  same each time; the logbook's codec is assumed to read back what it writes, on one visible line.
- ApplyPatch.ApplyPatch: an operation that raises an input/output error is assumed to have changed nothing itself, and directories are not modelled.
- The patch guard's answer is fixed during one patch; files that other programs change meanwhile are not modelled.
- `getJob` and `list` of the job queue; random identifiers are assumed fresh; fractional and NaN bounds.
- Lone surrogates in the truncator, its separator and trailer texts and the overflow file.
- Control-character stripping and `invalid_processor_options`.
- Symbolic links in the local walks, which skip them; a search root that is not in normal form.
- Idle timers, the yield clamp, process-group kill and fractional or negative caps of terminal sessions.
- ReadBeforeWrite.BackendWritesReplaceWhatWasRead: assumes fresh modification times and that a backend checks the expected time and writes in one step; the bundled local file system awaits in between.
- ReadBeforeWrite.FileTools.CommitWrite: a backend's check of the expected time and its write are one step.
- Contents are bytes in the read and write protocol; decoding is not modelled.
- Logbook.ScreenshotLogbook.RecordOrThrow: reading and writing the log file is one step per call; writers outside the instance's queue are not modelled, and the path guards and the inspection of the image are parameters.
- The context-window resolution, the compaction trigger and checkpoint building: short case splits.
- Lower-casing, splitting into tokens and the floating-point normalisation of the embedder.
- The tool kind and the log lines of the translator.
- The approval policy, blast radius, goal, to-do list and budget modules: each is a short table or counter whose
  behaviour can be read off one body, so a statement about it would repeat that body.
