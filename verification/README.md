# BharatCode: verified model

A Dafny model of the parts of BharatCode whose behaviour is hardest to see from one function body,
with proofs of what they promise. `dafny verify dfyconfig.toml` checks the whole project.

**Patches** (`crates/bharatcode-apply-patch`). The incremental parser is an object whose methods
update its fields in place (`StreamingParser`), each tied to a function on the parser's state
(`ParserSteps`). On top of those functions stand the parser's theorems: it does not matter how the
text is cut (`ParserRefinement`), accepted patches are well formed (`WellFormed`), printing by the
documented grammar and parsing again is the identity (`PatchPrinter`, `RoundTrip`, `PatchParser`),
what the grammar allows and the parser refuses (`Grammar`), exactly which texts are accepted and as
what, namely those whose normal form is such a print (`NormalForm`, `AcceptedPatches`, `Language`),
the line number of an error points at the faulty line (`ErrorLines`) and its kind says why
(`Refusals`), and a shell heredoc around a patch changes nothing outside the listed cases
(`Heredoc`). The other half is what a patch does to files: the four-level search (`SeekSequence`) and
what its levels mean for the text of the lines (`LineMatching`), locating, sorting and applying edits
(`ApplyPatch`), where each kind of chunk lands (`ChunkPlaces`), when edits overlap (`EditOrder`),
what the new text is (`PatchMeaning`), whole patches over a tree of files (`Workspace`), and what
they leave on disk, from plain patch text on (`DiskEffects`).

**Elicitation** (`action_required_manager.rs`, `elicitation.rs`). A waiter with a deadline races
callers that claim its request, persist a message and submit. `ElicitationSteps` has one step for
each atomic section, `ActionRequired` the objects whose methods are those sections,
`Elicitation` what holds in every interleaving, and `ElicitationReasons` what the result of a call
says about its request.

**Smaller machines.** The quote-aware command splitter (`ExecPolicy`) and what the screen promises
in terms of operators, quotes and words (`CommandScreen`), greedy context selection
(`ContextOptimizer`), the session registry alone and shared (`SessionRegistry`,
`SessionInterleavings`), the per-token limiter (`TokenBucket`), downloads (`Download`), how they
resume and what they leave behind (`Resumption`), and the gate that admits them (`DownloadGate`).

Strings are sequences of Unicode scalar values, white space is the Unicode White_Space property,
paths are strings, numbers are unbounded. What the outside world decides comes in as a parameter:
the clock, the order of scores, the server's answers, which step of which caller is next. An error
message is a constructor of an enumeration together with its line number.

Where the code and its own comments disagree, the model follows the code:

- `seek_sequence` with `eof` set looks at the end of the file only and ignores `start`, although
  its comment speaks of falling back to a search from `start` (seek_sequence.rs:7-9, 32-36).
- The grammar comment asks for at least one hunk, one line in an added file and text after the mark
  of a line, and lets only the last chunk of a hunk end in an end-of-file marker; the parser asks
  for none of these. On the other hand the comment lets an update have no change, and a change
  consist of context markers alone; the parser refuses both (parser.rs:6-22,
  streaming_parser.rs:56-85, 265-309). `Grammar` says exactly what is accepted of all that one can
  write by either.
- White space before markers is said to be tolerated (parser.rs:24-25). Inside an update it is not:
  there an indented marker is a line of the chunk (streaming_parser.rs:230-238).
- `finish` accepts an unterminated end marker from any mode, so a patch may end in two of them
  (streaming_parser.rs:157-166).
- Two chunks may edit the same lines although chunks are said to be in order (parser.rs:78-79):
  an end-of-file chunk can match behind the cursor, and an addition before a blank last line can
  fall into another chunk's lines. `EditOrder` says exactly when this does not happen.
- The registry is said never to exceed its cap (multi_session.rs:164-165, 193). That holds for one
  caller; with n callers the bound is cap + n - 1, and it is reached.
- The rate limit is said to hold for each token (oidc-proxy/README.md:105). Every restart of the
  object forgets the timestamps, so over n lives it holds exactly when n is 1, the budget is no
  larger than the rate, or the rate is 0.
- The context budget is said not to be exceeded (context_optimizer.rs:91-92). It is kept exactly
  when the protected messages alone keep it.
- Tool requests are said to be kept together with their responses (context_optimizer.rs:133-134).
  They are, under every ranking, exactly when there is no set of other messages with which one of
  the two keeps the budget and both break it.
- A download whose directories cannot be created leaves an entry that refuses every later start
  (download_manager.rs:241-263).
- A 206 that stops before the end of the file is allowed by section 15.3.7 of RFC 9110 and is
  taken for the whole rest of the file (download_manager.rs:574-655). A completed download is whole
  exactly when the last answer reached the end.

## Model

| member | source | states |
|---|---|---|
| StreamingParser.StreamingPatchParser.constructor | crates/bharatcode-apply-patch/src/streaming_parser.rs:24-49 | a new parser is in the initial state of the step functions |
| StreamingParser.StreamingPatchParser.EnsureUpdateHunkIsNotEmpty | crates/bharatcode-apply-patch/src/streaming_parser.rs:56-85 | the error for closing an update without chunks or with an empty last chunk, with its line number, and none otherwise |
| StreamingParser.StreamingPatchParser.HandleHunkHeadersAndEndPatch | crates/bharatcode-apply-patch/src/streaming_parser.rs:87-140 | a header is handled, refused or not recognised; refused and unrecognised lines leave the whole state unchanged |
| StreamingParser.StreamingPatchParser.ProcessUpdateLine | crates/bharatcode-apply-patch/src/streaming_parser.rs:230-399 | only the last hunk changes, as the line demands, or the fault is reported and nothing changes |
| StreamingParser.StreamingPatchParser.ProcessLine | crates/bharatcode-apply-patch/src/streaming_parser.rs:178-411 | the new state and the error are those of the line function, in every mode |
| StreamingParser.StreamingPatchParser.EndLine | crates/bharatcode-apply-patch/src/streaming_parser.rs:143-148 | a newline takes the buffered line without one carriage return, counts it and processes it |
| StreamingParser.StreamingPatchParser.PushDelta | crates/bharatcode-apply-patch/src/streaming_parser.rs:142-155 | the loop over the characters stops at the first error and leaves the state it had then |
| StreamingParser.StreamingPatchParser.FinishLine | crates/bharatcode-apply-patch/src/streaming_parser.rs:158-167 | the unterminated last line counts as a line and may be the end marker in any mode |
| StreamingParser.StreamingPatchParser.FinishTaken | crates/bharatcode-apply-patch/src/streaming_parser.rs:160-167 | that line closes the last hunk if it is the end marker and is processed like any other if not |
| StreamingParser.StreamingPatchParser.Finish | crates/bharatcode-apply-patch/src/streaming_parser.rs:157-176 | success exactly when the patch has ended after the last line |
| ParserRefinement.PushAppend | crates/bharatcode-apply-patch/src/streaming_parser.rs:142-155 | for every state and texts a and b, pushing a+b is pushing a and then b, unless a fails, and then with the same error and state |
| ParserRefinement.CuttingIsIrrelevant | crates/bharatcode-apply-patch/src/streaming_parser.rs:142-155 | two ways of cutting one text into deltas end in the same state with the same first error |
| ParserRefinement.PushGrows | crates/bharatcode-apply-patch/src/streaming_parser.rs:142-155 | a push, failed or not, freezes all hunks but the last and only extends that one |
| ParserRefinement.StreamingOnlyRefines | crates/bharatcode-apply-patch/src/streaming_parser.rs:142-411 | the same across any sequence of pushes and finishes: hunks never vanish, a move path is set at most once and before any chunk, an end-of-file chunk gains no line |
| WellFormed.PushKeepsInv | crates/bharatcode-apply-patch/src/streaming_parser.rs:142-411 | the mode tells the kind of the last hunk, all hunks before it are complete and only its last chunk may be empty; every push keeps this |
| WellFormed.FinishKeepsInv | crates/bharatcode-apply-patch/src/streaming_parser.rs:157-176 | so does finish |
| WellFormed.AcceptedIsComplete | crates/bharatcode-apply-patch/src/streaming_parser.rs:56-140 | text that is pushed and finished without error yields only complete hunks |
| WellFormed.FinishAcceptsABareEndMarker | crates/bharatcode-apply-patch/src/streaming_parser.rs:157-166 | an unterminated end marker finishes the patch exactly when the last hunk may be closed, whatever the mode, even before the begin marker |
| PatchParser.AcceptedPatchIsWellFormed | crates/bharatcode-apply-patch/src/parser.rs:170-188 | in an accepted patch every update has a chunk, every chunk a line, every path, move target and context is non-empty, on one line and without white space at its end, every added file is empty or ends in a newline |
| PatchParser.ParsePatchText | crates/bharatcode-apply-patch/src/parser.rs:170-188 | driving the parser object computes the parse function |
| ErrorLines.ErrorsPointAtTheirLine | crates/bharatcode-apply-patch/src/streaming_parser.rs:56-411 | when a patch is refused with a line number, that line is the header of the update that is open and without a chunk from there up to the first refused line, or for any other fault the first refused line itself |
| Refusals.RefusedLinesSayWhy | crates/bharatcode-apply-patch/src/streaming_parser.rs:56-411 | whatever line a well-formed state refuses, the kind and the line number of the error are those of one table over the mode, the last chunk and the line |
| Refusals.UnfinishedStreamSaysWhy | crates/bharatcode-apply-patch/src/streaming_parser.rs:157-176 | a stream that ends is refused for its last line or for not having ended |
| Refusals.BoundariesMean | crates/bharatcode-apply-patch/src/parser.rs:190-231 | a text is within its boundaries exactly when it begins and ends with the markers, or does so inside a heredoc of at least four lines; otherwise the fault says which marker is missing |
| Refusals.RefusedPatchSaysWhy | crates/bharatcode-apply-patch/src/parser.rs:170-188 | a refused patch is outside its boundaries, or draws that complaint about the first line that cannot stand where it does |
| RoundTrip.OneChunk | crates/bharatcode-apply-patch/src/streaming_parser.rs:265-381 | the printed lines of a chunk are accepted and add exactly that chunk |
| RoundTrip.OneHunk | crates/bharatcode-apply-patch/src/streaming_parser.rs:87-399 | the printed lines of a hunk are accepted, add exactly that hunk and leave the parser ready for the next |
| PatchParser.PushLines | crates/bharatcode-apply-patch/src/streaming_parser.rs:142-155 | pushing text is processing its lines one by one, with carriage returns stripped |
| PatchParser.PrintThenParse | crates/bharatcode-apply-patch/src/parser.rs:6-22 | for every document with clean names and newline-free lines, parsing its print returns exactly its hunks and its environment id; when no line ends in a carriage return the text is the plain print of the grammar and comes back unchanged |
| PatchPrinter.GuardedLinesAreRestored | crates/bharatcode-apply-patch/src/streaming_parser.rs:145-146 | a line that ends in a carriage return survives the two strips if it is written with two more |
| Heredoc.HeredocIsTransparent | crates/bharatcode-apply-patch/src/parser.rs:209-231 | wrapping a trimmed text in a heredoc gives the same result if and only if none of three listed cases applies |
| Heredoc.WrappedPatchParsesTheSame | crates/bharatcode-apply-patch/src/parser.rs:209-231 | whatever parses as it stands parses to the same result in a heredoc |
| Heredoc.PrintWrapThenParse | crates/bharatcode-apply-patch/src/parser.rs:131-168 | print, wrap and parse is the identity too |
| AcceptedPatches.UpdateLineFollows | crates/bharatcode-apply-patch/src/streaming_parser.rs:230-399 | an accepted line of an update adds its normal form to the print of the same document |
| AcceptedPatches.RunLinesAdvance | crates/bharatcode-apply-patch/src/streaming_parser.rs:178-411 | the normal form of the lines accepted so far is the print of a document whose hunks are the state of the parser |
| AcceptedPatches.AcceptedPatchIsPrinted | crates/bharatcode-apply-patch/src/parser.rs:24-25 | converse of the round trip: the normal form of every accepted patch is the print of a document, possibly followed by a second end marker, and its hunks are exactly those returned |
| AcceptedPatches.AcceptedPatchHasANormalForm | crates/bharatcode-apply-patch/src/parser.rs:6-25 | the hunks and the environment id of any accepted patch are also those of a printed one |
| AcceptedPatches.SecondEndMarkerIsAccepted | crates/bharatcode-apply-patch/src/streaming_parser.rs:157-166 | a second end marker is accepted without a newline and refused with one |
| NormalForm.LineIsReadAlike | crates/bharatcode-apply-patch/src/streaming_parser.rs:178-411 | a line whose normal form is accepted is read just as that is |
| NormalForm.SkippedLineIsIgnored | crates/bharatcode-apply-patch/src/streaming_parser.rs:230-315 | a line without a normal form changes nothing but the line number |
| NormalForm.PlaceMoves | crates/bharatcode-apply-patch/src/streaming_parser.rs:178-411 | the place where the next line stands, and so what is tolerated there, follows from the normal form alone |
| NormalForm.ReadLikeTheNormalForm | crates/bharatcode-apply-patch/src/streaming_parser.rs:178-411 | lines whose normal form is accepted are accepted with the same hunks |
| Language.PrintInNormalFormIsRead | crates/bharatcode-apply-patch/src/parser.rs:24-25 | whatever has the print of a document as its normal form is accepted as that document |
| Language.AcceptedExactlyWhen | crates/bharatcode-apply-patch/src/parser.rs:170-188 | a text is accepted with given hunks and environment if and only if it is within the boundaries and its normal form is the print of a document that stands for them, up to a second end marker |
| Language.IndentedMarkerIsContext | crates/bharatcode-apply-patch/src/streaming_parser.rs:230-238 | a marker with a blank before it is a line of the chunk it stands in, and refused behind an end-of-file marker |
| Grammar.WrittenPatchIsAcceptedExactlyWhen | crates/bharatcode-apply-patch/src/parser.rs:6-22 | with clean names and newline-free lines, what the grammar lets one write is accepted if and only if every update has a chunk and every chunk a line; otherwise a hunk is refused |
| Grammar.UpdateWithoutAChangeIsRefused | crates/bharatcode-apply-patch/src/parser.rs:16-18 | an update without a change, which the grammar allows, is refused at its header, with or without a move |
| SeekSequence.NormaliseIsIdempotent | crates/bharatcode-apply-patch/src/seek_sequence.rs:79-97 | normalising twice is normalising once |
| SeekSequence.LenienceGrows | crates/bharatcode-apply-patch/src/seek_sequence.rs:37-110 | lines equal at a level are equal at every more lenient one |
| LineMatching.LevelsMean | crates/bharatcode-apply-patch/src/seek_sequence.rs:37-110 | when two lines agree: the same text; the same up to white space at the end; the same inside white space at both ends; or, between such white space, of equal length and alike character by character up to the dashes, quotes and spaces listed by code point |
| LineMatching.SeekFindsTheBest | crates/bharatcode-apply-patch/src/seek_sequence.rs:15-113 | an index is returned if and only if it is the first place, from the start on or at the very end, where the lines agree at the strictest level that has any; agreement is stated in characters |
| LineMatching.SeekFindsNothing | crates/bharatcode-apply-patch/src/seek_sequence.rs:99-112 | nothing is returned if and only if the pattern is too long or agrees with the lines nowhere, even at the most lenient level |
| SeekSequence.SeekIsInBounds | crates/bharatcode-apply-patch/src/seek_sequence.rs:21-36 | a match lies inside the file and not before the search start; an empty pattern is found at the start |
| SeekSequence.EofIgnoresTheCursor | crates/bharatcode-apply-patch/src/seek_sequence.rs:32-36 | with eof set the result does not depend on the start and can only be the end of the file |
| LineMatching.FallingBackMakesADifference | crates/bharatcode-apply-patch/src/seek_sequence.rs:7-9 | the search the comment describes, first at the end and then from the start, gives the same exactly when the end matches or nothing matches from the start on |
| SeekSequence.EofMatchesBeforeTheCursor | crates/bharatcode-apply-patch/src/seek_sequence.rs:32-36 | so an end-of-file pattern is found before the cursor, where the same pattern without eof is not |
| SeekSequence.MatchesAt | crates/bharatcode-apply-patch/src/seek_sequence.rs:45-51 | the comparison loop decides whether the pattern occurs at an index |
| SeekSequence.SearchLevel | crates/bharatcode-apply-patch/src/seek_sequence.rs:44-55 | the search loop returns the first occurrence at or after its start |
| SeekSequence.SeekLines | crates/bharatcode-apply-patch/src/seek_sequence.rs:15-113 | the four passes compute the search function |
| ApplyPatch.LocateChunk | crates/bharatcode-apply-patch/src/apply.rs:199-266 | where one chunk goes and where the cursor goes, with the context search, the retry without a trailing blank line and both errors |
| ChunkPlaces.ChunksLand | crates/bharatcode-apply-patch/src/apply.rs:199-258 | a chunk becomes an edit if and only if its context, if any, is found from the cursor, and its old lines, searched right behind it, are found; without them, minus a blank last one on both sides; a chunk without old lines adds its new ones at the end |
| ChunkPlaces.ChunksAreLost | crates/bharatcode-apply-patch/src/apply.rs:206-263 | it is lost if and only if its context is not found, or its old lines are not, with and without a blank last one; the error names which |
| ChunkPlaces.EditsFollowTheirContext | crates/bharatcode-apply-patch/src/apply.rs:202-216 | what a chunk with a context line replaces starts strictly behind the best place of that line |
| ApplyPatch.ComputeReplacements | crates/bharatcode-apply-patch/src/apply.rs:191-271 | the loop over the chunks followed by the sort computes the sorted edits or the first error |
| ApplyPatch.SortSorts | crates/bharatcode-apply-patch/src/apply.rs:268 | sorting by start gives a sorted permutation |
| ApplyPatch.SortIsStable | crates/bharatcode-apply-patch/src/apply.rs:268 | and keeps the order of edits with equal starts |
| ApplyPatch.ReplacementsAreSortedAndInBounds | crates/bharatcode-apply-patch/src/apply.rs:191-271 | whatever the chunks, the edits are sorted and lie inside the file |
| ApplyPatch.OrderlyReplacementsAreDisjoint | crates/bharatcode-apply-patch/src/apply.rs:191-271 | without end-of-file chunks, and with a non-blank last line or no pure addition, the edits are disjoint and the replacing ones stay in chunk order |
| EditOrder.SortedApartExactlyWhenClear | crates/bharatcode-apply-patch/src/apply.rs:268 | sorted edits are disjoint exactly when any two, in list order, are clear of each other |
| EditOrder.ChunksArePlaced | crates/bharatcode-apply-patch/src/apply.rs:199-258 | where chunks land: additions at the insertion point, what an end-of-file chunk replaces up to the end, all else behind everything replaced before |
| EditOrder.ReplacementsAreDisjointExactlyWhen | crates/bharatcode-apply-patch/src/apply.rs:191-271 | for all chunks: the edits are disjoint exactly when every end-of-file chunk starts at or behind the end of what earlier chunks replaced, and a blank last line that additions go before is taken only alone and after them; then the replacing edits are in chunk order |
| ApplyPatch.ApartIsPairwise | crates/bharatcode-apply-patch/src/apply.rs:279-280 | edits each ending before the next are exactly the sorted, pairwise disjoint ones in range |
| ApplyPatch.ApplyReplacement | crates/bharatcode-apply-patch/src/apply.rs:285-295 | the remove and insert loops replace one stretch by another, and never insert out of range |
| ApplyPatch.ApplyReplacements | crates/bharatcode-apply-patch/src/apply.rs:275-299 | the reverse loop applies the edits from last to first; every insertion is in range for any sorted edits, overlapping ones included |
| ApplyPatch.BackwardsIsSplice | crates/bharatcode-apply-patch/src/apply.rs:275-299 | for disjoint edits the reverse loop equals one left-to-right splice |
| ApplyPatch.SpliceLength | crates/bharatcode-apply-patch/src/apply.rs:275-299 | which has as many lines as before, minus those removed, plus those inserted |
| ApplyPatch.InsertionsKeepTheirOrder | crates/bharatcode-apply-patch/src/apply.rs:281-295 | in any sorted list of edits, two insertions that follow each other at one index are one insertion of the first text and then the second, under the reverse loop |
| PatchMeaning.DeriveNewContents | crates/bharatcode-apply-patch/src/apply.rs:167-186 | the in-place edit of a text computes the derivation function |
| PatchMeaning.DerivedTextIsEmptyOrTerminated | crates/bharatcode-apply-patch/src/apply.rs:182-185 | every new text is empty or ends in a newline |
| PatchMeaning.FinalTextKeepsTheLines | crates/bharatcode-apply-patch/src/apply.rs:172-185 | splitting the new text again gives the new lines, unless they end in a blank one |
| PatchMeaning.OwnLinesAreWrittenBack | crates/bharatcode-apply-patch/src/apply.rs:172-185 | writing a file's own lines gives it back exactly when it is empty or ends in a newline that no empty line precedes |
| PatchMeaning.UnchangedLinesKeepTheText | crates/bharatcode-apply-patch/src/apply.rs:167-186 | so a patch whose edits leave the lines as they are keeps the text exactly under that condition |
| PatchMeaning.ContextOnlyPatchKeepsTheText | crates/bharatcode-apply-patch/src/apply.rs:167-299 | and in particular a patch of well-aimed context lines |
| PatchMeaning.PatchMeansReplacement | crates/bharatcode-apply-patch/src/apply.rs:167-299 | end to end, with context lines and end-of-file chunks: if k0·o1·k1·…·om·km are the lines and each oi is at the first place behind the first line that is its context, or at the end, patching gives k0·n1·k1·…·nm·km with every ki untouched |
| ChunkPlaces.AdditionAppends | crates/bharatcode-apply-patch/src/apply.rs:218-228 | from text to text: a chunk without old lines appends its new lines, before a blank last line |
| ChunkPlaces.BlankBehindTheEndIsDropped | crates/bharatcode-apply-patch/src/apply.rs:230-257 | from text to text: old lines that end the file but for a blank last one are replaced, and the blank last new line is dropped |
| PatchMeaning.OrderlyPatchIsASplice | crates/bharatcode-apply-patch/src/apply.rs:167-299 | for orderly chunks the new text is the splice of the located edits |
| PatchMeaning.FittingPatchIsASplice | crates/bharatcode-apply-patch/src/apply.rs:167-299 | the same for all chunks that fit, end-of-file chunks and additions before a blank last line included |
| PatchMeaning.EndOfFileChunksMayOverlap | crates/bharatcode-apply-patch/src/apply.rs:229-257 | without that condition two chunks may replace the same line |
| PatchMeaning.AdditionsBeforeABlankEndMayOverlap | crates/bharatcode-apply-patch/src/apply.rs:217-227 | and an addition may land inside the lines of another chunk |
| Workspace.Tree.ApplyHunks | crates/bharatcode-apply-patch/src/apply.rs:81-141 | the loop over the hunks updates the files in place, as the function on file maps says, up to the first error |
| Workspace.Tree.ApplyOneHunk | crates/bharatcode-apply-patch/src/apply.rs:84-138 | one hunk adds, deletes, rewrites or moves exactly its file and is listed in the summary |
| DiskEffects.PathsAreResolved | crates/bharatcode-apply-patch/src/apply.rs:143-149 | an absolute path is itself; a relative one lies under the working directory, by its names between slashes |
| DiskEffects.HunksTakeEffect | crates/bharatcode-apply-patch/src/apply.rs:84-138 | a hunk leaves its contents at its path, its path gone, its new text at its path, or its new text at the target and the source gone unless they are one; every other path as before; it fails exactly when its file is missing or its chunks do not apply |
| DiskEffects.PatchesLeaveATrail | crates/bharatcode-apply-patch/src/apply.rs:81-141 | a patch goes from tree to tree, one for each hunk that takes effect, up to the first hunk that fails |
| DiskEffects.AddTextMakesTheFile | crates/bharatcode-apply-patch/src/parser.rs:6-22 | the text of an addition, written out in characters, makes a file of exactly the lines behind its plus signs, each terminated, and nothing else |
| DiskEffects.DeleteTextRemovesTheFile | crates/bharatcode-apply-patch/src/parser.rs:6-22 | the text of a deletion removes exactly its file, or reports that it is missing |
| DiskEffects.UpdateTextIsRead | crates/bharatcode-apply-patch/src/parser.rs:6-22 | the text of an update with environment, move, context, kept, removed and added line and end-of-file marker is read as the hunk it spells out |
| Workspace.OtherFilesAreUntouched | crates/bharatcode-apply-patch/src/apply.rs:81-141 | whether it succeeds or fails, a patch changes no file its hunks do not name |
| Workspace.FailureKeepsThePrefix | crates/bharatcode-apply-patch/src/apply.rs:81-141 | a failing patch leaves exactly the hunks before the failing one applied |
| Workspace.SummaryListsEveryHunk | crates/bharatcode-apply-patch/src/apply.rs:82-140 | on success the summary lists every hunk once, under its kind and in order |
| Workspace.PrintedDiffRewritesTheFile | crates/bharatcode-apply-patch/src/apply.rs:75-78 | from text to disk: the printed diff of well-aimed blocks rewrites its file to the new lines and nothing else |
| Workspace.EveryRewriteHasAPatch | crates/bharatcode-apply-patch/src/apply.rs:75-78 | for any file text and any newline-free lines there is a patch text that makes the file exactly those lines, each terminated, and touches nothing else |
| Workspace.ReachableTextsAreTerminated | crates/bharatcode-apply-patch/src/apply.rs:182-185 | a text can be the outcome of a patch that updates a file if and only if it is empty or ends in a newline |
| ActionRequired.PendingRequest.CheckClaim | crates/bharatcode-core/src/action_required_manager.rs:106-136 | a claim is refused for the wrong session, a sender already taken, or a closed channel, which also drops the sender; otherwise the lock is kept |
| ActionRequired.PendingRequest.Persist | crates/bharatcode-core/src/elicitation.rs:48-51 | a failed persist drops the claim and touches nothing else |
| ActionRequired.PendingRequest.TakeSender | crates/bharatcode-core/src/action_required_manager.rs:31-36 | submit takes the sender and lets go of the lock before it sends |
| ActionRequired.PendingRequest.Send | crates/bharatcode-core/src/action_required_manager.rs:38-44 | the send fills the channel, or fails when the receiver is gone |
| ActionRequired.ActionRequiredManager.Register | crates/bharatcode-core/src/action_required_manager.rs:73-84 | a new request is pending with its sender in place; nothing else changes |
| ActionRequired.ActionRequiredManager.Enqueue | crates/bharatcode-core/src/action_required_manager.rs:86-95 | its message goes to the end of the queue of its session |
| ActionRequired.ActionRequiredManager.DecideTimeout | crates/bharatcode-core/src/action_required_manager.rs:155-162 | under the lock the timer either takes the sender and times out, or leaves the request to the call that took it |
| ActionRequired.ActionRequiredManager.Unregister | crates/bharatcode-core/src/action_required_manager.rs:97-103 | the request leaves the table and its result is returned |
| ActionRequired.ActionRequiredManager.LookUp | crates/bharatcode-core/src/action_required_manager.rs:138-144 | only pending requests are found |
| ActionRequired.ActionRequiredManager.ClaimResponse | crates/bharatcode-core/src/action_required_manager.rs:106-136 | under the lock a call claims the request or is refused and lets go, as one step of the whole state |
| ActionRequired.ActionRequiredManager.PersistResponse | crates/bharatcode-core/src/elicitation.rs:48-51 | a call with a claim persists its message, or drops the claim, as one step |
| ActionRequired.ActionRequiredManager.SubmitResponse | crates/bharatcode-core/src/action_required_manager.rs:31-36 | it takes the sender and lets go of the lock, as one step |
| ActionRequired.ActionRequiredManager.SendResponse | crates/bharatcode-core/src/action_required_manager.rs:38-44 | it sends or finds the receiver gone, as one step |
| ActionRequired.ActionRequiredManager.DrainRequestsForSession | crates/bharatcode-core/src/action_required_manager.rs:182-189 | the whole queue of one session is returned in order and removed |
| Elicitation.EveryInterleavingKeepsInv | crates/bharatcode-core/src/action_required_manager.rs:66-189 | the invariant that ties senders, locks, channels, waiters, calls and queues holds after every interleaving |
| Elicitation.DeliveredIsReturned | crates/bharatcode-core/src/action_required_manager.rs:30-45 | a submit that returned Ok carries exactly the value the waiter returns, even if the deadline passed meanwhile, and there is at most one per request |
| Elicitation.AnswerWasDelivered | crates/bharatcode-core/src/action_required_manager.rs:146-165 | conversely every answer comes from a submit that returned Ok |
| Elicitation.TimeoutIsFinal | crates/bharatcode-core/src/action_required_manager.rs:153-180 | a request that timed out never had and never gets a successful submit, and the channel-closed exit of the waiter is unreachable |
| Elicitation.SubmitErrorsNeedACancelledWaiter | crates/bharatcode-core/src/action_required_manager.rs:30-45 | submit never finds its sender gone, and fails to send only when the waiter was cancelled |
| Elicitation.OnlyTheOwnerClaims | crates/bharatcode-core/src/action_required_manager.rs:114-121 | only a call of the owning session ever gets a claim |
| ElicitationReasons.ResultsTellTheTruth | crates/bharatcode-core/src/action_required_manager.rs:106-136 | in every interleaving a refusal for the session, for completion or for a gone receiver means just that of the request, and a delivered response is in its channel |
| ElicitationReasons.LookUpFindsTheWaiting | crates/bharatcode-core/src/action_required_manager.rs:138-144 | a look-up finds exactly the registered requests whose waiter has not returned |
| ElicitationReasons.GivingUpSaysWhy | crates/bharatcode-core/src/elicitation.rs:38-54 | a call with a claim that fails to persist or is dropped persists nothing and says so; one that persists is recorded |
| Elicitation.OneMessagePerRequest | crates/bharatcode-core/src/elicitation.rs:38-54 | at most one message is persisted for a request |
| Elicitation.PersistedIsNeverLost | crates/bharatcode-core/src/elicitation.rs:38-54 | once a message is persisted the waiter comes to nothing but its response, unless cancelled |
| Elicitation.PersistedReachesTheWaiter | crates/bharatcode-core/src/elicitation.rs:38-54 | and from every reachable state the remaining steps bring that response to the caller |
| Elicitation.StepsMoveOnward | crates/bharatcode-core/src/action_required_manager.rs:66-189 | no step moves a call or a waiter back or takes a persisted message away, and only its own cancellation cancels a waiter |
| Elicitation.NothingPreventsDelivery | crates/bharatcode-core/src/elicitation.rs:38-54 | so whatever happens in between, short of cancelling the waiter, a persisted response can still be brought to the caller |
| Elicitation.FailedPersistKeepsTheRequestOpen | crates/bharatcode-core/src/elicitation.rs:48-51 | after a failed persist or a dropped claim the sender is in place, the lock free, nothing persisted |
| Elicitation.RequestStaysOpen | crates/bharatcode-core/src/action_required_manager.rs:106-136 | in every reachable state a request whose waiter listens and whose sender no call has taken is pending, with the sender in place |
| Elicitation.RequestStaysClaimable | crates/bharatcode-core/src/action_required_manager.rs:106-136 | so until the deadline wins or a response is submitted, whenever the lock is free any new call of the owning session gets a claim |
| Elicitation.OpenRequestIsClaimable | crates/bharatcode-core/src/action_required_manager.rs:113-135 | a call that has found an open, unlocked request of its session locks and claims it |
| Elicitation.NoRequestMessageIsLost | crates/bharatcode-core/src/action_required_manager.rs:90-95 | for each session, drained plus queued is what was enqueued, in order |
| Elicitation.EnqueueAppends | crates/bharatcode-core/src/action_required_manager.rs:90-95 | a request is announced once and disturbs no other queue |
| ExecPolicy.SplitSegments | crates/bharatcode-core/src/exec_policy.rs:173-257 | the index loop computes the recursive splitter |
| ExecPolicy.SegmentsDropOnlySeparators | crates/bharatcode-core/src/exec_policy.rs:168-257 | the segments put together are the command line without the unquoted operators, which are listed by character, and without unshielded braces, by position |
| CommandScreen.SplitsAtOperators | crates/bharatcode-core/src/exec_policy.rs:168-257 | for each of ten operators between texts that do not lengthen or shield it, split(a op b) is split(a) followed by split(b) if and only if a is made of unquoted stretches and closed quotes |
| CommandScreen.OneSegmentExactlyWhen | crates/bharatcode-core/src/exec_policy.rs:168-257 | a command line is one segment if and only if nothing in it cuts |
| CommandScreen.PlainTextIsOneSegment | crates/bharatcode-core/src/exec_policy.rs:168-257 | so a text without operator characters is one segment |
| CommandScreen.TokensAreTheWords | crates/bharatcode-core/src/exec_policy.rs:164-166 | the tokens of a segment are some words if and only if it is laid out from them with white space around and between |
| ExecPolicy.TokensOfSpaced | crates/bharatcode-core/src/exec_policy.rs:161-166 | words joined by single blanks are read back one by one, so the prefix shown in a refusal is the prefix that matched |
| ExecPolicy.MatchedPrefixFinds | crates/bharatcode-core/src/exec_policy.rs:151-162 | a prefix is reported exactly when some entry matches, and then one that matches |
| ExecPolicy.CheckCommandLine | crates/bharatcode-core/src/exec_policy.rs:79-106 | the loop returns the verdict on the first refused segment |
| CommandScreen.CheckFindsTheFirstOffender | crates/bharatcode-core/src/exec_policy.rs:59-106 | a command line is allowed if and only if every segment is blank, or begins with the words of no denied entry and, with an allow list, with those of some allowed one; otherwise the verdict is about the first that does not, and says why |
| CommandScreen.DeniedWordsAreRefused | crates/bharatcode-core/src/exec_policy.rs:79-106 | so a command line with a segment that begins with the words of a denied entry is refused |
| CommandScreen.ChecksAtOperators | crates/bharatcode-core/src/exec_policy.rs:224-232 | a op b is allowed exactly when both a and b are, and otherwise refused for the first offender: an inner command is screened as if it stood alone |
| ContextOptimizer.SelectIndices | crates/bharatcode-core/src/context_optimizer.rs:106-186 | the loops compute the greedy selection, listed in increasing order |
| ContextOptimizer.GatherAnchors | crates/bharatcode-core/src/context_optimizer.rs:137-145 | the first message and the protected tail |
| ContextOptimizer.MarkAnchors | crates/bharatcode-core/src/context_optimizer.rs:146-151 | each is marked and paid for once |
| ContextOptimizer.AnchorsAreFirstAndTail | crates/bharatcode-core/src/context_optimizer.rs:137-151 | these are message 0 and the last protectLastN messages, at least one, and how many that is |
| ContextOptimizer.KeptWhenItFits | crates/bharatcode-core/src/context_optimizer.rs:177-183 | a message is kept exactly when it fits beside the anchors and the kept messages ranked above it |
| ContextOptimizer.SelectionIsLexicographicallyBest | crates/bharatcode-core/src/context_optimizer.rs:91-102 | among all sets that contain the anchors and keep the budget, the selection has the message at the first rank where it differs from another |
| ContextOptimizer.SelectionIsFeasibleAndMaximal | crates/bharatcode-core/src/context_optimizer.rs:91-102 | the budget is kept if and only if the anchors keep it, nothing is added otherwise, and nothing dropped would still fit |
| ContextOptimizer.ResultKeepsTheConversationOrder | crates/bharatcode-core/src/context_optimizer.rs:138-185 | the result lists the selection in increasing order, with the first message and the protected tail in it |
| ContextOptimizer.PairsStayTogetherExactlyWhen | crates/bharatcode-core/src/context_optimizer.rs:133-134 | two messages, such as a tool request and its response, are kept or dropped together under every ranking if and only if no set of other messages leaves room for one and not for the other |
| ContextOptimizer.PairsMayBeSplit | crates/bharatcode-core/src/context_optimizer.rs:133-134 | a cheap request kept without its expensive response |
| SessionRegistry.MultiSessionRegistry.constructor | crates/bharatcode-cli/src/multi_session.rs:128-136 | the cap is clamped into 1 to 64 |
| SessionRegistry.MultiSessionRegistry.EvictOldestIfFull | crates/bharatcode-cli/src/multi_session.rs:162-177 | below the cap nothing happens, at the cap exactly the least recently used key goes and is returned |
| SessionRegistry.MultiSessionRegistry.GetOrCreate | crates/bharatcode-cli/src/multi_session.rs:179-209 | the key moves to the front of the recency list, which keeps at most cap keys |
| SessionRegistry.MultiSessionRegistry.Remove | crates/bharatcode-cli/src/multi_session.rs:211-217 | the key leaves the list and its handle is returned |
| SessionRegistry.RunKeepsTheMostRecent | crates/bharatcode-cli/src/multi_session.rs:179-209 | while nothing is removed the registry hosts the most recently used distinct keys, as many as fit, in that order |
| SessionRegistry.HostedIffRecentlyUsed | crates/bharatcode-cli/src/multi_session.rs:179-209 | a used key is hosted if and only if fewer than cap different keys were used since its last use |
| SessionRegistry.HostedExactlyWhen | crates/bharatcode-cli/src/multi_session.rs:179-217 | after any run of uses and removals a key is hosted if and only if its last call was a use and the keys in use since then were never as many as the cap |
| SessionInterleavings.SessionsAreBounded | crates/bharatcode-cli/src/multi_session.rs:184-209 | over all interleavings of the lock sections of n callers there are never more than cap + n - 1 sessions |
| SessionInterleavings.CapHoldsOnlyAlone | crates/bharatcode-cli/src/multi_session.rs:164-165 | that bound is reached, so the cap itself holds in every run if and only if there is one caller |
| SessionInterleavings.OnlyTheOldestIsEvicted | crates/bharatcode-cli/src/multi_session.rs:162-177 | with other callers too, nothing but a removal or an eviction takes a session away, and an eviction only when the registry is full, and one used no later than any other |
| SessionInterleavings.UsedIsLatest | crates/bharatcode-cli/src/multi_session.rs:184-209 | in every interleaving a call that finds its session, or ends by inserting it, leaves it hosted and the most recently used, and changes no other |
| TokenBucket.TokenBucket.constructor | oidc-proxy/src/index.js:2-7 | a new object remembers nothing but its storage |
| TokenBucket.TokenBucket.Initialize | oidc-proxy/src/index.js:9-14 | the stored count is loaded once |
| TokenBucket.TokenBucket.Fetch | oidc-proxy/src/index.js:16-47 | a check changes count, timestamps and storage as the step function says; any other path only loads the count |
| TokenBucket.BudgetIsNeverExceeded | oidc-proxy/src/index.js:23-25 | over every run, restarts included and whatever the clock does, no more than maxRequests are allowed |
| TokenBucket.RateHoldsWithinALife | oidc-proxy/src/index.js:27-34 | with a clock that does not run backwards, no window of 1000 ms within one life holds more than ratePerSecond allowed requests |
| TokenBucket.VerdictFollowsTheHistory | oidc-proxy/src/index.js:20-43 | the verdict is a function of the times allowed so far: all of them for the budget, those of this life in the last window for the rate |
| TokenBucket.VerdictCountsTheHistory | oidc-proxy/src/index.js:23-34 | a check is refused for the budget exactly when all times allowed have used it up, and otherwise for the rate exactly when this life has already allowed ratePerSecond in the half-open window of 1000 ms that ends now |
| TokenBucket.RateOverAllLives | oidc-proxy/src/index.js:1-14 | over a whole run a window holds at most the rate for each life |
| TokenBucket.WindowsAreBounded | oidc-proxy/src/index.js:1-43 | over a run with n lives no window holds more than the smaller of maxRequests and n times ratePerSecond |
| TokenBucket.RateOverAllLivesIsReached | oidc-proxy/README.md:105 | that bound is reached for all limits, any number of lives and any starting time |
| TokenBucket.RateHoldsOverallExactlyWhen | oidc-proxy/README.md:105 | the rate holds in every window of every run with n lives if and only if there is no restart, or maxRequests is at most the rate, or the rate is 0 |
| Download.ReceiveBody | crates/bharatcode-core/src/download_manager.rs:571-620 | the chunk loop appends the body and counts it in both counters |
| Download.Serve | crates/bharatcode-core/src/download_manager.rs:528-625 | taking in a 200 or 206: restart when the Range was ignored, learn the size, cut the part file, append and count |
| Download.TakenIsAPrefix | crates/bharatcode-core/src/download_manager.rs:528-625 | afterwards the part file is the prefix of the remote file of the counted length, up to where the answer reached if it ended cleanly |
| Download.RunTurn | crates/bharatcode-core/src/download_manager.rs:475-654 | one turn of the retry loop comes to what the turn function says, and cumulative minus kept bytes is unchanged |
| Download.RetryLoop | crates/bharatcode-core/src/download_manager.rs:469-655 | the loop comes to what the script function says, and no subtraction saturates |
| Download.DownloadOneFile | crates/bharatcode-core/src/download_manager.rs:426-659 | the whole download of a file computes the download function and keeps its promises; cumulative minus kept bytes is that of the start |
| Download.DownloadsKeepTheirPromises | crates/bharatcode-core/src/download_manager.rs:426-659 | against every conforming server: each request with a Range finds exactly that prefix on disk; at most 10 retries and 22 requests; completion leaves the remote file up to where the last answer reached; it fails only for a refusal or at the retry limit; only the user cancels; a clean answer completes |
| Resumption.DownloadsResume | crates/bharatcode-core/src/download_manager.rs:426-655 | a download resumes: the first request asks for what is behind the part file, unless that was dropped as too long; after a failure without a body the same is asked again; after a broken body what is behind the bytes that came, which are on disk; after a 416 the whole; and it fails exactly for a lasting HTTP error or the eleventh failure that may pass |
| Resumption.OffsetsFallOnlyWhenTold | crates/bharatcode-core/src/download_manager.rs:475-545 | an offset falls only behind a 416 or a 200 that ignores the Range |
| Resumption.ReachedIsCompleted | crates/bharatcode-core/src/download_manager.rs:443-513 | a part file of the right size is promoted without a request, and a 416 completes exactly when the size was known and reached |
| Resumption.DownloadsLeave | crates/bharatcode-core/src/download_manager.rs:426-659 | a failed download keeps its part file, a cancelled one deletes it unless it was cancelled in the wait before a retry |
| Download.CompletedIsWholeExactlyWhen | crates/bharatcode-core/src/download_manager.rs:574-657 | a completed download is the remote file if and only if the last answer reached its end |
| Download.ShortRangeCutsTheFile | crates/bharatcode-core/src/download_manager.rs:574-657 | for every kept prefix a 206 that stops short ends the download with a cut-off file |
| Download.DownloadFilesSequentially | crates/bharatcode-core/src/download_manager.rs:346-424 | files are skipped or completed in turn, and the sequence ends early only at a file that is cancelled or whose own download ends so; on completion the counter is the sum of the file sizes, and every file that was downloaded equals its remote file when no 206 stopped short |
| DownloadGate.DownloadManager.ReserveDownload | crates/bharatcode-core/src/download_manager.rs:127-143 | a taken model is refused, any other entry is replaced |
| DownloadGate.DownloadManager.CancelDownload | crates/bharatcode-core/src/download_manager.rs:153-165 | the status becomes cancelled, or the model is not found |
| DownloadGate.DownloadManager.Start | crates/bharatcode-core/src/download_manager.rs:221-254 | a taken model is refused with the error that fits, any other gets a fresh entry |
| DownloadGate.DownloadManager.FinishTask | crates/bharatcode-core/src/download_manager.rs:276-307 | the exit of a task marks its entry, which stays cancelled if the task failed |
| DownloadGate.DownloadManager.ClearCompleted | crates/bharatcode-core/src/download_manager.rs:661-672 | only an entry in a final status whose task has exited is removed |
| DownloadGate.AtMostOneDownload | crates/bharatcode-core/src/download_manager.rs:127-312 | in every interleaving of start, directory failure, spawn, exit, reserve, cancel and clear a model has at most one committed download, and meanwhile start, reserve and clear change nothing |
| DownloadGate.FailedDirectoriesStick | crates/bharatcode-core/src/download_manager.rs:256-263 | a download that cannot make its directories leaves an entry that no later sequence of these operations frees |
| DownloadGate.CanStartIffNotStuck | crates/bharatcode-core/src/download_manager.rs:221-312 | a model can be started again if and only if its entry is not one that is taken without a live call |
| DownloadGate.ExitsLeaveTheirStatus | crates/bharatcode-core/src/download_manager.rs:276-307 | over runs: when the task of a start exits, its model is completed if it succeeded, cancelled if it failed and was cancelled since the start, failed otherwise; the entry can then be cleared, reserved and started afresh |

## Left out

- Real files: permissions, symbolic links, `..` and case aliasing, parent directories, partial I/O failure. A map from resolved path to text stands for the disk.
- The wording of error messages. Kinds and line numbers are modelled.
- Machine integers: counters, ticks and lengths do not wrap around.
- Locks, channels, timers, tasks, HTTP and random ids as libraries. They appear as steps that may be taken in any order; locks are never poisoned.
- ApplyPatch.ApplyReplacements: the lines are a sequence variable that is reassigned, since the source's vector is local and nothing can alias it.
- PatchMeaning.PatchMeansReplacement: covers chunks with old lines that match exactly; what leniently matched ones do follows from `LineMatching`, `ChunkPlaces` and the splice theorems.
- CommandScreen.ChecksAtOperators: needs the closed quote on the left; that this is the exact condition is stated for the splitter, where it does not depend on a policy.
- Elicitation.NothingPreventsDelivery: shows that the remaining steps exist whatever came before, not that a scheduler takes them.
- ActionRequired.ActionRequiredManager.DecideTimeout: waiting for the lock and for the channel are steps of the state machine only.
- ContextOptimizer.SelectIndices: the ranking is an input; keyword extraction, floating-point scores and token estimates are not modelled.
- SessionRegistry.MultiSessionRegistry.GetOrCreate: creation times are dropped, and the second look-up under the lock, which can only succeed with other callers, is in the interleaving model.
- TokenBucket.TokenBucket.Fetch: a failing storage write and limits that change between requests are not modelled.
- Download.DownloadOneFile: the network is a script of answers, and a 206 is taken to begin at the requested byte; a server that breaks RFC 9110, for instance by answering 416 to every request, can keep the loop going for ever, since a 416 does not count as a retry.
- Download progress, speed and time estimates, HEAD requests that lie about the size, bearer tokens, and the clean-up of part files after a failed download.
- DownloadGate.CanStartIffNotStuck: `set_progress` and `update_progress`, which let a caller write any entry, are not among the operations.
- Policy loading, regular expressions, JSON, JWT verification, key fetching and proxying.
- Environment switches, banners, themes, notifications, generated documentation and the command-line surface: input, output, constants or single branches.
- `serve_registry.rs`, `cost_routing.rs` and `a11y.rs`: a size check, a minimum over a list and a character filter would only add easy members.
