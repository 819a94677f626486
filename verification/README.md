# Mochiii daemon: a verified model

The daemon of Mochiii stands between a language model and a user's project: it retrieves code for
a question, runs a model with tools within limits the user set, keeps credentials out of what is
sent, and can undo what it changed. This project models the algorithms and state machines those
promises rest on, and proves the promises.

| files | what is modelled |
|---|---|
| `AhoCorasick.dfy`, `CredScrub.dfy` | the multi-pattern matcher, and the redactor of credentials built on it |
| `Utf8.dfy`, `CiteMarks.dfy`, `CiteMarkStream.dfy`, `CiteMarkRewrite.dfy`, `CiteMarkProperties.dfy`, `CiteMarkVerdicts.dfy`, `CiteMarkLines.dfy` | the filter that takes citation marks out of a stream of text |
| `ChatSync.dfy`, `ChatRevisionText.dfy` | one chat shown in several windows: revisions, readers without locks, replaces, restarts |
| `ChunkMerge.dfy`, `ChunkSpans.dfy`, `Chunker.dfy` | cutting files into overlapping windows, and folding retrieved chunks into spans |
| `Delivery.dfy`, `DirectSpans.dfy`, `DeliveryPacker.dfy`, `DeliveryGreedy.dfy`, `DeliveryWidening.dfy` | packing spans into a budget: direct spans, then hits, then the regions around them |
| `FileSystem.dfy`, `RestoreBatch.dfy`, `RestoreLaws.dfy`, `UndoBatch.dfy`, `UndoGuard.dfy` | undoing an apply run as one batch, on a file system whose operations may fail |
| `Trash.dfy`, `TrashTools.dfy` | deleting into a trash, moving, putting back |
| `Checkpoint.dfy` | the working copy of a long task, its snapshots, and going back to one |
| `CorrectionJudge.dfy`, `CorrectionLaws.dfy` | the judge of a long task's checks |
| `AgentLoop.dfy`, `Consent.dfy` | how many model calls a turn may make, and who said yes to a tool call |
| `CommandDigest.dfy`, `CommandDigestLaws.dfy` | digesting a long command output within a budget |
| `SavedChats.dfy` | bringing a saved chat up to date |
| `FileNames.dfy` | globs as regular expressions |
| `Bytes.dfy`, `Numbers.dfy`, `Text.dfy`, `Wrappers.dfy` | sequences, numbers, splitting and joining, `Option` |

Code that changes state step by step is written as methods and classes, each proved equal to a
function of its inputs or of the old state; the promises are lemmas about those functions, over
every input, run or reachable state. `dafny verify dfyconfig.toml` checks everything.

## Where the code and its promises differ

- A replace of a chat that commits and then fails while reclaiming pages (`daemon/memory.go:502-545`,
  `daemon/memorycompact.go:50-62`) leaves the generation as it was, although
  `daemon/chatsync.go:41-52` says every replace bumps it. `ChatSync.RevisionsNeverOverstate` is
  therefore about states with no replace left unbumped: `ChatSync.TrustedIff` says that this is the
  exact condition, and `ChatSync.UnbumpedReplaceMisleads` gives a run that meets the other case.
- `historyForTurn` reads the generation and the turns apart (`daemon/chatsync.go:98-105`);
  `ChatSync.CopyUsedIsCompleteIff` says exactly when that is enough, and
  `ChatSync.CopyUsedCanBeStale` gives runs in which it is not.
- A snapshot is said to hold every file a command changed (`daemon/checkpoint.go:170-172`), but what a
  command changed is read off the files there after it (`daemon/stage.go:134-146`), so a file it
  deleted is not among them. `Checkpoint.RestoreIsExactIff` gives the exact condition,
  `Checkpoint.DeletedIsNotPutBack` the case.
- Two checks with the same state hash are said to have run on the same code
  (`daemon/correction.go:991-994`). The hash leaves out what nothing is known of, so it does not see a
  deleted file: `Checkpoint.EqualHashesIff` gives the exact condition, `Checkpoint.HashMissesDeletion`
  the case. After going back, it is the snapshot's under the condition of `Checkpoint.SameCodeIff`.
- The number in `max_turn_iterations` is said to be the number of calls (`daemon/agentloop.go:983-994`).
  It is the number of calls charged; requests refused for their rate and waited out are made besides
  (`daemon/patience.go:99-105`): `AgentLoop.StandaloneWithin` gives the bound, `AgentLoop.BusiestMakesAll`
  that it is reached. Over a pipeline the calls charged can exceed it by one:
  `AgentLoop.PipelineWithin` says exactly when, `AgentLoop.OneMoreIsReached` that it happens.
- A glob is turned into an expression byte by byte (`daemon/findfiles.go:176-204`), so a literal beyond
  ASCII becomes several other characters and the pattern does not find the files it names:
  `FileNames.AgreesIff` and `FileNames.AcceptsIsGlobIff` give the exact condition,
  `FileNames.AccentIsLost` the case.
- `redact` leaves a clean text alone the second time only if no pattern stands inside the
  placeholder: `CredScrub.IdempotentIff`.
- `directSpansFor` is called idempotent (`daemon/fileref.go:433-436`). For chunks of different versions of
  a file it need not be: `DirectSpans.DirectSpansAgainIff` gives the exact condition,
  `DirectSpans.CapJoinsWhatItKept` the case. For chunks cut from one version of each file it is, which
  is also what the size cache of the packer relies on.

## Model

Paths are relative to the repository. Members are named with their module.

| member | source | states |
|---|---|---|
| AhoCorasick.Matcher.constructor | daemon/ahocorasick.go:31-55 | from any list of patterns it builds a trie with failure links and outputs that meet the automaton's invariant: every state spells a word, fails to the longest proper suffix that is a word, and reports the lengths of exactly the patterns that end it |
| AhoCorasick.Matcher.Plant | daemon/ahocorasick.go:34-48 | planting a pattern keeps the bare trie's invariant for the patterns so far and the new one; an empty pattern, and a pattern planted before, are handled as the code does |
| AhoCorasick.Matcher.BuildFailLinks | daemon/ahocorasick.go:57-84 | the breadth-first pass, in any order of a node's edges, turns the bare trie into the full automaton, and follows at most as many failure links as the patterns have bytes |
| AhoCorasick.Matcher.FailFor | daemon/ahocorasick.go:67-78 | the inner search finds the longest proper suffix of the child's word that some state spells; the links it follows are paid for by the depth the parent fails to |
| AhoCorasick.PathPaid | daemon/ahocorasick.go:57-84 | along the path of any word, the links followed for its nodes and the depth its last node fails to are together at most its length, though the queue interleaves the paths |
| AhoCorasick.BuildPaid | daemon/ahocorasick.go:57-84 | so the links followed for all nodes are at most the bytes of all patterns |
| AhoCorasick.WordsArePrefixes | daemon/ahocorasick.go:34-48 | what the states spell is exactly the prefixes of the patterns, and the empty word |
| AhoCorasick.LongestBegins | daemon/ahocorasick.go:86-98 | so the longest word that ends a text is the longest suffix of it that begins a pattern, and nothing else is |
| AhoCorasick.LongestAdvances | daemon/ahocorasick.go:57-100 | the longest-suffix law: the longest word that ends the text with one more byte is an extension of a suffix of the longest word before |
| AhoCorasick.OutFlattens | daemon/ahocorasick.go:80-80 | a state's own outputs followed by its failure state's are the lengths of all patterns that end its word, each as often as it is given |
| AhoCorasick.AllReached | daemon/ahocorasick.go:57-84 | when the queue is empty every state has been linked |
| AhoCorasick.Matcher.Step | daemon/ahocorasick.go:88-98 | one byte on, the state spells the longest word that ends the text; the hops taken are paid for by the depth lost |
| AhoCorasick.Matcher.Matches | daemon/ahocorasick.go:103-114 | every span is returned exactly as often as patterns occur there, in the order the scan meets them; the failure hops of a whole scan are at most the bytes of the text; the last state spells the longest suffix of the text that begins a pattern |
| CredScrub.ScanReportsOnce | daemon/credscrub.go:177-184 | distinct patterns are each reported once at a place |
| CredScrub.RegisteredIff | daemon/credscrub.go:114-149 | a pattern is registered exactly if some value offers it and it is long enough; the first label offered wins |
| CredScrub.RepeatsAddNothing | daemon/credscrub.go:125-130 | a value seen before changes nothing |
| CredScrub.CredScrubber.Register | daemon/credscrub.go:114-149 | the loops register exactly what first-wins registration of all forms and windows gives |
| CredScrub.CredScrubber.Build | daemon/credscrub.go:114-149 | a scrubber is built exactly if some pattern is registered, and it matches exactly the registered patterns |
| CredScrub.RegisteredAre | daemon/credscrub.go:78-149 | what is registered is exactly what has at least sixteen bytes and is one of the ten written forms, each by its own name, or sixteen bytes in a row, of a trimmed value of at least sixteen bytes; the label is one that form has |
| CredScrub.CredScrubber.Scan | daemon/credscrub.go:155-171 | it hits exactly if some byte is covered by a registered form, and names exactly the kinds that occur |
| CredScrub.MergeSpans | daemon/credscrub.go:190-201 | the spans it merges matches into cover exactly the bytes the matches cover and stand apart, in order |
| CredScrub.ReplaceSpans | daemon/credscrub.go:202-212 | replacing spans that stand apart gives the text with each maximal covered run replaced by the placeholder |
| CredScrub.CredScrubber.Redact | daemon/credscrub.go:177-214 | the text with each maximal covered run replaced, and their number; both unchanged without a scrubber |
| CredScrub.CredScrubber.BuildAndRedact | daemon/credscrub.go:114-214 | building and then redacting replaces exactly the maximal runs of bytes that belong to some occurrence of such a form or piece, and every such occurrence lies inside one replaced run and is counted |
| CredScrub.RunAround | daemon/credscrub.go:190-212 | bytes covered together lie inside one replaced run |
| CredScrub.FormsAreCovered | daemon/credscrub.go:78-101 | of a trimmed value of at least sixteen bytes, each written form of at least sixteen bytes, wherever it stands, is covered throughout: the value, padded and unpadded base64 of both alphabets, hex in either case, both URL escapings, the value backwards |
| CredScrub.FragmentsAreCovered | daemon/credscrub.go:131-136 | every piece of at least sixteen bytes of a raw value, wherever it was cut, is covered throughout |
| CredScrub.RedactedKeepsTheRest | daemon/credscrub.go:202-212 | the bytes not covered survive, in order |
| CredScrub.RedactedLength | daemon/credscrub.go:202-212 | the length is that of the surviving bytes and one placeholder for each maximal run |
| CredScrub.CoveredMeansRuns | daemon/credscrub.go:155-214 | the count is positive as soon as a byte is covered, so redact counts exactly when scan hits |
| CredScrub.RedactedIsClean | daemon/credscrub.go:177-214 | after one redaction no pattern is left, if none holds a bracket or stands inside the placeholder |
| CredScrub.IdempotentIff | daemon/credscrub.go:177-214 | for patterns without brackets, redacting twice is redacting once on every text exactly if no pattern stands inside the placeholder |
| CredScrub.PlaceholderGrows | daemon/credscrub.go:177-214 | a pattern inside the placeholder is itself a text that a second redaction changes |
| Utf8.FullIsFinal | daemon/citemarks.go:165-182 | bytes that make a full character decode the same whatever follows (section 3 of RFC 3629) |
| Utf8.TruncatedDecode | daemon/citemarks.go:184-214 | what is left of a character at the end of a stream decodes byte by byte as it would have at the end of the text |
| Utf8.RawOfChars | daemon/citemarks.go:165-214 | decoding loses no byte |
| CiteMarkStream.CiteMarkFilter.Feed | daemon/citemarks.go:165-182 | each piece is taken character by character, an unfinished character kept back |
| CiteMarkStream.CiteMarkFilter.Flush | daemon/citemarks.go:184-214 | all that was ever shown, and the marks counted, are those of filtering the whole text at once |
| CiteMarkStream.CiteMarkFilter.Take | daemon/citemarks.go:216-243 | one character moves the filter as the specified step does: holding, closing, giving up at a new line, a second opening or 300 characters |
| CiteMarkStream.CiteMarkFilter.ResolveMark | daemon/citemarks.go:251-283 | a closed mark is put back, dropped or rewritten as judged |
| CiteMarkStream.CiteMarkFilter.Plain | daemon/citemarks.go:309-334 | one plain character, with the spaces before it kept, dropped or delayed |
| CiteMarkStream.CiteMarkFilter.Track | daemon/citemarks.go:341-362 | line starts, inline code and their ends are followed as specified |
| CiteMarkStream.CiteMarkFilter.ReadLineStart | daemon/citemarks.go:364-390 | fences and edit blocks are entered and left as specified |
| CiteMarkVerdicts.MarkComesTo | daemon/citemarks.go:251-283 | a closed mark outside code, wherever it stands in the filtered text: plain ASCII words where no CJK was seen come out in full in parentheses, as does an address alone; a pointer (dagger, braces, digits alone where no CJK was seen) leaves its first address in parentheses, or nothing; these are counted, any other mark comes out byte for byte and is not; and the text goes on |
| CiteMarkVerdicts.UnclosedIsText | daemon/citemarks.go:216-243 | a bracket not closed on its line, within 300 characters and before another, is ordinary text |
| CiteMarkVerdicts.CutMarkComesTo | daemon/citemarks.go:184-214 | a mark the text ends inside is dropped and counted exactly if it has a dagger or begins with a brace; else it comes out as it is |
| CiteMarkVerdicts.SeenIff | daemon/citemarks.go:309-334 | CJK counts as seen exactly if a character of it was shown, or it was seen before |
| CiteMarkLines.LineDecides | daemon/citemarks.go:341-390 | where the reader is after part of a line, told from that part and where it was before it: three backticks or tildes after up to three spaces open a fence or close the one they opened, the SEARCH and REPLACE markers open and close an edit block, and in ordinary text backticks open and close inline code by turns |
| CiteMarkLines.NewLineBegins | daemon/citemarks.go:341-347 | a new line begins with nothing read and ends inline code; fences and edit blocks go on |
| CiteMarkLines.TextOnLine | daemon/citemarks.go:341-350 | a line has text exactly once something but blanks stands on it |
| CiteMarkLines.GapAfterMark | daemon/citemarks.go:309-338 | where a mark is gone one gap is left: the blanks before it, or else the first after it; none before punctuation, at the start of a line or at the end of the text |
| CiteMarkStream.FilterPieces | daemon/citemarks.go:165-214 | any split of the stream, inside a character too, shows the same text and counts the same marks |
| CiteMarkRewrite.StreamIsRewrite | daemon/citemarks.go:216-297 | from any idle state the character-by-character filter does what looking ahead for whole marks and rewriting them does |
| CiteMarkRewrite.FilteredIsRewritten | daemon/citemarks.go:165-297 | filtering a text is rewriting it in one pass with look-ahead |
| CiteMarkProperties.ShownText | daemon/citemarks.go:216-334 | blanks aside, what is shown is the text with each mark replaced by its kept text, and the count is the number of marks |
| CiteMarkProperties.UnmarkedTextUnchanged | daemon/citemarks.go:216-334 | no mark counted means the text comes out byte for byte |
| CiteMarkProperties.CodeIsUntouched | daemon/citemarks.go:246-249 | inside a fence, an edit block or a code span nothing is held or being dropped and a character comes out as it is |
| CiteMarkProperties.HeldIsBounded | daemon/citemarks.go:82-83 | at most 300 characters are held after the opening bracket, and what is held is the end of what was taken |
| CiteMarkProperties.MarkShape | daemon/citemarks.go:216-283 | a mark runs from an opening to the first closing bracket on the same line, with at most 300 characters between |
| CiteMarkProperties.MarkKeepsItsOwn | daemon/citemarks.go:251-283 | the text kept of a mark stood inside it |
| CiteMarkProperties.PiecesAreTheText | daemon/citemarks.go:216-297 | the characters and marks found are, in order, the whole text |
| ChatRevisionText.ParseOfText | daemon/chatsync.go:66-93 | parsing a revision's text gives the revision back |
| ChatRevisionText.SameTextSameRevision | daemon/chatsync.go:66-93 | two revisions with one text are one revision |
| ChatSync.StepKeeps | daemon/chatsync.go:98-191 | every step of the daemon and its clients keeps the claim that each revision makes |
| ChatSync.RunKeeps | daemon/chatsync.go:41-191 | and so does every run: appends with trimming, replaces, restarts, readers in between, answers lost |
| ChatSync.RevisionsNeverOverstate | daemon/chatsync.go:41-52 | in every reachable state a client whose revision is current, with no replace between its write and its bump, shows every valid stored turn up to its last, in order, and as the end of its list unless an exchange of its own was not stored whole |
| ChatSync.AnswerIsSound | daemon/chatsync.go:167-191 | reading the generation first and the turns second never overstates, whatever was written in between |
| ChatSync.DoneIsSound | daemon/chatsync.go:157-165 | a Done not marked behind leaves the client level |
| ChatSync.CatchUpBrings | daemon/chatsync.go:167-191 | a client of the chat's generation is sent exactly the valid turns stored above its last id, any other exactly all valid turns stored, as stored at the second read, under the generation of the first |
| ChatSync.NoneTwiceNoneMissed | daemon/chatsync.go:167-191 | the valid turns up to an id and those above it are together all of them, in order |
| ChatSync.EveryClientIsCaughtUp | daemon/chatsync.go:167-191 | in every reachable state a request that nothing disturbs brings the client level: it shows the new turns after its own, or the chat alone, and names the chat as it is, unless and only unless an unbumped replace had left it ahead |
| ChatSync.ReplacedBetweenReads | daemon/chatsync.go:170-190 | what a client shows if the chat is replaced between the two reads; its revision is not current, so its next request brings the new chat whole |
| ChatSync.HistoryIsChosen | daemon/chatsync.go:124-155 | with nothing between the reads, a turn is answered from the client's copy exactly if it names no revision or the chat as it stands, else from all that is stored |
| ChatSync.ExchangeStaysLevel | daemon/chatsync.go:107-165 | a level client stays level by an exchange of its own: both turns stored, shown, and the new revision named |
| ChatSync.CallerIsGivenTheChat | daemon/chatsync.go:107-123 | whoever replaced the chat is given it whole, and names it as it is |
| ChatSync.UnbumpedReplaceMisleads | daemon/memory.go:502-545 | the exception, concretely: a replace that commits and then fails on reclaiming pages is not bumped, and a level client goes on being told it is level with a chat that is gone |
| ChatSync.ReversedReadsOverstate | daemon/chatsync.go:167-191 | reading the turns first would overstate |
| ChatSync.TrustedIff | daemon/chatsync.go:41-52 | what a revision claims can be trusted exactly if it is current and no replace is waiting for its bump, or nothing valid is stored up to its last id |
| ChatSync.CopyUsedIsCompleteIff | daemon/chatsync.go:124-155 | a turn answered from the client's own copy has every valid stored turn exactly if the generation did not move between the two reads and no replace is waiting for its bump, or nothing valid is stored |
| ChatSync.HistoryIsComplete | daemon/chatsync.go:124-155 | and so it is in every run, under that condition |
| ChatSync.CopyUsedCanBeStale | daemon/chatsync.go:124-155 | a run reaches the other case, with the replace bumped and without: the turn is answered from the copy of a chat that is gone |
| ChunkMerge.SpliceIff | daemon/chunkmerge.go:131-210 | two chunks are joined exactly if they are of one file, touch or overlap, have the lines they say, and agree on every line they share |
| ChunkMerge.SpliceHoldsBoth | daemon/chunkmerge.go:131-210 | what is joined holds every line of both with its text, the better scores, the first's kind if it has one, and no other lines |
| ChunkMerge.MergeAdjacentChunks | daemon/chunkmerge.go:45-118 | the grouping, sorting and sweeping loops give the specified merge |
| ChunkMerge.SweepFile | daemon/chunkmerge.go:68-97 | the sweep of one file's sorted chunks adds exactly its spans to those before |
| ChunkMerge.GroupByFile | daemon/chunkmerge.go:57-65 | the files are listed in order of first appearance, each with its chunks' places |
| ChunkSpans.SpliceCut | daemon/chunkmerge.go:131-210 | joining chunks cut from one version gives a chunk cut from that version |
| ChunkSpans.MergedIsMaximalRuns | daemon/chunkmerge.go:45-118 | of chunks cut from one version of each file, merging gives exactly the maximal runs of covered lines with their own text, in order of their best member's rank |
| Chunker.ChunkContent | daemon/chunker.go:367-464 | the window loop gives the specified overlapping windows of forty lines, ten shared |
| Chunker.WindowsAre | daemon/chunker.go:367-464 | window i holds the forty lines from line 30*i+1 on, or the fewer that are left, with their text and kind, and only the last reaches the end |
| Chunker.WindowsCover | daemon/chunker.go:367-464 | no line falls between windows |
| Chunker.WindowsMergeToFile | daemon/chunker.go:367-471 | merging all windows of a file gives one span with the file's own content |
| Chunker.MergeKeepsEverything | daemon/chunkmerge.go:45-118 | of any chunks at all, every one given is held by some span returned |
| Delivery.ApartIsMerged | daemon/delivery.go:97-100 | spans that stand apart merge to themselves, in place |
| DirectSpans.FirstSpansAreKept | daemon/fileref.go:437-447 | the first merged direct spans are kept, up to three, and fewer than k for k of two or more |
| DirectSpans.MergedIsItselfIff | daemon/chunkmerge.go:45-160 | merging any list of chunks, contradicting and malformed ones too, changes nothing exactly if no two neighbours in a file's sweep order splice |
| DirectSpans.DirectSpansAgainIff | daemon/fileref.go:433-447 | folding and capping twice is doing it once exactly if no two of the spans kept, neighbours in their file's order, splice |
| DirectSpans.DirectSpansIdempotent | daemon/fileref.go:433-447 | for chunks of one version of each file it always is |
| DirectSpans.CapJoinsWhatItKept | daemon/fileref.go:433-447 | the exception, concretely: four spans of which the cap drops the one that kept two others apart |
| Delivery.BudgetKept | daemon/delivery.go:59-62 | once a second step was accepted, everything delivered, rendered with its labels, fits the budget |
| Delivery.DeliverIsMerged | daemon/delivery.go:97-100 | what fuseDirectSpans makes of the selection is what was measured |
| DeliveryPacker.MeasureMerged | daemon/delivery.go:101-121 | for one version of each file the size cache gives the answer that measuring every span anew would give |
| DeliveryPacker.PackHitsFirst | daemon/delivery.go:63-156 | the two-pass packer delivers exactly what the specified selection delivers |
| DeliveryGreedy.GreedyLaw | daemon/delivery.go:60-156 | what fits is delivered: every direct span, hit and region, in the order it is looked at, is chosen exactly if it and all chosen before it, merged, capped and rendered, are within the budget; truncated exactly if a direct span or a hit found no room |
| DeliveryGreedy.EverythingIsTaken | daemon/delivery.go:60-156 | if every prefix of the steps fits, all of it is taken and nothing is truncated |
| DeliveryPacker.CapDirect | daemon/fileref.go:437-447 | direct spans are merged and capped at three, and at k-1 for k of two or more |
| DeliveryWidening.WiderStandsNoLater | daemon/delivery.go:55-58 | adding a region that joins its hit leaves every span inside one that stands no later |
| DeliveryWidening.WideningCostsNothing | daemon/delivery.go:49-58 | with none widened early, every line that placing the hits alone would deliver is delivered, the cap on spans included |
| RestoreBatch.StageRestore | daemon/apply_cmd.go:716-800 | a file is staged with its snapshot in a fresh temporary file beside its place, or the disk is exactly as it was; while no operation fails of itself, it is staged exactly if the session and the tree allow it |
| RestoreBatch.MkdirAllTracked | daemon/apply_cmd.go:820-836 | it makes exactly the missing directories and lists them, shallowest first |
| RestoreBatch.DiscardStaged | daemon/apply_cmd.go:806-815 | temporary files first, then directories, deepest first, each only if it is empty |
| RestoreBatch.DirsUndone | daemon/apply_cmd.go:841-845 | removing the directories made, deepest first, gives back the tree they were made on |
| RestoreLaws.DiscardUndoes | daemon/apply_cmd.go:638-647 | discarding everything staged leaves no residue |
| RestoreLaws.CommittedBeside | daemon/apply_cmd.go:649-656 | committing some reverts leaves what is staged for others alone |
| UndoBatch.StageAll | daemon/apply_cmd.go:639-647 | all are staged, or the tree is exactly as it was |
| UndoBatch.StoppedIsSettled | daemon/apply_cmd.go:649-656 | stopping after some commits and discarding the rest leaves just those, staged and committed alone |
| UndoBatch.SettledIsReverted | daemon/apply_cmd.go:638-658 | files committed are back as they were or gone, and nothing else differs but directories on the way |
| UndoBatch.RestoreAll | daemon/apply_cmd.go:638-658 | after success, a staging failure or a failed commit, the tree is the old one with exactly the reported files reverted; and all are reverted if each may be staged and no operation fails of itself |
| UndoGuard.UndoPart | daemon/apply_cmd.go:413-480 | a file that differs from what the run left is not touched unless the user forces it or says yes; every other is in the batch, and the batch goes through if each file may be staged and no operation fails of itself |
| Trash.MovedKeepsFiles | daemon/fileops.go:238-243 | a rename to where nothing stands loses and copies no file |
| TrashTools.DeletePath | daemon/fileops.go:222-245 | a deleted tree is whole in the trash with its record, everything else is as it was; a failed delete changes nothing but folders of the trash; while no operation fails of itself, it succeeds exactly if the delete may be made |
| TrashTools.MovePath | daemon/fileops.go:403-447 | a move never overwrites: everything moved is at its new place, everything else as it was; while no operation fails of itself, it succeeds exactly if the move may be made |
| TrashTools.RestorePath | daemon/fileops.go:288-311 | the entry's item is back, whole, where nothing stood; a failure changes nothing but folders on the way; while no operation fails of itself, it succeeds exactly if the record can be read, the item is there and its place is free and allowed |
| TrashTools.DeleteAndPutBack | daemon/fileops.go:222-311 | deleting and putting back gives the same tree outside the program's own folder, and both go through whenever the delete may be made and no operation fails of itself |
| TrashTools.RunTools | daemon/fileops.go:365-481 | over any run of the three tools, whichever steps fail, there are as many of every file as before |
| CorrectionJudge.Judge.Observe | daemon/correction.go:303-402 | one check moves the judge as the specified step does |
| CorrectionJudge.Judge.DecideControl | daemon/correction.go:416-458 | the decision is the specified one: keep a new best, go back on a circle or on two worse, climb the ladder |
| CorrectionJudge.Judge.WentRound | daemon/correction.go:327-340 | a circle is code that an earlier check but not the last ran on, unless restored or pristine |
| CorrectionLaws.BestOfRun | daemon/correction.go:416-423 | of a command that is not flaky, the best is the least score of all its checks, at the earliest check that reached it, with that check's code |
| CorrectionLaws.FlakyOfRun | daemon/correction.go:316-325 | a command is held flaky exactly if it has given two answers for one state of the code |
| CorrectionLaws.ScoresAre | daemon/correction.go:185-190 | code that does not build scores worse than any that does, a failure worse than none, and of two that build the one with more failing tests worse |
| CorrectionLaws.ControlIs | daemon/correction.go:416-443 | the decision over the list of checks alone: a scored check of a command that is not flaky cuts for a circle exactly if its code stood at an earlier check but not the last, was not restored and is not pristine, and then puts the best back exactly if that is other code; else it goes back exactly if it is the second worse in a row; a new best is kept exactly when there is one; a flaky command decides nothing |
| CorrectionLaws.UnscoredDecides | daemon/correction.go:416-443 | a check without a score puts nothing back and keeps nothing |
| CorrectionLaws.RestoreNeedsTwo | daemon/correction.go:424-442 | code is taken back for being worse exactly if the command is not flaky, the code did not go round, two scored checks in a row were judged worse than the best, the second no better than the first, and the best is other code |
| CorrectionLaws.LadderIs | daemon/correction.go:445-456 | with no flaky command, the n-th time a failure is seen asks why, starts afresh or stops exactly at attempts, attempts+1 and from attempts+2 on |
| CorrectionLaws.StopsInTime | daemon/correction.go:445-456 | with no flaky command and S different failures a stop is decided by failing check number S*(attempts+1)+1 |
| AgentLoop.RunAgentLoop | daemon/agentloop.go:615-946 | the loop makes the requests the specified loop makes, for every mix of empty replies, resends, nudges, failures, waits and tool batches; a step refused for its rate and waited out is taken back |
| AgentLoop.TurnEndsAsTold | daemon/agentloop.go:615-946 | in every run, from the replies alone: an empty reply is asked again twice, a hedged answer nudged once, a request too large sent once more and smaller, a busy provider waited for after work was done and before words were shown, as often as the patience pays for; which outcome the turn has, how many requests were taken back, and whether there is an answer at a limit |
| AgentLoop.RulesArePatient | daemon/patience.go:65-107 | a call is taken back only once a tool has run, and only as often as the patience pays for waits of one minute and then two, at most three times |
| AgentLoop.LoopWithin | daemon/agentloop.go:963-1017 | but for a first step, the calls charged to a loop stay within both ceilings with one kept back for the answer; nothing is taken back unless a second step was allowed |
| AgentLoop.StandaloneWithin | daemon/agentloop.go:983-997 | a turn of one loop is charged at most max(2, min(max_iterations, max_turn_iterations)) calls, the answer at the end included; all its requests, the refused ones too, are at most that and, from a ceiling of three on, the waits the patience pays for |
| AgentLoop.StandaloneSpendsAll | daemon/agentloop.go:983-997 | and a model that goes on calling tools is charged exactly so many |
| AgentLoop.BusiestMakesAll | daemon/patience.go:99-105 | and with a busy provider the bound on all requests is reached, whatever the ceilings and the patience |
| AgentLoop.RunPipeline | daemon/orchestrator.go:148-297 | the phases run one after another on one ledger, as specified |
| AgentLoop.PipelineWithin | daemon/orchestrator.go:148-297 | over a pipeline the calls charged exceed max_turn_iterations by at most one, and by one exactly if the last phase to run answers the user, began with one call left, and took a step that did not end it in time for the answer |
| AgentLoop.PipelineRefused | daemon/orchestrator.go:148-297 | each phase may besides be refused as often as its patience pays for, but not one that began with one call left |
| AgentLoop.PipelineRequests | daemon/orchestrator.go:148-297 | so all requests of a pipeline exceed max_turn_iterations by at most the waits of every phase that ran, or by one |
| AgentLoop.BusyPipelineMakesAll | daemon/orchestrator.go:148-297 | and with a busy provider that bound is reached, for any number of phases |
| AgentLoop.OneMoreIsReached | daemon/agentloop.go:995-1017 | and that one more does happen |
| Consent.Turn.ResolveExecutable | daemon/agentloop.go:1481-1788 | the decision on a call, and what it grants, are the specified ones, branch by branch |
| Consent.TurnGrantWasGiven | daemon/agentloop.go:157-224 | over a whole turn, all phases on one ledger, a call run on a turn grant follows a yes for the turn to the same tool, with the same arguments if it executes code, reaches the network or is destructive, or the same path, or the same repeatable launch |
| Consent.LaunchWasApproved | daemon/agentloop.go:1656-1665 | a launch is let through only by an approval of this call or an earlier one, for the turn, of the same repeatable launch |
| Consent.RunHasReason | daemon/agentloop.go:1603-1788 | in a whole turn every call that runs was one configuration suffices for (no launch, no outside read, no egress review, no run in place), was answered yes itself, is covered by an earlier answer for the turn, or by a spec grant that could be offered for it; and configuration is the reason exactly where it suffices |
| Consent.AnswerIsObeyed | daemon/agentloop.go:1603-1788 | a call put to the user runs exactly if the answer approves it, with the outside path it was about and the launch it needs and no other; only cancel ends the turn |
| Consent.YesIsRemembered | daemon/agentloop.go:157-224 | a later call that a yes for the turn covers runs without asking, in whichever phase, unless it is barred |
| Consent.SpecYesIsRemembered | daemon/agentloop.go:1667-1677 | after a yes for the spec, a later call of the same tool with the same arguments runs without asking, unless it is barred or no spec grant could be offered for it |
| Consent.SpecGrantWasGiven | daemon/agentloop.go:1667-1677 | a spec grant not there at the start was given by an answer about the same tool with the same arguments |
| Checkpoint.Stage.RunCommand | daemon/stage.go:134-146 | what is noted of a command is every file there afterwards that is new, changed or written again |
| Checkpoint.Stage.RestoreSnapshot | daemon/checkpoint.go:211-281 | every file concerned that is not reported as failed has its snapshot's content, or the project's, and every other file is as it was |
| Checkpoint.RestoreIsExactIff | daemon/checkpoint.go:173-281 | with nothing reported as failed, going back is exact exactly if the same untracked project files are missing from the copy as at the snapshot |
| Checkpoint.RestoreIsExact | daemon/checkpoint.go:173-281 | so it is exact on every run whose commands delete nothing |
| Checkpoint.DeletedIsNotPutBack | daemon/stage.go:134-146 | the exception, concretely: a file that a command deletes and nobody edited is not put back |
| Checkpoint.SameCodeIff | daemon/correction.go:995-1028 | the state hash after going back is the snapshot's exactly if no file tracked since is one of the project's that were left out of the copy, whatever the commands deleted |
| Checkpoint.EqualHashesIff | daemon/correction.go:991-1028 | two states of one project with equal hashes have equal copies exactly if the same files of the project are absent without a trace |
| Checkpoint.HashAfterRestoreIff | daemon/correction.go:991-1028 | so, when the hash after going back is the snapshot's, the copy is too exactly if the same files have vanished |
| Checkpoint.HashMissesDeletion | daemon/stage.go:134-146 | the exception, concretely: a file a command deleted is not put back, and the hash is the snapshot's all the same |
| CommandDigest.DigestCommand | daemon/execdigest.go:46-114 | an output that fits goes through whole, any other is digested as specified |
| CommandDigest.Choose | daemon/execdigest.go:56-93 | the three loops keep exactly the lines the specification keeps |
| CommandDigestLaws.EveryLineCounted | daemon/execdigest.go:97-112 | the lines kept stand in their order, each where the lines and gaps before it add up to, and all together they are the whole output |
| CommandDigestLaws.RunsChosen | daemon/execdigest.go:58-93 | the lines kept form at most 122 runs |
| CommandDigestLaws.ChosenBalanced | daemon/execdigest.go:56-69 | what is kept and what is left add up to the budget, which is never overspent |
| CommandDigestLaws.CommandDigestWithin | daemon/execdigest.go:46-114 | the digest is at most the limit and 61 gap lines long |
| CommandDigestLaws.EndIsShown | daemon/execdigest.go:70-76 | every stretch of at most eighty last lines that the budget pays for is shown, whatever else there is |
| CommandDigestLaws.FailuresAreShown | daemon/execdigest.go:77-87 | of the first sixty failure lines each, with its neighbours, is shown unless it would not fit in what is left at the end |
| CommandDigestLaws.StartIsShown | daemon/execdigest.go:88-93 | each of the first fifteen lines is shown, up to the first that what is left over does not pay for |
| CommandDigestLaws.ShownHasReason | daemon/execdigest.go:70-93 | and nothing is shown but the last eighty lines, the first fifteen, and the neighbours of the first sixty failures |
| SavedChats.ExtendSaved | daemon/chatarchive.go:349-369 | the nested search gives the specified extension |
| SavedChats.ExtendsIff | daemon/chatarchive.go:349-369 | it fails exactly if no end of the copy is what the current chat begins with |
| SavedChats.ExtensionHoldsBoth | daemon/chatarchive.go:329-348 | the result begins with the copy, by role and text, and ends with the current chat itself |
| SavedChats.ExtensionIsShortest | daemon/chatarchive.go:335-341 | it is as short as any chat that holds both |
| SavedChats.ExtendingAgain | daemon/chatarchive.go:349-369 | saving the same chat again changes nothing |
| FileNames.Translate | daemon/findfiles.go:176-204 | the loop writes the specified expression, one character for each byte of a literal, or refuses |
| FileNames.ExpressionIsGlob | daemon/findfiles.go:176-204 | for a pattern whose literals are ASCII the expression accepts a path exactly if the glob, read directly as UTF-8, does |
| FileNames.AgreesIff | daemon/findfiles.go:176-204 | the two agree on every text exactly if no literal byte is beyond ASCII, or some class holds no character, so that neither accepts anything |
| FileNames.AccentIsLost | daemon/findfiles.go:201-203 | the exception, concretely: e-acute, a star and .go does not find e-acute .go |
| FileNames.RefusedIff | daemon/findfiles.go:196-201 | a pattern is refused here exactly if a class is never closed |
| FileNames.AcceptsIsGlob | daemon/findfiles.go:164-213 | a glob with ASCII literals is judged on the path if it has a slash, without one on the name |
| FileNames.AcceptsIsGlobIff | daemon/findfiles.go:164-213 | the test is the glob on every path exactly if no literal byte is beyond ASCII, or nothing is accepted at all |
| FileNames.FoldersDoNotMatter | daemon/findfiles.go:210-212 | a pattern without a slash is judged on the last element only, wherever the file is |

## Left out

- Model streaming, provider calls and their retries, MCP processes, sockets, the GitHub client: a reply is an arbitrary value, or an arbitrary sequence of them.
- Links, permissions, path hazards and confinement: a refused path is refused by an open function, and without links a path leads where it says.
- Base64, hex, URL escaping and trimming of credential values: open functions of the value (`CredScrub.Library`).
- Which characters count as CJK, which lines report a failure, how a long line is cut, how a chunk is rendered and classified, how case is folded, what a character class in a glob says: open functions.
- Chunk ids, vectors and embedding text; scores are real numbers, not floating point.
- `sort.Slice` and `sort.SliceStable` are modelled as insertion into a sorted list; the labels `scan` returns are a set, not a sorted list.
- The one-pass delivery without `TwoPass` (`truncateToBudget`), and the savings that are only logged.
- DeliveryPacker.PackHitsFirst: stated for chunks cut from one version of each file, because the size cache is keyed by range and length and is right only then.
- ChatSync.RevisionsNeverOverstate: the text a client shows of its own exchange is identified with the stored text; scrubbing before storing, notices in the transcript and the limit on the history sent to the model are not modelled.
- The undo report, the removal of emptied session directories after an undo, and the second, home-folder part of a session: the same batch on another root.
- UndoBatch.RestoreAll: destinations are distinct, none above another, none named like a staging file, as the walk over a session's files gives them; cleanup removals succeed, and a failed MkdirAll changes nothing. That all goes through is said of paths with no component named like a staging file.
- UndoGuard.UndoPart: the user's answer is a parameter; the files listed are those of one walk.
- TrashTools.RunTools: an id that is already taken is passed over, where the program draws ids from the time and random bytes and does not look; pruning after thirty days is not a step.
- The home folder's own trash (a second tree of the same form) and the mirroring of deletes and moves into a working copy.
- Checkpoint.RestoreIsExactIff: a file written again with the same size, time and mode but other content is not distinguished from one not written, the size limits of snapshots are not modelled, and SHA-256 digests are taken as names.
- The list of named checkpoints and its refusal to hold too much.
- The judge's log of verdicts, its memory of frames, and carrying out its decisions (`control`, `progress`).
- AgentLoop.StandaloneWithin: a long task's segments run under their own budget and are not modelled; time, bytes, tokens, money, repeats and stalls are one arbitrary reason to stop, and the retries below one request (`streamWithRetry`) are part of that request.
- Consent.TurnGrantWasGiven: grant keys of different families never coincide, and a digest names its arguments; the egress review, the outside-read test and the launch probe are given, not computed.
- The tool-output byte ceiling, and compacting a transcript.
- CommandDigestLaws.CommandDigestWithin: a character stands for a byte, and a count of lines is below 2^63.
- Reading references out of a prompt (`parseFileLineRefs`, `resolveRefs`), the gitignore matcher, and the widening of hits (`widenHits`), of which only that a region joins its hit is used.
- FileNames.ExpressionIsGlob: a character class is one token with an open meaning; a class the regular-expression compiler refuses is not modelled. A path is its characters, a byte that belongs to none read as U+FFFD.
