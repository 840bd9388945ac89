# Verified model of the answer pipeline, the stores and the credential rules

A college-counselling service streams answers with cards in them, keeps a dated history of facts about schools,
crawls those facts with leased jobs, limits request rates, and ties login sessions to credentials. This project models
these parts in Dafny and proves what they are for. `dafny verify dfyconfig.toml` checks all of it.

Where the program changes state step by step, the model does too: classes with the same fields, loops where the program
loops, one method for each statement on a table. Each such method is proved against a function, and the theorems are
about that function, over every text, every chunking, every run or every interleaving.

| file | models |
|---|---|
| `Text.dfy`, `Emissions.dfy`, `Options.dfy`, `Queues.dfy` | Python's string searches, the stream of emissions, absent values, the queue order |
| `VizStripper.dfy`, `VizReassembly.dfy`, `VizScan.dfy` | removal of `[[viz:n]]` markers from a stream, refined to a leftmost scan of the whole text; when it leaves a marker; what it holds at the end of a text, and what a fresh stripper makes of the rest |
| `VizPlacement.dfy`, `VizMeaning.dfy`, `VizCuts.dfy`, `VizAlike.dfy` | placement of cards at their markers: the batch form, the streaming form, what both come to, exactly when the cuts matter and exactly when the two forms agree |
| `FinalContent.dfy`, `StreamedAnswers.dfy` | the writer of the final answer: cards staged, placed, and settled over a whole turn; whole answers streamed through it |
| `RouterRules.dfy`, `RouterMeaning.dfy`, `Steps.dfy` | the emission router: text, thinking and step lifecycle, over whole runs; what it puts out, told from the events alone |
| `Records.dfy`, `SegmentMeaning.dfy`, `StepReplay.dfy` | what is persisted of a stream, told from the stream alone, and the router composed with it |
| `TurnPersistence.dfy` | replay-safe history: the pairing check, the run's snapshot, the terminal update |
| `FactHistory.dfy`, `FactsStore.dfy`, `FactPages.dfy` | the dated table of facts, its writes, and page attempts |
| `JobRules.dfy`, `FactsJobsStore.dfy` | crawl jobs that are re-queued and resumed |
| `ExtractionRules.dfy`, `CdsStore.dfy` | extractions that fail for good when their lease expires |
| `RateLimit.dfy` | the sliding-window limiter |
| `CredentialRules.dfy`, `CredentialStore.dfy` | users, sessions, reset links and credential revisions |

How concurrency is modelled: each SQL statement, or each transaction where the program opens one, is one atomic step at
one reading of the clock, which never runs backwards. Only the insertion of a packet and the stamps of a school's pages
have an older reading of their own, because the clock of a transaction is read when it begins. Workers and requests may pass any argument, however stale, to any step, so every theorem about runs covers all interleavings.
Bookkeeping that the program does not store (the list of claims handed out, the revision at which a session was issued,
who is between two statements, what text was discarded) is ghost.

## What turned out not to hold, and when it does

* Placement depends on how the text is cut when a closing pair comes after whitespace
  (`VizCuts.WhitespaceDependsOnCut`) or is followed by a third bracket (`VizPlacement.ThirdBracketDependsOnCut`),
  because a decision is taken on the text received so far. Walking along the markers that a drain comes to, with
  none of these the text is cut-safe, and cutting it does not matter if and only if it is: `VizCuts.CutIndependentIff`,
  `VizCuts.AnyTwoCutsIff`. A text that is not cut-safe has a cut in two that shows more text.
* When a marker opens inside another one, the batch form skips to the next whitespace, and a streaming goes on behind the
  inner closing pair. They differ at every cut when text follows that pair directly (`VizAlike.NestingDiffers`), and a
  card can be placed differently behind the same text (`VizAlike.CardMoves`). All streamings of a text show the batch
  form's text if and only if the text is cut-safe and no nesting hides text (`VizAlike.SameTextIff`). They show its text
  and cards if the text is cut-safe and, wherever markers nest, what the batch form skips shows nothing, or at the end
  of the text only the cards that the fallback would show first; only if, when no card is staged twice
  (`VizAlike.SameShownIff`). Tidy texts are a class for which all of it holds: `VizPlacement.StreamIsBatch`.
* Removing markers can put a new one together out of what surrounded them (`VizStripper.StripMayReassemble`), exactly
  when the scan completes an opening across removed markers (`VizReassembly.ReassemblesIff`). It never happens when no
  marker opening comes directly behind the beginning of another one (`VizReassembly.NoneLeft`).
* A comment at the terminal flush says that a staged card is never silently lost. The flush does nothing unless the
  final answer has started and has not been flushed, so it leaves a card unwritten exactly when it finds one unwritten
  in that state (`FinalContent.RunTurn`); a turn cancelled before its answer starts writes none of its cards. Started
  means: since the last iteration began (`FinalContent.StartedIff`).
* When the first cards are staged in the middle of an answer, a lone bracket that the stripper still holds is written at
  the very end, behind text that came after it (`StreamedAnswers.BracketGoesLast`). The answer is shown in the order of
  its text if and only if the text before the staging does not leave one (`StreamedAnswers.StagedInOrderIff`), and its
  text alone also when nothing but brackets is shown behind it (`StreamedAnswers.StagedTextInOrderIff`).
* The documentation of `begin_iteration` says that a marker split across an iteration boundary must not leak, and for
  the placer it does not (`StreamedAnswers.StreamAnswer`). Without staged cards it does: each iteration has a fresh
  stripper, so the rest of a cut marker is shown, and a held bracket is lost (`VizScan.BoundariesCanShow`). At the end
  of every iteration what has been written is what one stripper would have written if and only if no boundary is seen
  (`VizScan.AnewIff`): the text that comes next, if any, begins with whitespace or an opening when the boundary falls
  inside a marker, not with a bracket when it falls behind a closing pair, and otherwise nothing is held but a lone
  bracket in front of a text that is one too. Then all that is shown is the scan of the whole text if and only if a
  lone bracket is left at the end of the last iteration exactly when it is left at the end of the whole text
  (`VizScan.ShownAnewIff`). Two boundaries that fail can make up for each other at the end
  (`VizScan.BoundariesCanCancel`).
* A call that reuses the id of a step that is still open leaves that step without an end
  (`RouterRules.ReusedIdNeverEnds`). Every started step ends, exactly once, if and only if no call does that:
  `RouterRules.AllStepsEndIff`.
* Beginning an iteration discards the text in the buffer (`RouterRules.BeginDiscards`, `RouterRules.UnclosedTextIsLost`).
  Over a whole run no other text of narration or answer is lost, and none at all if and only if every iteration begins
  with an empty buffer (`RouterRules.RunDiscardsNothingIff`), as when it comes first of all or directly after a close;
  then no thinking waits either (`RouterRules.ClosingSavesText`).
* `get_or_open_run` is two statements, and nothing in the schema forbids two running runs of one job. They can arise
  (`JobRules.TwoRunsCanBeOpen`), and do exactly when a worker inserts although a run has been opened since its lookup
  (`JobRules.OneRunBreaksIff`).
* The stamps of a school's pages are older than their commit, so a transaction from before a run began can put a school
  that was done back on the run's list (`JobRules.LateAttemptReturns`). The list grows exactly when the last transaction
  of a done school is such a one (`JobRules.PendingGrowsIff`).
* The documentation of `insert_packet` says that for a worker's extraction its fence amounts to the check of
  `complete_extraction`. The code does not ask for the status: packets also pass for an extraction that is still queued
  and, until its lease is over, for one that has been completed. `ExtractionRules.PacketStoredIff` is the exact
  condition. Its clock is the transaction's, so a packet can even be stored after the sweep that failed its extraction
  (`ExtractionRules.PacketAfterSweep`): over every run exactly the packets whose transactions began before the lease
  was over (`ExtractionRules.SweptForEver`, `ExtractionRules.NoLatePacketIff`).
* When a write finds a fact's content unchanged it overwrites the row's snapshot id but not its snapshot digest, and the
  section, the label and the reported period stay as well, so the columns of one row can come from two snapshots
  (`FactHistory.ColumnsOfTwoSnapshots`). These columns are those of the latest write exactly if it inserted the row or
  they were so already (`FactHistory.OriginIsCurrentIff`). Over every history they are those of the write that began the
  row, and the refreshed ones those of the last write that found it open (`FactHistory.HistoryIsTraced`).

## Model

| member | source | states |
|---|---|---|
| VizStripper.StripAtLeftmost | app/viz_placement.py:20-91 | the scan keeps exactly what is in front of the first marker opening of the text and hands the rest to the marker |
| VizStripper.StripWithoutMarker | app/viz_placement.py:79-91 | a text without a marker opening is kept whole, except an unfinished opening of two or more characters at its very end |
| VizStripper.AfterCleanBody | app/viz_placement.py:25-51 | a marker closed properly vanishes together with the run of closing brackets behind it |
| VizStripper.StripMayReassemble | app/viz_placement.py:20-91 | for every marker value: removal can leave a newly assembled marker opening in the output |
| VizReassembly.ReassemblesIff | app/viz_placement.py:20-91 | the stripped text has a marker opening if and only if the scan, keeping its held-back beginning over every removal, completes one |
| VizReassembly.NoneLeft | app/viz_placement.py:20-91 | no marker opening is left of a text in which none comes directly behind the beginning of another one |
| VizStripper.KeepAllButTrailing | app/viz_placement.py:62-76 | what is put out before the held-back suffix is safe whatever text follows |
| VizStripper.ReadsMismatch | app/viz_placement.py:53-76 | after a failed match everything but the longest suffix that may still open a marker is put out |
| VizStripper.ReadsBodyChar | app/viz_placement.py:30-51 | a character in a marker body that neither is whitespace nor closes it is dropped, and forgets a single closing bracket |
| VizStripper.ReadsBehindJunk | app/viz_placement.py:25-28 | behind a marker's closing brackets the stripper goes on as if just started |
| VizStripper.StreamingVizMarkerStripper.Feed | app/viz_placement.py:20-77 | output plus what is still owed equals what was owed before, for every text that may follow; the held-back prefix is always the longest suffix that is a proper prefix of an opening |
| VizStripper.StreamingVizMarkerStripper.FeedInside | app/viz_placement.py:30-51 | the marker states character by character keep that balance |
| VizStripper.StreamingVizMarkerStripper.FeedOutside | app/viz_placement.py:53-76 | so does the matching of an opening, and no occurrence is missed after a failed partial match |
| VizStripper.StreamingVizMarkerStripper.Flush | app/viz_placement.py:79-91 | the flush puts out exactly what is owed when nothing follows |
| VizStripper.StripChunks | app/viz_placement.py:20-91 | for every text and every way of cutting it, feeding the chunks and flushing is the leftmost scan of the whole text |
| Text.HoldsBackNext | app/viz_placement.py:147-155 | holding back the longest suffix of prefix and character keeps track of the longest suffix of all text read |
| Text.TrimMeans | app/steps.py:1176-1188 | a trimmed text is the text between whitespace at its two ends, and starts and ends with neither |
| VizPlacement.ChunksFromVizMarkers | app/viz_placement.py:94-144 | the batch loop with its cursor returns the merged stream of the recursive placement of the whole text |
| VizPlacement.PlaceMarker | app/viz_placement.py:99-115 | one marker of that loop keeps the whole answer on its way |
| VizPlacement.AppendDeltaMerges | app/viz_placement.py:132-138 | appending text to the list so far keeps it merged and equals merging at the end |
| VizPlacement.FlushIsBatch | app/agent_node.py:459-490 | on tidy text a single final flush shows the items of the batch form |
| VizPlacement.DrainThenFlush | app/agent_node.py:459-490 | for every cut-safe text, and for every text when nothing follows, draining now and flushing the rest later shows what one flush of the whole shows |
| VizPlacement.StreamIsFlush | app/agent_node.py:444-490 | any chunks of a cut-safe text, drained one by one and flushed, show what one flush of it shows |
| VizPlacement.StreamIsBatch | app/agent_node.py:416-516 | for every tidy text and every way of cutting it, streaming with the final fallback gives, after merging, exactly the batch form |
| VizPlacement.ProperMarkersAreTidy | app/viz_placement.py:94-120 | texts whose markers have a bracket-free, whitespace-free value closed by exactly two brackets are tidy |
| VizPlacement.DrainLeavesEnd | app/agent_node.py:459-490 | what stays pending after a drain is a suffix of what was pending |
| VizMeaning.EveryFormMeans | app/viz_placement.py:94-144 | for any list of proper markers with text between them, any cards and any way of cutting: batch form and streaming both show each text, the named card at each first marker of its number, nothing at any other, and then the cards left in staging order |
| VizMeaning.MarkersMean | app/agent_node.py:459-490 | the same for one flush and for the batch placement, whatever cards have been shown before |
| VizMeaning.MarkerPlacesCard | app/viz_placement.py:111-114 | in every form the marker of number k shows the text in front of it, card k, the text behind it, and the other cards in staging order |
| VizMeaning.OtherValuePlacesNothing | app/viz_placement.py:108-114 | in every form a marker whose value is no number, or one out of range, vanishes and all cards come last |
| VizMeaning.SecondMarkerPlacesNothing | app/viz_placement.py:111-114 | in every form a second marker of the same number vanishes |
| VizMeaning.FallbackResolves | app/agent_node.py:450-457 | the fallback shows the cards not yet shown in staging order |
| VizPlacement.ThirdBracketDependsOnCut | app/agent_node.py:459-490 | for every value: a third bracket vanishes in one chunk and is shown when it arrives in the next |
| VizCuts.CutIndependentIff | app/agent_node.py:444-490 | all cuttings of a text are shown as one flush of it if and only if the text is cut-safe; the same for the text shown alone |
| VizCuts.AnyTwoCutsIff | app/agent_node.py:444-490 | any two cuttings of a text are shown alike if and only if it is cut-safe |
| VizCuts.OneChunkIsFlush | app/agent_node.py:444-490 | every text that arrives in one chunk is shown as by one flush |
| VizCuts.UnsafeCut | app/agent_node.py:459-490 | a text that is not cut-safe has a cut in two that shows more text than one flush |
| VizCuts.WhitespaceDependsOnCut | app/agent_node.py:467-475 | for every value: whitespace in a marker is swallowed in one chunk, and shown with what follows it when the closing pair arrives later |
| VizAlike.SameTextIff | app/agent_node.py:459-490 | all streamings show the text of the batch form if and only if the text is cut-safe and no nested opening hides text |
| VizAlike.SameShownIff | app/viz_placement.py:94-144 | all streamings show text and cards of the batch form if the text is cut-safe and nesting shows alike; only if, when no card is staged twice |
| VizAlike.AlikeIff | app/viz_placement.py:99-115 | for every cut-safe text and any cards shown before, one flush shows what the batch form shows if and only if behind each nested opening the skipped text shows nothing, or at the end of the text only the fallback's first cards |
| VizAlike.DrainSplits | app/agent_node.py:467-475 | a cut-safe text is flushed in front of whitespace and from it on separately, text and cards |
| VizAlike.NestingDiffers | app/viz_placement.py:99-115 | when text without whitespace directly follows the inner closing pair, every streaming shows it and the batch form hides it |
| VizAlike.CardMoves | app/viz_placement.py:99-115 | for every plain text behind whitespace: the same text, but a nested card is placed by streaming and left to the fallback by the batch form |
| FinalContent.DrainShowsOnce | app/agent_node.py:459-490 | draining any text shows no card twice and none shown before, and records exactly the cards it shows |
| FinalContent.FallbackShowsTheRest | app/agent_node.py:450-457 | the fallback shows exactly the staged cards not shown yet, each once |
| FinalContent.PermutationPicksAll | app/agent_node.py:450-457 | showing every staged index once is showing every staged card once |
| FinalContent.StreamingVizMarkerPlacer.Feed | app/agent_node.py:444-448 | a chunk is drained as the specification says and each card stays written at most once |
| FinalContent.StreamingVizMarkerPlacer.Flush | app/agent_node.py:450-457 | after a fallback flush nothing is pending and every staged card has been emitted |
| FinalContent.StreamingVizMarkerPlacer.DrainPending | app/agent_node.py:459-502 | the loop over the pending text writes exactly what the recursive drain shows, and terminates |
| FinalContent.FinalContentPlacementWriter.BeginIteration | app/agent_node.py:537-555 | a new iteration has fresh parsers but keeps the pending text and the emitted cards |
| FinalContent.FinalContentPlacementWriter.Write | app/agent_node.py:557-568 | before the final answer chunks pass through; its text is placed or stripped; any other chunk settles the cards first |
| FinalContent.FinalContentPlacementWriter.FlushFinal | app/agent_node.py:570-581 | nothing before the final answer has started; then everything owed is written, every card included unless an earlier flush has latched |
| FinalContent.FinalContentPlacementWriter.WriteFinalText | app/agent_node.py:583-590 | final text goes to the placer while cards wait and to the stripper otherwise |
| FinalContent.RunTurn | app/agent_node.py:519-590 | over any interleaving of staging, chunks, flushes and iterations each card is written at most once, after a settling operation each staged card exactly once, after any other flush all cards only if all were written before it, and without a started answer none |
| FinalContent.StartedIff | app/agent_node.py:532-555 | the final answer has started exactly if it was started since the last iteration began |
| FinalContent.FlushedIff | app/agent_node.py:557-581 | the cards of an iteration have been settled exactly if, behind the start of the answer, there was a flush, or a chunk other than text when a card had been staged |
| StreamedAnswers.StreamAnswer | app/agent_node.py:537-590 | with cards staged before it, any answer over any iterations is written as if all its chunks were streamed in one, pending text carried over; without cards it is the scans of the iterations one after the other |
| StreamedAnswers.StreamStaged | app/agent_node.py:570-590 | with cards staged at any point of an answer: the scan of the text before without a bracket it leaves, then the placed stream, then that bracket |
| StreamedAnswers.StagedInOrderIff | app/agent_node.py:570-590 | the answer is shown in the order of its text if and only if the text before the staging leaves no bracket |
| StreamedAnswers.StagedTextInOrderIff | app/agent_node.py:570-590 | its text is in order also when only brackets are shown behind |
| StreamedAnswers.BracketGoesLast | app/agent_node.py:570-590 | for every text: a bracket before the staging is shown behind the text that comes after it |
| VizScan.ReadsAsScan | app/viz_placement.py:20-91 | however a text is read, the stripper has put out what the scan has and holds what it holds: a lone bracket exactly if the scan ends at one |
| VizScan.ScanSplit | app/viz_placement.py:20-91 | the scan of two texts is the scan of the first, gone on with from where it stands |
| VizScan.RestartIff | app/agent_node.py:537-555 | a fresh stripper puts out for a text what the one before it would have, if and only if nothing held or open is continued by the text |
| VizScan.AnewIff | app/agent_node.py:537-555 | fresh strippers have written at the end of every iteration what one stripper would have, if and only if no boundary is seen |
| VizScan.ShownAnewIff | app/agent_node.py:537-581 | then all that is shown is the scan of the whole text if and only if the last iteration leaves a bracket exactly when the whole text does |
| VizScan.BoundariesCanShow | app/agent_node.py:537-555 | for every value: a marker cut by a boundary shows its rest, and a bracket held at a boundary is lost |
| VizScan.BoundariesCanCancel | app/agent_node.py:537-581 | three iterations whose boundaries are seen and that still show the scan of the whole text |
| RouterRules.HandleKeepsText | app/steps.py:968-993 | every event conserves the text, in order, and leaves nothing counted as already streamed |
| RouterRules.CloseKeepsText | app/steps.py:1010-1063 | closing does too, and leaves the buffer empty |
| RouterRules.BeginDiscards | app/steps.py:995-1008 | beginning an iteration discards exactly the text in the buffer and keeps everything else in order |
| RouterRules.RunKeepsText | app/steps.py:966-1160 | for every sequence of events, closes and iterations the text of narration and answer that was flushed or discarded, followed by the buffer, is all that was fed, narration shows trimmed and answer text unchanged, and the output stays in order |
| RouterRules.RunDiscardsNothingIff | app/steps.py:995-1008 | a run loses no text if and only if each of its iterations begins with an empty buffer |
| RouterRules.UnclosedTextIsLost | app/steps.py:995-1008 | for every text: fed and not closed, it is gone when an iteration begins |
| RouterRules.ClosingSavesText | app/agent_node.py:1115-1185 | no text is lost, and no thinking waits at a beginning, when every iteration comes first of all or directly after a close |
| RouterRules.InOrderMeans | app/steps.py:1091-1140 | in order means: within an iteration the final answer starts at most once, narration only before it, answer text only after it |
| RouterMeaning.TextFollows | app/steps.py:1067-1160 | told from the events of any run alone: text leaves as answer exactly when fed to a started answer, or when it waited marked as the output and then ended before nothing or a thought or was closed as complete, or a run result came; a new iteration discards what waits, and all other text leaves as narration |
| RouterMeaning.MarkedMeans | app/steps.py:1067-1132 | marked means: a final result came while the text waited, and no tool call, deciding end, run result, close or new iteration came since |
| RouterMeaning.ThinkingFollows | app/steps.py:1162-1181 | told from the events alone: each complete paragraph of reasoning is shown trimmed as it lands and the last one at a close, the blank ones and a switched-off display aside; only an unfinished paragraph is lost at a new iteration |
| RouterMeaning.StepsFollow | app/steps.py:1192-1306 | told from the events alone: which calls run, by id and in order, and for each announcement its number, tool and status: start at a public call, end or error by its result, and at a close by the reason and the tool |
| RouterRules.HandleKeepsSteps | app/steps.py:968-993 | every event keeps: each step counted was started once, each step that is done was ended once and after its start |
| RouterRules.CloseKeepsSteps | app/steps.py:1010-1063 | closing keeps that and leaves no step open |
| RouterRules.RunKeepsSteps | app/steps.py:1192-1306 | over every run step ids never repeat, no step ends twice or unstarted, and a closed router has no open step |
| RouterRules.ClosedIsQuiet | app/steps.py:968-1063 | a closed router ignores events, and closing twice is closing once |
| RouterRules.LosesIff | app/steps.py:1192-1216 | a step is lost exactly when a call takes over the id of a step still open |
| RouterRules.AllStepsEndIff | app/steps.py:1192-1306 | after a close every started step has ended exactly once if and only if calls open at the same time had distinct ids |
| RouterRules.ReusedIdNeverEnds | app/steps.py:1192-1216 | for every visible tool: of two calls of one id, both open, the first is started and never ended |
| Steps.EmissionRouter.Handle | app/steps.py:968-993 | the router's dispatch on its fields is the specified step |
| Steps.EmissionRouter.BeginIteration | app/steps.py:995-1008 | resets the buffers and latches, keeps the counter and the open steps |
| Steps.EmissionRouter.Close | app/steps.py:1010-1063 | flushes thinking and text by reason, then ends the open steps in order |
| Steps.EmissionRouter.HandleFinalResult | app/steps.py:1067-1080 | a final result starts the answer or marks the buffered text as a candidate for it |
| Steps.EmissionRouter.EndTextPart | app/steps.py:1109-1132 | a text part leaves as answer or as narration, by what follows it |
| Steps.EmissionRouter.FeedThinking | app/steps.py:1162-1169 | complete paragraphs leave the thinking buffer, the rest stays |
| Steps.EmissionRouter.StartStep | app/steps.py:1192-1216 | buffered text becomes narration, and a visible step is numbered, stored under its call id and announced |
| Steps.EmissionRouter.FinishStep | app/steps.py:1218-1275 | a result ends the step stored under its call id, and an unknown one nothing |
| Records.FinalEmissionDeduper.Keep | app/records.py:60-71 | a card is kept unless one of the same signature was seen; everything else is kept |
| Records.BuildParts | app/records.py:79-103 | the fold returns the merged text and cards of the log, each card once |
| Records.PartsOf | app/records.py:79-103 | parts have no empty and no adjacent texts |
| Records.PartsHoldAllProse | app/records.py:79-185 | for every log the prose of its parts is the concatenation of all its answer text |
| Records.BuildSegments | app/records.py:106-176 | the fold with its index maps and in-place overwrites returns the chronology of the log |
| Records.ViewsAgree | app/records.py:79-176 | for every log the text and cards among its segments, merged, are exactly its parts |
| Records.DedupFirst | app/records.py:60-176 | deduplicating cards beforehand changes neither view |
| Records.StepSegments | app/records.py:141-149 | every step of a log has exactly one segment, in the order of first emissions, with its last payload |
| Records.StepStandsAtFirst | app/records.py:106-176 | in the segments returned a step stands behind the visible places of exactly what came before its first emission, so behind exactly the text and cards of the log until then |
| SegmentMeaning.SegmentsTell | app/records.py:106-176 | for every log the segments other than text are, in order, its nonempty narration and thinking, its clarifications, its cards at first signature, and its steps and injected messages at first emission with their last payload; text and cards are those of the parts |
| SegmentMeaning.EntryStands | app/records.py:106-176 | each of these stands behind the segments of exactly what came before it in the log |
| SegmentMeaning.TextSegments | app/records.py:121-135 | the text segments are the runs of text between other emissions, where only a repeated card does not split a run |
| SegmentMeaning.LastUserMeans | app/records.py:150-166 | the payload of a message is that of its last emission |
| StepReplay.EveryStepShowsItsEnd | app/records.py:106-176 | in any log that carries the router's steps, after a close and with distinct open ids, each started step has one segment and it shows the end |
| TurnPersistence.ScanDecidesPaired | app/agent_node.py:682-707 | a scanner with one bit per id ends idle exactly on (call+ return)* |
| TurnPersistence.CallIdMeans | app/agent_node.py:677-679 | call and return are known by the first of two fields, or the second when the first is empty, or by none |
| TurnPersistence.IsProviderReplayable | app/agent_node.py:682-707 | the check accepts exactly the histories whose parts are all well formed and whose calls and returns match (call+ return)* for every id |
| TurnPersistence.RunHandle.RecordReplayableSnapshot | app/agent_node.py:710-727 | every recorded snapshot is replayable; anything else leaves the last one in place |
| TurnPersistence.RunHandle.RecordSnapshot | app/run_handle.py:49-57 | a snapshot overwrites the last one and counts |
| TurnPersistence.TextKeepsReplayable | app/turn_persistence.py:93-116 | a text response neither makes nor breaks replayability |
| TurnPersistence.TerminalUpdateIsReplayable | app/turn_persistence.py:122-191 | a terminal update keeps a replayable base replayable, extends it, and appends exactly the answer text behind the snapshot point when a request can anchor it |
| TurnPersistence.SnapshotSplitsProse | app/turn_persistence.py:93-116 | the text before a snapshot point and the appended tail are together all answer text, nothing twice |
| TurnPersistence.TailMeans | app/turn_persistence.py:93-104 | a snapshot point before the emissions counts as their start, one behind them leaves no tail |
| TurnPersistence.RunHandle.TerminalUpdate | app/turn_persistence.py:155-175 | so for the update from the run's own snapshot, an empty one counting as none |
| FactHistory.LastOfKeyWins | adapters/facts_store.py:340-342 | of the mapped rows of a key on changed tabs with a value the last is the one stored |
| FactHistory.WriteKeepsValid | adapters/facts_store.py:335-443 | a write keeps the intervals of each fact in order and apart |
| FactHistory.NeverOverlap | adapters/facts_store.py:335-443 | two rows of one fact are never live at once and never both open |
| FactHistory.OpenIsMapped | adapters/facts_store.py:335-443 | every open row of a changed tab has, column by column, the value, display, unit and source path of its mapped row, the mapper version of the write and the tab's snapshot id; an inserted one also the section, label, period, year and digest |
| FactHistory.OriginIsCurrentIff | adapters/facts_store.py:383-436 | it has the section, label, period and digest of its mapped row if and only if this write inserted it or it had them already |
| FactHistory.ColumnsOfTwoSnapshots | adapters/facts_store.py:418-436 | two writes of one value: the row has the id of the second snapshot and the digest and period of the first |
| FactHistory.MappedIsOpen | adapters/facts_store.py:335-443 | every mapped row with a value has an open row |
| FactHistory.OthersUntouched | adapters/facts_store.py:343-352 | rows of other schools and other tabs do not change, and none are inserted |
| FactHistory.RepeatedWriteIsNothing | adapters/facts_store.py:355-371 | repeating a write later inserts nothing, closes nothing and changes no column |
| FactHistory.HistoryIsValid | adapters/facts_store.py:315-443 | over every history of writes the table stays valid |
| FactHistory.HistoryIsTraced | adapters/facts_store.py:383-436 | over every history each row has, column by column, its fixed columns from the write that began it and its refreshed columns from the last write that found it open |
| FactHistory.HistoryTellsThePast | adapters/facts_store.py:315-443 | at every point of every history, for every school and every past time, the rows live then hold exactly the facts left by the last writes up to then |
| FactsStore.ValueChanged | adapters/facts_store.py:291-305 | the comparison by kind, typed columns and payload misses no difference of content |
| FactsStore.BuildNewByKey | adapters/facts_store.py:340-342 | the dictionary of rows to store, and its keys once each |
| FactsStore.CompareCurrent | adapters/facts_store.py:355-367 | the lists hold exactly the keys that end, those replaced, and those kept, and count them |
| FactsStore.AddUnseen | adapters/facts_store.py:368-370 | together the inserts are exactly the stored keys that no current row already tells |
| FactsStore.ClosedIsInsertable | adapters/facts_store.py:372-415 | once the closing is done the unique index admits every insert of the list |
| FactsStore.ListsMakeWrite | adapters/facts_store.py:372-436 | closing, inserting and refreshing by the three lists is the specified write |
| FactsStore.CountsBalance | adapters/facts_store.py:437-443 | open rows after a write are those before, plus the inserted, less the closed |
| FactsStore.CountsMean | adapters/facts_store.py:355-367 | the counts of unchanged and withdrawn facts are the numbers of the open rows whose content is mapped again, and of those whose key is gone |
| FactsStore.SchoolFacts.Close | adapters/facts_store.py:372-382 | closes exactly the listed open rows; the index holds afterwards |
| FactsStore.SchoolFacts.InsertAll | adapters/facts_store.py:383-415 | the index holds before and after every single insert |
| FactsStore.SchoolFacts.WriteSchoolFacts | adapters/facts_store.py:315-443 | the whole write: the specified table, at most one open row of a fact after every statement, and the three counts |
| FactPages.FailuresMeans | adapters/facts_store.py:145-165 | the counter is the length of the run of failures since the last fetch |
| FactPages.RowMeans | adapters/facts_store.py:145-248 | a page's row has, column by column, the time and outcome of its last attempt, and the times and snapshot of the last fetch and change |
| FactPages.ChangeMeans | adapters/facts_store.py:234-248 | snapshot and time of change are those of the last attempt that found the page changed |
| FactPages.SchoolPages.RecordFailure | adapters/facts_store.py:145-165 | a failed attempt keeps every page's row what its attempts call for |
| FactPages.SchoolPages.RecordUnchanged | adapters/facts_store.py:168-182 | so does an unchanged fetch |
| FactPages.SchoolPages.RecordChanged | adapters/facts_store.py:234-248 | and a changed one, as far as the page's row goes |
| JobRules.RunKeepsInv | adapters/facts_jobs_store.py:73-266 | over every interleaving at most one job of a kind is live, leases outlast their start, and the claims of a job are strictly later each time |
| JobRules.EveryRunIsSound | adapters/facts_jobs_store.py:73-266 | so in every state reached from empty tables |
| JobRules.DailyPassIff | adapters/facts_jobs_store.py:73-94 | the daily tick enqueues a pass if and only if none is live and every run that ended did so longer than the interval ago |
| JobRules.LatestClaimOnly | adapters/facts_jobs_store.py:192-221 | completing under a claim has an effect if and only if the job runs and no later claim of it was handed out |
| JobRules.StepWritesJob | adapters/facts_jobs_store.py:129-266 | each step leaves of each job, column by column, what it was told: status, error, claim, lease end and end time |
| JobRules.StepEnqueues | adapters/facts_jobs_store.py:73-115 | exactly the guarded enqueues add a job: queued, of the kind asked for, at the time of the step |
| JobRules.StepWritesRun | adapters/facts_jobs_store.py:224-386 | each step leaves every run as it was but the running one it closes, which gets the status, error and time told; only a worker that opens one adds one |
| JobRules.FinishedAsTold | adapters/facts_jobs_store.py:192-266 | over every run a job that ended has the status, error and time of one operation sent under the claim it still has |
| JobRules.StaleCrashIsNothing | adapters/facts_jobs_store.py:224-266 | a crash report under a stale claim touches neither job nor run |
| JobRules.OverForEver | adapters/facts_jobs_store.py:192-221 | a finished job never changes again |
| JobRules.ClosedForEver | adapters/facts_jobs_store.py:333-386 | a closed run never changes again |
| Queues.NextIsOldest | adapters/facts_jobs_store.py:129-151 | the row claimed is the one that has waited longest, the first of those in the table |
| JobRules.StepKeepsSettled | adapters/facts_jobs_store.py:269-292 | while a job's only run stays open, no step opens another |
| JobRules.OneRunBreaksIff | adapters/facts_jobs_store.py:269-292 | two running runs of one job arise exactly from an insert whose lookup has been overtaken |
| JobRules.TwoRunsCanBeOpen | adapters/facts_jobs_store.py:269-292 | a run of claims, an expired lease and two openers in which that happens |
| JobRules.PendingMeans | adapters/facts_jobs_store.py:389-410 | a school leaves the pending list exactly when all six pages were attempted since the run's start |
| JobRules.CrashSafeProgress | adapters/facts_jobs_store.py:269-410 | while a settled run stays open, any mix of crash, sweep, re-claim and resume finds the same run, and a school is pending exactly if its last transaction since began before the run, or it had none and was pending |
| JobRules.PendingGrowsIff | app/facts/crawl.py:273-295 | the pending list grows if and only if the last transaction of a done school began before the run; otherwise it is the old list less the schools stepped |
| JobRules.LateAttemptReturns | app/facts/crawl.py:273-295 | a transaction from before the run's start puts a done school back on the list |
| JobRules.AllAttemptedIff | adapters/facts_jobs_store.py:389-410 | no school is left if and only if every page of the crosswalk was attempted since the start |
| FactsJobsStore.FactsJobsStore.EnqueueDailyPass | adapters/facts_jobs_store.py:73-94 | enqueues unless a pass is live or the last run ended within the interval |
| FactsJobsStore.FactsJobsStore.EnqueueNow | adapters/facts_jobs_store.py:97-115 | enqueues unless a job of the kind is live |
| FactsJobsStore.FactsJobsStore.ClaimNextJob | adapters/facts_jobs_store.py:129-151 | claims a longest queued job, and none only when none is queued |
| FactsJobsStore.FactsJobsStore.RenewJobLease | adapters/facts_jobs_store.py:154-169 | renews any running job, whoever holds it |
| FactsJobsStore.FactsJobsStore.SweepExpiredLeases | adapters/facts_jobs_store.py:172-189 | re-queues exactly the running jobs whose lease is over |
| FactsJobsStore.FactsJobsStore.CompleteJob | adapters/facts_jobs_store.py:192-221 | finishes the job if it runs under this claim, else nothing |
| FactsJobsStore.FactsJobsStore.MarkJobCrashed | adapters/facts_jobs_store.py:224-266 | closes run and job in one transaction if the claim still holds, else nothing |
| FactsJobsStore.FactsJobsStore.LookupRun | adapters/facts_jobs_store.py:269-282 | reuses the job's running run when there is one |
| FactsJobsStore.FactsJobsStore.OpenRun | adapters/facts_jobs_store.py:283-292 | opens a run without looking again |
| FactsJobsStore.FactsJobsStore.CloseRun | adapters/facts_jobs_store.py:333-386 | closes the run if it is running, else nothing |
| FactsJobsStore.FactsJobsStore.AttemptSchool | app/facts/crawl.py:273-295 | one transaction stamps all six pages of the school with the time of its begin |
| FactsJobsStore.FactsJobsStore.SchoolsPendingThisRun | adapters/facts_jobs_store.py:389-410 | returns exactly the pending schools of the crosswalk |
| ExtractionRules.StepMoves | adapters/cds_store.py:315-397 | every step moves an extraction only from queued to running to one final status, and changes no column of a final one |
| ExtractionRules.StepWritesRow | adapters/cds_store.py:258-397 | each step leaves of each extraction, column by column, what it was told, and adds only a queued one or a finished review |
| ExtractionRules.FinishedAsTold | adapters/cds_store.py:366-397 | over every run an extraction that ended has the status, error and time of the completion or sweep that ended it |
| ExtractionRules.FinalForEver | adapters/cds_store.py:366-397 | over every run a final extraction stays as it is |
| ExtractionRules.FinishedOnce | adapters/cds_store.py:366-397 | over every run completions and sweeps together finish an extraction at most once, and exactly once if it ends up final |
| ExtractionRules.CompletionExcludesSweep | adapters/cds_store.py:622-647 | at no instant can both succeed, in either order |
| ExtractionRules.SweptForEver | adapters/cds_store.py:622-647 | once swept, a row never changes again, for every run and every claim, and the packets stored for it are exactly those whose transactions began before the lease was over |
| ExtractionRules.SweptRefuses | adapters/cds_store.py:345-397 | no renewal and no completion of a swept extraction has an effect |
| ExtractionRules.NoLatePacketIff | app/cds/calling.py:388-403 | a run stores no packet for a swept extraction if and only if no packet's transaction began before its lease ended |
| ExtractionRules.PacketAfterSweep | app/cds/calling.py:388-403 | a transaction begun before the end of the lease stores its packet after the sweep has failed the extraction |
| ExtractionRules.PacketStoredIff | adapters/cds_store.py:476-501 | a packet is stored if and only if the extraction is queued, a human review, or has a lease that was not over when the transaction began |
| ExtractionRules.EveryRunIsSound | adapters/cds_store.py:258-397 | in every run from empty tables ids are distinct, queued rows have no lease, running, partial and failed ones have one, and only human reviews succeed without |
| ExtractionRules.CompletedStillStores | adapters/cds_store.py:476-501 | a completed extraction takes a packet while its lease lasts |
| CdsStore.CdsStore.CreateExtraction | adapters/cds_store.py:258-288 | queues an extraction under a new id |
| CdsStore.CdsStore.ClaimNextExtraction | adapters/cds_store.py:315-342 | claims a longest queued extraction, and none only when none is queued |
| CdsStore.CdsStore.RenewLease | adapters/cds_store.py:345-363 | renews a running extraction and otherwise reports the lost lease |
| CdsStore.CdsStore.CompleteExtraction | adapters/cds_store.py:366-397 | finishes a running extraction whose lease is not over and otherwise writes nothing |
| CdsStore.CdsStore.SweepExpiredLeases | adapters/cds_store.py:622-647 | fails exactly the running extractions whose lease is over |
| CdsStore.CdsStore.InsertPacket | adapters/cds_store.py:476-501 | stores a packet exactly when the fence, at the clock of its transaction, lets it through |
| CdsStore.CdsStore.CreateHumanReviewExtraction | adapters/cds_store.py:650-684 | a human review is born succeeded and without a lease |
| RateLimit.PrunedIsFiltered | api/ratelimit.py:54-61 | a deque pruned from the front is the complete history cut to the window |
| RateLimit.FilteredIsCounted | api/ratelimit.py:62-63 | its length is the naive count of admissions in the window |
| RateLimit.AdmissionObeys | api/ratelimit.py:54-68 | admitting only below the limit keeps every window, ending at any time, within it |
| RateLimit.WaitIsExact | api/ratelimit.py:62-63 | the wait read off the deque is exact: refused before it, admitted from it on |
| RateLimit.LongerWaitIsExact | api/ratelimit.py:70-88 | both windows admit after a delay exactly when it is at least the longer of the two waits |
| RateLimit.HeaderIsExact | api/ratelimit.py:177-178 | the whole seconds of Retry-After (section 10.2.3 of RFC 9110) are the fewest positive ones after which both windows admit |
| RateLimit.RunObeys | api/ratelimit.py:54-88 | over any sequence of calls no window of any key, ending at any time, holds more recorded calls than its limit |
| RateLimit.AdmittedObey | api/ratelimit.py:54-88 | when each call is answered by naive counting of the calls admitted before, no window of any key, ending at any time, holds more admitted calls than its limit |
| RateLimit.SlidingWindowLimiter.PutAll | api/ratelimit.py:54-88 | over every sequence of calls the limiter answers exactly so, and the history of each key is the times of its admitted calls |
| RateLimit.SlidingWindowLimiter.Peek | api/ratelimit.py:90-101 | prunes to exactly the window's history, answers as the naive count does, records nothing |
| RateLimit.SlidingWindowLimiter.Check | api/ratelimit.py:54-68 | decides as naive counting over the full history does, returns the exact wait, and records the time on its key exactly when it admits |
| RateLimit.SlidingWindowLimiter.CheckMessage | api/ratelimit.py:70-88 | both windows or neither: admission records the time on both keys, a refusal on none and returns the least wait after which both admit; no other key changes |
| CredentialRules.RunKeepsCurrent | api/auth_sessions.py:99-125 | every run keeps each stored session one of its user's present revision |
| CredentialRules.EveryRunIsSound | api/auth_sessions.py:57-125 | in every state reached from empty tables each stored session was issued at its user's present revision, no two successful resets were of one revision, and no two users have one address |
| CredentialRules.RunNeverLowers | api/users_db.py:189-278 | over every run revisions never fall and a deleted user's id never returns |
| CredentialRules.ChangeSpends | api/users_db.py:189-278 | whatever step gives a user another email or hash raises the revision and ends every session and challenge, except the rehash of the very row that is stored |
| CredentialRules.StepStores | api/users_db.py:189-278 | each column of a user holds after any step what the step gives it and otherwise what it held, and the revision rises exactly when it gives an email or a hash, rehashes aside |
| CredentialRules.RegisterStores | api/users_db.py:157-187 | a registered user is stored as given at revision 0, or nothing happens when the address is taken |
| CredentialRules.SessionEndsIff | api/auth_sessions.py:99-148 | a step ends a session if and only if it logs it out, logs its user out everywhere, deletes the user or changes the credential |
| CredentialRules.ChallengeStaysIff | api/routes/auth_account.py:108-160 | a challenge stays until its user is deleted or gets another credential, and only an admitted request replaces it |
| CredentialRules.InactiveIsRefused | api/auth_lifecycle.py:86-123 | nothing comes of a user who is not active: no login, rehash, reset, change of password or of address |
| CredentialRules.LoginIff | api/auth_sessions.py:99-125 | a login succeeds if and only if the snapshot is the stored active credential, up to the case of the address |
| CredentialRules.ActingIff | api/auth_account_security.py:13-43 | a change of password or address takes the exact stored credential and a session of that user |
| CredentialRules.RunKeepsAddresses | migrations/0004_users.sql:17-18 | over every run no two users come to have the same address in whatever case |
| CredentialRules.StaleForEver | api/auth_sessions.py:57-125 | a snapshot or link older than a credential change never does anything again: no session, rehash, password change or reset comes of it |
| CredentialRules.EachLinkOnce | api/auth_lifecycle.py:86-123 | every run with any number of concurrent uses keeps it so that at most one of all links of one revision has succeeded |
| CredentialRules.UsedLinkIsDead | api/auth_lifecycle.py:86-123 | a used link never opens again, whatever happens to the password, rehashes included |
| CredentialRules.FreshLinkSucceeds | api/auth_lifecycle.py:86-123 | a link used before the row changes succeeds and ends the old credential |
| CredentialStore.CredentialStore.Update | api/users_db.py:189-216 | writes the given columns; a new email or hash raises the revision and ends sessions in the same transaction |
| CredentialStore.CredentialStore.UpgradePasswordHash | api/users_db.py:229-243 | rehashes exactly the credential that was authenticated |
| CredentialStore.CredentialStore.ReplacePassword | api/users_db.py:245-278 | compare-and-set: consumes the stored credential if it is the snapshot's, else nothing |
| CredentialStore.CredentialStore.ChangePassword | api/routes/auth_account.py:53-76 | the same behind the recheck of the acting session, and it succeeds exactly if that passes |
| CredentialStore.CredentialStore.LockAccountSession | api/auth_account_security.py:13-43 | passes exactly while row and session are the ones of the request |
| CredentialStore.CredentialStore.Authenticate | api/auth.py:172-196 | from a snapshot of any age: the user as read, or rehashed if the row is still the one read, or nobody |
| CredentialStore.CredentialStore.CheckLink | api/auth_lifecycle.py:93-118 | a link opens exactly for the email, revision and hash it was made from, while the user exists and is active |
| CredentialStore.CredentialStore.FinishReset | api/auth_lifecycle.py:119-123 | the reset succeeds only if nothing has changed since the check |
| CredentialStore.CredentialStore.CreateSession | api/auth_sessions.py:99-125 | issues a session exactly if the stored credential is still the one that was authenticated |
| CredentialStore.CredentialStore.DeleteSession | api/auth_sessions.py:143-148 | ends one session of the user |
| CredentialStore.CredentialStore.RevokeUserSessions | api/auth_sessions.py:237-239 | ends every session of the user and no other |
| CredentialStore.CredentialStore.ConfirmEmail | api/routes/auth_account.py:134-160 | a confirmed address replaces the old one, spends the credential, the challenge and every session |

## Left out

- Characters and numbers: digits are ASCII (Python's `isdigit` also accepts others, and its `int` refuses more than 4300 digits); letters fold in ASCII only.
- Time and arithmetic: times are reals in the limiter and integers elsewhere; floating-point rounding of waits is not modelled.
- Steps: labels, receipts, sources and details of a step are reduced to its tool and status; the step mapper's visibility is three sets of tools.
- Emissions: a card's signature and payload are abstract values; the turn record around parts and segments is not built.
- Facts: JSON values are abstract, table order stands for the unspecified order of rows in a result, and a key is taken to belong to one tab, as the mapper produces it.
- Snapshots: storing and pruning page snapshots, and the nulling of a pruned snapshot's id in old fact rows, are not modelled.
- Explore rows, coverage counts, sitemap bookkeeping and retirement of schools: the crosswalk of a run is fixed.
- Runs: counters of a run (added without a fence on its status) and its summary columns are not modelled; the advisory lock of a pass is not needed by any theorem here.
- JobRules.ClaimNext: takes the first of the longest queued jobs, where the database may take any of them.
- FactsJobsStore.FactsJobsStore.RenewJobLease: is not fenced on the claim, in the program and therefore here.
- FactPages.SchoolPages.RecordChanged: models the page's row; the snapshot that the same call stores and the pruning behind it are not modelled.
- CdsStore.CdsStore.InsertPacket: models the fenced insert; an unknown manifest or a packet that fails the reader's round trip is refused before it and changes nothing.
- CredentialStore.CredentialStore.ChangePassword: models the locked change; the route's demands on a recent login and a verified address come before it and only refuse.
- CredentialStore.CredentialStore.LockAccountSession: checks row and session; the session's expiry and the age of its login are not modelled, so it passes more often than the program does.
- CredentialStore.CredentialStore.ConfirmEmail: takes the user of the challenge instead of looking the token up, and the challenge's expiry is not modelled.
- Transactions: but for packets and the stamps of pages, the statements of one transaction are one step at one time.
- StreamedAnswers.StreamAnswer: takes cards staged before the answer or none; StreamedAnswers.StreamStaged takes them in the middle of one iteration. For text behind a flush that has latched only the contract of each write is stated.
- Packets: the round trip of a packet through the reader's parser, and activation, are not modelled.
- Rate limits: a limit is fixed for its key and at least one (the program would fail on an empty deque at limit zero); the fallback limiter that admits everything is left out.
- Credentials: password hashing, token signatures and digests are abstract; sessions and links never expire by themselves, which only adds runs; verification of an address, linked accounts and reauthentication challenges are not modelled.
- HTTP routes, streaming frames, email delivery, model calls, prompts and the goal loop around the writer and the router.
