# Verified model of the agent runtime

This project models the state machines, windowed detectors and text transformations of
the agent runtime and proves properties of them. Every module follows one part of the
repository; code that updates state in place is a class or a method with loops, proved
against a specification function, and the lemmas state what those functions promise.

| file | what it models |
|---|---|
| `Conversation.dfy`, `Compression.dfy` | messages, token estimates, valid tool-calling transcripts; the context compressor |
| `Histories.dfy` | every history that a run can build by appending turns and compacting |
| `AgentLoop.dfy` | the iteration skeleton of `AgentLoop.run` against an arbitrary environment |
| `Detectors.dfy`, `Guardrails.dfy` | stall detector, loop detector, tool-failure guardrails |
| `RunLimits.dfy`, `ToolBatch.dfy` | budget, stop engine, retry; execution of one batch of tool calls |
| `JsonScanner.dfy`, `TrailingCommas.dfy` | the three character passes of the JSON repair |
| `Redaction.dfy`, `Breaker.dfy`, `Router.dfy` | PII redaction and restoration, circuit breaker, routing cascade |
| `CredentialPool.dfy` | round-robin credential failover |
| `ProjectMap.dfy` | the visited-set directory walk |
| `Streaming.dfy` | streaming queue and buffered consumer |
| `BlastRadius.dfy` | the multiplicity-aware line diff and its limits |
| `Integrity.dfy` | the hashed directory stream and the cached mid-session check |
| `Prelude.dfy` | options and decimal numerals |

Names of hashes and signatures are keys: strings that are equal exactly when the source
takes two calls to be the same. The model, the summarizer, the clock, tool outcomes and
randomness are parameters, so each statement holds for all their behaviours.

## What the proofs show about the code

Where a promise made by comments or documentation does not hold, the model follows the
code, and a lemma says exactly when the promise is kept.

- Compaction keeps a history a valid transcript exactly when the cut after the protected
  head does not fall inside a run of tool answers, or when nothing is cut out at all
  (`Compression.CompressionPairedIff`).
  With the default head of three messages the first compaction of a run can do so
  (`Histories.FirstCompactionCanUnpair`); every compaction after one that filled the head
  cannot, because the summary then stands right behind the head
  (`Histories.AnchoredForever`). `Histories.RunPairedIffFirstCutsClean` is the exact
  condition for whole runs.
- The comment of `executeToolCallsConcurrent` says that a duplicate call gets the first
  call's result. On the sequential path it gets no result, so its call stays unanswered
  in the history (`ToolBatch.AnswersAllIff`, `Histories.RepeatedReadUnpairs`); on the
  concurrent path it gets the failure "Not executed" (`ToolBatch.RunConcurrently`). This is
  the only way in which a turn of a run can leave a request with an unanswered call: a
  batch cut by an abort is never sent (`Loop.AgentLoop.Run`).
- A dead credential is said never to recover. A rate-limit or billing error reported for
  it revives it (`CredentialPool.DeadRevived`, `CredentialPool.DeadForeverIff`); with one
  report per hand-out this cannot happen (`CredentialPool.TerminalIsFinal`).
- Asking for availability admits a probe even when the cascade then serves from an earlier
  deployment. Such a probe is never resolved, and later calls skip the deployment for good
  (`Router.CloudStranded`, `Router.ProbeStrandedIff`, `Router.StrandedForever`).
- A request with more than 128000 tokens is meant for the cloud, the only tier said to have
  enough window; the cloud's window is 128000 as well, so every deployment is skipped
  (`Router.UltraLongUnserved`).
- One pass of the trailing-comma removal leaves a trailing comma behind exactly when two
  are stacked, as in `[1,,]` (`TrailingCommas.OnePassIsCompleteIff`,
  `TrailingCommas.StackedCommaLeftBehind`), and a NUL-delimited placeholder in the input is
  taken for one of its own (`TrailingCommas.NulCanBeMistaken`).
- Escaping raw control characters changes nothing in what the text says
  (`JsonScanner.EscapedReadsAlike`).
- Missing closers are appended as all brackets, then all braces. The result is well nested
  exactly when the open stack is braces below brackets and the scan ends outside strings
  and escapes (`JsonScanner.ClosedWellNestedIff`); `[{` is not such a text
  (`JsonScanner.ObjectInArrayNotClosed`).
- Restoration gives the text back for disjoint spans and a text free of placeholders
  (`Redaction.RoundTrip`); without either condition it can fail
  (`Redaction.TextWithPlaceholderNotRestored`, `Redaction.OverlapNotRestored`).
- The budget check counts the iteration in progress, so a run makes at most
  `max(1, maxIterations - 1)` model round trips (`Loop.AgentLoop.Run`).
- The stall detector never fires when its threshold exceeds its window
  (`Detectors.StallDetector.RecordAndCheck`).
- A peek after a recorded call agrees with it, except that after a success a non-positive
  threshold makes it disagree (`Guardrails.ToolGuardrailController.CheckThenPeek`).
- A NUL character in a file's content lets two different directories have the same hashed
  stream (`Integrity.NulInContentCollides`).

## Model

| member | source | states |
|---|---|---|
| Conversation.EstimateTokens | packages/agent-core/src/advanced-compression.ts:797-813 | the two nested loops compute the sum over messages of 4 plus a quarter, rounded up, of every text and argument length |
| Conversation.EstimateBounds | packages/agent-core/src/advanced-compression.ts:797-813 | four times the estimate is at least all characters plus sixteen for every message and call, and at most three more for every text |
| Conversation.TokensConcat | packages/agent-core/src/advanced-compression.ts:797-813 | the estimate of a concatenation is the sum of the estimates |
| Conversation.CallKeyTellsApart | packages/tool-system/src/parallel-execution.ts:457-473 | calls of one tool, or of tools with colon-free names, are duplicates only with the same arguments |
| Conversation.PairedSplit | packages/agent-core/src/advanced-compression.ts:532-621 | cutting a transcript before a non-tool message leaves two transcripts |
| Conversation.PairedConcat | packages/agent-core/src/loop.ts:1443-1575 | two transcripts one after the other are a transcript |
| Conversation.CutInsideTurnUnpaired | packages/agent-core/src/advanced-compression.ts:536-537 | cutting inside a run of answers, and going on with anything but a tool message, never leaves a transcript |
| Conversation.SameShapePaired | packages/agent-core/src/advanced-compression.ts:396-402 | changing contents only keeps a transcript one |
| Compression.Phase0Dedupe | packages/agent-core/src/advanced-compression.ts:382-412 | every message superseded by a later one of its tool-and-call key carries a placeholder, all others are untouched; the count is the number of keyed messages minus distinct keys |
| Compression.DedupeKeepsShape | packages/agent-core/src/advanced-compression.ts:382-412 | length, order, roles and ids are kept, and content wherever no later message has the same key |
| Compression.SupersededSaysSo | packages/agent-core/src/advanced-compression.ts:396-402 | a message with a later one of its key has the duplicate notice as its content, which names the tool of the next such message |
| Compression.SameKeyIff | packages/agent-core/src/advanced-compression.ts:386-390 | tool messages share a key iff call id and tool name agree, for one id, one name or colon-free names |
| Compression.DedupeIdempotent | packages/agent-core/src/advanced-compression.ts:382-412 | deduping twice is deduping once |
| Compression.Phase2Boundaries | packages/agent-core/src/advanced-compression.ts:532-621 | head, middle and tail are the history; the head has `protectFirstN` messages at most; the tail is the longest suffix of the rest that fits 30% of the window and separates no tool message from its assistant turn |
| Compression.TailStart | packages/agent-core/src/advanced-compression.ts:554-618 | the backward walk over groups stops at the earliest clean cut whose suffix fits the budget, and terminates |
| Compression.UnitBack | packages/agent-core/src/advanced-compression.ts:560-614 | one step of the walk takes a whole assistant group, or one message before which the cut is clean, and charges exactly its tokens |
| Compression.GroupTokens | packages/agent-core/src/advanced-compression.ts:585-597 | the forward scan of a group charges the messages from its assistant turn up to the current one |
| Compression.FindOwner | packages/agent-core/src/advanced-compression.ts:563-582 | the inner scan finds the assistant turn that a tool message answers, and fails only if cutting there is clean |
| Compression.WalkStep | packages/agent-core/src/advanced-compression.ts:559-615 | a unit that does not fit ends the walk at the maximal tail, because no clean cut lies strictly inside a group |
| Compression.TailShare | packages/agent-core/src/advanced-compression.ts:554-618 | the tail takes at most 30% of the window, and the tail of every earlier clean cut takes more |
| Compression.CleanCutOfTranscript | packages/agent-core/src/advanced-compression.ts:563-609 | in a transcript the clean cuts are exactly those before a non-tool message |
| Compression.PhaseEvict | packages/agent-core/src/advanced-compression.ts:469-492 | keeps the whole middle, or the suffix that starts at a user message and holds exactly `evictTurnAge` of them |
| Compression.AdvancedCompressor.SetFrozenSnapshot | packages/agent-core/src/advanced-compression.ts:246-248 | stores the snapshot and changes nothing else |
| Compression.AdvancedCompressor.Reset | packages/agent-core/src/advanced-compression.ts:816-818 | forgets the previous summary |
| Compression.AdvancedCompressor.RunPhases | packages/agent-core/src/advanced-compression.ts:291-332 | the phases together give head, optional summary and maximal clean tail of the deduped history; the summary text is empty iff there is no snapshot and nothing is left out |
| Compression.AdvancedCompressor.Compress | packages/agent-core/src/advanced-compression.ts:276-366 | the same, and when the rest takes more than 30% of the window the message behind the head is the snapshot, a blank line and the summary body between the two markers, otherwise the snapshot alone; with the token counts before and after, the saving never negative, and the summary remembered |
| Compression.CompressionSpelledOut | packages/agent-core/src/advanced-compression.ts:276-366 | the whole result without the phases: head, that very message, and the tail behind what is left out; without snapshot and cut, the deduped history |
| Compression.LeftOutIff | packages/agent-core/src/advanced-compression.ts:554-618 | something is left out iff what follows the head takes more than 30% of the window |
| Compression.CompressionUnique | packages/agent-core/src/advanced-compression.ts:276-366 | history, window, snapshot and summary text determine the result |
| Compression.SplicePairedIff | packages/agent-core/src/advanced-compression.ts:694-719 | a user message in place of the messages between two cuts, the second one clean, leaves a transcript iff the first cut is not inside a run of answers |
| Compression.SplitPairedIff | packages/agent-core/src/advanced-compression.ts:694-719 | with or without a snapshot: head, optional summary and tail are a transcript iff the head cut is clean or nothing stands between head and tail |
| Compression.CompressionPairedIff | packages/agent-core/src/advanced-compression.ts:276-366 | compressing a transcript yields a transcript iff the message after the head is not a tool message, or there is no snapshot and the rest fits the tail budget |
| Compression.CompressionWithoutSummary | packages/agent-core/src/advanced-compression.ts:276-366 | without a snapshot, a history whose rest fits the tail budget is only deduped (the other case is part of `CompressionPairedIff`) |
| Compression.CompressionAnchorsHead | packages/agent-core/src/advanced-compression.ts:694-719 | after a compaction of a history that filled the head, the message right behind the head is the summary |
| Histories.TurnPairedIff | packages/agent-core/src/loop.ts:1443-1575 | appending an assistant turn and its answers keeps a transcript iff every call has an answer |
| Histories.StepPairedIff | packages/agent-core/src/loop.ts:1209-1613 | one step of a run keeps a transcript iff the step is sound: the head cut is clean, or the plan of the turn (halted ids, concurrent or not, where an abort cuts) answers every call |
| Histories.RunPairedIff | packages/agent-core/src/loop.ts:1201-1626 | all histories of a run are transcripts iff all its steps are sound |
| Histories.AnchoredForever | packages/agent-core/src/loop.ts:1209-1269 | once a compaction has filled the head, the summary stays right behind it in every later history |
| Histories.RunPairedIffFirstCutsClean | packages/agent-core/src/loop.ts:1201-1626 | all histories of a run are transcripts iff the plan of every turn answers all its calls and no compaction before the first anchoring one cuts a run of answers |
| Histories.AnsweredPrefixPaired | packages/agent-core/src/loop.ts:1201-1626 | whether a history of a run is a transcript is settled by the steps before it |
| Histories.FirstCompactionCanUnpair | packages/agent-core/src/advanced-compression.ts:536-537 | a prompt, a turn with two calls and its answers: the first compaction with head three leaves no transcript |
| Histories.RepeatedReadUnpairs | packages/tool-system/src/parallel-execution.ts:290-313 | a turn that asks for the same read twice, executed sequentially, leaves a history that is no transcript |
| Loop.AgentLoop.MaybeCompact | packages/agent-core/src/loop.ts:1209-1269 | the history is replaced by its compression exactly when the window is past half full or compaction was requested, the compressor does not throw and tokens are saved; the request flag is cleared |
| Loop.AgentLoop.DetectCallLoop | packages/agent-core/src/loop.ts:1466-1485 | the calls of a turn are shown to the detector in order up to the first that ends a loop in the whole history, and a loop is reported iff there is one |
| Loop.AgentLoop.DetectLoop | packages/agent-core/src/loop.ts:1453-1485 | the content is looked at first, and calls only if it does not repeat |
| Loop.AgentLoop.PreCheck | packages/agent-core/src/loop.ts:1497-1520 | exactly the calls that the failure history blocks get a synthetic result, and nothing is recorded |
| Loop.AgentLoop.AppendAnswers | packages/agent-core/src/loop.ts:1533-1575 | one tool message, in call order, for every halted call and every call with a result, from the first result with its id; exactly the executed ones are recorded with the guardrails |
| Loop.AgentLoop.ExecuteTurn | packages/agent-core/src/loop.ts:1486-1613 | the plan halts exactly the blocked calls, and no blocked call is executed; exactly the calls that the plan answers get a tool message, in call order. With distinct ids, each says what its own call gave: the guardrail notice, the outcome's text, `Error: ` and that text, or "Not executed" for a concurrent repeat or a call kept from starting; the event recorded for it has its own success |
| Loop.FoundIsFirst | packages/agent-core/src/loop.ts:1550 | the result taken for a call is the first one with its id |
| Loop.FoundOwnResult | packages/agent-core/src/loop.ts:1521-1558 | with distinct ids, the result taken for a call is the outcome of that very call, or "Not executed" if it was not run |
| Loop.TurnReported | packages/agent-core/src/loop.ts:1533-1575 | messages and recorded events of a turn, position by position |
| Loop.AgentLoop.CheckStop | packages/agent-core/src/loop.ts:1396-1441 | the response is charged to the budget, parse failures are counted or reset, and the stop engine judges the new state; the loop goes on iff no stop condition holds, and stops for budget or stall iff one of them does and nothing earlier |
| Loop.AgentLoop.Settle | packages/agent-core/src/loop.ts:1396-1613 | a round that does not stop adds exactly one turn to the run; then no limit is exceeded, no call of the response completed a stall, and both detectors have seen all its calls and found no loop; a stopping one adds none; a stop requested during the model call stops it |
| Loop.AgentLoop.TakeTurn | packages/agent-core/src/loop.ts:1443-1613 | the turn with its plan is added to the run, and leaves no call unanswered unless it is sequential with duplicates or an abort cuts it |
| Loop.AgentLoop.Ask | packages/agent-core/src/loop.ts:1209-1375 | one request, the compression of the history when one is due and the history itself otherwise, with at most `maxRetries + 1` attempts; compaction is requested iff a retried error asks for it |
| Loop.AgentLoop.Iterate | packages/agent-core/src/loop.ts:1203-1613 | one iteration sends one request unless the abort signal is up, and goes on only after a successful attempt whose response meets no stop condition and no loop; a signal raised at its start, during the model call or during the batch stays up for the next one |
| Loop.AgentLoop.Start | packages/agent-core/src/loop.ts:962-1066 | budget, both detectors, guardrails and compressor start with empty histories; the snapshot is frozen once and kept by later runs |
| Loop.AgentLoop.Run | packages/agent-core/src/loop.ts:1198-1626 | for every environment the run ends for a reason before its hard cap, with at most `max(1, maxIterations - 1)` round trips and `(maxRetries + 1)` times as many attempts; its requests are histories of a run from the prompt, one turn a round, and no call blocked before its turn is recorded; if no sequential batch has duplicates, no request follows an unanswered call, aborts included |
| Loop.RequestsPaired | packages/agent-core/src/loop.ts:1319-1323 | every request sent to the model is a transcript, if no request follows an unanswered call and the cuts before the first anchoring are clean |
| Loop.RunFailuresBounded | packages/agent-core/src/loop.ts:1497-1566 | over a run, the executed failures of a call without a success in between are at most `exactFailureBlockAfter - 1` plus its copies in one turn |
| Loop.ResultsDeliver | packages/agent-core/src/loop.ts:1521-1575 | decisions and results together give content to exactly the calls that the plan answers |
| Detectors.StallDetector.RecordAndCheck | packages/agent-core/src/stall-detector.ts:49-63 | fires iff the threshold fits the window and the last `threshold` calls ever recorded are equal |
| Detectors.StallDetector.Reset | packages/agent-core/src/stall-detector.ts:99-101 | starts a new history |
| Detectors.RunLengthIsRepeat | packages/agent-core/src/loop-detector.ts:172-200 | the consecutive counter reaches n iff the whole history ends in n equal calls |
| Detectors.IsRepetition | packages/agent-core/src/loop-detector.ts:261-270 | the nested comparison loops decide whether the segment repeats its first block |
| Detectors.LoopDetector.DetectCycle | packages/agent-core/src/loop-detector.ts:244-276 | finds the shortest admissible non-constant cycle that the window ends in, and none only if there is none, for every threshold including zero |
| Detectors.LoopDetector.WindowDecides | packages/agent-core/src/loop-detector.ts:202-211 | the window of `maxCycleLength * cycleThreshold` entries ends in a cycle iff everything ever pushed does |
| Detectors.LoopDetector.PushAndDetect | packages/agent-core/src/loop-detector.ts:202-231 | after push and trim, the report about the window is the report about all pushed calls |
| Detectors.LoopDetector.RecordToolCall | packages/agent-core/src/loop-detector.ts:172-231 | a repeat of the whole call history is reported first, else the shortest cycle of the pushed calls, else nothing |
| Detectors.LoopDetector.RecordContent | packages/agent-core/src/loop-detector.ts:282-312 | reports iff the whole content history ends in `threshold` equal contents, with the exact run length |
| Detectors.LoopDetector.Reset | packages/agent-core/src/loop-detector.ts:315-323 | starts new histories |
| Detectors.DetectToolCallLoop | packages/agent-core/src/loop-detector.ts:368-378 | non-null iff some prefix of the calls ends in a repeat or a cycle, and then about the shortest such prefix with its smallest cycle |
| Guardrails.OpenFailuresStep | packages/agent-core/src/tool-guardrails.ts:247-276 | recording a call adds one open failure, clears the key on success, and leaves other keys alone |
| Guardrails.OpenToolFailuresStep | packages/agent-core/src/tool-guardrails.ts:278-305 | the same per tool, for failures below the thresholds of their own key |
| Guardrails.ToolGuardrailController.Peek | packages/agent-core/src/tool-guardrails.ts:167-218 | the decision is the one that the whole recorded history determines: halt iff the open failures of the call reach the block threshold, or are too few for a warning and those of its tool reach the halt threshold; nothing changes |
| Guardrails.Judge | packages/agent-core/src/tool-guardrails.ts:172-212 | which numbers of failures give which action, with the count and the threshold that was reached |
| Guardrails.BlocksIff | packages/agent-core/src/tool-guardrails.ts:172-212 | a call is halted iff its own or its tool's open failures reach the thresholds |
| Guardrails.KeyTellsApart | packages/agent-core/src/tool-guardrails.ts:234-237 | calls of one tool, or of tools with colon-free names, share a counter only with the same arguments |
| Guardrails.ToolGuardrailController.Check | packages/agent-core/src/tool-guardrails.ts:228-345 | the counters equal their history definitions after the call; a tripping failure is judged by the history including it, any other call by the no-progress verdict |
| Guardrails.ToolGuardrailController.CheckProgress | packages/agent-core/src/tool-guardrails.ts:307-341 | the counter is the length of the run of equal working-tree hashes that the whole history of hashes ends in; a mutating tool gets a result injected, or a warning, iff that history ends in enough equal hashes |
| Guardrails.ToolGuardrailController.CheckThenPeek | packages/agent-core/src/tool-guardrails.ts:167-345 | a peek right after a check without a tree hash agrees with it iff the call failed or all thresholds are positive |
| Guardrails.ToolGuardrailController.Reset | packages/agent-core/src/tool-guardrails.ts:367-373 | starts a new history |
| Guardrails.BatchFailures | packages/agent-core/src/loop.ts:1497-1566 | in one turn the open failures of a call grow by its copies at most, and not at all once it is blocked |
| Guardrails.FailuresBounded | packages/agent-core/src/tool-guardrails.ts:167-345 | over all turns whose calls were not blocked beforehand, open failures stay within `exactFailureBlockAfter - 1` plus the copies in one turn |
| RunLimits.BudgetTracker.RecordCall | packages/agent-core/src/budget.ts:109-120 | adds each token count unless negative, and starts the clock once |
| RunLimits.BudgetTracker.RecordIteration | packages/agent-core/src/budget.ts:125-128 | one more iteration, nothing else but the clock |
| RunLimits.BudgetTracker.Reset | packages/agent-core/src/budget.ts:92-98 | all counters back to zero and the clock stopped |
| RunLimits.StopEngine.RecordParseFailures | packages/agent-core/src/stop-engine.ts:86-88 | each parse failure counts once |
| RunLimits.StopEngine.Check | packages/agent-core/src/stop-engine.ts:103-184 | each stop reason is returned iff its condition holds and no earlier one does; the engine lets the loop go on iff it is not aborted, the response is neither cut off nor final, tokens, cost, iterations and time are within the limits, no prefix of the calls makes the signature history end in a repeat, and parse failures are below their limit |
| RunLimits.ExceededIff | packages/agent-core/src/budget.ts:173-215 | the budget check trips iff one of the four limits is broken, with the cost in millionths and the time in milliseconds |
| RunLimits.CallWithRetry | packages/agent-core/src/retry.ts:123-202 | the result is the outcome of the last attempt; it was last because it succeeded, failed for good or was attempt `maxRetries + 1`, and every earlier one failed retryably |
| RunLimits.DelayBounds | packages/agent-core/src/retry.ts:170-180 | every delay lies between the floor of base times one minus jitter and the base, which is at most `maxBackoff` |
| RunLimits.DelayFormula | packages/agent-core/src/retry.ts:170-180 | the delay is the base times one minus a random share of the jitter, rounded down, as the comment at the top of the file has it |
| RunLimits.BackoffGrows | packages/agent-core/src/retry.ts:171 | the bases start at the initial backoff and grow by the multiplier up to the cap |
| ToolBatch.DedupByArgHash | packages/tool-system/src/parallel-execution.ts:457-473 | keeps exactly the calls that duplicate no earlier one, in order |
| ToolBatch.RunInOrder | packages/tool-system/src/parallel-execution.ts:294-313 | the sequential path returns the outcomes of the calls started before an abort, in order |
| ToolBatch.RunConcurrently | packages/tool-system/src/parallel-execution.ts:315-350 | the concurrent path returns one result a call in call order: its own outcome, or "Not executed" for a duplicate or a call that did not run |
| ToolBatch.ExecuteToolCalls | packages/tool-system/src/parallel-execution.ts:277-351 | which of the two a batch gets |
| ToolBatch.ParallelAnswersAll | packages/tool-system/src/parallel-execution.ts:337-350 | concurrent execution answers every call |
| ToolBatch.SequentialAnswersAllIff | packages/tool-system/src/parallel-execution.ts:290-313 | sequential execution answers every call iff none duplicates another and no abort cuts the batch short |
| ToolBatch.SequentialRunsAllIff | packages/tool-system/src/parallel-execution.ts:290-313 | the sequential path runs every call iff none duplicates another and no abort cuts the batch short |
| ToolBatch.DuplicateNotRun | packages/tool-system/src/parallel-execution.ts:290-313 | a call that duplicates an earlier one is never run sequentially |
| ToolBatch.AnswersAllIffRan | packages/agent-core/src/loop.ts:1521-1575 | a turn is answered in full iff all its executable calls come back with a result |
| ToolBatch.AnswersAllIff | packages/agent-core/src/loop.ts:1521-1575 | with distinct ids: iff the batch runs concurrently, or its executable calls have no duplicate and no abort comes before the last of them |
| ToolBatch.DuplicateFreeAnswersAll | packages/agent-core/src/loop.ts:1521-1575 | a concurrent batch, or one without duplicates and abort, is answered in full whatever the ids |
| ToolBatch.RepeatedReadUnanswered | packages/tool-system/src/parallel-execution.ts:290-313 | of the same read asked for twice, the second call is not answered |
| JsonScanner.EscapeNewlinesInStrings | packages/agent-core/src/json-repair.ts:123-169 | the loop escapes exactly the raw newlines, carriage returns and tabs inside strings |
| JsonScanner.ScanMeans | packages/agent-core/src/json-repair.ts:123-169 | the next character is escaped iff an odd number of backslashes precedes it, and stands in a string iff an odd number of unescaped quotes does |
| JsonScanner.EscapedScansAlike | packages/agent-core/src/json-repair.ts:123-169 | escaping keeps the final scanner state and the counts of open braces and brackets |
| JsonScanner.EscapedReadsAlike | packages/agent-core/src/json-repair.ts:123-169 | escaping preserves what a reader makes of the text: every escape stands for the very character it replaces |
| JsonScanner.EscapedIdempotent | packages/agent-core/src/json-repair.ts:123-169 | escaping twice is escaping once |
| JsonScanner.EscapedFixpointIff | packages/agent-core/src/json-repair.ts:123-169 | a text is left unchanged iff no string in it holds a raw control character |
| JsonScanner.AddMissingClosers | packages/agent-core/src/json-repair.ts:178-215 | appends a bracket for every open bracket, then a brace for every open brace |
| JsonScanner.ClosedLeavesNothingOpenIff | packages/agent-core/src/json-repair.ts:178-215 | both counters end at zero iff they were zero or the scan ended outside strings and escapes |
| JsonScanner.ClosedIdempotentIff | packages/agent-core/src/json-repair.ts:178-215 | closing twice is closing once under exactly that condition |
| JsonScanner.CountersRefineStack | packages/agent-core/src/json-repair.ts:178-215 | on a prefix of well-nested text the counters count the stack of open braces and brackets and never clamp |
| JsonScanner.ClosedWellNestedIff | packages/agent-core/src/json-repair.ts:178-215 | the result is well nested iff the scan ended outside strings and escapes with a stack of braces below brackets |
| JsonScanner.ObjectInArrayNotClosed | packages/agent-core/src/json-repair.ts:178-215 | `[{` is closed to `[{]}`, which is not well nested |
| TrailingCommas.RemoveTrailingCommasSafe | packages/agent-core/src/json-repair.ts:231-254 | the loop with its side table computes extraction, comma removal and restoration |
| TrailingCommas.LiteralEndIff | packages/agent-core/src/json-repair.ts:235 | the regular expression for literals finds exactly the string that the quote-and-escape scanner sees, unless a backslash stands before a line terminator in it |
| TrailingCommas.ReplaceIsDrop | packages/agent-core/src/json-repair.ts:244 | the leftmost global replacement drops exactly the commas before a closer |
| TrailingCommas.DropInRender | packages/agent-core/src/json-repair.ts:235-244 | dropping commas in the text with placeholders is dropping them in the token sequence |
| TrailingCommas.LiteralsSurvive | packages/agent-core/src/json-repair.ts:231-254 | every string literal survives, in order |
| TrailingCommas.PlaceholderMatches | packages/agent-core/src/json-repair.ts:241-253 | a placeholder is matched whole and its printed index is read back |
| TrailingCommas.RestoreRender | packages/agent-core/src/json-repair.ts:249-253 | restoring what was extracted gives the text of the tokens |
| TrailingCommas.PipelineIsOnePass | packages/agent-core/src/json-repair.ts:231-254 | without literals, or without NUL characters outside them, the pipeline is the one-pass scanner that drops the commas outside strings before a closer |
| TrailingCommas.NulFreeIsOnePass | packages/agent-core/src/json-repair.ts:231-254 | the same for every NUL-free text |
| TrailingCommas.DropIsCompleteIff | packages/agent-core/src/json-repair.ts:244 | dropping twice on the tokens changes nothing more iff no two trailing commas are stacked |
| TrailingCommas.TokenizeDropped | packages/agent-core/src/json-repair.ts:231-254 | the text that one pass leaves has exactly the tokens that were not dropped: no string literal appears, ends elsewhere or is lost |
| TrailingCommas.OnePassIsCompleteIff | packages/agent-core/src/json-repair.ts:222-254 | a second pass over the text changes nothing iff no two trailing commas are stacked |
| TrailingCommas.StackedCommaLeftBehind | packages/agent-core/src/json-repair.ts:244 | `[1,,]` becomes `[1,]`, which another pass would change to `[1]` |
| TrailingCommas.NulCanBeMistaken | packages/agent-core/src/json-repair.ts:231-254 | a text holding a placeholder is restored wrongly |
| Redaction.PlaceholderInjective | packages/agent-core/src/local-llms-router.ts:289 | kind and number can be read back from a placeholder |
| Redaction.PlaceholderNumbered | packages/agent-core/src/local-llms-router.ts:283-292 | a placeholder holds the kind of its span and how many spans of that kind have been handled with it |
| Redaction.PlaceholdersDistinct | packages/agent-core/src/local-llms-router.ts:283-292 | each span gets its own placeholder |
| Redaction.RedactPii | packages/agent-core/src/local-llms-router.ts:276-294 | the spans are cut out from last to first, each leaving its numbered placeholder, and the map holds one entry a span |
| Redaction.RestorePii | packages/agent-core/src/local-llms-router.ts:297-304 | every key in turn is replaced everywhere |
| Redaction.CutOutsArePiece | packages/agent-core/src/local-llms-router.ts:282-292 | for disjoint spans the redacted text is the original with each span replaced in place |
| Redaction.RestoreRightmost | packages/agent-core/src/local-llms-router.ts:297-304 | replacing one key everywhere puts back exactly its own span |
| Redaction.RoundTrip | packages/agent-core/src/local-llms-router.ts:276-304 | restoring a redaction gives the text back, for disjoint genuine spans and a text without such placeholders |
| Redaction.RedactThenRestore | packages/agent-core/src/local-llms-router.ts:276-304 | the same for the two procedures one after the other |
| Redaction.TextWithPlaceholderNotRestored | packages/agent-core/src/local-llms-router.ts:297-304 | a text that already holds a placeholder is not given back |
| Redaction.OverlapNotRestored | packages/agent-core/src/local-llms-router.ts:276-304 | overlapping spans are not given back |
| Breaker.Deployment.IsAvailable | packages/agent-core/src/local-llms-router.ts:481-508 | who is admitted, and that an open or half-open admission takes the single probe |
| Breaker.Deployment.RecordProbeResult | packages/agent-core/src/local-llms-router.ts:515-526 | a probe's result closes or reopens the breaker; outside half-open only the flag changes |
| Breaker.Deployment.RecordSuccess | packages/agent-core/src/local-llms-router.ts:529-542 | any success resets the breaker |
| Breaker.Deployment.RecordFailure | packages/agent-core/src/local-llms-router.ts:545-566 | the window is trimmed and extended; a probe's failure or a full window opens the breaker |
| Breaker.AlwaysConsistent | packages/agent-core/src/local-llms-router.ts:481-566 | under any interleaving, stale results included: a probe is out iff half-open, the opening time is set iff not closed, and a closed breaker holds fewer failures than the threshold |
| Breaker.ProbePending | packages/agent-core/src/local-llms-router.ts:500-507 | while a probe is out and no result comes in, nothing changes |
| Breaker.SingleProbe | packages/agent-core/src/local-llms-router.ts:481-508 | between two admissions of a tripped breaker there is a result |
| Breaker.QuietForCooldown | packages/agent-core/src/local-llms-router.ts:483-499 | a breaker that a failure opened admits nothing for the cooldown, unless a success is recorded |
| Breaker.ReadmittedAfterCooldown | packages/agent-core/src/local-llms-router.ts:483-499 | after the failure that opened it, asked in vain until then, a breaker admits a request iff the cooldown is over |
| Breaker.WindowIsHistory | packages/agent-core/src/local-llms-router.ts:552-554 | the trimmed window keeps what the whole failure history since the last success would |
| Breaker.TripsIff | packages/agent-core/src/local-llms-router.ts:552-564 | a failure opens the breaker at that time iff a probe was out or, with it, enough failures since the last success lie in the window; otherwise circuit and opening time stay |
| Router.CombineTags | packages/agent-core/src/local-llms-router.ts:254-268 | any PII tag wins over any restricted tag, which wins over the rest |
| Router.ChainFacts | packages/agent-core/src/local-llms-router.ts:408-469 | the chain is duplicate-free, leaves out the primary, and has no cloud entry when the gate is closed; the primary is the one picked, or the orchestrator in place of a gated cloud |
| Router.ChainMembers | packages/agent-core/src/local-llms-router.ts:456-469 | the chain is in cascade order, and holds every deployment but the primary, or of orchestrator, general and fast all but the primary when gating is on and a message is tagged PII or restricted |
| Router.PrimaryByScores | packages/agent-core/src/local-llms-router.ts:408-445 | which scores pick which primary; the cloud gets reasoning of 3 and more whatever the tools, long contexts get the large windows |
| Router.LocalLlmsRouter.FilterChain | packages/agent-core/src/local-llms-router.ts:703-706 | the chain is filtered, each entry asked once, with its probe taken when admitted; what is left is in the order of the chain |
| Router.EligibleInOrder | packages/agent-core/src/local-llms-router.ts:703-706 | of two entries that pass the filter the earlier one comes from the earlier position of the chain |
| Router.LocalLlmsRouter.Cascade | packages/agent-core/src/local-llms-router.ts:735-810 | entries are tried in order up to the first that fits and answers; exactly the fitting ones before it get a failure |
| Router.LocalLlmsRouter.Call | packages/agent-core/src/local-llms-router.ts:670-833 | sensitivity, primary, chain, order and cascade of one call together; of the deployments tried that the request fits and that answer, the server is the primary or the first in the cascade order, and nobody serves only if there is none |
| Router.AskedIffTried | packages/agent-core/src/local-llms-router.ts:703-715 | a deployment that is asked is tried iff its own breaker admits it at that time |
| Router.NotAsked | packages/agent-core/src/local-llms-router.ts:701-715 | a deployment outside primary and chain is neither tried nor changed |
| Router.OrderDistinct | packages/agent-core/src/local-llms-router.ts:713-715 | the order of tries has no duplicates |
| Router.OrderRanked | packages/agent-core/src/local-llms-router.ts:708-715 | an admitted primary is tried first, the others in the order cloud, orchestrator, general, fast, coder |
| Router.FirstFittingServes | packages/agent-core/src/local-llms-router.ts:735-810 | the server is the first of the order whose window holds the request, that is not the gated cloud, and that answers; exactly the fitting ones up to it are called |
| Router.CloudBeforeCoder | packages/agent-core/src/local-llms-router.ts:703-810 | with fresh breakers, an idle request that the orchestrator fails is served by the cloud |
| Router.UltraLongUnserved | packages/agent-core/src/local-llms-router.ts:408-412 | a request with more than 128000 tokens is picked for the cloud when long, but no deployment is ever called for it |
| Router.CallEffect | packages/agent-core/src/local-llms-router.ts:735-810 | for every entry of the order: whether it is called, and what its breaker is left as |
| Router.NotCalledUntouched | packages/agent-core/src/local-llms-router.ts:735-810 | a deployment that is not called keeps its breaker |
| Router.NeverCloud | packages/agent-core/src/local-llms-router.ts:681-740 | with gating on and any message tagged pii or restricted, the cloud is never tried and its breaker never changes, for all scores and states |
| Router.ProbingIsSkipped | packages/agent-core/src/local-llms-router.ts:500-507 | a deployment whose probe is out is left alone by any call |
| Router.StrandedForever | packages/agent-core/src/local-llms-router.ts:670-833 | through any sequence of calls, a probe that none of them owes a result keeps its deployment out |
| Router.ProbeStrandedIff | packages/agent-core/src/local-llms-router.ts:703-810 | an open deployment admitted by a call is left with its probe out iff the request does not fit it or an earlier entry of the order fits and answers |
| Router.CloudStranded | packages/agent-core/src/local-llms-router.ts:703-810 | a healthy orchestrator answers while the cooled-down cloud is admitted: the probe of the cloud stays out |
| CredentialPool.CredentialPool.Add | packages/agent-core/src/credential-pool.ts:76-90 | a new id is appended healthy, a known one changes nothing |
| CredentialPool.CredentialPool.RecoverDue | packages/agent-core/src/credential-pool.ts:101-111 | exactly the exhausted credentials whose cooldown is over become healthy |
| CredentialPool.CredentialPool.NextOk | packages/agent-core/src/credential-pool.ts:113-122 | the scan finds the first healthy credential from the cursor on, and none only if there is none |
| CredentialPool.CredentialPool.LongestExhausted | packages/agent-core/src/credential-pool.ts:124-134 | the first of the exhausted credentials that have waited longest |
| CredentialPool.CredentialPool.GetAvailable | packages/agent-core/src/credential-pool.ts:100-138 | a healthy credential in turn; only if there is none, the longest exhausted; null only if all are dead |
| CredentialPool.CredentialPool.MarkError | packages/agent-core/src/credential-pool.ts:151-203 | the class of the error decides the new state of that credential; no other changes |
| CredentialPool.ReportEffect | packages/agent-core/src/credential-pool.ts:151-203 | a rate limit keeps a credential out for exactly its cooldown, a billing error for five default cooldowns, a terminal error for good; any other error only counts, and no other credential changes |
| CredentialPool.CredentialPool.MarkSuccess | packages/agent-core/src/credential-pool.ts:214-227 | an exhausted credential recovers only after its cooldown |
| CredentialPool.CredentialPool.ResetAll | packages/agent-core/src/credential-pool.ts:271-281 | all credentials healthy with the default cooldown and no errors, their uses kept, the cursor at the start |
| CredentialPool.RoundRobin | packages/agent-core/src/credential-pool.ts:113-122 | among as many requests as there are healthy credentials, each healthy one is met exactly once |
| CredentialPool.FullTurn | packages/agent-core/src/credential-pool.ts:113-122 | a full turn meets as many healthy positions as there are healthy credentials, wherever it starts |
| CredentialPool.RoundRobinRun | packages/agent-core/src/credential-pool.ts:100-138 | k requests in a row with a steady set of k healthy credentials hand out each exactly once, in cyclic order from the cursor on |
| CredentialPool.GetSparesDead | packages/agent-core/src/credential-pool.ts:100-138 | a request never hands out a dead credential and never revives one |
| CredentialPool.DeadStepIff | packages/agent-core/src/credential-pool.ts:151-203 | an operation leaves a dead credential dead iff it is neither a reset nor a rate-limit or billing report for it |
| CredentialPool.DeadForeverIff | packages/agent-core/src/credential-pool.ts:139-203 | the same for whole runs |
| CredentialPool.DeadRevived | packages/agent-core/src/credential-pool.ts:151-203 | a dead key that is reported rate limited is exhausted, and healthy after the cooldown |
| CredentialPool.NotReportedAgain | packages/agent-core/src/credential-pool.ts:100-203 | with one report per hand-out, a dead credential is not reported again |
| CredentialPool.TerminalIsFinal | packages/agent-core/src/credential-pool.ts:139-203 | so a terminal error is final in every such run without a reset |
| ProjectMap.ProjectMapGenerator.Walk | packages/context-engine/src/project-map.ts:210-246 | terminates on any directory graph, visits only reachable directories, leaves no edge into an unvisited one, and collects the wanted files of each newly visited directory once |
| ProjectMap.ProjectMapGenerator.CollectFiles | packages/context-engine/src/project-map.ts:196-203 | collects exactly the wanted files of the directories reachable by visible, non-skipped names, without repetition; all are files with a source extension, and none is hidden except `.goli` |
| ProjectMap.VisitedIffReachable | packages/context-engine/src/project-map.ts:196-246 | the directories visited from the root are exactly the reachable ones |
| ProjectMap.DescendStep | packages/context-engine/src/project-map.ts:236-238 | the recursive walk composes: what it adds joins what was collected, with nothing twice |
| Streaming.AccumulateChunks | packages/agent-core/src/callback-streaming.ts:375-380 | the text of the chunks, in order |
| Streaming.BufferedConsumer.OnFlush | packages/agent-core/src/callback-streaming.ts:400-411 | buffers the text and delivers it when the buffer is full |
| Streaming.BufferedConsumer.OnEnd | packages/agent-core/src/callback-streaming.ts:413-418 | delivers what is left |
| Streaming.StreamingQueue.Flush | packages/agent-core/src/callback-streaming.ts:200-212 | hands everything queued to the consumer, if there is anything |
| Streaming.StreamingQueue.Push | packages/agent-core/src/callback-streaming.ts:100-125 | drops the oldest chunk when full, and on the sentinel ends, flushes and delivers the rest |
| Streaming.Conservation | packages/agent-core/src/callback-streaming.ts:100-212 | in every reachable state, delivered text, consumer buffer and queued text are together the text of the chunks not dropped |
| Streaming.SurvivorsInOrder | packages/agent-core/src/callback-streaming.ts:100-125 | those are the pushed chunks with some left out, in order, and the queue never exceeds its capacity of at least one |
| Streaming.QueueIsLatest | packages/agent-core/src/callback-streaming.ts:100-125 | what is dropped is the oldest: the queue always holds the chunks pushed last |
| Streaming.DeliveredWhenFull | packages/agent-core/src/callback-streaming.ts:400-418 | every delivered text but the one at the end fills the buffer, and a full buffer is never kept |
| Streaming.QueueLength | packages/agent-core/src/callback-streaming.ts:100-212 | the queue holds the pushes since the last flush, up to its capacity; after the end nothing is queued or buffered |
| Streaming.LosslessIff | packages/agent-core/src/callback-streaming.ts:100-125 | nothing is dropped iff every push found room since the last flush |
| Streaming.AllDelivered | packages/agent-core/src/callback-streaming.ts:100-212 | then, after the end, the delivered text is everything that was pushed |
| BlastRadius.CountLines | packages/approval/src/blast-radius.ts:120-127 | the count map holds the multiplicity of every line |
| BlastRadius.SumExcess | packages/approval/src/blast-radius.ts:129-144 | a walk over the count maps computes the size of the multiset difference |
| BlastRadius.ComputeBlastRadius | packages/approval/src/blast-radius.ts:95-218 | above the floor the counts are the sizes of the two differences, an edit is allowed iff deleted, added and new lines keep all five limits, and the reason names a broken limit with none before it broken |
| BlastRadius.ViolationIsFirstBroken | packages/approval/src/blast-radius.ts:146-208 | each reason is reported iff its limit is the first broken one, with the ratios as products |
| BlastRadius.LinesJoined | packages/approval/src/blast-radius.ts:100-101 | no line holds a newline, and the lines joined by newlines are the text |
| BlastRadius.JoinedLines | packages/approval/src/blast-radius.ts:100-101 | newline-free lines joined by newlines are split into the same lines |
| BlastRadius.CountsBalance | packages/approval/src/blast-radius.ts:129-144 | old lines minus deleted plus added are the new lines |
| BlastRadius.NoDiffDoesLess | packages/approval/src/blast-radius.ts:117-144 | no line diff that keeps a common subsequence deletes or adds fewer lines |
| BlastRadius.LooserAllowsMore | packages/approval/src/blast-radius.ts:95-218 | loosening any limit never blocks an allowed edit |
| BlastRadius.PermutationInvisibleIff | packages/approval/src/blast-radius.ts:117-144 | nothing is counted iff the new lines are a permutation of the old |
| Integrity.CalculateIntegrityHash | packages/config/src/integrity.ts:76-97 | the digest of path, NUL, content, NUL of the files sorted by path |
| Integrity.CollectFiles | packages/config/src/integrity.ts:99-131 | the recursive walk appends the files of the directory with their relative paths |
| Integrity.CollectedIffHeld | packages/config/src/integrity.ts:99-131 | a file is collected iff opening its path from the directory finds it with that content |
| Integrity.CollectedPathsDistinct | packages/config/src/integrity.ts:99-131 | no path is collected twice |
| Integrity.StreamOrderIndependent | packages/config/src/integrity.ts:76-97 | the stream does not depend on the order of enumeration |
| Integrity.StreamInjective | packages/config/src/integrity.ts:87-94 | different lists of NUL-free files give different streams |
| Integrity.HashTellsApart | packages/config/src/integrity.ts:76-97 | with an injective digest, hashes are equal iff the files are a permutation of each other |
| Integrity.SameHashIffSameFiles | packages/config/src/integrity.ts:76-131 | two directory trees have the same hash iff they hold the same files |
| Integrity.NulInContentCollides | packages/config/src/integrity.ts:87-94 | with a NUL in a content, one file can hash like two |
| Integrity.CompareHashes | packages/config/src/integrity.ts:419-431 | the two loops find exactly the changed, new and deleted paths |
| Integrity.OkIffEqual | packages/config/src/integrity.ts:419-436 | no path is reported iff the hashes equal the baseline |
| Integrity.ReportedIff | packages/config/src/integrity.ts:419-431 | a path is reported iff it is new or its hash differs, unless it reads like a deleted one |
| Integrity.ReportedDeletedIff | packages/config/src/integrity.ts:419-431 | a path of the baseline is reported as deleted iff it is gone, unless a file has the marked name |
| Integrity.MidSessionIntegrityChecker.CaptureBaseline | packages/config/src/integrity.ts:389-393 | the baseline is what is on disk, and the cached verdict is dropped |
| Integrity.MidSessionIntegrityChecker.Verify | packages/config/src/integrity.ts:407-443 | with a baseline, the verdict is the cached one if that is less than 60 seconds old, and exact for what is on disk otherwise |
| Integrity.VerdictsFresh | packages/config/src/integrity.ts:389-443 | in any session, the verdict was exact for the baseline still in force at some verification less than 60 seconds earlier |

## Left out

- Pruning, serialization and the text of summaries: they only shape what the summarizer is given, and its answer is an arbitrary string here; which of the two triggers fired is bookkeeping.
- JSON parsing itself, the order in which the repairs are tried, fence stripping and the streaming repair, which may accept a partial object early.
- Floating-point rounding and NaN guards: ratios, costs and delays are reals, token counts integers.
- Hash functions and key normalisation: the loop detector, the stall detector and the batch share one canonical key per call.
- The one-shot content check of the loop detector, a loop of one counter.
- The call log and summary of the guardrails.
- The patterns that find PII and score complexity: spans, tags and scores are given. The redaction of several messages into one map and its restoration in a response are not modelled; placeholders restart for each message.
- Router.LocalLlmsRouter.Call: leaves out the redaction of the messages and the restoration of the response, which do not influence the routing, and its calls follow each other, while the breaker of each deployment is modelled under arbitrary interleaving.
- Timers, callbacks and promises of the streaming queue; a flush may come between any two pushes. Draining from outside and resetting are not events of a stream.
- Symbolic-link failures of the project walk, which fall back to the given path; files are named by canonical directory and position. The cache, its fingerprint, symbols and ranking.
- The locale order of file names is any total order. Persistent integrity records, and reading the policy files: a check is given their hashes. Changed paths are reported as a set.
- `shouldRotate` and the classification of errors in the credential pool.
- Events, logging, provenance, session memory, prompt assembly and system messages of the loop. The assistant turn that a reported loop leaves unanswered at the very end of a run is not part of the history of the model, since nothing is sent after it.
- Concurrency of tool execution: only its results are modelled; their outcomes on the concurrent path are stated for distinct call ids. Which batches qualify for the concurrent path is a parameter, so the statements cover every rule for it.
- Redaction.RoundTrip: sufficient conditions only, each with an example that needs it; spans that overlap can by chance be restored.
- TrailingCommas.PipelineIsOnePass: a sufficient condition, with an example that needs it; wrongly replaced placeholders can by chance add up to the right text.
