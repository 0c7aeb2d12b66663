/** `AgentLoop.run`: the iteration skeleton, with every outside effect given by an environment. */
module Loop {
  import opened Prelude
  import opened Conversation
  import opened Compression
  import opened Detectors
  import opened RunLimits
  import opened ToolBatch
  import opened Histories
  import G = Guardrails

  /** What the outside world does in one iteration. */
  datatype Exchange = Exchange(
    aborted: bool,                          // the user has aborted by the top of the iteration
    now: int,                               // the clock at the stop check
    compactionThrows: bool,
    summaryBody: string,                    // what the summarizer writes
    attempts: nat -> Attempt<Response>,     // what each attempt at the model call does
    random: nat -> real,
    stopRequested: bool,                    // `abort()` was called while the model answered
    contextTooLong: bool,                   // a retried error asked for compaction
    parallel: bool,                         // the batch qualifies for concurrent execution
    cut: Option<nat>,                       // an abort during the batch, after that many sequential calls
    ran: ToolCall -> bool,                  // concurrent calls started before an abort
    outcome: ToolCall -> Outcome)           // what each tool run produces

  function ToEvent(call: ToolCall, ok: bool): G.Event {
    G.Event(call.name, call.arguments, ok)
  }

  /** A response of this exchange that is executed sequentially asks for no call twice. */
  ghost predicate DuplicateFree(x: Exchange) {
    forall n: nat :: x.attempts(n).Succeeds? ==> x.parallel || NoDuplicates(x.attempts(n).value.toolCalls)
  }

  class AgentLoop {
    const maxContextTokens: nat
    const maxParseFailures: nat
    const retry: RetryConfig
    const budget: BudgetTracker
    const stallDetector: StallDetector
    const loopDetector: LoopDetector
    const guardrails: G.ToolGuardrailController
    const compressor: AdvancedCompressor
    var forceCompaction: bool
    var frozen: bool

    ghost predicate Valid()
      reads this, stallDetector, loopDetector, guardrails, compressor
    {
      && stallDetector.Valid() && loopDetector.Valid() && guardrails.Valid()
      && (frozen ==> compressor.snapshotText != "")
    }

    constructor (maxContextTokens: nat, maxParseFailures: nat, retry: RetryConfig, budget: BudgetTracker,
                 stallDetector: StallDetector, loopDetector: LoopDetector,
                 guardrails: G.ToolGuardrailController, compressor: AdvancedCompressor)
      requires stallDetector.Valid() && loopDetector.Valid() && guardrails.Valid()
      ensures Valid() && !frozen && !forceCompaction
      ensures this.budget == budget && this.stallDetector == stallDetector && this.loopDetector == loopDetector
      ensures this.guardrails == guardrails && this.compressor == compressor && this.retry == retry
    {
      this.maxContextTokens, this.maxParseFailures, this.retry := maxContextTokens, maxParseFailures, retry;
      this.budget, this.stallDetector, this.loopDetector := budget, stallDetector, loopDetector;
      this.guardrails, this.compressor := guardrails, compressor;
      forceCompaction, frozen := false, false;
    }

    /** The history is replaced by its compression `out`: past half the window or on request, if that saves tokens. */
    ghost predicate CompactsTo(messages: seq<Message>, x: Exchange, out: seq<Message>)
      reads this, budget, compressor
    {
      && (budget.TotalTokens() > maxContextTokens / 2 || forceCompaction) && !x.compactionThrows
      && IsCompressionOf(out, messages, compressor.protectFirstN, maxContextTokens, compressor.snapshotText,
         x.summaryBody)
      && Tokens(out) < budget.TotalTokens()
    }

    /** Step 1: compaction, exactly when it is due. */
    method MaybeCompact(messages: seq<Message>, x: Exchange) returns (result: seq<Message>, ghost step: Option<Step>)
      requires compressor.snapshotText != ""
      modifies this`forceCompaction, compressor`previousSummary
      ensures !forceCompaction
      ensures step == None ==> result == messages && forall out :: !old(CompactsTo(messages, x, out))
      ensures step.Some? ==> old(CompactsTo(messages, x, result))
      ensures step.Some? ==> step.value.Compact? && StepsTo(compressor.protectFirstN, messages, step.value, result)
    {
      result, step := messages, None;
      var currentTokens := budget.TotalTokens();
      if currentTokens > maxContextTokens / 2 || forceCompaction {
        forceCompaction := false;
        if !x.compactionThrows {
          var compaction := compressor.Compress(messages, maxContextTokens, currentTokens, x.summaryBody);
          if compaction.tokensSaved > 0 {
            result := compaction.messages;
            step := Some(Compact(maxContextTokens, compressor.snapshotText, x.summaryBody));
          }
          forall out | IsCompressionOf(out, messages, compressor.protectFirstN, maxContextTokens,
                                       compressor.snapshotText, x.summaryBody)
            ensures out == compaction.messages
          {
            CompressionUnique(out, compaction.messages, messages, compressor.protectFirstN, maxContextTokens,
                              compressor.snapshotText, x.summaryBody);
          }
        }
      }
    }

    /**
     * What a look at the calls of a turn does to the loop detector: `n` of them were shown
     * to it, all unless it reported.
     */
    twostate predicate CallsShown(calls: seq<ToolCall>, found: bool, n: nat)
      reads loopDetector
    {
      var before, sigs := old(loopDetector.calls), Signatures(calls);
      && n <= |calls| && loopDetector.calls == before + sigs[..n]
      && (forall m :: 0 < m < n ==> !loopDetector.LoopsAfter(before + sigs[..m]))
      && (found <==> n > 0 && loopDetector.LoopsAfter(loopDetector.calls))
      && (!found ==> n == |calls|)
    }

    /** Step 7, second part: the loop detector sees the calls, up to the first report. */
    method DetectCallLoop(calls: seq<ToolCall>) returns (found: bool, ghost n: nat)
      requires loopDetector.Valid()
      modifies loopDetector
      ensures loopDetector.Valid() && loopDetector.contents == old(loopDetector.contents)
      ensures CallsShown(calls, found, n)
    {
      hide Pushed, Loops, Reports, Suffix, RunLength;
      n, found := 0, false;
      ghost var before, sigs := loopDetector.calls, Signatures(calls);
      for i := 0 to |calls|
        invariant loopDetector.Valid() && n == i && loopDetector.contents == old(loopDetector.contents)
        invariant loopDetector.calls == before + sigs[..i]
        invariant forall m :: 0 < m <= i ==> !loopDetector.LoopsAfter(before + sigs[..m])
      {
        var toolLoop := loopDetector.RecordToolCall(CallKey(calls[i]));
        n := i + 1;
        assert loopDetector.calls == before + sigs[..n];
        ReportedIffLoops(loopDetector.calls, Pushed(loopDetector.calls, loopDetector.toolCallThreshold),
          loopDetector.toolCallThreshold,
                         loopDetector.maxCycleLength, loopDetector.cycleThreshold, toolLoop);
        if toolLoop.Some? {
          return true, n;
        }
      }
    }

    /** Step 7: the loop detector sees the content, if there is any, and then the calls. */
    method DetectLoop(response: Response) returns (found: bool, ghost n: nat)
      requires loopDetector.Valid()
      modifies loopDetector
      ensures loopDetector.Valid()
      ensures loopDetector.contents ==
              old(loopDetector.contents) + if response.content == "" then [] else [response.content]
      ensures var repeated :=
                response.content != "" && EndsInRepeat(loopDetector.contents, loopDetector.contentThreshold);
              if repeated then found && loopDetector.calls == old(loopDetector.calls)
              else CallsShown(response.toolCalls, found, n)
    {
      hide Pushed, Loops, EndsInRepeat, Suffix, RunLength;
      if response.content != "" {
        var contentLoop := loopDetector.RecordContent(response.content);
        if contentLoop.Some? {
          return true, 0;
        }
      }
      found, n := DetectCallLoop(response.toolCalls);
    }

    /** Some call with this id is blocked by what the guardrails know. */
    ghost predicate Halted(calls: seq<ToolCall>, n: nat, id: string)
      reads guardrails
      requires n <= |calls|
    {
      exists k :: 0 <= k < n && calls[k].id == id &&
        G.Blocks(guardrails.config, guardrails.history, ToEvent(calls[k], false))
    }

    /** No call without a decision is blocked. */
    ghost predicate NotBlocked(calls: seq<ToolCall>, decisions: map<string, string>)
      reads guardrails
    {
      forall i :: 0 <= i < |calls| && calls[i].id !in decisions ==>
        !G.Blocks(guardrails.config, guardrails.history, ToEvent(calls[i], false))
    }

    /**
     * Step 8, first part: every call is peeked at, and exactly those that the history
     * blocks get a synthetic result.
     */
    method PreCheck(calls: seq<ToolCall>) returns (decisions: map<string, string>)
      requires guardrails.Valid()
      ensures forall id :: id in decisions <==> Halted(calls, |calls|, id)
      ensures NotBlocked(calls, decisions)
      ensures SaysHalted(decisions)
    {
      hide G.ToolGuardrailController.Valid, G.Thresholds;
      decisions := map[];
      for i := 0 to |calls|
        invariant SaysHalted(decisions)
        invariant forall id :: id in decisions <==> Halted(calls, i, id)
      {
        var d := guardrails.Peek(calls[i].name, calls[i].arguments);
        if d.action == G.Halt || d.action == G.InjectResult {
          decisions := decisions[calls[i].id := "[GUARDRAIL]"];
        }
      }
    }

    /** Step 8, last part: a tool message for every halted call and every call with a result, in call order. */
    method AppendAnswers(messages: seq<Message>, calls: seq<ToolCall>, decisions: map<string, string>,
                         results: seq<ExecResult>)
      returns (appended: seq<Message>, ghost contents: map<string, string>, ghost batch: seq<G.Event>)
      requires guardrails.Valid()
      requires NotBlocked(calls, decisions)
      modifies guardrails
      ensures guardrails.Valid() && guardrails.history == old(guardrails.history) + batch
      ensures G.NoneBlocked(guardrails.config, old(guardrails.history), batch)
      ensures appended == messages + Answers(calls, contents, |calls|) && contents == Contents(decisions, results)
      ensures batch == Recorded(calls, decisions, results, |calls|)
    {
      hide G.Blocks, G.NoneBlocked, Contents, FindResult, Answers, Recorded;
      ghost var h := guardrails.history;
      G.NothingBlocked(guardrails.config, h);
      NothingAnswered(calls, decisions, results);
      contents := Contents(decisions, results);
      batch, appended := [], messages;
      for i := 0 to |calls|
        invariant Appending(h, batch, appended, messages, calls, decisions, results, i)
      {
        appended, batch := AnswerCall(messages, calls, i, decisions, results, appended, h, batch);
      }
    }

    /** The first `i` calls are answered, and `batch` is what was recorded for them. */
    ghost predicate Appending(h: seq<G.Event>, batch: seq<G.Event>, appended: seq<Message>, messages: seq<Message>,
                              calls: seq<ToolCall>, decisions: map<string, string>, results: seq<ExecResult>, i: nat)
      requires i <= |calls|
      reads guardrails
    {
      && guardrails.Valid() && guardrails.history == h + batch
      && G.NoneBlocked(guardrails.config, h, batch)
      && appended == messages + Answers(calls, Contents(decisions, results), i)
      && batch == Recorded(calls, decisions, results, i)
    }

    /** The answer to one call, if there is one; an executed call is recorded with the guardrails. */
    method AnswerCall(messages: seq<Message>, calls: seq<ToolCall>, i: nat, decisions: map<string, string>,
                      results: seq<ExecResult>, appended: seq<Message>, ghost h: seq<G.Event>,
                        ghost batch: seq<G.Event>)
      returns (appended': seq<Message>, ghost batch': seq<G.Event>)
      requires i < |calls| && Appending(h, batch, appended, messages, calls, decisions, results, i)
      requires calls[i].id !in decisions ==> !G.Blocks(guardrails.config, h, ToEvent(calls[i], false))
      modifies guardrails
      ensures Appending(h, batch', appended', messages, calls, decisions, results, i + 1)
    {
      hide G.Blocks, G.NoneBlocked, Contents, FindResult, G.ToolGuardrailController.Valid;
      var call := calls[i];
      if call.id in decisions {
        return appended + [Answer(call, decisions[call.id])], batch;
      }
      var execResult := FindResult(results, call.id);
      if execResult == None {
        return appended, batch;
      }
      var outcome := execResult.value.outcome;
      Record(call, outcome.ok);
      G.BlocksBeforeOutcome(guardrails.config, h, ToEvent(call, outcome.ok), ToEvent(call, false));
      G.NoneBlockedExtend(guardrails.config, h, batch, ToEvent(call, outcome.ok));
      return appended + [Answer(call, ResultText(outcome))], batch + [ToEvent(call, outcome.ok)];
    }

    method Record(call: ToolCall, ok: bool)
      requires guardrails.Valid()
      modifies guardrails
      ensures guardrails.Valid() && guardrails.history == old(guardrails.history) + [ToEvent(call, ok)]
    {
      var _ := guardrails.Check(call.name, call.arguments, ok, None);
    }

    /**
     * Step 8: pre-check, execute, append. The plan halts exactly the blocked calls, and
     * exactly what it answers is answered.
     */
    method ExecuteTurn(messages: seq<Message>, calls: seq<ToolCall>, x: Exchange)
      returns (appended: seq<Message>, ghost plan: Plan, ghost contents: map<string, string>, ghost batch: seq<G.Event>)
      requires guardrails.Valid()
      modifies guardrails
      ensures guardrails.Valid() && guardrails.history == old(guardrails.history) + batch
      ensures G.NoneBlocked(guardrails.config, old(guardrails.history), batch)
      ensures appended == messages + Answers(calls, contents, |calls|)
      ensures plan.parallel == x.parallel && plan.cut == x.cut
      ensures forall id :: id in plan.halted <==> old(Halted(calls, |calls|, id))
      ensures Delivers(calls, plan, contents)
      ensures DistinctIds(calls) ==>
                exists answered, recorded ::
                  Reported(messages, appended, calls, plan, x, batch, answered, recorded)
    {
      hide Reported, Answers, Contents, Recorded, Executable, RanOf, Halted, G.NoneBlocked;
      var decisions := PreCheck(calls);
      plan := Plan(decisions.Keys, x.parallel, x.cut);
      var executable := Executable(calls, decisions.Keys);
      var results := ExecuteToolCalls(executable, x.parallel, x.cut, x.ran, x.outcome);
      appended, contents, batch := AppendAnswers(messages, calls, decisions, results);
      ResultsDeliver(calls, plan, decisions, results);
      if DistinctIds(calls) {
        ExecutableDistinct(calls, decisions.Keys);
        ghost var answered, recorded := TurnReported(messages, calls, decisions, x, results);
      }
    }

    /**
     * Both detectors saw every call of the response after what they knew before, and
     * neither the contents nor the calls so far end in a loop.
     */
    ghost predicate NoLoop(response: Response, signatures: seq<string>, calls: seq<string>, contents: seq<string>)
      reads loopDetector, stallDetector
    {
      && stallDetector.history == signatures + Signatures(response.toolCalls)
      && loopDetector.calls == calls + Signatures(response.toolCalls)
      && (response.toolCalls != [] ==> !loopDetector.LoopsAfter(loopDetector.calls))
      && loopDetector.contents == contents + (if response.content == "" then [] else [response.content])
      && (response.content != "" ==> !EndsInRepeat(loopDetector.contents, loopDetector.contentThreshold))
    }

    /** What the loop goes on with: no stop condition holds, and neither detector sees a loop. */
    twostate predicate GoesOn(response: Response, now: int, stopEngine: StopEngine)
      reads stopEngine, stopEngine.budget, loopDetector, stallDetector
    {
      && stopEngine.MayContinue(response, now, old(stallDetector.history))
      && NoLoop(response, old(stallDetector.history), old(loopDetector.calls), old(loopDetector.contents))
    }

    /** Steps 4 to 6: the response is charged to the budget, and the stop conditions are checked. */
    method CheckStop(response: Response, now: int, stopEngine: StopEngine) returns (stopReason: Option<StopReason>)
      requires stallDetector.Valid() && stopEngine.budget == budget && stopEngine.stallDetector == stallDetector
      modifies budget, stopEngine, stallDetector
      ensures stallDetector.Valid()
      ensures stopReason == None ==>
                budget.iterations == old(budget.iterations) + 1 && budget.iterations + 1 < budget.config.maxIterations
      ensures stopReason == None ==>
              stallDetector.history == old(stallDetector.history) + Signatures(response.toolCalls)
      ensures stopEngine.parseFailures ==
              if response.parseFailures > 0 then old(stopEngine.parseFailures) + response.parseFailures else 0
      ensures stopEngine.aborted == old(stopEngine.aborted) && budget.iterations == old(budget.iterations) + 1
      ensures budget.TotalTokens() ==
              old(budget.TotalTokens())
              + Max(0, response.usage.input) + Max(0, response.usage.output) + Max(0, response.usage.thinking)
      ensures stopReason == stopEngine.Verdict(response, now, old(stallDetector.history))
      ensures stopReason == None <==> stopEngine.MayContinue(response, now, old(stallDetector.history))
      ensures stopReason == Some(BudgetExceeded) <==>
              !stopEngine.aborted && stopEngine.Unfinished(response) && !WithinLimits(budget, now)
      ensures stopReason == Some(Stalled) <==>
                && !stopEngine.aborted && stopEngine.Unfinished(response) && WithinLimits(budget, now)
                && stopEngine.RepeatsTooOften(old(stallDetector.history), Signatures(response.toolCalls))
    {
      budget.RecordCall(response.usage, now);
      budget.RecordIteration(now);
      if response.parseFailures > 0 {
        stopEngine.RecordParseFailures(response.parseFailures);
      } else {
        stopEngine.ResetParseFailures();
      }
      stopReason := stopEngine.Check(response, now);
    }

    /** The stop check and what follows it: append the assistant turn, look for loops, execute the calls. */
    method Settle(messages: seq<Message>, response: Response, x: Exchange, stopEngine: StopEngine, ghost t: Trace)
      returns (messages': seq<Message>, stopReason: Option<StopReason>, ghost t': Trace)
      requires Valid() && compressor.snapshotText != ""
      requires stopEngine.budget == budget && stopEngine.stallDetector == stallDetector
      requires Traced(compressor.protectFirstN, guardrails.config, t, messages, guardrails.history)
      modifies budget, stopEngine, stallDetector, loopDetector, guardrails
      ensures Valid()
      ensures stopReason == None ==>
                budget.iterations == old(budget.iterations) + 1 && budget.iterations + 1 < budget.config.maxIterations
      ensures Traced(compressor.protectFirstN, guardrails.config, t', messages', guardrails.history)
      ensures Extends(t, t') && t'.requests == t.requests
      ensures if stopReason.Some? then t' == t else TurnCount(t'.steps) == TurnCount(t.steps) + 1
      ensures x.stopRequested ==> stopReason == Some(Aborted)
      ensures stopReason == None ==> GoesOn(response, x.now, stopEngine)
      ensures Answering(t, false) && (x.parallel || NoDuplicates(response.toolCalls)) ==> Answering(t', x.cut.Some?)
    {
      hide Traced, Answering, TurnCount, IsCompressionOf, Extends, Loops, Pushed, EndsInRepeat, Suffix, RunLength,
        Signatures;
      ExtendsItself(t);
      messages', t' := messages, t;
      AnsweringSignalled(t, false, x.cut.Some?);
      if x.stopRequested {
        stopEngine.Abort();
      }
      stopReason := CheckStop(response, x.now, stopEngine);
      if stopReason.Some? {
        return;
      }
      var looping, shown := DetectLoop(response);
      assert Signatures(response.toolCalls)[..|response.toolCalls|] == Signatures(response.toolCalls);
      if looping {
        stopReason := Some(LoopDetected);
        return;
      }
      messages', t' := TakeTurn(messages, response, x, t);
    }

    /** Steps 7 and 8: the assistant turn is appended, and its calls are answered. */
    method TakeTurn(messages: seq<Message>, response: Response, x: Exchange, ghost t: Trace)
      returns (messages': seq<Message>, ghost t': Trace)
      requires guardrails.Valid()
      requires Traced(compressor.protectFirstN, guardrails.config, t, messages, guardrails.history)
      modifies guardrails
      ensures guardrails.Valid()
      ensures Traced(compressor.protectFirstN, guardrails.config, t', messages', guardrails.history)
      ensures Extends(t, t') && t'.requests == t.requests && TurnCount(t'.steps) == TurnCount(t.steps) + 1
      ensures Answering(t, false) && (x.parallel || NoDuplicates(response.toolCalls)) ==> Answering(t', x.cut.Some?)
    {
      hide Traced, SentAnswered, AllAnsweredSoFar, TurnCount, IsCompressionOf, WillAnswer, AnswersAll;
      var assistant := Message(Assistant, response.content, response.thinking, response.toolCalls, None, None);
      ghost var plan;
      ghost var contents;
      ghost var batch;
      messages', plan, contents, batch := ExecuteTurn(messages + [assistant], response.toolCalls, x);
      t' := TurnTraced(compressor.protectFirstN, guardrails.config, t, messages, Turn(assistant, plan, contents),
                       messages', old(guardrails.history), batch);
      if (x.parallel || NoDuplicates(response.toolCalls)) && x.cut == None {
        DuplicateFreeAnswersAll(response.toolCalls, plan);
      }
    }

    /** Steps 1 to 3: compaction, and the model call with retries; `t'` has the request. */
    method Ask(messages: seq<Message>, x: Exchange, ghost t: Trace)
      returns (sent: seq<Message>, reply: Attempt<Response>, made: nat, ghost t': Trace)
      requires Valid() && compressor.snapshotText != ""
      requires Traced(compressor.protectFirstN, guardrails.config, t, messages, guardrails.history)
      modifies this`forceCompaction, compressor`previousSummary
      ensures old(CompactsTo(messages, x, sent)) ||
              (sent == messages && forall out :: !old(CompactsTo(messages, x, out)))
      ensures forceCompaction == (made > 1 && x.contextTooLong)
      ensures 1 <= made <= retry.maxRetries + 1 && reply == x.attempts(made - 1)
      ensures Traced(compressor.protectFirstN, guardrails.config, t', sent, guardrails.history)
      ensures Extends(t, t') && t'.requests == t.requests + [sent] && TurnCount(t'.steps) == TurnCount(t.steps)
      ensures Answering(t, false) ==> Answering(t', false)
    {
      hide Traced, Answering, TurnCount, StepsTo, Extends, CompactsTo;
      ghost var step;
      sent, step := MaybeCompact(messages, x);
      ExtendsItself(t);
      ghost var compacted := t;
      if step.Some? {
        compacted := CompactionTraced(compressor.protectFirstN, guardrails.config, t, messages, step.value, sent,
                                      guardrails.history);
      }
      t' := RequestTraced(compressor.protectFirstN, guardrails.config, compacted, sent, guardrails.history);
      ExtendsTransitive(t, compacted, t');
      var delays;
      reply, made, delays := CallWithRetry(x.attempts, x.random, retry);
      if made > 1 && x.contextTooLong {
        forceCompaction := true;
      }
    }

    /**
     * One iteration: abort check, request, and the rest if the call succeeds.
     * `signalled` says whether the abort signal has been raised.
     */
    method Iterate(messages: seq<Message>, x: Exchange, signalled: bool, stopEngine: StopEngine, ghost t: Trace)
      returns (messages': seq<Message>, signalled': bool, made: nat, stopReason: Option<StopReason>, ghost t': Trace)
      requires Valid() && compressor.snapshotText != ""
      requires stopEngine.budget == budget && stopEngine.stallDetector == stallDetector
      requires Traced(compressor.protectFirstN, guardrails.config, t, messages, guardrails.history)
      modifies this`forceCompaction, compressor`previousSummary, budget, stopEngine, stallDetector, loopDetector,
        guardrails
      ensures Valid()
      ensures stopReason == None ==>
                budget.iterations == old(budget.iterations) + 1 && budget.iterations + 1 < budget.config.maxIterations
      ensures Traced(compressor.protectFirstN, guardrails.config, t', messages', guardrails.history)
      ensures Extends(t, t')
      ensures TurnCount(t'.steps) == TurnCount(t.steps) + if stopReason == None then 1 else 0
      ensures if signalled || x.aborted then t' == t && made == 0 && stopReason == Some(Aborted)
              else Requested(messages, x, t, t')
      ensures signalled' == (signalled || x.aborted || x.stopRequested || x.cut.Some?)
      ensures !(signalled || x.aborted) ==> forceCompaction == (made > 1 && x.contextTooLong)
      ensures made <= retry.maxRetries + 1
      ensures stopReason == None ==> made > 0 && x.attempts(made - 1).Succeeds?
      ensures stopReason == None ==>
                var response := x.attempts(made - 1).value;
                GoesOn(response, x.now, stopEngine)
      ensures DuplicateFree(x) && Answering(t, signalled) ==> Answering(t', signalled')
    {
      hide Traced, Answering, TurnCount, Extends, DuplicateFree, CompactsTo, StopEngine.MayContinue, NoLoop;
      signalled' := signalled || x.aborted || x.stopRequested || x.cut.Some?;
      AnsweringSignalled(t, signalled, signalled');
      ExtendsItself(t);
      if signalled || x.aborted {
        return messages, signalled', 0, Some(Aborted), t;
      }
      var reply;
      ghost var asked;
      messages', reply, made, asked := Ask(messages, x, t);
      t' := asked;
      AnsweringSignalled(asked, false, signalled');
      if reply.Fails? {
        stopReason := Some(Errored);
        return;
      }
      if DuplicateFree(x) {
        ReplyDuplicateFree(x, made - 1);
      }
      messages', stopReason, t' := Settle(messages', reply.value, x, stopEngine, asked);
      AnsweringSignalled(t', x.cut.Some?, signalled');
      ExtendsTransitive(t, asked, t');
    }

    /** One more request: the compression of the history if one is due, the history itself otherwise. */
    twostate predicate Requested(messages: seq<Message>, x: Exchange, t: Trace, t': Trace) {
      && |t'.requests| == |t.requests| + 1
      && var sent := t'.requests[|t.requests|];
         old(CompactsTo(messages, x, sent)) || (sent == messages && forall out :: !old(CompactsTo(messages, x, out)))
    }

    /** At the top of iteration `safetyIter`: as many rounds, and room in the budget for one more. */
    ghost predicate Bounded(safetyIter: nat, progress: Progress, t: Trace)
      reads budget
    {
      && safetyIter == budget.iterations == progress.rounds == |t.requests| == TurnCount(t.steps)
      && (safetyIter == 0 || safetyIter + 1 < budget.config.maxIterations)
      && progress.attempts <= (retry.maxRetries + 1) * progress.rounds
    }

    /** What every iteration finds and leaves, unless it ends the run. */
    ghost predicate Going(safetyIter: nat, stopEngine: StopEngine, progress: Progress, t: Trace)
      reads this, stallDetector, loopDetector, guardrails, compressor, budget
    {
      && Valid() && compressor.snapshotText != ""
      && stopEngine.budget == budget && stopEngine.stallDetector == stallDetector
      && Bounded(safetyIter, progress, t)
      && Traced(compressor.protectFirstN, guardrails.config, t, progress.messages, guardrails.history)
    }

    /** How a run ended: within its bounds, having sent the model only histories of a run. */
    ghost predicate Ended(progress: Progress, t: Trace)
      reads this, stallDetector, loopDetector, guardrails, compressor
    {
      && Valid()
      && progress.rounds == |t.requests| <= Max(1, budget.config.maxIterations - 1)
      && TurnCount(t.steps) <= progress.rounds <= TurnCount(t.steps) + 1
      && progress.attempts <= (retry.maxRetries + 1) * progress.rounds
      && Traced(compressor.protectFirstN, guardrails.config, t, progress.messages, guardrails.history)
    }

    /** One iteration, with the counts of rounds and attempts. */
    method Advance(safetyIter: nat, x: Exchange, stopEngine: StopEngine, progress: Progress, ghost t: Trace)
      returns (progress': Progress, stopReason: Option<StopReason>, ghost t': Trace)
      requires Going(safetyIter, stopEngine, progress, t)
      modifies this`forceCompaction, compressor`previousSummary, budget, stopEngine, stallDetector, loopDetector,
        guardrails
      ensures stopReason == None ==> Going(safetyIter + 1, stopEngine, progress', t')
      ensures stopReason.Some? ==> Ended(progress', t')
      ensures Extends(t, t')
      ensures DuplicateFree(x) && Answering(t, progress.signalled) ==> Answering(t', progress'.signalled)
    {
      hide Traced, Answering, TurnCount, Extends, CompactsTo, DuplicateFree, StopEngine.MayContinue, NoLoop;
      var messages', signalled', made;
      messages', signalled', made, stopReason, t' := Iterate(progress.messages, x, progress.signalled, stopEngine, t);
      var attempts := progress.attempts + made;
      var rounds := if progress.signalled || x.aborted then progress.rounds else progress.rounds + 1;
      AttemptsStep(retry.maxRetries, progress.rounds, attempts);
      progress' := Progress(messages', signalled', rounds, attempts);
    }

    /** The resets at the top of a run, and the snapshot that is frozen by the first one. */
    method Start(snapshotText: string) returns (stopEngine: StopEngine)
      requires Valid() && snapshotText != ""
      modifies this`frozen, budget, stallDetector, loopDetector, guardrails, compressor
      ensures Valid() && frozen && compressor.snapshotText != ""
      ensures fresh(stopEngine) && stopEngine.budget == budget && stopEngine.stallDetector == stallDetector
      ensures budget.iterations == 0 && budget.TotalTokens() == 0 && guardrails.history == []
      ensures stallDetector.history == [] && loopDetector.calls == [] && loopDetector.contents == []
      ensures !old(frozen) ==> compressor.snapshotText == snapshotText
      ensures old(frozen) ==> compressor.snapshotText == old(compressor.snapshotText)
    {
      budget.Reset();
      stallDetector.Reset();
      guardrails.Reset();
      compressor.Reset();
      stopEngine := new StopEngine(budget, stallDetector, maxParseFailures);
      if !frozen {
        compressor.SetFrozenSnapshot(snapshotText);
        frozen := true;
      }
      loopDetector.Reset();
    }

    /**
     * A run against an arbitrary environment; the trace records how the history
     * evolved, the histories sent to the model, and the tool calls recorded. It
     * always ends for a reason, never at the hard cap. A batch cut by an abort is
     * never sent, so only duplicate calls can leave a request with an unanswered one.
     */
    method Run(prompt: string, snapshotText: string, env: nat -> Exchange)
      returns (stopReason: Option<StopReason>, progress: Progress, ghost t: Trace)
      requires Valid() && snapshotText != ""
      modifies this, budget, stallDetector, loopDetector, guardrails, compressor
      ensures stopReason.Some? && Ended(progress, t)
      ensures t.hs[0] == [UserMessage(prompt)]
      ensures (forall k :: DuplicateFree(env(k))) ==> SentAnswered(t)
    {
      hide DuplicateFree;
      var stopEngine := Start(snapshotText);
      progress := Progress([UserMessage(prompt)], false, 0, 0);
      t := Trace([progress.messages], [], [], []);
      stopReason := None;
      var hardCap := budget.config.maxIterations + 5;
      for safetyIter := 0 to hardCap
        invariant Going(safetyIter, stopEngine, progress, t) && fresh(stopEngine)
        invariant (forall k :: DuplicateFree(env(k))) ==> Answering(t, progress.signalled)
        invariant [[UserMessage(prompt)]] <= t.hs
      {
        progress, stopReason, t := Advance(safetyIter, env(safetyIter), stopEngine, progress, t);
        if stopReason.Some? {
          return;
        }
      }
    }
  }

  /** The state a run carries from one iteration to the next; `signalled` is the state of the abort signal. */
  datatype Progress = Progress(messages: seq<Message>, signalled: bool, rounds: nat, attempts: nat)

  /**
   * The record of a run: its histories and the steps between them, the requests sent,
   * and the tool calls recorded by turn.
   */
  datatype Trace = Trace(hs: seq<seq<Message>>, steps: seq<Step>, requests: seq<seq<Message>>,
    batches: seq<seq<G.Event>>)

  /** A trace is only ever added to. */
  ghost predicate Extends(t: Trace, t': Trace) {
    t.hs <= t'.hs && t.steps <= t'.steps && t.requests <= t'.requests && t.batches <= t'.batches
  }

  lemma ExtendsItself(t: Trace)
    ensures Extends(t, t)
  {
  }

  lemma ExtendsTransitive(a: Trace, b: Trace, c: Trace)
    requires Extends(a, b) && Extends(b, c)
    ensures Extends(a, c)
  {
  }

  ghost predicate Traced(protectFirstN: nat, cfg: G.Config, t: Trace, messages: seq<Message>, recorded: seq<G.Event>) {
    HistoryTraced(protectFirstN, t, messages) && G.GuardedRun(cfg, t.batches) && recorded == G.Flatten(t.batches)
  }

  ghost predicate HistoryTraced(protectFirstN: nat, t: Trace, messages: seq<Message>) {
    && IsRun(protectFirstN, t.hs, t.steps) && t.hs[|t.hs| - 1] == messages
    && forall k :: 0 <= k < |t.requests| ==> t.requests[k] in t.hs
  }

  function TurnCount(steps: seq<Step>): nat {
    if steps == [] then 0 else TurnCount(steps[..|steps| - 1]) + if steps[|steps| - 1].Turn? then 1 else 0
  }

  /** Every turn of the run so far has an answer to each of its calls. */
  ghost predicate AllAnsweredSoFar(t: Trace) {
    AnsweredUpTo(t.steps, |t.steps|)
  }

  /** Request `k` is history `i`, and every turn before it has an answer to each of its calls. */
  ghost predicate SentAfter(t: Trace, k: nat, i: nat) {
    k < |t.requests| && i <= |t.steps| && i < |t.hs| && t.requests[k] == t.hs[i] && AnsweredUpTo(t.steps, i)
  }

  ghost predicate SentWell(t: Trace, k: nat) {
    exists i: nat :: SentAfter(t, k, i)
  }

  /** No request was sent after an unanswered call. */
  ghost predicate SentAnswered(t: Trace) {
    forall k: nat :: k < |t.requests| ==> SentWell(t, k)
  }

  /** As long as the signal has not been raised, all turns are answered. */
  ghost predicate Answering(t: Trace, signalled: bool) {
    SentAnswered(t) && (signalled || AllAnsweredSoFar(t))
  }

  lemma AnsweringSignalled(t: Trace, before: bool, after: bool)
    requires before ==> after
    ensures Answering(t, before) ==> Answering(t, after)
  {
  }

  lemma SentAnsweredExtends(t: Trace, t': Trace)
    requires Extends(t, t') && t'.requests == t.requests && SentAnswered(t)
    ensures SentAnswered(t')
  {
    forall k: nat | k < |t'.requests|
      ensures SentWell(t', k)
    {
      assert SentWell(t, k);
      var i: nat :| SentAfter(t, k, i);
      assert SentAfter(t', k, i);
    }
  }

  lemma ReplyDuplicateFree(x: Exchange, n: nat)
    requires DuplicateFree(x) && x.attempts(n).Succeeds?
    ensures x.parallel || NoDuplicates(x.attempts(n).value.toolCalls)
  {
  }

  /**
   * What the model is sent: transcripts only, if no compaction before the first
   * anchoring one cut a run of answers.
   */
  lemma RequestsPaired(protectFirstN: nat, cfg: G.Config, t: Trace, messages: seq<Message>, recorded: seq<G.Event>)
    requires Traced(protectFirstN, cfg, t, messages, recorded) && SentAnswered(t)
    requires forall i: nat :: i < |t.steps| && t.steps[i].Compact? && !Anchored(protectFirstN, t.hs, t.steps, i) ==>
               HeadClean(t.hs[i], protectFirstN)
    ensures forall k :: 0 <= k < |t.requests| ==> Paired(t.requests[k])
  {
    hide IsRun, AnsweredUpTo, Anchored, HeadClean;
    forall k: nat | k < |t.requests|
      ensures Paired(t.requests[k])
    {
      assert SentWell(t, k);
      var i: nat :| SentAfter(t, k, i);
      AnsweredPrefixPaired(protectFirstN, t.hs, t.steps, i);
    }
  }

  /** In any run, a call is executed and fails without a success in between only so often. */
  lemma RunFailuresBounded(protectFirstN: nat, cfg: G.Config, t: Trace, messages: seq<Message>,
                           recorded: seq<G.Event>, key: string, copies: nat)
    requires Traced(protectFirstN, cfg, t, messages, recorded) && cfg.exactBlockAfter >= 1
    requires forall i :: 0 <= i < |t.batches| ==> G.Copies(t.batches[i], key) <= copies
    ensures |G.OpenFailures(recorded, key)| <= cfg.exactBlockAfter - 1 + copies
  {
    G.FailuresBounded(cfg, t.batches, key, copies);
  }

  lemma HistoryExtend(protectFirstN: nat, t: Trace, messages: seq<Message>, step: Step, messages': seq<Message>)
    requires HistoryTraced(protectFirstN, t, messages) && StepsTo(protectFirstN, messages, step, messages')
    ensures HistoryTraced(protectFirstN, t.(hs := t.hs + [messages'], steps := t.steps + [step]), messages')
    ensures TurnCount(t.steps + [step]) == TurnCount(t.steps) + if step.Turn? then 1 else 0
  {
    hide StepsTo;
    assert (t.steps + [step])[..|t.steps|] == t.steps;
    var hs, steps := t.hs + [messages'], t.steps + [step];
    forall i: nat | i < |steps|
      ensures StepAt(protectFirstN, hs, steps, i)
    {
      if i < |t.steps| {
        assert StepAt(protectFirstN, t.hs, t.steps, i);
      }
    }
  }

  lemma RequestTraced(protectFirstN: nat, cfg: G.Config, t: Trace, messages: seq<Message>, recorded: seq<G.Event>)
    returns (t': Trace)
    requires Traced(protectFirstN, cfg, t, messages, recorded)
    ensures Extends(t, t')
    ensures Traced(protectFirstN, cfg, t', messages, recorded)
    ensures t' == t.(requests := t.requests + [messages])
    ensures Answering(t, false) ==> Answering(t', false)
  {
    hide StepsTo, AnsweredUpTo;
    t' := t.(requests := t.requests + [messages]);
    if Answering(t, false) {
      forall k: nat | k < |t'.requests|
        ensures SentWell(t', k)
      {
        if k < |t.requests| {
          assert SentWell(t, k);
          var i: nat :| SentAfter(t, k, i);
          assert SentAfter(t', k, i);
        } else {
          assert SentAfter(t', k, |t.steps|);
        }
      }
    }
  }

  lemma CompactionTraced(protectFirstN: nat, cfg: G.Config, t: Trace, messages: seq<Message>, step: Step,
                         messages': seq<Message>, recorded: seq<G.Event>) returns (t': Trace)
    requires Traced(protectFirstN, cfg, t, messages, recorded) && StepsTo(protectFirstN, messages, step, messages')
    requires step.Compact?
    ensures Extends(t, t')
    ensures Traced(protectFirstN, cfg, t', messages', recorded) && t'.requests == t.requests
    ensures TurnCount(t'.steps) == TurnCount(t.steps)
    ensures Answering(t, false) ==> Answering(t', false)
  {
    hide StepsTo;
    HistoryExtend(protectFirstN, t, messages, step, messages');
    t' := t.(hs := t.hs + [messages'], steps := t.steps + [step]);
    if Answering(t, false) {
      SentAnsweredExtends(t, t');
    }
  }

  lemma TurnTraced(protectFirstN: nat, cfg: G.Config, t: Trace, messages: seq<Message>, turn: Step,
                   messages': seq<Message>, recorded: seq<G.Event>, batch: seq<G.Event>) returns (t': Trace)
    requires Traced(protectFirstN, cfg, t, messages, recorded) && StepsTo(protectFirstN, messages, turn, messages')
    requires turn.Turn? && G.NoneBlocked(cfg, recorded, batch)
    ensures Extends(t, t')
    ensures Traced(protectFirstN, cfg, t', messages', recorded + batch)
    ensures t'.requests == t.requests
    ensures TurnCount(t'.steps) == TurnCount(t.steps) + 1
    ensures SentAnswered(t) ==> SentAnswered(t')
    ensures AnswersAll(turn.assistant.toolCalls, turn.plan) && AllAnsweredSoFar(t) ==> AllAnsweredSoFar(t')
  {
    hide StepsTo, AnswersAll;
    HistoryExtend(protectFirstN, t, messages, turn, messages');
    G.GuardedRunExtend(cfg, t.batches, batch);
    t' := t.(hs := t.hs + [messages'], steps := t.steps + [turn], batches := t.batches + [batch]);
    if SentAnswered(t) {
      SentAnsweredExtends(t, t');
    }
  }

  function ResultText(outcome: Outcome): string {
    if outcome.ok then outcome.text else "Error: " + outcome.text
  }

  /** Result `k` is the first one for a call id. */
  ghost predicate IsFirstResult(results: seq<ExecResult>, id: string, k: nat) {
    k < |results| && results[k].id == id && forall j :: 0 <= j < k ==> results[j].id != id
  }

  /** The first result for a call id. */
  function FindResult(results: seq<ExecResult>, id: string): (r: Option<ExecResult>)
    ensures r.Some? <==> HasResult(results, id)
  {
    if results == [] then None
    else if results[0].id == id then
      assert HasResult(results, id);
      Some(results[0])
    else
      var r := FindResult(results[1..], id);
      assert HasResult(results, id) <==> HasResult(results[1..], id) by {
        if HasResult(results, id) {
          var k :| 0 <= k < |results| && results[k].id == id;
          assert results[1..][k - 1].id == id;
        }
      }
      r
  }

  lemma {:induction false} FoundIsFirst(results: seq<ExecResult>, id: string) returns (k: nat)
    requires HasResult(results, id)
    ensures IsFirstResult(results, id, k) && FindResult(results, id) == Some(results[k])
  {
    if results[0].id == id {
      k := 0;
    } else {
      assert FindResult(results, id).Some?;
      k := FoundIsFirst(results[1..], id);
      k := k + 1;
      assert forall j :: 0 < j < |results| ==> results[j] == results[1..][j - 1];
    }
  }

  /** What the guardrails are told about call `i`: its outcome, if it was executed and answered. */
  ghost function RecordedAt(calls: seq<ToolCall>, decisions: map<string, string>, results: seq<ExecResult>,
                            i: nat): seq<G.Event>
    requires i < |calls|
  {
    var found := FindResult(results, calls[i].id);
    if calls[i].id in decisions || found == None then [] else [ToEvent(calls[i], found.value.outcome.ok)]
  }

  ghost function Recorded(calls: seq<ToolCall>, decisions: map<string, string>, results: seq<ExecResult>,
                          n: nat): seq<G.Event>
    requires n <= |calls|
  {
    if n == 0 then [] else Recorded(calls, decisions, results, n - 1) + RecordedAt(calls, decisions, results, n - 1)
  }

  lemma NothingAnswered(calls: seq<ToolCall>, decisions: map<string, string>, results: seq<ExecResult>)
    ensures Answers(calls, Contents(decisions, results), 0) == [] && Recorded(calls, decisions, results, 0) == []
  {
  }

  /** By call id, what the tool message says: the guardrail's words, or the first result. */
  ghost function Contents(decisions: map<string, string>, results: seq<ExecResult>): (contents: map<string, string>)
    ensures forall id :: id in contents <==> id in decisions || HasResult(results, id)
    ensures forall id :: id in decisions ==> contents[id] == decisions[id]
    ensures forall id :: id in contents && id !in decisions ==>
            contents[id] == ResultText(FindResult(results, id).value.outcome)
  {
    var ids := set k | 0 <= k < |results| :: results[k].id;
    map id | id in decisions.Keys + ids ::
      if id in decisions then decisions[id] else ResultText(FindResult(results, id).value.outcome)
  }

  /** Decisions and results together give content to exactly the calls that the plan answers. */
  lemma ResultsDeliver(calls: seq<ToolCall>, plan: Plan, decisions: map<string, string>, results: seq<ExecResult>)
    requires plan.halted == decisions.Keys
    requires ResultsOf(results, RanOf(Executable(calls, plan.halted), plan.parallel, plan.cut))
    ensures Delivers(calls, plan, Contents(decisions, results))
  {
    hide RanOf, Executable, Among;
    forall i: nat | i < |calls|
      ensures calls[i].id in Contents(decisions, results) <==> WillAnswer(calls, plan, calls[i].id)
    {
      ResultIffRan(results, RanOf(Executable(calls, plan.halted), plan.parallel, plan.cut), calls[i].id);
    }
  }

  // ----- what a turn reports, call by call

  /** On the concurrent path a repeated call, and one that an abort kept from starting, is not executed. */
  ghost predicate NotExecuted(calls: seq<ToolCall>, halted: set<string>, x: Exchange, i: nat)
    requires i < |calls|
  {
    x.parallel && (RepeatsCall(calls, halted, i) || !x.ran(calls[i]))
  }

  /** Message `m` answers call `i` with what the guardrails say, or with what running that very call gave. */
  ghost predicate AnswersCall(m: Message, calls: seq<ToolCall>, halted: set<string>, x: Exchange, i: nat) {
    && i < |calls| && m.role == Tool && m.toolCallId == Some(calls[i].id) && m.toolName == Some(calls[i].name)
    && m.content == ToldAbout(calls, halted, x, i)
  }

  ghost function ToldAbout(calls: seq<ToolCall>, halted: set<string>, x: Exchange, i: nat): string
    requires i < |calls|
  {
    if calls[i].id in halted then "[GUARDRAIL]"
    else if NotExecuted(calls, halted, x, i) then "Error: Not executed"
    else if x.outcome(calls[i]).ok then x.outcome(calls[i]).text
    else "Error: " + x.outcome(calls[i]).text
  }

  /** Event `e` records call `i`, as a success exactly if it was executed and succeeded. */
  ghost predicate RecordsCall(e: G.Event, calls: seq<ToolCall>, halted: set<string>, x: Exchange, i: nat) {
    && i < |calls| && e.tool == calls[i].name && e.argsHash == calls[i].arguments
    && (e.ok <==> !NotExecuted(calls, halted, x, i) && x.outcome(calls[i]).ok)
  }

  ghost predicate Increasing(positions: seq<nat>) {
    forall k, l :: 0 <= k < l < |positions| ==> positions[k] < positions[l]
  }

  /**
   * The turn appends one tool message for each call that the plan answers, in call
   * order, and records one event for each of them that is not halted.
   */
  ghost predicate Reported(messages: seq<Message>, appended: seq<Message>, calls: seq<ToolCall>, plan: Plan,
                           x: Exchange, batch: seq<G.Event>, answered: seq<nat>, recorded: seq<nat>) {
    && Increasing(answered) && Increasing(recorded)
    && (forall i: nat :: i in answered <==> i < |calls| && WillAnswer(calls, plan, calls[i].id))
    && (forall i: nat :: i in recorded <==> i in answered && i < |calls| && calls[i].id !in plan.halted)
    && |appended| == |messages| + |answered| && appended[..|messages|] == messages
    && (forall k :: 0 <= k < |answered| ==>
          AnswersCall(appended[|messages| + k], calls, plan.halted, x, answered[k]))
    && |batch| == |recorded|
    && (forall k :: 0 <= k < |recorded| ==> RecordsCall(batch[k], calls, plan.halted, x, recorded[k]))
  }

  /** With distinct ids, the result found for a call is its own. */
  lemma FoundOwnResult(calls: seq<ToolCall>, halted: set<string>, x: Exchange, results: seq<ExecResult>, i: nat)
    requires DistinctIds(calls) && i < |calls| && calls[i].id !in halted
    requires ResultsOfBatch(results, Executable(calls, halted), x)
    requires HasResult(results, calls[i].id)
    ensures FindResult(results, calls[i].id).value.outcome ==
            if NotExecuted(calls, halted, x, i) then NOT_EXECUTED else x.outcome(calls[i])
  {
    hide Executable, RepeatsCall, Duplicate, FirstOccurrences;
    var executable := Executable(calls, halted);
    ExecutableDistinct(calls, halted);
    var k := ExecutableCovers(calls, halted, i);
    DuplicateAmongExecutable(calls, halted, i, k);
    var f := FoundIsFirst(results, calls[i].id);
    if x.parallel {
      assert executable[f].id == executable[k].id;
    } else {
      var kept := FirstOccurrences(executable, |executable|);
      var o := FirstOccurrenceOrigin(executable, |executable|, f);
      assert executable[o].id == executable[k].id;
    }
  }

  /** What executing the batch `executable` gives. */
  ghost predicate ResultsOfBatch(results: seq<ExecResult>, executable: seq<ToolCall>, x: Exchange) {
    && ResultsOf(results, RanOf(executable, x.parallel, x.cut))
    && (x.parallel && DistinctIds(executable) ==> forall i: nat :: i < |executable| ==>
          results[i].outcome ==
          if Duplicate(executable, i) || !x.ran(executable[i]) then NOT_EXECUTED else x.outcome(executable[i]))
    && (!x.parallel ==> Produced(results, RanOf(executable, x.parallel, x.cut), x.outcome))
  }

  lemma NoPositions()
    ensures Increasing([])
  {
  }

  lemma OneMore(positions: seq<nat>, n: nat)
    requires Increasing(positions) && forall k :: 0 <= k < |positions| ==> positions[k] < n
    ensures Increasing(positions + [n])
    ensures forall i: nat :: i in positions + [n] <==> i in positions || i == n
  {
  }

  /** Call `i` is recorded if it is not halted and there is a result. */
  ghost predicate ToRecord(calls: seq<ToolCall>, decisions: map<string, string>, results: seq<ExecResult>, i: nat) {
    i < |calls| && calls[i].id !in decisions && HasResult(results, calls[i].id)
  }

  ghost predicate EventFound(e: G.Event, calls: seq<ToolCall>, results: seq<ExecResult>, i: nat) {
    && i < |calls| && HasResult(results, calls[i].id)
    && e == ToEvent(calls[i], FindResult(results, calls[i].id).value.outcome.ok)
  }

  lemma RecordedStep(calls: seq<ToolCall>, decisions: map<string, string>, results: seq<ExecResult>, n: nat)
    requires n < |calls|
    ensures var before, after := Recorded(calls, decisions, results, n), Recorded(calls, decisions, results, n + 1);
            if ToRecord(calls, decisions, results, n)
            then
              && |after| == |before| + 1 && after[..|before|] == before
              && EventFound(after[|before|], calls, results, n)
            else after == before
  {
  }

  /** The positions of the calls that get a message. */
  lemma {:induction false} AnsweredPositions(calls: seq<ToolCall>, contents: map<string, string>, n: nat)
    returns (answered: seq<nat>)
    requires n <= |calls|
    ensures Increasing(answered) && |Answers(calls, contents, n)| == |answered|
    ensures forall i: nat :: i in answered <==> i < n && calls[i].id in contents
    ensures forall k :: 0 <= k < |answered| ==>
              && answered[k] < n && calls[answered[k]].id in contents
              && Answers(calls, contents, n)[k] == Answer(calls[answered[k]], contents[calls[answered[k]].id])
  {
    hide Increasing;
    if n == 0 {
      NoPositions();
      answered := [];
    } else {
      answered := AnsweredPositions(calls, contents, n - 1);
      if calls[n - 1].id in contents {
        OneMore(answered, n - 1);
        answered := answered + [n - 1];
      }
    }
  }

  /** The positions of the calls that are recorded. */
  lemma {:induction false} RecordedPositions(calls: seq<ToolCall>, decisions: map<string, string>,
                                             results: seq<ExecResult>, n: nat)
    returns (recorded: seq<nat>)
    requires n <= |calls|
    ensures Increasing(recorded) && |Recorded(calls, decisions, results, n)| == |recorded|
    ensures forall i: nat :: i in recorded <==> i < n && ToRecord(calls, decisions, results, i)
    ensures forall k :: 0 <= k < |recorded| ==> recorded[k] < n
    ensures forall k :: 0 <= k < |recorded| ==>
              EventFound(Recorded(calls, decisions, results, n)[k], calls, results, recorded[k])
  {
    hide EventFound, ToRecord, Increasing, Recorded;
    if n == 0 {
      NoPositions();
      NothingAnswered(calls, decisions, results);
      recorded := [];
    } else {
      recorded := RecordedPositions(calls, decisions, results, n - 1);
      RecordedStep(calls, decisions, results, n - 1);
      if ToRecord(calls, decisions, results, n - 1) {
        OneMore(recorded, n - 1);
        recorded := recorded + [n - 1];
      }
    }
  }

  /** The synthetic results are what the guardrails say. */
  ghost predicate SaysHalted(decisions: map<string, string>) {
    forall id :: id in decisions ==> decisions[id] == "[GUARDRAIL]"
  }

  /** What is told about each answered call is what became of that very call. */
  lemma ToldOwn(calls: seq<ToolCall>, decisions: map<string, string>, x: Exchange, results: seq<ExecResult>, i: nat)
    requires DistinctIds(calls) && i < |calls|
    requires ResultsOfBatch(results, Executable(calls, decisions.Keys), x)
    requires SaysHalted(decisions) && calls[i].id in Contents(decisions, results)
    ensures Contents(decisions, results)[calls[i].id] == ToldAbout(calls, decisions.Keys, x, i)
  {
    hide Executable, NotExecuted, ResultsOfBatch, FindResult, HasResult, Contents, DistinctIds, ResultText;
    ContentOf(decisions, results, calls[i].id);
    if calls[i].id !in decisions {
      FoundOwnResult(calls, decisions.Keys, x, results, i);
      TextOfOutcome(x.outcome(calls[i]));
    }
  }

  lemma TextOfOutcome(outcome: Outcome)
    ensures ResultText(outcome) == if outcome.ok then outcome.text else "Error: " + outcome.text
    ensures ResultText(NOT_EXECUTED) == "Error: Not executed"
  {
  }

  lemma AnswersOwn(calls: seq<ToolCall>, decisions: map<string, string>, x: Exchange, results: seq<ExecResult>, i: nat)
    requires DistinctIds(calls) && i < |calls|
    requires ResultsOfBatch(results, Executable(calls, decisions.Keys), x)
    requires SaysHalted(decisions) && calls[i].id in Contents(decisions, results)
    ensures AnswersCall(Answer(calls[i], Contents(decisions, results)[calls[i].id]), calls, decisions.Keys, x, i)
  {
    hide Executable, ResultsOfBatch, Contents, DistinctIds, SaysHalted, ToldAbout;
    ToldOwn(calls, decisions, x, results, i);
  }

  lemma ContentOf(decisions: map<string, string>, results: seq<ExecResult>, id: string)
    requires id in Contents(decisions, results)
    ensures id in decisions ==> Contents(decisions, results)[id] == decisions[id]
    ensures id !in decisions ==>
              HasResult(results, id) &&
              Contents(decisions, results)[id] == ResultText(FindResult(results, id).value.outcome)
  {
  }

  /** The event of each recorded call is that call's own. */
  lemma RecordsOwn(e: G.Event, calls: seq<ToolCall>, decisions: map<string, string>, x: Exchange,
                   results: seq<ExecResult>, i: nat)
    requires DistinctIds(calls) && ToRecord(calls, decisions, results, i) && EventFound(e, calls, results, i)
    requires ResultsOfBatch(results, Executable(calls, decisions.Keys), x)
    ensures RecordsCall(e, calls, decisions.Keys, x, i)
  {
    hide Executable, NotExecuted, ResultsOfBatch, FindResult, HasResult, DistinctIds;
    FoundOwnResult(calls, decisions.Keys, x, results, i);
  }

  lemma TurnReported(messages: seq<Message>, calls: seq<ToolCall>, decisions: map<string, string>, x: Exchange,
                     results: seq<ExecResult>)
    returns (answered: seq<nat>, recorded: seq<nat>)
    requires DistinctIds(calls) && ResultsOfBatch(results, Executable(calls, decisions.Keys), x)
    requires SaysHalted(decisions)
    ensures Reported(messages, messages + Answers(calls, Contents(decisions, results), |calls|), calls,
              Plan(decisions.Keys, x.parallel, x.cut), x, Recorded(calls, decisions, results, |calls|), answered,
              recorded)
  {
    hide Executable, FindResult, HasResult, AnswersCall, RecordsCall, EventFound, Contents, WillAnswer, Increasing,
      DistinctIds, ResultsOfBatch, Answer, SaysHalted, Answers, Recorded;
    var contents := Contents(decisions, results);
    answered := AnsweredPositions(calls, contents, |calls|);
    recorded := RecordedPositions(calls, decisions, results, |calls|);
    OwnBatch(calls, decisions, x, results);
    ResultsDeliver(calls, Plan(decisions.Keys, x.parallel, x.cut), decisions, results);
    forall k | 0 <= k < |answered| {
      AnswersOwn(calls, decisions, x, results, answered[k]);
    }
    forall k | 0 <= k < |recorded| {
      RecordsOwn(Recorded(calls, decisions, results, |calls|)[k], calls, decisions, x, results, recorded[k]);
    }
    assert (messages + Answers(calls, contents, |calls|))[..|messages|] == messages;
  }

  lemma OwnBatch(calls: seq<ToolCall>, decisions: map<string, string>, x: Exchange, results: seq<ExecResult>)
    requires ResultsOfBatch(results, Executable(calls, decisions.Keys), x)
    ensures ResultsOf(results, RanOf(Executable(calls, decisions.Keys), x.parallel, x.cut))
  {
  }

  lemma AttemptsStep(maxRetries: nat, rounds: nat, attempts: nat)
    requires attempts <= (maxRetries + 1) * rounds + maxRetries + 1
    ensures attempts <= (maxRetries + 1) * (rounds + 1)
  {
  }
}
