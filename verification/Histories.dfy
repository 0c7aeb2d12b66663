/** How a run of the agent loop builds its history, and when every history is a transcript. */
module Histories {
  import opened Prelude
  import opened Conversation
  import opened Compression
  import opened ToolBatch

  // ----- histories built by a run

  /**
   * One change of the history: a compaction, or an assistant turn, how its calls were
   * executed, and the answers by call id.
   */
  datatype Step =
    | Compact(maxTokens: nat, snapshotText: string, body: string)
    | Turn(assistant: Message, plan: Plan, contents: map<string, string>)

  function Answer(call: ToolCall, content: string): Message {
    Message(Tool, content, "", [], Some(call.id), Some(call.name))
  }

  /** The tool messages of the first `n` calls, in call order; a call without content gets none. */
  function Answers(calls: seq<ToolCall>, contents: map<string, string>, n: nat): (r: seq<Message>)
    requires n <= |calls|
    ensures |r| <= n
    ensures (forall i :: 0 <= i < n ==> calls[i].id in contents) ==>
              |r| == n && forall i :: 0 <= i < n ==> r[i] == Answer(calls[i], contents[calls[i].id])
    ensures (exists i :: 0 <= i < n && calls[i].id !in contents) ==> |r| < n
    ensures forall i :: 0 <= i < |r| ==> r[i].role == Tool
  {
    if n == 0 then []
    else
      var rest := Answers(calls, contents, n - 1);
      if calls[n - 1].id in contents then rest + [Answer(calls[n - 1], contents[calls[n - 1].id])] else rest
  }

  ghost predicate StepsTo(protectFirstN: nat, h: seq<Message>, step: Step, h': seq<Message>) {
    match step
    case Compact(maxTokens, snapshotText, body) =>
      snapshotText != "" && IsCompressionOf(h', h, protectFirstN, maxTokens, snapshotText, body)
    case Turn(assistant, plan, contents) =>
      && assistant.role == Assistant && Delivers(assistant.toolCalls, plan, contents)
      && h' == h + [assistant] + Answers(assistant.toolCalls, contents, |assistant.toolCalls|)
  }

  /** The executor gives content to exactly the calls that the plan answers. */
  ghost predicate Delivers(calls: seq<ToolCall>, plan: Plan, contents: map<string, string>) {
    forall i: nat :: i < |calls| ==> (calls[i].id in contents <==> WillAnswer(calls, plan, calls[i].id))
  }

  /** The histories `hs` that a run goes through, starting from the user's prompt. */
  ghost predicate IsRun(protectFirstN: nat, hs: seq<seq<Message>>, steps: seq<Step>) {
    && |hs| == |steps| + 1
    && (exists prompt :: hs[0] == [UserMessage(prompt)])
    && forall i: nat :: i < |steps| ==> StepAt(protectFirstN, hs, steps, i)
  }

  ghost predicate StepAt(protectFirstN: nat, hs: seq<seq<Message>>, steps: seq<Step>, i: nat)
    requires i < |steps| < |hs|
  {
    StepsTo(protectFirstN, hs[i], steps[i], hs[i + 1])
  }

  /** What decides a step before it is taken: the head cut is clean, or the plan answers every call of the turn. */
  ghost predicate Sound(protectFirstN: nat, h: seq<Message>, step: Step) {
    match step
    case Compact(_, _, _) => HeadClean(h, protectFirstN)
    case Turn(assistant, plan, _) => AnswersAll(assistant.toolCalls, plan)
  }

  /** A turn answered in full is a transcript by itself. */
  lemma AnsweredTurnPaired(assistant: Message, contents: map<string, string>)
    requires assistant.role == Assistant
    requires forall i :: 0 <= i < |assistant.toolCalls| ==> assistant.toolCalls[i].id in contents
    ensures Paired([assistant] + Answers(assistant.toolCalls, contents, |assistant.toolCalls|))
  {
    var answers := Answers(assistant.toolCalls, contents, |assistant.toolCalls|);
    var block := [assistant] + answers;
    forall i: nat | i < |block|
      ensures Answered(block, i) && Attributed(block, i)
    {
      if i > 0 {
        assert block[i] == answers[i - 1];
        assert 0 < i <= 0 + |Calls(block[0])|;
      }
    }
  }

  lemma TurnPairedIff(h: seq<Message>, assistant: Message, contents: map<string, string>)
    requires Paired(h) && assistant.role == Assistant
    ensures var calls := assistant.toolCalls;
            Paired(h + [assistant] + Answers(calls, contents, |calls|))
            <==> forall i :: 0 <= i < |calls| ==> calls[i].id in contents
  {
    var calls := assistant.toolCalls;
    var answers := Answers(calls, contents, |calls|);
    var block := [assistant] + answers;
    assert h + [assistant] + answers == h + block;
    assert (h + block)[|h|] == assistant;
    if forall i :: 0 <= i < |calls| ==> calls[i].id in contents {
      AnsweredTurnPaired(assistant, contents);
      PairedConcat(h, block);
    } else {
      assert !Answered(h + block, |h|);
    }
  }

  lemma StepPairedIff(protectFirstN: nat, h: seq<Message>, step: Step, h': seq<Message>)
    requires Paired(h) && StepsTo(protectFirstN, h, step, h')
    ensures Paired(h') <==> Sound(protectFirstN, h, step)
  {
    match step
    case Compact(maxTokens, snapshotText, body) =>
      CompressionPairedIff(h', h, protectFirstN, maxTokens, snapshotText, body);
    case Turn(assistant, plan, contents) =>
      TurnPairedIff(h, assistant, contents);
      assert forall i: nat :: i < |assistant.toolCalls| ==>
               (assistant.toolCalls[i].id in contents <==>
                 WillAnswer(assistant.toolCalls, plan, assistant.toolCalls[i].id));
  }

  ghost predicate AllPaired(hs: seq<seq<Message>>) {
    forall i :: 0 <= i < |hs| ==> Paired(hs[i])
  }

  /** Every history of a run is a transcript exactly when every step was sound. */
  lemma {:induction false} RunPairedIff(protectFirstN: nat, hs: seq<seq<Message>>, steps: seq<Step>)
    requires IsRun(protectFirstN, hs, steps)
    ensures AllPaired(hs) <==> forall i :: 0 <= i < |steps| ==> Sound(protectFirstN, hs[i], steps[i])
  {
    if AllPaired(hs) {
      forall i | 0 <= i < |steps|
        ensures Sound(protectFirstN, hs[i], steps[i])
      {
        assert StepAt(protectFirstN, hs, steps, i) && Paired(hs[i]) && Paired(hs[i + 1]);
        StepPairedIff(protectFirstN, hs[i], steps[i], hs[i + 1]);
      }
    }
    if forall i :: 0 <= i < |steps| ==> Sound(protectFirstN, hs[i], steps[i]) {
      SoundRunPaired(protectFirstN, hs, steps, |steps|);
    }
  }

  lemma {:induction false} SoundRunPaired(protectFirstN: nat, hs: seq<seq<Message>>, steps: seq<Step>, n: nat)
    requires IsRun(protectFirstN, hs, steps) && n <= |steps|
    requires forall i :: 0 <= i < n ==> Sound(protectFirstN, hs[i], steps[i])
    ensures forall i :: 0 <= i <= n ==> Paired(hs[i])
  {
    hide StepsTo, Sound;
    if n > 0 {
      SoundRunPaired(protectFirstN, hs, steps, n - 1);
      assert StepAt(protectFirstN, hs, steps, n - 1);
      StepPairedIff(protectFirstN, hs[n - 1], steps[n - 1], hs[n]);
    }
  }

  /** Before step `i` the history was compacted at a time when it filled the protected head. */
  ghost predicate Anchored(protectFirstN: nat, hs: seq<seq<Message>>, steps: seq<Step>, i: nat)
    requires i <= |steps| < |hs|
  {
    exists j :: 0 <= j < i && steps[j].Compact? && protectFirstN <= |hs[j]|
  }

  ghost predicate SummaryAnchored(protectFirstN: nat, h: seq<Message>) {
    protectFirstN < |h| && h[protectFirstN].role == User
  }

  lemma AnchorStep(protectFirstN: nat, h: seq<Message>, step: Step, h': seq<Message>)
    requires StepsTo(protectFirstN, h, step, h')
    requires SummaryAnchored(protectFirstN, h) || (step.Compact? && protectFirstN <= |h|)
    ensures SummaryAnchored(protectFirstN, h')
  {
    match step
    case Compact(maxTokens, snapshotText, body) =>
      CompressionAnchorsHead(h', h, protectFirstN, maxTokens, snapshotText, body);
    case Turn(_, _, _) =>
  }

  /** From then on the summary stays right after the head, whatever the run does next. */
  lemma AnchoredForever(protectFirstN: nat, hs: seq<seq<Message>>, steps: seq<Step>, i: nat)
    requires IsRun(protectFirstN, hs, steps) && i <= |steps| && Anchored(protectFirstN, hs, steps, i)
    ensures SummaryAnchored(protectFirstN, hs[i]) && HeadClean(hs[i], protectFirstN)
  {
    var j :| 0 <= j < i && steps[j].Compact? && protectFirstN <= |hs[j]|;
    AnchoredSince(protectFirstN, hs, steps, j, i);
  }

  lemma {:induction false} AnchoredSince(protectFirstN: nat, hs: seq<seq<Message>>, steps: seq<Step>, j: nat, i: nat)
    requires IsRun(protectFirstN, hs, steps) && j < i <= |steps| && steps[j].Compact? && protectFirstN <= |hs[j]|
    ensures SummaryAnchored(protectFirstN, hs[i])
  {
    if j < i - 1 {
      AnchoredSince(protectFirstN, hs, steps, j, i - 1);
    }
    assert StepAt(protectFirstN, hs, steps, i - 1);
    AnchorStep(protectFirstN, hs[i - 1], steps[i - 1], hs[i]);
  }

  /**
   * The whole-run form: every history is a transcript exactly when every turn was
   * answered in full and no compaction before the first anchoring one cut a run of
   * answers. All later compactions are safe by themselves.
   */
  lemma RunPairedIffFirstCutsClean(protectFirstN: nat, hs: seq<seq<Message>>, steps: seq<Step>)
    requires IsRun(protectFirstN, hs, steps)
    ensures AllPaired(hs) <==>
              forall i: nat :: i < |steps| && (steps[i].Compact? ==> !Anchored(protectFirstN, hs, steps, i)) ==>
                Sound(protectFirstN, hs[i], steps[i])
  {
    RunPairedIff(protectFirstN, hs, steps);
    forall i: nat | i < |steps| && steps[i].Compact? && Anchored(protectFirstN, hs, steps, i)
      ensures Sound(protectFirstN, hs[i], steps[i])
    {
      AnchoredForever(protectFirstN, hs, steps, i);
    }
  }

  /** The first `n` steps answer all calls of their turns. */
  ghost predicate AnsweredUpTo(steps: seq<Step>, n: nat)
    requires n <= |steps|
  {
    forall j: nat :: j < n && steps[j].Turn? ==> AnswersAll(steps[j].assistant.toolCalls, steps[j].plan)
  }

  /** What came before history `n` decides whether it is a transcript; later steps do not matter. */
  lemma AnsweredPrefixPaired(protectFirstN: nat, hs: seq<seq<Message>>, steps: seq<Step>, n: nat)
    requires IsRun(protectFirstN, hs, steps) && n <= |steps| && AnsweredUpTo(steps, n)
    requires forall i: nat :: i < n && steps[i].Compact? && !Anchored(protectFirstN, hs, steps, i) ==>
               HeadClean(hs[i], protectFirstN)
    ensures Paired(hs[n])
  {
    forall i: nat | i < n
      ensures Sound(protectFirstN, hs[i], steps[i])
    {
      if steps[i].Compact? && Anchored(protectFirstN, hs, steps, i) {
        AnchoredForever(protectFirstN, hs, steps, i);
      }
    }
    SoundRunPaired(protectFirstN, hs, steps, n);
  }

  /** A turn that asks for the same read twice, executed sequentially, leaves a history that is no transcript. */
  lemma RepeatedReadUnpairs(contents: map<string, string>, h': seq<Message>)
    requires var calls := [ToolCall("a", "read_file", "{}"), ToolCall("b", "read_file", "{}")];
             var turn := Turn(Message(Assistant, "", "", calls, None, None), Plan({}, false, None), contents);
             StepsTo(3, [UserMessage("fix it")], turn, h')
    ensures !Paired(h')
  {
    var calls := [ToolCall("a", "read_file", "{}"), ToolCall("b", "read_file", "{}")];
    var h := [UserMessage("fix it")];
    assert Paired(h);
    RepeatedReadUnanswered();
    assert calls[1].id !in contents;
    TurnPairedIff(h, Message(Assistant, "", "", calls, None, None), contents);
  }

  lemma FirstTurnPaired(calls: seq<ToolCall>, turn: Message)
    requires calls == [ToolCall("a", "grep", "{}"), ToolCall("b", "read_file", "{}")]
    requires turn == Message(Assistant, "", "", calls, None, None)
    ensures Paired([UserMessage("fix it"), turn, Answer(calls[0], "x"), Answer(calls[1], "y")])
  {
    var contents := map["a" := "x", "b" := "y"];
    assert Answers(calls, contents, 1) == [Answer(calls[0], "x")];
    assert Answers(calls, contents, 2) == [Answer(calls[0], "x"), Answer(calls[1], "y")];
    var h := [UserMessage("fix it")];
    assert Paired(h);
    TurnPairedIff(h, turn, contents);
    assert h + [turn] + Answers(calls, contents, 2) == [h[0], turn, Answer(calls[0], "x"), Answer(calls[1], "y")];
  }

  /** With the default head of three, compacting right after a first turn of two calls cuts between its answers. */
  lemma FirstCompactionCanUnpair(maxTokens: nat, body: string, h: seq<Message>, out: seq<Message>)
    requires var calls := [ToolCall("a", "grep", "{}"), ToolCall("b", "read_file", "{}")];
             var turn := Message(Assistant, "", "", calls, None, None);
             h == [UserMessage("fix it"), turn, Answer(calls[0], "x"), Answer(calls[1], "y")]
    requires IsCompressionOf(out, h, 3, maxTokens, "[FROZEN SNAPSHOT]", body)
    ensures Paired(h) && !Paired(out)
  {
    hide Paired, IsCompressionOf, Deduped, Tokens;
    FirstTurnPaired(h[1].toolCalls, h[1]);
    CompressionPairedIff(out, h, 3, maxTokens, "[FROZEN SNAPSHOT]", body);
  }
}
