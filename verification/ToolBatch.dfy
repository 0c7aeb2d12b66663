/** Executing one turn's batch of tool calls: which calls come back with a result. */
module ToolBatch {
  import opened Prelude
  import opened Conversation

  /** What a tool run produced; a thrown error is `ok == false`. */
  datatype Outcome = Outcome(ok: bool, text: string)

  datatype ExecResult = ExecResult(id: string, outcome: Outcome)

  /** An earlier call has the same name and canonical arguments. */
  ghost predicate Duplicate(calls: seq<ToolCall>, i: nat)
    requires i < |calls|
  {
    exists j :: 0 <= j < i && CallKey(calls[j]) == CallKey(calls[i])
  }

  ghost predicate DistinctIds(calls: seq<ToolCall>) {
    forall i, j :: 0 <= i < j < |calls| ==> calls[i].id != calls[j].id
  }

  ghost predicate HasResult(results: seq<ExecResult>, id: string) {
    exists k :: 0 <= k < |results| && results[k].id == id
  }

  ghost predicate NoDuplicates(calls: seq<ToolCall>) {
    forall i: nat :: i < |calls| ==> !Duplicate(calls, i)
  }

  ghost predicate AllAnswered(results: seq<ExecResult>, calls: seq<ToolCall>) {
    forall i: nat :: i < |calls| ==> HasResult(results, calls[i].id)
  }

  /** The calls that duplicate no earlier one, in order. */
  ghost function FirstOccurrences(calls: seq<ToolCall>, n: nat): seq<ToolCall>
    requires n <= |calls|
  {
    if n == 0 then []
    else FirstOccurrences(calls, n - 1) + if Duplicate(calls, n - 1) then [] else [calls[n - 1]]
  }

  lemma {:induction false} FirstOccurrenceOrigin(calls: seq<ToolCall>, n: nat, k: nat) returns (i: nat)
    requires n <= |calls| && k < |FirstOccurrences(calls, n)|
    ensures i < n && FirstOccurrences(calls, n)[k] == calls[i] && !Duplicate(calls, i)
  {
    if k == |FirstOccurrences(calls, n - 1)| {
      i := n - 1;
    } else {
      i := FirstOccurrenceOrigin(calls, n - 1, k);
    }
  }

  lemma {:induction false} AllFirstOccurrences(calls: seq<ToolCall>, n: nat)
    requires n <= |calls| && NoDuplicates(calls)
    ensures FirstOccurrences(calls, n) == calls[..n]
  {
    if n > 0 {
      AllFirstOccurrences(calls, n - 1);
    }
  }

  method DedupByArgHash(calls: seq<ToolCall>) returns (kept: seq<ToolCall>)
    ensures kept == FirstOccurrences(calls, |calls|)
  {
    var seen: set<string> := {};
    kept := [];
    for i := 0 to |calls|
      invariant forall key :: key in seen <==> exists j :: 0 <= j < i && CallKey(calls[j]) == key
      invariant kept == FirstOccurrences(calls, i)
    {
      if CallKey(calls[i]) !in seen {
        seen := seen + {CallKey(calls[i])};
        kept := kept + [calls[i]];
      }
    }
  }

  /** Results for the calls `ran`, in order. */
  ghost predicate ResultsOf(results: seq<ExecResult>, ran: seq<ToolCall>) {
    |results| == |ran| && forall k :: 0 <= k < |ran| ==> results[k].id == ran[k].id
  }

  /** ... and each says what running the call produced. */
  ghost predicate Produced(results: seq<ExecResult>, ran: seq<ToolCall>, outcome: ToolCall -> Outcome) {
    |results| == |ran| && forall k :: 0 <= k < |ran| ==> results[k] == ExecResult(ran[k].id, outcome(ran[k]))
  }

  /** How many of `n` calls start when the signal is raised after `cut` of them, or not at all. */
  function Started(n: nat, cut: Option<nat>): nat {
    if cut == None then n else Min(n, cut.value)
  }

  method RunInOrder(calls: seq<ToolCall>, cut: Option<nat>, outcome: ToolCall -> Outcome)
    returns (results: seq<ExecResult>)
    ensures Produced(results, calls[..Started(|calls|, cut)], outcome)
  {
    results := [];
    var i := 0;
    while i < |calls| && (cut == None || i < cut.value)
      invariant i <= Started(|calls|, cut)
      invariant Produced(results, calls[..i], outcome)
    {
      results := results + [ExecResult(calls[i].id, outcome(calls[i]))];
      i := i + 1;
    }
  }

  const NOT_EXECUTED := Outcome(false, "Not executed")

  /** The outcomes by call id of the calls in `kept` that ran. */
  ghost predicate Tabled(byId: map<string, Outcome>, kept: seq<ToolCall>, ran: ToolCall -> bool,
                         outcome: ToolCall -> Outcome) {
    && (forall k :: 0 <= k < |kept| && ran(kept[k]) ==> kept[k].id in byId)
    && forall id :: id in byId ==>
         exists k :: 0 <= k < |kept| && ran(kept[k]) && kept[k].id == id && byId[id] == outcome(kept[k])
  }

  /**
   * The concurrent path: the deduplicated calls run in whatever order, those that
   * `ran` says before an abort, and the results are merged by id into call order.
   */
  method RunConcurrently(calls: seq<ToolCall>, ran: ToolCall -> bool, outcome: ToolCall -> Outcome)
    returns (results: seq<ExecResult>)
    ensures ResultsOf(results, calls)
    ensures DistinctIds(calls) ==> forall i: nat :: i < |calls| ==>
              results[i].outcome == if Duplicate(calls, i) || !ran(calls[i]) then NOT_EXECUTED else outcome(calls[i])
  {
    var kept := DedupByArgHash(calls);
    var byId: map<string, Outcome> := map[];
    for k := 0 to |kept|
      invariant Tabled(byId, kept[..k], ran, outcome)
    {
      TableStep(byId, kept, k, ran, outcome);
      if ran(kept[k]) {
        byId := byId[kept[k].id := outcome(kept[k])];
      }
    }
    assert kept[..|kept|] == kept;
    results := [];
    for i := 0 to |calls|
      invariant ResultsOf(results, calls[..i])
      invariant DistinctIds(calls) ==> forall k: nat :: k < i ==>
                  results[k].outcome ==
                  if Duplicate(calls, k) || !ran(calls[k]) then NOT_EXECUTED else outcome(calls[k])
    {
      if DistinctIds(calls) {
        MergedAt(byId, calls, i, ran, outcome);
      }
      results := results + [ExecResult(calls[i].id, if calls[i].id in byId then byId[calls[i].id] else NOT_EXECUTED)];
    }
    assert calls[..|calls|] == calls;
  }

  lemma TableStep(byId: map<string, Outcome>, kept: seq<ToolCall>, k: nat, ran: ToolCall -> bool,
                  outcome: ToolCall -> Outcome)
    requires k < |kept| && Tabled(byId, kept[..k], ran, outcome)
    ensures Tabled(if ran(kept[k]) then byId[kept[k].id := outcome(kept[k])] else byId, kept[..k + 1], ran, outcome)
  {
    var next := if ran(kept[k]) then byId[kept[k].id := outcome(kept[k])] else byId;
    var longer := kept[..k + 1];
    forall id | id in next
      ensures exists j :: 0 <= j < |longer| && ran(longer[j]) && longer[j].id == id && next[id] == outcome(longer[j])
    {
      if ran(kept[k]) && id == kept[k].id {
        assert longer[k] == kept[k];
      } else {
        var j :| 0 <= j < k && ran(kept[..k][j]) && kept[..k][j].id == id && byId[id] == outcome(kept[..k][j]);
        assert longer[j] == kept[..k][j];
      }
    }
    forall j | 0 <= j < |longer| && ran(longer[j])
      ensures longer[j].id in next
    {
      if j < k {
        assert longer[j] == kept[..k][j];
      }
    }
  }

  /** The merge gives call `i` its own outcome, or none if it duplicates an earlier call. */
  lemma MergedAt(byId: map<string, Outcome>, calls: seq<ToolCall>, i: nat, ran: ToolCall -> bool,
                 outcome: ToolCall -> Outcome)
    requires DistinctIds(calls) && i < |calls| && Tabled(byId, FirstOccurrences(calls, |calls|), ran, outcome)
    ensures calls[i].id in byId <==> !Duplicate(calls, i) && ran(calls[i])
    ensures calls[i].id in byId ==> byId[calls[i].id] == outcome(calls[i])
  {
    var kept := FirstOccurrences(calls, |calls|);
    if calls[i].id in byId {
      var k :| 0 <= k < |kept| && ran(kept[k]) && kept[k].id == calls[i].id && byId[calls[i].id] == outcome(kept[k]);
      var j := FirstOccurrenceOrigin(calls, |calls|, k);
      assert j == i;
    }
    if !Duplicate(calls, i) && ran(calls[i]) {
      var k := FirstOccurrenceKept(calls, |calls|, i);
      assert kept[k].id in byId;
    }
  }

  lemma {:induction false} FirstOccurrenceKept(calls: seq<ToolCall>, n: nat, i: nat) returns (k: nat)
    requires i < n <= |calls| && !Duplicate(calls, i)
    ensures k < |FirstOccurrences(calls, n)| && FirstOccurrences(calls, n)[k] == calls[i]
  {
    if i == n - 1 {
      k := |FirstOccurrences(calls, n - 1)|;
    } else {
      k := FirstOccurrenceKept(calls, n - 1, i);
    }
  }

  /**
   * `parallel` says whether the batch qualifies for concurrent execution, `cut` how
   * many calls start before an abort on the sequential path, which returns results
   * only for what it ran, and `ran` which calls do on the concurrent one.
   */
  method ExecuteToolCalls(calls: seq<ToolCall>, parallel: bool, cut: Option<nat>, ran: ToolCall -> bool,
                          outcome: ToolCall -> Outcome) returns (results: seq<ExecResult>)
    ensures ResultsOf(results, RanOf(calls, parallel, cut))
    ensures parallel && DistinctIds(calls) ==> forall i: nat :: i < |calls| ==>
              results[i].outcome == if Duplicate(calls, i) || !ran(calls[i]) then NOT_EXECUTED else outcome(calls[i])
    ensures !parallel ==> Produced(results, RanOf(calls, parallel, cut), outcome)
  {
    if parallel {
      results := RunConcurrently(calls, ran, outcome);
    } else {
      var kept := DedupByArgHash(calls);
      results := RunInOrder(kept, cut, outcome);
    }
  }

  /** The calls that come back with a result: all of them, or what the sequential path started. */
  ghost function RanOf(calls: seq<ToolCall>, parallel: bool, cut: Option<nat>): seq<ToolCall> {
    if parallel then calls
    else
      var kept := FirstOccurrences(calls, |calls|);
      kept[..Started(|kept|, cut)]
  }

  // ----- which calls are answered, before the batch runs

  ghost predicate Among(ran: seq<ToolCall>, id: string) {
    exists k :: 0 <= k < |ran| && ran[k].id == id
  }

  lemma ResultIffRan(results: seq<ExecResult>, ran: seq<ToolCall>, id: string)
    requires ResultsOf(results, ran)
    ensures HasResult(results, id) <==> Among(ran, id)
  {
    if HasResult(results, id) {
      var k :| 0 <= k < |results| && results[k].id == id;
      assert ran[k].id == id;
    }
    if Among(ran, id) {
      var k :| 0 <= k < |ran| && ran[k].id == id;
      assert results[k].id == id;
    }
  }

  ghost predicate AllAmong(ran: seq<ToolCall>, calls: seq<ToolCall>) {
    forall i: nat :: i < |calls| ==> Among(ran, calls[i].id)
  }

  lemma AmongItself(calls: seq<ToolCall>)
    ensures AllAmong(calls, calls)
  {
    forall i: nat | i < |calls|
      ensures Among(calls, calls[i].id)
    {
      assert calls[i].id == calls[i].id;
    }
  }

  /** Without duplicates and abort, every call runs. */
  lemma SequentialRunsAll(calls: seq<ToolCall>, cut: Option<nat>)
    requires NoDuplicates(calls) && (cut == None || |calls| <= cut.value)
    ensures RanOf(calls, false, cut) == calls
  {
    AllFirstOccurrences(calls, |calls|);
    assert calls[..|calls|] == calls;
  }

  /** Sequential execution runs every call exactly when no call duplicates another and no abort cuts it short. */
  lemma SequentialRunsAllIff(calls: seq<ToolCall>, cut: Option<nat>)
    requires DistinctIds(calls)
    ensures AllAmong(RanOf(calls, false, cut), calls) <==> NoDuplicates(calls) && (cut == None || |calls| <= cut.value)
  {
    var ran := RanOf(calls, false, cut);
    if NoDuplicates(calls) {
      if cut == None || |calls| <= cut.value {
        SequentialRunsAll(calls, cut);
        AmongItself(calls);
      } else {
        AllFirstOccurrences(calls, |calls|);
        LastNotStarted(calls, cut.value);
      }
    } else {
      var i: nat :| i < |calls| && Duplicate(calls, i);
      DuplicateNotRun(calls, cut, i);
    }
  }

  lemma LastNotStarted(calls: seq<ToolCall>, n: nat)
    requires DistinctIds(calls) && n < |calls|
    ensures !AllAmong(calls[..n], calls)
  {
    var last := |calls| - 1;
    forall k | 0 <= k < n
      ensures calls[..n][k].id != calls[last].id
    {
      assert calls[..n][k] == calls[k];
    }
    assert !Among(calls[..n], calls[last].id);
  }

  lemma DuplicateNotRun(calls: seq<ToolCall>, cut: Option<nat>, i: nat)
    requires DistinctIds(calls) && i < |calls| && Duplicate(calls, i)
    ensures !Among(RanOf(calls, false, cut), calls[i].id)
  {
    var kept, ran := FirstOccurrences(calls, |calls|), RanOf(calls, false, cut);
    forall k | 0 <= k < |ran|
      ensures ran[k].id != calls[i].id
    {
      var j := FirstOccurrenceOrigin(calls, |calls|, k);
      assert ran[k] == kept[k] && i != j;
    }
  }

  lemma AnsweredIffAmong(results: seq<ExecResult>, ran: seq<ToolCall>, calls: seq<ToolCall>)
    requires ResultsOf(results, ran)
    ensures AllAnswered(results, calls) <==> AllAmong(ran, calls)
  {
    forall id
      ensures HasResult(results, id) <==> Among(ran, id)
    {
      ResultIffRan(results, ran, id);
    }
  }

  /** Concurrent execution answers every call. */
  lemma ParallelAnswersAll(results: seq<ExecResult>, calls: seq<ToolCall>)
    requires ResultsOf(results, calls)
    ensures AllAnswered(results, calls)
  {
    AnsweredIffAmong(results, calls, calls);
    AmongItself(calls);
  }

  /** Sequential execution answers every call exactly when no call duplicates another and no abort cuts it short. */
  lemma SequentialAnswersAllIff(results: seq<ExecResult>, calls: seq<ToolCall>, cut: Option<nat>)
    requires DistinctIds(calls) && ResultsOf(results, RanOf(calls, false, cut))
    ensures AllAnswered(results, calls) <==> NoDuplicates(calls) && (cut == None || |calls| <= cut.value)
  {
    AnsweredIffAmong(results, RanOf(calls, false, cut), calls);
    SequentialRunsAllIff(calls, cut);
  }

  /** A plan for the batch of a turn: the ids halted beforehand, and how the other calls are executed. */
  datatype Plan = Plan(halted: set<string>, parallel: bool, cut: Option<nat>)

  /** The calls that are not halted, in order. */
  function Executable(calls: seq<ToolCall>, halted: set<string>): seq<ToolCall> {
    if calls == [] then []
    else
      var last := calls[|calls| - 1];
      Executable(calls[..|calls| - 1], halted) + if last.id in halted then [] else [last]
  }

  /** The call with this id will get a tool message. */
  ghost predicate WillAnswer(calls: seq<ToolCall>, plan: Plan, id: string) {
    id in plan.halted || Among(RanOf(Executable(calls, plan.halted), plan.parallel, plan.cut), id)
  }

  ghost predicate AnswersAll(calls: seq<ToolCall>, plan: Plan) {
    forall i: nat :: i < |calls| ==> WillAnswer(calls, plan, calls[i].id)
  }

  lemma {:induction false} ExecutableCovers(calls: seq<ToolCall>, halted: set<string>, i: nat) returns (k: nat)
    requires i < |calls| && calls[i].id !in halted
    ensures k < |Executable(calls, halted)| && Executable(calls, halted)[k] == calls[i]
    ensures Executable(calls, halted)[..k] == Executable(calls[..i], halted)
  {
    var init := calls[..|calls| - 1];
    if i == |calls| - 1 {
      k := |Executable(init, halted)|;
    } else {
      k := ExecutableCovers(init, halted, i);
      assert init[..i] == calls[..i];
    }
  }

  lemma {:induction false} ExecutableOrigin(calls: seq<ToolCall>, halted: set<string>, k: nat) returns (i: nat)
    requires k < |Executable(calls, halted)|
    ensures i < |calls| && Executable(calls, halted)[k] == calls[i] && calls[i].id !in halted
  {
    var init := calls[..|calls| - 1];
    if k < |Executable(init, halted)| {
      i := ExecutableOrigin(init, halted, k);
    } else {
      i := |calls| - 1;
    }
  }

  /** An earlier call that is not halted has the same name and arguments. */
  ghost predicate RepeatsCall(calls: seq<ToolCall>, halted: set<string>, i: nat)
    requires i < |calls|
  {
    exists h :: 0 <= h < i && calls[h].id !in halted && CallKey(calls[h]) == CallKey(calls[i])
  }

  lemma DuplicateAmongExecutable(calls: seq<ToolCall>, halted: set<string>, i: nat, k: nat)
    requires i < |calls| && k < |Executable(calls, halted)| && Executable(calls, halted)[k] == calls[i]
    requires Executable(calls, halted)[..k] == Executable(calls[..i], halted)
    ensures Duplicate(Executable(calls, halted), k) <==> RepeatsCall(calls, halted, i)
  {
    hide Executable, CallKey;
    var executable := Executable(calls, halted);
    if Duplicate(executable, k) {
      var j :| 0 <= j < k && CallKey(executable[j]) == CallKey(executable[k]);
      assert executable[..k][j] == executable[j];
      var h := ExecutableOrigin(calls[..i], halted, j);
    }
    if RepeatsCall(calls, halted, i) {
      var h :| 0 <= h < i && calls[h].id !in halted && CallKey(calls[h]) == CallKey(calls[i]);
      assert calls[..i][h] == calls[h];
      var j := ExecutableCovers(calls[..i], halted, h);
      assert executable[..k][j] == executable[j];
    }
  }

  /** Dropping halted calls creates no duplicates. */
  lemma {:induction false} ExecutableNoDuplicates(calls: seq<ToolCall>, halted: set<string>)
    requires NoDuplicates(calls)
    ensures NoDuplicates(Executable(calls, halted))
  {
    if calls != [] {
      var init := calls[..|calls| - 1];
      forall i: nat | i < |init|
        ensures !Duplicate(init, i)
      {
        assert !Duplicate(calls, i);
      }
      ExecutableNoDuplicates(init, halted);
      var before, all := Executable(init, halted), Executable(calls, halted);
      forall i: nat | i < |all|
        ensures !Duplicate(all, i)
      {
        if i < |before| {
          assert !Duplicate(before, i);
        } else {
          forall j | 0 <= j < i
            ensures CallKey(all[j]) != CallKey(all[i])
          {
            var o := ExecutableOrigin(init, halted, j);
            assert !Duplicate(calls, |calls| - 1);
          }
        }
      }
    }
  }

  lemma {:induction false} ExecutableDistinct(calls: seq<ToolCall>, halted: set<string>)
    requires DistinctIds(calls)
    ensures DistinctIds(Executable(calls, halted))
  {
    if calls != [] {
      var init := calls[..|calls| - 1];
      ExecutableDistinct(init, halted);
      forall j: nat | j < |Executable(init, halted)|
        ensures Executable(init, halted)[j].id != calls[|calls| - 1].id
      {
        var o := ExecutableOrigin(init, halted, j);
      }
    }
  }

  /** A turn is answered in full exactly when all its executable calls run. */
  lemma AnswersAllIffRan(calls: seq<ToolCall>, plan: Plan)
    ensures var executable := Executable(calls, plan.halted);
            AnswersAll(calls, plan) <==> AllAmong(RanOf(executable, plan.parallel, plan.cut), executable)
  {
    hide RanOf, Executable, Among;
    var executable := Executable(calls, plan.halted);
    var ran := RanOf(executable, plan.parallel, plan.cut);
    if AnswersAll(calls, plan) {
      forall k: nat | k < |executable|
        ensures Among(ran, executable[k].id)
      {
        var i := ExecutableOrigin(calls, plan.halted, k);
        assert WillAnswer(calls, plan, calls[i].id);
      }
    }
    if AllAmong(ran, executable) {
      forall i: nat | i < |calls|
        ensures WillAnswer(calls, plan, calls[i].id)
      {
        if calls[i].id !in plan.halted {
          var k := ExecutableCovers(calls, plan.halted, i);
          assert Among(ran, executable[k].id);
        }
      }
    }
  }

  /**
   * The condition on the batch alone: it runs concurrently, or its executable calls have
   * no duplicate and no abort comes too soon.
   */
  lemma AnswersAllIff(calls: seq<ToolCall>, plan: Plan)
    requires DistinctIds(calls)
    ensures var executable := Executable(calls, plan.halted);
            AnswersAll(calls, plan)
            <==> plan.parallel || (NoDuplicates(executable) && (plan.cut == None || |executable| <= plan.cut.value))
  {
    var executable := Executable(calls, plan.halted);
    AnswersAllIffRan(calls, plan);
    ExecutableDistinct(calls, plan.halted);
    AmongItself(executable);
    SequentialRunsAllIff(executable, plan.cut);
  }

  /** Without an abort only duplicates keep a sequential batch from answering everything, whatever the ids. */
  lemma DuplicateFreeAnswersAll(calls: seq<ToolCall>, plan: Plan)
    requires plan.parallel || (NoDuplicates(calls) && plan.cut == None)
    ensures AnswersAll(calls, plan)
  {
    var executable := Executable(calls, plan.halted);
    AnswersAllIffRan(calls, plan);
    AmongItself(executable);
    if !plan.parallel {
      ExecutableNoDuplicates(calls, plan.halted);
      SequentialRunsAll(executable, None);
    }
  }

  /** The same read twice in one turn, sequentially: the second call is never answered. */
  lemma RepeatedReadUnanswered()
    ensures var calls := [ToolCall("a", "read_file", "{}"), ToolCall("b", "read_file", "{}")];
            var plan := Plan({}, false, None);
            WillAnswer(calls, plan, "a") && !WillAnswer(calls, plan, "b")
  {
    var calls := [ToolCall("a", "read_file", "{}"), ToolCall("b", "read_file", "{}")];
    assert calls[..1][..0] == [] && calls[..1] == [calls[0]];
    assert Executable(calls[..1], {}) == [calls[0]];
    assert Executable(calls, {}) == calls;
    assert CallKey(calls[0]) == CallKey(calls[1]);
    assert Duplicate(calls, 1) && !Duplicate(calls, 0);
    assert FirstOccurrences(calls, 1) == [calls[0]];
    assert FirstOccurrences(calls, 2) == [calls[0]];
    var ran := RanOf(calls, false, None);
    assert ran == [calls[0]] && ran[0].id == "a";
  }
}
