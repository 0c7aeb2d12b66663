/**
 * The tool-call guardrails: two failure counters and a no-progress counter,
 * proved equal to definitions over the whole history of recorded calls.
 */
module Guardrails {
  import opened Prelude
  import D = Detectors

  datatype Config = Config(
    exactWarnAfter: int, exactBlockAfter: int,
    sameToolWarnAfter: int, sameToolHaltAfter: int,
    noProgressWarnAfter: int, noProgressBlockAfter: int)

  const MUTATING_TOOL_NAMES: set<string> := {"write_file", "edit_file", "bash", "execute_code", "send_message"}

  datatype Action = Allow | Warn | Halt | InjectResult

  datatype LoopType = NoLoop | ExactFailure | SameToolFailure | NoProgress

  datatype Decision = Decision(action: Action, loopType: LoopType, count: int, threshold: int)

  const ALLOWED := Decision(Allow, NoLoop, 0, 0)

  /** A recorded call; `argsHash` is the canonical text of its arguments. */
  datatype Event = Event(tool: string, argsHash: string, ok: bool)

  function KeyOf(e: Event): string {
    JoinedKey(e.tool, e.argsHash)
  }

  /** Calls of one tool, or of tools whose names hold no colon, have one key only with the same arguments. */
  lemma KeyTellsApart(a: Event, b: Event)
    requires a.tool == b.tool || a.argsHash == b.argsHash || (':' !in a.tool && ':' !in b.tool)
    ensures KeyOf(a) == KeyOf(b) <==> a.tool == b.tool && a.argsHash == b.argsHash
  {
    JoinedKeyTellsApart(a.tool, a.argsHash, b.tool, b.argsHash);
  }

  // ----- the counters as functions of the history

  /** The failures of a key that no success of that key has followed. */
  ghost function OpenFailures(h: seq<Event>, key: string): set<nat> {
    set i: nat | i < |h| && KeyOf(h[i]) == key && !h[i].ok && forall j :: i < j < |h| && KeyOf(h[j]) == key ==> !h[j].ok
  }

  /** The failure at `i` was neither warned about nor blocked as an exact repeat, so it also counts for its tool. */
  ghost predicate ReachesToolCount(h: seq<Event>, i: nat, cfg: Config)
    requires i < |h|
  {
    var n := |OpenFailures(h[..i + 1], KeyOf(h[i]))|;
    n < cfg.exactBlockAfter && n < cfg.exactWarnAfter
  }

  /** The failures of a tool that reached its counter and that no success of that tool has followed. */
  ghost function OpenToolFailures(h: seq<Event>, tool: string, cfg: Config): set<nat> {
    set i: nat | i < |h| && h[i].tool == tool && !h[i].ok && ReachesToolCount(h, i, cfg)
              && forall j :: i < j < |h| && h[j].tool == tool ==> !h[j].ok
  }

  lemma OpenFailuresStep(h: seq<Event>, e: Event, key: string)
    ensures OpenFailures(h + [e], key)
         == if KeyOf(e) != key then OpenFailures(h, key)
            else if e.ok then {}
            else OpenFailures(h, key) + {|h|}
  {
    var g := h + [e];
    assert g[|h|] == e;
    assert forall i :: 0 <= i < |h| ==> g[i] == h[i];
  }

  lemma OpenToolFailuresStep(h: seq<Event>, e: Event, tool: string, cfg: Config)
    ensures OpenToolFailures(h + [e], tool, cfg)
         == if e.tool != tool then OpenToolFailures(h, tool, cfg)
            else if e.ok then {}
            else if ReachesToolCount(h + [e], |h|, cfg) then OpenToolFailures(h, tool, cfg) + {|h|}
            else OpenToolFailures(h, tool, cfg)
  {
    var g := h + [e];
    assert g[|h|] == e;
    forall i: nat | i < |h|
      ensures g[i] == h[i] && (ReachesToolCount(g, i, cfg) <==> ReachesToolCount(h, i, cfg))
    {
      assert g[..i + 1] == h[..i + 1];
    }
  }

  /** What a call is told when its key has failed `exact` times and its tool `sameTool` times. */
  function Judge(cfg: Config, exact: int, sameTool: int): (d: Decision)
    ensures Thresholds(cfg, d, exact, sameTool)
  {
    if exact >= cfg.exactBlockAfter then Decision(Halt, ExactFailure, exact, cfg.exactBlockAfter)
    else if exact >= cfg.exactWarnAfter then Decision(Warn, ExactFailure, exact, cfg.exactWarnAfter)
    else if sameTool >= cfg.sameToolHaltAfter then Decision(Halt, SameToolFailure, sameTool, cfg.sameToolHaltAfter)
    else if sameTool >= cfg.sameToolWarnAfter then Decision(Warn, SameToolFailure, sameTool, cfg.sameToolWarnAfter)
    else ALLOWED
  }

  /**
   * What decision `d` means: a halt or a warning for the failures of the very call if
   * their number reaches a threshold, else for those of its tool, else nothing.
   */
  ghost predicate Thresholds(cfg: Config, d: Decision, exact: int, sameTool: int) {
    && (d.action == Halt <==>
          || exact >= cfg.exactBlockAfter
          || (exact < cfg.exactWarnAfter && sameTool >= cfg.sameToolHaltAfter))
    && (d.action == Allow <==>
          && exact < cfg.exactWarnAfter && exact < cfg.exactBlockAfter
          && sameTool < cfg.sameToolWarnAfter && sameTool < cfg.sameToolHaltAfter)
    && d.action != InjectResult
    && (d.action == Allow ==> d == Decision(Allow, NoLoop, 0, 0))
    && (d.action != Allow ==>
          && d.count == (if d.loopType == ExactFailure then exact else sameTool) && d.count >= d.threshold
          && (d.loopType == ExactFailure <==> exact >= cfg.exactWarnAfter || exact >= cfg.exactBlockAfter)
          && (d.loopType == ExactFailure || d.loopType == SameToolFailure))
    && (d.action == Halt ==>
          d.threshold == if d.loopType == ExactFailure then cfg.exactBlockAfter else cfg.sameToolHaltAfter)
    && (d.action == Warn ==>
          d.threshold == if d.loopType == ExactFailure then cfg.exactWarnAfter else cfg.sameToolWarnAfter)
  }

  ghost function HistoryDecision(cfg: Config, h: seq<Event>, tool: string, argsHash: string): Decision {
    Judge(cfg, |OpenFailures(h, JoinedKey(tool, argsHash))|, |OpenToolFailures(h, tool, cfg)|)
  }

  function Count(m: map<string, nat>, key: string): nat {
    if key in m then m[key] else 0
  }

  ghost predicate TalliesKeys(m: map<string, nat>, h: seq<Event>) {
    forall key :: Count(m, key) == |OpenFailures(h, key)|
  }

  ghost predicate TalliesTools(m: map<string, nat>, h: seq<Event>, cfg: Config) {
    forall tool :: Count(m, tool) == |OpenToolFailures(h, tool, cfg)|
  }

  lemma KeyTallyStep(m: map<string, nat>, h: seq<Event>, e: Event)
    requires TalliesKeys(m, h)
    ensures TalliesKeys(if e.ok then m - {KeyOf(e)} else m[KeyOf(e) := Count(m, KeyOf(e)) + 1], h + [e])
  {
    forall key {
      OpenFailuresStep(h, e, key);
    }
  }

  lemma ToolTallyStep(m: map<string, nat>, h: seq<Event>, e: Event, cfg: Config)
    requires TalliesTools(m, h, cfg)
    ensures TalliesTools(
              if e.ok then m - {e.tool}
              else if ReachesToolCount(h + [e], |h|, cfg) then m[e.tool := Count(m, e.tool) + 1]
              else m,
              h + [e], cfg)
  {
    forall tool {
      OpenToolFailuresStep(h, e, tool, cfg);
    }
  }

  /** The no-progress count after seeing a working-tree hash (or none). */
  function RepeatsOf(hash: Option<string>, last: Option<string>, count: nat): nat {
    if hash == None then count else if hash == last then count + 1 else 0
  }

  predicate SameTree(hash: Option<string>, last: Option<string>) {
    hash.Some? && hash == last
  }

  /** What a call is told when, with it, the working tree has stayed as it was `repeats` times in a row. */
  function NoProgressVerdict(cfg: Config, tool: string, sameTree: bool, repeats: nat): Decision {
    if !sameTree || tool !in MUTATING_TOOL_NAMES then ALLOWED
    else if repeats >= cfg.noProgressBlockAfter
      then Decision(InjectResult, NoProgress, repeats, cfg.noProgressBlockAfter)
    else if repeats >= cfg.noProgressWarnAfter then Decision(Warn, NoProgress, repeats, cfg.noProgressWarnAfter)
    else ALLOWED
  }

  class ToolGuardrailController {
    const config: Config
    var exactFailureCounts: map<string, nat>
    var sameToolFailureCounts: map<string, nat>
    var noProgressCount: nat
    var lastWorkingTreeHash: Option<string>
    ghost var history: seq<Event>
    ghost var trees: seq<string>            // the working-tree hashes that reached the no-progress check

    ghost predicate Valid()
      reads this
    {
      && TalliesKeys(exactFailureCounts, history) && TalliesTools(sameToolFailureCounts, history, config)
      && TracksTrees()
    }

    /** The no-progress count says how often in a row the last tree hash has been repeated. */
    ghost predicate TracksTrees()
      reads this
    {
      && noProgressCount == (if trees == [] then 0 else D.RunLength(trees) - 1)
      && lastWorkingTreeHash == (if trees == [] then None else Some(trees[|trees| - 1]))
    }

    constructor (config: Config)
      ensures Valid() && history == [] && trees == [] && this.config == config
    {
      this.config := config;
      exactFailureCounts, sameToolFailureCounts := map[], map[];
      noProgressCount, lastWorkingTreeHash, history, trees := 0, None, [], [];
    }

    method Reset()
      modifies this
      ensures Valid() && history == [] && trees == []
    {
      exactFailureCounts, sameToolFailureCounts := map[], map[];
      noProgressCount, lastWorkingTreeHash, history, trees := 0, None, [], [];
    }

    /** The decision for a call that would be made now; nothing is recorded. */
    method Peek(tool: string, argsHash: string) returns (d: Decision)
      requires Valid()
      ensures d == HistoryDecision(config, history, tool, argsHash)
      ensures Thresholds(config, d, |OpenFailures(history, JoinedKey(tool, argsHash))|,
                |OpenToolFailures(history, tool, config)|)
    {
      var exactCount := Count(exactFailureCounts, JoinedKey(tool, argsHash));
      if exactCount >= config.exactBlockAfter {
        return Decision(Halt, ExactFailure, exactCount, config.exactBlockAfter);
      }
      if exactCount >= config.exactWarnAfter {
        return Decision(Warn, ExactFailure, exactCount, config.exactWarnAfter);
      }
      var sameToolCount := Count(sameToolFailureCounts, tool);
      if sameToolCount >= config.sameToolHaltAfter {
        return Decision(Halt, SameToolFailure, sameToolCount, config.sameToolHaltAfter);
      }
      if sameToolCount >= config.sameToolWarnAfter {
        return Decision(Warn, SameToolFailure, sameToolCount, config.sameToolWarnAfter);
      }
      return ALLOWED;
    }

    /**
     * Records a call. A failure that trips a failure threshold is judged by the
     * history that now includes it; any other call goes on to the no-progress check.
     */
    method Check(tool: string, argsHash: string, success: bool, workingTreeHash: Option<string>) returns (d: Decision)
      requires Valid()
      modifies this
      ensures Valid() && history == old(history) + [Event(tool, argsHash, success)]
      ensures workingTreeHash == None ==>
              d == if success then ALLOWED else HistoryDecision(config, history, tool, argsHash)
      ensures !success && HistoryDecision(config, history, tool, argsHash) != ALLOWED ==>
                && d == HistoryDecision(config, history, tool, argsHash)
                && noProgressCount == old(noProgressCount) && lastWorkingTreeHash == old(lastWorkingTreeHash)
                && trees == old(trees)
      ensures success || HistoryDecision(config, history, tool, argsHash) == ALLOWED ==>
                && noProgressCount == RepeatsOf(workingTreeHash, old(lastWorkingTreeHash), old(noProgressCount))
                && lastWorkingTreeHash == (if workingTreeHash.Some? then workingTreeHash else old(lastWorkingTreeHash))
                && d == NoProgressVerdict(
                     config, tool, SameTree(workingTreeHash, old(lastWorkingTreeHash)), noProgressCount)
                && trees == old(trees) + (if workingTreeHash.Some? then [workingTreeHash.value] else [])
                && (d.action == InjectResult <==> workingTreeHash.Some? && Stuck(tool, config.noProgressBlockAfter))
    {
      hide OpenFailures, OpenToolFailures, D.RunLength, D.EndsInRepeat;
      var exactKey := JoinedKey(tool, argsHash);
      ghost var e := Event(tool, argsHash, success);
      KeyTallyStep(exactFailureCounts, history, e);
      ToolTallyStep(sameToolFailureCounts, history, e, config);
      history := history + [e];
      assert history[..|history|] == history;
      if !success {
        var count := Count(exactFailureCounts, exactKey) + 1;
        exactFailureCounts := exactFailureCounts[exactKey := count];
        if count >= config.exactBlockAfter {
          return Decision(Halt, ExactFailure, count, config.exactBlockAfter);
        }
        if count >= config.exactWarnAfter {
          return Decision(Warn, ExactFailure, count, config.exactWarnAfter);
        }
      } else {
        exactFailureCounts := exactFailureCounts - {exactKey};
      }
      if !success {
        var count := Count(sameToolFailureCounts, tool) + 1;
        sameToolFailureCounts := sameToolFailureCounts[tool := count];
        if count >= config.sameToolHaltAfter {
          return Decision(Halt, SameToolFailure, count, config.sameToolHaltAfter);
        }
        if count >= config.sameToolWarnAfter {
          return Decision(Warn, SameToolFailure, count, config.sameToolWarnAfter);
        }
      } else {
        sameToolFailureCounts := sameToolFailureCounts - {tool};
      }
      d := CheckProgress(tool, workingTreeHash);
    }

    /** A mutating tool was called, and the last tree hash has been seen again `limit` times in a row, at least once. */
    ghost predicate Stuck(tool: string, limit: int)
      reads this
    {
      tool in MUTATING_TOOL_NAMES && D.EndsInRepeat(trees, Max(2, limit + 1))
    }

    /** The third check of a recorded call: mutating calls that leave the working tree as it was. */
    method CheckProgress(tool: string, workingTreeHash: Option<string>) returns (d: Decision)
      requires TracksTrees()
      modifies this`noProgressCount, this`lastWorkingTreeHash, this`trees
      ensures TracksTrees()
      ensures trees == old(trees) + if workingTreeHash.Some? then [workingTreeHash.value] else []
      ensures d.action == InjectResult <==> workingTreeHash.Some? && Stuck(tool, config.noProgressBlockAfter)
      ensures d.action == Warn <==>
                && workingTreeHash.Some? && Stuck(tool, config.noProgressWarnAfter)
                && !Stuck(tool, config.noProgressBlockAfter)
      ensures d.action != Halt
      ensures noProgressCount == RepeatsOf(workingTreeHash, old(lastWorkingTreeHash), old(noProgressCount))
      ensures lastWorkingTreeHash == if workingTreeHash.Some? then workingTreeHash else old(lastWorkingTreeHash)
      ensures d == NoProgressVerdict(config, tool, SameTree(workingTreeHash, old(lastWorkingTreeHash)), noProgressCount)
    {
      hide D.RunLength, D.EndsInRepeat;
      if workingTreeHash.Some? {
        D.RunLengthStep(trees, workingTreeHash.value);
        trees := trees + [workingTreeHash.value];
        D.RunLengthIsRepeat(trees, Max(2, config.noProgressBlockAfter + 1));
        D.RunLengthIsRepeat(trees, Max(2, config.noProgressWarnAfter + 1));
        if workingTreeHash == lastWorkingTreeHash {
          noProgressCount := noProgressCount + 1;
          if tool in MUTATING_TOOL_NAMES {
            if noProgressCount >= config.noProgressBlockAfter {
              return Decision(InjectResult, NoProgress, noProgressCount, config.noProgressBlockAfter);
            }
            if noProgressCount >= config.noProgressWarnAfter {
              return Decision(Warn, NoProgress, noProgressCount, config.noProgressWarnAfter);
            }
          }
        } else {
          noProgressCount := 0;
        }
        lastWorkingTreeHash := workingTreeHash;
      }
      return ALLOWED;
    }

    /**
     * A peek right after a check agrees with it, except that after a success a
     * non-positive threshold makes it disagree.
     */
    method CheckThenPeek(tool: string, argsHash: string, success: bool) returns (checked: Decision, peeked: Decision)
      requires Valid()
      modifies this
      ensures Valid()
      ensures checked == peeked <==> !success || PositiveThresholds(config)
    {
      ghost var h, e := history, Event(tool, argsHash, success);
      OpenFailuresStep(h, e, JoinedKey(tool, argsHash));
      OpenToolFailuresStep(h, e, tool, config);
      checked := Check(tool, argsHash, success, None);
      peeked := Peek(tool, argsHash);
    }
  }

  predicate PositiveThresholds(cfg: Config) {
    cfg.exactWarnAfter > 0 && cfg.exactBlockAfter > 0 && cfg.sameToolWarnAfter > 0 && cfg.sameToolHaltAfter > 0
  }

  /**
   * A call is halted exactly when its own open failures reach the block threshold, or
   * when they are too few for a warning and those of its tool reach the halt threshold.
   */
  lemma BlocksIff(cfg: Config, h: seq<Event>, e: Event)
    ensures Blocks(cfg, h, e) <==>
              var exact := |OpenFailures(h, KeyOf(e))|;
              || exact >= cfg.exactBlockAfter
              || (exact < cfg.exactWarnAfter && |OpenToolFailures(h, e.tool, cfg)| >= cfg.sameToolHaltAfter)
  {
  }

  ghost predicate Blocks(cfg: Config, h: seq<Event>, e: Event) {
    HistoryDecision(cfg, h, e.tool, e.argsHash).action == Halt
  }

  ghost function Flatten(batches: seq<seq<Event>>): seq<Event> {
    if batches == [] then [] else Flatten(batches[..|batches| - 1]) + batches[|batches| - 1]
  }

  /** No call of the batch is halted by the history before the batch. */
  ghost predicate NoneBlocked(cfg: Config, h: seq<Event>, batch: seq<Event>) {
    forall k :: 0 <= k < |batch| ==> !Blocks(cfg, h, batch[k])
  }

  lemma NothingBlocked(cfg: Config, h: seq<Event>)
    ensures NoneBlocked(cfg, h, [])
  {
  }

  lemma NoneBlockedExtend(cfg: Config, h: seq<Event>, batch: seq<Event>, e: Event)
    requires NoneBlocked(cfg, h, batch) && !Blocks(cfg, h, e)
    ensures NoneBlocked(cfg, h, batch + [e])
  {
  }

  /** Whether a call is halted does not depend on how it will turn out. */
  lemma BlocksBeforeOutcome(cfg: Config, h: seq<Event>, e: Event, e': Event)
    requires e.tool == e'.tool && e.argsHash == e'.argsHash
    ensures Blocks(cfg, h, e) == Blocks(cfg, h, e')
  {
  }

  /**
   * A run of the agent loop as the guardrails see it: the calls recorded in one
   * turn are calls that the history before the turn did not halt.
   */
  ghost predicate GuardedRun(cfg: Config, batches: seq<seq<Event>>) {
    batches != [] ==>
      var earlier := batches[..|batches| - 1];
      GuardedRun(cfg, earlier) && NoneBlocked(cfg, Flatten(earlier), batches[|batches| - 1])
  }

  ghost function Copies(batch: seq<Event>, key: string): nat {
    if batch == [] then 0
    else Copies(batch[..|batch| - 1], key) + if KeyOf(batch[|batch| - 1]) == key then 1 else 0
  }

  /** Within a turn the open failures of a key grow by its copies at most, and not at all once it is halted. */
  lemma {:induction false} BatchFailures(cfg: Config, h: seq<Event>, batch: seq<Event>, key: string)
    requires NoneBlocked(cfg, h, batch)
    ensures |OpenFailures(h + batch, key)| <= |OpenFailures(h, key)| + Copies(batch, key)
    ensures |OpenFailures(h, key)| >= cfg.exactBlockAfter ==> OpenFailures(h + batch, key) == OpenFailures(h, key)
  {
    hide Blocks, OpenFailures, OpenToolFailures;
    if batch == [] {
      assert h + batch == h;
    } else {
      var init, e := batch[..|batch| - 1], batch[|batch| - 1];
      BatchFailures(cfg, h, init, key);
      OpenFailuresStep(h + init, e, key);
      assert h + batch == h + init + [e];
      assert !Blocks(cfg, h, e);
      BlocksIff(cfg, h, e);
    }
  }

  /**
   * Over any run, a key is executed and fails, with no success in between, at most
   * `exactBlockAfter - 1` times plus its copies in one turn.
   */
  lemma {:induction false} FailuresBounded(cfg: Config, batches: seq<seq<Event>>, key: string, copies: nat)
    requires cfg.exactBlockAfter >= 1 && GuardedRun(cfg, batches)
    requires forall i :: 0 <= i < |batches| ==> Copies(batches[i], key) <= copies
    ensures |OpenFailures(Flatten(batches), key)| <= cfg.exactBlockAfter - 1 + copies
  {
    hide OpenFailures, NoneBlocked, Copies;
    if batches == [] {
      NothingOpen(key);
    } else {
      var earlier, batch := batches[..|batches| - 1], batches[|batches| - 1];
      FailuresBounded(cfg, earlier, key, copies);
      BatchFailures(cfg, Flatten(earlier), batch, key);
    }
  }

  lemma NothingOpen(key: string)
    ensures OpenFailures([], key) == {}
  {
  }

  lemma GuardedRunExtend(cfg: Config, batches: seq<seq<Event>>, batch: seq<Event>)
    requires GuardedRun(cfg, batches)
    requires NoneBlocked(cfg, Flatten(batches), batch)
    ensures GuardedRun(cfg, batches + [batch]) && Flatten(batches + [batch]) == Flatten(batches) + batch
  {
    assert (batches + [batch])[..|batches|] == batches;
  }
}
