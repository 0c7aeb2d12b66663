/** The context compressor: dedupe, boundaries, evict, freeze and assemble. */
module Compression {
  import opened Prelude
  import opened Conversation

  // ----- dedupe

  /** An empty call id is falsy in the source, so it does not key a message. */
  predicate Keyed(m: Message) {
    m.role == Tool && m.toolCallId.Some? && m.toolCallId.value != ""
  }

  function Key(m: Message): string
    requires Keyed(m)
  {
    JoinedKey(if m.toolName.Some? then m.toolName.value else "?", m.toolCallId.value)
  }

  predicate SameKey(ms: seq<Message>, i: nat, j: nat)
    requires i < |ms| && j < |ms|
  {
    Keyed(ms[i]) && Keyed(ms[j]) && Key(ms[i]) == Key(ms[j])
  }

  function Placeholder(later: Message): string {
    "[Duplicate tool output — see latest result for "
    + (if later.toolName.Some? then later.toolName.value else "tool") + "]"
  }

  /** The first message after `i` and before `k` with the key of message `i`. */
  function NextSameKey(ms: seq<Message>, i: nat, k: nat): (r: Option<nat>)
    requires i < |ms| && k <= |ms|
    ensures r.Some? ==> i < r.value < k && SameKey(ms, i, r.value)
    ensures r.Some? ==> forall j: nat :: i < j < r.value ==> !SameKey(ms, i, j)
    ensures r.None? ==> forall j: nat :: i < j < k ==> !SameKey(ms, i, j)
  {
    if k <= i + 1 then None
    else if NextSameKey(ms, i, k - 1).Some? then NextSameKey(ms, i, k - 1)
    else if SameKey(ms, i, k - 1) then Some(k - 1)
    else None
  }

  /** Message `i` once the first `k` messages have been seen. */
  function DedupedAt(ms: seq<Message>, i: nat, k: nat): Message
    requires i < |ms| && k <= |ms|
  {
    match NextSameKey(ms, i, k)
    case None => ms[i]
    case Some(j) => ms[i].(content := Placeholder(ms[j]))
  }

  /** Every message superseded by a later one of its key carries a placeholder; the others are unchanged. */
  function Deduped(ms: seq<Message>): seq<Message> {
    DedupedPrefix(ms, |ms|)
  }

  ghost function KeyedCount(ms: seq<Message>): nat {
    if ms == [] then 0
    else KeyedCount(ms[..|ms| - 1]) + if Keyed(ms[|ms| - 1]) then 1 else 0
  }

  ghost function KeyedIndices(ms: seq<Message>): set<nat> {
    set i: nat | i < |ms| && Keyed(ms[i])
  }

  lemma {:induction false} KeyedCountIs(ms: seq<Message>)
    ensures KeyedCount(ms) == |KeyedIndices(ms)|
  {
    if ms == [] {
      assert KeyedIndices(ms) == {};
    } else {
      var init := ms[..|ms| - 1];
      KeyedCountIs(init);
      assert KeyedIndices(ms) == KeyedIndices(init) + if Keyed(ms[|ms| - 1]) then {|init|} else {};
    }
  }

  ghost function Keys(ms: seq<Message>): set<string> {
    set i | 0 <= i < |ms| && Keyed(ms[i]) :: Key(ms[i])
  }

  /** `seen` holds, for each key of the first `k` messages, the last index with that key. */
  ghost predicate SeenUpTo(ms: seq<Message>, k: nat, seen: map<string, nat>)
    requires k <= |ms|
  {
    && seen.Keys == Keys(ms[..k])
    && (forall key :: key in seen ==>
          && seen[key] < k
          && Keyed(ms[seen[key]]) && Key(ms[seen[key]]) == key
          && forall j: nat :: seen[key] < j < k && Keyed(ms[j]) ==> Key(ms[j]) != key)
  }

  lemma KeysExtend(ms: seq<Message>, k: nat)
    requires k < |ms|
    ensures Keys(ms[..k + 1]) == Keys(ms[..k]) + if Keyed(ms[k]) then {Key(ms[k])} else {}
  {
    forall key | key in Keys(ms[..k])
      ensures key in Keys(ms[..k + 1])
    {
      var i :| 0 <= i < k && Keyed(ms[..k][i]) && Key(ms[..k][i]) == key;
      assert ms[..k + 1][i] == ms[i];
    }
    forall key | key in Keys(ms[..k + 1])
      ensures key in Keys(ms[..k]) || (Keyed(ms[k]) && key == Key(ms[k]))
    {
      var i :| 0 <= i < k + 1 && Keyed(ms[..k + 1][i]) && Key(ms[..k + 1][i]) == key;
      if i < k {
        assert ms[..k][i] == ms[i];
      }
    }
    if Keyed(ms[k]) {
      assert ms[..k + 1][k] == ms[k];
    }
  }

  /** The deduped form of the first `k` messages. */
  function DedupedPrefix(ms: seq<Message>, k: nat): (r: seq<Message>)
    requires k <= |ms|
  {
    seq(k, i requires 0 <= i < k => DedupedAt(ms, i, k))
  }

  lemma PlainStep(ms: seq<Message>, k: nat, seen: map<string, nat>)
    requires k < |ms| && SeenUpTo(ms, k, seen)
    requires Keyed(ms[k]) ==> Key(ms[k]) !in seen
    ensures DedupedPrefix(ms, k + 1) == DedupedPrefix(ms, k) + [ms[k]]
  {
    forall i: nat | i < k
      ensures !SameKey(ms, i, k)
    {
      if Keyed(ms[i]) {
        assert Keyed(ms[..k][i]);
      }
    }
  }

  lemma SupersedingStep(ms: seq<Message>, k: nat, seen: map<string, nat>)
    requires k < |ms| && SeenUpTo(ms, k, seen)
    requires Keyed(ms[k]) && Key(ms[k]) in seen
    ensures var p := seen[Key(ms[k])];
            && DedupedPrefix(ms, k)[p] == ms[p]
            && DedupedPrefix(ms, k + 1) == DedupedPrefix(ms, k)[p := ms[p].(content := Placeholder(ms[k]))] + [ms[k]]
  {
    var p := seen[Key(ms[k])];
    assert SameKey(ms, p, k);
    forall i: nat | i < k && i != p && SameKey(ms, i, k)
      ensures NextSameKey(ms, i, k).Some?
    {
      assert i < p && SameKey(ms, i, p);
    }
  }

  lemma SeenStep(ms: seq<Message>, k: nat, seen: map<string, nat>)
    requires k < |ms| && SeenUpTo(ms, k, seen)
    ensures SeenUpTo(ms, k + 1, if Keyed(ms[k]) then seen[Key(ms[k]) := k] else seen)
  {
    hide Keys, Key, Keyed;
    KeysExtend(ms, k);
  }

  method Phase0Dedupe(messages: seq<Message>) returns (deduped: seq<Message>, dedupedCount: nat)
    ensures deduped == Deduped(messages)
    ensures dedupedCount == KeyedCount(messages) - |Keys(messages)| == |KeyedIndices(messages)| - |Keys(messages)|
  {
    var seen: map<string, nat> := map[];
    deduped := [];
    dedupedCount := 0;
    for i := 0 to |messages|
      invariant SeenUpTo(messages, i, seen)
      invariant deduped == DedupedPrefix(messages, i)
      invariant dedupedCount + |seen| == KeyedCount(messages[..i])
    {
      var msg := messages[i];
      assert messages[..i + 1][..i] == messages[..i];
      SeenStep(messages, i, seen);
      if Keyed(msg) {
        var key := Key(msg);
        if key in seen {
          SupersedingStep(messages, i, seen);
        }
        if key in seen && deduped[seen[key]].role == Tool {
          deduped := deduped[seen[key] := deduped[seen[key]].(content := Placeholder(msg))];
          dedupedCount := dedupedCount + 1;
        } else {
          PlainStep(messages, i, seen);
        }
        seen := seen[key := i];
      } else {
        PlainStep(messages, i, seen);
      }
      deduped := deduped + [msg];
    }
    assert messages[..|messages|] == messages;
    assert |seen| == |seen.Keys|;
    KeyedCountIs(messages);
  }

  /** Dedupe changes contents only, and exactly the contents of superseded messages. */
  lemma DedupeKeepsShape(ms: seq<Message>)
    ensures SameShape(Deduped(ms), ms)
    ensures forall i: nat :: i < |ms| && (forall j: nat :: i < j < |ms| ==> !SameKey(ms, i, j)) ==>
            Deduped(ms)[i] == ms[i]
  {
  }

  /** A message that a later one supersedes says so, and names the tool of the next one with its key. */
  lemma SupersededSaysSo(ms: seq<Message>, i: nat, j: nat) returns (next: nat)
    requires i < j < |ms| && SameKey(ms, i, j)
    ensures i < next <= j && SameKey(ms, i, next)
    ensures Deduped(ms)[i].content ==
            "[Duplicate tool output — see latest result for "
            + (if ms[next].toolName.Some? then ms[next].toolName.value else "tool") + "]"
  {
    next := NextSameKey(ms, i, |ms|).value;
  }

  /** Messages for one call, or for tools whose names hold no colon, share a key only if call and tool agree. */
  lemma SameKeyIff(ms: seq<Message>, i: nat, j: nat)
    requires i < |ms| && j < |ms| && Keyed(ms[i]) && Keyed(ms[j]) && ms[i].toolName.Some? && ms[j].toolName.Some?
    requires var id, id', name, name' :=
                 ms[i].toolCallId.value, ms[j].toolCallId.value, ms[i].toolName.value, ms[j].toolName.value;
               id == id' || name == name' || (':' !in name && ':' !in name')
    ensures SameKey(ms, i, j) <==> ms[i].toolCallId == ms[j].toolCallId && ms[i].toolName == ms[j].toolName
  {
    JoinedKeyTellsApart(ms[i].toolName.value, ms[i].toolCallId.value, ms[j].toolName.value, ms[j].toolCallId.value);
  }

  lemma {:induction false} NextSameKeyOfShape(a: seq<Message>, b: seq<Message>, i: nat, k: nat)
    requires SameShape(a, b) && i < |a| && k <= |a|
    ensures NextSameKey(a, i, k) == NextSameKey(b, i, k)
  {
    if k > i + 1 {
      NextSameKeyOfShape(a, b, i, k - 1);
      assert a[i] == b[i].(content := a[i].content) && a[k - 1] == b[k - 1].(content := a[k - 1].content);
    }
  }

  lemma DedupeIdempotent(ms: seq<Message>)
    ensures Deduped(Deduped(ms)) == Deduped(ms)
  {
    DedupeKeepsShape(ms);
    forall i: nat | i < |ms|
      ensures Deduped(Deduped(ms))[i] == Deduped(ms)[i]
    {
      NextSameKeyOfShape(Deduped(ms), ms, i, |ms|);
    }
  }

  // ----- boundaries

  /** Message `c` answers the assistant turn at `j`: only tool messages lie between. */
  ghost predicate OwnedBy(s: seq<Message>, j: nat, c: nat) {
    && j < c < |s|
    && s[j].role == Assistant && s[j].toolCalls != []
    && forall k :: j < k <= c ==> s[k].role == Tool
  }

  /** Splitting before `c` separates no tool message from the assistant turn it answers. */
  ghost predicate CleanCut(s: seq<Message>, c: nat) {
    c <= |s| && forall j: nat :: !OwnedBy(s, j, c)
  }

  /** The earliest clean cut whose suffix fits the budget. */
  ghost predicate IsTailCut(s: seq<Message>, c: nat, budget: nat) {
    && CleanCut(s, c) && Tokens(s[c..]) <= budget
    && forall d: nat :: CleanCut(s, d) && Tokens(s[d..]) <= budget ==> c <= d
  }

  function TailBudget(maxTokens: nat): nat {
    maxTokens * 3 / 10
  }

  /** The tail budget is 30% of the window: the tail keeps to it, and the tail of any earlier clean cut does not. */
  lemma TailShare(s: seq<Message>, c: nat, maxTokens: nat)
    ensures IsTailCut(s, c, TailBudget(maxTokens)) <==>
              && CleanCut(s, c) && 10 * Tokens(s[c..]) <= 3 * maxTokens
              && forall d: nat :: CleanCut(s, d) && 10 * Tokens(s[d..]) <= 3 * maxTokens ==> c <= d
  {
    hide CleanCut, Tokens;
    forall tokens: nat
      ensures tokens <= TailBudget(maxTokens) <==> 10 * tokens <= 3 * maxTokens
    {
    }
  }

  ghost predicate WalkedTo(s: seq<Message>, c: nat, tokens: nat, budget: nat) {
    CleanCut(s, c) && tokens == Tokens(s[c..]) <= budget
  }

  /**
   * One unit back from the clean cut `i + 1`, to `a`: either it fits, or the walk
   * is over, since no clean cut lies strictly inside a group.
   */
  lemma WalkStep(s: seq<Message>, a: nat, i: nat, c: nat, budget: nat)
    requires a <= i < |s| && c == i + 1
    requires if a == i then CleanCut(s, i) else OwnedBy(s, a, i)
    requires CleanCut(s, c) && Tokens(s[c..]) <= budget
    ensures Tokens(s[a..]) == Tokens(s[a..c]) + Tokens(s[c..])
    ensures CleanCut(s, a)
    ensures Tokens(s[a..]) > budget ==> IsTailCut(s, c, budget)
  {
    TokensSuffixMonotone(s, a, c);
    if Tokens(s[a..]) > budget {
      forall d: nat | a < d <= i
        ensures !CleanCut(s, d)
      {
        assert OwnedBy(s, a, d);
      }
      forall d: nat | d <= a
        ensures Tokens(s[d..]) > budget
      {
        TokensSuffixMonotone(s, d, a);
      }
    }
  }

  /** Head, middle and tail are the history, and the tail is as long as clean cuts and budget allow. */
  method Phase2Boundaries(protectFirstN: nat, messages: seq<Message>, maxTokens: nat)
    returns (head: seq<Message>, middle: seq<Message>, tail: seq<Message>)
    ensures head + middle + tail == messages
    ensures |head| == Min(protectFirstN, |messages|)
    ensures IsTailCut(messages[|head|..], |middle|, TailBudget(maxTokens))
  {
    head := messages[..Min(protectFirstN, |messages|)];
    var remaining := messages[|head|..];
    assert messages == head + remaining;
    if |remaining| == 0 {
      return head, [], [];
    }
    var tailStart := TailStart(remaining, TailBudget(maxTokens));
    tail := remaining[tailStart..];
    middle := remaining[..tailStart];
    assert middle + tail == remaining;
    assert head + middle + tail == head + (middle + tail);
  }

  lemma WalkStarts(s: seq<Message>, budget: nat)
    ensures WalkedTo(s, |s|, 0, budget)
  {
    assert s[|s|..] == [];
  }

  /** The walk from the end: whole assistant/tool groups are charged and jumped over at once. */
  method TailStart(remaining: seq<Message>, tailBudget: nat) returns (tailStart: nat)
    ensures IsTailCut(remaining, tailStart, tailBudget)
  {
    hide OwnedBy, CleanCut, Tokens;
    var tailTokens: nat := 0;
    tailStart := |remaining|;
    var i: int := |remaining| - 1;
    WalkStarts(remaining, tailBudget);
    while i >= 0
      invariant -1 <= i == tailStart - 1 < |remaining|
      invariant WalkedTo(remaining, tailStart, tailTokens, tailBudget)
      decreases i
    {
      var start, tokens := UnitBack(remaining, i);
      WalkStep(remaining, start, i, tailStart, tailBudget);
      if tailTokens + tokens > tailBudget {
        break;
      }
      tailTokens := tailTokens + tokens;
      tailStart := start;
      i := start - 1;
    }
  }

  /** What the walk takes in one step at message `i`: the message alone, or the group it ends. */
  method UnitBack(remaining: seq<Message>, i: nat) returns (start: int, tokens: nat)
    requires i < |remaining|
    ensures 0 <= start <= i && tokens == Tokens(remaining[start..i + 1])
    ensures if start == i then CleanCut(remaining, i) else OwnedBy(remaining, start, i)
  {
    var msg := remaining[i];
    var msgTokens := EstimateTokens([msg]);
    assert remaining[i..i + 1] == [msg];
    if msg.role == Tool {
      var assistantIdx := FindOwner(remaining, i);
      if assistantIdx >= 0 {
        var groupTokens := GroupTokens(remaining, assistantIdx, i);
        return assistantIdx, groupTokens;
      }
    }
    return i, msgTokens;
  }

  /** The tokens of the group from its assistant turn to message `i`, found by scanning its answers forward. */
  method GroupTokens(s: seq<Message>, assistantIdx: nat, i: nat) returns (groupTokens: nat)
    requires OwnedBy(s, assistantIdx, i)
    ensures groupTokens == Tokens(s[assistantIdx..i + 1])
  {
    var groupEnd := i + 1;
    var groupEndIdx := assistantIdx + 1;
    while groupEndIdx < |s| && s[groupEndIdx].role == Tool
      invariant assistantIdx < groupEndIdx <= |s|
    {
      groupEndIdx := groupEndIdx + 1;
    }
    groupTokens := EstimateTokens(s[assistantIdx..Min(groupEndIdx, groupEnd)]);
  }

  /** The inner backward scan: the assistant turn that message `i` answers, or -1 for an orphan. */
  method FindOwner(s: seq<Message>, i: nat) returns (assistantIdx: int)
    requires i < |s| && s[i].role == Tool
    ensures assistantIdx >= 0 ==> OwnedBy(s, assistantIdx, i)
    ensures assistantIdx < 0 ==> CleanCut(s, i)
  {
    assistantIdx := -1;
    var j := i - 1;
    while j >= 0
      invariant -1 <= j < i
      invariant forall k :: j < k <= i ==> s[k].role == Tool
      invariant assistantIdx == -1
    {
      var candidate := s[j];
      if candidate.role == Assistant && |candidate.toolCalls| != 0 {
        assistantIdx := j;
        break;
      }
      if candidate.role != Tool {
        break;
      }
      j := j - 1;
    }
  }

  /** In a transcript the clean cuts are exactly the cuts before a non-tool message. */
  lemma CleanCutOfTranscript(s: seq<Message>, c: nat)
    requires Paired(s) && c < |s|
    ensures CleanCut(s, c) <==> s[c].role != Tool
  {
    if s[c].role == Tool {
      assert Attributed(s, c);
      var j: nat :| j < c <= j + |Calls(s[j])|;
      assert Answered(s, j);
      forall k: nat | j < k <= c
        ensures s[k].role == Tool
      {
        AnswerIsTool(s, j, k);
      }
      assert OwnedBy(s, j, c);
    }
  }

  // ----- evict

  /** The user messages of `s` from index `i` on. */
  ghost function UserCount(s: seq<Message>, i: nat): nat
    requires i <= |s|
    decreases |s| - i
  {
    if i == |s| then 0 else UserCount(s, i + 1) + if s[i].role == User then 1 else 0
  }

  lemma {:induction false} UserCountMonotone(s: seq<Message>, i: nat, j: nat)
    requires i <= j <= |s|
    ensures UserCount(s, j) <= UserCount(s, i)
    decreases j - i
  {
    if i < j {
      UserCountMonotone(s, i + 1, j);
    }
  }

  ghost function UserIndices(s: seq<Message>, i: nat): set<nat> {
    set k: nat | i <= k < |s| && s[k].role == User
  }

  lemma {:induction false} UserCountIs(s: seq<Message>, i: nat)
    requires i <= |s|
    ensures UserCount(s, i) == |UserIndices(s, i)|
    decreases |s| - i
  {
    if i == |s| {
      assert UserIndices(s, i) == {};
    } else {
      UserCountIs(s, i + 1);
      assert UserIndices(s, i) == UserIndices(s, i + 1) + if s[i].role == User then {i} else {};
    }
  }

  /** Keeps the whole middle, or the suffix that starts at a user message and holds exactly `evictTurnAge` of them. */
  method PhaseEvict(evictTurnAge: int, middle: seq<Message>) returns (kept: seq<Message>, evictedCount: nat)
    ensures evictedCount <= |middle| && kept == middle[evictedCount..]
    ensures evictTurnAge <= 0 || UserCount(middle, 0) < evictTurnAge ==> evictedCount == 0
    ensures 0 < evictTurnAge <= UserCount(middle, 0) ==>
              evictedCount < |middle| && middle[evictedCount].role == User &&
                UserCount(middle, evictedCount) == evictTurnAge == |UserIndices(middle, evictedCount)|
    ensures middle != [] ==> kept != []
  {
    if evictTurnAge <= 0 || |middle| == 0 {
      return middle, 0;
    }
    var userCount := 0;
    var cutoffIdx := |middle|;
    var i := |middle| - 1;
    while i >= 0
      invariant -1 <= i < |middle|
      invariant userCount == UserCount(middle, i + 1) < evictTurnAge
      invariant cutoffIdx == |middle|
    {
      if middle[i].role == User {
        userCount := userCount + 1;
        if userCount >= evictTurnAge {
          cutoffIdx := i;
          UserCountMonotone(middle, 0, i);
          break;
        }
      }
      i := i - 1;
    }
    if cutoffIdx >= |middle| {
      return middle, 0;
    }
    UserCountIs(middle, cutoffIdx);
    kept, evictedCount := middle[cutoffIdx..], cutoffIdx;
  }

  // ----- compress

  const SUMMARY_PREFIX := "[CONTEXT COMPACTION — REFERENCE ONLY]"
  const SUMMARY_END_MARKER := "[END CONTEXT COMPACTION]"

  function WrapSummary(body: string): string {
    SUMMARY_PREFIX + "\n" + body + "\n" + SUMMARY_END_MARKER
  }

  /** Phase 3; `body` is whatever the model or the heuristic fallback wrote. */
  function Summarize(middle: seq<Message>, body: string): string {
    if middle == [] then "" else WrapSummary(body)
  }

  /** The frozen snapshot, rendered, goes in front of the summary; an absent snapshot renders as "". */
  function Freeze(snapshotText: string, summary: string): string {
    if snapshotText == "" then summary else snapshotText + "\n\n" + summary
  }

  function Assemble(head: seq<Message>, summary: string, tail: seq<Message>): seq<Message> {
    head + (if summary == "" then [] else [UserMessage(summary)]) + tail
  }

  /**
   * What a compression makes of a history, described without the walk: head and
   * tail of the deduped history, the tail as long as clean cuts and budget allow,
   * and between them the summary of what is left out.
   */
  ghost predicate IsCompressionOf(out: seq<Message>, ms: seq<Message>, protectFirstN: nat, maxTokens: nat,
                                  snapshotText: string, body: string) {
    exists c: nat ::
      && IsTailCut(Deduped(ms)[Min(protectFirstN, |ms|)..], c, TailBudget(maxTokens))
      && out == CompressedAt(Deduped(ms), Min(protectFirstN, |ms|), c, snapshotText, body)
  }

  /** The history split at `n` and `n + c`, with the middle part summarized. */
  function CompressedAt(d: seq<Message>, n: nat, c: nat, snapshotText: string, body: string): seq<Message>
    requires n + c <= |d|
  {
    Assemble(d[..n], Freeze(snapshotText, Summarize(d[n..n + c], body)), d[n + c..])
  }

  lemma SplitIsCompression(out: seq<Message>, ms: seq<Message>, head: seq<Message>, middle: seq<Message>,
                           tail: seq<Message>,
                           protectFirstN: nat, maxTokens: nat, snapshotText: string, body: string)
    requires |head| == Min(protectFirstN, |ms|)
    requires Deduped(ms) == head + middle + tail
    requires IsTailCut(Deduped(ms)[|head|..], |middle|, TailBudget(maxTokens))
    requires out == Assemble(head, Freeze(snapshotText, Summarize(middle, body)), tail)
    ensures IsCompressionOf(out, ms, protectFirstN, maxTokens, snapshotText, body)
  {
    var d, n, c := Deduped(ms), |head|, |middle|;
    assert d[..n] == head && d[n..n + c] == middle && d[n + c..] == tail;
    assert out == CompressedAt(d, n, c, snapshotText, body);
  }

  /** There is only one: the maximal clean tail is unique. */
  lemma CompressionUnique(a: seq<Message>, b: seq<Message>, ms: seq<Message>, protectFirstN: nat, maxTokens: nat,
                          snapshotText: string, body: string)
    requires IsCompressionOf(a, ms, protectFirstN, maxTokens, snapshotText, body)
    requires IsCompressionOf(b, ms, protectFirstN, maxTokens, snapshotText, body)
    ensures a == b
  {
    hide CleanCut, Deduped, CompressedAt;
  }

  /** The summary is the message after the head. */
  predicate SummaryAt(out: seq<Message>, n: nat, summary: string) {
    n < |out| && out[n] == UserMessage(summary)
  }

  /** Something is left out exactly when the whole takes more than 30% of the window. */
  lemma LeftOutIff(s: seq<Message>, c: nat, maxTokens: nat)
    requires IsTailCut(s, c, TailBudget(maxTokens))
    ensures c > 0 <==> 10 * Tokens(s) > 3 * maxTokens
  {
    hide Tokens;
    assert s[0..] == s;
    if Tokens(s) <= TailBudget(maxTokens) {
      WholeFits(s, c, TailBudget(maxTokens));
    }
  }

  /**
   * What a compression keeps, spelled out. When what follows the head takes more than
   * 30% of the window, the message behind the head holds the snapshot, a blank line and
   * `body` between the two markers; otherwise nothing is left out, and it holds the
   * snapshot alone, if there is one.
   */
  lemma CompressionSpelledOut(out: seq<Message>, ms: seq<Message>, protectFirstN: nat, maxTokens: nat,
                              snapshotText: string, body: string) returns (c: nat)
    requires IsCompressionOf(out, ms, protectFirstN, maxTokens, snapshotText, body)
    ensures var d, n := Deduped(ms), Min(protectFirstN, |ms|);
            && n + c <= |d| && IsTailCut(d[n..], c, TailBudget(maxTokens))
            && (c > 0 <==> 10 * Tokens(d[n..]) > 3 * maxTokens)
            && (c > 0 && snapshotText != "" ==>
                  Spliced(out, d, n, c,
                    snapshotText + "\n\n" + SUMMARY_PREFIX + "\n" + body + "\n" + SUMMARY_END_MARKER))
            && (c > 0 && snapshotText == "" ==>
                  Spliced(out, d, n, c, SUMMARY_PREFIX + "\n" + body + "\n" + SUMMARY_END_MARKER))
            && (c == 0 && snapshotText != "" ==> Spliced(out, d, n, 0, snapshotText + "\n\n"))
            && (c == 0 && snapshotText == "" ==> out == d)
  {
    hide OwnedBy, Deduped, Tokens;
    DedupeKeepsShape(ms);
    var d, n := Deduped(ms), Min(protectFirstN, |ms|);
    c :| IsTailCut(d[n..], c, TailBudget(maxTokens)) && out == CompressedAt(d, n, c, snapshotText, body);
    LeftOutIff(d[n..], c, maxTokens);
    SplicedAt(out, d, n, c, snapshotText, body);
  }

  /**
   * Behind a head of `n` messages: the snapshot, and the body between the markers if
   * messages are left out.
   */
  ghost predicate HoldsSummary(out: seq<Message>, n: nat, leftOut: bool, snapshotText: string, body: string) {
    && (leftOut && snapshotText != "" ==>
          SummaryAt(out, n, snapshotText + "\n\n" + SUMMARY_PREFIX + "\n" + body + "\n" + SUMMARY_END_MARKER))
    && (leftOut && snapshotText == "" ==>
          SummaryAt(out, n, SUMMARY_PREFIX + "\n" + body + "\n" + SUMMARY_END_MARKER))
    && (!leftOut && snapshotText != "" ==> SummaryAt(out, n, snapshotText + "\n\n"))
  }

  lemma CompressionHoldsSummary(out: seq<Message>, ms: seq<Message>, protectFirstN: nat, maxTokens: nat,
                                snapshotText: string, body: string)
    requires IsCompressionOf(out, ms, protectFirstN, maxTokens, snapshotText, body)
    ensures var n := Min(protectFirstN, |ms|);
            && n <= |Deduped(ms)|
            && HoldsSummary(out, n, 10 * Tokens(Deduped(ms)[n..]) > 3 * maxTokens, snapshotText, body)
  {
    hide IsCompressionOf, Deduped, IsTailCut;
    var c := CompressionSpelledOut(out, ms, protectFirstN, maxTokens, snapshotText, body);
  }

  /** The messages of `d` from `n` to `n + c` have made way for one user message. */
  ghost predicate Spliced(out: seq<Message>, d: seq<Message>, n: nat, c: nat, text: string) {
    n + c <= |d| && out == d[..n] + [UserMessage(text)] + d[n + c..]
  }

  lemma SplicedAt(out: seq<Message>, d: seq<Message>, n: nat, c: nat, snapshotText: string, body: string)
    requires n + c <= |d| && out == CompressedAt(d, n, c, snapshotText, body)
    ensures c > 0 && snapshotText != "" ==>
              Spliced(out, d, n, c, snapshotText + "\n\n" + SUMMARY_PREFIX + "\n" + body + "\n" + SUMMARY_END_MARKER)
    ensures c > 0 && snapshotText == "" ==>
              Spliced(out, d, n, c, SUMMARY_PREFIX + "\n" + body + "\n" + SUMMARY_END_MARKER)
    ensures c == 0 && snapshotText != "" ==> Spliced(out, d, n, 0, snapshotText + "\n\n")
    ensures c == 0 && snapshotText == "" ==> out == d
  {
    var lead, wrapped := snapshotText + "\n\n", WrapSummary(body);
    assert wrapped == SUMMARY_PREFIX + "\n" + body + "\n" + SUMMARY_END_MARKER;
    assert lead + wrapped == lead + SUMMARY_PREFIX + "\n" + body + "\n" + SUMMARY_END_MARKER;
    assert lead + "" == lead;
    if c == 0 && snapshotText == "" {
      NothingLeftOut(d, n, body);
    }
  }

  datatype CompressionResult = CompressionResult(messages: seq<Message>, summary: string, tokensBefore: nat,
    tokensAfter: nat, tokensSaved: nat, iterative: bool)

  class AdvancedCompressor {
    const protectFirstN: nat
    const evictTurnAge: int
    var snapshotText: string
    var previousSummary: Option<string>

    constructor (protectFirstN: nat, evictTurnAge: int)
      ensures this.protectFirstN == protectFirstN && this.evictTurnAge == evictTurnAge
      ensures snapshotText == "" && previousSummary == None
    {
      this.protectFirstN := protectFirstN;
      this.evictTurnAge := evictTurnAge;
      snapshotText := "";
      previousSummary := None;
    }

    method SetFrozenSnapshot(text: string)
      modifies this`snapshotText
      ensures snapshotText == text
    {
      snapshotText := text;
    }

    method Reset()
      modifies this`previousSummary
      ensures previousSummary == None
    {
      previousSummary := None;
    }

    /** The phases in their order; none of them changes the compressor. */
    method RunPhases(messages: seq<Message>, maxTokens: nat, body: string)
      returns (assembled: seq<Message>, summary: string)
      ensures IsCompressionOf(assembled, messages, protectFirstN, maxTokens, snapshotText, body)
      ensures summary != "" ==> SummaryAt(assembled, Min(protectFirstN, |messages|), summary)
      ensures var n := Min(protectFirstN, |messages|);
              && n <= |Deduped(messages)|
              && HoldsSummary(assembled, n, 10 * Tokens(Deduped(messages)[n..]) > 3 * maxTokens, snapshotText, body)
              && (summary == "" <==> snapshotText == "" && 10 * Tokens(Deduped(messages)[n..]) <= 3 * maxTokens)
    {
      hide HoldsSummary, IsCompressionOf, CleanCut, Tokens, KeyedCount, Keys, KeyedIndices, UserCount,
        UserIndices, WrapSummary;
      var deduped, dedupedCount := Phase0Dedupe(messages);
      var head, middle, tail := Phase2Boundaries(protectFirstN, deduped, maxTokens);
      var kept, evictedCount := PhaseEvict(evictTurnAge, middle);
      SummaryNotEmpty(snapshotText, kept, body);
      summary := Summarize(kept, body);
      summary := Freeze(snapshotText, summary);
      assembled := Assemble(head, summary, tail);
      assert deduped[|head|..] == middle + tail;
      LeftOutIff(deduped[|head|..], |middle|, maxTokens);
      SplitIsCompression(assembled, messages, head, middle, tail, protectFirstN, maxTokens, snapshotText, body);
      CompressionHoldsSummary(assembled, messages, protectFirstN, maxTokens, snapshotText, body);
    }

    method Compress(messages: seq<Message>, maxTokens: nat, currentTokens: nat, body: string)
      returns (r: CompressionResult)
      modifies this`previousSummary
      ensures IsCompressionOf(r.messages, messages, protectFirstN, maxTokens, snapshotText, body)
      ensures var n := Min(protectFirstN, |messages|);
              && n <= |Deduped(messages)|
              && HoldsSummary(r.messages, n, 10 * Tokens(Deduped(messages)[n..]) > 3 * maxTokens, snapshotText, body)
              && (r.summary == "" <==> snapshotText == "" && 10 * Tokens(Deduped(messages)[n..]) <= 3 * maxTokens)
      ensures r.tokensBefore == currentTokens && r.tokensAfter == Tokens(r.messages)
      ensures r.tokensSaved == Max(0, currentTokens - r.tokensAfter)
      ensures previousSummary == Some(r.summary)
      ensures r.summary != "" ==> SummaryAt(r.messages, Min(protectFirstN, |messages|), r.summary)
      ensures r.iterative == old(previousSummary).Some?
    {
      var assembled, summary := RunPhases(messages, maxTokens, body);
      var tokensAfter := EstimateTokens(assembled);
      var wasIterative := previousSummary.Some?;
      previousSummary := Some(summary);
      r := CompressionResult(assembled, summary, currentTokens, tokensAfter, Max(0, currentTokens - tokensAfter),
        wasIterative);
    }
  }

  /** A non-tool message stands right after the protected head, or nothing does. */
  predicate HeadClean(ms: seq<Message>, protectFirstN: nat) {
    protectFirstN < |ms| ==> ms[protectFirstN].role != Tool
  }

  /** A summary in place of the messages between two cuts, the second one clean. */
  lemma SplicePairedIff(d: seq<Message>, n: nat, c: nat, summary: Message)
    requires Paired(d) && n + c <= |d| && CleanCut(d[n..], c)
    requires summary.role == User && summary.toolCalls == []
    ensures Paired(d[..n] + [summary] + d[n + c..]) <==> (n < |d| ==> d[n].role != Tool)
  {
    if n < |d| && d[n].role == Tool {
      CutInsideTurnUnpaired(d, n, summary, d[n + c..]);
    } else {
      PairedSplit(d, n);
      assert d[n..][c..] == d[n + c..];
      if n + c < |d| {
        CleanCutOfTranscript(d[n..], c);
      }
      PairedSplit(d[n..], c);
      PairedConcat(d[..n], [summary]);
      PairedConcat(d[..n] + [summary], d[n + c..]);
    }
  }

  lemma SummaryNotEmpty(snapshotText: string, middle: seq<Message>, body: string)
    ensures Freeze(snapshotText, Summarize(middle, body)) == "" <==> snapshotText == "" && middle == []
  {
  }

  /** A summary stands between head and tail unless there is neither a snapshot nor anything to summarize. */
  lemma SplitPairedIff(d: seq<Message>, n: nat, c: nat, snapshotText: string, body: string)
    requires Paired(d) && n + c <= |d| && CleanCut(d[n..], c)
    ensures Paired(CompressedAt(d, n, c, snapshotText, body)) <==>
              (n < |d| ==> d[n].role != Tool) || (snapshotText == "" && c == 0)
  {
    SummaryNotEmpty(snapshotText, d[n..n + c], body);
    if snapshotText == "" && c == 0 {
      NothingLeftOut(d, n, body);
    } else {
      SplicePairedIff(d, n, c, UserMessage(Freeze(snapshotText, Summarize(d[n..n + c], body))));
    }
  }

  /**
   * Compressing a transcript yields a transcript exactly when the head cut does not
   * fall inside a run of answers, or when, without a snapshot, the whole rest fits
   * the tail budget, so that nothing is cut out.
   */
  lemma CompressionPairedIff(out: seq<Message>, ms: seq<Message>, protectFirstN: nat, maxTokens: nat,
                             snapshotText: string, body: string)
    requires Paired(ms) && IsCompressionOf(out, ms, protectFirstN, maxTokens, snapshotText, body)
    ensures Paired(out) <==>
              || HeadClean(ms, protectFirstN)
              || (snapshotText == "" && Tokens(Deduped(ms)[Min(protectFirstN, |ms|)..]) <= TailBudget(maxTokens))
  {
    hide CompressedAt;
    var d, n, budget := Deduped(ms), Min(protectFirstN, |ms|), TailBudget(maxTokens);
    DedupeKeepsShape(ms);
    SameShapePaired(ms, d);
    var c: nat :| IsTailCut(d[n..], c, budget) && out == CompressedAt(d, n, c, snapshotText, body);
    SplitPairedIff(d, n, c, snapshotText, body);
    if Tokens(d[n..]) <= budget {
      WholeFits(d[n..], c, budget);
    } else {
      assert d[n..][0..] == d[n..];
    }
    assert n < |ms| ==> d[n].role == ms[n].role;
  }

  /** Without a snapshot, a compression that leaves nothing out only dedupes. */
  lemma CompressionWithoutSummary(out: seq<Message>, ms: seq<Message>, protectFirstN: nat, maxTokens: nat, body: string)
    requires IsCompressionOf(out, ms, protectFirstN, maxTokens, "", body)
    requires Tokens(Deduped(ms)[Min(protectFirstN, |ms|)..]) <= TailBudget(maxTokens)
    ensures out == Deduped(ms)
  {
    var d, n := Deduped(ms), Min(protectFirstN, |ms|);
    var c: nat :| IsTailCut(d[n..], c, TailBudget(maxTokens)) && out == CompressedAt(d, n, c, "", body);
    WholeFits(d[n..], c, TailBudget(maxTokens));
    NothingLeftOut(d, n, body);
  }

  lemma NothingLeftOut(d: seq<Message>, n: nat, body: string)
    requires n <= |d|
    ensures CompressedAt(d, n, 0, "", body) == d
  {
    assert d[n..n] == [];
    assert d == d[..n] + [] + d[n..];
  }

  lemma WholeFits(s: seq<Message>, c: nat, budget: nat)
    requires IsTailCut(s, c, budget) && Tokens(s) <= budget
    ensures c == 0
  {
    assert CleanCut(s, 0) && s[0..] == s;
  }

  /** Whatever was compressed, the message after a full head is the summary, so the next head cut is clean. */
  lemma CompressionAnchorsHead(out: seq<Message>, ms: seq<Message>, protectFirstN: nat, maxTokens: nat,
                               snapshotText: string, body: string)
    requires IsCompressionOf(out, ms, protectFirstN, maxTokens, snapshotText, body)
    requires snapshotText != "" && protectFirstN <= |ms|
    ensures protectFirstN < |out| && out[protectFirstN].role == User
  {
  }
}
