/**
 * The bounded-window detectors: the stall detector and the loop detector. Each
 * keeps a window and a few counters, and each is proved to answer as if it had
 * kept the whole history since its last reset. Hashes and signatures are keys.
 */
module Detectors {
  import opened Prelude

  // ----- properties of a whole history

  /** The last `n` entries are equal. */
  ghost predicate EndsInRepeat(h: seq<string>, n: int) {
    n <= |h| && forall k :: 0 <= k < |h| && |h| - n <= k ==> h[k] == h[|h| - 1]
  }

  /** The last `reps * len` entries are `reps` copies of one block of length `len`. */
  ghost predicate EndsInBlocks(h: seq<string>, len: nat, reps: nat) {
    len * reps <= |h| && forall k :: |h| - len * reps <= k < |h| - len ==> h[k] == h[k + len]
  }

  /** ... and the block is not one key over and over. */
  ghost predicate EndsInCycle(h: seq<string>, len: nat, reps: nat) {
    && EndsInBlocks(h, len, reps)
    && exists k :: |h| - len * reps <= k < |h| - len * reps + len && k < |h| && h[k] != h[|h| - len * reps]
  }

  /** Some cycle length between 2 and `maxLen` fits. */
  ghost predicate EndsInSomeCycle(h: seq<string>, maxLen: int, reps: nat) {
    exists len: nat :: 2 <= len <= maxLen && EndsInCycle(h, len, reps)
  }

  /** The length of the longest constant suffix. */
  function RunLength(h: seq<string>): nat {
    if |h| <= 1 then |h|
    else if h[|h| - 1] != h[|h| - 2] then 1
    else 1 + RunLength(h[..|h| - 1])
  }

  lemma LastTwo(h: seq<string>, n: int)
    requires |h| > 1
    ensures n >= 2 && EndsInRepeat(h, n) ==> h[|h| - 2] == h[|h| - 1]
  {
  }

  lemma {:induction false} RunLengthIsRepeat(h: seq<string>, n: int)
    requires h != []
    ensures RunLength(h) >= n <==> EndsInRepeat(h, n)
  {
    if |h| > 1 && h[|h| - 1] == h[|h| - 2] {
      var init := h[..|h| - 1];
      RunLengthIsRepeat(init, n - 1);
      if EndsInRepeat(h, n) {
        assert EndsInRepeat(init, n - 1);
      }
      if EndsInRepeat(init, n - 1) && n <= |h| {
        forall k | 0 <= k < |h| && |h| - n <= k
          ensures h[k] == h[|h| - 1]
        {
          if k < |h| - 1 {
            assert init[k] == h[k];
          }
        }
      }
    } else if |h| > 1 {
      LastTwo(h, n);
    }
  }

  lemma {:induction false} RunLengthStep(h: seq<string>, key: string)
    ensures RunLength(h + [key]) == if h != [] && h[|h| - 1] == key then RunLength(h) + 1 else 1
    ensures h != [] ==> RunLength(h) >= 1
  {
    assert (h + [key])[..|h|] == h;
  }

  function Suffix(h: seq<string>, n: nat): seq<string> {
    if |h| <= n then h else h[|h| - n..]
  }

  lemma BlocksInSuffix(h: seq<string>, w: nat, len: nat, reps: nat)
    requires len * reps <= w < |h|
    ensures EndsInBlocks(h, len, reps) <==> EndsInBlocks(Suffix(h, w), len, reps)
  {
    var s, d := Suffix(h, w), |h| - w;
    if EndsInBlocks(s, len, reps) {
      forall k | |h| - len * reps <= k < |h| - len
        ensures h[k] == h[k + len]
      {
        assert s[k - d] == s[k - d + len];
      }
    }
    if EndsInBlocks(h, len, reps) {
      forall k | |s| - len * reps <= k < |s| - len
        ensures s[k] == s[k + len]
      {
        assert h[k + d] == h[k + d + len];
      }
    }
  }

  /** A window of `w` entries decides every question about at most `w` last entries. */
  lemma CycleInSuffix(h: seq<string>, w: nat, len: nat, reps: nat)
    requires len * reps <= w
    ensures EndsInCycle(h, len, reps) <==> EndsInCycle(Suffix(h, w), len, reps)
  {
    if |h| > w {
      BlocksInSuffix(h, w, len, reps);
      var s, d := Suffix(h, w), |h| - w;
      assert forall k :: d <= k < |h| ==> h[k] == s[k - d];
      assert forall k :: 0 <= k < |s| ==> s[k] == h[k + d];
    }
  }

  // ----- stall detector

  /** A suffix of the history that still covers the window. */
  ghost predicate Trimming(signatures: seq<string>, h: seq<string>, windowSize: nat) {
    signatures == Suffix(h, |signatures|) && |signatures| >= Min(windowSize, |h|)
  }

  lemma TrimStart(signatures: seq<string>, h: seq<string>, windowSize: nat, sig: string)
    requires signatures == Suffix(h, windowSize)
    ensures Trimming(signatures + [sig], h + [sig], windowSize)
  {
  }

  lemma TrimStep(signatures: seq<string>, h: seq<string>, windowSize: nat)
    requires Trimming(signatures, h, windowSize) && |signatures| > windowSize
    ensures Trimming(signatures[1..], h, windowSize)
  {
  }

  lemma Trimmed(signatures: seq<string>, h: seq<string>, windowSize: nat, n: nat)
    requires Trimming(signatures, h, windowSize) && |signatures| <= windowSize
    ensures signatures == Suffix(h, windowSize)
    ensures n <= |signatures| <==> n <= windowSize && n <= |h|
    ensures n <= |signatures| ==> signatures[|signatures| - n..] == h[|h| - n..]
  {
  }

  lemma TailDecides(h: seq<string>, tail: seq<string>, n: nat)
    requires 0 < n <= |h| && tail == h[|h| - n..]
    ensures (forall k :: 0 <= k < |tail| ==> tail[k] == tail[0]) <==> EndsInRepeat(h, n)
  {
    assert forall k :: 0 <= k < n ==> tail[k] == h[|h| - n + k];
    assert tail[n - 1] == h[|h| - 1];
    if forall k :: 0 <= k < |tail| ==> tail[k] == tail[0] {
      forall k | 0 <= k < |h| && |h| - n <= k
        ensures h[k] == h[|h| - 1]
      {
        assert tail[k - |h| + n] == tail[0] == tail[n - 1];
      }
    }
  }

  class StallDetector {
    const threshold: nat
    const windowSize: nat
    var signatures: seq<string>
    ghost var history: seq<string>

    ghost predicate Valid()
      reads this
    {
      0 < threshold && signatures == Suffix(history, windowSize)
    }

    constructor (threshold: nat, windowSize: nat)
      requires 0 < threshold && 0 < windowSize
      ensures Valid() && history == []
      ensures this.threshold == threshold && this.windowSize == windowSize
    {
      this.threshold, this.windowSize := threshold, windowSize;
      signatures, history := [], [];
    }

    /**
     * Fires exactly when the window can hold `threshold` entries and the last `threshold`
     * calls ever made are equal.
     */
    method RecordAndCheck(sig: string) returns (detected: bool)
      requires Valid()
      modifies this
      ensures Valid() && history == old(history) + [sig]
      ensures detected <==> threshold <= windowSize && EndsInRepeat(history, threshold)
    {
      TrimStart(signatures, history, windowSize, sig);
      history := history + [sig];
      signatures := signatures + [sig];
      while |signatures| > windowSize
        invariant history == old(history) + [sig]
        invariant Trimming(signatures, history, windowSize)
      {
        TrimStep(signatures, history, windowSize);
        signatures := signatures[1..];
      }
      Trimmed(signatures, history, windowSize, threshold);
      if |signatures| < threshold {
        return false;
      }
      var tail := signatures[|signatures| - threshold..];
      detected := forall k :: 0 <= k < |tail| ==> tail[k] == tail[0];
      TailDecides(history, tail, threshold);
    }

    method Reset()
      modifies this
      ensures history == [] && (0 < threshold ==> Valid())
    {
      signatures, history := [], [];
    }
  }

  // ----- loop detector

  datatype LoopError =
    | ToolCallLoop(count: nat)
    | ToolCallCycle(length: nat, repetitions: nat)
    | ContentLoop(count: nat)

  const TOOL_CALL_LOOP_THRESHOLD := 5
  const CONTENT_LOOP_THRESHOLD := 10
  const CYCLE_THRESHOLD := 3
  const MAX_CYCLE_LENGTH := 4

  /** The calls that reached the cycle window: those not already reported as consecutive repeats. */
  ghost function Pushed(h: seq<string>, threshold: int): seq<string> {
    if h == [] then []
    else Pushed(h[..|h| - 1], threshold) + if RunLength(h) >= threshold then [] else [h[|h| - 1]]
  }

  lemma PushedStep(h: seq<string>, hash: string, threshold: int)
    ensures RunLength(h + [hash]) >= threshold ==> Pushed(h + [hash], threshold) == Pushed(h, threshold)
    ensures RunLength(h + [hash]) < threshold ==> Pushed(h + [hash], threshold) == Pushed(h, threshold) + [hash]
  {
    assert (h + [hash])[..|h|] == h;
  }

  /** The shortest cycle that `pushed` ends in, or nothing if it ends in none. */
  ghost predicate ReportsCycle(pushed: seq<string>, maxLen: nat, reps: nat, r: Option<LoopError>) {
    || (r == None && !EndsInSomeCycle(pushed, maxLen, reps))
    || (&& r.Some? && r.value.ToolCallCycle? && r.value.repetitions == reps && 2 <= r.value.length <= maxLen
        && EndsInCycle(pushed, r.value.length, reps)
        && !EndsInSomeCycle(pushed, r.value.length - 1, reps))
  }

  /** What the detector reports about a history: a repeat first, then the shortest cycle. */
  ghost predicate Reports(h: seq<string>, pushed: seq<string>, threshold: int, maxLen: nat, reps: nat,
                          r: Option<LoopError>) {
    if h != [] && EndsInRepeat(h, threshold) then r == Some(ToolCallLoop(RunLength(h)))
    else ReportsCycle(pushed, maxLen, reps, r)
  }

  lemma MulMonotone(a: nat, b: nat, c: nat)
    requires a <= b
    ensures a * c <= b * c
  {
  }

  /** Among the first `bound` entries, every one repeats `len` later. */
  ghost predicate PeriodicUpTo(s: seq<string>, len: nat, bound: int) {
    forall k :: 0 <= k < bound - len && k + len < |s| ==> s[k] == s[k + len]
  }

  /** Position `r * len + i` of a sequence periodic that far equals position `i`. */
  lemma {:induction false} PeriodicAt(s: seq<string>, len: nat, r: nat, i: nat, bound: nat)
    requires 0 <= i < len && r * len + i < bound <= |s|
    requires PeriodicUpTo(s, len, bound)
    ensures s[r * len + i] == s[i]
  {
    if r > 0 {
      assert r * len + i == (r - 1) * len + i + len;
      PeriodicAt(s, len, r - 1, i, bound);
    }
  }

  /** Comparing entry `i` of copy `rep` with the first copy is comparing it with the copy before. */
  lemma RepetitionStep(s: seq<string>, len: nat, rep: nat, start: nat, i: nat)
    requires 1 <= rep && start == rep * len && i < len && start + i < |s|
    requires PeriodicUpTo(s, len, start + i)
    ensures s[start + i] == s[i] ==> PeriodicUpTo(s, len, start + i + 1)
    ensures s[start + i] != s[i] ==> !PeriodicUpTo(s, len, |s|)
  {
    NextCopy(rep - 1, rep, len);
    PeriodicAt(s, len, rep - 1, i, start + i);
    assert s[start - len + i] == s[i];
  }

  lemma NextCopy(rep: nat, reps: nat, len: nat)
    requires rep < reps
    ensures (rep + 1) * len == rep * len + len <= len * reps
  {
    MulMonotone(rep + 1, reps, len);
  }

  /** The nested comparison loops: does `recent` consist of `reps` copies of its first `len` entries? */
  method IsRepetition(recent: seq<string>, len: nat, reps: nat) returns (isCycle: bool)
    requires 2 <= len && 1 <= reps && |recent| == len * reps
    ensures isCycle <==> PeriodicUpTo(recent, len, |recent|)
  {
    var rep := 1;
    while rep < reps
      invariant 1 <= rep <= reps
      invariant PeriodicUpTo(recent, len, rep * len)
    {
      NextCopy(rep, reps, len);
      var start := rep * len;
      for i := 0 to len
        invariant PeriodicUpTo(recent, len, start + i)
      {
        RepetitionStep(recent, len, rep, start, i);
        if recent[start + i] != recent[i] {
          return false;
        }
      }
      rep := rep + 1;
    }
    return true;
  }

  class LoopDetector {
    const toolCallThreshold: int
    const contentThreshold: int
    const cycleThreshold: nat
    const maxCycleLength: nat
    var cycleWindow: seq<string>
    var consecutiveToolCallCount: nat
    var consecutiveContentCount: nat
    var lastToolCallHash: Option<string>
    var lastContentHash: Option<string>
    ghost var calls: seq<string>
    ghost var contents: seq<string>

    ghost predicate Valid()
      reads this
    {
      && Tracks(calls, lastToolCallHash, consecutiveToolCallCount)
      && Tracks(contents, lastContentHash, consecutiveContentCount)
      && cycleWindow == Suffix(Pushed(calls, toolCallThreshold), maxCycleLength * cycleThreshold)
    }

    /** What the detector says about a history of calls with which it agrees. */
    ghost predicate LoopsAfter(h: seq<string>) {
      Loops(h, Pushed(h, toolCallThreshold), toolCallThreshold, maxCycleLength, cycleThreshold)
    }

    static ghost predicate Tracks(h: seq<string>, last: Option<string>, count: nat) {
      count == RunLength(h) && last == if h == [] then None else Some(h[|h| - 1])
    }

    static lemma TracksStep(h: seq<string>, last: Option<string>, count: nat, hash: string)
      requires Tracks(h, last, count)
      ensures Tracks(h + [hash], Some(hash), if Some(hash) == last then count + 1 else 1)
    {
      assert (h + [hash])[..|h|] == h;
    }

    constructor (toolCallThreshold: int, contentThreshold: int, cycleThreshold: nat, maxCycleLength: nat)
      ensures Valid() && calls == [] && contents == []
      ensures this.toolCallThreshold == toolCallThreshold && this.contentThreshold == contentThreshold
      ensures this.cycleThreshold == cycleThreshold && this.maxCycleLength == maxCycleLength
    {
      this.toolCallThreshold, this.contentThreshold := toolCallThreshold, contentThreshold;
      this.cycleThreshold, this.maxCycleLength := cycleThreshold, maxCycleLength;
      cycleWindow, consecutiveToolCallCount, consecutiveContentCount := [], 0, 0;
      lastToolCallHash, lastContentHash, calls, contents := None, None, [], [];
    }

    method Reset()
      modifies this
      ensures Valid() && calls == [] && contents == []
    {
      consecutiveToolCallCount, consecutiveContentCount := 0, 0;
      lastToolCallHash, lastContentHash := None, None;
      cycleWindow, calls, contents := [], [], [];
    }

    /** `cycle` is the shortest cycle that `window` ends in, with its repetitions. */
    static ghost predicate CycleOf(window: seq<string>, maxLen: nat, reps: nat, cycle: Option<(nat, nat)>) {
      match cycle
      case None => !EndsInSomeCycle(window, maxLen, reps)
      case Some(c) =>
        && c.1 == reps && 2 <= c.0 <= maxLen
        && EndsInCycle(window, c.0, reps) && !EndsInSomeCycle(window, c.0 - 1, reps)
    }

    /** The shortest cycle that the window ends in, if any. */
    method DetectCycle() returns (cycle: Option<(nat, nat)>)
      requires |cycleWindow| <= maxCycleLength * cycleThreshold
      ensures CycleOf(cycleWindow, maxCycleLength, cycleThreshold, cycle)
    {
      var w := cycleWindow;
      var cycleLen := 2;
      while cycleLen <= maxCycleLength
        invariant 2 <= cycleLen
        invariant !EndsInSomeCycle(w, cycleLen - 1, cycleThreshold)
      {
        var needed := cycleLen * cycleThreshold;
        if |w| >= needed {
          // `slice(-needed)` is the whole window when `needed` is zero; the window is empty then.
          var recent := if needed == 0 then w else w[|w| - needed..];
          if cycleThreshold == 0 {
            assert needed == 0 && w == [];
          } else {
            MulMonotone(1, cycleThreshold, cycleLen);
          }
          assert recent == w[|w| - needed..];
          var pattern := recent[..Min(cycleLen, |recent|)];
          var allSame := forall k :: 0 <= k < |pattern| ==> pattern[k] == pattern[0];
          assert forall k :: 0 <= k < needed ==> recent[k] == w[|w| - needed + k];
          if !allSame {
            var isCycle := IsRepetition(recent, cycleLen, cycleThreshold);
            BlocksOfRecent(w, recent, cycleLen, cycleThreshold);
            if isCycle {
              var k :| 0 <= k < |pattern| && pattern[k] != pattern[0];
              assert w[|w| - needed + k] != w[|w| - needed];
              return Some((cycleLen, cycleThreshold));
            }
          } else {
            assert forall k :: |w| - needed <= k < |w| - needed + |pattern| ==> w[k] == pattern[k - (|w| - needed)];
          }
        }
        cycleLen := cycleLen + 1;
      }
      return None;
    }

    static lemma BlocksOfRecent(w: seq<string>, recent: seq<string>, len: nat, reps: nat)
      requires len * reps <= |w| && recent == w[|w| - len * reps..]
      ensures EndsInBlocks(w, len, reps) <==> PeriodicUpTo(recent, len, |recent|)
    {
      var d := |w| - len * reps;
      if PeriodicUpTo(recent, len, |recent|) {
        forall k | d <= k < |w| - len
          ensures w[k] == w[k + len]
        {
          assert recent[k - d] == recent[k - d + len];
        }
      }
      if EndsInBlocks(w, len, reps) {
        forall k | 0 <= k < |recent| - len
          ensures recent[k] == recent[k + len]
        {
          assert w[k + d] == w[k + d + len];
        }
      }
    }

    /** The capped window loses nothing: it ends in the same cycles as everything ever pushed. */
    static lemma WindowDecides(pushed: seq<string>, maxLen: nat, reps: nat, len: nat)
      requires len <= maxLen
      ensures EndsInCycle(Suffix(pushed, maxLen * reps), len, reps) <==> EndsInCycle(pushed, len, reps)
    {
      MulMonotone(len, maxLen, reps);
      CycleInSuffix(pushed, maxLen * reps, len, reps);
    }

    static lemma WindowDecidesSome(pushed: seq<string>, maxLen: nat, reps: nat, len: int)
      requires len <= maxLen
      ensures EndsInSomeCycle(Suffix(pushed, maxLen * reps), len, reps) <==> EndsInSomeCycle(pushed, len, reps)
    {
      hide EndsInCycle, Suffix;
      var window := Suffix(pushed, maxLen * reps);
      if EndsInSomeCycle(window, len, reps) {
        var l: nat :| 2 <= l <= len && EndsInCycle(window, l, reps);
        WindowDecides(pushed, maxLen, reps, l);
      }
      if EndsInSomeCycle(pushed, len, reps) {
        var l: nat :| 2 <= l <= len && EndsInCycle(pushed, l, reps);
        WindowDecides(pushed, maxLen, reps, l);
      }
    }

    static lemma WindowStep(pushed: seq<string>, hash: string, w: nat)
      ensures var grown := Suffix(pushed, w) + [hash];
              Suffix(pushed + [hash], w) == if |grown| > w then grown[1..] else grown
    {
    }

    static lemma WindowAfterPush(before: seq<string>, hash: string, threshold: int, window: seq<string>, w: nat)
      requires window == Suffix(Pushed(before, threshold), w) && RunLength(before + [hash]) < threshold
      ensures var grown := window + [hash];
              Suffix(Pushed(before + [hash], threshold), w) == if |grown| > w then grown[1..] else grown
    {
      PushedStep(before, hash, threshold);
      WindowStep(Pushed(before, threshold), hash, w);
    }

    /** What the window says about cycles holds for everything ever pushed. */
    static lemma CycleReported(pushed: seq<string>, maxLen: nat, reps: nat, cycle: Option<(nat, nat)>)
      requires CycleOf(Suffix(pushed, maxLen * reps), maxLen, reps, cycle)
      ensures ReportsCycle(pushed, maxLen, reps,
                           if cycle.Some? then Some(ToolCallCycle(cycle.value.0, cycle.value.1)) else None)
    {
      if cycle.Some? {
        WindowDecides(pushed, maxLen, reps, cycle.value.0);
        WindowDecidesSome(pushed, maxLen, reps, cycle.value.0 - 1);
      } else {
        WindowDecidesSome(pushed, maxLen, reps, maxLen);
      }
    }

    /** The two steps of the cycle check: push and trim the window, then look for the shortest cycle in it. */
    method PushAndDetect(hash: string, ghost before: seq<string>) returns (r: Option<LoopError>)
      requires calls == before + [hash] && RunLength(calls) < toolCallThreshold
      requires cycleWindow == Suffix(Pushed(before, toolCallThreshold), maxCycleLength * cycleThreshold)
      modifies this`cycleWindow
      ensures cycleWindow == Suffix(Pushed(calls, toolCallThreshold), maxCycleLength * cycleThreshold)
      ensures ReportsCycle(Pushed(calls, toolCallThreshold), maxCycleLength, cycleThreshold, r)
    {
      var maxWindow := maxCycleLength * cycleThreshold;
      WindowAfterPush(before, hash, toolCallThreshold, cycleWindow, maxWindow);
      cycleWindow := cycleWindow + [hash];
      if |cycleWindow| > maxWindow {
        cycleWindow := cycleWindow[1..];
      }
      var cycle := DetectCycle();
      CycleReported(Pushed(calls, toolCallThreshold), maxCycleLength, cycleThreshold, cycle);
      if cycle.Some? {
        return Some(ToolCallCycle(cycle.value.0, cycle.value.1));
      }
      return None;
    }

    method RecordToolCall(hash: string) returns (r: Option<LoopError>)
      requires Valid()
      modifies this
      ensures Valid() && calls == old(calls) + [hash] && contents == old(contents)
      ensures Reports(calls, Pushed(calls, toolCallThreshold), toolCallThreshold, maxCycleLength, cycleThreshold, r)
    {
      hide Pushed, RunLength, EndsInRepeat, Suffix;
      TracksStep(calls, lastToolCallHash, consecutiveToolCallCount, hash);
      if Some(hash) == lastToolCallHash {
        consecutiveToolCallCount := consecutiveToolCallCount + 1;
      } else {
        consecutiveToolCallCount := 1;
        lastToolCallHash := Some(hash);
      }
      calls := calls + [hash];
      RunLengthIsRepeat(calls, toolCallThreshold);
      if consecutiveToolCallCount >= toolCallThreshold {
        PushedStep(old(calls), hash, toolCallThreshold);
        return Some(ToolCallLoop(consecutiveToolCallCount));
      }
      r := PushAndDetect(hash, old(calls));
    }

    method RecordContent(hash: string) returns (r: Option<LoopError>)
      requires Valid()
      modifies this
      ensures Valid() && contents == old(contents) + [hash] && calls == old(calls)
      ensures r == if EndsInRepeat(contents, contentThreshold) then Some(ContentLoop(RunLength(contents))) else None
    {
      hide Pushed, RunLength, EndsInRepeat, Suffix;
      TracksStep(contents, lastContentHash, consecutiveContentCount, hash);
      if Some(hash) == lastContentHash {
        consecutiveContentCount := consecutiveContentCount + 1;
      } else {
        consecutiveContentCount := 1;
        lastContentHash := Some(hash);
      }
      contents := contents + [hash];
      RunLengthIsRepeat(contents, contentThreshold);
      if consecutiveContentCount >= contentThreshold {
        return Some(ContentLoop(consecutiveContentCount));
      }
      return None;
    }
  }

  /** A detector with these settings reports on `h`, of which `pushed` reached its window. */
  ghost predicate Loops(h: seq<string>, pushed: seq<string>, threshold: int, maxLen: nat, reps: nat) {
    h != [] && (EndsInRepeat(h, threshold) || EndsInSomeCycle(pushed, maxLen, reps))
  }

  lemma ReportedIffLoops(h: seq<string>, pushed: seq<string>, threshold: int, maxLen: nat, reps: nat,
                         r: Option<LoopError>)
    requires h != [] && Reports(h, pushed, threshold, maxLen, reps, r)
    ensures r.Some? <==> Loops(h, pushed, threshold, maxLen, reps)
  {
  }

  // ----- the one-shot check of a whole call sequence

  /** The sequence ends in a loop: a repeat, or a cycle of any admissible length. */
  ghost predicate LoopHere(h: seq<string>, threshold: int) {
    Loops(h, h, threshold, MAX_CYCLE_LENGTH, CYCLE_THRESHOLD)
  }

  /** The shortest prefix that ends in a loop has `n` calls. */
  ghost predicate FirstLoop(calls: seq<string>, n: nat, threshold: int)
    requires n <= |calls|
  {
    LoopHere(calls[..n], threshold) && forall m: nat :: m < n ==> NoLoopAt(calls, m, threshold)
  }

  ghost predicate NoLoopUpTo(calls: seq<string>, n: nat, threshold: int)
    requires n <= |calls|
  {
    forall m: nat :: m <= n ==> NoLoopAt(calls, m, threshold)
  }

  ghost predicate NoLoopAt(calls: seq<string>, m: nat, threshold: int)
    requires m <= |calls|
  {
    !LoopHere(calls[..m], threshold)
  }

  lemma FirstLoopStep(calls: seq<string>, i: nat, threshold: int)
    requires i < |calls| && NoLoopUpTo(calls, i, threshold)
    ensures !LoopHere(calls[..i + 1], threshold) ==> NoLoopUpTo(calls, i + 1, threshold)
    ensures LoopHere(calls[..i + 1], threshold) ==> FirstLoop(calls, i + 1, threshold)
  {
  }

  lemma FirstLoopFound(calls: seq<string>, n: nat, threshold: int)
    requires n <= |calls| && FirstLoop(calls, n, threshold)
    ensures !NoLoopUpTo(calls, |calls|, threshold)
  {
    assert !NoLoopAt(calls, n, threshold);
  }

  /** With nothing reported so far, every call reached the window. */
  lemma AllPushedStep(h: seq<string>, hash: string, threshold: int)
    requires Pushed(h, threshold) == h
    ensures !EndsInRepeat(h + [hash], threshold) ==> Pushed(h + [hash], threshold) == h + [hash]
  {
    PushedStep(h, hash, threshold);
    RunLengthIsRepeat(h + [hash], threshold);
  }

  lemma ReportIffLoop(h: seq<string>, pushed: seq<string>, threshold: int, r: Option<LoopError>)
    requires h != [] && Reports(h, pushed, threshold, MAX_CYCLE_LENGTH, CYCLE_THRESHOLD, r)
    requires !EndsInRepeat(h, threshold) ==> pushed == h
    ensures r.Some? <==> LoopHere(h, threshold)
    ensures Reports(h, h, threshold, MAX_CYCLE_LENGTH, CYCLE_THRESHOLD, r)
  {
    ReportedIffLoops(h, h, threshold, MAX_CYCLE_LENGTH, CYCLE_THRESHOLD, r);
  }

  /** So the report on the next call speaks about the calls themselves. */
  lemma OneShotStep(calls: seq<string>, i: nat, threshold: int, r: Option<LoopError>)
    requires i < |calls| && NoLoopUpTo(calls, i, threshold) && Pushed(calls[..i], threshold) == calls[..i]
    requires Reports(calls[..i + 1], Pushed(calls[..i + 1], threshold), threshold, MAX_CYCLE_LENGTH, CYCLE_THRESHOLD, r)
    ensures r == None ==> NoLoopUpTo(calls, i + 1, threshold) && Pushed(calls[..i + 1], threshold) == calls[..i + 1]
    ensures r.Some? ==> FirstLoop(calls, i + 1, threshold)
    ensures Reports(calls[..i + 1], calls[..i + 1], threshold, MAX_CYCLE_LENGTH, CYCLE_THRESHOLD, r)
  {
    hide *;
    assert calls[..i + 1] == calls[..i] + [calls[i]];
    AllPushedStep(calls[..i], calls[i], threshold);
    ReportIffLoop(calls[..i + 1], Pushed(calls[..i + 1], threshold), threshold, r);
    FirstLoopStep(calls, i, threshold);
  }

  /** Non-null exactly when some prefix ends in a loop; the report is about the shortest such prefix. */
  method DetectToolCallLoop(calls: seq<string>, threshold: int) returns (r: Option<LoopError>)
    ensures r == None <==> NoLoopUpTo(calls, |calls|, threshold)
    ensures r.Some? ==> exists n :: 0 < n <= |calls| && FirstLoop(calls, n, threshold) &&
                                    Reports(calls[..n], calls[..n], threshold, MAX_CYCLE_LENGTH, CYCLE_THRESHOLD, r)
  {
    assert NoLoopUpTo(calls, 0, threshold) && Pushed(calls[..0], threshold) == calls[..0];
    hide Pushed, Reports, FirstLoop, LoopHere, Suffix;
    var detector := new LoopDetector(threshold, CONTENT_LOOP_THRESHOLD, CYCLE_THRESHOLD, MAX_CYCLE_LENGTH);
    for i := 0 to |calls|
      invariant detector.Valid() && detector.calls == calls[..i] && fresh(detector)
      invariant NoLoopUpTo(calls, i, threshold) && Pushed(calls[..i], threshold) == calls[..i]
    {
      r := detector.RecordToolCall(calls[i]);
      assert detector.calls == calls[..i + 1];
      OneShotStep(calls, i, threshold, r);
      if r.Some? {
        FirstLoopFound(calls, i + 1, threshold);
        return;
      }
    }
    return None;
  }
}
