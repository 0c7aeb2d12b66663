/** What bounds a run: the budget tracker, the stop engine and the retry loop. */
module RunLimits {
  import opened Prelude
  import opened Conversation
  import opened Detectors

  // ----- budget

  datatype BudgetConfig = BudgetConfig(
    maxTokens: nat, maxCostUsd: real, maxIterations: nat, maxWallclockSeconds: nat,
    inputRate: real, outputRate: real, thinkingRate: real)

  datatype Usage = Usage(input: int, output: int, thinking: int)

  class BudgetTracker {
    const config: BudgetConfig
    var startedAt: Option<int>
    var inputTokens: nat
    var outputTokens: nat
    var thinkingTokens: nat
    var iterations: nat

    constructor (config: BudgetConfig)
      ensures this.config == config
    {
      this.config := config;
    }

    method Reset()
      modifies this
      ensures iterations == 0 && TotalTokens() == 0 && startedAt == None
    {
      startedAt := None;
      inputTokens, outputTokens, thinkingTokens, iterations := 0, 0, 0, 0;
    }

    method Start(now: int)
      modifies this`startedAt
      ensures startedAt == if old(startedAt) == None then Some(now) else old(startedAt)
    {
      if startedAt == None {
        startedAt := Some(now);
      }
    }

    /** A negative count (like NaN in the source) is dropped. */
    method RecordCall(u: Usage, now: int)
      modifies this
      ensures iterations == old(iterations)
      ensures inputTokens == old(inputTokens) + Max(0, u.input)
      ensures outputTokens == old(outputTokens) + Max(0, u.output)
      ensures thinkingTokens == old(thinkingTokens) + Max(0, u.thinking)
      ensures startedAt == if old(startedAt) == None then Some(now) else old(startedAt)
    {
      Start(now);
      if u.input >= 0 {
        inputTokens := inputTokens + u.input;
      }
      if u.output >= 0 {
        outputTokens := outputTokens + u.output;
      }
      if u.thinking >= 0 {
        thinkingTokens := thinkingTokens + u.thinking;
      }
    }

    method RecordIteration(now: int)
      modifies this`iterations, this`startedAt
      ensures iterations == old(iterations) + 1
      ensures startedAt == if old(startedAt) == None then Some(now) else old(startedAt)
    {
      Start(now);
      iterations := iterations + 1;
    }

    function TotalTokens(): nat
      reads this
    {
      inputTokens + outputTokens + thinkingTokens
    }

    function TotalCostUsd(): real
      reads this
    {
      inputTokens as real / 1000000.0 * config.inputRate
      + outputTokens as real / 1000000.0 * config.outputRate
      + thinkingTokens as real / 1000000.0 * config.thinkingRate
    }

    function WallclockSeconds(now: int): int
      reads this
    {
      if startedAt == None then 0 else (now - startedAt.value) / 1000
    }

    /** The check counts the iteration in progress, so it trips one iteration early. */
    predicate Exceeded(now: int)
      reads this
    {
      || TotalTokens() > config.maxTokens
      || TotalCostUsd() > config.maxCostUsd
      || iterations + 1 >= config.maxIterations
      || WallclockSeconds(now) >= config.maxWallclockSeconds
    }
  }

  // ----- the limits, in plain numbers

  /**
   * Room for another iteration: the three token counts together, their cost in millionths,
   * the iterations with the one in progress, and the time since the start are within the limits.
   */
  ghost predicate WithinLimits(b: BudgetTracker, now: int)
    reads b
  {
    && b.inputTokens + b.outputTokens + b.thinkingTokens <= b.config.maxTokens
    && b.inputTokens as real * b.config.inputRate + b.outputTokens as real * b.config.outputRate
       + b.thinkingTokens as real * b.config.thinkingRate <= b.config.maxCostUsd * 1000000.0
    && b.iterations + 1 < b.config.maxIterations
    && (if b.startedAt == None then 0 else now - b.startedAt.value) < 1000 * b.config.maxWallclockSeconds
  }

  lemma Millionths(tokens: real, rate: real)
    ensures tokens / 1000000.0 * rate * 1000000.0 == tokens * rate
  {
    assert tokens / 1000000.0 * 1000000.0 == tokens;
    assert tokens / 1000000.0 * rate * 1000000.0 == tokens / 1000000.0 * 1000000.0 * rate;
  }

  /** The tracker's check is about exactly these limits. */
  lemma ExceededIff(b: BudgetTracker, now: int)
    ensures b.Exceeded(now) <==> !WithinLimits(b, now)
  {
    Millionths(b.inputTokens as real, b.config.inputRate);
    Millionths(b.outputTokens as real, b.config.outputRate);
    Millionths(b.thinkingTokens as real, b.config.thinkingRate);
  }

  // ----- stop engine

  datatype StopReason = Completed | BudgetExceeded | Stalled | Errored | Aborted | LoopDetected

  datatype FinishReason = FinishStop | FinishLength | FinishOther

  datatype Response = Response(
    content: string, thinking: string, toolCalls: seq<ToolCall>, parseFailures: nat,
    usage: Usage, finishReason: FinishReason)

  function Signatures(calls: seq<ToolCall>): (r: seq<string>)
    ensures |r| == |calls|
  {
    seq(|calls|, i requires 0 <= i < |calls| => CallKey(calls[i]))
  }

  class StopEngine {
    const budget: BudgetTracker
    const stallDetector: StallDetector
    const maxParseFailures: nat
    var parseFailures: nat
    var aborted: bool

    constructor (budget: BudgetTracker, stallDetector: StallDetector, maxParseFailures: nat)
      ensures this.budget == budget && this.stallDetector == stallDetector && this.maxParseFailures == maxParseFailures
      ensures parseFailures == 0 && !aborted
    {
      this.budget, this.stallDetector, this.maxParseFailures := budget, stallDetector, maxParseFailures;
      parseFailures, aborted := 0, false;
    }

    method Abort()
      modifies this`aborted
      ensures aborted
    {
      aborted := true;
    }

    method RecordParseFailures(n: nat)
      modifies this`parseFailures
      ensures parseFailures == old(parseFailures) + n
    {
      for i := 0 to n
        invariant parseFailures == old(parseFailures) + i
      {
        parseFailures := parseFailures + 1;
      }
    }

    method ResetParseFailures()
      modifies this`parseFailures
      ensures parseFailures == 0
    {
      parseFailures := 0;
    }

    ghost predicate StallsAt(history: seq<string>, calls: seq<string>, k: nat)
      requires k < |calls|
      reads this
    {
      && stallDetector.threshold <= stallDetector.windowSize
      && EndsInRepeat(history + calls[..k + 1], stallDetector.threshold)
    }

    ghost predicate Stalls(history: seq<string>, calls: seq<string>)
      reads this
    {
      exists k: nat :: k < |calls| && StallsAt(history, calls, k)
    }

    /** The verdict on a response, in order of priority. */
    ghost function Verdict(response: Response, now: int, history: seq<string>): Option<StopReason>
      reads this, budget
    {
      if aborted then Some(Aborted)
      else if response.finishReason == FinishLength then Some(Errored)
      else if response.finishReason == FinishStop && response.toolCalls == [] then Some(Completed)
      else if budget.Exceeded(now) then Some(BudgetExceeded)
      else if Stalls(history, Signatures(response.toolCalls)) then Some(Stalled)
      else if parseFailures >= maxParseFailures then Some(Errored)
      else None
    }

    /** Some call of the response is the last of `threshold` equal ones in a row, and the window can hold as many. */
    ghost predicate RepeatsTooOften(history: seq<string>, calls: seq<string>)
      reads this
    {
      && stallDetector.threshold <= stallDetector.windowSize
      && exists n :: 0 < n <= |calls| && EndsInRepeat(history + calls[..n], stallDetector.threshold)
    }

    /** The response was not cut off, and it is not a final answer. */
    predicate Unfinished(response: Response) {
      response.finishReason != FinishLength && (response.finishReason == FinishStop ==> response.toolCalls != [])
    }

    /** Nothing speaks against another iteration: this is what the loop goes on with. */
    ghost predicate MayContinue(response: Response, now: int, history: seq<string>)
      reads this, budget
    {
      && !aborted && Unfinished(response) && WithinLimits(budget, now) && parseFailures < maxParseFailures
      && !RepeatsTooOften(history, Signatures(response.toolCalls))
    }

    /** Which stop reason stands for what, the earlier conditions masking the later ones. */
    lemma VerdictMeans(response: Response, now: int, history: seq<string>)
      ensures var verdict := Verdict(response, now, history);
              var repeats := RepeatsTooOften(history, Signatures(response.toolCalls));
              && (verdict == None <==> MayContinue(response, now, history))
              && (verdict == Some(Aborted) <==> aborted)
              && (verdict == Some(Completed) <==>
                    !aborted && response.finishReason == FinishStop && response.toolCalls == [])
              && (verdict == Some(BudgetExceeded) <==>
                    !aborted && Unfinished(response) && !WithinLimits(budget, now))
              && (verdict == Some(Stalled) <==>
                    !aborted && Unfinished(response) && WithinLimits(budget, now) && repeats)
              && (verdict == Some(Errored) <==>
                    && !aborted
                    && (|| response.finishReason == FinishLength
                        || (&& Unfinished(response) && WithinLimits(budget, now) && !repeats
                            && parseFailures >= maxParseFailures)))
              && verdict != Some(LoopDetected)
    {
      hide WithinLimits, EndsInRepeat, Signatures;
      ExceededIff(budget, now);
      StallsIff(history, Signatures(response.toolCalls));
    }

    lemma StallsIff(history: seq<string>, calls: seq<string>)
      ensures Stalls(history, calls) <==> RepeatsTooOften(history, calls)
    {
      hide EndsInRepeat;
      if Stalls(history, calls) {
        var k: nat :| k < |calls| && StallsAt(history, calls, k);
        assert EndsInRepeat(history + calls[..k + 1], stallDetector.threshold);
      }
      if RepeatsTooOften(history, calls) {
        var n :| 0 < n <= |calls| && EndsInRepeat(history + calls[..n], stallDetector.threshold);
        assert StallsAt(history, calls, n - 1);
      }
    }

    /** The conditions in their order; the calls are shown to the stall detector up to the first that stalls. */
    method Check(response: Response, now: int) returns (stop: Option<StopReason>)
      requires stallDetector.Valid()
      modifies stallDetector
      ensures stallDetector.Valid()
      ensures stop == Verdict(response, now, old(stallDetector.history))
      ensures stop == None <==> MayContinue(response, now, old(stallDetector.history))
      ensures stop == Some(Aborted) <==> aborted
      ensures stop == Some(Completed) <==>
              !aborted && response.finishReason == FinishStop && response.toolCalls == []
      ensures stop == Some(BudgetExceeded) <==> !aborted && Unfinished(response) && !WithinLimits(budget, now)
      ensures stop == Some(Stalled) <==>
                && !aborted && Unfinished(response) && WithinLimits(budget, now)
                && RepeatsTooOften(old(stallDetector.history), Signatures(response.toolCalls))
      ensures !aborted && response.finishReason == FinishLength ==> stop == Some(Errored)
      ensures stop == Some(Errored) ==> response.finishReason == FinishLength || parseFailures >= maxParseFailures
      ensures stop == None ==> stallDetector.history == old(stallDetector.history) + Signatures(response.toolCalls)
    {
      hide WithinLimits, EndsInRepeat, BudgetTracker.Exceeded, RepeatsTooOften;
      VerdictMeans(response, now, stallDetector.history);
      if aborted {
        return Some(Aborted);
      }
      if response.finishReason == FinishLength {
        return Some(Errored);
      }
      if response.finishReason == FinishStop && response.toolCalls == [] {
        return Some(Completed);
      }
      if budget.Exceeded(now) {
        return Some(BudgetExceeded);
      }
      var sigs := Signatures(response.toolCalls);
      ghost var h := stallDetector.history;
      for i := 0 to |response.toolCalls|
        invariant stallDetector.Valid() && stallDetector.history == h + sigs[..i]
        invariant forall k: nat :: k < i ==> !StallsAt(h, sigs, k)
      {
        var stalled := stallDetector.RecordAndCheck(sigs[i]);
        assert h + sigs[..i + 1] == h + sigs[..i] + [sigs[i]];
        if stalled {
          assert StallsAt(h, sigs, i);
          return Some(Stalled);
        }
      }
      assert sigs[..|sigs|] == sigs;
      if parseFailures >= maxParseFailures {
        return Some(Errored);
      }
      return None;
    }
  }

  // ----- retry

  datatype Attempt<T> = Succeeds(value: T) | Fails(retryable: bool)

  datatype RetryConfig = RetryConfig(maxRetries: nat, initialBackoff: real, multiplier: real, maxBackoff: real,
    jitter: real)

  function Pow(b: real, e: nat): real {
    if e == 0 then 1.0 else b * Pow(b, e - 1)
  }

  function BaseDelay(cfg: RetryConfig, attempt: nat): real {
    var grown := cfg.initialBackoff * Pow(cfg.multiplier, attempt);
    if cfg.maxBackoff <= grown then cfg.maxBackoff else grown
  }

  /** The delay before retry `attempt + 1`, with `random` drawn from [0, 1). */
  function Delay(cfg: RetryConfig, attempt: nat, random: real): int {
    JitteredDelay(BaseDelay(cfg, attempt), cfg.jitter, random)
  }

  function JitteredDelay(base: real, jitter: real, random: real): int {
    var floor := JitterFloor(base, jitter);
    WholeDelay(floor + Share(base - floor, random))
  }

  function Share(amount: real, share: real): real {
    share * amount
  }

  function JitterFloor(base: real, jitter: real): real {
    Share(base, 1.0 - jitter)
  }

  function WholeDelay(delay: real): int {
    if delay.Floor >= 0 then delay.Floor else 1000
  }

  lemma {:induction false} PowNonNegative(b: real, e: nat)
    requires b >= 0.0
    ensures Pow(b, e) >= 0.0
  {
    if e > 0 {
      PowNonNegative(b, e - 1);
    }
  }

  lemma ProductNonNegative(a: real, b: real)
    requires a >= 0.0 && b >= 0.0
    ensures a * b >= 0.0
  {
  }

  /** A share of a non-negative amount lies between nothing and all of it. */
  lemma ShareBounds(amount: real, share: real)
    requires amount >= 0.0 && 0.0 <= share <= 1.0
    ensures 0.0 <= Share(amount, share) <= amount
  {
    ProductNonNegative(share, amount);
    ProductNonNegative(1.0 - share, amount);
    assert (1.0 - share) * amount == amount - share * amount;
  }

  /** For configurations the schema admits, every delay lies between the jitter floor and the capped base. */
  lemma DelayBounds(cfg: RetryConfig, attempt: nat, random: real)
    requires cfg.initialBackoff > 0.0 && cfg.multiplier > 0.0 && cfg.maxBackoff > 0.0 && 0.0 <= cfg.jitter <= 1.0
    requires 0.0 <= random < 1.0
    ensures ((1.0 - cfg.jitter) * BaseDelay(cfg, attempt)).Floor <= Delay(cfg, attempt, random)
    ensures Delay(cfg, attempt, random) as real <= BaseDelay(cfg, attempt) <= cfg.maxBackoff
  {
    BaseNonNegative(cfg, attempt);
    JitteredDelayBounds(BaseDelay(cfg, attempt), cfg.jitter, random);
  }

  /** The formula that the documentation gives: the base times one minus a random share of the jitter. */
  function DocumentedDelay(base: real, jitter: real, random: real): real {
    base * (1.0 - jitter * random)
  }

  /** Every delay is what the documentation says, rounded down, with `1 - random` for its random number. */
  lemma DelayFormula(cfg: RetryConfig, attempt: nat, random: real)
    requires cfg.initialBackoff > 0.0 && cfg.multiplier > 0.0 && cfg.maxBackoff > 0.0 && 0.0 <= cfg.jitter <= 1.0
    requires 0.0 <= random < 1.0
    ensures Delay(cfg, attempt, random) == DocumentedDelay(BaseDelay(cfg, attempt), cfg.jitter, 1.0 - random).Floor
  {
    hide BaseDelay, JitteredDelay, DocumentedDelay;
    BaseNonNegative(cfg, attempt);
    JitteredFormula(BaseDelay(cfg, attempt), cfg.jitter, random);
  }

  lemma JitteredFormula(base: real, jitter: real, random: real)
    requires base >= 0.0 && 0.0 <= jitter <= 1.0 && 0.0 <= random < 1.0
    ensures JitteredDelay(base, jitter, random) == DocumentedDelay(base, jitter, 1.0 - random).Floor
  {
    hide WholeDelay, Share, DocumentedDelay;
    var delay := DocumentedDelay(base, jitter, 1.0 - random);
    SameDelay(base, jitter, random);
    WholeOfNonNegative(delay);
  }

  lemma SameDelay(base: real, jitter: real, random: real)
    requires base >= 0.0 && 0.0 <= jitter <= 1.0 && 0.0 <= random < 1.0
    ensures var floor := JitterFloor(base, jitter);
            floor + Share(base - floor, random) == DocumentedDelay(base, jitter, 1.0 - random) >= 0.0
  {
    var floor := JitterFloor(base, jitter);
    assert floor == base - base * jitter;
    assert Share(base - floor, random) == random * (base * jitter) == base * (jitter * random);
    ShareBounds(1.0 - random, jitter);
    ProductNonNegative(base, 1.0 - jitter * (1.0 - random));
  }

  lemma WholeOfNonNegative(delay: real)
    requires delay >= 0.0
    ensures WholeDelay(delay) == delay.Floor
  {
  }

  /** The delays before jitter: the initial one, multiplied from retry to retry up to the cap. */
  lemma BackoffGrows(cfg: RetryConfig, attempt: nat)
    requires cfg.initialBackoff > 0.0 && cfg.multiplier >= 1.0 && cfg.maxBackoff > 0.0
    ensures BaseDelay(cfg, 0) == if cfg.maxBackoff <= cfg.initialBackoff then cfg.maxBackoff else cfg.initialBackoff
    ensures var next := cfg.multiplier * BaseDelay(cfg, attempt);
            BaseDelay(cfg, attempt + 1) == if cfg.maxBackoff <= next then cfg.maxBackoff else next
  {
    hide Pow;
    PowStep(cfg.multiplier, attempt);
    ProductCommutes(cfg.initialBackoff, cfg.multiplier, Pow(cfg.multiplier, attempt));
    var grown := cfg.initialBackoff * Pow(cfg.multiplier, attempt);
    if cfg.maxBackoff <= grown {
      CappedProduct(cfg.multiplier, grown, cfg.maxBackoff);
    }
  }

  lemma PowStep(b: real, e: nat)
    ensures Pow(b, 0) == 1.0 && Pow(b, e + 1) == b * Pow(b, e)
  {
  }

  lemma ProductCommutes(a: real, b: real, c: real)
    ensures a * (b * c) == b * (a * c)
  {
  }

  lemma CappedProduct(factor: real, x: real, cap: real)
    requires factor >= 1.0 && cap > 0.0 && cap <= x
    ensures factor * x >= cap && factor * cap >= cap
  {
    GrowsBy(factor, x);
    GrowsBy(factor, cap);
  }

  lemma GrowsBy(factor: real, x: real)
    requires factor >= 1.0
    ensures x > 0.0 ==> factor * x >= x
  {
  }

  lemma JitteredDelayBounds(base: real, jitter: real, random: real)
    requires base >= 0.0 && 0.0 <= jitter <= 1.0 && 0.0 <= random < 1.0
    ensures JitterFloor(base, jitter).Floor <= JitteredDelay(base, jitter, random)
    ensures JitteredDelay(base, jitter, random) as real <= base
  {
    hide Share, WholeDelay;
    var floor := JitterFloor(base, jitter);
    ShareBounds(base, 1.0 - jitter);
    ShareBounds(base - floor, random);
    WholeDelayBounds(floor, floor + Share(base - floor, random), base);
  }

  lemma BaseNonNegative(cfg: RetryConfig, attempt: nat)
    requires cfg.initialBackoff > 0.0 && cfg.multiplier > 0.0 && cfg.maxBackoff > 0.0
    ensures 0.0 <= BaseDelay(cfg, attempt) <= cfg.maxBackoff
  {
    PowNonNegative(cfg.multiplier, attempt);
    ProductNonNegative(cfg.initialBackoff, Pow(cfg.multiplier, attempt));
  }

  lemma WholeDelayBounds(floor: real, delay: real, base: real)
    requires 0.0 <= floor <= delay <= base
    ensures floor.Floor <= WholeDelay(delay)
    ensures WholeDelay(delay) as real <= base
  {
  }

  /** Attempt `k` is made: every one before it failed and may be retried. */
  ghost predicate Reached<T>(outcome: nat -> Attempt<T>, k: nat) {
    forall j: nat :: j < k ==> outcome(j) == Fails(true)
  }

  /**
   * `outcome(k)` is what attempt `k` does. The result is the outcome of the last
   * attempt made, and it was the last for one of three reasons.
   */
  method CallWithRetry<T>(outcome: nat -> Attempt<T>, random: nat -> real, cfg: RetryConfig)
    returns (result: Attempt<T>, attempts: nat, delays: seq<int>)
    ensures 1 <= attempts <= cfg.maxRetries + 1
    ensures Reached(outcome, attempts - 1) && result == outcome(attempts - 1)
    ensures result.Succeeds? || !result.retryable || attempts == cfg.maxRetries + 1
    ensures |delays| == attempts - 1 && forall k :: 0 <= k < |delays| ==> delays[k] == Delay(cfg, k, random(k))
  {
    attempts, delays := 1, [];
    var attempt := 0;
    while attempt <= cfg.maxRetries
      invariant attempt <= cfg.maxRetries
      invariant Reached(outcome, attempt)
      invariant |delays| == attempt && forall k :: 0 <= k < |delays| ==> delays[k] == Delay(cfg, k, random(k))
    {
      result := outcome(attempt);
      if result.Succeeds? {
        return result, attempt + 1, delays;
      }
      if !result.retryable {
        return result, attempt + 1, delays;
      }
      if attempt >= cfg.maxRetries {
        return result, attempt + 1, delays;
      }
      delays := delays + [Delay(cfg, attempt, random(attempt))];
      attempt := attempt + 1;
    }
    assert false;
  }
}
