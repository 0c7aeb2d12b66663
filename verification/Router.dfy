/**
 * The three-axis router: the sensitivity gate, the complexity rules, and the
 * cascade over the deployments that the breakers admit.
 */
module Router {
  import opened Prelude
  import opened B = Breaker

  type Id = DeploymentId

  datatype Tag = Public | Internal | Restricted | Pii

  datatype Gating = Redact | LocalOnly | Off

  datatype Scores = Scores(code: int, reasoning: int, retrieval: int, toolUse: int, multimodal: int,
    contextLength: int, tokenEstimate: nat)

  function ContextWindow(id: Id): nat {
    if id == Fast || id == Cloud then 128000 else 32000
  }

  // ----- axis 1: sensitivity

  /** Any PII tag wins, then any restricted tag; otherwise the request is public. */
  method CombineTags(tags: seq<Tag>) returns (combined: Tag)
    ensures combined == Combined(tags)
  {
    combined := Public;
    for i := 0 to |tags|
      invariant combined == Combined(tags[..i])
    {
      assert tags[..i + 1] == tags[..i] + [tags[i]];
      if tags[i] == Pii {
        combined := Pii;
      } else if tags[i] == Restricted && combined != Pii {
        combined := Restricted;
      }
    }
    assert tags[..|tags|] == tags;
  }

  function Combined(tags: seq<Tag>): Tag {
    if Pii in tags then Pii else if Restricted in tags then Restricted else Public
  }

  function CloudAllowed(gating: Gating, tag: Tag): bool {
    gating == Off || (tag != Pii && tag != Restricted)
  }

  // ----- axis 2: complexity

  function PickPrimary(s: Scores): Id {
    if s.contextLength >= 5 && s.tokenEstimate > 128000 then Cloud
    else if s.multimodal >= 5 then Fast
    else if s.contextLength >= 5 then Fast
    else if s.toolUse >= 3 && s.reasoning >= 2 then Cloud
    else if s.reasoning >= 3 && s.toolUse < 3 then Cloud
    else if s.code >= 3 then Coder
    else if s.retrieval >= 2 then General
    else if s.reasoning >= 1 then General
    else Orchestrator
  }

  /** Reasoning that the cloud is wanted for, whatever the tools. */
  predicate HardReasoning(s: Scores) {
    s.reasoning >= 3 || (s.reasoning == 2 && s.toolUse >= 3)
  }

  /**
   * Which scores pick which primary: long contexts get a large window, media the fast
   * model, hard reasoning the cloud, then code and retrieval their specialists.
   */
  lemma PrimaryByScores(s: Scores)
    ensures var long, media := s.contextLength >= 5, s.multimodal >= 5;
            var huge := long && s.tokenEstimate > 128000;
            var picked := PickPrimary(s);
            && (long ==> ContextWindow(picked) == 128000)
            && (picked == Cloud <==> huge || (!long && !media && HardReasoning(s)))
            && (picked == Fast <==> !huge && (long || media))
            && (picked == Coder <==> !long && !media && !HardReasoning(s) && s.code >= 3)
            && (picked == Orchestrator <==>
                  !long && !media && s.code <= 2 && s.retrieval <= 1 && s.reasoning <= 0)
  {
  }

  function Without(ids: seq<Id>, id: Id): seq<Id> {
    if ids == [] then [] else (if ids[0] == id then [] else [ids[0]]) + Without(ids[1..], id)
  }

  function BuildFallbackChain(primary: Id, tag: Tag): seq<Id> {
    if tag == Public || tag == Internal then Without([Cloud, Orchestrator, General, Fast, Coder], primary)
    else Without([Orchestrator, General, Fast], primary)
  }

  // ----- axis 3: availability, on the states of the breakers

  type States = map<Id, B.State>

  ghost predicate Total(s: States) {
    forall id: Id :: id in s
  }

  /** The entries of the chain that are admitted, in order; `clock(i)` is read for entry `i`. */
  function Eligible(s: States, chain: seq<Id>, n: nat, clock: nat -> int, cfg: B.Config): seq<Id>
    requires n <= |chain|
  {
    if n == 0 then []
    else
      var before := StatesAfterFilter(s, chain, n - 1, clock, cfg);
      var id := chain[n - 1];
      Eligible(s, chain, n - 1, clock, cfg)
      + if id in before && B.Admitted(before[id], clock(n - 1), cfg) then [id] else []
  }

  function StatesAfterFilter(s: States, chain: seq<Id>, n: nat, clock: nat -> int, cfg: B.Config): States
    requires n <= |chain|
  {
    if n == 0 then s
    else
      var before := StatesAfterFilter(s, chain, n - 1, clock, cfg);
      var id := chain[n - 1];
      if id in before then before[id := B.AfterAdmission(before[id], clock(n - 1), cfg)] else before
  }

  /** Everything one call depends on; `succeeds` says which deployments answer. */
  datatype Request = Request(tags: seq<Tag>, scores: Scores, gating: Gating, succeeds: Id -> bool, clock: nat -> int)

  function Primary(r: Request): Id {
    var picked := PickPrimary(r.scores);
    if picked == Cloud && !CloudAllowed(r.gating, Combined(r.tags)) then Orchestrator else picked
  }

  function Chain(r: Request): seq<Id> {
    BuildFallbackChain(Primary(r), if r.gating == Off then Public else Combined(r.tags))
  }

  /** The chain is filtered first, then the primary is asked; an admitted primary goes first. */
  function OrderOf(s: States, primary: Id, chain: seq<Id>, clock: nat -> int, cfg: B.Config): seq<Id> {
    var after := StatesAfterFilter(s, chain, |chain|, clock, cfg);
    var eligible := Eligible(s, chain, |chain|, clock, cfg);
    if primary in after && B.Admitted(after[primary], clock(|chain|), cfg) then [primary] + eligible else eligible
  }

  function StatesAfterOrder(s: States, primary: Id, chain: seq<Id>, clock: nat -> int, cfg: B.Config): States {
    var after := StatesAfterFilter(s, chain, |chain|, clock, cfg);
    if primary in after then after[primary := B.AfterAdmission(after[primary], clock(|chain|), cfg)] else after
  }

  function TryOrder(s: States, r: Request, cfg: B.Config): seq<Id> {
    OrderOf(s, Primary(r), Chain(r), r.clock, cfg)
  }

  function AdmittedStates(s: States, r: Request, cfg: B.Config): States {
    StatesAfterOrder(s, Primary(r), Chain(r), r.clock, cfg)
  }

  function Fits(r: Request, id: Id): bool {
    !(id == Cloud && !CloudAllowed(r.gating, Combined(r.tags))) && r.scores.tokenEstimate <= ContextWindow(id)
  }

  /** The server is at position `k`: it fits and answers, and no fitting entry before it answers. */
  ghost predicate ServedAt(order: seq<Id>, r: Request, k: nat) {
    k < |order| && Fits(r, order[k]) && r.succeeds(order[k]) && NoneServes(order, r, k)
  }

  ghost predicate NoneServes(order: seq<Id>, r: Request, n: nat) {
    forall j :: 0 <= j < n && j < |order| && Fits(r, order[j]) ==> !r.succeeds(order[j])
  }

  /** What the first `n` entries leave behind, none of them serving: a failure for each that fits. */
  function AfterFailures(s: States, order: seq<Id>, r: Request, n: nat, cfg: B.Config): States
    requires n <= |order|
  {
    if n == 0 then s
    else
      var before := AfterFailures(s, order, r, n - 1, cfg);
      var id := order[n - 1];
      if Fits(r, id) && id in before then before[id := B.AfterFailure(before[id], r.clock(n - 1 + 6), cfg)] else before
  }

  datatype Outcome = Outcome(servedBy: Option<Id>, attempted: seq<Id>)

  /** The fitting entries among the first `n`. */
  function FittingPrefix(order: seq<Id>, r: Request, n: nat): seq<Id>
    requires n <= |order|
  {
    if n == 0 then [] else FittingPrefix(order, r, n - 1) + if Fits(r, order[n - 1]) then [order[n - 1]] else []
  }

  /**
   * What a cascade from `s` leads to: entries are tried in order, and `k` is where
   * it ended, at the server or at the end of the order.
   */
  ghost predicate Cascaded(s: States, s': States, order: seq<Id>, r: Request, o: Outcome, k: nat, cfg: B.Config) {
    && k <= |order| && NoneServes(order, r, k)
    && match o.servedBy
       case None =>
         k == |order| && s' == AfterFailures(s, order, r, k, cfg) && o.attempted == FittingPrefix(order, r, k)
       case Some(id) =>
         && ServedAt(order, r, k) && id == order[k]
         && s' == AfterFailures(s, order, r, k, cfg)[id := B.INITIAL]
         && o.attempted == FittingPrefix(order, r, k) + [id]
  }

  ghost predicate Called(s: States, s': States, r: Request, o: Outcome, k: nat, cfg: B.Config) {
    Cascaded(AdmittedStates(s, r, cfg), s', TryOrder(s, r, cfg), r, o, k, cfg)
  }

  /** The cascade has got to entry `i` without a server. */
  ghost predicate Cascading(s: States, s': States, order: seq<Id>, r: Request, attempted: seq<Id>, i: nat,
                            cfg: B.Config) {
    && i <= |order| && NoneServes(order, r, i)
    && s' == AfterFailures(s, order, r, i, cfg) && attempted == FittingPrefix(order, r, i)
  }

  lemma CascadeStep(s: States, s': States, order: seq<Id>, r: Request, attempted: seq<Id>, i: nat, cfg: B.Config)
    requires Total(s') && i < |order| && Cascading(s, s', order, r, attempted, i, cfg)
    ensures !Fits(r, order[i]) ==> Cascading(s, s', order, r, attempted, i + 1, cfg)
    ensures Fits(r, order[i]) && !r.succeeds(order[i]) ==>
              Cascading(s, s'[order[i] := B.AfterFailure(s'[order[i]], r.clock(i + 6), cfg)], order, r,
                attempted + [order[i]], i + 1, cfg)
    ensures Fits(r, order[i]) && r.succeeds(order[i]) ==>
              Cascaded(s, s'[order[i] := B.INITIAL], order, r, Outcome(Some(order[i]), attempted + [order[i]]), i, cfg)
  {
  }

  class LocalLlmsRouter {
    const cfg: B.Config
    const deployments: map<Id, B.Deployment>

    ghost predicate Valid() {
      && (forall id: Id :: id in deployments)
      && (forall id | id in deployments ::
            && deployments[id].id == id
            && deployments[id].contextWindow == ContextWindow(id) && deployments[id].isCloud == (id == Cloud))
    }

    ghost function Pool(): set<object> {
      set id | id in deployments :: deployments[id]
    }

    ghost function States(): States
      reads Pool()
    {
      map id | id in deployments :: deployments[id].Breaker()
    }

    constructor (cfg: B.Config)
      ensures Valid() && this.cfg == cfg && fresh(Pool())
      ensures States() == map id | id in deployments :: B.INITIAL
    {
      var orchestrator := new B.Deployment(Orchestrator, 32000, false);
      var coder := new B.Deployment(Coder, 32000, false);
      var general := new B.Deployment(General, 32000, false);
      var fast := new B.Deployment(Fast, 128000, false);
      var cloud := new B.Deployment(Cloud, 128000, true);
      this.cfg := cfg;
      deployments := map[Orchestrator := orchestrator, Coder := coder, General := general, Fast := fast,
        Cloud := cloud];
      new;
      forall id: Id
        ensures id in deployments && deployments[id].id == id && deployments[id].contextWindow == ContextWindow(id) &&
                deployments[id].isCloud == (id == Cloud)
        ensures deployments[id].Breaker() == B.INITIAL
      {
        match id
        case Orchestrator =>
        case Coder =>
        case General =>
        case Fast =>
        case Cloud =>
      }
    }

    method IsAvailable(id: Id, now: int) returns (available: bool)
      requires Valid()
      modifies Pool()
      ensures available == B.Admitted(old(States())[id], now, cfg)
      ensures States() == old(States())[id := B.AfterAdmission(old(States())[id], now, cfg)]
    {
      available := deployments[id].IsAvailable(now, cfg);
    }

    method RecordFailure(id: Id, now: int)
      requires Valid()
      modifies Pool()
      ensures States() == old(States())[id := B.AfterFailure(old(States())[id], now, cfg)]
    {
      deployments[id].RecordFailure(now, cfg);
    }

    method RecordSuccess(id: Id, now: int)
      requires Valid()
      modifies Pool()
      ensures States() == old(States())[id := B.AfterSuccess(old(States())[id])]
    {
      deployments[id].RecordSuccess(now);
    }

    method FilterChain(chain: seq<Id>, clock: nat -> int) returns (eligible: seq<Id>)
      requires Valid()
      modifies Pool()
      ensures eligible == Eligible(old(States()), chain, |chain|, clock, cfg)
      ensures States() == StatesAfterFilter(old(States()), chain, |chain|, clock, cfg)
      ensures Ascending(chain) ==> Ascending(eligible)
    {
      if Ascending(chain) {
        EligibleAscending(old(States()), chain, clock, cfg);
      }
      eligible := [];
      for i := 0 to |chain|
        invariant eligible == Eligible(old(States()), chain, i, clock, cfg)
        invariant States() == StatesAfterFilter(old(States()), chain, i, clock, cfg)
      {
        var available := IsAvailable(chain[i], clock(i));
        if available {
          eligible := eligible + [chain[i]];
        }
      }
    }

    /** The entries are tried in order until one that fits answers. */
    method Cascade(order: seq<Id>, r: Request) returns (o: Outcome, ghost k: nat)
      requires Valid()
      modifies Pool()
      ensures Cascaded(old(States()), States(), order, r, o, k, cfg)
    {
      var attempted: seq<Id> := [];
      k := 0;
      for i := 0 to |order|
        invariant k == i && Cascading(old(States()), States(), order, r, attempted, i, cfg)
      {
        CascadeStep(old(States()), States(), order, r, attempted, i, cfg);
        var id := order[i];
        var dep := deployments[id];
        if (dep.isCloud && !CloudAllowed(r.gating, Combined(r.tags))) || r.scores.tokenEstimate > dep.contextWindow {
        } else {
          attempted := attempted + [id];
          if r.succeeds(id) {
            RecordSuccess(id, r.clock(i + 6));
            return Outcome(Some(id), attempted), i;
          }
          RecordFailure(id, r.clock(i + 6));
        }
        k := i + 1;
      }
      o := Outcome(None, attempted);
    }

    method Call(r: Request) returns (o: Outcome, ghost k: nat)
      requires Valid()
      modifies Pool()
      ensures Called(old(States()), States(), r, o, k, cfg)
      ensures BestServes(TryOrder(old(States()), r, cfg), r, o.servedBy)
    {
      hide BestServes, Cascaded, Eligible, StatesAfterFilter, B.Admitted, B.AfterAdmission, PickPrimary, CloudAllowed,
        BuildFallbackChain, Combined;
      var sensitivity := CombineTags(r.tags);
      var cloudAllowed := CloudAllowed(r.gating, sensitivity);
      var primary := PickPrimary(r.scores);
      if primary == Cloud && !cloudAllowed {
        primary := Orchestrator;
      }
      var chain := BuildFallbackChain(primary, if r.gating == Off then Public else sensitivity);
      var eligible := FilterChain(chain, r.clock);
      var primaryAvailable := IsAvailable(primary, r.clock(|chain|));
      var order := if primaryAvailable then [primary] + eligible else eligible;
      o, k := Cascade(order, r);
      ServedByBest(old(States()), States(), r, o, k, cfg);
    }
  }

  // ----- what a call does, for all scores and breaker states

  ghost predicate Distinct(ids: seq<Id>) {
    forall i, j :: 0 <= i < j < |ids| ==> ids[i] != ids[j]
  }

  lemma {:induction false} WithoutDistinct(ids: seq<Id>, id: Id)
    requires Distinct(ids)
    ensures Distinct(Without(ids, id))
    ensures forall x :: x in Without(ids, id) <==> x in ids && x != id
  {
    if ids != [] {
      var tail := ids[1..];
      assert forall i :: 0 <= i < |tail| ==> tail[i] == ids[i + 1];
      WithoutDistinct(tail, id);
      assert ids == [ids[0]] + tail && ids[0] !in tail;
    }
  }

  lemma OrdersDistinct()
    ensures Distinct([Cloud, Orchestrator, General, Fast, Coder]) && Distinct([Orchestrator, General, Fast])
    ensures Cloud !in [Orchestrator, General, Fast]
  {
  }

  /** How far back in the cascade a fallback stands. */
  function Rank(id: Id): nat {
    match id
    case Cloud => 0
    case Orchestrator => 1
    case General => 2
    case Fast => 3
    case Coder => 4
  }

  ghost predicate Ascending(ids: seq<Id>) {
    forall i, j :: 0 <= i < j < |ids| ==> Rank(ids[i]) < Rank(ids[j])
  }

  /** All ranks are above `low`. */
  ghost predicate Above(ids: seq<Id>, low: int) {
    forall k :: 0 <= k < |ids| ==> low < Rank(ids[k])
  }

  lemma {:induction false} WithoutAscending(ids: seq<Id>, id: Id, low: int)
    requires Ascending(ids) && Above(ids, low)
    ensures Ascending(Without(ids, id)) && Above(Without(ids, id), low)
  {
    hide Rank, Ascending;
    if ids == [] {
      assert Without(ids, id) == ids;
    } else {
      TailAscending(ids);
      WithoutAscending(ids[1..], id, Rank(ids[0]));
      LeastFirst(ids[0], Without(ids[1..], id));
    }
  }

  lemma TailAscending(ids: seq<Id>)
    requires Ascending(ids) && ids != []
    ensures Ascending(ids[1..]) && Above(ids[1..], Rank(ids[0]))
  {
    hide Rank;
    var tail := ids[1..];
    assert forall i :: 0 <= i < |tail| ==> tail[i] == ids[i + 1];
  }

  lemma LeastFirst(first: Id, rest: seq<Id>)
    requires Ascending(rest) && Above(rest, Rank(first))
    ensures Ascending([first] + rest) && [] + rest == rest
  {
    hide Rank;
    var ids := [first] + rest;
    assert forall k :: 0 < k < |ids| ==> ids[k] == rest[k - 1];
  }

  /** The request may leave the machine: gating is off, or no message is tagged PII or restricted. */
  predicate Unrestricted(r: Request) {
    r.gating == Off || (Pii !in r.tags && Restricted !in r.tags)
  }

  /**
   * The fallbacks of a request, in cascade order: every deployment but the primary, or
   * only orchestrator, general and fast if the request may not leave the machine.
   */
  lemma ChainMembers(r: Request)
    ensures Ascending(Chain(r))
    ensures forall id: Id ::
              id in Chain(r) <==>
              id != Primary(r) && (Unrestricted(r) || id == Orchestrator || id == General || id == Fast)
  {
    hide Distinct, PickPrimary, Ascending, Without, Rank;
    OrdersDistinct();
    OrdersAscending();
    WithoutDistinct([Cloud, Orchestrator, General, Fast, Coder], Primary(r));
    WithoutDistinct([Orchestrator, General, Fast], Primary(r));
    WithoutAscending([Cloud, Orchestrator, General, Fast, Coder], Primary(r), -1);
    WithoutAscending([Orchestrator, General, Fast], Primary(r), -1);
    forall id: Id {
      CascadeHoldsAll(id);
    }
  }

  lemma OrdersAscending()
    ensures Ascending([Cloud, Orchestrator, General, Fast, Coder]) && Ascending([Orchestrator, General, Fast])
  {
  }

  lemma CascadeHoldsAll(id: Id)
    ensures id in [Cloud, Orchestrator, General, Fast, Coder]
    ensures id in [Orchestrator, General, Fast] <==> id == Orchestrator || id == General || id == Fast
  {
    var order := [Cloud, Orchestrator, General, Fast, Coder];
    assert order[0] == Cloud && order[1] == Orchestrator && order[2] == General && order[3] == Fast;
    assert order[4] == Coder;
    match id
    case Cloud =>
    case Orchestrator =>
    case General =>
    case Fast =>
    case Coder =>
  }

  lemma ChainFacts(r: Request)
    ensures Distinct(Chain(r)) && Primary(r) !in Chain(r) && |Chain(r)| <= 5
    ensures !CloudAllowed(r.gating, Combined(r.tags)) ==> Cloud !in Chain(r) && Primary(r) != Cloud
    ensures var picked := PickPrimary(r.scores);
            if picked == Cloud && !Unrestricted(r) then Primary(r) == Orchestrator else Primary(r) == picked
  {
    hide Distinct, PickPrimary;
    OrdersDistinct();
    WithoutDistinct([Cloud, Orchestrator, General, Fast, Coder], Primary(r));
    WithoutDistinct([Orchestrator, General, Fast], Primary(r));
  }

  lemma {:induction false} FilterMiss(s: States, chain: seq<Id>, n: nat, clock: nat -> int, cfg: B.Config, id: Id)
    requires Total(s) && n <= |chain| && id !in chain[..n]
    ensures Total(StatesAfterFilter(s, chain, n, clock, cfg)) && StatesAfterFilter(s, chain, n, clock, cfg)[id] == s[id]
    ensures id !in Eligible(s, chain, n, clock, cfg)
  {
    if n > 0 {
      assert chain[..n] == chain[..n - 1] + [chain[n - 1]];
      FilterMiss(s, chain, n - 1, clock, cfg, id);
    }
  }

  lemma {:induction false} FilterTotal(s: States, chain: seq<Id>, n: nat, clock: nat -> int, cfg: B.Config)
    requires Total(s) && n <= |chain|
    ensures Total(StatesAfterFilter(s, chain, n, clock, cfg))
  {
    if n > 0 {
      FilterTotal(s, chain, n - 1, clock, cfg);
    }
  }

  /**
   * Filtering asks each entry of a chain once: whether it is admitted, and what becomes
   * of it, depend on its own breaker alone.
   */
  lemma {:induction false} FilterHit(s: States, chain: seq<Id>, n: nat, clock: nat -> int, cfg: B.Config, i: nat)
    requires Total(s) && Distinct(chain) && i < n <= |chain|
    ensures Total(StatesAfterFilter(s, chain, n, clock, cfg))
    ensures StatesAfterFilter(s, chain, n, clock, cfg)[chain[i]] == B.AfterAdmission(s[chain[i]], clock(i), cfg)
    ensures chain[i] in Eligible(s, chain, n, clock, cfg) <==> B.Admitted(s[chain[i]], clock(i), cfg)
  {
    FilterTotal(s, chain, n - 1, clock, cfg);
    if i == n - 1 {
      FilterMiss(s, chain, n - 1, clock, cfg, chain[i]);
    } else {
      FilterHit(s, chain, n - 1, clock, cfg, i);
    }
  }

  lemma {:induction false} EligibleDistinct(s: States, chain: seq<Id>, n: nat, clock: nat -> int, cfg: B.Config)
    requires Total(s) && Distinct(chain) && n <= |chain|
    ensures Distinct(Eligible(s, chain, n, clock, cfg))
  {
    if n > 0 {
      EligibleDistinct(s, chain, n - 1, clock, cfg);
      FilterMiss(s, chain, n - 1, clock, cfg, chain[n - 1]);
    }
  }

  /** Filtering keeps the order of the chain: entry `k` comes from position `a`, and later entries from later ones. */
  lemma {:induction false} EligibleOrigin(s: States, chain: seq<Id>, n: nat, clock: nat -> int, cfg: B.Config, k: nat)
    returns (a: nat)
    requires n <= |chain| && k < |Eligible(s, chain, n, clock, cfg)|
    ensures a < n && Eligible(s, chain, n, clock, cfg)[k] == chain[a]
    ensures |Eligible(s, chain, a, clock, cfg)| == k
    ensures Eligible(s, chain, n, clock, cfg)[..k] == Eligible(s, chain, a, clock, cfg)
  {
    if k < |Eligible(s, chain, n - 1, clock, cfg)| {
      a := EligibleOrigin(s, chain, n - 1, clock, cfg, k);
    } else {
      a := n - 1;
    }
  }

  lemma EligibleInOrder(s: States, chain: seq<Id>, clock: nat -> int, cfg: B.Config, i: nat, j: nat)
    returns (a: nat, b: nat)
    requires i < j < |Eligible(s, chain, |chain|, clock, cfg)|
    ensures a < b < |chain|
    ensures Eligible(s, chain, |chain|, clock, cfg)[i] == chain[a]
    ensures Eligible(s, chain, |chain|, clock, cfg)[j] == chain[b]
  {
    hide Eligible;
    b := EligibleOrigin(s, chain, |chain|, clock, cfg, j);
    a := EligibleOrigin(s, chain, b, clock, cfg, i);
    assert Eligible(s, chain, |chain|, clock, cfg)[..j][i] == chain[a];
  }

  lemma EligibleAscending(s: States, chain: seq<Id>, clock: nat -> int, cfg: B.Config)
    requires Ascending(chain)
    ensures Ascending(Eligible(s, chain, |chain|, clock, cfg))
  {
    hide Eligible;
    var ids := Eligible(s, chain, |chain|, clock, cfg);
    forall i, j | 0 <= i < j < |ids|
      ensures Rank(ids[i]) < Rank(ids[j])
    {
      var a, b := EligibleInOrder(s, chain, clock, cfg, i, j);
    }
  }

  /** The order in which deployments are tried: an admitted primary first, then fallbacks from the cloud down. */
  lemma OrderRanked(s: States, r: Request, cfg: B.Config)
    requires Total(s)
    ensures var order := TryOrder(s, r, cfg);
            if Primary(r) in order then order[0] == Primary(r) && Ascending(order[1..]) else Ascending(order)
  {
    hide Eligible, Chain, Primary, StatesAfterFilter;
    ChainMembers(r);
    var chain := Chain(r);
    assert chain[..|chain|] == chain;
    FilterMiss(s, chain, |chain|, r.clock, cfg, Primary(r));
    EligibleAscending(s, chain, r.clock, cfg);
    var eligible := Eligible(s, chain, |chain|, r.clock, cfg);
    assert ([Primary(r)] + eligible)[1..] == eligible;
  }

  /** The clock reading at which a deployment is asked. */
  ghost predicate AskedAt(r: Request, id: Id, now: int) {
    || (id == Primary(r) && now == r.clock(|Chain(r)|))
    || exists i :: 0 <= i < |Chain(r)| && Chain(r)[i] == id && now == r.clock(i)
  }

  lemma PrimaryIffTried(s: States, primary: Id, chain: seq<Id>, clock: nat -> int, cfg: B.Config)
    requires Total(s) && primary !in chain
    ensures Total(StatesAfterOrder(s, primary, chain, clock, cfg))
    ensures primary in OrderOf(s, primary, chain, clock, cfg) <==> B.Admitted(s[primary], clock(|chain|), cfg)
    ensures StatesAfterOrder(s, primary, chain, clock, cfg)[primary] ==
            B.AfterAdmission(s[primary], clock(|chain|), cfg)
  {
    FilterMiss(s, chain, |chain|, clock, cfg, primary);
  }

  lemma FallbackIffTried(s: States, primary: Id, chain: seq<Id>, clock: nat -> int, cfg: B.Config, i: nat)
    requires Total(s) && Distinct(chain) && primary !in chain && i < |chain|
    ensures Total(StatesAfterOrder(s, primary, chain, clock, cfg))
    ensures chain[i] in OrderOf(s, primary, chain, clock, cfg) <==> B.Admitted(s[chain[i]], clock(i), cfg)
    ensures StatesAfterOrder(s, primary, chain, clock, cfg)[chain[i]] == B.AfterAdmission(s[chain[i]], clock(i), cfg)
  {
    FilterHit(s, chain, |chain|, clock, cfg, i);
  }

  /** A deployment that is asked is tried exactly when its breaker admits it. */
  lemma AskedIffTried(s: States, r: Request, cfg: B.Config, id: Id, now: int)
    requires Total(s) && AskedAt(r, id, now)
    ensures Total(AdmittedStates(s, r, cfg))
    ensures id in TryOrder(s, r, cfg) <==> B.Admitted(s[id], now, cfg)
    ensures AdmittedStates(s, r, cfg)[id] == B.AfterAdmission(s[id], now, cfg)
  {
    ChainFacts(r);
    if id == Primary(r) {
      PrimaryIffTried(s, id, Chain(r), r.clock, cfg);
    } else {
      var i :| 0 <= i < |Chain(r)| && Chain(r)[i] == id && now == r.clock(i);
      FallbackIffTried(s, Primary(r), Chain(r), r.clock, cfg, i);
    }
  }

  /** Any other deployment is neither tried nor touched. */
  lemma NotAsked(s: States, r: Request, cfg: B.Config, id: Id)
    requires Total(s) && id != Primary(r) && id !in Chain(r)
    ensures id !in TryOrder(s, r, cfg)
    ensures Total(AdmittedStates(s, r, cfg)) && AdmittedStates(s, r, cfg)[id] == s[id]
  {
    var chain := Chain(r);
    FilterMiss(s, chain, |chain|, r.clock, cfg, id);
  }

  lemma OrderDistinct(s: States, r: Request, cfg: B.Config)
    requires Total(s)
    ensures Distinct(TryOrder(s, r, cfg)) && Total(AdmittedStates(s, r, cfg))
  {
    hide Chain, Primary, Eligible, StatesAfterFilter;
    ChainFacts(r);
    var chain := Chain(r);
    FilterMiss(s, chain, |chain|, r.clock, cfg, Primary(r));
    EligibleDistinct(s, chain, |chain|, r.clock, cfg);
  }

  lemma {:induction false} FailureMiss(s: States, order: seq<Id>, r: Request, n: nat, cfg: B.Config, id: Id)
    requires Total(s) && n <= |order| && id !in order[..n]
    ensures Total(AfterFailures(s, order, r, n, cfg)) && AfterFailures(s, order, r, n, cfg)[id] == s[id]
    ensures id !in FittingPrefix(order, r, n)
  {
    if n > 0 {
      assert order[..n] == order[..n - 1] + [order[n - 1]];
      FailureMiss(s, order, r, n - 1, cfg, id);
    }
  }

  /** Failures are recorded for exactly the fitting entries handled, each on its own breaker. */
  lemma {:induction false} FailureHit(s: States, order: seq<Id>, r: Request, n: nat, cfg: B.Config, i: nat)
    requires Total(s) && Distinct(order) && i < n <= |order|
    ensures Total(AfterFailures(s, order, r, n, cfg))
    ensures AfterFailures(s, order, r, n, cfg)[order[i]]
         == if Fits(r, order[i]) then B.AfterFailure(s[order[i]], r.clock(i + 6), cfg) else s[order[i]]
    ensures order[i] in FittingPrefix(order, r, n) <==> Fits(r, order[i])
  {
    if i == n - 1 {
      FailureMiss(s, order, r, n - 1, cfg, order[i]);
    } else {
      FailureHit(s, order, r, n - 1, cfg, i);
    }
  }

  /** A call leaves a deployment it did not call as the admission left it. */
  lemma NotCalledUntouched(s: States, s': States, r: Request, o: Outcome, k: nat, cfg: B.Config, id: Id)
    requires Total(s) && Called(s, s', r, o, k, cfg)
    requires id !in TryOrder(s, r, cfg) || !Fits(r, id)
    ensures Total(AdmittedStates(s, r, cfg)) && id in s' && s'[id] == AdmittedStates(s, r, cfg)[id] &&
            id !in o.attempted
  {
    OrderDistinct(s, r, cfg);
    var order, admitted := TryOrder(s, r, cfg), AdmittedStates(s, r, cfg);
    if id in order[..k] {
      var i :| 0 <= i < k && order[..k][i] == id;
      FailureHit(admitted, order, r, k, cfg, i);
    } else {
      FailureMiss(admitted, order, r, k, cfg, id);
    }
  }

  /**
   * What a call does to the entry at position `i` of its order: a fitting entry
   * before the server fails, the server's breaker is reset, later ones are not called.
   */
  lemma CallEffect(s: States, s': States, r: Request, o: Outcome, k: nat, cfg: B.Config, i: nat)
    requires Total(s) && Called(s, s', r, o, k, cfg) && i < |TryOrder(s, r, cfg)|
    ensures var order, admitted := TryOrder(s, r, cfg), AdmittedStates(s, r, cfg);
            var id := order[i];
            && Total(admitted) && Total(s')
            && (o.servedBy == Some(id) <==> i == k)
            && s'[id] == (if i == k then B.INITIAL
                          else if i < k && Fits(r, id) then B.AfterFailure(admitted[id], r.clock(i + 6), cfg)
                          else admitted[id])
            && (id in o.attempted <==> Fits(r, id) && i <= k)
  {
    hide TryOrder, AdmittedStates;
    OrderDistinct(s, r, cfg);
    var order, admitted := TryOrder(s, r, cfg), AdmittedStates(s, r, cfg);
    if i < k {
      FailureHit(admitted, order, r, k, cfg, i);
    } else {
      assert order[i] !in order[..k];
      FailureMiss(admitted, order, r, k, cfg, order[i]);
    }
  }

  /** The request fits a deployment: its window holds the tokens, and the cloud sees no gated request. */
  predicate MayServe(r: Request, id: Id) {
    && r.scores.tokenEstimate <= (if id == Fast || id == Cloud then 128000 else 32000)
    && (id == Cloud ==> Unrestricted(r))
  }

  /**
   * Who serves: the first of the order that the request fits and that answers, or nobody
   * if there is none. Exactly the fitting ones up to that one are called.
   */
  lemma FirstFittingServes(s: States, s': States, r: Request, o: Outcome, k: nat, cfg: B.Config)
    requires Total(s) && Called(s, s', r, o, k, cfg)
    ensures var order := TryOrder(s, r, cfg);
            && k <= |order|
            && (o.servedBy.Some? <==> k < |order|)
            && (k < |order| ==> o.servedBy == Some(order[k]) && MayServe(r, order[k]) && r.succeeds(order[k]))
            && (forall i :: 0 <= i < k ==> !(MayServe(r, order[i]) && r.succeeds(order[i])))
            && (forall i :: 0 <= i < |order| ==> (order[i] in o.attempted <==> i <= k && MayServe(r, order[i])))
  {
    hide TryOrder, AdmittedStates, AfterFailures, FittingPrefix;
    var order := TryOrder(s, r, cfg);
    forall i: nat | i < |order|
      ensures order[i] in o.attempted <==> i <= k && MayServe(r, order[i])
    {
      CallEffect(s, s', r, o, k, cfg, i);
    }
  }

  /** More tokens than the largest window holds: the cloud is picked for them, but nobody is ever called. */
  lemma UltraLongUnserved(s: States, s': States, r: Request, o: Outcome, k: nat, cfg: B.Config)
    requires Total(s) && Called(s, s', r, o, k, cfg)
    requires r.scores.tokenEstimate > 128000
    ensures r.scores.contextLength >= 5 ==> PickPrimary(r.scores) == Cloud
    ensures o.servedBy == None && o.attempted == []
  {
    hide TryOrder, AdmittedStates, Called, Chain, Primary;
    FirstFittingServes(s, s', r, o, k, cfg);
    if o.attempted != [] {
      NotCalledUntouched(s, s', r, o, k, cfg, o.attempted[0]);
    }
  }

  /** With all breakers fresh and no gated message, an idle request that the orchestrator fails goes to the cloud. */
  lemma CloudBeforeCoder(s: States, s': States, r: Request, o: Outcome, k: nat, cfg: B.Config)
    requires (forall id: Id :: id in s && s[id] == B.INITIAL) && Called(s, s', r, o, k, cfg)
    requires r.tags == [] && r.scores == Scores(0, 0, 0, 0, 0, 0, 0)
    requires forall id: Id :: r.succeeds(id) <==> id != Orchestrator
    ensures o.servedBy == Some(Cloud)
  {
    hide TryOrder, AdmittedStates, Called, Chain;
    FirstFittingServes(s, s', r, o, k, cfg);
    OrderRanked(s, r, cfg);
    ChainMembers(r);
    var order, chain := TryOrder(s, r, cfg), Chain(r);
    assert Primary(r) == Orchestrator;
    AskedIffTried(s, r, cfg, Orchestrator, r.clock(|chain|));
    assert Unrestricted(r) && Cloud in chain;
    var c :| 0 <= c < |chain| && chain[c] == Cloud;
    AskedIffTried(s, r, cfg, Cloud, r.clock(c));
    var i :| 0 <= i < |order| && order[i] == Cloud;
    assert order[1..][i - 1] == Cloud;
    CloudLeads(order[1..]);
  }

  lemma CloudLeads(ids: seq<Id>)
    requires Ascending(ids) && Cloud in ids
    ensures ids[0] == Cloud
  {
    var i :| 0 <= i < |ids| && ids[i] == Cloud;
  }

  /**
   * The server fits and answers, and no deployment of the order that does so too stands
   * before it: the server is the primary or of lower rank. Nobody serves only if nobody can.
   */
  ghost predicate BestServes(order: seq<Id>, r: Request, servedBy: Option<Id>) {
    && (servedBy.Some? ==> servedBy.value in order && MayServe(r, servedBy.value) && r.succeeds(servedBy.value))
    && forall id :: id in order && MayServe(r, id) && r.succeeds(id) ==>
         && servedBy.Some?
         && (|| servedBy.value == Primary(r) || servedBy.value == id
             || (id != Primary(r) && Rank(servedBy.value) < Rank(id)))
  }

  lemma ServedByBest(s: States, s': States, r: Request, o: Outcome, k: nat, cfg: B.Config)
    requires Total(s) && Called(s, s', r, o, k, cfg)
    ensures BestServes(TryOrder(s, r, cfg), r, o.servedBy)
  {
    hide TryOrder, AdmittedStates, Called, Chain, Primary, MayServe;
    FirstFittingServes(s, s', r, o, k, cfg);
    OrderRanked(s, r, cfg);
    var order := TryOrder(s, r, cfg);
    forall id | id in order && MayServe(r, id) && r.succeeds(id)
      ensures o.servedBy.Some?
      ensures var server := o.servedBy.value;
              server == Primary(r) || server == id || (id != Primary(r) && Rank(server) < Rank(id))
    {
      var i :| 0 <= i < |order| && order[i] == id;
      assert k <= i;
      if Primary(r) in order && 0 < k < i {
        assert order[1..][k - 1] == order[k] && order[1..][i - 1] == id;
      }
    }
  }

  /**
   * With gating on, a PII or restricted request never reaches the cloud: it is not
   * tried, and its breaker is not even asked.
   */
  lemma NeverCloud(s: States, s': States, r: Request, o: Outcome, k: nat, cfg: B.Config)
    requires Total(s) && Called(s, s', r, o, k, cfg)
    requires r.gating != Off && (Pii in r.tags || Restricted in r.tags)
    ensures Cloud !in TryOrder(s, r, cfg) && Cloud !in o.attempted && Cloud in s' && s'[Cloud] == s[Cloud]
  {
    ChainFacts(r);
    NotAsked(s, r, cfg, Cloud);
    NotCalledUntouched(s, s', r, o, k, cfg, Cloud);
  }

  // ----- a probe that is admitted but never tried

  ghost predicate Probing(s: States, id: Id) {
    id in s && s[id].circuit == B.HalfOpen && s[id].probeInFlight
  }

  /** A breaker whose probe is out is left alone by any call. */
  lemma ProbingIsSkipped(s: States, s': States, r: Request, o: Outcome, k: nat, cfg: B.Config, id: Id)
    requires Total(s) && Called(s, s', r, o, k, cfg) && Probing(s, id)
    ensures id !in o.attempted && id in s' && s'[id] == s[id]
  {
    if id == Primary(r) {
      AskedIffTried(s, r, cfg, id, r.clock(|Chain(r)|));
    } else if id in Chain(r) {
      var i :| 0 <= i < |Chain(r)| && Chain(r)[i] == id;
      AskedIffTried(s, r, cfg, id, r.clock(i));
    } else {
      NotAsked(s, r, cfg, id);
    }
    NotCalledUntouched(s, s', r, o, k, cfg, id);
  }

  /** A run of calls one after the other: `ss` are the states between them. */
  ghost predicate CallRun(ss: seq<States>, rs: seq<Request>, os: seq<Outcome>, ks: seq<nat>, cfg: B.Config) {
    && |ss| == |rs| + 1 && |os| == |rs| && |ks| == |rs|
    && forall i: nat :: i < |rs| ==> CallAt(ss, rs, os, ks, cfg, i)
  }

  ghost predicate CallAt(ss: seq<States>, rs: seq<Request>, os: seq<Outcome>, ks: seq<nat>, cfg: B.Config, i: nat)
    requires |ss| == |rs| + 1 && |os| == |rs| && |ks| == |rs| && i < |rs|
  {
    Total(ss[i]) && Called(ss[i], ss[i + 1], rs[i], os[i], ks[i], cfg)
  }

  lemma StillProbing(ss: seq<States>, rs: seq<Request>, os: seq<Outcome>, ks: seq<nat>, cfg: B.Config, id: Id, i: nat)
    requires CallRun(ss, rs, os, ks, cfg) && i < |rs| && Probing(ss[i], id)
    ensures Probing(ss[i + 1], id) && id !in os[i].attempted
  {
    assert CallAt(ss, rs, os, ks, cfg, i);
    ProbingIsSkipped(ss[i], ss[i + 1], rs[i], os[i], ks[i], cfg, id);
  }

  /** Once out, a probe that no pending call will answer keeps its deployment out of every later call. */
  lemma {:induction false} StrandedForever(ss: seq<States>, rs: seq<Request>, os: seq<Outcome>, ks: seq<nat>,
                                           cfg: B.Config, id: Id, n: nat)
    requires CallRun(ss, rs, os, ks, cfg) && n <= |rs| && Probing(ss[0], id)
    ensures Probing(ss[n], id)
    ensures forall i :: 0 <= i < n ==> id !in os[i].attempted
  {
    if n > 0 {
      StrandedForever(ss, rs, os, ks, cfg, id, n - 1);
      StillProbing(ss, rs, os, ks, cfg, id, n - 1);
    }
  }

  /**
   * An open deployment that a call admits ends the call with its probe out exactly
   * when the request does not fit it or an earlier entry of the order answers.
   */
  lemma ProbeStrandedIff(s: States, s': States, r: Request, o: Outcome, k: nat, cfg: B.Config, i: nat)
    requires Total(s) && Called(s, s', r, o, k, cfg) && i < |TryOrder(s, r, cfg)|
    requires s[TryOrder(s, r, cfg)[i]].circuit == B.Open
    ensures var order := TryOrder(s, r, cfg);
            Probing(s', order[i]) <==> !Fits(r, order[i]) || AnsweredBefore(order, r, i)
    ensures Probing(s', TryOrder(s, r, cfg)[i]) <==> TryOrder(s, r, cfg)[i] !in o.attempted
  {
    hide TryOrder, AdmittedStates, NoneServes;
    var order := TryOrder(s, r, cfg);
    var id := order[i];
    CallEffect(s, s', r, o, k, cfg, i);
    EndsBeforeIff(order, r, o, k, AdmittedStates(s, r, cfg), s', cfg, i);
    if id == Primary(r) {
      AskedIffTried(s, r, cfg, id, r.clock(|Chain(r)|));
    } else if id in Chain(r) {
      var j :| 0 <= j < |Chain(r)| && Chain(r)[j] == id;
      AskedIffTried(s, r, cfg, id, r.clock(j));
    } else {
      NotAsked(s, r, cfg, id);
    }
  }

  /** An entry before `i` fits the request and answers it. */
  ghost predicate AnsweredBefore(order: seq<Id>, r: Request, i: nat) {
    exists j :: 0 <= j < i && j < |order| && Fits(r, order[j]) && r.succeeds(order[j])
  }

  lemma EndsBeforeIff(order: seq<Id>, r: Request, o: Outcome, k: nat, s: States, s': States, cfg: B.Config, i: nat)
    requires Cascaded(s, s', order, r, o, k, cfg) && i < |order|
    ensures k < i <==> AnsweredBefore(order, r, i)
  {
    hide AfterFailures, FittingPrefix;
  }

  /**
   * An idle request with a healthy orchestrator and a cloud whose cooldown is over:
   * the cloud is admitted, the orchestrator answers, and the cloud's probe stays out.
   */
  lemma CloudStranded(s: States, s': States, r: Request, o: Outcome, k: nat)
    requires Total(s) && s[Orchestrator] == B.INITIAL && s[Cloud] == B.State(B.Open, [0], Some(0), false)
    requires r.tags == [] && r.scores == Scores(0, 0, 0, 0, 0, 0, 0) && r.gating == LocalOnly
    requires (forall n: nat :: r.clock(n) == 60) && r.succeeds(Orchestrator)
    requires Called(s, s', r, o, k, B.Config(1, 60, 30))
    ensures Probing(s', Cloud) && Cloud !in o.attempted
  {
    hide TryOrder, AdmittedStates, Called, BuildFallbackChain;
    var cfg := B.Config(1, 60, 30);
    assert Primary(r) == Orchestrator;
    CloudFirstInChain();
    assert Chain(r)[0] == Cloud;
    AskedIffTried(s, r, cfg, Cloud, r.clock(0));
    AskedIffTried(s, r, cfg, Orchestrator, r.clock(|Chain(r)|));
    PrimaryFirst(s, r, cfg);
    var order := TryOrder(s, r, cfg);
    var i :| 0 <= i < |order| && order[i] == Cloud;
    assert AnsweredBefore(order, r, i);
    ProbeStrandedIff(s, s', r, o, k, cfg, i);
  }

  lemma CloudFirstInChain()
    ensures BuildFallbackChain(Orchestrator, Public) == [Cloud, General, Fast, Coder]
  {
    WithoutFirst(Coder, [], Orchestrator);
    WithoutFirst(Fast, [Coder], Orchestrator);
    WithoutFirst(General, [Fast, Coder], Orchestrator);
    WithoutFirst(Orchestrator, [General, Fast, Coder], Orchestrator);
    WithoutFirst(Cloud, [Orchestrator, General, Fast, Coder], Orchestrator);
    assert [Cloud] + [Orchestrator, General, Fast, Coder] == [Cloud, Orchestrator, General, Fast, Coder];
    assert [Orchestrator] + [General, Fast, Coder] == [Orchestrator, General, Fast, Coder];
    assert [General] + [Fast, Coder] == [General, Fast, Coder] && [Fast] + [Coder] == [Fast, Coder];
  }

  lemma WithoutFirst(first: Id, rest: seq<Id>, id: Id)
    ensures Without([first] + rest, id) == (if first == id then [] else [first]) + Without(rest, id)
  {
    assert ([first] + rest)[1..] == rest;
  }

  lemma PrimaryFirst(s: States, r: Request, cfg: B.Config)
    requires Primary(r) in TryOrder(s, r, cfg) && Total(s) && Primary(r) !in Chain(r)
    ensures TryOrder(s, r, cfg)[0] == Primary(r)
  {
    FilterMiss(s, Chain(r), |Chain(r)|, r.clock, cfg, Primary(r));
  }
}
