/** The credential pool: round-robin over healthy keys, failover to exhausted ones, and dead keys. */
module CredentialPool {
  import opened Prelude

  datatype CredState = Ok | Exhausted | Dead

  datatype Credential = Credential(id: string, state: CredState, exhaustedAt: Option<int>, cooldownMs: int,
    useCount: nat, errorCount: nat)

  /** How an error is classified; only the class matters to the pool. */
  datatype ErrorKind = TerminalAuth | RateLimited | Billing | OtherError

  datatype Pool = Pool(creds: seq<Credential>, current: nat)

  // ----- the operations as functions

  /** An unset or zero timestamp is falsy in the source and never recovers. */
  predicate Due(c: Credential, now: int) {
    c.state == Exhausted && c.exhaustedAt.Some? && c.exhaustedAt.value != 0 && now - c.exhaustedAt.value >= c.cooldownMs
  }

  function Recover(c: Credential, now: int): Credential {
    if Due(c, now) then c.(state := Ok, exhaustedAt := None) else c
  }

  function RecoverAll(creds: seq<Credential>, now: int): seq<Credential> {
    seq(|creds|, i requires 0 <= i < |creds| => Recover(creds[i], now))
  }

  function OkFlags(creds: seq<Credential>): seq<bool> {
    seq(|creds|, i requires 0 <= i < |creds| => creds[i].state == Ok)
  }

  predicate SomeOk(ok: seq<bool>) {
    exists i :: 0 <= i < |ok| && ok[i]
  }

  /** Positions are read modulo the pool size: `a` is any position on the unrolled circle. */
  predicate OkAt(ok: seq<bool>, a: nat)
    requires ok != []
  {
    ok[a % |ok|]
  }

  /** The first healthy position from `a` on, looking at `left` positions at most. */
  function FirstOk(ok: seq<bool>, a: nat, left: nat): (r: nat)
    requires ok != []
    ensures a <= r <= a + left
    ensures forall k: nat :: a <= k < r ==> !OkAt(ok, k)
    ensures r < a + left ==> OkAt(ok, r)
    decreases left
  {
    if left == 0 || OkAt(ok, a) then a else FirstOk(ok, a + 1, left - 1)
  }

  function RecoveryTime(c: Credential): int {
    if c.exhaustedAt.Some? then c.exhaustedAt.value else 0
  }

  /** The exhausted credential that has waited longest, the first one among equals. */
  ghost predicate IsLongestExhausted(creds: seq<Credential>, i: nat) {
    && i < |creds| && creds[i].state == Exhausted
    && (forall j :: 0 <= j < |creds| && creds[j].state == Exhausted ==>
       RecoveryTime(creds[i]) <= RecoveryTime(creds[j]))
    && (forall j :: 0 <= j < i && creds[j].state == Exhausted ==> RecoveryTime(creds[i]) < RecoveryTime(creds[j]))
  }

  /** What a request for a credential may return and leave behind. */
  ghost predicate Gets(p: Pool, now: int, got: Option<nat>, p': Pool) {
    var creds := RecoverAll(p.creds, now);
    if SomeOk(OkFlags(creds)) then got.Some? && TakesOk(Pool(creds, p.current), got.value, p')
    else
      && p' == Pool(creds, p.current)
      && (got.Some? ==> IsLongestExhausted(creds, got.value))
      && (got == None ==> forall j :: 0 <= j < |creds| ==> creds[j].state == Dead)
  }

  /** Credential `i` is the first healthy one from the cursor on. */
  ghost predicate IsNextOk(p: Pool, i: nat) {
    var ok := OkFlags(p.creds);
    ok != [] && i == FirstOk(ok, p.current, |ok|) % |ok| && p.creds[i].state == Ok
  }

  /** Credential `i` is the first healthy one from the cursor on; its use is counted and the cursor moves past it. */
  ghost predicate TakesOk(p: Pool, i: nat, p': Pool) {
    && IsNextOk(p, i)
    && p' == Pool(p.creds[i := p.creds[i].(useCount := p.creds[i].useCount + 1)], (i + 1) % |p.creds|)
  }

  function IndexOf(creds: seq<Credential>, id: string): (r: Option<nat>)
    ensures r.Some? ==> r.value < |creds| && creds[r.value].id == id
    ensures r == None ==> forall i :: 0 <= i < |creds| ==> creds[i].id != id
  {
    if creds == [] then None
    else if creds[0].id == id then Some(0)
    else match IndexOf(creds[1..], id)
      case None => assert forall i :: 1 <= i < |creds| ==> creds[i] == creds[1..][i - 1]; None
      case Some(i) => Some(i + 1)
  }

  function AfterError(c: Credential, kind: ErrorKind, now: int, defaultCooldown: int): Credential {
    var c := c.(errorCount := c.errorCount + 1);
    match kind
    case TerminalAuth => c.(state := Dead)
    case RateLimited => c.(state := Exhausted, exhaustedAt := Some(now))
    case Billing => c.(state := Exhausted, exhaustedAt := Some(now), cooldownMs := defaultCooldown * 5)
    case OtherError => c
  }

  function AfterReset(creds: seq<Credential>, defaultCooldown: int): (r: seq<Credential>)
    ensures |r| == |creds|
  {
    seq(|creds|, i requires 0 <= i < |creds| =>
      creds[i].(state := Ok, exhaustedAt := None, errorCount := 0, cooldownMs := defaultCooldown))
  }

  function Apply(p: Pool, id: string, f: Credential -> Credential): Pool {
    match IndexOf(p.creds, id)
    case None => p
    case Some(i) => p.(creds := p.creds[i := f(p.creds[i])])
  }

  /**
   * What a report does: it counts one error for its credential alone, and what follows
   * is seen at any time `then`. A rate limit keeps the credential out for its cooldown, a
   * billing error for five default cooldowns, a terminal error for good, and any other
   * error changes nothing; a report at time zero is never recovered from.
   */
  lemma ReportEffect(p: Pool, id: string, kind: ErrorKind, now: int, defaultCooldown: int, i: nat, then': int)
    requires i < |p.creds| && p.creds[i].id == id
    requires forall j, k :: 0 <= j < k < |p.creds| ==> p.creds[j].id != p.creds[k].id
    ensures var p' := Apply(p, id, c => AfterError(c, kind, now, defaultCooldown));
            && p'.current == p.current && |p'.creds| == |p.creds|
            && (forall j :: 0 <= j < |p.creds| && j != i ==> p'.creds[j] == p.creds[j])
            && p'.creds[i].id == id && p'.creds[i].useCount == p.creds[i].useCount
            && p'.creds[i].errorCount == p.creds[i].errorCount + 1
            && var before, after := RecoverAll(p.creds, then')[i], RecoverAll(p'.creds, then')[i];
               match kind
               case TerminalAuth => after.state == Dead
               case RateLimited =>
                 after.state == if now != 0 && then' - now >= p.creds[i].cooldownMs then Ok else Exhausted
               case Billing => after.state == if now != 0 && then' - now >= 5 * defaultCooldown then Ok else Exhausted
               case OtherError => after.state == before.state && after.exhaustedAt == before.exhaustedAt
  {
    var found := IndexOf(p.creds, id).value;
    assert found == i;
  }

  class CredentialPool {
    const defaultCooldownMs: int
    var credentials: seq<Credential>
    var currentIndex: nat

    ghost predicate Valid()
      reads this
    {
      && currentIndex <= |credentials| && (credentials != [] ==> currentIndex < |credentials|)
      && forall i, j :: 0 <= i < j < |credentials| ==> credentials[i].id != credentials[j].id
    }

    function State(): Pool
      reads this
    {
      Pool(credentials, currentIndex)
    }

    constructor (defaultCooldownMs: int)
      ensures Valid() && credentials == [] && this.defaultCooldownMs == defaultCooldownMs
    {
      this.defaultCooldownMs := defaultCooldownMs;
      credentials, currentIndex := [], 0;
    }

    /** A known id is refused. */
    method Add(id: string) returns (added: bool)
      requires Valid()
      modifies this
      ensures Valid()
      ensures added <==> IndexOf(old(credentials), id) == None
      ensures State() == if added
              then Pool(old(credentials) + [Credential(id, Ok, None, defaultCooldownMs, 0, 0)], old(currentIndex))
                         else old(State())
    {
      if IndexOf(credentials, id).Some? {
        return false;
      }
      credentials := credentials + [Credential(id, Ok, None, defaultCooldownMs, 0, 0)];
      return true;
    }

    method RecoverDue(now: int)
      requires Valid()
      modifies this`credentials
      ensures Valid() && credentials == RecoverAll(old(credentials), now)
    {
      for i := 0 to |credentials|
        invariant |credentials| == |old(credentials)|
        invariant forall k :: 0 <= k < i ==> credentials[k] == Recover(old(credentials)[k], now)
        invariant forall k :: i <= k < |credentials| ==> credentials[k] == old(credentials)[k]
      {
        if Due(credentials[i], now) {
          credentials := credentials[i := credentials[i].(state := Ok, exhaustedAt := None)];
        }
      }
    }

    method GetAvailable(now: int) returns (got: Option<nat>)
      requires Valid()
      modifies this
      ensures Valid() && Gets(old(State()), now, got, State())
    {
      RecoverDue(now);
      got := TakeNextOk();
      if got == None {
        NoneOk(credentials);
        got := LongestExhausted();
      }
    }

    /** The next healthy credential, if any, is handed out and the cursor moves past it. */
    method TakeNextOk() returns (got: Option<nat>)
      requires Valid()
      modifies this
      ensures Valid()
      ensures got.Some? == SomeOk(OkFlags(old(credentials)))
      ensures got == None ==> State() == old(State())
      ensures got.Some? ==> TakesOk(old(State()), got.value, State())
    {
      got := NextOk();
      if got.Some? {
        var idx := got.value;
        currentIndex := (idx + 1) % |credentials|;
        credentials := credentials[idx := credentials[idx].(useCount := credentials[idx].useCount + 1)];
      }
    }

    /** The round-robin scan from the cursor. */
    method NextOk() returns (found: Option<nat>)
      requires Valid()
      ensures found.Some? <==> SomeOk(OkFlags(credentials))
      ensures found.Some? ==> IsNextOk(State(), found.value)
    {
      ghost var ok := OkFlags(credentials);
      var n := |credentials|;
      for i := 0 to n
        invariant forall k: nat :: currentIndex <= k < currentIndex + i ==> !OkAt(ok, k)
      {
        var idx := (currentIndex + i) % n;
        if credentials[idx].state == Ok {
          FirstOkIs(ok, currentIndex, n, currentIndex + i);
          assert ok[idx];
          return Some(idx);
        }
      }
      if n > 0 {
        WholeCircle(ok, currentIndex);
      }
      return None;
    }

    /** The head of the exhausted credentials, sorted by when they were exhausted. */
    method LongestExhausted() returns (got: Option<nat>)
      ensures got.Some? ==> IsLongestExhausted(credentials, got.value)
      ensures got == None ==> forall j :: 0 <= j < |credentials| ==> credentials[j].state != Exhausted
    {
      got := None;
      for i := 0 to |credentials|
        invariant got == None ==> forall j :: 0 <= j < i ==> credentials[j].state != Exhausted
        invariant got.Some? ==> got.value < i && IsLongestExhausted(credentials[..i], got.value)
      {
        if credentials[i].state == Exhausted {
          if got == None || RecoveryTime(credentials[i]) < RecoveryTime(credentials[got.value]) {
            got := Some(i);
          }
        }
        assert credentials[..i + 1] == credentials[..i] + [credentials[i]];
      }
      assert credentials[..|credentials|] == credentials;
    }

    method MarkError(id: string, kind: ErrorKind, now: int)
      requires Valid()
      modifies this
      ensures Valid() && State() == Apply(old(State()), id, c => AfterError(c, kind, now, defaultCooldownMs))
    {
      var found := IndexOf(credentials, id);
      if found == None {
        return;
      }
      var i := found.value;
      var cred := credentials[i].(errorCount := credentials[i].errorCount + 1);
      if kind == TerminalAuth {
        cred := cred.(state := Dead);
      } else if kind == RateLimited {
        cred := cred.(state := Exhausted, exhaustedAt := Some(now));
      } else if kind == Billing {
        cred := cred.(state := Exhausted, exhaustedAt := Some(now), cooldownMs := defaultCooldownMs * 5);
      }
      credentials := credentials[i := cred];
    }

    method MarkSuccess(id: string, now: int)
      requires Valid()
      modifies this
      ensures Valid() && State() == Apply(old(State()), id, c => Recover(c, now))
    {
      var found := IndexOf(credentials, id);
      if found.Some? && Due(credentials[found.value], now) {
        credentials := credentials[found.value := credentials[found.value].(state := Ok, exhaustedAt := None)];
      }
    }

    method ResetAll()
      requires Valid()
      modifies this
      ensures Valid() && State() == Pool(AfterReset(old(credentials), defaultCooldownMs), 0)
      ensures |credentials| == |old(credentials)|
      ensures forall i :: 0 <= i < |credentials| ==>
                && credentials[i].state == Ok && credentials[i].exhaustedAt == None
                && credentials[i].errorCount == 0 && credentials[i].cooldownMs == defaultCooldownMs
                && credentials[i].id == old(credentials)[i].id
                && credentials[i].useCount == old(credentials)[i].useCount
    {
      for i := 0 to |credentials|
        invariant |credentials| == |old(credentials)|
        invariant forall k :: 0 <= k < i ==> credentials[k] == AfterReset(old(credentials), defaultCooldownMs)[k]
        invariant forall k :: i <= k < |credentials| ==> credentials[k] == old(credentials)[k]
      {
        var cred := credentials[i].(state := Ok, exhaustedAt := None, errorCount := 0, cooldownMs := defaultCooldownMs);
        credentials := credentials[i := cred];
      }
      currentIndex := 0;
    }
  }

  // ----- round robin

  lemma {:induction false} FirstOkIs(ok: seq<bool>, a: nat, left: nat, r: nat)
    requires ok != [] && a <= r < a + left
    requires OkAt(ok, r) && forall k: nat :: a <= k < r ==> !OkAt(ok, k)
    ensures FirstOk(ok, a, left) == r
    decreases left
  {
    if a < r {
      FirstOkIs(ok, a + 1, left - 1, r);
    }
  }

  lemma NoneOk(creds: seq<Credential>)
    requires !SomeOk(OkFlags(creds))
    ensures forall i :: 0 <= i < |creds| ==> creds[i].state != Ok
  {
    forall i | 0 <= i < |creds|
      ensures creds[i].state != Ok
    {
      assert OkFlags(creds)[i] == (creds[i].state == Ok);
    }
  }

  lemma SmallMultiple(n: int, q: int)
    requires 0 < n && -n < n * q < n
    ensures q == 0
  {
    if q >= 1 {
      MulAtLeast(n, q);
    } else if q <= -1 {
      MulAtLeast(n, -q);
    }
  }

  lemma MulAtLeast(n: int, q: int)
    requires 0 < n && q >= 1
    ensures n * q >= n
  {
  }

  lemma SameResidue(a: nat, b: nat, n: nat)
    requires 0 < n && a <= b < a + n && a % n == b % n
    ensures a == b
  {
    var m: int, qa: int, qb: int := n, a / n, b / n;
    assert m * qb - m * qa == m * (qb - qa);
    assert b == m * qb + b % n && a == m * qa + a % n;
    SmallMultiple(n, qb - qa);
  }

  /** Every residue is met within a full turn. */
  lemma Representative(cur: nat, i: nat, n: nat) returns (a: nat)
    requires i < n
    ensures cur <= a < cur + n && a % n == i
  {
    var base := n * (cur / n);
    assert cur == base + cur % n;
    a := if i >= cur % n then base + i else base + n + i;
    var q := if i >= cur % n then cur / n else cur / n + 1;
    assert a == n * q + i;
    ResidueOf(q, i, n);
  }

  lemma ResidueOf(q: nat, i: nat, n: nat)
    requires i < n
    ensures (n * q + i) % n == i && (n * q + i) / n == q
  {
    var x := n * q + i;
    assert n * (x / n) - n * q == i - x % n == n * (x / n - q);
    SmallMultiple(n, x / n - q);
  }

  lemma WholeCircle(ok: seq<bool>, cur: nat)
    requires ok != [] && forall k: nat :: cur <= k < cur + |ok| ==> !OkAt(ok, k)
    ensures !SomeOk(ok)
  {
    forall i | 0 <= i < |ok|
      ensures !ok[i]
    {
      var a := Representative(cur, i, |ok|);
      assert !OkAt(ok, a);
    }
  }

  /** The healthy positions among the `len` from `a` on. */
  function CountOk(ok: seq<bool>, a: nat, len: nat): nat
    requires ok != []
  {
    if len == 0 then 0 else CountOk(ok, a, len - 1) + if OkAt(ok, a + len - 1) then 1 else 0
  }

  /** The positions that `m` requests in a row hand out, on the unrolled circle. */
  function Handed(ok: seq<bool>, cur: nat, m: nat): (r: seq<nat>)
    requires ok != []
    ensures |r| == m
  {
    if m == 0 then []
    else
      var before := Handed(ok, cur, m - 1);
      before + [FirstOk(ok, if m == 1 then cur else before[m - 2] + 1, |ok|)]
  }

  /** Position `a` is the healthy position number `j` of the turn from `cur` on. */
  ghost predicate NthOk(ok: seq<bool>, cur: nat, a: nat, j: nat)
    requires ok != []
  {
    cur <= a < cur + |ok| && OkAt(ok, a) && CountOk(ok, cur, a - cur) == j
  }

  /** While a healthy position remains in the turn, the next one handed out is the next healthy one. */
  lemma {:induction false} HandedCounts(ok: seq<bool>, cur: nat, m: nat)
    requires ok != [] && m <= CountOk(ok, cur, |ok|)
    ensures forall j :: 0 <= j < m ==> NthOk(ok, cur, Handed(ok, cur, m)[j], j)
  {
    hide NthOk, FirstOk, OkAt;
    if m > 0 {
      HandedCounts(ok, cur, m - 1);
      var before := Handed(ok, cur, m - 1);
      if m == 1 {
        NextFromStart(ok, cur);
      } else {
        NextAfter(ok, cur, before[m - 2], m - 2);
      }
    }
  }

  lemma NextFromStart(ok: seq<bool>, cur: nat)
    requires ok != [] && 0 < CountOk(ok, cur, |ok|)
    ensures NthOk(ok, cur, FirstOk(ok, cur, |ok|), 0)
  {
    CountAfter(ok, cur, cur);
    NextHealthy(ok, cur, cur, 0);
  }

  lemma NextAfter(ok: seq<bool>, cur: nat, a: nat, j: nat)
    requires ok != [] && NthOk(ok, cur, a, j) && j + 1 < CountOk(ok, cur, |ok|)
    ensures NthOk(ok, cur, FirstOk(ok, a + 1, |ok|), j + 1)
  {
    CountAfter(ok, cur, a);
    NextHealthy(ok, cur, a + 1, j + 1);
  }

  lemma CountAfter(ok: seq<bool>, cur: nat, a: nat)
    requires ok != [] && cur <= a
    ensures CountOk(ok, cur, 0) == 0
    ensures OkAt(ok, a) ==> CountOk(ok, cur, a + 1 - cur) == CountOk(ok, cur, a - cur) + 1
  {
  }

  /** With fewer healthy positions before `start` than in the turn, there is one from `start` on, inside the turn. */
  lemma NextHealthy(ok: seq<bool>, cur: nat, start: nat, seen: nat)
    requires ok != [] && cur <= start <= cur + |ok|
    requires CountOk(ok, cur, start - cur) == seen < CountOk(ok, cur, |ok|)
    ensures var r := FirstOk(ok, start, |ok|);
            start <= r < cur + |ok| && OkAt(ok, r) && CountOk(ok, cur, r - cur) == seen
  {
    var r := FirstOk(ok, start, |ok|);
    var stop := if r <= cur + |ok| then r else cur + |ok|;
    NoneBetween(ok, cur, start, stop);
  }

  lemma {:induction false} NoneBetween(ok: seq<bool>, cur: nat, start: nat, stop: nat)
    requires ok != [] && cur <= start <= stop
    requires forall k: nat :: start <= k < stop ==> !OkAt(ok, k)
    ensures CountOk(ok, cur, stop - cur) == CountOk(ok, cur, start - cur)
    decreases stop
  {
    if start < stop {
      NoneBetween(ok, cur, start, stop - 1);
    }
  }

  lemma {:induction false} CountMonotone(ok: seq<bool>, cur: nat, m: nat, n: nat)
    requires ok != [] && m <= n
    ensures CountOk(ok, cur, m) <= CountOk(ok, cur, n)
    decreases n
  {
    if m < n {
      CountMonotone(ok, cur, m, n - 1);
    }
  }

  /** Every healthy credential has its place in the turn. */
  lemma PlaceInTurn(ok: seq<bool>, cur: nat, i: nat) returns (a: nat, j: nat)
    requires i < |ok| && ok[i]
    ensures NthOk(ok, cur, a, j) && a % |ok| == i && j < CountOk(ok, cur, |ok|)
  {
    a := Representative(cur, i, |ok|);
    j := CountOk(ok, cur, a - cur);
    CountAfter(ok, cur, a);
    CountMonotone(ok, cur, a - cur + 1, |ok|);
  }

  lemma NthOkUnique(ok: seq<bool>, cur: nat, a: nat, b: nat, j: nat)
    requires ok != [] && NthOk(ok, cur, a, j) && NthOk(ok, cur, b, j)
    ensures a == b
  {
    CountAfter(ok, cur, a);
    CountAfter(ok, cur, b);
    if a < b {
      CountMonotone(ok, cur, a - cur + 1, b - cur);
    } else if b < a {
      CountMonotone(ok, cur, b - cur + 1, a - cur);
    }
  }

  /** Among as many requests as there are healthy credentials, each healthy one is handed out exactly once. */
  lemma RoundRobin(ok: seq<bool>, cur: nat, i: nat)
    requires i < |ok| && ok[i]
    ensures var k := CountOk(ok, cur, |ok|);
            exists j :: 0 <= j < k && Handed(ok, cur, k)[j] % |ok| == i
                        && forall j' :: 0 <= j' < k && Handed(ok, cur, k)[j'] % |ok| == i ==> j' == j
  {
    hide CountOk, OkAt, Handed;
    var k := CountOk(ok, cur, |ok|);
    HandedCounts(ok, cur, k);
    var h := Handed(ok, cur, k);
    var a, j := PlaceInTurn(ok, cur, i);
    NthOkUnique(ok, cur, a, h[j], j);
    forall j' | 0 <= j' < k && h[j'] % |ok| == i
      ensures j' == j
    {
      assert NthOk(ok, cur, h[j'], j');
      OnceATurn(h[j'], a, cur, |ok|);
    }
  }

  lemma OnceATurn(a: nat, b: nat, cur: nat, n: nat)
    requires 0 < n && cur <= a < cur + n && cur <= b < cur + n && a % n == b % n
    ensures a == b
  {
    if a <= b {
      SameResidue(a, b, n);
    } else {
      SameResidue(b, a, n);
    }
  }

  lemma NextResidue(a: nat, b: nat, n: nat)
    requires 0 < n && a % n == b % n
    ensures (a + 1) % n == (b + 1) % n
  {
    ResidueStep(a, n);
    ResidueStep(b, n);
  }

  lemma ResidueStep(a: nat, n: nat)
    requires 0 < n
    ensures (a + 1) % n == if a % n + 1 == n then 0 else a % n + 1
  {
    var m: int, q: int := n, a / n;
    assert a == m * q + a % n;
    if a % n + 1 == n {
      assert m * (q + 1) == m * q + m;
      ResidueOf(q + 1, 0, n);
    } else {
      ResidueOf(q, a % n + 1, n);
    }
  }

  /** The scan depends on the start only through its residue. */
  lemma {:induction false} FirstOkPeriodic(ok: seq<bool>, a: nat, b: nat, left: nat)
    requires ok != [] && a % |ok| == b % |ok|
    ensures FirstOk(ok, a, left) - a == FirstOk(ok, b, left) - b
    ensures FirstOk(ok, a, left) % |ok| == FirstOk(ok, b, left) % |ok|
    decreases left
  {
    if left > 0 && !OkAt(ok, a) {
      NextResidue(a, b, |ok|);
      FirstOkPeriodic(ok, a + 1, b + 1, left - 1);
    }
  }

  function CountTrue(ok: seq<bool>): nat {
    if ok == [] then 0 else CountTrue(ok[..|ok| - 1]) + if ok[|ok| - 1] then 1 else 0
  }

  lemma {:induction false} CountFromZero(ok: seq<bool>, len: nat)
    requires ok != [] && len <= |ok|
    ensures CountOk(ok, 0, len) == CountTrue(ok[..len])
  {
    if len > 0 {
      CountFromZero(ok, len - 1);
      assert ok[..len][..len - 1] == ok[..len - 1];
      ResidueOf(0, len - 1, |ok|);
    }
  }

  lemma {:induction false} CountShift(ok: seq<bool>, a: nat, len: nat)
    requires ok != []
    ensures CountOk(ok, a, len + 1) == CountOk(ok, a + 1, len) + if OkAt(ok, a) then 1 else 0
  {
    if len > 0 {
      CountShift(ok, a, len - 1);
    }
  }

  /** A full turn has as many healthy positions as there are healthy credentials, wherever it starts. */
  lemma {:induction false} FullTurn(ok: seq<bool>, cur: nat)
    requires ok != []
    ensures CountOk(ok, cur, |ok|) == CountTrue(ok)
  {
    hide OkAt;
    if cur == 0 {
      CountFromZero(ok, |ok|);
      assert ok[..|ok|] == ok;
    } else {
      FullTurn(ok, cur - 1);
      CountShift(ok, cur - 1, |ok|);
      OkAtPeriodic(ok, cur - 1);
    }
  }

  lemma OkAtPeriodic(ok: seq<bool>, a: nat)
    requires ok != []
    ensures OkAt(ok, a + |ok|) == OkAt(ok, a)
  {
    var m: int, q: int := |ok|, a / |ok|;
    assert a + |ok| == m * (q + 1) + a % |ok|;
    ResidueOf(q + 1, a % |ok|, |ok|);
  }

  /** A run of requests, at times `nows`, during which the same credentials stay healthy. */
  ghost predicate SteadyRun(ps: seq<Pool>, nows: seq<int>, gots: seq<Option<nat>>, ok: seq<bool>) {
    && |ps| == |nows| + 1 && |gots| == |nows| && SomeOk(ok)
    && forall j: nat :: j < |nows| ==> SteadyAt(ps, nows, gots, ok, j)
  }

  ghost predicate SteadyAt(ps: seq<Pool>, nows: seq<int>, gots: seq<Option<nat>>, ok: seq<bool>, j: nat)
    requires |ps| == |nows| + 1 && |gots| == |nows| && j < |nows|
  {
    SteadyGet(ps[j], nows[j], gots[j], ps[j + 1], ok)
  }

  ghost predicate SteadyGet(p: Pool, now: int, got: Option<nat>, p': Pool, ok: seq<bool>) {
    Gets(p, now, got, p') && OkFlags(RecoverAll(p.creds, now)) == ok
  }

  lemma SteadyStep(p: Pool, now: int, got: Option<nat>, p': Pool, ok: seq<bool>)
    requires SteadyGet(p, now, got, p', ok) && SomeOk(ok)
    ensures got == Some(FirstOk(ok, p.current, |ok|) % |ok|) && p'.current == (got.value + 1) % |ok|
  {
  }

  /** The credential at a position on the unrolled circle. */
  function Slot(ok: seq<bool>, a: nat): nat
    requires ok != []
  {
    a % |ok|
  }

  /** Only the residue of the cursor matters to a request. */
  lemma SteadyFrom(p: Pool, now: int, got: Option<nat>, p': Pool, ok: seq<bool>, start: nat)
    requires SteadyGet(p, now, got, p', ok) && SomeOk(ok) && Slot(ok, p.current) == Slot(ok, start)
    ensures got == Some(Slot(ok, FirstOk(ok, start, |ok|))) && p'.current == Slot(ok, got.value + 1)
  {
    SteadyStep(p, now, got, p', ok);
    FirstOkPeriodic(ok, p.current, start, |ok|);
  }

  /** The requests of such a run follow the unrolled circle. */
  lemma {:induction false} RunFollowsCircle(ps: seq<Pool>, nows: seq<int>, gots: seq<Option<nat>>, ok: seq<bool>,
                                            m: nat)
    requires SteadyRun(ps, nows, gots, ok) && m <= |nows|
    ensures forall j :: 0 <= j < m ==> gots[j] == Some(Slot(ok, Handed(ok, ps[0].current, m)[j]))
    ensures m > 0 ==> ps[m].current == Slot(ok, Slot(ok, Handed(ok, ps[0].current, m)[m - 1]) + 1)
  {
    hide SteadyGet, FirstOk, Slot;
    if m > 0 {
      RunFollowsCircle(ps, nows, gots, ok, m - 1);
      var before := Handed(ok, ps[0].current, m - 1);
      var start := if m == 1 then ps[0].current else before[m - 2] + 1;
      assert SteadyAt(ps, nows, gots, ok, m - 1);
      if m > 1 {
        CursorSlot(ok, before[m - 2]);
      }
      SteadyFrom(ps[m - 1], nows[m - 1], gots[m - 1], ps[m], ok, start);
    }
  }

  lemma CursorSlot(ok: seq<bool>, last: nat)
    requires ok != []
    ensures Slot(ok, Slot(ok, Slot(ok, last) + 1)) == Slot(ok, last + 1)
  {
    var n := |ok|;
    ResidueOf(0, last % n, n);
    NextResidue(last % n, last, n);
    ResidueOf(0, (last + 1) % n, n);
  }

  /** Credential `i` is handed out once. */
  ghost predicate OnceIn(gots: seq<Option<nat>>, i: nat) {
    exists j :: 0 <= j < |gots| && gots[j] == Some(i)
                && forall j' :: 0 <= j' < |gots| && gots[j'] == Some(i) ==> j' == j
  }

  /** `got` is the healthy credential number `j` of the turn that starts at the cursor. */
  ghost predicate GotNth(ok: seq<bool>, cur: nat, j: nat, got: Option<nat>)
    requires ok != []
  {
    exists a: nat :: NthOk(ok, cur, a, j) && got == Some(Slot(ok, a))
  }

  /**
   * As many requests in a row as there are healthy credentials hand out each
   * healthy credential exactly once, in cyclic order from the cursor on.
   */
  lemma RoundRobinRun(ps: seq<Pool>, nows: seq<int>, gots: seq<Option<nat>>, ok: seq<bool>)
    requires SteadyRun(ps, nows, gots, ok) && |gots| == CountTrue(ok)
    ensures forall i: nat :: i < |ok| && ok[i] ==> OnceIn(gots, i)
    ensures forall j: nat :: j < |gots| ==> GotNth(ok, ps[0].current, j, gots[j])
  {
    hide Handed, CountOk, CountTrue, NthOk, OkAt;
    var cur, k := ps[0].current, |gots|;
    FullTurn(ok, cur);
    RunFollowsCircle(ps, nows, gots, ok, k);
    HandedCounts(ok, cur, k);
    forall i: nat | i < |ok| && ok[i]
      ensures OnceIn(gots, i)
    {
      RoundRobin(ok, cur, i);
      var j :| 0 <= j < k && Handed(ok, cur, k)[j] % |ok| == i
               && forall j' :: 0 <= j' < k && Handed(ok, cur, k)[j'] % |ok| == i ==> j' == j;
      assert gots[j] == Some(Slot(ok, Handed(ok, cur, k)[j]));
    }
    forall j: nat | j < k
      ensures GotNth(ok, cur, j, gots[j])
    {
      assert NthOk(ok, cur, Handed(ok, cur, k)[j], j);
    }
  }

  // ----- dead keys over whole runs

  datatype Op =
    | Get(now: int, got: Option<nat>)
    | Fail(id: string, kind: ErrorKind, now: int)
    | Succeed(id: string, now: int)
    | AddNew(id: string)
    | ResetPool

  ghost predicate PoolStep(p: Pool, op: Op, p': Pool, cooldown: int) {
    match op
    case Get(now, got) => Gets(p, now, got, p')
    case Fail(id, kind, now) => p' == Apply(p, id, c => AfterError(c, kind, now, cooldown))
    case Succeed(id, now) => p' == Apply(p, id, c => Recover(c, now))
    case AddNew(id) =>
      p' == if IndexOf(p.creds, id) == None
        then p.(creds := p.creds + [Credential(id, Ok, None, cooldown, 0, 0)]) else p
    case ResetPool => p' == Pool(AfterReset(p.creds, cooldown), 0)
  }

  ghost predicate PoolRun(ps: seq<Pool>, ops: seq<Op>, cooldown: int) {
    && |ps| == |ops| + 1 && forall j: nat :: j < |ops| ==> PoolStepAt(ps, ops, cooldown, j)
  }

  ghost predicate PoolStepAt(ps: seq<Pool>, ops: seq<Op>, cooldown: int, j: nat)
    requires |ps| == |ops| + 1 && j < |ops|
  {
    PoolStep(ps[j], ops[j], ps[j + 1], cooldown)
  }

  /** The credential known by `id` (the first one with it) is dead. */
  predicate IsDead(p: Pool, id: string) {
    var i := IndexOf(p.creds, id);
    i.Some? && p.creds[i.value].state == Dead
  }

  /** A reset, and the error reports that overwrite any state, including a dead one. */
  predicate Revives(op: Op, id: string) {
    op.ResetPool? || (op.Fail? && op.id == id && (op.kind == RateLimited || op.kind == Billing))
  }

  /** Where an id is found depends on the ids alone. */
  lemma {:induction false} IndexOfSameIds(a: seq<Credential>, b: seq<Credential>, id: string)
    requires |a| <= |b| && forall i :: 0 <= i < |a| ==> a[i].id == b[i].id
    ensures IndexOf(a, id).Some? ==> IndexOf(b, id) == IndexOf(a, id)
  {
    if a != [] && a[0].id != id {
      assert forall i :: 0 <= i < |a[1..]| ==> a[1..][i] == a[i + 1] && b[1..][i] == b[i + 1];
      IndexOfSameIds(a[1..], b[1..], id);
    }
  }

  /** A request hands out no dead credential, and leaves ids and dead credentials as they are. */
  lemma GetSparesDead(p: Pool, now: int, got: Option<nat>, p': Pool)
    requires Gets(p, now, got, p')
    ensures |p'.creds| == |p.creds|
    ensures forall i :: 0 <= i < |p.creds| ==>
              && p'.creds[i].id == p.creds[i].id
              && (p'.creds[i].state == Dead <==> p.creds[i].state == Dead)
              && (got == Some(i) ==> p.creds[i].state != Dead)
  {
  }

  lemma DeadStepIff(p: Pool, op: Op, p': Pool, cooldown: int, id: string)
    requires PoolStep(p, op, p', cooldown) && IsDead(p, id)
    ensures IsDead(p', id) <==> !Revives(op, id)
  {
    if op.Get? {
      GetSparesDead(p, op.now, op.got, p');
    }
    IndexOfSameIds(p.creds, p'.creds, id);
    if op.Fail? || op.Succeed? {
      var i := IndexOf(p.creds, op.id);
      if i.Some? {
        assert p.creds[i.value].id == op.id;
      }
    }
  }

  /**
   * A dead credential stays dead through a run exactly when the pool is not reset and no
   * rate-limit or billing error is reported for it.
   */
  lemma {:induction false} DeadForeverIff(ps: seq<Pool>, ops: seq<Op>, cooldown: int, id: string)
    requires PoolRun(ps, ops, cooldown) && IsDead(ps[0], id)
    ensures (forall j :: 0 <= j < |ps| ==> IsDead(ps[j], id)) <==> (forall j :: 0 <= j < |ops| ==> !Revives(ops[j], id))
  {
    if forall j :: 0 <= j < |ps| ==> IsDead(ps[j], id) {
      forall j | 0 <= j < |ops|
        ensures !Revives(ops[j], id)
      {
        assert PoolStepAt(ps, ops, cooldown, j) && IsDead(ps[j], id) && IsDead(ps[j + 1], id);
        DeadStepIff(ps[j], ops[j], ps[j + 1], cooldown, id);
      }
    }
    if forall j :: 0 <= j < |ops| ==> !Revives(ops[j], id) {
      DeadUnrevived(ps, ops, cooldown, id, |ops|);
    }
  }

  /** A dead key is rate limited; when the cooldown is over it is handed out again. */
  lemma DeadRevived(now: int, cooldown: int)
    requires now != 0
    ensures var dead := Pool([Credential("key", Dead, None, 60, 0, 1)], 0);
            var limited := Pool([Credential("key", Exhausted, Some(now), 60, 0, 2)], 0);
            && IsDead(dead, "key") && PoolStep(dead, Fail("key", RateLimited, now), limited, cooldown)
            && !IsDead(limited, "key")
            && OkFlags(RecoverAll(limited.creds, now + 60)) == [true]
  {
  }

  lemma {:induction false} DeadUnrevived(ps: seq<Pool>, ops: seq<Op>, cooldown: int, id: string, n: nat)
    requires PoolRun(ps, ops, cooldown) && IsDead(ps[0], id) && n <= |ops|
    requires forall j :: 0 <= j < n ==> !Revives(ops[j], id)
    ensures forall j :: 0 <= j <= n ==> IsDead(ps[j], id)
  {
    if n > 0 {
      DeadUnrevived(ps, ops, cooldown, id, n - 1);
      assert PoolStepAt(ps, ops, cooldown, n - 1);
      DeadStepIff(ps[n - 1], ops[n - 1], ps[n], cooldown, id);
    }
  }

  /** Operation `i` hands out the credential known by `id`. */
  predicate HandsOut(p: Pool, op: Op, id: string) {
    op.Get? && op.got.Some? && op.got == IndexOf(p.creds, id)
  }

  /** Every error report is about a credential handed out and not reported since. */
  ghost predicate Disciplined(ps: seq<Pool>, ops: seq<Op>)
    requires |ps| == |ops| + 1
  {
    forall j :: 0 <= j < |ops| && ops[j].Fail? ==>
      exists i :: 0 <= i < j && HandsOut(ps[i], ops[i], ops[j].id)
                  && forall k :: i < k < j && ops[k].Fail? ==> ops[k].id != ops[j].id
  }

  /** A dead credential is not handed out, so it is not reported again. */
  lemma NotReportedAgain(ps: seq<Pool>, ops: seq<Op>, cooldown: int, t: nat, m: nat)
    requires PoolRun(ps, ops, cooldown) && Disciplined(ps, ops)
    requires t < m < |ops| && ops[t].Fail?
    requires forall j :: t < j <= m ==> IsDead(ps[j], ops[t].id)
    ensures !(ops[m].Fail? && ops[m].id == ops[t].id)
  {
    var id := ops[t].id;
    forall i | 0 <= i < m && HandsOut(ps[i], ops[i], id)
      ensures i < t
    {
      if t < i {
        assert PoolStepAt(ps, ops, cooldown, i) && IsDead(ps[i], id);
        GetSparesDead(ps[i], ops[i].now, ops[i].got, ps[i + 1]);
      }
    }
  }

  /** With one report at most per hand-out and no reset, a terminal error is final. */
  lemma {:induction false} TerminalIsFinal(ps: seq<Pool>, ops: seq<Op>, cooldown: int, t: nat, n: nat)
    requires PoolRun(ps, ops, cooldown) && Disciplined(ps, ops)
    requires t < n <= |ops| && ops[t].Fail? && ops[t].kind == TerminalAuth && IsDead(ps[t + 1], ops[t].id)
    requires forall j :: t < j < n ==> !ops[j].ResetPool?
    ensures forall j :: t < j <= n ==> IsDead(ps[j], ops[t].id)
    decreases n
  {
    if t + 1 < n {
      TerminalIsFinal(ps, ops, cooldown, t, n - 1);
      NotReportedAgain(ps, ops, cooldown, t, n - 1);
      assert PoolStepAt(ps, ops, cooldown, n - 1);
      hide PoolStep, IsDead, Disciplined;
      DeadStepIff(ps[n - 1], ops[n - 1], ps[n], cooldown, ops[t].id);
    }
  }
}
