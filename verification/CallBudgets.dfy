/**
 * Call and token budgets of the model gateway.  A guarded call checks the budget, awaits the
 * provider, and only then records; between the two steps other calls run.
 */
module CallBudgets {
  import opened Common

  type WorkerId = string

  /** A guard's counters, its switch and its limits. */
  datatype Guard = Guard(calls: int, tokens: int, killed: bool, maxCalls: int, maxTokens: int)

  datatype Verdict = Ok | Killed | CallBudgetExceeded | TokenBudgetExceeded

  function Check(g: Guard): Verdict {
    if g.killed then Killed
    else if g.calls >= g.maxCalls then CallBudgetExceeded
    else if g.tokens >= g.maxTokens then TokenBudgetExceeded
    else Ok
  }

  function Recorded(g: Guard, tokens: int): Guard {
    g.(calls := g.calls + 1, tokens := g.tokens + tokens)
  }

  function KilledGuard(g: Guard): Guard {
    g.(killed := true)
  }

  datatype PoolConfig = PoolConfig(
    totalCalls: int,
    totalTokens: int,
    perWorkerCalls: Option<int>,
    perWorkerTokens: Option<int>,
    maxWorkers: nat)

  /** `Math.floor(total / workers)`: with a positive divisor Dafny's division is the floor. */
  function Share(total: int, workers: nat): int
    requires workers > 0
  {
    total / workers
  }

  function NewGuard(cfg: PoolConfig, poolKilled: bool): Guard
    requires cfg.maxWorkers > 0
  {
    Guard(0, 0, poolKilled,
          cfg.perWorkerCalls.GetOr(Share(cfg.totalCalls, cfg.maxWorkers)),
          cfg.perWorkerTokens.GetOr(Share(cfg.totalTokens, cfg.maxWorkers)))
  }

  datatype Pool = Pool(workers: map<WorkerId, Guard>, killed: bool)

  function Registered(pool: Pool, id: WorkerId, cfg: PoolConfig): Pool
    requires cfg.maxWorkers > 0
  {
    if id in pool.workers then pool else pool.(workers := pool.workers[id := NewGuard(cfg, pool.killed)])
  }

  function AllKilled(pool: Pool): Pool {
    Pool(map id | id in pool.workers :: KilledGuard(pool.workers[id]), true)
  }

  // ----- interleaved calls -----

  /** Starting a call checks; finishing it records if the provider succeeded. */
  datatype Event = Start(id: WorkerId) | Finish(id: WorkerId, ok: bool, tokens: nat) | KillAll

  datatype Machine = Machine(pool: Pool, inFlight: map<WorkerId, nat>)

  function Flying(m: Machine, id: WorkerId): nat {
    if id in m.inFlight then m.inFlight[id] else 0
  }

  predicate Admits(m: Machine, id: WorkerId, cfg: PoolConfig)
    requires cfg.maxWorkers > 0
  {
    Check(Registered(m.pool, id, cfg).workers[id]) == Ok
  }

  function Next(m: Machine, e: Event, cfg: PoolConfig): Machine
    requires cfg.maxWorkers > 0
  {
    match e
    case Start(id) =>
      Machine(Registered(m.pool, id, cfg),
              if Admits(m, id, cfg) then m.inFlight[id := Flying(m, id) + 1] else m.inFlight)
    case Finish(id, ok, tokens) =>
      if Flying(m, id) == 0 || id !in m.pool.workers then m
      else
        Machine(if ok then m.pool.(workers := m.pool.workers[id := Recorded(m.pool.workers[id], tokens)]) else m.pool,
                m.inFlight[id := Flying(m, id) - 1])
    case KillAll => m.(pool := AllKilled(m.pool))
  }

  function RunFrom(m: Machine, events: seq<Event>, cfg: PoolConfig): Machine
    requires cfg.maxWorkers > 0
  {
    if events == [] then m else Next(RunFrom(m, events[..|events| - 1], cfg), events[|events| - 1], cfg)
  }

  const FRESH := Machine(Pool(map[], false), map[])

  /** A share is the whole part of an even split. */
  lemma ShareIsTheFloor(total: int, workers: nat)
    requires workers > 0
    ensures workers * Share(total, workers) <= total < workers * (Share(total, workers) + 1)
  {
    assert total == workers * (total / workers) + total % workers;
  }

  /** A worker that is new gets the given limits, or its shares, and is killed iff the pool is. */
  lemma NewGuardByFields(cfg: PoolConfig, poolKilled: bool)
    requires cfg.maxWorkers > 0
    ensures
      var g := NewGuard(cfg, poolKilled);
      && g.calls == 0 && g.tokens == 0 && g.killed == poolKilled
      && g.maxCalls == (if cfg.perWorkerCalls.Some? then cfg.perWorkerCalls.value else Share(cfg.totalCalls, cfg.maxWorkers))
      && g.maxTokens == (if cfg.perWorkerTokens.Some? then cfg.perWorkerTokens.value else Share(cfg.totalTokens, cfg.maxWorkers))
  {
  }

  /**
   * One step, by fields.  A start registers its worker, and is in flight iff the guard is alive and
   * below both limits; it records nothing.
   */
  lemma StartByFields(m: Machine, id: WorkerId, cfg: PoolConfig)
    requires cfg.maxWorkers > 0
    ensures
      var after, g := Next(m, Start(id), cfg), if id in m.pool.workers then m.pool.workers[id] else NewGuard(cfg, m.pool.killed);
      && after.pool.workers == m.pool.workers[id := g] && after.pool.killed == m.pool.killed
      && Flying(after, id) == Flying(m, id) + (if !g.killed && g.calls < g.maxCalls && g.tokens < g.maxTokens then 1 else 0)
      && forall x | x != id :: Flying(after, x) == Flying(m, x)
  {
    if id in m.pool.workers {
      assert m.pool.workers[id := m.pool.workers[id]] == m.pool.workers;
    }
  }

  /** The end of a call in flight takes it off and records one call and its tokens iff it succeeded. */
  lemma FinishByFields(m: Machine, id: WorkerId, ok: bool, tokens: nat, cfg: PoolConfig)
    requires cfg.maxWorkers > 0 && id in m.pool.workers && Flying(m, id) > 0
    ensures
      var after, g := Next(m, Finish(id, ok, tokens), cfg), m.pool.workers[id];
      && Flying(after, id) == Flying(m, id) - 1 && (forall x | x != id :: Flying(after, x) == Flying(m, x))
      && (!ok ==> after.pool == m.pool)
      && (ok ==>
            && after.pool.killed == m.pool.killed
            && after.pool.workers
               == m.pool.workers[id := Guard(g.calls + 1, g.tokens + tokens, g.killed, g.maxCalls, g.maxTokens)])
  {
  }

  /** Never more than `c` calls of one worker in flight, in the end or before. */
  ghost predicate AtMost(m: Machine, events: seq<Event>, cfg: PoolConfig, c: nat)
    requires cfg.maxWorkers > 0
    decreases |events|
  {
    && (forall id :: Flying(RunFrom(m, events, cfg), id) <= c)
    && (events == [] || AtMost(m, events[..|events| - 1], cfg, c))
  }

  function Calls(m: Machine, id: WorkerId): int {
    if id in m.pool.workers then m.pool.workers[id].calls else 0
  }

  function Limit(cfg: PoolConfig): int
    requires cfg.maxWorkers > 0
  {
    cfg.perWorkerCalls.GetOr(Share(cfg.totalCalls, cfg.maxWorkers))
  }

  function TokenLimit(cfg: PoolConfig): int
    requires cfg.maxWorkers > 0
  {
    cfg.perWorkerTokens.GetOr(Share(cfg.totalTokens, cfg.maxWorkers))
  }

  /** The most calls one worker can record with at most `c` of its calls in flight. */
  function Peak(cfg: PoolConfig, c: nat): int
    requires cfg.maxWorkers > 0
  {
    if Limit(cfg) >= 1 && TokenLimit(cfg) >= 1 then Limit(cfg) + c - 1 else 0
  }

  ghost predicate WithinPeak(m: Machine, cfg: PoolConfig, c: nat)
    requires cfg.maxWorkers > 0
  {
    && (forall id | id in m.pool.workers ::
          && m.pool.workers[id].maxCalls == Limit(cfg) && m.pool.workers[id].maxTokens == TokenLimit(cfg)
          && m.pool.workers[id].calls >= 0 && m.pool.workers[id].tokens >= 0
          && m.pool.workers[id].calls + Flying(m, id) <= Peak(cfg, c))
    && (forall id | id in m.inFlight && m.inFlight[id] > 0 :: id in m.pool.workers)
  }

  lemma NextKeepsPeak(m: Machine, e: Event, cfg: PoolConfig, c: nat)
    requires cfg.maxWorkers > 0 && c >= 1
    requires WithinPeak(m, cfg, c)
    requires forall id :: Flying(Next(m, e, cfg), id) <= c
    ensures WithinPeak(Next(m, e, cfg), cfg, c)
  {
    if e.Start? {
      assert Flying(Next(m, e, cfg), e.id) <= c;
    }
  }

  /** With at most `c` calls in flight, recorded and pending calls stay within the limit plus `c - 1`. */
  lemma {:induction false} OvershootIsBounded(events: seq<Event>, cfg: PoolConfig, c: nat)
    requires cfg.maxWorkers > 0 && c >= 1
    requires AtMost(FRESH, events, cfg, c)
    ensures WithinPeak(RunFrom(FRESH, events, cfg), cfg, c)
  {
    if events != [] {
      var n := |events| - 1;
      OvershootIsBounded(events[..n], cfg, c);
      assert RunFrom(FRESH, events, cfg) == Next(RunFrom(FRESH, events[..n], cfg), events[n], cfg);
      NextKeepsPeak(RunFrom(FRESH, events[..n], cfg), events[n], cfg, c);
    }
  }

  /** Every finished call recorded at most `each` tokens. */
  predicate TokensPerCall(events: seq<Event>, each: nat) {
    forall e | e in events && e.Finish? :: e.tokens <= each
  }

  /** Recorded tokens, and room for those of the calls in flight. */
  predicate TokenRoom(tokens: int, flying: nat, limit: int, c: nat, each: nat) {
    tokens + flying * each <= Max(0, limit - 1 + c * each)
  }

  lemma OneMoreFits(tokens: int, flying: nat, limit: int, c: nat, each: nat)
    requires tokens < limit && flying < c
    ensures TokenRoom(tokens, flying + 1, limit, c, each)
  {
    assert (flying + 1) * each <= c * each;
  }

  lemma OneLands(tokens: int, more: nat, flying: nat, limit: int, c: nat, each: nat)
    requires TokenRoom(tokens, flying, limit, c, each) && flying > 0 && more <= each
    ensures TokenRoom(tokens + more, flying - 1, limit, c, each) && TokenRoom(tokens, flying - 1, limit, c, each)
  {
    assert (flying - 1) * each == flying * each - each;
  }

  ghost predicate WithinTokenPeak(m: Machine, cfg: PoolConfig, c: nat, each: nat)
    requires cfg.maxWorkers > 0
  {
    && (forall id | id in m.pool.workers ::
          && m.pool.workers[id].maxTokens == TokenLimit(cfg)
          && TokenRoom(m.pool.workers[id].tokens, Flying(m, id), TokenLimit(cfg), c, each))
    && (forall id | id in m.inFlight && m.inFlight[id] > 0 :: id in m.pool.workers)
  }

  lemma StartKeepsTokenPeak(m: Machine, id: WorkerId, cfg: PoolConfig, c: nat, each: nat)
    requires cfg.maxWorkers > 0 && WithinTokenPeak(m, cfg, c, each)
    requires Flying(Next(m, Start(id), cfg), id) <= c
    ensures WithinTokenPeak(Next(m, Start(id), cfg), cfg, c, each)
  {
    var next := Next(m, Start(id), cfg);
    if Admits(m, id, cfg) {
      OneMoreFits(next.pool.workers[id].tokens, Flying(m, id), TokenLimit(cfg), c, each);
    } else if id !in m.pool.workers {
      NothingFits(TokenLimit(cfg), c, each);
    }
  }

  lemma NothingFits(limit: int, c: nat, each: nat)
    ensures TokenRoom(0, 0, limit, c, each)
  {
  }

  lemma FinishKeepsTokenPeak(m: Machine, id: WorkerId, ok: bool, tokens: nat, cfg: PoolConfig, c: nat, each: nat)
    requires cfg.maxWorkers > 0 && WithinTokenPeak(m, cfg, c, each) && tokens <= each
    ensures WithinTokenPeak(Next(m, Finish(id, ok, tokens), cfg), cfg, c, each)
  {
    if Flying(m, id) > 0 {
      OneLands(m.pool.workers[id].tokens, tokens, Flying(m, id), TokenLimit(cfg), c, each);
    }
  }

  /** The same for tokens: the last call admitted below the limit and `c` calls' tokens at most. */
  lemma {:induction false} TokenOvershootIsBounded(events: seq<Event>, cfg: PoolConfig, c: nat, each: nat)
    requires cfg.maxWorkers > 0 && TokensPerCall(events, each)
    requires AtMost(FRESH, events, cfg, c)
    ensures WithinTokenPeak(RunFrom(FRESH, events, cfg), cfg, c, each)
  {
    if events != [] {
      var n := |events| - 1;
      TokenOvershootIsBounded(events[..n], cfg, c, each);
      var m, e := RunFrom(FRESH, events[..n], cfg), events[n];
      assert e in events;
      match e {
        case Start(id) =>
          assert Flying(RunFrom(FRESH, events, cfg), id) <= c;
          StartKeepsTokenPeak(m, id, cfg, c, each);
        case Finish(id, ok, tokens) => FinishKeepsTokenPeak(m, id, ok, tokens, cfg, c, each);
        case KillAll =>
      }
    }
  }

  // ----- the bound is attained -----

  /** One call after the other, each recording the given tokens. */
  function InTurn(id: WorkerId, spent: seq<nat>): seq<Event> {
    if spent == [] then []
    else InTurn(id, spent[..|spent| - 1]) + [Start(id)] + [Finish(id, true, spent[|spent| - 1])]
  }

  function Burst(id: WorkerId, n: nat): seq<Event> {
    if n == 0 then [] else Burst(id, n - 1) + [Start(id)]
  }

  function Landing(id: WorkerId, n: nat, each: nat): seq<Event> {
    if n == 0 then [] else Landing(id, n - 1, each) + [Finish(id, true, each)]
  }

  function Total(spent: seq<nat>): nat {
    if spent == [] then 0 else Total(spent[..|spent| - 1]) + spent[|spent| - 1]
  }

  function Landed(n: nat, each: nat): nat {
    if n == 0 then 0 else Landed(n - 1, each) + each
  }

  lemma {:induction false} LandedIsProduct(n: nat, each: nat)
    ensures Landed(n, each) == n * each
  {
    if n > 0 {
      LandedIsProduct(n - 1, each);
      assert n * each == (n - 1) * each + each;
    }
  }

  lemma RunSnoc(m: Machine, events: seq<Event>, e: Event, cfg: PoolConfig)
    requires cfg.maxWorkers > 0
    ensures RunFrom(m, events + [e], cfg) == Next(RunFrom(m, events, cfg), e, cfg)
  {
    assert (events + [e])[..|events|] == events;
  }

  lemma {:induction false} RunAppend(m: Machine, a: seq<Event>, b: seq<Event>, cfg: PoolConfig)
    requires cfg.maxWorkers > 0
    ensures RunFrom(m, a + b, cfg) == RunFrom(RunFrom(m, a, cfg), b, cfg)
  {
    if b == [] {
      assert a + b == a;
    } else {
      var n := |b| - 1;
      RunAppend(m, a, b[..n], cfg);
      assert a + b == (a + b[..n]) + [b[n]];
      RunSnoc(m, a + b[..n], b[n], cfg);
    }
  }

  lemma AtMostSnoc(m: Machine, events: seq<Event>, e: Event, cfg: PoolConfig, c: nat)
    requires cfg.maxWorkers > 0 && AtMost(m, events, cfg, c)
    requires forall id :: Flying(RunFrom(m, events + [e], cfg), id) <= c
    ensures AtMost(m, events + [e], cfg, c)
  {
    assert (events + [e])[..|events|] == events;
  }

  lemma {:induction false} AtMostAppend(m: Machine, a: seq<Event>, b: seq<Event>, cfg: PoolConfig, c: nat)
    requires cfg.maxWorkers > 0 && AtMost(m, a, cfg, c) && AtMost(RunFrom(m, a, cfg), b, cfg, c)
    ensures AtMost(m, a + b, cfg, c)
  {
    if b == [] {
      assert a + b == a;
    } else {
      var n := |b| - 1;
      AtMostAppend(m, a, b[..n], cfg, c);
      RunAppend(m, a, b, cfg);
      assert a + b == (a + b[..n]) + [b[n]];
      AtMostSnoc(m, a + b[..n], b[n], cfg, c);
    }
  }

  /** Since `before`, only worker `id` has been at work; it is alive and has these counters. */
  ghost predicate Only(before: Machine, m: Machine, id: WorkerId, calls: int, tokens: int, flying: nat, cfg: PoolConfig)
    requires cfg.maxWorkers > 0
  {
    && !m.pool.killed && id !in before.pool.workers
    && (forall x | x != id :: x in m.pool.workers <==> x in before.pool.workers)
    && (forall x | x in before.pool.workers :: m.pool.workers[x] == before.pool.workers[x])
    && (forall x | x != id :: Flying(m, x) == Flying(before, x))
    && Calls(m, id) == calls && Flying(m, id) == flying
    && (flying > 0 || calls > 0 || tokens > 0 ==> id in m.pool.workers)
    && (id in m.pool.workers ==> m.pool.workers[id] == NewGuard(cfg, false).(calls := calls, tokens := tokens))
  }

  /** Nobody has more than `c` calls in flight, and worker `id` is new. */
  ghost predicate Ready(m: Machine, id: WorkerId, c: nat) {
    && !m.pool.killed && id !in m.pool.workers
    && Flying(m, id) == 0 && forall x :: Flying(m, x) <= c
  }

  lemma NothingYet(m: Machine, id: WorkerId, cfg: PoolConfig, c: nat)
    requires cfg.maxWorkers > 0 && Ready(m, id, c)
    ensures Only(m, m, id, 0, 0, 0, cfg) && AtMost(m, [], cfg, c)
  {
  }

  /** Calls in turn are all admitted as long as neither limit is reached before the last of them. */
  lemma {:induction false} CallsInTurn(m: Machine, id: WorkerId, spent: seq<nat>, cfg: PoolConfig, c: nat)
    requires cfg.maxWorkers > 0 && |spent| <= Limit(cfg) && c >= 1 && Ready(m, id, c)
    requires Total(spent) < TokenLimit(cfg)
    ensures Only(m, RunFrom(m, InTurn(id, spent), cfg), id, |spent|, Total(spent), 0, cfg)
    ensures AtMost(m, InTurn(id, spent), cfg, c)
    decreases |spent|
  {
    if spent == [] {
      NothingYet(m, id, cfg, c);
    } else {
      var n := |spent| - 1;
      CallsInTurn(m, id, spent[..n], cfg, c);
      OneCall(m, m, InTurn(id, spent[..n]), id, n, Total(spent[..n]), spent[n], cfg, c);
    }
  }

  lemma OneCall(
    before: Machine, m: Machine, events: seq<Event>, id: WorkerId, calls: nat, tokens: nat, more: nat, cfg: PoolConfig, c: nat)
    requires cfg.maxWorkers > 0 && calls < Limit(cfg) && tokens < TokenLimit(cfg) && c >= 1
    requires Only(before, RunFrom(m, events, cfg), id, calls, tokens, 0, cfg) && AtMost(m, events, cfg, c)
    requires forall x :: Flying(before, x) <= c
    ensures Only(before, RunFrom(m, events + [Start(id)] + [Finish(id, true, more)], cfg), id, calls + 1, tokens + more, 0, cfg)
    ensures AtMost(m, events + [Start(id)] + [Finish(id, true, more)], cfg, c)
  {
    OneStart(before, m, events, id, calls, tokens, 0, cfg, c);
    OneFinish(before, m, events + [Start(id)], id, calls, tokens, 1, more, cfg, c);
  }

  lemma OneStart(
    before: Machine, m: Machine, events: seq<Event>, id: WorkerId, calls: nat, tokens: nat, flying: nat, cfg: PoolConfig, c: nat)
    requires cfg.maxWorkers > 0 && calls < Limit(cfg) && tokens < TokenLimit(cfg) && flying < c
    requires Only(before, RunFrom(m, events, cfg), id, calls, tokens, flying, cfg) && AtMost(m, events, cfg, c)
    requires forall x :: Flying(before, x) <= c
    ensures Only(before, RunFrom(m, events + [Start(id)], cfg), id, calls, tokens, flying + 1, cfg)
    ensures AtMost(m, events + [Start(id)], cfg, c)
  {
    RunSnoc(m, events, Start(id), cfg);
    StartIsCounted(before, RunFrom(m, events, cfg), id, calls, tokens, flying, cfg);
    AtMostSnoc(m, events, Start(id), cfg, c);
  }

  lemma OneFinish(
    before: Machine, m: Machine, events: seq<Event>, id: WorkerId, calls: nat, tokens: nat, flying: nat, more: nat,
    cfg: PoolConfig, c: nat)
    requires cfg.maxWorkers > 0 && 0 < flying <= c
    requires Only(before, RunFrom(m, events, cfg), id, calls, tokens, flying, cfg) && AtMost(m, events, cfg, c)
    requires forall x :: Flying(before, x) <= c
    ensures Only(before, RunFrom(m, events + [Finish(id, true, more)], cfg), id, calls + 1, tokens + more, flying - 1, cfg)
    ensures AtMost(m, events + [Finish(id, true, more)], cfg, c)
  {
    RunSnoc(m, events, Finish(id, true, more), cfg);
    FinishIsCounted(before, RunFrom(m, events, cfg), id, calls, tokens, flying, more, cfg);
    AtMostSnoc(m, events, Finish(id, true, more), cfg, c);
  }

  lemma StartIsCounted(before: Machine, m: Machine, id: WorkerId, calls: int, tokens: nat, flying: nat, cfg: PoolConfig)
    requires cfg.maxWorkers > 0 && 0 <= calls < Limit(cfg) && tokens < TokenLimit(cfg)
    requires Only(before, m, id, calls, tokens, flying, cfg)
    ensures Only(before, Next(m, Start(id), cfg), id, calls, tokens, flying + 1, cfg)
  {
  }

  lemma FinishIsCounted(
    before: Machine, m: Machine, id: WorkerId, calls: nat, tokens: nat, flying: nat, more: nat, cfg: PoolConfig)
    requires cfg.maxWorkers > 0 && flying > 0
    requires Only(before, m, id, calls, tokens, flying, cfg)
    ensures Only(before, Next(m, Finish(id, true, more), cfg), id, calls + 1, tokens + more, flying - 1, cfg)
  {
  }

  lemma {:induction false} BurstOfCalls(
    before: Machine, m: Machine, id: WorkerId, calls: nat, tokens: nat, n: nat, cfg: PoolConfig, c: nat)
    requires cfg.maxWorkers > 0 && calls < Limit(cfg) && tokens < TokenLimit(cfg) && n <= c
    requires Only(before, m, id, calls, tokens, 0, cfg) && forall x :: Flying(before, x) <= c
    ensures Only(before, RunFrom(m, Burst(id, n), cfg), id, calls, tokens, n, cfg)
    ensures AtMost(m, Burst(id, n), cfg, c)
    decreases n
  {
    if n > 0 {
      BurstOfCalls(before, m, id, calls, tokens, n - 1, cfg, c);
      OneStart(before, m, Burst(id, n - 1), id, calls, tokens, n - 1, cfg, c);
    }
  }

  lemma {:induction false} LandingCalls(
    before: Machine, m: Machine, id: WorkerId, calls: nat, tokens: nat, flying: nat, n: nat, each: nat, cfg: PoolConfig, c: nat)
    requires cfg.maxWorkers > 0 && n <= flying <= c
    requires Only(before, m, id, calls, tokens, flying, cfg) && forall x :: Flying(before, x) <= c
    ensures Only(before, RunFrom(m, Landing(id, n, each), cfg), id, calls + n, tokens + Landed(n, each), flying - n, cfg)
    ensures AtMost(m, Landing(id, n, each), cfg, c)
    decreases n
  {
    if n == 0 {
      NothingLands(before, m, id, calls, tokens, flying, n, each, cfg, c);
    } else {
      LandingCalls(before, m, id, calls, tokens, flying, n - 1, each, cfg, c);
      OneMoreLands(before, m, id, calls, tokens, flying, n, each, cfg, c);
    }
  }

  lemma NothingLands(
    before: Machine, m: Machine, id: WorkerId, calls: nat, tokens: nat, flying: nat, n: nat, each: nat, cfg: PoolConfig, c: nat)
    requires cfg.maxWorkers > 0 && n == 0 && flying <= c
    requires Only(before, m, id, calls, tokens, flying, cfg) && forall x :: Flying(before, x) <= c
    ensures Only(before, RunFrom(m, Landing(id, n, each), cfg), id, calls + n, tokens + Landed(n, each), flying - n, cfg)
    ensures AtMost(m, Landing(id, n, each), cfg, c)
  {
  }

  lemma OneMoreLands(
    before: Machine, m: Machine, id: WorkerId, calls: nat, tokens: nat, flying: nat, n: nat, each: nat, cfg: PoolConfig, c: nat)
    requires cfg.maxWorkers > 0 && 0 < n <= flying <= c && forall x :: Flying(before, x) <= c
    requires Only(before, RunFrom(m, Landing(id, n - 1, each), cfg), id, calls + (n - 1), tokens + Landed(n - 1, each), flying - (n - 1), cfg)
    requires AtMost(m, Landing(id, n - 1, each), cfg, c)
    ensures Only(before, RunFrom(m, Landing(id, n, each), cfg), id, calls + n, tokens + Landed(n, each), flying - n, cfg)
    ensures AtMost(m, Landing(id, n, each), cfg, c)
  {
    OneFinish(before, m, Landing(id, n - 1, each), id, calls + (n - 1), tokens + Landed(n - 1, each), flying - (n - 1), each, cfg, c);
  }

  lemma {:induction false} NoTokens(n: nat)
    ensures Total(Zeros(n)) == 0 && |Zeros(n)| == n
  {
    if n > 0 {
      NoTokens(n - 1);
      assert Zeros(n)[..n - 1] == Zeros(n - 1);
    }
  }

  function Zeros(n: nat): seq<nat> {
    seq(n, _ => 0)
  }

  /** A worker that makes as many calls as it can: all but one in turn, then `c` at once on the last free slot. */
  function Shift(id: WorkerId, cfg: PoolConfig, c: nat): seq<Event>
    requires cfg.maxWorkers > 0
  {
    if Limit(cfg) >= 1 && TokenLimit(cfg) >= 1 then InTurn(id, Zeros(Limit(cfg) - 1)) + Burst(id, c) + Landing(id, c, 0)
    else [Start(id)]
  }

  /** Since `before`, only worker `id` has been at work, without tokens; no call of it is pending. */
  ghost predicate OnlyCalled(before: Machine, m: Machine, id: WorkerId, calls: int, cfg: PoolConfig)
    requires cfg.maxWorkers > 0
  {
    Only(before, m, id, calls, 0, 0, cfg) && id in m.pool.workers
  }

  lemma ShiftReachesPeak(m: Machine, id: WorkerId, cfg: PoolConfig, c: nat)
    requires cfg.maxWorkers > 0 && c >= 1 && Ready(m, id, c)
    ensures OnlyCalled(m, RunFrom(m, Shift(id, cfg, c), cfg), id, Peak(cfg, c), cfg)
    ensures AtMost(m, Shift(id, cfg, c), cfg, c)
  {
    if Limit(cfg) >= 1 && TokenLimit(cfg) >= 1 {
      NoTokens(Limit(cfg) - 1);
      CallsInTurn(m, id, Zeros(Limit(cfg) - 1), cfg, c);
      BurstAndLanding(m, m, InTurn(id, Zeros(Limit(cfg) - 1)), id, Limit(cfg) - 1, 0, 0, cfg, c);
      LandedIsProduct(c, 0);
    } else {
      RefusedShift(m, id, cfg, c);
    }
  }

  lemma RefusedShift(m: Machine, id: WorkerId, cfg: PoolConfig, c: nat)
    requires cfg.maxWorkers > 0 && (Limit(cfg) < 1 || TokenLimit(cfg) < 1) && Ready(m, id, c)
    ensures OnlyCalled(m, RunFrom(m, [Start(id)], cfg), id, 0, cfg)
    ensures AtMost(m, [Start(id)], cfg, c)
  {
    NothingYet(m, id, cfg, c);
    RunSnoc(m, [], Start(id), cfg);
    assert [] + [Start(id)] == [Start(id)];
    StartIsRefused(m, id, cfg);
    AtMostSnoc(m, [], Start(id), cfg, c);
  }

  lemma StartIsRefused(m: Machine, id: WorkerId, cfg: PoolConfig)
    requires cfg.maxWorkers > 0 && (Limit(cfg) < 1 || TokenLimit(cfg) < 1)
    requires Only(m, m, id, 0, 0, 0, cfg)
    ensures OnlyCalled(m, Next(m, Start(id), cfg), id, 0, cfg)
  {
  }

  lemma BurstAndLanding(
    before: Machine, m: Machine, events: seq<Event>, id: WorkerId, calls: nat, tokens: nat, each: nat, cfg: PoolConfig, c: nat)
    requires cfg.maxWorkers > 0 && c >= 1 && calls < Limit(cfg) && tokens < TokenLimit(cfg)
    requires Only(before, RunFrom(m, events, cfg), id, calls, tokens, 0, cfg) && AtMost(m, events, cfg, c)
    requires forall x :: Flying(before, x) <= c
    ensures Only(before, RunFrom(m, events + Burst(id, c) + Landing(id, c, each), cfg), id, calls + c, tokens + Landed(c, each), 0, cfg)
    ensures AtMost(m, events + Burst(id, c) + Landing(id, c, each), cfg, c)
  {
    BurstOfCalls(before, RunFrom(m, events, cfg), id, calls, tokens, c, cfg, c);
    RunAppend(m, events, Burst(id, c), cfg);
    AtMostAppend(m, events, Burst(id, c), cfg, c);
    LandingCalls(before, RunFrom(m, events + Burst(id, c), cfg), id, calls, tokens, c, c, each, cfg, c);
    RunAppend(m, events + Burst(id, c), Landing(id, c, each), cfg);
    AtMostAppend(m, events + Burst(id, c), Landing(id, c, each), cfg, c);
  }

  /** `c` overlapping calls started on the last free slot are all recorded: limit plus `c - 1`. */
  lemma OvershootIsAttained(id: WorkerId, c: nat, cfg: PoolConfig)
    requires cfg.maxWorkers > 0 && c >= 1 && Limit(cfg) >= 1 && TokenLimit(cfg) >= 1
    ensures AtMost(FRESH, Shift(id, cfg, c), cfg, c)
    ensures Calls(RunFrom(FRESH, Shift(id, cfg, c), cfg), id) == Limit(cfg) + c - 1
  {
    ShiftReachesPeak(FRESH, id, cfg, c);
  }

  function TokensOf(m: Machine, id: WorkerId): int {
    if id in m.pool.workers then m.pool.workers[id].tokens else 0
  }

  /**
   * The token bound is attained too: once calls in turn have recorded all tokens but one, `c`
   * overlapping calls are still admitted.
   */
  lemma TokenOvershootIsAttained(id: WorkerId, spent: seq<nat>, c: nat, each: nat, cfg: PoolConfig)
    requires cfg.maxWorkers > 0 && c >= 1 && |spent| < Limit(cfg)
    requires Total(spent) == TokenLimit(cfg) - 1 && forall t | t in spent :: t <= each
    ensures
      var events := InTurn(id, spent) + Burst(id, c) + Landing(id, c, each);
      && AtMost(FRESH, events, cfg, c) && TokensPerCall(events, each)
      && TokensOf(RunFrom(FRESH, events, cfg), id) == TokenLimit(cfg) - 1 + c * each
  {
    CallsInTurn(FRESH, id, spent, cfg, c);
    BurstAndLanding(FRESH, FRESH, InTurn(id, spent), id, |spent|, Total(spent), each, cfg, c);
    LandedIsProduct(c, each);
    InTurnTokens(id, spent, each);
    BurstTokens(id, c, each);
    LandingTokens(id, c, each);
  }

  lemma {:induction false} InTurnTokens(id: WorkerId, spent: seq<nat>, each: nat)
    requires forall t | t in spent :: t <= each
    ensures TokensPerCall(InTurn(id, spent), each)
  {
    if spent != [] {
      var n := |spent| - 1;
      assert spent[n] in spent && forall t | t in spent[..n] :: t in spent;
      InTurnTokens(id, spent[..n], each);
    }
  }

  lemma {:induction false} BurstTokens(id: WorkerId, n: nat, each: nat)
    ensures TokensPerCall(Burst(id, n), each)
  {
    if n > 0 {
      BurstTokens(id, n - 1, each);
    }
  }

  lemma {:induction false} LandingTokens(id: WorkerId, n: nat, each: nat)
    ensures TokensPerCall(Landing(id, n, each), each)
  {
    if n > 0 {
      LandingTokens(id, n - 1, each);
    }
  }

  // ----- the pool -----

  /** `totalUsage.calls` */
  ghost function TotalCalls(workers: map<WorkerId, Guard>): int
    decreases |workers|
  {
    if workers == map[] then 0
    else
      var id :| id in workers;
      workers[id].calls + TotalCalls(workers - {id})
  }

  lemma {:induction false} TotalIsAtMost(workers: map<WorkerId, Guard>, each: nat)
    requires forall id | id in workers :: workers[id].calls <= each
    ensures TotalCalls(workers) <= |workers| * each
    decreases |workers|
  {
    if workers != map[] {
      var id :| id in workers && TotalCalls(workers) == workers[id].calls + TotalCalls(workers - {id});
      TotalIsAtMost(workers - {id}, each);
      assert (workers - {id}).Keys == workers.Keys - {id};
      assert |workers| * each == (|workers| - 1) * each + each;
    }
  }

  lemma {:induction false} TotalIsExactly(workers: map<WorkerId, Guard>, each: int)
    requires forall id | id in workers :: workers[id].calls == each
    ensures TotalCalls(workers) == |workers| * each
    decreases |workers|
  {
    if workers != map[] {
      var id :| id in workers && TotalCalls(workers) == workers[id].calls + TotalCalls(workers - {id});
      TotalIsExactly(workers - {id}, each);
      assert (workers - {id}).Keys == workers.Keys - {id};
      assert |workers| * each == (|workers| - 1) * each + each;
    }
  }

  /** Worker names of different lengths. */
  function Name(i: nat): WorkerId {
    seq(i, _ => 'w')
  }

  /** The first `k` workers, each working its shift to the peak. */
  function Fleet(k: nat, cfg: PoolConfig, c: nat): seq<Event>
    requires cfg.maxWorkers > 0
  {
    if k == 0 then [] else Fleet(k - 1, cfg, c) + Shift(Name(k - 1), cfg, c)
  }

  ghost predicate AtPeak(m: Machine, k: nat, cfg: PoolConfig, c: nat)
    requires cfg.maxWorkers > 0
  {
    && !m.pool.killed && |m.pool.workers| == k
    && (forall id | id in m.pool.workers :: |id| < k && m.pool.workers[id].calls == Peak(cfg, c))
    && forall id :: Flying(m, id) == 0
  }

  lemma {:induction false} FleetReachesPeak(k: nat, cfg: PoolConfig, c: nat)
    requires cfg.maxWorkers > 0 && c >= 1
    ensures AtMost(FRESH, Fleet(k, cfg, c), cfg, c)
    ensures AtPeak(RunFrom(FRESH, Fleet(k, cfg, c), cfg), k, cfg, c)
  {
    if k == 0 {
      NobodyYet(cfg, c);
    } else {
      FleetReachesPeak(k - 1, cfg, c);
      OneMoreShift(Fleet(k - 1, cfg, c), k, cfg, c);
    }
  }

  lemma NobodyYet(cfg: PoolConfig, c: nat)
    requires cfg.maxWorkers > 0
    ensures AtMost(FRESH, [], cfg, c) && AtPeak(FRESH, 0, cfg, c) && RunFrom(FRESH, [], cfg) == FRESH
  {
  }

  lemma OneMoreShift(events: seq<Event>, k: nat, cfg: PoolConfig, c: nat)
    requires cfg.maxWorkers > 0 && c >= 1 && k > 0
    requires AtMost(FRESH, events, cfg, c) && AtPeak(RunFrom(FRESH, events, cfg), k - 1, cfg, c)
    ensures AtMost(FRESH, events + Shift(Name(k - 1), cfg, c), cfg, c)
    ensures AtPeak(RunFrom(FRESH, events + Shift(Name(k - 1), cfg, c), cfg), k, cfg, c)
  {
    var m, id := RunFrom(FRESH, events, cfg), Name(k - 1);
    ShiftReachesPeak(m, id, cfg, c);
    RunAppend(FRESH, events, Shift(id, cfg, c), cfg);
    AtMostAppend(FRESH, events, Shift(id, cfg, c), cfg, c);
    OneMoreAtPeak(m, RunFrom(m, Shift(id, cfg, c), cfg), k, cfg, c);
  }

  lemma OneMoreAtPeak(m: Machine, next: Machine, k: nat, cfg: PoolConfig, c: nat)
    requires cfg.maxWorkers > 0 && k > 0 && AtPeak(m, k - 1, cfg, c)
    requires OnlyCalled(m, next, Name(k - 1), Peak(cfg, c), cfg)
    ensures AtPeak(next, k, cfg, c)
  {
    var id := Name(k - 1);
    assert next.pool.workers.Keys == m.pool.workers.Keys + {id};
    forall x | x in next.pool.workers && x != id
      ensures x in m.pool.workers && next.pool.workers[x] == m.pool.workers[x]
    {
    }
    forall x
      ensures Flying(next, x) == 0
    {
    }
  }

  /** A run with `k` registered workers and at most `c` calls of each in flight. */
  ghost predicate Employs(events: seq<Event>, cfg: PoolConfig, c: nat, k: nat)
    requires cfg.maxWorkers > 0
  {
    AtMost(FRESH, events, cfg, c) && |RunFrom(FRESH, events, cfg).pool.workers| == k
  }

  ghost function CallsIn(events: seq<Event>, cfg: PoolConfig): int
    requires cfg.maxWorkers > 0
  {
    TotalCalls(RunFrom(FRESH, events, cfg).pool.workers)
  }

  /**
   * Exactly when the pool keeps its total: every run with `k` registered workers and at most `c`
   * calls of each in flight stays within it iff `k` workers at their peak do.
   */
  lemma PoolKeepsItsTotalIff(cfg: PoolConfig, c: nat, k: nat)
    requires cfg.maxWorkers > 0 && c >= 1
    ensures
      (forall events | Employs(events, cfg, c, k) :: CallsIn(events, cfg) <= cfg.totalCalls) <==> k * Peak(cfg, c) <= cfg.totalCalls
  {
    var events := Fleet(k, cfg, c);
    FleetReachesPeak(k, cfg, c);
    TotalIsExactly(RunFrom(FRESH, events, cfg).pool.workers, Peak(cfg, c));
    assert Employs(events, cfg, c, k) && CallsIn(events, cfg) == k * Peak(cfg, c);
    forall run | Employs(run, cfg, c, k)
      ensures CallsIn(run, cfg) <= k * Peak(cfg, c)
    {
      OvershootIsBounded(run, cfg, c);
      TotalIsAtMost(RunFrom(FRESH, run, cfg).pool.workers, Peak(cfg, c));
    }
  }

  lemma SharesFit(total: nat, workers: nat, registered: nat)
    requires workers > 0 && registered <= workers
    ensures registered * Share(total, workers) <= total
  {
    assert registered * (total / workers) <= workers * (total / workers) <= total;
  }

  /** Default shares, no more workers than planned, one call per worker at a time: the pool keeps its total. */
  lemma PoolKeepsItsTotal(events: seq<Event>, cfg: PoolConfig)
    requires cfg.maxWorkers > 0 && cfg.totalCalls >= 0 && cfg.perWorkerCalls.None?
    requires AtMost(FRESH, events, cfg, 1)
    requires |RunFrom(FRESH, events, cfg).pool.workers| <= cfg.maxWorkers
    ensures TotalCalls(RunFrom(FRESH, events, cfg).pool.workers) <= cfg.totalCalls
  {
    var k := |RunFrom(FRESH, events, cfg).pool.workers|;
    PoolKeepsItsTotalIff(cfg, 1, k);
    assert Employs(events, cfg, 1, k) && CallsIn(events, cfg) == TotalCalls(RunFrom(FRESH, events, cfg).pool.workers);
    SharesFit(cfg.totalCalls, cfg.maxWorkers, k);
  }

  /** Nothing enforces `maxWorkers`: where the shares use up the budget, any worker beyond the plan can overspend it. */
  lemma ExtraWorkersOverspend(cfg: PoolConfig, k: nat) returns (events: seq<Event>)
    requires cfg.maxWorkers > 0 && cfg.perWorkerCalls.None? && TokenLimit(cfg) >= 1
    requires Limit(cfg) >= 1 && cfg.totalCalls == cfg.maxWorkers * Limit(cfg)
    requires k > cfg.maxWorkers
    ensures AtMost(FRESH, events, cfg, 1) && |RunFrom(FRESH, events, cfg).pool.workers| == k
    ensures TotalCalls(RunFrom(FRESH, events, cfg).pool.workers) > cfg.totalCalls
  {
    events := Fleet(k, cfg, 1);
    MoreSharesOverspend(cfg.maxWorkers, Share(cfg.totalCalls, cfg.maxWorkers), k);
    FleetReachesPeak(k, cfg, 1);
    TotalIsExactly(RunFrom(FRESH, events, cfg).pool.workers, Peak(cfg, 1));
  }

  lemma {:induction false} MoreSharesOverspend(workers: nat, share: int, k: nat)
    requires share >= 1 && k > workers
    ensures k * share > workers * share
  {
    assert k * share == (k - 1) * share + share;
    if k - 1 > workers {
      MoreSharesOverspend(workers, share, k - 1);
    }
  }

  ghost predicate EverythingKilled(m: Machine) {
    m.pool.killed && forall id | id in m.pool.workers :: m.pool.workers[id].killed
  }

  /** After `killAll` no call starts on any worker, whenever it registers. */
  lemma {:induction false} NothingStartsAfterKillAll(m: Machine, events: seq<Event>, cfg: PoolConfig)
    requires cfg.maxWorkers > 0 && EverythingKilled(m)
    ensures EverythingKilled(RunFrom(m, events, cfg))
    ensures forall id :: Flying(RunFrom(m, events, cfg), id) <= Flying(m, id)
    ensures forall id :: !Admits(RunFrom(m, events, cfg), id, cfg)
  {
    if events != [] {
      NothingStartsAfterKillAll(m, events[..|events| - 1], cfg);
    }
  }

  lemma KillAllKillsEverything(m: Machine, cfg: PoolConfig)
    requires cfg.maxWorkers > 0
    ensures EverythingKilled(Next(m, KillAll, cfg))
  {
  }

  // ----- the classes -----

  class BudgetGuard {
    const maxCalls: int
    const maxTokens: int
    var calls: int
    var tokens: int
    var killed: bool

    ghost function View(): Guard
      reads this
    {
      Guard(calls, tokens, killed, maxCalls, maxTokens)
    }

    constructor (maxCalls: int, maxTokens: int)
      ensures View() == Guard(0, 0, false, maxCalls, maxTokens)
    {
      this.maxCalls, this.maxTokens := maxCalls, maxTokens;
      calls, tokens, killed := 0, 0, false;
    }

    method CheckBudget() returns (verdict: Verdict)
      ensures verdict == Check(View())
      ensures verdict == Killed <==> killed
      ensures verdict == CallBudgetExceeded <==> !killed && calls >= maxCalls
      ensures verdict == TokenBudgetExceeded <==> !killed && calls < maxCalls && tokens >= maxTokens
    {
      if killed {
        return Killed;
      }
      if calls >= maxCalls {
        return CallBudgetExceeded;
      }
      if tokens >= maxTokens {
        return TokenBudgetExceeded;
      }
      return Ok;
    }

    method Record(inputTokens: nat, outputTokens: nat)
      modifies this
      ensures View() == Recorded(old(View()), inputTokens + outputTokens)
      ensures calls == old(calls) + 1 && tokens == old(tokens) + inputTokens + outputTokens && killed == old(killed)
    {
      calls := calls + 1;
      tokens := tokens + inputTokens + outputTokens;
    }

    method Kill()
      modifies this
      ensures View() == KilledGuard(old(View()))
      ensures killed && calls == old(calls) && tokens == old(tokens)
    {
      killed := true;
    }
  }

  class RunBudgetPool {
    const config: PoolConfig
    var workers: map<WorkerId, BudgetGuard>
    var killed: bool

    ghost predicate Valid()
      reads this
    {
      && config.maxWorkers > 0
      && forall a, b | a in workers && b in workers && a != b :: workers[a] != workers[b]
    }

    ghost function View(): Pool
      reads this, workers.Values
    {
      Pool(map id | id in workers :: workers[id].View(), killed)
    }

    constructor (config: PoolConfig)
      requires config.maxWorkers > 0
      ensures Valid() && this.config == config && View() == FRESH.pool
    {
      this.config := config;
      workers, killed := map[], false;
    }

    method RegisterWorker(id: WorkerId) returns (guard: BudgetGuard)
      requires Valid()
      modifies this
      ensures Valid() && View() == Registered(old(View()), id, config)
      ensures id in workers && guard == workers[id]
      ensures id in old(workers) || fresh(guard)
    {
      if id in workers {
        return workers[id];
      }
      ghost var before := View();
      guard := MakeGuard();
      assert View() == before;
      workers := workers[id := guard];
    }

    /** A guard with the worker's share, killed if the pool was killed before. */
    method MakeGuard() returns (guard: BudgetGuard)
      requires config.maxWorkers > 0
      ensures fresh(guard) && guard.View() == NewGuard(config, killed)
    {
      var callBudget := if config.perWorkerCalls.Some? then config.perWorkerCalls.value
                        else Share(config.totalCalls, config.maxWorkers);
      var tokenBudget := if config.perWorkerTokens.Some? then config.perWorkerTokens.value
                         else Share(config.totalTokens, config.maxWorkers);
      guard := new BudgetGuard(callBudget, tokenBudget);
      if killed {
        guard.Kill();
      }
    }

    method KillEverything()
      requires Valid()
      modifies this, workers.Values
      ensures Valid() && View() == AllKilled(old(View()))
      ensures workers == old(workers)
    {
      killed := true;
      var left := workers.Keys;
      while left != {}
        invariant workers == old(workers) && killed && Valid() && left <= workers.Keys
        invariant forall id | id in workers ::
                    workers[id].View() == if id in left then old(workers[id].View()) else KilledGuard(old(workers[id].View()))
        decreases |left|
      {
        var id :| id in left;
        workers[id].Kill();
        left := left - {id};
      }
    }
  }
}
