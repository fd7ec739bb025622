/** What one request goes by: the settings it works from, who may serve it, and what its attempts teach the balancer. */
module RequestRules {
  import opened Basics
  import opened Backends
  import opened RetryPolicy
  import opened RetryBudgets
  import opened StickyPins
  import opened Placement
  import RoundRobin
  import HealthChecking
  import CircuitBreaking
  import ConsistentHashing
  import Rendezvous

  datatype FailurePolicy = RetryNextBackend | FailFast | CircuitBreakerPolicy

  /** The most attempts a policy allows a request: retries are for one policy only. */
  function AttemptsFor(policy: FailurePolicy, maxRetries: nat): nat {
    if policy == RetryNextBackend then 1 + maxRetries else 1
  }

  /** Everything about forwarding that a reload replaces; a request works from one of these throughout. */
  datatype Settings = Settings(
    strategy: Strategy, pool: seq<Backend>, breaker: CircuitBreaking.Breaker, budget: RetryBudget,
    attempts: nat, pins: Option<Pins>)

  /** What a configuration says about forwarding, with its backends already merged into the running pool. */
  datatype Config = Config(
    policy: FailurePolicy, maxRetries: nat, retryPercent: real, retryMinimum: int,
    failureThreshold: int, openDuration: real, sticky: bool, cookieName: Str)

  /**
   The settings of a new configuration start afresh: idle counters, every circuit
   closed, and a token for every backend.
   */
  method SettingsFor(config: Config, strategy: Strategy, pool: seq<Backend>, token: Token) returns (settings: Settings)
    requires config.policy == CircuitBreakerPolicy ==> config.failureThreshold >= 1
    ensures settings.strategy == strategy && settings.pool == pool
    ensures fresh(settings.breaker) && settings.breaker.Valid() && settings.breaker.history == []
    ensures settings.breaker.enabled <==> config.policy == CircuitBreakerPolicy
    ensures settings.breaker.threshold == config.failureThreshold
    ensures settings.breaker.openDuration == config.openDuration
    ensures fresh(settings.budget) && settings.budget.requests == 0 && settings.budget.retries == 0
    ensures settings.budget.percent == config.retryPercent && settings.budget.minimum == config.retryMinimum
    ensures settings.attempts == if config.policy == RetryNextBackend then 1 + config.maxRetries else 1
    ensures settings.pins.Some? <==> config.sticky
    ensures settings.pins.Some? ==>
              settings.pins.value.name == config.cookieName && ArePins(settings.pins.value, token, pool)
  {
    var breaker := new CircuitBreaking.Breaker(config.policy == CircuitBreakerPolicy, config.failureThreshold,
                                               config.openDuration);
    var budget := new RetryBudget(config.retryPercent, config.retryMinimum);
    var pins := NewPins(config.sticky, config.cookieName, token, pool);
    settings := Settings(strategy, pool, breaker, budget, AttemptsFor(config.policy, config.maxRetries), pins);
  }

  datatype Request = Request(httpMethod: string, key: Str, jar: Jar)

  /** What the world does in one attempt: when it starts and fails, the random draws, and how it ends. */
  datatype Round = Round(asked: real, draws: Draws, outcome: Outcome, failedAt: real)

  // ------------------------------------------------------- who may serve

  /** The backends of a pool whose addresses are in a set, in the pool's order. */
  function Keep(pool: seq<Backend>, addrs: set<Str>): (kept: seq<Backend>)
    ensures forall b :: b in kept ==> b in pool && b.addr in addrs
    ensures forall b :: b in pool && b.addr in addrs ==> b in kept
  {
    if pool == [] then [] else
      assert pool == pool[..|pool| - 1] + [pool[|pool| - 1]];
      Keep(pool[..|pool| - 1], addrs) + if pool[|pool| - 1].addr in addrs then [pool[|pool| - 1]] else []
  }

  lemma {:induction false} KeepIsDistinct(pool: seq<Backend>, addrs: set<Str>)
    requires Distinct(Addrs(pool))
    ensures Distinct(Addrs(Keep(pool, addrs)))
  {
    if pool != [] {
      var rest, last := pool[..|pool| - 1], pool[|pool| - 1];
      forall i, j | 0 <= i < j < |rest|
        ensures Addrs(rest)[i] != Addrs(rest)[j]
      {
        assert Addrs(pool)[i] != Addrs(pool)[j];
      }
      KeepIsDistinct(rest, addrs);
      forall i | 0 <= i < |Keep(rest, addrs)|
        ensures Keep(rest, addrs)[i].addr != last.addr
      {
        assert Keep(rest, addrs)[i] in rest;
        var k :| 0 <= k < |rest| && rest[k] == Keep(rest, addrs)[i];
        assert Addrs(pool)[k] != Addrs(pool)[|pool| - 1];
      }
    }
  }

  ghost function AddrsIn(pool: seq<Backend>): set<Str> {
    set b | b in pool :: b.addr
  }

  /** The backends found fit or, when there is none, all that have not been tried. */
  ghost function Eligible(pool: seq<Backend>, tried: set<Str>, fit: set<Str>): seq<Backend> {
    if Keep(pool, fit) != [] then Keep(pool, fit) else Keep(pool, AddrsIn(pool) - tried)
  }

  lemma EligibleUnlessAllTried(pool: seq<Backend>, tried: set<Str>, fit: set<Str>)
    requires fit !! tried
    ensures forall b :: b in Eligible(pool, tried, fit) ==> b in pool && b.addr !in tried
    ensures Eligible(pool, tried, fit) == [] <==> forall b :: b in pool ==> b.addr in tried
    ensures Distinct(Addrs(pool)) ==> Distinct(Addrs(Eligible(pool, tried, fit)))
  {
    if Distinct(Addrs(pool)) {
      KeepIsDistinct(pool, fit);
      KeepIsDistinct(pool, AddrsIn(pool) - tried);
    }
    if Eligible(pool, tried, fit) == [] {
      forall b | b in pool
        ensures b.addr in tried
      {
        assert b.addr in AddrsIn(pool);
        assert b !in Keep(pool, AddrsIn(pool) - tried);
      }
    } else {
      assert Eligible(pool, tried, fit)[0] in pool;
    }
  }

  /** Leaving backends out of the candidates is, to consistent hashing, the same as their leaving the pool. */
  lemma {:induction false} LeftOutAsIfGone(sight: Sight, pool: seq<Backend>, addrs: set<Str>, gone: set<Str>)
    requires forall b :: b in pool ==> (b.addr in addrs <==> b.addr !in gone)
    ensures ConsistentHashing.Views(sight, Keep(pool, addrs))
       == Rendezvous.Survivors(ConsistentHashing.Views(sight, pool), gone)
  {
    if pool != [] {
      var rest, last := pool[..|pool| - 1], pool[|pool| - 1];
      var views := ConsistentHashing.Views(sight, pool);
      assert views[..|views| - 1] == ConsistentHashing.Views(sight, rest);
      LeftOutAsIfGone(sight, rest, addrs, gone);
      var one := if last.addr in addrs then [last] else [];
      assert Keep(pool, addrs) == Keep(rest, addrs) + one;
      assert ConsistentHashing.Views(sight, Keep(rest, addrs) + one)
          == ConsistentHashing.Views(sight, Keep(rest, addrs)) + ConsistentHashing.Views(sight, one);
    }
  }

  /** Everything health checking and the circuit breaker have been told. */
  datatype Knowledge = Knowledge(health: seq<HealthChecking.Event>, circuits: seq<CircuitBreaking.Event>)

  ghost predicate Healthy(k: Knowledge, addr: Str) {
    var tracked := HealthChecking.Tracked(k.health, addr);
    tracked.None? || tracked.value.healthy
  }

  ghost predicate LetThrough(breaker: CircuitBreaking.Breaker, k: Knowledge, addr: Str, now: real) {
    breaker.enabled ==>
      CircuitBreaking.MayReceive(k.circuits, addr, |k.circuits|, now, breaker.threshold, breaker.openDuration)
  }

  /** The addresses that are fit to serve: not tried, healthy, and let through by the breaker. */
  ghost function Fit(settings: Settings, k: Knowledge, tried: set<Str>, now: real): set<Str> {
    set b |
      && b in settings.pool && b.addr !in tried
      && Healthy(k, b.addr) && LetThrough(settings.breaker, k, b.addr, now)
    :: b.addr
  }

  lemma FitIsUntried(settings: Settings, k: Knowledge, tried: set<Str>, now: real)
    ensures Fit(settings, k, tried, now) !! tried
  {
  }

  ghost function Candidates(settings: Settings, k: Knowledge, tried: set<Str>, now: real): seq<Backend> {
    Eligible(settings.pool, tried, Fit(settings, k, tried, now))
  }

  /** By its trace of outcomes health checking has not taken a backend out, and the breaker would let it through. */
  ghost predicate MayServe(settings: Settings, k: Knowledge, addr: Str, now: real, u: nat, h: nat) {
    var trace := HealthChecking.TraceOf(k.health, addr);
    && (trace.None? || !HealthChecking.IsOut(trace.value, u, h))
    && (settings.breaker.enabled ==>
          CircuitBreaking.MayReceive(k.circuits, addr, |k.circuits|, now, settings.breaker.threshold,
                                     settings.breaker.openDuration))
  }

  /**
   Under fixed health thresholds the candidates are the untried backends that may
   serve by their traces, and all the untried ones only when none of them may.
   */
  lemma CandidatesByTrace(settings: Settings, k: Knowledge, tried: set<Str>, now: real, u: nat, h: nat, b: Backend)
    requires u >= 1 && h >= 1 && HealthChecking.FixedThresholds(k.health, u, h)
    ensures b in Candidates(settings, k, tried, now)
       <==> && b in settings.pool && b.addr !in tried
            && (|| MayServe(settings, k, b.addr, now, u, h)
                || forall c :: c in settings.pool && c.addr !in tried ==> !MayServe(settings, k, c.addr, now, u, h))
  {
    forall c | c in settings.pool
      ensures c.addr in Fit(settings, k, tried, now) <==> c.addr !in tried && MayServe(settings, k, c.addr, now, u, h)
    {
      HealthyByTrace(k, c.addr, u, h);
    }
    var fit := Fit(settings, k, tried, now);
    assert Keep(settings.pool, fit) == [] || Keep(settings.pool, fit)[0] in Keep(settings.pool, fit);
  }

  lemma HealthyByTrace(k: Knowledge, addr: Str, u: nat, h: nat)
    requires u >= 1 && h >= 1 && HealthChecking.FixedThresholds(k.health, u, h)
    ensures Healthy(k, addr)
       <==> var trace := HealthChecking.TraceOf(k.health, addr);
            trace.None? || !HealthChecking.IsOut(trace.value, u, h)
  {
    HealthChecking.TrackedByTrace(k.health, addr, u, h);
    if HealthChecking.TraceOf(k.health, addr).Some? {
      HealthChecking.OutByTrace(HealthChecking.TraceOf(k.health, addr).value, u, h);
    }
  }

  /** Candidates stand in the order of the pool. */
  lemma {:induction false} KeepKeepsOrder(pool: seq<Backend>, addrs: set<Str>, i: nat, j: nat, p: nat, q: nat)
    requires Distinct(pool) && i < j < |Keep(pool, addrs)| && p < |pool| && q < |pool|
    requires Keep(pool, addrs)[i] == pool[p] && Keep(pool, addrs)[j] == pool[q]
    ensures p < q
  {
    var rest, last := pool[..|pool| - 1], pool[|pool| - 1];
    var kept := Keep(rest, addrs);
    assert kept[i] in rest;
    var m :| 0 <= m < |rest| && rest[m] == kept[i];
    assert m == p;
    if j < |kept| {
      assert kept[j] in rest;
      var n :| 0 <= n < |rest| && rest[n] == kept[j];
      assert n == q;
      KeepKeepsOrder(rest, addrs, i, j, p, q);
    }
  }

  // ------------------------------------------------- what the balancer learns

  /** The questions put to an enabled breaker about the first `n` backends: one for each that is untried and healthy. */
  ghost function Questions(settings: Settings, k: Knowledge, tried: set<Str>, now: real,
                           n: nat): seq<CircuitBreaking.Event>
    requires n <= |settings.pool|
  {
    if n == 0 then [] else
      var addr := settings.pool[n - 1].addr;
      Questions(settings, k, tried, now, n - 1)
      + if settings.breaker.enabled && addr !in tried && Healthy(k, addr)
        then [QuestionOf(settings, k, now, addr)] else []
  }

  ghost function QuestionOf(settings: Settings, k: Knowledge, now: real, addr: Str): CircuitBreaking.Event {
    CircuitBreaking.Asked(addr, now, LetThrough(settings.breaker, k, addr, now))
  }

  /** What is known once the candidates for an attempt have been determined. */
  ghost function Asked(settings: Settings, k: Knowledge, tried: set<Str>, now: real): Knowledge {
    k.(circuits := k.circuits + Questions(settings, k, tried, now, |settings.pool|))
  }

  /** What an attempt teaches: its outcome, unless its client went away. */
  ghost function Learned(settings: Settings, k: Knowledge, addr: Str, round: Round): Knowledge {
    var o := round.outcome;
    if !o.Reported() then k else
      Knowledge(
        k.health + [HealthChecking.Outcome(addr, o.Served?)],
        k.circuits
        + if !settings.breaker.enabled then []
          else [if o.Served? then CircuitBreaking.Succeeded(addr) else CircuitBreaking.Failed(addr, round.failedAt)])
  }

  /** Nobody is asked about once all have been tried. */
  lemma {:induction false} NobodyToAsk(settings: Settings, k: Knowledge, tried: set<Str>, now: real, n: nat)
    requires n <= |settings.pool| && forall b :: b in settings.pool ==> b.addr in tried
    ensures Questions(settings, k, tried, now, n) == []
  {
    if n > 0 {
      NobodyToAsk(settings, k, tried, now, n - 1);
    }
  }

  /** The questions about the first `n` backends are about none of the others. */
  lemma {:induction false} QuestionsAreAbout(settings: Settings, k: Knowledge, tried: set<Str>, now: real, n: nat,
                                             i: nat)
    requires Distinct(Addrs(settings.pool)) && n <= i < |settings.pool|
    ensures forall q :: q in Questions(settings, k, tried, now, n) ==> q.addr != settings.pool[i].addr
  {
    if n > 0 {
      QuestionsAreAbout(settings, k, tried, now, n - 1, i);
      assert Addrs(settings.pool)[n - 1] != Addrs(settings.pool)[i];
    }
  }

  /** Where among the questions about the first `n` backends the one about an untried healthy backend is. */
  lemma {:induction false} QuestionAbout(settings: Settings, k: Knowledge, tried: set<Str>, now: real, n: nat, j: nat)
    returns (i: nat)
    requires j < n <= |settings.pool| && settings.breaker.enabled
    requires settings.pool[j].addr !in tried && Healthy(k, settings.pool[j].addr)
    ensures i < |Questions(settings, k, tried, now, n)|
    ensures Questions(settings, k, tried, now, n)[i] == QuestionOf(settings, k, now, settings.pool[j].addr)
  {
    var before := Questions(settings, k, tried, now, n - 1);
    if j == n - 1 {
      i := |before|;
      assert Questions(settings, k, tried, now, n) == before + [QuestionOf(settings, k, now, settings.pool[j].addr)];
    } else {
      i := QuestionAbout(settings, k, tried, now, n - 1, j);
      assert Questions(settings, k, tried, now, n)[i] == before[i];
    }
  }

  lemma {:induction false} OnlyQuestions(settings: Settings, k: Knowledge, tried: set<Str>, now: real, n: nat)
    requires n <= |settings.pool|
    ensures forall q :: q in Questions(settings, k, tried, now, n) ==> q.Asked?
  {
    if n > 0 {
      OnlyQuestions(settings, k, tried, now, n - 1);
    }
  }

  /**
   Determining the candidates spends the probe of every backend whose circuit is
   open and whose time is up, the one that is then chosen and the others alike:
   asked about again with nothing else recorded, none is let through, however late.
   */
  lemma AskingSpendsTheProbe(settings: Settings, k: Knowledge, tried: set<Str>, now: real, b: Backend, later: real)
    requires settings.breaker.enabled && settings.breaker.threshold >= 1
    requires b in settings.pool && b.addr in Fit(settings, k, tried, now)
    requires CircuitBreaking.IsOpen(k.circuits, b.addr, |k.circuits|, settings.breaker.threshold)
    ensures var asked := Asked(settings, k, tried, now);
            && !LetThrough(settings.breaker, asked, b.addr, later)
            && CircuitBreaking.IsOpen(asked.circuits, b.addr, |asked.circuits|, settings.breaker.threshold)
            && CircuitBreaking.GrantOutstanding(asked.circuits, b.addr, |asked.circuits|)
  {
    var j :| 0 <= j < |settings.pool| && settings.pool[j] == b;
    var n := |settings.pool|;
    var i := QuestionAbout(settings, k, tried, now, n, j);
    OnlyQuestions(settings, k, tried, now, n);
    CircuitBreaking.QuestionSpendsTheProbe(k.circuits, Questions(settings, k, tried, now, n), b.addr, i, later,
                                           settings.breaker.threshold, settings.breaker.openDuration);
  }

  /** Asked about late enough, with nothing else recorded, the backend will be let through. */
  ghost predicate SomeDay(settings: Settings, k: Knowledge, addr: Str) {
    exists later: real :: LetThrough(settings.breaker, k, addr, later)
  }

  /**
   The probe of an open circuit whose time is up is carried out by an attempt if and
   only if the attempt goes to that backend and its client stays for the outcome:
   in every other case the backend is not let through again, however late.
   */
  lemma ProbeIsCarriedOut(settings: Settings, k: Knowledge, tried: set<Str>, b: Backend, c: Backend, round: Round)
    requires settings.breaker.enabled && settings.breaker.threshold >= 1
    requires b in settings.pool && b.addr in Fit(settings, k, tried, round.asked)
    requires CircuitBreaking.IsOpen(k.circuits, b.addr, |k.circuits|, settings.breaker.threshold)
    ensures SomeDay(settings, Learned(settings, Asked(settings, k, tried, round.asked), c.addr, round), b.addr)
       <==> c.addr == b.addr && round.outcome.Reported()
  {
    var asked := Asked(settings, k, tried, round.asked);
    var learned := Learned(settings, asked, c.addr, round);
    AskingSpendsTheProbe(settings, k, tried, round.asked, b, 0.0);
    if round.outcome.Reported() {
      CircuitBreaking.OutstandingUntilAnOutcome(asked.circuits, learned.circuits[|asked.circuits|], b.addr,
                                                settings.breaker.threshold);
    }
    SomeDayByCircuit(settings, learned, b.addr);
  }

  lemma SomeDayByCircuit(settings: Settings, k: Knowledge, addr: Str)
    requires settings.breaker.enabled && settings.breaker.threshold >= 1
    ensures SomeDay(settings, k, addr)
       <==> !(CircuitBreaking.IsOpen(k.circuits, addr, |k.circuits|, settings.breaker.threshold)
              && CircuitBreaking.GrantOutstanding(k.circuits, addr, |k.circuits|))
  {
    var n, threshold, openDuration := |k.circuits|, settings.breaker.threshold, settings.breaker.openDuration;
    CircuitBreaking.LetThroughSomeDay(k.circuits, addr, n, threshold, openDuration);
    if later: real :| CircuitBreaking.MayReceive(k.circuits, addr, n, later, threshold, openDuration) {
      assert LetThrough(settings.breaker, k, addr, later);
    }
    if later: real :| LetThrough(settings.breaker, k, addr, later) {
      assert CircuitBreaking.MayReceive(k.circuits, addr, n, later, threshold, openDuration);
    }
  }

  // -------------------------------------------- a request, attempt by attempt

  /**
   What a request starts from: its settings, its key and its cookie's backend, what
   it sees of its pool, what is known, what the strategy remembers, and what the
   world will do.
   */
  datatype Start = Start(
    settings: Settings, idempotent: bool, key: Str, pinned: Option<Backend>, world: seq<Round>,
    sight: Sight, known: Knowledge, memory: Memory)
  {
    ghost predicate Valid() {
      Distinct(Addrs(settings.pool)) && 1 <= settings.attempts <= |world|
    }
  }

  /** What is known after the first `n` attempts of a request. */
  ghost function KnownAfter(s: Start, offered: seq<Backend>, n: nat): Knowledge
    requires n <= |offered| && n <= |s.world|
  {
    if n == 0 then s.known else
      var asked := Asked(s.settings, KnownAfter(s, offered, n - 1), AddrsIn(offered[..n - 1]), s.world[n - 1].asked);
      Learned(s.settings, asked, offered[n - 1].addr, s.world[n - 1])
  }

  /** What is known once the candidates for attempt `n` (from 0) have been determined. */
  ghost function AskedBefore(s: Start, offered: seq<Backend>, n: nat): Knowledge
    requires n <= |offered| && n < |s.world|
  {
    Asked(s.settings, KnownAfter(s, offered, n), AddrsIn(offered[..n]), s.world[n].asked)
  }

  /** The candidates for attempt `n`. */
  ghost function CandidatesFor(s: Start, offered: seq<Backend>, n: nat): seq<Backend>
    requires n <= |offered| && n < |s.world|
  {
    Candidates(s.settings, KnownAfter(s, offered, n), AddrsIn(offered[..n]), s.world[n].asked)
  }

  /** What the strategy remembers before attempt `n` is placed. */
  ghost function MemoryBefore(s: Start, offered: seq<Backend>, n: nat): Memory
    requires n <= |offered| && n <= |s.world|
    decreases n, 0
  {
    if n == 0 then s.memory else MemoryPlacing(s, offered, n - 1)
  }

  /** And once it is placed. */
  ghost function MemoryPlacing(s: Start, offered: seq<Backend>, n: nat): Memory
    requires n <= |offered| && n < |s.world|
    decreases n, 1
  {
    MemoryAfter(MemoryBefore(s, offered, n), s.sight, CandidatesFor(s, offered, n), s.pinned, n == 0)
  }

  /** Attempt `n` went where it should, given all that was known and remembered by then. */
  ghost predicate PlacedRight(s: Start, offered: seq<Backend>, n: nat)
    requires n < |offered| <= |s.world|
  {
    GoesTo(s.settings.strategy, MemoryBefore(s, offered, n), s.sight, s.key, s.world[n].draws,
           CandidatesFor(s, offered, n), s.pinned, offered[n])
  }

  /** Every attempt went where it should. */
  ghost predicate WellPlaced(s: Start, offered: seq<Backend>)
    requires |offered| <= |s.world|
  {
    forall n :: 0 <= n < |offered| ==> PlacedRight(s, offered, n)
  }

  /** What came before an attempt does not depend on what follows it. */
  lemma {:induction false} SameBeginning(s: Start, offered: seq<Backend>, next: Backend, n: nat)
    requires n <= |offered| && n < |s.world|
    ensures KnownAfter(s, offered + [next], n) == KnownAfter(s, offered, n)
    ensures CandidatesFor(s, offered + [next], n) == CandidatesFor(s, offered, n)
    ensures AskedBefore(s, offered + [next], n) == AskedBefore(s, offered, n)
  {
    assert (offered + [next])[..n] == offered[..n];
    if n > 0 {
      SameBeginning(s, offered, next, n - 1);
    }
  }

  lemma {:induction false} SameMemory(s: Start, offered: seq<Backend>, next: Backend, n: nat)
    requires n <= |offered| && n < |s.world|
    ensures MemoryBefore(s, offered + [next], n) == MemoryBefore(s, offered, n)
    ensures MemoryPlacing(s, offered + [next], n) == MemoryPlacing(s, offered, n)
  {
    SameBeginning(s, offered, next, n);
    if n > 0 {
      SameMemory(s, offered, next, n - 1);
    }
  }

  lemma OneMorePlaced(s: Start, offered: seq<Backend>, b: Backend)
    requires |offered| < |s.world| && WellPlaced(s, offered)
    requires GoesTo(s.settings.strategy, MemoryBefore(s, offered, |offered|), s.sight, s.key, s.world[|offered|].draws,
                    CandidatesFor(s, offered, |offered|), s.pinned, b)
    ensures WellPlaced(s, offered + [b])
  {
    forall n | 0 <= n <= |offered|
      ensures PlacedRight(s, offered + [b], n)
    {
      SameBeginning(s, offered, b, n);
      SameMemory(s, offered, b, n);
      assert n < |offered| ==> PlacedRight(s, offered, n);
    }
  }

  lemma OneMoreLearned(s: Start, offered: seq<Backend>, b: Backend)
    requires |offered| < |s.world|
    ensures KnownAfter(s, offered + [b], |offered| + 1)
         == Learned(s.settings, AskedBefore(s, offered, |offered|), b.addr, s.world[|offered|])
    ensures MemoryBefore(s, offered + [b], |offered| + 1) == MemoryPlacing(s, offered, |offered|)
  {
    SameBeginning(s, offered, b, |offered|);
    SameMemory(s, offered, b, |offered|);
  }

  /**
   Under round robin, a request takes one turn with its first attempt, unless that is
   pinned, and none with its retries.
   */
  lemma {:induction false} OneTurnAtMost(s: Start, offered: seq<Backend>, n: nat)
    requires s.memory.AtTurn? && n < |offered| && n < |s.world|
    ensures var c := CandidatesFor(s, offered, 0);
            MemoryPlacing(s, offered, n)
            == if c == [] || (s.pinned.Some? && s.pinned.value in c) then s.memory
               else AtTurn(RoundRobin.Advance(s.memory.next, 1))
  {
    if n > 0 {
      OneTurnAtMost(s, offered, n - 1);
    }
  }

  // ---------------------------------------------------- a request's story

  /** The story of a request that goes into round `n`: all its attempts failed in ways that may be retried. */
  ghost predicate Tells(settings: Settings, idempotent: bool, n: nat, tried: set<Str>, offered: seq<Backend>,
                        outcomes: seq<Outcome>) {
    && |offered| == |outcomes| == n <= settings.attempts
    && Distinct(offered) && (forall b :: b in offered ==> b in settings.pool)
    && tried == AddrsIn(offered)
    && AllFailed(outcomes)
    && forall i :: 0 <= i < n && i + 1 < settings.attempts ==> Retryable(idempotent, outcomes[i])
  }

  lemma AllTried(settings: Settings, idempotent: bool, n: nat, tried: set<Str>, offered: seq<Backend>,
                 outcomes: seq<Outcome>)
    requires Tells(settings, idempotent, n, tried, offered, outcomes) && Distinct(Addrs(settings.pool))
    requires n < settings.attempts
    requires forall b :: b in settings.pool ==> b.addr in tried
    ensures Ended(settings.pool, settings.attempts, idempotent, offered, outcomes, NoBackend)
  {
    DistinctPool(settings.pool);
    forall b | b in settings.pool
      ensures b in offered
    {
      var c :| c in offered && c.addr == b.addr;
      var i :| 0 <= i < |settings.pool| && settings.pool[i] == b;
      var j :| 0 <= j < |settings.pool| && settings.pool[j] == c;
      SameAddrSameBackend(settings.pool, i, j);
    }
    DistinctFitsIn(offered, settings.pool);
    DistinctFitsIn(settings.pool, offered);
  }

  lemma DistinctPool(pool: seq<Backend>)
    requires Distinct(Addrs(pool))
    ensures Distinct(pool)
  {
    forall i, j | 0 <= i < j < |pool|
      ensures pool[i] != pool[j]
    {
      assert Addrs(pool)[i] != Addrs(pool)[j];
    }
  }

  /** What an offer to a backend not tried before adds to the story, whether the budget let it through or not. */
  lemma AfterOffer(settings: Settings, idempotent: bool, n: nat, tried: set<Str>, offered: seq<Backend>,
                   outcomes: seq<Outcome>,
                   backend: Backend, o: Outcome, made: bool)
    requires Tells(settings, idempotent, n, tried, offered, outcomes) && n < settings.attempts
    requires backend in settings.pool && backend.addr !in tried
    ensures !made && n > 0 ==> Ended(settings.pool, settings.attempts, idempotent, offered, outcomes, BudgetExhausted)
    ensures made ==>
              var next := AfterAttempt(idempotent, n, settings.attempts, o);
              if next.Some? then
                Ended(settings.pool, settings.attempts, idempotent, offered + [backend], outcomes + [o], next.value)
              else
                Tells(settings, idempotent, n + 1, tried + {backend.addr}, offered + [backend], outcomes + [o])
  {
    assert backend !in offered;
    DistinctFitsIn(offered + [backend], settings.pool);
    assert AddrsIn(offered + [backend]) == AddrsIn(offered) + {backend.addr};
  }

  lemma OutOfAttempts(settings: Settings, idempotent: bool, tried: set<Str>, offered: seq<Backend>,
                      outcomes: seq<Outcome>)
    requires Tells(settings, idempotent, settings.attempts, tried, offered, outcomes)
    ensures Ended(settings.pool, settings.attempts, idempotent, offered, outcomes, NoBackend)
  {
    DistinctFitsIn(offered, settings.pool);
  }

  /** How one round went, from what was known and remembered before it to what is known and remembered after. */
  ghost predicate RoundWent(s: Start, n: nat, tried: set<Str>, known: Knowledge, memory: Memory,
                            placed: Option<Backend>, made: bool, next: Option<Verdict>,
                            knownAfter: Knowledge, memoryAfter: Memory)
    requires n < |s.world|
  {
    var asked := Asked(s.settings, known, tried, s.world[n].asked);
    var candidates := Candidates(s.settings, known, tried, s.world[n].asked);
    && memoryAfter == MemoryAfter(memory, s.sight, candidates, s.pinned, n == 0)
    && match placed
       case None => (forall b :: b in s.settings.pool ==> b.addr in tried) && knownAfter == asked
       case Some(b) =>
         && b in s.settings.pool && b.addr !in tried
         && GoesTo(s.settings.strategy, memory, s.sight, s.key, s.world[n].draws, candidates, s.pinned, b)
         && knownAfter == (if made then Learned(s.settings, asked, b.addr, s.world[n]) else asked)
         && (n == 0 ==> made)
         && next == if made then AfterAttempt(s.idempotent, n, s.settings.attempts, s.world[n].outcome)
                    else Some(BudgetExhausted)
  }

  ghost predicate AsTheWorldWent(outcomes: seq<Outcome>, world: seq<Round>) {
    |outcomes| <= |world| && forall n :: 0 <= n < |outcomes| ==> outcomes[n] == world[n].outcome
  }

  /** All that holds of a request that goes into round `n`. */
  ghost predicate Underway(s: Start, n: nat, tried: set<Str>, offered: seq<Backend>, outcomes: seq<Outcome>,
                           known: Knowledge, memory: Memory)
    requires s.Valid()
  {
    && Tells(s.settings, s.idempotent, n, tried, offered, outcomes) && AsTheWorldWent(outcomes, s.world)
    && WellPlaced(s, offered)
    && known == KnownAfter(s, offered, n)
    && memory == MemoryBefore(s, offered, n)
  }

  /**
   All that holds of a request that has ended: its verdict is explained, every
   attempt went where it should, and each outcome was reported once. A retry the
   budget refused has still asked the breaker, and been charged for by the strategy.
   */
  ghost predicate Concluded(s: Start, offered: seq<Backend>, outcomes: seq<Outcome>, v: Verdict, known: Knowledge,
                            memory: Memory)
    requires s.Valid()
  {
    && Ended(s.settings.pool, s.settings.attempts, s.idempotent, offered, outcomes, v)
    && AsTheWorldWent(outcomes, s.world)
    && WellPlaced(s, offered)
    && (if v == BudgetExhausted then
          known == AskedBefore(s, offered, |offered|) && memory == MemoryPlacing(s, offered, |offered|)
        else
          known == KnownAfter(s, offered, |offered|) && memory == MemoryBefore(s, offered, |offered|))
  }

  lemma RoundWithNobody(s: Start, n: nat, tried: set<Str>, offered: seq<Backend>, outcomes: seq<Outcome>,
                        known: Knowledge, memory: Memory, made: bool, next: Option<Verdict>,
                        knownAfter: Knowledge, memoryAfter: Memory)
    requires s.Valid() && n < s.settings.attempts && Underway(s, n, tried, offered, outcomes, known, memory)
    requires RoundWent(s, n, tried, known, memory, None, made, next, knownAfter, memoryAfter)
    ensures Concluded(s, offered, outcomes, NoBackend, knownAfter, memoryAfter)
  {
    AllTried(s.settings, s.idempotent, n, tried, offered, outcomes);
    NobodyToAsk(s.settings, known, tried, s.world[n].asked, |s.settings.pool|);
    EligibleUnlessAllTried(s.settings.pool, tried, Fit(s.settings, known, tried, s.world[n].asked));
  }

  lemma RoundWithSomebody(s: Start, n: nat, tried: set<Str>, offered: seq<Backend>, outcomes: seq<Outcome>,
                          known: Knowledge, memory: Memory,
                          b: Backend, made: bool, next: Option<Verdict>, knownAfter: Knowledge, memoryAfter: Memory)
    requires s.Valid() && n < s.settings.attempts && Underway(s, n, tried, offered, outcomes, known, memory)
    requires RoundWent(s, n, tried, known, memory, Some(b), made, next, knownAfter, memoryAfter)
    ensures !made ==> Concluded(s, offered, outcomes, BudgetExhausted, knownAfter, memoryAfter)
    ensures made && next.Some? ==>
              Concluded(s, offered + [b], outcomes + [s.world[n].outcome], next.value, knownAfter, memoryAfter)
    ensures made && next.None? ==>
              Underway(s, n + 1, tried + {b.addr}, offered + [b], outcomes + [s.world[n].outcome], knownAfter,
                       memoryAfter)
  {
    AfterOffer(s.settings, s.idempotent, n, tried, offered, outcomes, b, s.world[n].outcome, made);
    if made {
      OneMoreMade(s, n, tried, offered, outcomes, known, memory, b, next, knownAfter, memoryAfter);
    } else {
      assert offered[..n] == offered;
    }
  }

  lemma OneMoreMade(s: Start, n: nat, tried: set<Str>, offered: seq<Backend>, outcomes: seq<Outcome>,
                    known: Knowledge, memory: Memory,
                    b: Backend, next: Option<Verdict>, knownAfter: Knowledge, memoryAfter: Memory)
    requires s.Valid() && n < s.settings.attempts && Underway(s, n, tried, offered, outcomes, known, memory)
    requires RoundWent(s, n, tried, known, memory, Some(b), true, next, knownAfter, memoryAfter)
    ensures AsTheWorldWent(outcomes + [s.world[n].outcome], s.world)
    ensures WellPlaced(s, offered + [b])
    ensures knownAfter == KnownAfter(s, offered + [b], n + 1)
    ensures memoryAfter == MemoryBefore(s, offered + [b], n + 1)
  {
    hide GoesTo, MemoryAfter, Candidates, Asked, Learned, AfterAttempt;
    assert offered[..n] == offered;
    OneMorePlaced(s, offered, b);
    OneMoreLearned(s, offered, b);
  }

  lemma NoRoundLeft(s: Start, tried: set<Str>, offered: seq<Backend>, outcomes: seq<Outcome>, known: Knowledge,
                    memory: Memory)
    requires s.Valid() && Underway(s, s.settings.attempts, tried, offered, outcomes, known, memory)
    ensures Concluded(s, offered, outcomes, NoBackend, known, memory)
  {
    OutOfAttempts(s.settings, s.idempotent, tried, offered, outcomes);
  }

  // -------------------------------------------------- what it comes down to

  /** What a client may rely on, whatever the outcomes were. */
  lemma WhatItComesDownTo(s: Start, offered: seq<Backend>, outcomes: seq<Outcome>, v: Verdict, known: Knowledge,
                          memory: Memory)
    requires s.Valid() && Concluded(s, offered, outcomes, v, known, memory)
    ensures Distinct(offered)
    ensures s.idempotent && AllFailed(outcomes) && v != BudgetExhausted ==>
              |offered| == Min(|s.settings.pool|, s.settings.attempts)
    ensures !s.idempotent ==> forall i :: 0 <= i < |outcomes| && outcomes[i].MayHaveArrived() ==> i == |offered| - 1
  {
    if s.idempotent && AllFailed(outcomes) && v != BudgetExhausted {
      EveryAttemptFails(s.settings.pool, s.settings.attempts, offered, outcomes, v);
    }
  }

  /**
   The same with every word spelled out: how the verdict follows from the last
   outcome, that a request which could nowhere be dialled went everywhere whatever its
   method, and what a method in the list, or not in it, makes sure of.
   */
  lemma InPlainWords(s: Start, httpMethod: string, offered: seq<Backend>, outcomes: seq<Outcome>, v: Verdict,
                     known: Knowledge, memory: Memory)
    requires s.Valid() && Concluded(s, offered, outcomes, v, known, memory) && s.idempotent == Idempotent(httpMethod)
    ensures |outcomes| == |offered| <= s.settings.attempts
    ensures forall i :: 0 <= i < |offered| ==> offered[i] in s.settings.pool && outcomes[i] == s.world[i].outcome
    ensures v == Answered <==> outcomes != [] && outcomes[|outcomes| - 1] == Served
    ensures v == BrokenOff <==> outcomes != [] && outcomes[|outcomes| - 1] == CutOff
    ensures v == Abandoned
       <==> outcomes != [] && (outcomes[|outcomes| - 1] == ClientGone || outcomes[|outcomes| - 1].FailedThenGone?)
    ensures v == NotRetryable ==>
              && httpMethod !in {"GET", "HEAD", "PUT", "DELETE", "OPTIONS", "TRACE"}
              && 0 < |outcomes| < s.settings.attempts && outcomes[|outcomes| - 1] == FailedAfterSend
    ensures v == NoBackend || v == BudgetExhausted ==>
              forall o :: o in outcomes ==> o == DialFailed || o == FailedAfterSend
    ensures v == NoBackend ==>
              |offered| == if |s.settings.pool| < s.settings.attempts then |s.settings.pool| else s.settings.attempts
    ensures v == BudgetExhausted ==> 0 < |offered| < |s.settings.pool| && |offered| < s.settings.attempts
    ensures (forall o :: o in outcomes ==> o == DialFailed) && v != BudgetExhausted ==>
              |offered| == if |s.settings.pool| < s.settings.attempts then |s.settings.pool| else s.settings.attempts
    ensures httpMethod in {"GET", "HEAD", "PUT", "DELETE", "OPTIONS", "TRACE"} && v != BudgetExhausted
            && (forall o :: o in outcomes ==> o == DialFailed || o == FailedAfterSend) ==>
              |offered| == if |s.settings.pool| < s.settings.attempts then |s.settings.pool| else s.settings.attempts
    ensures httpMethod !in {"GET", "HEAD", "PUT", "DELETE", "OPTIONS", "TRACE"} ==>
              forall i :: 0 <= i < |offered| - 1 ==> outcomes[i] == DialFailed
  {
    if forall o :: o in outcomes ==> o == DialFailed || o == FailedAfterSend {
      FailuresFailed(outcomes);
      assert outcomes != [] ==> outcomes[|outcomes| - 1] in outcomes;
    }
  }

  /** The client got the headers of an answer, and its cookie if it carries one. */
  predicate GotAnswer(v: Verdict) {
    v.Answered? || v.BrokenOff?
  }

  /** The cookie on the answer, which a backend that breaks its answer off has sent as well. */
  ghost function CookieOf(s: Start, offered: seq<Backend>, v: Verdict): Option<Str>
    requires s.settings.pins.Some? ==> forall b :: b in s.settings.pool ==> b.addr in s.settings.pins.value.tokens
    requires GotAnswer(v) ==> offered != [] && offered[|offered| - 1] in s.settings.pool
  {
    if GotAnswer(v) then Renew(s.settings.pins, s.pinned, offered[|offered| - 1]) else None
  }

  /** Which is the last backend's token, unless the request's own cookie led to that backend already. */
  lemma CookieInPlainWords(s: Start, jar: Jar, offered: seq<Backend>, outcomes: seq<Outcome>, v: Verdict,
                           known: Knowledge, memory: Memory)
    requires s.Valid() && Concluded(s, offered, outcomes, v, known, memory) && s.pinned == Read(s.settings.pins, jar).0
    requires s.settings.pins.Some? ==> forall b :: b in s.settings.pool ==> b.addr in s.settings.pins.value.tokens
    ensures GotAnswer(v) ==> offered != [] && offered[|offered| - 1] in s.settings.pool
    ensures s.settings.pins.None? || !(v == Answered || v == BrokenOff) ==> CookieOf(s, offered, v) == None
    ensures s.settings.pins.Some? && (v == Answered || v == BrokenOff) ==>
              var (pins, last) := (s.settings.pins.value, offered[|offered| - 1]);
              CookieOf(s, offered, v)
              == if pins.name in jar && jar[pins.name] in pins.backends
                    && pins.backends[jar[pins.name]] == last then None
                 else Some(pins.tokens[last.addr])
  {
    EndsInThePool(s, offered, outcomes, v, known, memory);
  }

  /** A request as its client's exchange with the balancer. */
  ghost function ExchangeOf(s: Start, offered: seq<Backend>, v: Verdict): Exchange
    requires s.world != []
  {
    Exchange(s.settings.pins, s.settings.pool, CandidatesFor(s, offered, 0),
             if offered == [] then None else Some(offered[0]),
             if GotAnswer(v) && offered != [] then Some(offered[|offered| - 1]) else None)
  }

  lemma EndsInThePool(s: Start, offered: seq<Backend>, outcomes: seq<Outcome>, v: Verdict, known: Knowledge,
                      memory: Memory)
    requires s.Valid() && Concluded(s, offered, outcomes, v, known, memory)
    ensures |offered| <= |s.world| && forall b :: b in offered ==> b in s.settings.pool
    ensures GotAnswer(v) ==> offered != []
  {
  }

  /**
   Whatever becomes of a request, what is said of conversations is said of it: where it
   went first, and the cookie it got.
   */
  lemma RequestIsAnExchange(s: Start, token: Token, jar: Jar, offered: seq<Backend>, outcomes: seq<Outcome>, v: Verdict,
                            known: Knowledge, memory: Memory)
    requires s.Valid() && Concluded(s, offered, outcomes, v, known, memory)
    requires s.settings.pins.Some? ==> ArePins(s.settings.pins.value, token, s.settings.pool)
    requires s.pinned == Read(s.settings.pins, jar).0
    ensures var x := ExchangeOf(s, offered, v);
            && Proper(x, token)
            && (offered != [] ==> FirstAttempt(x, jar) == Some(offered[0]))
            && x.answered == (if v == Answered || v == BrokenOff then Some(offered[|offered| - 1]) else None)
            && SetCookie(x, jar) == CookieOf(s, offered, v)
  {
    hide Selects, Fit, Asked, Learned, KnownAfter, Ended, ArePins;
    EndsInThePool(s, offered, outcomes, v, known, memory);
    FitIsUntried(s.settings, s.known, {}, s.world[0].asked);
    EligibleUnlessAllTried(s.settings.pool, {}, Fit(s.settings, s.known, {}, s.world[0].asked));
    assert AddrsIn(offered[..0]) == {};
    if offered != [] {
      assert PlacedRight(s, offered, 0);
    }
  }

  // -------------------------------------------- what a request leaves behind

  /** A request's only attempt at the only backend leaves one outcome of that backend with each of the two. */
  lemma OnlyBackendLearns(s: Start, b: Backend, offered: seq<Backend>, outcomes: seq<Outcome>, v: Verdict,
                          known: Knowledge, memory: Memory)
    returns (questions: seq<CircuitBreaking.Event>)
    requires s.Valid() && Concluded(s, offered, outcomes, v, known, memory)
    requires s.settings.pool == [b] && s.settings.attempts == 1 && s.settings.breaker.enabled
    requires s.world[0].outcome.Served? || s.world[0].outcome.Failed()
    ensures known.health == s.known.health + [HealthChecking.Outcome(b.addr, s.world[0].outcome == Served)]
    ensures known.circuits
         == s.known.circuits + questions
            + [if s.world[0].outcome == Served then CircuitBreaking.Succeeded(b.addr)
               else CircuitBreaking.Failed(b.addr, s.world[0].failedAt)]
    ensures forall q :: q in questions ==> q.Asked?
  {
    assert |offered| == 1 && offered[0] == b;
    assert AddrsIn(offered[..0]) == {};
    hide PlacedRight, Questions;
    questions := Questions(s.settings, s.known, {}, s.world[0].asked, 1);
    OnlyQuestions(s.settings, s.known, {}, s.world[0].asked, 1);
    assert known == KnownAfter(s, offered, 1);
  }

  // ------------------------------------------------------ requests with a key

  /** How strongly a backend claims the key of a request, as the strategy weighs it. */
  ghost function ClaimOnKey(hash: ConsistentHashing.ConsistentHash, key: Str, sight: Sight, b: Backend): real {
    (if sight.Weight(b) < 1 then 1 else sight.Weight(b)) as real
    * hash.draw(ConsistentHashing.Combined(hash.hashKey(key), hash.hashKey(b.addr)))
  }

  /** A request with a key, an unbounded load, and no cookie that decides. */
  ghost predicate GoesByKey(s: Start, offered: seq<Backend>)
    requires s.world != []
  {
    && s.settings.strategy.Keyed? && s.settings.strategy.hash.balanceFactor == 0 && s.key != []
    && (s.pinned.None? || s.pinned.value !in CandidatesFor(s, offered, 0))
  }

  lemma FirstGoesHome(s: Start, offered: seq<Backend>, outcomes: seq<Outcome>, v: Verdict, known: Knowledge,
                      memory: Memory)
    requires s.Valid() && Concluded(s, offered, outcomes, v, known, memory) && offered != [] && GoesByKey(s, offered)
    ensures var candidates := CandidatesFor(s, offered, 0);
            && offered[0] in candidates && Distinct(Addrs(candidates))
            && Rendezvous.Home(ClaimsOn(s.settings.strategy.hash, s.key), ConsistentHashing.Views(s.sight, candidates))
               == Some(ConsistentHashing.View(s.sight, offered[0]))
  {
    assert PlacedRight(s, offered, 0);
    hide Candidates, Concluded, Ended, WellPlaced, GoesTo, ClaimsOn, CandidatesFor;
    FirstCandidates(s, offered);
    CandidatesDiffer(s.settings, s.known, {}, s.world[0].asked);
    PlacedByKey(s.settings.strategy, MemoryBefore(s, offered, 0), s.sight, s.key, s.world[0].draws,
                CandidatesFor(s, offered, 0), s.pinned, offered[0]);
  }

  lemma PlacedByKey(strategy: Strategy, memory: Memory, sight: Sight, key: Str, draws: Draws, candidates: seq<Backend>,
                    pinned: Option<Backend>, b: Backend)
    requires strategy.Keyed? && strategy.hash.balanceFactor == 0 && key != []
    requires (pinned.None? || pinned.value !in candidates)
    requires GoesTo(strategy, memory, sight, key, draws, candidates, pinned, b)
    ensures b in candidates
    ensures Rendezvous.Home(ClaimsOn(strategy.hash, key), ConsistentHashing.Views(sight, candidates))
         == Some(ConsistentHashing.View(sight, b))
  {
    hide ClaimsOn;
  }

  lemma CandidatesDiffer(settings: Settings, k: Knowledge, tried: set<Str>, now: real)
    requires Distinct(Addrs(settings.pool))
    ensures Distinct(Addrs(Candidates(settings, k, tried, now)))
  {
    FitIsUntried(settings, k, tried, now);
    EligibleUnlessAllTried(settings.pool, tried, Fit(settings, k, tried, now));
  }

  /** Such a request goes first to a candidate that claims its key most. */
  lemma KeyDecides(s: Start, offered: seq<Backend>, outcomes: seq<Outcome>, v: Verdict, known: Knowledge,
                   memory: Memory)
    requires s.Valid() && Concluded(s, offered, outcomes, v, known, memory) && offered != [] && GoesByKey(s, offered)
    ensures offered[0] in CandidatesFor(s, offered, 0)
    ensures forall b :: b in CandidatesFor(s, offered, 0) ==>
              ClaimOnKey(s.settings.strategy.hash, s.key, s.sight, b)
              <= ClaimOnKey(s.settings.strategy.hash, s.key, s.sight, offered[0])
  {
    hide Concluded, CandidatesFor, ClaimOnKey, ClaimsOn;
    FirstGoesHome(s, offered, outcomes, v, known, memory);
    HomeClaimsMost(s.settings.strategy.hash, s.key, s.sight, CandidatesFor(s, offered, 0), offered[0]);
  }

  lemma HomeClaimsMost(hash: ConsistentHashing.ConsistentHash, key: Str, sight: Sight, candidates: seq<Backend>,
                       home: Backend)
    requires Rendezvous.Home(ClaimsOn(hash, key), ConsistentHashing.Views(sight, candidates))
          == Some(ConsistentHashing.View(sight, home))
    ensures forall b :: b in candidates ==> ClaimOnKey(hash, key, sight, b) <= ClaimOnKey(hash, key, sight, home)
  {
    hide ClaimOnKey, ClaimsOn;
    ConsistentHashing.HomeOutscores(sight, ClaimsOn(hash, key), candidates, home);
    ClaimIsOnKey(hash, key, sight, home);
    forall b | b in candidates
      ensures ClaimOnKey(hash, key, sight, b) <= ClaimOnKey(hash, key, sight, home)
    {
      ClaimIsOnKey(hash, key, sight, b);
    }
  }

  lemma ClaimIsOnKey(hash: ConsistentHashing.ConsistentHash, key: Str, sight: Sight, b: Backend)
    ensures ClaimsOn(hash, key)(ConsistentHashing.View(sight, b)) == ClaimOnKey(hash, key, sight, b)
  {
    hide ConsistentHashing.Claims, ConsistentHashing.Combined;
    ConsistentHashing.ClaimIs(hash.hashKey, hash.draw, hash.hashKey(key), ConsistentHashing.View(sight, b));
  }

  /**
   Two requests with one key that find the same candidates, of the same weights, go to
   the same backend first, whatever is drawn for them and whatever the loads are.
   */
  lemma OneKeyOneBackend(s: Start, offered: seq<Backend>, outcomes: seq<Outcome>, v: Verdict, known: Knowledge,
                         memory: Memory,
                         t: Start, others: seq<Backend>, theirs: seq<Outcome>, w: Verdict, after: Knowledge,
                         left: Memory)
    requires s.Valid() && Concluded(s, offered, outcomes, v, known, memory) && offered != [] && GoesByKey(s, offered)
    requires t.Valid() && Concluded(t, others, theirs, w, after, left) && others != [] && GoesByKey(t, others)
    requires t.settings == s.settings && t.key == s.key
    requires CandidatesFor(t, others, 0) == CandidatesFor(s, offered, 0)
    requires forall b :: b in CandidatesFor(s, offered, 0) ==> t.sight.Weight(b) == s.sight.Weight(b)
    ensures others[0] == offered[0]
  {
    hide Concluded, CandidatesFor, ClaimsOn;
    FirstGoesHome(s, offered, outcomes, v, known, memory);
    FirstGoesHome(t, others, theirs, w, after, left);
    SameHome(ClaimsOn(s.settings.strategy.hash, s.key), s.sight, t.sight, CandidatesFor(s, offered, 0), offered[0],
             others[0]);
  }

  /** The same of two requests without cookies, by what was known and asked when each came. */
  lemma OneKeyTwice(s: Start, offered: seq<Backend>, outcomes: seq<Outcome>, v: Verdict, known: Knowledge,
                    memory: Memory,
                    t: Start, others: seq<Backend>, theirs: seq<Outcome>, w: Verdict, after: Knowledge, left: Memory)
    requires s.Valid() && Concluded(s, offered, outcomes, v, known, memory)
    requires t.Valid() && Concluded(t, others, theirs, w, after, left)
    requires s.settings.strategy.Keyed? && s.settings.strategy.hash.balanceFactor == 0 && s.settings.pool != []
    requires t.settings == s.settings && t.key == s.key != [] && s.pinned == t.pinned == None
    requires forall b :: b in s.settings.pool ==> t.sight.Weight(b) == s.sight.Weight(b)
    ensures offered != [] && others != []
    ensures var (first, second) := (s.world[0].asked, t.world[0].asked);
            Candidates(s.settings, t.known, {}, second) == Candidates(s.settings, s.known, {}, first) ==>
              others[0] == offered[0]
  {
    IsOfferedToSomebody(s, offered, outcomes, v, known, memory);
    IsOfferedToSomebody(t, others, theirs, w, after, left);
    if Candidates(s.settings, t.known, {}, t.world[0].asked)
       == Candidates(s.settings, s.known, {}, s.world[0].asked) {
      FirstCandidates(s, offered);
      FirstCandidates(t, others);
      CandidatesAreInPool(s.settings, s.known, {}, s.world[0].asked);
      hide Concluded, Candidates, CandidatesFor;
      OneKeyOneBackend(s, offered, outcomes, v, known, memory, t, others, theirs, w, after, left);
    }
  }

  lemma IsOfferedToSomebody(s: Start, offered: seq<Backend>, outcomes: seq<Outcome>, v: Verdict, known: Knowledge,
                            memory: Memory)
    requires s.Valid() && Concluded(s, offered, outcomes, v, known, memory) && s.settings.pool != []
    ensures offered != []
  {
  }

  lemma FirstCandidates(s: Start, offered: seq<Backend>)
    requires s.Valid()
    ensures CandidatesFor(s, offered, 0) == Candidates(s.settings, s.known, {}, s.world[0].asked)
  {
    assert AddrsIn(offered[..0]) == {};
  }

  lemma CandidatesAreInPool(settings: Settings, k: Knowledge, tried: set<Str>, now: real)
    ensures forall b :: b in Candidates(settings, k, tried, now) ==> b in settings.pool
  {
  }

  lemma SameHome(claims: Rendezvous.Scoring, one: Sight, other: Sight, candidates: seq<Backend>, b: Backend, c: Backend)
    requires Distinct(Addrs(candidates)) && b in candidates && c in candidates
    requires forall d :: d in candidates ==> other.Weight(d) == one.Weight(d)
    requires Rendezvous.Home(claims, ConsistentHashing.Views(one, candidates)) == Some(ConsistentHashing.View(one, b))
    requires Rendezvous.Home(claims, ConsistentHashing.Views(other, candidates))
          == Some(ConsistentHashing.View(other, c))
    ensures b == c
  {
    assert ConsistentHashing.Views(other, candidates) == ConsistentHashing.Views(one, candidates);
    ConsistentHashing.OnlyOneHome(one, claims, candidates, b);
  }

  // ------------------------------------------------------- probes and requests

  /** Where the first attempt goes is `b`, by what is known and remembered before the request. */
  ghost predicate Destined(s: Start, b: Backend)
    requires s.world != []
  {
    GoesTo(s.settings.strategy, s.memory, s.sight, s.key, s.world[0].draws,
           Candidates(s.settings, s.known, {}, s.world[0].asked), s.pinned, b)
  }

  /** Under consistent hashing, no two backends claim the key alike. */
  ghost predicate NoTies(s: Start) {
    s.settings.strategy.Keyed? && s.key != [] ==>
      forall b, c :: b in s.settings.pool && c in s.settings.pool && b != c ==> Claim(s, b) != Claim(s, c)
  }

  ghost function Claim(s: Start, b: Backend): real
    requires s.settings.strategy.Keyed?
  {
    ClaimsOn(s.settings.strategy.hash, s.key)(ConsistentHashing.View(s.sight, b))
  }

  /** There is only one such backend. */
  lemma OneDestination(s: Start, b: Backend, c: Backend)
    requires s.Valid() && NoTies(s) && Destined(s, b) && Destined(s, c)
    ensures b == c
  {
    var candidates := Candidates(s.settings, s.known, {}, s.world[0].asked);
    EligibleUnlessAllTried(s.settings.pool, {}, Fit(s.settings, s.known, {}, s.world[0].asked));
    if s.settings.strategy.Keyed? && s.key != [] && !(s.pinned.Some? && s.pinned.value in candidates) {
      if Rendezvous.Home(ClaimsOn(s.settings.strategy.hash, s.key), ConsistentHashing.Views(s.sight, candidates))
         == Some(ConsistentHashing.View(s.sight, b)) {
        ConsistentHashing.OnlyOneHome(s.sight, ClaimsOn(s.settings.strategy.hash, s.key), candidates, b);
      }
      assert b != c ==> Claim(s, b) != Claim(s, c);
    }
  }

  /**
   Under the breaker policy a request makes one attempt. A backend that is fit for
   it and whose circuit is open is probed by it if and only if it is the request's
   destination, which is settled before the request, and the client stays for the
   outcome. In every other case the probe is lost: the backend is not let through
   however late it is asked about, until one of its outcomes is recorded or a reload
   starts afresh.
   */
  lemma ProbeOfARequest(s: Start, offered: seq<Backend>, outcomes: seq<Outcome>, v: Verdict, known: Knowledge,
                        memory: Memory, b: Backend)
    requires s.Valid() && NoTies(s) && Concluded(s, offered, outcomes, v, known, memory)
    requires s.settings.breaker.enabled && s.settings.breaker.threshold >= 1 && s.settings.attempts == 1
    requires b in s.settings.pool && b.addr in Fit(s.settings, s.known, {}, s.world[0].asked)
    requires CircuitBreaking.IsOpen(s.known.circuits, b.addr, |s.known.circuits|, s.settings.breaker.threshold)
    ensures SomeDay(s.settings, known, b.addr) <==> Destined(s, b) && s.world[0].outcome.Reported()
    ensures |offered| == 1 && Destined(s, offered[0])
  {
    assert s.settings.pool != [];
    assert |offered| == 1;
    assert AddrsIn(offered[..0]) == {};
    assert PlacedRight(s, offered, 0);
    ProbeIsCarriedOut(s.settings, s.known, {}, b, offered[0], s.world[0]);
    if Destined(s, b) {
      OneDestination(s, b, offered[0]);
    }
    var i :| 0 <= i < |s.settings.pool| && s.settings.pool[i] == b;
    var j :| 0 <= j < |s.settings.pool| && s.settings.pool[j] == offered[0];
    if offered[0].addr == b.addr {
      SameAddrSameBackend(s.settings.pool, i, j);
    }
  }

  /**
   Of two healthy backends the second has failed once, at time zero, which opened its
   circuit for half a minute; that is over, the turn is the first one's, and a
   request comes that will be served.
   */
  ghost predicate ProbeIsDue(s: Start, x: Backend, y: Backend) {
    && s.settings.pool == [x, y] && x.addr == [1] && y.addr == [2]
    && s.settings.strategy.Turns? && s.memory == AtTurn(0) && s.pinned == None && s.settings.attempts == 1
    && s.settings.breaker.enabled && s.settings.breaker.threshold == 1 && s.settings.breaker.openDuration == 30.0
    && Healthy(s.known, x.addr) && Healthy(s.known, y.addr)
    && s.known.circuits == [CircuitBreaking.Failed([2], 0.0)]
    && |s.world| == 1 && s.world[0].asked == 30.0 && s.world[0].outcome == Served
  }

  /**
   A lost probe: the request is served by the first backend, and the second, asked
   about and let through but never tried, is let through no more, at no later time.
   */
  lemma LostProbe(s: Start, x: Backend, y: Backend, offered: seq<Backend>, outcomes: seq<Outcome>, v: Verdict,
                  known: Knowledge, memory: Memory)
    requires ProbeIsDue(s, x, y)
    requires s.Valid() && Concluded(s, offered, outcomes, v, known, memory)
    ensures offered == [x] && v == Answered && !SomeDay(s.settings, known, y.addr)
    ensures known.circuits
         == s.known.circuits
            + [CircuitBreaking.Asked([1], 30.0, true), CircuitBreaking.Asked([2], 30.0, true),
               CircuitBreaking.Succeeded([1])]
  {
    BothAreFit(s, x, y);
    ServedByTheFirst(s, x, y, offered, outcomes, v, known, memory);
    hide Concluded, Ended, WellPlaced;
    ProbeOfARequest(s, offered, outcomes, v, known, memory, y);
  }

  lemma ServedByTheFirst(s: Start, x: Backend, y: Backend, offered: seq<Backend>, outcomes: seq<Outcome>, v: Verdict,
                         known: Knowledge, memory: Memory)
    requires ProbeIsDue(s, x, y) && Candidates(s.settings, s.known, {}, 30.0) == [x, y]
    requires LetThrough(s.settings.breaker, s.known, x.addr, 30.0)
    requires LetThrough(s.settings.breaker, s.known, y.addr, 30.0)
    requires s.Valid() && Concluded(s, offered, outcomes, v, known, memory)
    ensures offered == [x] && v == Answered
    ensures known.circuits
         == s.known.circuits
            + [CircuitBreaking.Asked([1], 30.0, true), CircuitBreaking.Asked([2], 30.0, true),
               CircuitBreaking.Succeeded([1])]
  {
    hide Candidates, LetThrough, Healthy;
    assert v == Answered && |offered| == 1;
    assert AddrsIn(offered[..0]) == {};
    assert PlacedRight(s, offered, 0);
    assert Questions(s.settings, s.known, {}, 30.0, 1) == [CircuitBreaking.Asked([1], 30.0, true)];
    assert known == KnownAfter(s, offered, 1);
  }

  lemma BothAreFit(s: Start, x: Backend, y: Backend)
    requires ProbeIsDue(s, x, y)
    ensures CircuitBreaking.IsOpen(s.known.circuits, y.addr, 1, 1)
    ensures LetThrough(s.settings.breaker, s.known, x.addr, 30.0)
    ensures LetThrough(s.settings.breaker, s.known, y.addr, 30.0)
    ensures y.addr in Fit(s.settings, s.known, {}, 30.0) && Candidates(s.settings, s.known, {}, 30.0) == [x, y]
    ensures Distinct(Addrs(s.settings.pool)) && x != y
  {
    var fit := Fit(s.settings, s.known, {}, 30.0);
    FailedOnce(s.known.circuits, x.addr, y.addr);
    assert x.addr in fit && y.addr in fit;
    KeepsBoth(x, y, fit);
    assert x.addr[0] != y.addr[0];
  }

  lemma KeepsBoth(x: Backend, y: Backend, fit: set<Str>)
    requires x.addr in fit && y.addr in fit
    ensures Keep([x, y], fit) == [x, y]
  {
    var both, one := [x, y], [x];
    assert both[..|both| - 1] == one && one[..|one| - 1] == [];
    assert Keep(one, fit) == one;
  }

  /**
   After one failure of `there` at time zero, under a threshold of one, `here` is let
   through, and `there` half a minute later.
   */
  lemma FailedOnce(history: seq<CircuitBreaking.Event>, here: Str, there: Str)
    requires history == [CircuitBreaking.Failed(there, 0.0)] && here == [1] && there == [2]
    ensures CircuitBreaking.MayReceive(history, here, 1, 30.0, 1, 30.0)
    ensures CircuitBreaking.IsOpen(history, there, 1, 1) && CircuitBreaking.MayReceive(history, there, 1, 30.0, 1, 30.0)
  {
    assert here[0] != there[0];
    assert CircuitBreaking.SinceSuccess(history, here, 0) == 0 && CircuitBreaking.SinceSuccess(history, here, 1) == 0;
    assert CircuitBreaking.Failures(history, here, 0, 0) == 0;
    assert CircuitBreaking.SinceSuccess(history, there, 0) == 0 && CircuitBreaking.SinceSuccess(history, there, 1) == 0;
    assert CircuitBreaking.Failures(history, there, 0, 0) == 0;
  }
}
