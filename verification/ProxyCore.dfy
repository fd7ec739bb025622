/** The proxy core: one request through the retry loop, on the running balancer's own objects. */
module ProxyCore {
  import opened Basics
  import opened Backends
  import opened RetryPolicy
  import opened RetryBudgets
  import opened StickyPins
  import opened Placement
  import opened RequestRules
  import RoundRobin
  import HealthChecking
  import CircuitBreaking

  class Core {
    const checker: HealthChecking.HttpChecker

    constructor (checker: HealthChecking.HttpChecker)
      ensures this.checker == checker
    {
      this.checker := checker;
    }

    /** What the objects a request works with rely on. */
    ghost predicate Sound(settings: Settings)
      reads checker, settings.breaker
      reads (set b | b in settings.pool)`hash, (set b | b in settings.pool)`active
    {
      checker.Valid() && settings.breaker.Valid() && Ready(settings.strategy, settings.pool)
    }

    ghost function Known(settings: Settings): Knowledge
      reads checker, settings.breaker
    {
      Knowledge(checker.history, settings.breaker.history)
    }

    /**
     Whether a backend that was not tried is healthy and let through; the breaker is
     only asked about a healthy one.
     */
    method Ask(settings: Settings, ghost k: Knowledge, tried: set<Str>, now: real, i: nat) returns (fits: bool)
      requires checker.Valid() && settings.breaker.Valid() && Distinct(Addrs(settings.pool))
      requires i < |settings.pool| && settings.pool[i].addr !in tried
      requires checker.history == k.health
      requires settings.breaker.history == k.circuits + Questions(settings, k, tried, now, i)
      modifies settings.breaker
      ensures settings.breaker.Valid()
      ensures settings.breaker.history == k.circuits + Questions(settings, k, tried, now, i + 1)
      ensures fits <==> settings.pool[i].addr in Fit(settings, k, tried, now)
    {
      var backend := settings.pool[i];
      InFit(settings, k, tried, now, i);
      AskedInTurn(settings, k, tried, now, i);
      fits := checker.IsHealthy(backend.addr);
      if fits {
        fits := settings.breaker.Allow(backend.addr, now);
      }
    }

    /**
     The candidates for an attempt, in the pool's order: the untried backends that
     health checking and the breaker pass or, if they pass nobody, all the untried
     ones. So nobody is left only when all have been tried. Asking is not free: the
     breaker remembers it.
     */
    method Available(settings: Settings, tried: set<Str>, now: real) returns (candidates: seq<Backend>)
      requires checker.Valid() && settings.breaker.Valid() && Distinct(Addrs(settings.pool))
      modifies settings.breaker
      ensures settings.breaker.Valid()
      ensures candidates == Candidates(settings, old(Known(settings)), tried, now)
      ensures Known(settings) == Asked(settings, old(Known(settings)), tried, now)
      ensures candidates == [] <==> forall b :: b in settings.pool ==> b.addr in tried
    {
      hide Fit, LetThrough, Healthy;
      ghost var k := Known(settings);
      ghost var fit := Fit(settings, k, tried, now);
      FitIsUntried(settings, k, tried, now);
      var fitting: seq<Backend>, untried: seq<Backend> := [], [];
      var pool := settings.pool;
      for i := 0 to |pool|
        invariant settings.breaker.Valid()
        invariant settings.breaker.history == k.circuits + Questions(settings, k, tried, now, i)
        invariant untried == Keep(pool[..i], AddrsIn(pool) - tried)
        invariant fitting == Keep(pool[..i], fit)
      {
        assert pool[..i + 1][..i] == pool[..i];
        var backend := pool[i];
        if backend.addr in tried {
          continue;
        }
        untried := untried + [backend];
        var fits := Ask(settings, k, tried, now, i);
        if fits {
          fitting := fitting + [backend];
        }
      }
      assert pool[..|pool|] == pool;
      EligibleUnlessAllTried(pool, tried, fit);
      if |fitting| == 0 && |untried| > 0 {
        return untried;
      }
      return fitting;
    }

    /** A strategy keeps its state in objects of its own. */
    lemma StateIsApart(settings: Settings)
      ensures checker !in StateOf(settings.strategy) && settings.breaker !in StateOf(settings.strategy)
      ensures settings.budget !in StateOf(settings.strategy)
      ensures forall b :: b in settings.pool ==> b !in StateOf(settings.strategy)
    {
    }

    /**
     One attempt with a backend. It is released and the retry given back however the
     attempt ends, a panic included.
     */
    method Try(settings: Settings, backend: Backend, retry: bool, round: Round)
      requires checker.Valid() && settings.breaker.Valid()
      modifies checker, settings.breaker, settings.budget`retries, backend`active
      ensures checker.Valid() && settings.breaker.Valid()
      ensures backend.active == old(backend.active)
      ensures settings.budget.retries == old(settings.budget.retries) - if retry then 1 else 0
      ensures Known(settings) == Learned(settings, old(Known(settings)), backend.addr, round)
    {
      hide HealthChecking.Tracked, CircuitBreaking.Tracks, CircuitBreaking.Answered;
      backend.Acquire();
      if round.outcome.Served? {
        checker.Record(backend.addr, true);
        settings.breaker.RecordSuccess(backend.addr);
      } else if round.outcome.Reported() {
        checker.Record(backend.addr, false);
        settings.breaker.RecordFailure(backend.addr, round.failedAt);
      }
      backend.Release();
      if retry {
        settings.budget.RetryFinished();
      }
    }

    /** The backend of the next attempt, or none when all have been tried. */
    method NextBackend(settings: Settings, key: Str, pinned: Option<Backend>, tried: set<Str>, first: bool,
                       round: Round, ghost sight: Sight)
      returns (placed: Option<Backend>)
      requires Sound(settings) && Sees(sight, settings.pool)
      modifies settings.breaker, StateOf(settings.strategy), (set b | b in settings.pool)`hash
      ensures Sound(settings)
      ensures Known(settings) == Asked(settings, old(Known(settings)), tried, round.asked)
      ensures placed.Some? ==>
                && placed.value in settings.pool && placed.value.addr !in tried
                && GoesTo(settings.strategy, old(MemoryOf(settings.strategy)), sight, key, round.draws,
                          Candidates(settings, old(Known(settings)), tried, round.asked), pinned, placed.value)
      ensures MemoryOf(settings.strategy)
           == MemoryAfter(old(MemoryOf(settings.strategy)), sight,
                          Candidates(settings, old(Known(settings)), tried, round.asked), pinned, first)
      ensures placed.None? <==> forall b :: b in settings.pool ==> b.addr in tried
    {
      hide Fit, GoesTo, MemoryAfter;
      ghost var k := Known(settings);
      var candidates := Available(settings, tried, round.asked);
      FitIsUntried(settings, k, tried, round.asked);
      EligibleUnlessAllTried(settings.pool, tried, Fit(settings, k, tried, round.asked));
      StateIsApart(settings);
      placed := PlaceAmong(settings, key, pinned, candidates, first, round.draws, sight);
    }

    method PlaceAmong(settings: Settings, key: Str, pinned: Option<Backend>, candidates: seq<Backend>, first: bool,
                      draws: Draws, ghost sight: Sight)
      returns (placed: Option<Backend>)
      requires Ready(settings.strategy, settings.pool) && Sees(sight, settings.pool)
      requires Distinct(Addrs(candidates)) && forall b :: b in candidates ==> b in settings.pool
      modifies StateOf(settings.strategy), (set b | b in settings.pool)`hash
      ensures Ready(settings.strategy, settings.pool)
      ensures placed.None? <==> candidates == []
      ensures placed.Some? ==>
                GoesTo(settings.strategy, old(MemoryOf(settings.strategy)), sight, key, draws, candidates, pinned,
                       placed.value)
      ensures MemoryOf(settings.strategy)
         == MemoryAfter(old(MemoryOf(settings.strategy)), sight, candidates, pinned, first)
    {
      placed := Place(settings.strategy, key, pinned, candidates, first, draws, sight);
    }

    /** Makes attempt `n` with a backend, once the budget has let it through if it is a retry, and says what follows. */
    method Offer(settings: Settings, idempotent: bool, n: nat, backend: Backend, round: Round) returns (made: bool,
                 next: Option<Verdict>)
      requires checker.Valid() && settings.breaker.Valid()
      modifies checker, settings.breaker, settings.budget`retries, backend`active
      ensures checker.Valid() && settings.breaker.Valid()
      ensures backend.active == old(backend.active) && settings.budget.retries == old(settings.budget.retries)
      ensures made
          <==>
            || n == 0
            || old(settings.budget.retries)
               < LimitAt(settings.budget.percent, settings.budget.minimum, settings.budget.requests)
      ensures next
         == if made then AfterAttempt(idempotent, n, settings.attempts, round.outcome) else Some(BudgetExhausted)
      ensures Known(settings)
          == if made then Learned(settings, old(Known(settings)), backend.addr, round) else old(Known(settings))
    {
      var retry := n > 0;
      if retry {
        made := settings.budget.TryRetry();
        if !made {
          return false, Some(BudgetExhausted);
        }
      }
      Try(settings, backend, retry, round);
      return true, AfterAttempt(idempotent, n, settings.attempts, round.outcome);
    }

    /** One round of the loop: the next backend, if any is left, and what offering it the request leads to. */
    method OneRound(ghost s: Start, settings: Settings, idempotent: bool, key: Str, pinned: Option<Backend>,
                    tried: set<Str>, n: nat, round: Round)
      returns (placed: Option<Backend>, made: bool, next: Option<Verdict>)
      requires Sound(settings) && Sees(s.sight, settings.pool)
      requires s.settings == settings && s.idempotent == idempotent && s.key == key && s.pinned == pinned
      requires n < |s.world| && s.world[n] == round
      modifies checker, settings.breaker, settings.budget`retries, StateOf(settings.strategy)
      modifies (set b | b in settings.pool)`active, (set b | b in settings.pool)`hash
      ensures Sound(settings) && Sees(s.sight, settings.pool) && settings.budget.retries == old(settings.budget.retries)
      ensures RoundWent(s, n, tried, old(Known(settings)), old(MemoryOf(settings.strategy)), placed, made, next,
                        Known(settings), MemoryOf(settings.strategy))
      ensures placed.Some? ==>
                (made <==>
                   || n == 0
                   || settings.budget.retries
                      < LimitAt(settings.budget.percent, settings.budget.minimum, settings.budget.requests))
      ensures next == Some(BudgetExhausted) ==> placed.Some? && !made
    {
      hide Candidates, GoesTo, MemoryAfter, Asked, Learned, AfterAttempt;
      StateIsApart(settings);
      placed := NextBackend(settings, key, pinned, tried, n == 0, round, s.sight);
      if placed.Some? {
        made, next := Offer(settings, idempotent, n, placed.value, round);
      } else {
        made, next := false, None;
      }
    }

    /** One round, and what it adds to the request's story: its end, or that it goes into the next round. */
    method Continue(ghost s: Start, settings: Settings, idempotent: bool, key: Str, pinned: Option<Backend>,
                    tried: set<Str>, n: nat, round: Round,
                    ghost offered: seq<Backend>, outcomes: seq<Outcome>)
      returns (end: Option<Verdict>, cookie: Option<Str>, triedNow: set<Str>, ghost offeredNow: seq<Backend>,
               outcomesNow: seq<Outcome>)
      requires Sound(settings) && Sees(s.sight, settings.pool) && s.Valid() && n < settings.attempts
      requires s.settings == settings && s.idempotent == idempotent && s.key == key && s.pinned == pinned
      requires s.world[n] == round
      requires Underway(s, n, tried, offered, outcomes, Known(settings), MemoryOf(settings.strategy))
      requires settings.pins.Some? ==> forall b :: b in settings.pool ==> b.addr in settings.pins.value.tokens
      modifies checker, settings.breaker, settings.budget`retries, StateOf(settings.strategy)
      modifies (set b | b in settings.pool)`active, (set b | b in settings.pool)`hash
      ensures Sound(settings) && Sees(s.sight, settings.pool) && settings.budget.retries == old(settings.budget.retries)
      ensures end.Some? ==>
                Concluded(s, offeredNow, outcomesNow, end.value, Known(settings), MemoryOf(settings.strategy))
      ensures end.None? ==>
                Underway(s, n + 1, triedNow, offeredNow, outcomesNow, Known(settings), MemoryOf(settings.strategy))
      ensures cookie == if end.Some? then CookieOf(s, offeredNow, end.value) else None
      ensures end == Some(BudgetExhausted) ==>
                settings.budget.retries
                >= LimitAt(settings.budget.percent, settings.budget.minimum, settings.budget.requests)
    {
      hide Underway, Concluded, Candidates, GoesTo, MemoryAfter, Asked, Learned;
      ghost var known, memory := Known(settings), MemoryOf(settings.strategy);
      var last, made;
      cookie := None;
      last, made, end := OneRound(s, settings, idempotent, key, pinned, tried, n, round);
      triedNow, offeredNow, outcomesNow := tried, offered, outcomes;
      if last.None? {
        RoundWithNobody(s, n, tried, offered, outcomes, known, memory, made, end, Known(settings),
                        MemoryOf(settings.strategy));
        end := Some(NoBackend);
      } else {
        RoundWithSomebody(s, n, tried, offered, outcomes, known, memory, last.value, made, end, Known(settings),
                          MemoryOf(settings.strategy));
        triedNow := tried + {last.value.addr};
        if made {
          offeredNow, outcomesNow := offered + [last.value], outcomes + [round.outcome];
        }
        if end == Some(Answered) || end == Some(BrokenOff) {
          cookie := Renew(settings.pins, pinned, last.value);
        }
      }
    }

    lemma NothingYet(s: Start, settings: Settings)
      requires s.Valid() && s.settings == settings && s.known == Known(settings)
      requires s.memory == MemoryOf(settings.strategy)
      ensures Underway(s, 0, {}, [], [], Known(settings), MemoryOf(settings.strategy))
    {
    }

    /** The retry loop, for a request already counted into the load. */
    method OfferAround(ghost s: Start, settings: Settings, request: Request, world: seq<Round>)
      returns (verdict: Verdict, ghost offered: seq<Backend>, outcomes: seq<Outcome>, cookie: Option<Str>)
      requires Sound(settings) && s.Valid() && s == StartOf(settings, request, world)
      requires settings.pins.Some? ==> forall b :: b in settings.pool ==> b.addr in settings.pins.value.tokens
      modifies checker, settings.breaker, settings.budget`retries, StateOf(settings.strategy)
      modifies (set b | b in settings.pool)`active, (set b | b in settings.pool)`hash
      ensures Sound(settings) && Sees(s.sight, settings.pool) && settings.budget.retries == old(settings.budget.retries)
      ensures Concluded(s, offered, outcomes, verdict, Known(settings), MemoryOf(settings.strategy))
      ensures verdict == BudgetExhausted ==>
                settings.budget.retries
                >= LimitAt(settings.budget.percent, settings.budget.minimum, settings.budget.requests)
      ensures cookie == CookieOf(s, offered, verdict)
    {
      var idempotent := Idempotent(request.httpMethod);
      var pinned := Read(settings.pins, request.jar).0;
      var tried: set<Str> := {};
      offered, outcomes, cookie := [], [], None;
      NothingYet(s, settings);
      hide Underway, Concluded;
      for n := 0 to settings.attempts
        invariant Sound(settings) && Sees(s.sight, settings.pool)
        invariant settings.budget.retries == old(settings.budget.retries)
        invariant cookie == None
        invariant Underway(s, n, tried, offered, outcomes, Known(settings), MemoryOf(settings.strategy))
      {
        var end;
        end, cookie, tried, offered, outcomes := Continue(s, settings, idempotent, request.key, pinned, tried, n,
                                                          world[n], offered, outcomes);
        if end.Some? {
          return end.value, offered, outcomes, cookie;
        }
      }
      NoRoundLeft(s, tried, offered, outcomes, Known(settings), MemoryOf(settings.strategy));
      verdict := NoBackend;
    }

    ghost function StartOf(settings: Settings, request: Request, world: seq<Round>): Start
      reads checker, settings.breaker, StateOf(settings.strategy), set b | b in settings.pool
    {
      Start(settings, Idempotent(request.httpMethod), request.key, Read(settings.pins, request.jar).0, world,
            SightOf(settings.pool), Known(settings), MemoryOf(settings.strategy))
    }

    lemma StartsWith(settings: Settings, request: Request, world: seq<Round>)
      requires Sound(settings) && 1 <= settings.attempts <= |world|
      ensures var s := StartOf(settings, request, world);
              && s.Valid() && s.settings == settings && s.world == world
              && s.idempotent == Idempotent(request.httpMethod) && s.pinned == Read(settings.pins, request.jar).0
              && s.key == request.key && s.known == Known(settings)
              && (forall b :: b in settings.pool ==> s.sight.Weight(b) == b.weight)
              && (settings.pins == None ==> s.pinned == None)
    {
    }

    /**
     One request from its arrival to its end, whatever the attempts come to. Every
     counter is back where it was on every exit.
     */
    method ServeHttp(settings: Settings, request: Request, world: seq<Round>)
      returns (verdict: Verdict, ghost offered: seq<Backend>, outcomes: seq<Outcome>, cookie: Option<Str>)
      requires Sound(settings) && 1 <= settings.attempts <= |world|
      requires settings.pins.Some? ==> forall b :: b in settings.pool ==> b.addr in settings.pins.value.tokens
      modifies checker, settings.breaker, settings.budget, StateOf(settings.strategy)
      modifies (set b | b in settings.pool)`active, (set b | b in settings.pool)`hash
      ensures Sound(settings)
      ensures settings.budget.requests == old(settings.budget.requests)
      ensures settings.budget.retries == old(settings.budget.retries)
      ensures forall b :: b in settings.pool ==> b.active == old(b.active)
      ensures Concluded(old(StartOf(settings, request, world)), offered, outcomes, verdict, Known(settings),
                        MemoryOf(settings.strategy))
      ensures Distinct(offered) && |offered| == |outcomes| <= settings.attempts
      ensures forall i :: 0 <= i < |offered| ==> offered[i] in settings.pool && outcomes[i] == world[i].outcome
      ensures verdict == Answered <==> outcomes != [] && outcomes[|outcomes| - 1] == Served
      ensures verdict == BrokenOff <==> outcomes != [] && outcomes[|outcomes| - 1] == CutOff
      ensures verdict == Abandoned
         <==> outcomes != [] && (outcomes[|outcomes| - 1] == ClientGone || outcomes[|outcomes| - 1].FailedThenGone?)
      ensures verdict == NotRetryable ==>
                && request.httpMethod !in {"GET", "HEAD", "PUT", "DELETE", "OPTIONS", "TRACE"}
                && 0 < |outcomes| < settings.attempts && outcomes[|outcomes| - 1] == FailedAfterSend
      ensures verdict == NoBackend || verdict == BudgetExhausted ==>
                forall o :: o in outcomes ==> o == DialFailed || o == FailedAfterSend
      ensures verdict == NoBackend ==>
                |offered| == if |settings.pool| < settings.attempts then |settings.pool| else settings.attempts
      ensures verdict == BudgetExhausted ==> 0 < |offered| < |settings.pool| && |offered| < settings.attempts
      ensures verdict == BudgetExhausted ==>
                && settings.budget.minimum <= old(settings.budget.retries)
                && settings.budget.percent * (old(settings.budget.requests) + 1) as real
                   < 100.0 * (old(settings.budget.retries) + 1) as real
      ensures request.httpMethod in {"GET", "HEAD", "PUT", "DELETE", "OPTIONS", "TRACE"} && verdict != BudgetExhausted
              && (forall o :: o in outcomes ==> o == DialFailed || o == FailedAfterSend) ==>
                |offered| == if |settings.pool| < settings.attempts then |settings.pool| else settings.attempts
      ensures (forall o :: o in outcomes ==> o == DialFailed) && verdict != BudgetExhausted ==>
                |offered| == if |settings.pool| < settings.attempts then |settings.pool| else settings.attempts
      ensures request.httpMethod !in {"GET", "HEAD", "PUT", "DELETE", "OPTIONS", "TRACE"} ==>
                forall i :: 0 <= i < |offered| - 1 ==> outcomes[i] == DialFailed
      ensures settings.pins.None? || !(verdict == Answered || verdict == BrokenOff) ==> cookie == None
      ensures settings.pins.Some? && (verdict == Answered || verdict == BrokenOff) ==>
                var (pins, jar, last) := (settings.pins.value, request.jar, offered[|offered| - 1]);
                cookie == if pins.name in jar && jar[pins.name] in pins.backends
                             && pins.backends[jar[pins.name]] == last then None
                          else Some(pins.tokens[last.addr])
    {
      hide *;
      ghost var s := StartOf(settings, request, world);
      StartsWith(settings, request, world);
      verdict, offered, outcomes, cookie := CountedIn(s, settings, request, world);
      WhatItComesDownTo(s, offered, outcomes, verdict, Known(settings), MemoryOf(settings.strategy));
      InPlainWords(s, request.httpMethod, offered, outcomes, verdict, Known(settings), MemoryOf(settings.strategy));
      CookieInPlainWords(s, request.jar, offered, outcomes, verdict, Known(settings), MemoryOf(settings.strategy));
    }

    /** The loop, with the request counted into the load while it lasts. */
    method CountedIn(ghost s: Start, settings: Settings, request: Request, world: seq<Round>)
      returns (verdict: Verdict, ghost offered: seq<Backend>, outcomes: seq<Outcome>, cookie: Option<Str>)
      requires Sound(settings) && s.Valid() && s == StartOf(settings, request, world)
      requires settings.pins.Some? ==> forall b :: b in settings.pool ==> b.addr in settings.pins.value.tokens
      modifies checker, settings.breaker, settings.budget, StateOf(settings.strategy)
      modifies (set b | b in settings.pool)`active, (set b | b in settings.pool)`hash
      ensures Sound(settings)
      ensures settings.budget.requests == old(settings.budget.requests)
      ensures settings.budget.retries == old(settings.budget.retries)
      ensures forall b :: b in settings.pool ==> b.active == old(b.active)
      ensures Concluded(s, offered, outcomes, verdict, Known(settings), MemoryOf(settings.strategy))
      ensures verdict == BudgetExhausted ==>
                && settings.budget.minimum <= settings.budget.retries
                && settings.budget.percent * (settings.budget.requests + 1) as real
                   < 100.0 * (settings.budget.retries + 1) as real
      ensures cookie == CookieOf(s, offered, verdict)
    {
      hide Concluded, Read, LimitAt, Idempotent;
      settings.budget.RequestStarted();
      verdict, offered, outcomes, cookie := OfferAround(s, settings, request, world);
      WithinLimit(settings.budget.percent, settings.budget.minimum, settings.budget.requests,
                  settings.budget.retries + 1);
      settings.budget.RequestFinished();
    }
  }

  /** After a reload that tracks two backends and one failure of the second, both are healthy. */
  lemma HealthyAfterOneFailure(k: Knowledge, pool: seq<Str>, addr: Str)
    requires addr in pool && k.health == TrackedAndFailedOnce(pool)
    ensures Healthy(k, addr)
  {
    var h := k.health;
    assert h[..2][..1] == h[..1] && h[..3] == h;
    assert HealthChecking.Tracked(h[..1], addr) == None;
    assert HealthChecking.Tracked(h[..2], addr) == Some(HealthChecking.FRESH);
  }

  ghost function TrackedAndFailedOnce(pool: seq<Str>): seq<HealthChecking.Event> {
    [HealthChecking.Reloaded(3, 2, []), HealthChecking.Reloaded(3, 2, pool), HealthChecking.Outcome([2], false)]
  }

  /** A balancer of two backends under the breaker policy, the second of which has failed once. */
  method FailOnce() returns (core: Core, settings: Settings)
    ensures fresh(core) && fresh(core.checker) && fresh(settings.breaker) && fresh(settings.budget)
    ensures fresh(StateOf(settings.strategy)) && forall b :: b in settings.pool ==> fresh(b)
    ensures core.Sound(settings) && Addrs(settings.pool) == [[1], [2]] && settings.attempts == 1
    ensures settings.pins == None
    ensures settings.strategy.Turns? && MemoryOf(settings.strategy) == AtTurn(0)
    ensures settings.breaker.enabled && settings.breaker.threshold == 1 && settings.breaker.openDuration == 30.0
    ensures core.Known(settings) == Knowledge(TrackedAndFailedOnce([[1], [2]]), [CircuitBreaking.Failed([2], 0.0)])
  {
    hide HealthChecking.Tracked, CircuitBreaking.Tracks, CircuitBreaking.Answered;
    var checker := new HealthChecking.HttpChecker(3, 2);
    core := new Core(checker);
    var here := new Backend([1], 1);
    var there := new Backend([2], 1);
    var turns := new RoundRobin.RoundRobin();
    var config := Config(CircuitBreakerPolicy, 0, 20.0, 3, 1, 30.0, false, []);
    settings := SettingsFor(config, Turns(turns), [here, there], addr => addr);
    assert here.addr[0] != there.addr[0];
    checker.Reload(3, 2, [here.addr, there.addr]);
    checker.Record(there.addr, false);
    assert checker.history == TrackedAndFailedOnce([here.addr, there.addr]);
    settings.breaker.RecordFailure(there.addr, 0.0);
  }

  lemma DueOnceItFailed(s: Start)
    requires Addrs(s.settings.pool) == [[1], [2]] && s.settings.attempts == 1 && s.pinned == None
    requires s.settings.strategy.Turns? && s.memory == AtTurn(0)
    requires s.settings.breaker.enabled && s.settings.breaker.threshold == 1 && s.settings.breaker.openDuration == 30.0
    requires s.known == Knowledge(TrackedAndFailedOnce([[1], [2]]), [CircuitBreaking.Failed([2], 0.0)])
    requires |s.world| == 1 && s.world[0].asked == 30.0 && s.world[0].outcome == Served
    ensures ProbeIsDue(s, s.settings.pool[0], s.settings.pool[1])
  {
    hide Healthy, TrackedAndFailedOnce;
    HealthyAfterOneFailure(s.known, [[1], [2]], [1]);
    HealthyAfterOneFailure(s.known, [[1], [2]], [2]);
    assert s.settings.pool[0].addr == Addrs(s.settings.pool)[0] && s.settings.pool[1].addr == Addrs(s.settings.pool)[1];
  }

  lemma NeverLetThrough(settings: Settings, k: Knowledge, addr: Str)
    requires settings.breaker.enabled && !SomeDay(settings, k, addr)
    ensures forall later: real ::
              !CircuitBreaking.MayReceive(k.circuits, addr, |k.circuits|, later, settings.breaker.threshold,
                                          settings.breaker.openDuration)
  {
    forall later: real
      ensures !CircuitBreaking.MayReceive(k.circuits, addr, |k.circuits|, later, settings.breaker.threshold,
                                          settings.breaker.openDuration)
    {
      assert !LetThrough(settings.breaker, k, addr, later);
    }
  }

  /** Half a minute after that failure, one request is served by the first backend. */
  method ServeOnce(request: Request) returns (breaker: CircuitBreaking.Breaker)
    ensures fresh(breaker) && breaker.Valid() && breaker.enabled && breaker.threshold == 1
    ensures breaker.openDuration == 30.0
    ensures breaker.history == [CircuitBreaking.Failed([2], 0.0), CircuitBreaking.Asked([1], 30.0, true),
                                CircuitBreaking.Asked([2], 30.0, true), CircuitBreaking.Succeeded([1])]
    ensures forall later: real :: !CircuitBreaking.MayReceive(breaker.history, [2], |breaker.history|, later, 1, 30.0)
  {
    hide Concluded, ProbeIsDue, TrackedAndFailedOnce, HealthChecking.Tracked;
    hide CircuitBreaking.Tracks, CircuitBreaking.Answered, CircuitBreaking.MayReceive;
    var core, settings := FailOnce();
    var world := [Round(30.0, Draws(0, 0), Served, 30.0)];
    ghost var s := core.StartOf(settings, request, world);
    DueOnceItFailed(s);
    var verdict, outcomes, cookie;
    ghost var offered;
    verdict, offered, outcomes, cookie := core.ServeHttp(settings, request, world);
    breaker := settings.breaker;
    LostProbe(s, settings.pool[0], settings.pool[1], offered, outcomes, verdict, core.Known(settings),
              MemoryOf(settings.strategy));
    NeverLetThrough(settings, core.Known(settings), [2]);
  }

  /**
   A lost probe on a running balancer: of its two backends the second has failed
   once, at time zero. Half a minute later, when its open period is over, one request
   is served by the first, and the second is then refused, however late it is asked
   about. The breaker's history tells the story.
   */
  method LoseTheProbe(request: Request, later: real) returns (breaker: CircuitBreaking.Breaker)
    ensures breaker.Valid() && breaker.enabled && breaker.threshold == 1 && breaker.openDuration == 30.0
    ensures breaker.history == [CircuitBreaking.Failed([2], 0.0), CircuitBreaking.Asked([1], 30.0, true),
                                CircuitBreaking.Asked([2], 30.0, true), CircuitBreaking.Succeeded([1]),
                                CircuitBreaking.Asked([2], later, false)]
  {
    hide CircuitBreaking.Tracks, CircuitBreaking.Answered, CircuitBreaking.MayReceive;
    breaker := ServeOnce(request);
    ghost var told := breaker.history;
    var granted := breaker.Allow([2], later);
    assert !granted && breaker.history == told + [CircuitBreaking.Asked([2], later, false)];
  }

  // ------------------------------------- what failures and successes come to

  /** The last `n` of the first `m` rounds were all served, or all not. */
  ghost predicate LastWere(rounds: seq<Round>, m: nat, n: int, served: bool)
    requires m <= |rounds|
  {
    0 <= n <= m && forall i :: m - n <= i < m ==> (rounds[i].outcome == Served) == served
  }

  ghost function Told(rounds: seq<Round>, addr: Str, n: nat): (told: seq<HealthChecking.Event>)
    requires n <= |rounds|
    ensures |told| == n
  {
    seq(n, i requires 0 <= i < n => HealthChecking.Outcome(addr, rounds[i].outcome == Served))
  }

  lemma {:induction false} ToldInTurn(rounds: seq<Round>, addr: Str, n: nat)
    requires n <= |rounds|
    ensures HealthChecking.OutcomesOf(Told(rounds, addr, n), addr)
         == seq(n, i requires 0 <= i < n => rounds[i].outcome == Served)
  {
    if n > 0 {
      ToldInTurn(rounds, addr, n - 1);
      assert Told(rounds, addr, n)[..n - 1] == Told(rounds, addr, n - 1);
    }
  }

  /** What health checking makes of a run of outcomes at the end. */
  lemma HealthAfterRun(history: seq<HealthChecking.Event>, rounds: seq<Round>, addr: Str, u: nat, h: nat)
    requires u >= 1 && h >= 1 && HealthChecking.TraceOf(history, addr).Some?
    ensures var trace := HealthChecking.TraceOf(history + Told(rounds, addr, |rounds|), addr);
            && trace.Some?
            && (LastWere(rounds, |rounds|, u, false) ==> HealthChecking.IsOut(trace.value, u, h))
            && (LastWere(rounds, |rounds|, h, true) ==> !HealthChecking.IsOut(trace.value, u, h))
  {
    hide HealthChecking.IsOut;
    var told := Told(rounds, addr, |rounds|);
    HealthChecking.SurvivorsKeepTheirTrace(history, told, addr);
    ToldInTurn(rounds, addr, |rounds|);
    HealthChecking.RunAtTheEnd(HealthChecking.TraceOf(history + told, addr).value, u, h);
  }

  /** What the breaker has been told of the first `n` rounds. */
  ghost predicate Counted(circuits: seq<CircuitBreaking.Event>, rounds: seq<Round>, addr: Str, n: nat)
    requires n <= |rounds|
  {
    && (forall m: nat :: LastWere(rounds, n, m, false) ==> CircuitBreaking.FailuresNow(circuits, addr, |circuits|) >= m)
    && (n > 0 ==>
          && CircuitBreaking.SinceOutcome(circuits, addr, |circuits|) == |circuits| > 0
          && circuits[|circuits| - 1]
             == if rounds[n - 1].outcome == Served then CircuitBreaking.Succeeded(addr)
                else CircuitBreaking.Failed(addr, rounds[n - 1].failedAt))
  }

  lemma CountedOnce(circuits: seq<CircuitBreaking.Event>, questions: seq<CircuitBreaking.Event>, rounds: seq<Round>,
                    addr: Str, n: nat)
    requires n < |rounds| && Counted(circuits, rounds, addr, n) && forall q :: q in questions ==> q.Asked?
    ensures var outcome := if rounds[n].outcome == Served then CircuitBreaking.Succeeded(addr)
                           else CircuitBreaking.Failed(addr, rounds[n].failedAt);
            Counted(circuits + questions + [outcome], rounds, addr, n + 1)
  {
    var outcome := if rounds[n].outcome == Served then CircuitBreaking.Succeeded(addr)
                   else CircuitBreaking.Failed(addr, rounds[n].failedAt);
    var longer := circuits + questions + [outcome];
    CircuitBreaking.AfterAnAttempt(circuits, questions, outcome, addr);
    var next := n + 1;
    forall m: nat | LastWere(rounds, next, m, false)
      ensures CircuitBreaking.FailuresNow(longer, addr, |longer|) >= m
    {
      if m > 0 {
        assert LastWere(rounds, n, m - 1, false);
      }
    }
  }

  /** What the breaker makes of them. */
  lemma CircuitAfterRun(circuits: seq<CircuitBreaking.Event>, rounds: seq<Round>, addr: Str, now: real, threshold: int,
                        openDuration: real)
    requires threshold >= 1 && rounds != [] && Counted(circuits, rounds, addr, |rounds|)
    ensures LastWere(rounds, |rounds|, threshold, false) && now < rounds[|rounds| - 1].failedAt + openDuration ==>
              !CircuitBreaking.MayReceive(circuits, addr, |circuits|, now, threshold, openDuration)
    ensures rounds[|rounds| - 1].outcome == Served ==>
              CircuitBreaking.MayReceive(circuits, addr, |circuits|, now, threshold, openDuration)
  {
    if rounds[|rounds| - 1].outcome == Served {
      assert CircuitBreaking.SinceSuccess(circuits, addr, |circuits|) == |circuits|;
    }
  }

  lemma TheOnlyOne(core: Core, settings: Settings)
    requires |settings.pool| == 1
    ensures settings.pool == [settings.pool[0]] && core.Known(settings).health == core.checker.history
  {
  }

  lemma NothingCounted(k: Knowledge, rounds: seq<Round>, addr: Str)
    ensures k.health == k.health + Told(rounds, addr, 0)
    ensures Counted(k.circuits, rounds, addr, 0)
  {
  }

  /** Request `n` of them. */
  method ServeOneOfAll(core: Core, settings: Settings, request: Request, rounds: seq<Round>, b: Backend, n: nat,
                       ghost before: seq<HealthChecking.Event>)
    requires core.Sound(settings) && settings.pool == [b] && settings.attempts == 1 && settings.breaker.enabled
    requires settings.pins.Some? ==> forall b :: b in settings.pool ==> b.addr in settings.pins.value.tokens
    requires n < |rounds| && (rounds[n].outcome.Served? || rounds[n].outcome.Failed())
    requires core.Known(settings).health == before + Told(rounds, b.addr, n)
    requires Counted(core.Known(settings).circuits, rounds, b.addr, n)
    modifies core.checker, settings.breaker, settings.budget, StateOf(settings.strategy)
    modifies (set b | b in settings.pool)`active, (set b | b in settings.pool)`hash
    ensures core.Sound(settings)
    ensures core.Known(settings).health == before + Told(rounds, b.addr, n + 1)
    ensures Counted(core.Known(settings).circuits, rounds, b.addr, n + 1)
  {
    hide *;
    ghost var s := core.StartOf(settings, request, [rounds[n]]);
    core.StartsWith(settings, request, [rounds[n]]);
    var verdict, outcomes, cookie;
    ghost var offered;
    verdict, offered, outcomes, cookie := core.ServeHttp(settings, request, [rounds[n]]);
    ghost var questions := OnlyBackendLearns(s, b, offered, outcomes, verdict, core.Known(settings),
                                             MemoryOf(settings.strategy));
    ToldOnce(before, rounds, b.addr, n);
    CountedOnce(s.known.circuits, questions, rounds, b.addr, n);
  }

  lemma ToldOnce(before: seq<HealthChecking.Event>, rounds: seq<Round>, addr: Str, n: nat)
    requires n < |rounds|
    ensures before + Told(rounds, addr, n) + [HealthChecking.Outcome(addr, rounds[n].outcome == Served)]
         == before + Told(rounds, addr, n + 1)
  {
    assert Told(rounds, addr, n + 1)
        == Told(rounds, addr, n) + [HealthChecking.Outcome(addr, rounds[n].outcome == Served)];
  }

  method AskAfterwards(core: Core, settings: Settings, rounds: seq<Round>, b: Backend, now: real,
                       ghost before: seq<HealthChecking.Event>, ghost u: nat, ghost h: nat)
    returns (healthy: bool, granted: bool)
    requires core.Sound(settings) && settings.breaker.enabled && rounds != [] && u >= 1 && h >= 1
    requires HealthChecking.FixedThresholds(before, u, h) && HealthChecking.TraceOf(before, b.addr).Some?
    requires core.Known(settings).health == before + Told(rounds, b.addr, |rounds|)
    requires Counted(core.Known(settings).circuits, rounds, b.addr, |rounds|)
    modifies settings.breaker
    ensures LastWere(rounds, |rounds|, u, false) ==> !healthy
    ensures LastWere(rounds, |rounds|, h, true) ==> healthy
    ensures LastWere(rounds, |rounds|, settings.breaker.threshold, false) ==>
              now < rounds[|rounds| - 1].failedAt + settings.breaker.openDuration ==> !granted
    ensures rounds[|rounds| - 1].outcome == Served ==> granted
  {
    hide HealthChecking.IsOut, HealthChecking.Tracked, HealthChecking.TraceOf, CircuitBreaking.MayReceive;
    hide Counted, LastWere, Told, CircuitBreaking.Tracks, CircuitBreaking.Answered;
    HealthAfterRun(before, rounds, b.addr, u, h);
    StillFixed(before, rounds, b.addr, u, h);
    CircuitAfterRun(settings.breaker.history, rounds, b.addr, now, settings.breaker.threshold,
                    settings.breaker.openDuration);
    healthy := core.checker.IsHealthy(b.addr);
    granted := settings.breaker.Allow(b.addr, now);
  }

  lemma StillFixed(before: seq<HealthChecking.Event>, rounds: seq<Round>, addr: Str, u: nat, h: nat)
    requires HealthChecking.FixedThresholds(before, u, h)
    ensures HealthChecking.FixedThresholds(before + Told(rounds, addr, |rounds|), u, h)
  {
  }

  /**
   Requests through the loop, one after another, to a balancer of one backend: enough
   failures at the end take the backend out and open its circuit for the open period,
   whatever went before; enough successes bring it back, and one closes its circuit.
   */
  method ServeAll(core: Core, settings: Settings, request: Request, rounds: seq<Round>, now: real,
                  ghost u: nat, ghost h: nat) returns (healthy: bool, granted: bool)
    requires core.Sound(settings) && |settings.pool| == 1 && settings.attempts == 1 && settings.breaker.enabled
    requires settings.pins.Some? ==> forall b :: b in settings.pool ==> b.addr in settings.pins.value.tokens
    requires u >= 1 && h >= 1 && HealthChecking.FixedThresholds(core.checker.history, u, h)
    requires HealthChecking.TraceOf(core.checker.history, settings.pool[0].addr).Some? && rounds != []
    requires forall i :: 0 <= i < |rounds| ==> rounds[i].outcome.Served? || rounds[i].outcome.Failed()
    modifies core.checker, settings.breaker, settings.budget, StateOf(settings.strategy)
    modifies (set b | b in settings.pool)`active, (set b | b in settings.pool)`hash
    ensures LastWere(rounds, |rounds|, u, false) ==> !healthy
    ensures LastWere(rounds, |rounds|, h, true) ==> healthy
    ensures LastWere(rounds, |rounds|, settings.breaker.threshold, false) ==>
              now < rounds[|rounds| - 1].failedAt + settings.breaker.openDuration ==> !granted
    ensures rounds[|rounds| - 1].outcome == Served ==> granted
  {
    hide *;
    var b := settings.pool[0];
    ghost var before := core.checker.history;
    TheOnlyOne(core, settings);
    NothingCounted(core.Known(settings), rounds, b.addr);
    for n := 0 to |rounds|
      invariant core.Sound(settings)
      invariant core.Known(settings).health == before + Told(rounds, b.addr, n)
      invariant Counted(core.Known(settings).circuits, rounds, b.addr, n)
    {
      ServeOneOfAll(core, settings, request, rounds, b, n, before);
    }
    healthy, granted := AskAfterwards(core, settings, rounds, b, now, before, u, h);
  }

  // ------------------------------------------------------ two with one key

  /**
   Two requests with one key under an unbounded load, one after the other, go to the
   same backend first when they find the same candidates, whatever the draws, the
   loads and the outcomes are.
   */
  method ServeTwice(core: Core, settings: Settings, one: Request, other: Request, world: seq<Round>, later: seq<Round>)
    returns (ghost offered: seq<Backend>, ghost others: seq<Backend>, ghost between: Knowledge)
    requires core.Sound(settings) && settings.pool != [] && settings.pins == None
    requires 1 <= settings.attempts && settings.attempts <= |world| && settings.attempts <= |later|
    requires settings.strategy.Keyed? && settings.strategy.hash.balanceFactor == 0 && one.key == other.key != []
    modifies core.checker, settings.breaker, settings.budget, StateOf(settings.strategy)
    modifies (set b | b in settings.pool)`active, (set b | b in settings.pool)`hash
    ensures offered != [] && others != []
    ensures Candidates(settings, between, {}, later[0].asked)
            == Candidates(settings, old(core.Known(settings)), {}, world[0].asked) ==>
              others[0] == offered[0]
  {
    hide *;
    core.StateIsApart(settings);
    ghost var s := core.StartOf(settings, one, world);
    core.StartsWith(settings, one, world);
    var verdict, outcomes, cookie, verdict2, outcomes2, cookie2;
    verdict, offered, outcomes, cookie := core.ServeHttp(settings, one, world);
    ghost var known, memory := core.Known(settings), MemoryOf(settings.strategy);
    between := known;
    ghost var t := core.StartOf(settings, other, later);
    core.StartsWith(settings, other, later);
    verdict2, others, outcomes2, cookie2 := core.ServeHttp(settings, other, later);
    OneKeyTwice(s, offered, outcomes, verdict, known, memory, t, others, outcomes2, verdict2, core.Known(settings),
                MemoryOf(settings.strategy));
  }

  lemma InFit(settings: Settings, k: Knowledge, tried: set<Str>, now: real, i: nat)
    requires i < |settings.pool|
    ensures var addr := settings.pool[i].addr;
            addr in Fit(settings, k, tried, now)
            <==> addr !in tried && Healthy(k, addr) && LetThrough(settings.breaker, k, addr, now)
  {
    assert settings.pool[i] in settings.pool;
  }

  lemma AskedInTurn(settings: Settings, k: Knowledge, tried: set<Str>, now: real, i: nat)
    requires Distinct(Addrs(settings.pool)) && i < |settings.pool|
    ensures var (asked, addr) := (k.circuits + Questions(settings, k, tried, now, i), settings.pool[i].addr);
            settings.breaker.enabled ==>
              (CircuitBreaking.MayReceive(asked, addr, |asked|, now, settings.breaker.threshold,
                                          settings.breaker.openDuration)
               <==> LetThrough(settings.breaker, k, addr, now))
  {
    QuestionsAreAbout(settings, k, tried, now, i, i);
    CircuitBreaking.OthersHaveNoSay(k.circuits, Questions(settings, k, tried, now, i), settings.pool[i].addr, now,
                                    settings.breaker.threshold, settings.breaker.openDuration);
  }
}
