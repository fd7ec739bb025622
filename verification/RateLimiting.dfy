/**
 The per-client token bucket and the sweep that keeps its memory bounded,
 against a limiter that never forgets anybody. Times are in seconds.
 */
module RateLimiting {
  import opened Basics

  const IDLE_BUCKET_TTL: real := 600.0
  const SWEEP_THRESHOLD := 10000

  datatype Bucket = Bucket(tokens: real, lastSeen: real)

  /** A request from a client, or a reload that changes the rate. */
  datatype Event = Request(addr: Str, now: real) | SetRate(perSecond: int)

  // ------------------------------------------- the limiter that never forgets

  datatype State = State(perSecond: int, buckets: map<Str, Bucket>)

  function Refill(elapsed: real, rate: real): real {
    elapsed * rate
  }

  /** A client's tokens when its request arrives: full when new, else refilled since its last. */
  function TokensAt(s: State, addr: Str, now: real): real {
    var full := s.perSecond as real;
    if addr !in s.buckets then full else
      var tokens := s.buckets[addr].tokens + Refill(now - s.buckets[addr].lastSeen, full);
      if tokens > full then full else tokens
  }

  /** Without a positive rate everything is granted. */
  predicate Grants(s: State, addr: Str, now: real) {
    s.perSecond <= 0 || TokensAt(s, addr, now) >= 1.0
  }

  function Step(s: State, event: Event): State {
    match event
    case SetRate(perSecond) => s.(perSecond := perSecond)
    case Request(addr, now) =>
      if s.perSecond <= 0 then s else
        var tokens := TokensAt(s, addr, now);
        s.(buckets := s.buckets[addr := Bucket(if tokens >= 1.0 then tokens - 1.0 else tokens, now)])
  }

  ghost function After(history: seq<Event>, n: nat): State
    requires n <= |history|
  {
    if n == 0 then State(0, map[]) else Step(After(history, n - 1), history[n - 1])
  }

  /** No request is earlier than one before it. */
  ghost predicate Chronological(history: seq<Event>) {
    forall i, j :: 0 <= i < j < |history| && history[i].Request? && history[j].Request? ==>
      history[i].now <= history[j].now
  }

  /** Nobody owes tokens, and nobody was last seen after `clock`. */
  ghost predicate Sound(s: State, clock: real) {
    forall a :: a in s.buckets ==> 0.0 <= s.buckets[a].tokens && s.buckets[a].lastSeen <= clock
  }

  lemma StepIsSound(s: State, event: Event, clock: real)
    requires Sound(s, clock) && (event.Request? ==> clock <= event.now)
    ensures Sound(Step(s, event), if event.Request? then event.now else clock)
  {
    if event.Request? && s.perSecond > 0 {
      TokensAreWithin(s, event.addr, event.now);
    }
  }

  /** A client never has a negative number of tokens, or more than one second's worth. */
  lemma TokensAreWithin(s: State, addr: Str, now: real)
    requires Sound(s, now) && s.perSecond > 0
    ensures 0.0 <= TokensAt(s, addr, now) <= s.perSecond as real
  {
    if addr in s.buckets {
      Positive(now - s.buckets[addr].lastSeen, s.perSecond as real);
    }
  }

  lemma Positive(a: real, b: real)
    requires 0.0 <= a && 0.0 <= b
    ensures 0.0 <= Refill(a, b)
  {
  }

  lemma {:induction false} BucketsAreSound(history: seq<Event>, n: nat, clock: real)
    requires Chronological(history) && n <= |history|
    requires forall i :: 0 <= i < n && history[i].Request? ==> history[i].now <= clock
    ensures Sound(After(history, n), clock)
  {
    if n > 0 {
      var event := history[n - 1];
      if event.Request? {
        BucketsAreSound(history, n - 1, event.now);
        StepIsSound(After(history, n - 1), event, event.now);
      } else {
        BucketsAreSound(history, n - 1, clock);
      }
    }
  }

  // ------------------------------------------------------ how much is admitted

  /** How many requests of one client are granted among events `from` to `to`. */
  ghost function Granted(history: seq<Event>, addr: Str, from: nat, to: nat): nat
    requires from <= to <= |history|
  {
    if from == to then 0 else
      var event := history[to - 1];
      Granted(history, addr, from, to - 1)
      + if event.Request? && event.addr == addr && Grants(After(history, to - 1), addr, event.now) then 1 else 0
  }

  /** One second's burst, and the refill of `d` seconds. */
  ghost predicate WithinRate(granted: nat, rate: real, d: real) {
    granted as real <= rate * (1.0 + d)
  }

  /** A stretch of requests between two times, with reloads that keep the rate positive and at most `top`. */
  ghost predicate Stretch(history: seq<Event>, from: nat, to: nat, start: real, end: real, top: int)
    requires from <= to <= |history|
  {
    && 0 < After(history, from).perSecond <= top
    && forall k :: from <= k < to ==>
         match history[k]
         case Request(_, now) => start <= now <= end
         case SetRate(perSecond) => 0 < perSecond <= top
  }

  lemma GrantsWithinRate(history: seq<Event>, addr: Str, from: nat, to: nat, start: real, d: real, top: int)
    requires Chronological(history) && from <= to <= |history| && 0.0 <= d
    requires Stretch(history, from, to, start, start + d, top)
    ensures WithinRate(Granted(history, addr, from, to), top as real, d)
  {
    if Active(history, addr, from, to) {
      Account(history, addr, from, to, start, start + d, top);
      var b := After(history, to).buckets[addr];
      var k :| from <= k < to && history[k].Request? && history[k].addr == addr;
      assert forall i :: 0 <= i < k && history[i].Request? ==> history[i].now <= history[k].now;
      BucketsAreSound(history, to, start + d);
      PaidLonger(Granted(history, addr, from, to), b.tokens, top as real, 1.0 + b.lastSeen - start, d);
    } else {
      NoneGranted(history, addr, from, to);
      PaidLonger(0, 0.0, top as real, 0.0, d);
    }
  }

  /** The grants, and the tokens left, come out of what `rate` refills over a duration. */
  ghost predicate Paid(granted: nat, tokens: real, rate: real, duration: real) {
    granted as real + tokens <= rate * duration
  }

  lemma PaidLonger(granted: nat, tokens: real, rate: real, duration: real, d: real)
    requires 0.0 <= tokens && 0.0 <= rate && duration <= 1.0 + d && Paid(granted, tokens, rate, duration)
    ensures WithinRate(granted, rate, d)
  {
    Scale(rate, duration, 1.0 + d);
  }

  /** Whether the client sent anything among events `from` to `to`. */
  ghost predicate Active(history: seq<Event>, addr: Str, from: nat, to: nat)
    requires from <= to <= |history|
  {
    exists k :: from <= k < to && history[k].Request? && history[k].addr == addr
  }

  lemma {:induction false} NoneGranted(history: seq<Event>, addr: Str, from: nat, to: nat)
    requires from <= to <= |history| && !Active(history, addr, from, to)
    ensures Granted(history, addr, from, to) == 0
  {
    if from < to {
      NoneGranted(history, addr, from, to - 1);
    }
  }

  lemma Scale(rate: real, a: real, b: real)
    requires 0.0 <= rate && a <= b
    ensures rate * a <= rate * b
  {
    Positive(b - a, rate);
    assert Refill(b - a, rate) == rate * b - rate * a;
  }

  /** Grants and tokens left are paid for by one full bucket at the highest rate and the refill since `start`. */
  lemma {:induction false} Account(history: seq<Event>, addr: Str, from: nat, to: nat, start: real, end: real, top: int)
    requires Chronological(history) && from <= to <= |history|
    requires Stretch(history, from, to, start, end, top)
    ensures 0 < After(history, to).perSecond <= top
    ensures Active(history, addr, from, to) ==>
              && addr in After(history, to).buckets
              && var b := After(history, to).buckets[addr];
                 && 0.0 <= b.tokens
                 && Paid(Granted(history, addr, from, to), b.tokens, top as real, 1.0 + b.lastSeen - start)
  {
    if from < to {
      var before, event := After(history, to - 1), history[to - 1];
      Account(history, addr, from, to - 1, start, end, top);
      if event.Request? && event.addr == addr {
        BucketsAreSound(history, to - 1, event.now);
        if Active(history, addr, from, to - 1) {
          PaysForItself(before, addr, event.now, start, Granted(history, addr, from, to - 1), top);
        } else {
          NoneGranted(history, addr, from, to - 1);
          FirstIsCovered(before, addr, event.now, start, top);
        }
      }
    }
  }

  /** A request's grant comes out of the client's tokens and the refill since its last. */
  lemma PaysForItself(s: State, addr: Str, now: real, start: real, granted: nat, top: int)
    requires Sound(s, now) && 0 < s.perSecond <= top && addr in s.buckets
    requires Paid(granted, s.buckets[addr].tokens, top as real, 1.0 + s.buckets[addr].lastSeen - start)
    ensures var after := Step(s, Request(addr, now)).buckets[addr];
            && 0.0 <= after.tokens && after.lastSeen == now
            && Paid(granted + if Grants(s, addr, now) then 1 else 0, after.tokens, top as real, 1.0 + now - start)
  {
    var elapsed, rate := now - s.buckets[addr].lastSeen, top as real;
    TokensAreWithin(s, addr, now);
    RefillGrows(elapsed, s.perSecond as real, rate);
    Longer(rate, 1.0 + s.buckets[addr].lastSeen - start, elapsed);
  }

  lemma RefillGrows(elapsed: real, low: real, high: real)
    requires 0.0 <= elapsed && low <= high
    ensures Refill(elapsed, low) <= Refill(elapsed, high)
  {
    Positive(elapsed, high - low);
    assert Refill(elapsed, high - low) == Refill(elapsed, high) - Refill(elapsed, low);
  }

  lemma Longer(rate: real, duration: real, elapsed: real)
    ensures rate * (duration + elapsed) == rate * duration + Refill(elapsed, rate)
  {
  }

  /** The first request of a stretch finds at most one second's worth of tokens. */
  lemma FirstIsCovered(s: State, addr: Str, now: real, start: real, top: int)
    requires Sound(s, now) && 0 < s.perSecond <= top && start <= now
    ensures var after := Step(s, Request(addr, now)).buckets[addr];
            && 0.0 <= after.tokens && after.lastSeen == now
            && Paid(if Grants(s, addr, now) then 1 else 0, after.tokens, top as real, 1.0 + now - start)
  {
    TokensAreWithin(s, addr, now);
    var rate, duration, tokens := top as real, 1.0 + now - start, TokensAt(s, addr, now);
    Scale(rate, 1.0, duration);
    assert tokens <= rate == rate * 1.0;
    assert Paid(if Grants(s, addr, now) then 1 else 0, if tokens >= 1.0 then tokens - 1.0 else tokens, rate, duration);
  }

  // ------------------------------------------------- who is refused, exactly

  /** One second's burst, and the refill of the seconds since. */
  ghost function Allotted(rate: real, since: real): real {
    rate * (1.0 + since)
  }

  lemma AllottedLater(rate: real, since: real, elapsed: real)
    ensures Allotted(rate, since + elapsed) == Allotted(rate, since) + Refill(elapsed, rate)
    ensures Allotted(rate, elapsed) == rate + Refill(elapsed, rate)
  {
  }

  /** Whatever is reloaded, the rate stays the same. */
  ghost predicate FixedRate(history: seq<Event>, rate: int) {
    && history != [] && history[0] == SetRate(rate)
    && forall i :: 0 <= i < |history| && history[i].SetRate? ==> history[i] == SetRate(rate)
  }

  lemma {:induction false} RateStays(history: seq<Event>, rate: int, n: nat)
    requires FixedRate(history, rate) && 0 < n <= |history|
    ensures After(history, n).perSecond == rate
  {
    if n > 1 {
      RateStays(history, rate, n - 1);
    } else {
      assert After(history, 0) == State(0, map[]);
    }
  }

  ghost predicate IsFrom(event: Event, addr: Str) {
    event.Request? && event.addr == addr
  }

  /** What request `k` leaves a client at `now`, of the allotment since then, after the grants up to `n`. */
  ghost function LeftSince(history: seq<Event>, addr: Str, rate: int, k: nat, n: nat, now: real): real
    requires k < n <= |history| && IsFrom(history[k], addr)
  {
    Allotted(rate as real, now - history[k].now) - Granted(history, addr, k, n) as real
  }

  /** A client's tokens are at most what each of its requests left it. */
  ghost predicate NoneIsExceeded(history: seq<Event>, addr: Str, rate: int, n: nat, now: real, tokens: real)
    requires n <= |history|
  {
    && tokens <= rate as real
    && forall k :: 0 <= k < n && IsFrom(history[k], addr) ==> tokens <= LeftSince(history, addr, rate, k, n, now)
  }

  /** They are a full bucket, or exactly what one of its requests left it. */
  ghost predicate OneIsMet(history: seq<Event>, addr: Str, rate: int, n: nat, now: real, tokens: real)
    requires n <= |history|
  {
    || tokens == rate as real
    || exists k :: 0 <= k < n && IsFrom(history[k], addr) && tokens == LeftSince(history, addr, rate, k, n, now)
  }

  /** A client's tokens are the least that any of its requests left it, and at most a full bucket. */
  lemma {:induction false} TokensAreTheLeast(history: seq<Event>, addr: Str, rate: int, n: nat, now: real)
    requires FixedRate(history, rate) && rate > 0 && 0 < n <= |history|
    ensures NoneIsExceeded(history, addr, rate, n, now, TokensAt(After(history, n), addr, now))
    ensures OneIsMet(history, addr, rate, n, now, TokensAt(After(history, n), addr, now))
  {
    RateStays(history, rate, n);
    if n > 1 {
      RateStays(history, rate, n - 1);
      if IsFrom(history[n - 1], addr) {
        TokensAreTheLeast(history, addr, rate, n - 1, history[n - 1].now);
        LeastAfterRequest(history, addr, rate, n, now);
      } else {
        TokensAreTheLeast(history, addr, rate, n - 1, now);
        LeastAfterOther(history, addr, rate, n, now);
      }
    } else {
      assert After(history, 0) == State(0, map[]);
    }
  }

  lemma LeastAfterOther(history: seq<Event>, addr: Str, rate: int, n: nat, now: real)
    requires 1 < n <= |history| && !IsFrom(history[n - 1], addr)
    requires After(history, n - 1).perSecond == After(history, n).perSecond == rate
    requires var tokens := TokensAt(After(history, n - 1), addr, now);
             && NoneIsExceeded(history, addr, rate, n - 1, now, tokens)
             && OneIsMet(history, addr, rate, n - 1, now, tokens)
    ensures NoneIsExceeded(history, addr, rate, n, now, TokensAt(After(history, n), addr, now))
    ensures OneIsMet(history, addr, rate, n, now, TokensAt(After(history, n), addr, now))
  {
    var tokens := TokensAt(After(history, n - 1), addr, now);
    assert TokensAt(After(history, n), addr, now) == tokens;
    forall k | 0 <= k < n - 1 && IsFrom(history[k], addr)
      ensures LeftSince(history, addr, rate, k, n, now) == LeftSince(history, addr, rate, k, n - 1, now)
    {
    }
  }

  lemma LeastAfterRequest(history: seq<Event>, addr: Str, rate: int, n: nat, now: real)
    requires 1 < n <= |history| && IsFrom(history[n - 1], addr) && rate > 0
    requires After(history, n - 1).perSecond == After(history, n).perSecond == rate
    requires var (t, tokens) := (history[n - 1].now, TokensAt(After(history, n - 1), addr, history[n - 1].now));
             NoneIsExceeded(history, addr, rate, n - 1, t, tokens) && OneIsMet(history, addr, rate, n - 1, t, tokens)
    ensures NoneIsExceeded(history, addr, rate, n, now, TokensAt(After(history, n), addr, now))
    ensures OneIsMet(history, addr, rate, n, now, TokensAt(After(history, n), addr, now))
  {
    var t, full := history[n - 1].now, rate as real;
    var tokens := TokensAt(After(history, n - 1), addr, t);
    var left := (if tokens >= 1.0 then tokens - 1.0 else tokens) + Refill(now - t, full);
    assert TokensAt(After(history, n), addr, now) == if left > full then full else left;
    AllottedLater(full, 0.0, now - t);
    var one := if tokens >= 1.0 then 1.0 else 0.0;
    assert LeftSince(history, addr, rate, n - 1, n, now) == full + Refill(now - t, full) - one by {
      assert Granted(history, addr, n - 1, n - 1) == 0;
    }
    forall k | 0 <= k < n - 1 && IsFrom(history[k], addr)
      ensures LeftSince(history, addr, rate, k, n, now)
           == LeftSince(history, addr, rate, k, n - 1, t) - one + Refill(now - t, full)
    {
      AllottedLater(full, t - history[k].now, now - t);
    }
  }

  // ------------------------------------------------------------- the limiter

  class RateLimiter {
    var perSecond: int
    var buckets: map<Str, Bucket>
    ghost var history: seq<Event>
    /** What each request of the history was told. */
    ghost var answers: seq<bool>
    /** No request so far was later than this. */
    ghost var clock: real

    /** The state of a limiter that never forgot anybody. */
    ghost function Unforgetting(): State
      reads this
    {
      After(history, |history|)
    }

    ghost predicate Valid()
      reads this
    {
      && Timely(history, clock)
      && Mirrors(perSecond, buckets, Unforgetting(), clock)
      && Answered(history, answers)
    }

    constructor (perSecond: int, ghost start: real)
      ensures Valid() && history == [SetRate(perSecond)] && clock == start
    {
      this.perSecond := perSecond;
      buckets := map[];
      history, answers := [SetRate(perSecond)], [true];
      clock := start;
      new;
      Appended([], SetRate(perSecond), start);
      assert [] + [SetRate(perSecond)] == history;
    }

    method SetPerSecond(perSecond: int)
      requires Valid()
      modifies this
      ensures Valid() && history == old(history) + [SetRate(perSecond)] && clock == old(clock)
      ensures answers[..|old(history)|] == old(answers)
      ensures this.perSecond == perSecond && buckets == old(buckets)
    {
      this.perSecond := perSecond;
      Appended(history, SetRate(perSecond), clock);
      AnsweredSoFar(history, answers, SetRate(perSecond), true);
      history, answers := history + [SetRate(perSecond)], answers + [true];
    }

    /** Decides every request exactly as the limiter that never forgets, sweep or no sweep. */
    method Allow(addr: Str, now: real) returns (granted: bool)
      requires Valid() && clock <= now
      modifies this
      ensures Valid() && history == old(history) + [Request(addr, now)] && clock == now
      ensures answers == old(answers) + [granted]
      ensures perSecond <= 0 ==> granted && buckets == old(buckets)
      ensures forall a :: a in old(buckets) ==>
                (a !in buckets
                 <==> && perSecond > 0 && addr !in old(buckets) && |old(buckets)| >= 10000
                      && now - old(buckets)[a].lastSeen > 600.0)
    {
      hide Answered;
      ghost var ideal := Unforgetting();
      Appended(history, Request(addr, now), clock);
      AnsweredSoFar(history, answers, Request(addr, now), Grants(ideal, addr, now));
      history, clock := history + [Request(addr, now)], now;
      answers := answers + [Grants(ideal, addr, now)];
      if perSecond <= 0 {
        StepIsSound(ideal, Request(addr, now), old(clock));
        return true;
      }
      var tracked: Bucket;
      if addr !in buckets {
        ForgottenIsFull(ideal, addr, now);
        if |buckets| >= SWEEP_THRESHOLD {
          Sweep(now);
        }
        tracked := Bucket(perSecond as real, now);
      } else {
        var tokens := buckets[addr].tokens + Refill(now - buckets[addr].lastSeen, perSecond as real);
        if tokens > perSecond as real {
          tokens := perSecond as real;
        }
        assert tokens == TokensAt(ideal, addr, now);
        tracked := Bucket(tokens, now);
      }
      granted := tracked.tokens >= 1.0;
      if granted {
        tracked := tracked.(tokens := tracked.tokens - 1.0);
      }
      assert tracked == Step(ideal, Request(addr, now)).buckets[addr];
      StaysMirrored(perSecond, old(buckets), buckets, ideal, old(clock), addr, now);
      buckets := buckets[addr := tracked];
    }

    /** Drops exactly the clients that have been quiet for longer than the TTL. */
    method Sweep(now: real)
      modifies `buckets
      ensures forall a :: a in buckets <==> a in old(buckets) && now - old(buckets)[a].lastSeen <= 600.0
      ensures forall a :: a in buckets ==> buckets[a] == old(buckets)[a]
    {
      var unseen := buckets.Keys;
      while unseen != {}
        invariant unseen <= old(buckets).Keys
        invariant forall a ::
                    (a in buckets
                     <==> a in old(buckets) && (a in unseen || now - old(buckets)[a].lastSeen <= IDLE_BUCKET_TTL))
        invariant forall a :: a in buckets ==> buckets[a] == old(buckets)[a]
        decreases unseen
      {
        var addr :| addr in unseen;
        unseen := unseen - {addr};
        if now - buckets[addr].lastSeen > IDLE_BUCKET_TTL {
          buckets := buckets - {addr};
        }
      }
    }
  }

  /**
   What a limiter tracks against the one that never forgets: whoever it tracks,
   it has the same bucket for, and whoever it has dropped was idle for the TTL.
   */
  ghost predicate Mirrors(perSecond: int, buckets: map<Str, Bucket>, ideal: State, clock: real) {
    && Sound(ideal, clock)
    && perSecond == ideal.perSecond
    && (forall a :: a in buckets ==> a in ideal.buckets && buckets[a] == ideal.buckets[a])
    && (forall a :: a in ideal.buckets && a !in buckets ==> clock - ideal.buckets[a].lastSeen > IDLE_BUCKET_TTL)
  }

  /** Serving one client, after a sweep or none, keeps the mirror. */
  lemma StaysMirrored(perSecond: int, before: map<Str, Bucket>, kept: map<Str, Bucket>, ideal: State, clock: real,
                      addr: Str, now: real)
    requires Mirrors(perSecond, before, ideal, clock) && clock <= now && perSecond > 0
    requires forall a :: a in kept ==> a in before && kept[a] == before[a]
    requires forall a :: a in before && a !in kept ==> now - before[a].lastSeen > IDLE_BUCKET_TTL
    ensures var after := Step(ideal, Request(addr, now));
            Mirrors(perSecond, kept[addr := after.buckets[addr]], after, now)
  {
    StepIsSound(ideal, Request(addr, now), clock);
  }

  /** Every request of the history was told what the limiter that never forgets would tell it. */
  ghost predicate Answered(history: seq<Event>, answers: seq<bool>) {
    && |answers| == |history|
    && forall i :: 0 <= i < |history| && history[i].Request? ==>
        (answers[i] <==> Grants(After(history, i), history[i].addr, history[i].now))
  }

  lemma AnsweredSoFar(history: seq<Event>, answers: seq<bool>, event: Event, answer: bool)
    requires Answered(history, answers)
    requires event.Request? ==> (answer <==> Grants(After(history, |history|), event.addr, event.now))
    ensures Answered(history + [event], answers + [answer])
  {
    hide Grants, After;
    forall i | 0 <= i <= |history|
      ensures After(history + [event], i) == After(history, i)
    {
      SamePrefix(history, history + [event], i);
    }
  }

  /** The requests of one client that were let through among events `from` to `to`. */
  ghost function LetThrough(history: seq<Event>, answers: seq<bool>, addr: Str, from: nat, to: nat): set<nat>
    requires from <= to <= |history| == |answers|
  {
    set i: nat | from <= i < to && history[i].Request? && history[i].addr == addr && answers[i]
  }

  lemma {:induction false} GrantsAreAnswers(history: seq<Event>, answers: seq<bool>, addr: Str, from: nat, to: nat)
    requires Answered(history, answers) && from <= to <= |history|
    ensures Granted(history, addr, from, to) == |LetThrough(history, answers, addr, from, to)|
  {
    if from < to {
      hide Grants;
      GrantsAreAnswers(history, answers, addr, from, to - 1);
      OneMoreAnswer(history, answers, addr, from, to);
    }
  }

  lemma OneMoreAnswer(history: seq<Event>, answers: seq<bool>, addr: Str, from: nat, to: nat)
    requires from < to <= |history| == |answers|
    ensures to - 1 !in LetThrough(history, answers, addr, from, to - 1)
    ensures LetThrough(history, answers, addr, from, to)
         == LetThrough(history, answers, addr, from, to - 1)
            + if history[to - 1].Request? && history[to - 1].addr == addr && answers[to - 1] then {to - 1} else {}
  {
  }

  /**
   While the rate stays positive and at most `top`, a limiter lets a client through
   at most `top * (1 + d)` times in any stretch of `d` seconds, whatever came before it.
   */
  lemma AdmitsAtMost(l: RateLimiter, addr: Str, from: nat, to: nat, start: real, d: real, top: int)
    requires l.Valid() && from <= to <= |l.history| && 0.0 <= d
    requires Stretch(l.history, from, to, start, start + d, top)
    ensures |LetThrough(l.history, l.answers, addr, from, to)| as real <= top as real * (1.0 + d)
  {
    GrantsWithinRate(l.history, addr, from, to, start, d, top);
    GrantsAreAnswers(l.history, l.answers, addr, from, to);
  }

  /** Letting request `n` through would be one too many for its client since its request `k`. */
  ghost predicate OneTooMany(l: RateLimiter, rate: int, k: nat, n: nat)
    requires k < n < |l.history| == |l.answers| && l.history[n].Request?
    reads l
  {
    && l.history[k].Request? && l.history[k].addr == l.history[n].addr
    && |LetThrough(l.history, l.answers, l.history[n].addr, k, n)| as real + 1.0
       > rate as real * (1.0 + (l.history[n].now - l.history[k].now))
  }

  /**
   At a fixed positive rate a limiter refuses a request if and only if it would be one
   too many since some earlier request of its client: more than one second's burst
   and the refill of the time since.
   */
  lemma RefusesExactly(l: RateLimiter, rate: int, n: nat)
    requires l.Valid() && rate > 0 && n < |l.history| == |l.answers| && l.history[n].Request?
    requires l.history[0] == SetRate(rate)
    requires forall i :: 0 <= i < |l.history| && l.history[i].SetRate? ==> l.history[i] == SetRate(rate)
    ensures !l.answers[n] <==> exists k :: 0 <= k < n && OneTooMany(l, rate, k, n)
  {
    hide Timely, Mirrors, OneTooMany, Grants, LeavesTooLittle;
    RefusesByLeft(l.history, l.history[n].addr, rate, n, l.history[n].now);
    forall k | 0 <= k < n
      ensures OneTooMany(l, rate, k, n) <==> LeavesTooLittle(l.history, l.history[n].addr, rate, k, n, l.history[n].now)
    {
      OneTooManyByLeft(l, rate, k, n);
    }
  }

  ghost predicate LeavesTooLittle(history: seq<Event>, addr: Str, rate: int, k: nat, n: nat, now: real)
    requires k < n <= |history|
  {
    IsFrom(history[k], addr) && LeftSince(history, addr, rate, k, n, now) < 1.0
  }

  lemma RefusesByLeft(history: seq<Event>, addr: Str, rate: int, n: nat, now: real)
    requires FixedRate(history, rate) && rate > 0 && 0 < n <= |history|
    ensures !Grants(After(history, n), addr, now)
       <==> exists k :: 0 <= k < n && LeavesTooLittle(history, addr, rate, k, n, now)
  {
    hide TokensAt, LeftSince;
    TokensAreTheLeast(history, addr, rate, n, now);
    RateStays(history, rate, n);
    var tokens := TokensAt(After(history, n), addr, now);
    assert rate as real >= 1.0;
    if tokens < 1.0 {
      var k :| 0 <= k < n && IsFrom(history[k], addr) && tokens == LeftSince(history, addr, rate, k, n, now);
      assert LeavesTooLittle(history, addr, rate, k, n, now);
    }
  }

  lemma OneTooManyByLeft(l: RateLimiter, rate: int, k: nat, n: nat)
    requires Answered(l.history, l.answers) && k < n < |l.history| == |l.answers| && l.history[n].Request?
    ensures OneTooMany(l, rate, k, n) <==> LeavesTooLittle(l.history, l.history[n].addr, rate, k, n, l.history[n].now)
  {
    hide LetThrough, Granted, Answered;
    if IsFrom(l.history[k], l.history[n].addr) {
      GrantsAreAnswers(l.history, l.answers, l.history[n].addr, k, n);
    }
  }

  /** In order, and over by `clock`. */
  ghost predicate Timely(history: seq<Event>, clock: real) {
    && Chronological(history)
    && forall i :: 0 <= i < |history| && history[i].Request? ==> history[i].now <= clock
  }

  lemma Appended(history: seq<Event>, event: Event, clock: real)
    requires Timely(history, clock) && (event.Request? ==> clock <= event.now)
    ensures After(history + [event], |history + [event]|) == Step(After(history, |history|), event)
    ensures Timely(history + [event], if event.Request? then event.now else clock)
  {
    SamePrefix(history, history + [event], |history|);
  }

  lemma {:induction false} SamePrefix(history: seq<Event>, longer: seq<Event>, n: nat)
    requires n <= |history| <= |longer| && history == longer[..|history|]
    ensures After(history, n) == After(longer, n)
  {
    if n > 0 {
      SamePrefix(history, longer, n - 1);
    }
  }

  /** A bucket idle for the whole TTL has refilled anyway. */
  lemma ForgottenIsFull(s: State, addr: Str, now: real)
    requires s.perSecond > 0
    requires addr in s.buckets ==> 0.0 <= s.buckets[addr].tokens && now - s.buckets[addr].lastSeen > IDLE_BUCKET_TTL
    ensures TokensAt(s, addr, now) == s.perSecond as real
  {
    if addr in s.buckets {
      var full, elapsed := s.perSecond as real, now - s.buckets[addr].lastSeen;
      Scale(full, 1.0, elapsed);
      assert Refill(elapsed, full) == full * elapsed;
    }
  }
}
