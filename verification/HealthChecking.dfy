/** Health checking: the consecutive-outcome counters, and the trace of outcomes they stand for. */
module HealthChecking {
  import opened Basics

  /** The bookkeeping of one backend. */
  datatype Health = Health(healthy: bool, successes: nat, failures: nat)

  const FRESH := Health(true, 0, 0)

  function Recorded(s: Health, succeeded: bool, unhealthyAfter: int, healthyAfter: int): Health {
    if succeeded then
      Health(s.healthy || s.successes + 1 >= healthyAfter, s.successes + 1, 0)
    else
      Health(s.healthy && s.failures + 1 < unhealthyAfter, 0, s.failures + 1)
  }

  /** The bookkeeping after a trace of outcomes under fixed thresholds. */
  ghost function HealthAfter(trace: seq<bool>, unhealthyAfter: int, healthyAfter: int): Health {
    if trace == [] then FRESH
    else
      var before := HealthAfter(trace[..|trace| - 1], unhealthyAfter, healthyAfter);
      Recorded(before, trace[|trace| - 1], unhealthyAfter, healthyAfter)
  }

  // --------------------------------------------------- what the trace says

  /** The `n` outcomes from `i` on are all the same. */
  ghost predicate Streak(trace: seq<bool>, i: int, n: nat, outcome: bool) {
    0 <= i && i + n <= |trace| && forall k :: i <= k < i + n ==> trace[k] == outcome
  }

  /** Some `unhealthyAfter` failures in a row, and no `healthyAfter` successes in a row after them. */
  ghost predicate IsOut(trace: seq<bool>, unhealthyAfter: nat, healthyAfter: nat) {
    exists i: nat :: OutSince(trace, unhealthyAfter, healthyAfter, i)
  }

  ghost predicate OutSince(trace: seq<bool>, unhealthyAfter: nat, healthyAfter: nat, i: nat) {
    && Streak(trace, i, unhealthyAfter, false)
    && forall k: nat :: i + unhealthyAfter <= k ==> !Streak(trace, k, healthyAfter, true)
  }

  /** The counters are the lengths of the unbroken run the trace ends with. */
  lemma {:induction false} CountersAreRuns(trace: seq<bool>, u: int, h: int, n: nat)
    ensures n <= HealthAfter(trace, u, h).successes <==> Streak(trace, |trace| - n, n, true)
    ensures n <= HealthAfter(trace, u, h).failures <==> Streak(trace, |trace| - n, n, false)
  {
    if trace != [] && n > 0 {
      CountersAreRuns(trace[..|trace| - 1], u, h, n - 1);
      StreakGrows(trace, |trace| - n, n - 1, true);
      StreakGrows(trace, |trace| - n, n - 1, false);
    }
  }

  lemma StreakGrows(trace: seq<bool>, i: int, n: nat, outcome: bool)
    requires trace != [] && i + n == |trace| - 1
    ensures Streak(trace, i, n + 1, outcome)
       <==> trace[|trace| - 1] == outcome && Streak(trace[..|trace| - 1], i, n, outcome)
  {
    StreakInPrefix(trace, i, n, outcome);
  }

  lemma StreakInPrefix(trace: seq<bool>, i: int, n: nat, outcome: bool)
    requires trace != [] && i + n <= |trace| - 1
    ensures Streak(trace[..|trace| - 1], i, n, outcome) <==> Streak(trace, i, n, outcome)
  {
    var before := trace[..|trace| - 1];
    if Streak(before, i, n, outcome) {
      forall k | i <= k < i + n
        ensures trace[k] == outcome
      {
        assert before[k] == outcome;
      }
    }
  }

  /**
   One outcome later, a backend that was out since some failures is out since them
   still, unless a recovery is complete.
   */
  lemma StillOut(trace: seq<bool>, u: nat, h: nat, i: nat)
    requires u >= 1 && h >= 1 && trace != [] && i + u < |trace|
    ensures OutSince(trace, u, h, i)
       <==> OutSince(trace[..|trace| - 1], u, h, i) && !(i + u <= |trace| - h && Streak(trace, |trace| - h, h, true))
  {
    var before := trace[..|trace| - 1];
    StreakInPrefix(trace, i, u, false);
    if OutSince(trace, u, h, i) {
      forall k: nat | i + u <= k
        ensures !Streak(before, k, h, true)
      {
        if k + h <= |trace| - 1 {
          StreakInPrefix(trace, k, h, true);
        }
      }
    }
    if OutSince(before, u, h, i) && !(i + u <= |trace| - h && Streak(trace, |trace| - h, h, true)) {
      forall k: nat | i + u <= k
        ensures !Streak(trace, k, h, true)
      {
        if k + h <= |trace| - 1 {
          StreakInPrefix(trace, k, h, true);
        }
      }
    }
  }

  /** After a success, a backend is out if it was, unless this success completes a recovery. */
  lemma OutAfterSuccess(trace: seq<bool>, u: nat, h: nat)
    requires u >= 1 && h >= 1 && trace != [] && trace[|trace| - 1]
    ensures IsOut(trace, u, h) <==> IsOut(trace[..|trace| - 1], u, h) && !Streak(trace, |trace| - h, h, true)
  {
    var before := trace[..|trace| - 1];
    if IsOut(trace, u, h) {
      var i: nat :| OutSince(trace, u, h, i);
      assert !trace[i + u - 1];
      StillOut(trace, u, h, i);
      assert OutSince(before, u, h, i);
    }
    if IsOut(before, u, h) && !Streak(trace, |trace| - h, h, true) {
      var i: nat :| OutSince(before, u, h, i);
      StillOut(trace, u, h, i);
      assert OutSince(trace, u, h, i);
    }
  }

  /** After a failure, a backend is out if it was, or if this failure completes a run. */
  lemma OutAfterFailure(trace: seq<bool>, u: nat, h: nat)
    requires u >= 1 && h >= 1 && trace != [] && !trace[|trace| - 1]
    ensures IsOut(trace, u, h) <==> IsOut(trace[..|trace| - 1], u, h) || Streak(trace, |trace| - u, u, false)
  {
    var before := trace[..|trace| - 1];
    if IsOut(trace, u, h) {
      var i: nat :| OutSince(trace, u, h, i);
      if i + u < |trace| {
        StillOut(trace, u, h, i);
        assert OutSince(before, u, h, i);
      }
    }
    if IsOut(before, u, h) {
      var i: nat :| OutSince(before, u, h, i);
      StillOut(trace, u, h, i);
      assert OutSince(trace, u, h, i);
    }
    if Streak(trace, |trace| - u, u, false) {
      assert OutSince(trace, u, h, |trace| - u);
    }
  }

  /** The counters and the flag say exactly what the trace says. */
  lemma {:induction false} OutByTrace(trace: seq<bool>, u: nat, h: nat)
    requires u >= 1 && h >= 1
    ensures !HealthAfter(trace, u, h).healthy <==> IsOut(trace, u, h)
  {
    if trace == [] {
      assert forall i: nat :: !OutSince(trace, u, h, i);
    } else {
      var before, last := trace[..|trace| - 1], trace[|trace| - 1];
      OutByTrace(before, u, h);
      CountersAreRuns(trace, u, h, u);
      CountersAreRuns(trace, u, h, h);
      if last {
        OutAfterSuccess(trace, u, h);
      } else {
        OutAfterFailure(trace, u, h);
      }
    }
  }

  // -------------------------------------------------- histories with reloads

  datatype Event =
    | Outcome(addr: Str, succeeded: bool)
    | Reloaded(unhealthyAfter: int, healthyAfter: int, pool: seq<Str>)

  /** The thresholds in force. */
  ghost function Thresholds(history: seq<Event>): (int, int) {
    if history == [] then (1, 1)
    else
      var last := history[|history| - 1];
      if last.Reloaded? then (last.unhealthyAfter, last.healthyAfter) else Thresholds(history[..|history| - 1])
  }

  /**
   The bookkeeping of one address through a history: kept over a reload it survives,
   fresh after one that brings it in.
   */
  ghost function Tracked(history: seq<Event>, addr: Str): Option<Health> {
    if history == [] then None
    else
      var (before, last) := (history[..|history| - 1], history[|history| - 1]);
      var was := Tracked(before, addr);
      match last
      case Reloaded(_, _, pool) => if addr !in pool then None else if was.Some? then was else Some(FRESH)
      case Outcome(a, succeeded) =>
        if a != addr || was.None? then was
        else Some(Recorded(was.value, succeeded, Thresholds(before).0, Thresholds(before).1))
  }

  /** The outcomes recorded for an address since a reload last brought it in. */
  ghost function TraceOf(history: seq<Event>, addr: Str): Option<seq<bool>> {
    if history == [] then None
    else
      var (before, last) := (history[..|history| - 1], history[|history| - 1]);
      var was := TraceOf(before, addr);
      match last
      case Reloaded(_, _, pool) => if addr !in pool then None else if was.Some? then was else Some([])
      case Outcome(a, succeeded) => if a != addr || was.None? then was else Some(was.value + [succeeded])
  }

  ghost predicate FixedThresholds(history: seq<Event>, u: nat, h: nat) {
    && history != [] && history[0].Reloaded?
    && forall i :: 0 <= i < |history| && history[i].Reloaded? ==>
        history[i].unhealthyAfter == u && history[i].healthyAfter == h
  }

  lemma {:induction false} FixedThresholdsInForce(history: seq<Event>, u: nat, h: nat)
    requires FixedThresholds(history, u, h)
    ensures Thresholds(history) == (u, h)
  {
    if history[|history| - 1].Outcome? {
      FixedThresholdsInForce(history[..|history| - 1], u, h);
    }
  }

  lemma {:induction false} TrackedByTrace(history: seq<Event>, addr: Str, u: nat, h: nat)
    requires FixedThresholds(history, u, h)
    ensures Tracked(history, addr).Some? <==> TraceOf(history, addr).Some?
    ensures Tracked(history, addr).Some? ==>
              Tracked(history, addr).value == HealthAfter(TraceOf(history, addr).value, u, h)
  {
    var before, last := history[..|history| - 1], history[|history| - 1];
    if before != [] {
      TrackedByTrace(before, addr, u, h);
      FixedThresholdsInForce(before, u, h);
      if last.Outcome? && last.addr == addr && TraceOf(before, addr).Some? {
        var trace := TraceOf(history, addr).value;
        assert trace[..|trace| - 1] == TraceOf(before, addr).value;
      }
    }
  }

  /** A run of failures at the end takes a backend out, whatever came before, and one of successes brings it back. */
  lemma RunAtTheEnd(trace: seq<bool>, u: nat, h: nat)
    requires u >= 1 && h >= 1
    ensures Streak(trace, |trace| - u, u, false) ==> IsOut(trace, u, h)
    ensures Streak(trace, |trace| - h, h, true) ==> !IsOut(trace, u, h)
  {
    if Streak(trace, |trace| - u, u, false) {
      assert OutSince(trace, u, h, |trace| - u);
    }
    if Streak(trace, |trace| - h, h, true) {
      forall i: nat
        ensures !OutSince(trace, u, h, i)
      {
        if Streak(trace, i, u, false) {
          assert !trace[i + u - 1];
          assert i + u <= |trace| - h;
        }
      }
    }
  }

  // ------------------------------------------- thresholds that are reloaded

  lemma RecordedCounts(s: Health, trace: seq<bool>, succeeded: bool, u: int, h: int, n: nat)
    requires n > 0 ==> (n - 1 <= s.successes <==> Streak(trace, |trace| - (n - 1), n - 1, true))
    requires n > 0 ==> (n - 1 <= s.failures <==> Streak(trace, |trace| - (n - 1), n - 1, false))
    ensures var (after, longer) := (Recorded(s, succeeded, u, h), trace + [succeeded]);
            && (n <= after.successes <==> Streak(longer, |longer| - n, n, true))
            && (n <= after.failures <==> Streak(longer, |longer| - n, n, false))
  {
    var longer := trace + [succeeded];
    if n > 0 {
      assert longer[..|longer| - 1] == trace;
      StreakGrows(longer, |longer| - n, n - 1, true);
      StreakGrows(longer, |longer| - n, n - 1, false);
    }
  }

  /** Whatever thresholds were in force meanwhile, the counters are the run the trace of an address ends with. */
  lemma {:induction false} CountersAreRunsThroughout(history: seq<Event>, addr: Str, n: nat)
    ensures Tracked(history, addr).Some? <==> TraceOf(history, addr).Some?
    ensures Tracked(history, addr).Some? ==>
              var (health, trace) := (Tracked(history, addr).value, TraceOf(history, addr).value);
              && (n <= health.successes <==> Streak(trace, |trace| - n, n, true))
              && (n <= health.failures <==> Streak(trace, |trace| - n, n, false))
  {
    if history != [] {
      var before, last := history[..|history| - 1], history[|history| - 1];
      CountersAreRunsThroughout(before, addr, n);
      if last.Outcome? && last.addr == addr && Tracked(before, addr).Some? {
        if n > 0 {
          CountersAreRunsThroughout(before, addr, n - 1);
        }
        RecordedCounts(Tracked(before, addr).value, TraceOf(before, addr).value, last.succeeded,
                       Thresholds(before).0, Thresholds(before).1, n);
      }
    }
  }

  /** The thresholds of the last reload are those in force. */
  lemma {:induction false} LastReloadIsInForce(history: seq<Event>, r: nat)
    requires r < |history| && history[r].Reloaded? && forall i :: r < i < |history| ==> history[i].Outcome?
    ensures Thresholds(history) == (history[r].unhealthyAfter, history[r].healthyAfter)
  {
    if r < |history| - 1 {
      LastReloadIsInForce(history[..|history| - 1], r);
    }
  }

  /**
   After any reloads, one more outcome takes a backend out exactly when it completes a
   run of as many failures as the last reload asks for, however much of the run came
   before that reload, and brings it back exactly when it completes such a run of
   successes.
   */
  lemma LastReloadDecides(history: seq<Event>, r: nat, addr: Str, succeeded: bool)
    requires r < |history| && history[r].Reloaded? && forall i :: r < i < |history| ==> history[i].Outcome?
    requires history[r].unhealthyAfter >= 1 && history[r].healthyAfter >= 1 && Tracked(history, addr).Some?
    ensures TraceOf(history, addr).Some? && Tracked(history + [Outcome(addr, succeeded)], addr).Some?
    ensures var healthy := Tracked(history + [Outcome(addr, succeeded)], addr).value.healthy;
            var trace := TraceOf(history, addr).value + [succeeded];
            var (u, h) := (history[r].unhealthyAfter, history[r].healthyAfter);
            if Tracked(history, addr).value.healthy then !healthy <==> Streak(trace, |trace| - u, u, false)
            else healthy <==> Streak(trace, |trace| - h, h, true)
  {
    var longer := history + [Outcome(addr, succeeded)];
    assert longer[..|longer| - 1] == history;
    LastReloadIsInForce(history, r);
    CountersAreRunsThroughout(history, addr, 0);
    CountersAreRunsThroughout(longer, addr, history[r].unhealthyAfter);
    CountersAreRunsThroughout(longer, addr, history[r].healthyAfter);
  }

  /** The outcomes reported for an address. */
  ghost function OutcomesOf(events: seq<Event>, addr: Str): seq<bool> {
    if events == [] then []
    else
      var last := events[|events| - 1];
      OutcomesOf(events[..|events| - 1], addr) + if last.Outcome? && last.addr == addr then [last.succeeded] else []
  }

  /**
   While no reload drops it, an address keeps its trace, and every outcome reported for
   it is added, over any reloads.
   */
  lemma {:induction false} SurvivorsKeepTheirTrace(history: seq<Event>, more: seq<Event>, addr: Str)
    requires TraceOf(history, addr).Some?
    requires forall i :: 0 <= i < |more| && more[i].Reloaded? ==> addr in more[i].pool
    ensures TraceOf(history + more, addr) == Some(TraceOf(history, addr).value + OutcomesOf(more, addr))
  {
    var was := TraceOf(history, addr).value;
    if more == [] {
      assert history + more == history && was + OutcomesOf(more, addr) == was;
    } else {
      var most, last := more[..|more| - 1], more[|more| - 1];
      var one := if last.Outcome? && last.addr == addr then [last.succeeded] else [];
      SurvivorsKeepTheirTrace(history, most, addr);
      var all := history + more;
      assert all[..|all| - 1] == history + most && all[|all| - 1] == last;
      assert TraceOf(history + most, addr) == Some(was + OutcomesOf(most, addr));
      assert last.Reloaded? ==> addr in last.pool;
      assert TraceOf(all, addr) == Some(was + OutcomesOf(most, addr) + one) by {
        assert one == [] ==> was + OutcomesOf(most, addr) + one == was + OutcomesOf(most, addr);
      }
      assert OutcomesOf(more, addr) == OutcomesOf(most, addr) + one;
      assert was + OutcomesOf(more, addr) == was + OutcomesOf(most, addr) + one;
    }
  }

  /**
   An address that was dropped is forgotten, whatever is reported about it until it
   returns, and then starts healthy.
   */
  lemma {:induction false} DroppedIsForgotten(history: seq<Event>, drop: Event, away: seq<Event>, back: Event,
                                              addr: Str)
    requires drop.Reloaded? && addr !in drop.pool && back.Reloaded? && addr in back.pool
    requires forall i :: 0 <= i < |away| && away[i].Reloaded? ==> addr !in away[i].pool
    ensures Tracked(history + [drop] + away, addr) == None && TraceOf(history + [drop] + away, addr) == None
    ensures Tracked(history + [drop] + away + [back], addr) == Some(FRESH)
    ensures TraceOf(history + [drop] + away + [back], addr) == Some([])
  {
    var gone := history + [drop] + away;
    assert (gone + [back])[..|gone|] == gone;
    if away == [] {
      assert gone[..|gone| - 1] == history;
    } else {
      assert gone[..|gone| - 1] == history + [drop] + away[..|away| - 1];
      DroppedIsForgotten(history, drop, away[..|away| - 1], back, addr);
    }
  }

  // -------------------------------------------------------------- the checker

  class HttpChecker {
    var unhealthyAfter: int
    var healthyAfter: int
    var backends: map<Str, Health>
    ghost var history: seq<Event>

    ghost predicate Valid()
      reads this
    {
      && history != [] && history[0].Reloaded?
      && (unhealthyAfter, healthyAfter) == Thresholds(history)
      && forall a :: (if a in backends then Some(backends[a]) else None) == Tracked(history, a)
    }

    constructor (unhealthyAfter: int, healthyAfter: int)
      ensures Valid() && history == [Reloaded(unhealthyAfter, healthyAfter, [])]
    {
      this.unhealthyAfter, this.healthyAfter := unhealthyAfter, healthyAfter;
      backends := map[];
      history := [Reloaded(unhealthyAfter, healthyAfter, [])];
    }

    method Reload(unhealthyAfter: int, healthyAfter: int, pool: seq<Str>)
      requires Valid()
      modifies this
      ensures Valid() && history == old(history) + [Reloaded(unhealthyAfter, healthyAfter, pool)]
      ensures forall a :: a in backends <==> a in pool
      ensures forall a :: a in pool ==>
                backends[a] == if a in old(backends) then old(backends)[a] else Health(true, 0, 0)
      ensures this.unhealthyAfter == unhealthyAfter && this.healthyAfter == healthyAfter
    {
      this.unhealthyAfter, this.healthyAfter := unhealthyAfter, healthyAfter;
      var kept: map<Str, Health> := map[];
      for i := 0 to |pool|
        invariant forall a :: a in kept <==> a in pool[..i]
        invariant forall a :: a in kept ==> kept[a] == if a in backends then backends[a] else FRESH
      {
        kept := kept[pool[i] := if pool[i] in backends then backends[pool[i]] else FRESH];
      }
      assert pool[..|pool|] == pool;
      backends := kept;
      ghost var event := Reloaded(unhealthyAfter, healthyAfter, pool);
      assert (history + [event])[..|history|] == history;
      history := history + [event];
    }

    /** Applies one outcome; an address that is not tracked is ignored. */
    method Record(addr: Str, succeeded: bool)
      requires Valid()
      modifies this
      ensures Valid() && history == old(history) + [Outcome(addr, succeeded)]
    {
      ghost var event := Outcome(addr, succeeded);
      assert (history + [event])[..|history|] == history;
      history := history + [event];
      if addr !in backends {
        return;
      }
      var backend := backends[addr];
      if succeeded {
        backend := backend.(failures := 0, successes := backend.successes + 1);
        if !backend.healthy && backend.successes >= healthyAfter {
          backend := backend.(healthy := true);
        }
      } else {
        backend := backend.(successes := 0, failures := backend.failures + 1);
        if backend.healthy && backend.failures >= unhealthyAfter {
          backend := backend.(healthy := false);
        }
      }
      backends := backends[addr := backend];
    }

    /**
     Whether traffic may go to an address. Under fixed thresholds it may not
     exactly when it is tracked and its own trace says it is out.
     */
    method IsHealthy(addr: Str) returns (healthy: bool)
      requires Valid()
      ensures healthy <==> Tracked(history, addr).None? || Tracked(history, addr).value.healthy
      ensures forall u: nat, h: nat :: u >= 1 && h >= 1 && FixedThresholds(history, u, h) ==>
                (healthy <==> TraceOf(history, addr).None? || !IsOut(TraceOf(history, addr).value, u, h))
    {
      healthy := addr !in backends || backends[addr].healthy;
      forall u: nat, h: nat | u >= 1 && h >= 1 && FixedThresholds(history, u, h)
        ensures healthy <==> TraceOf(history, addr).None? || !IsOut(TraceOf(history, addr).value, u, h)
      {
        TrackedByTrace(history, addr, u, h);
        if TraceOf(history, addr).Some? {
          OutByTrace(TraceOf(history, addr).value, u, h);
        }
      }
    }
  }
}
