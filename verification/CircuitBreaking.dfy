/**
 The circuit breaker: a failure count, a time and a probing mark per backend, and
 the trace of outcomes and grants they stand for. Times are in seconds.
 */
module CircuitBreaking {
  import opened Basics

  datatype Event =
    | Asked(addr: Str, now: real, granted: bool)
    | Succeeded(addr: Str)
    | Failed(addr: Str, now: real)
  {
    predicate IsGrantOf(a: Str) {
      Asked? && addr == a && granted
    }

    predicate IsOutcomeOf(a: Str) {
      !Asked? && addr == a
    }
  }

  // --------------------------------------------------- what the trace says

  /** The failures of a backend among events `from` up to `to`. */
  ghost function Failures(history: seq<Event>, addr: Str, from: nat, to: nat): nat
    requires to <= |history|
  {
    if to <= from then 0
    else
      Failures(history, addr, from, to - 1)
      + if history[to - 1].Failed? && history[to - 1].addr == addr then 1 else 0
  }

  /** Just after the last success of a backend among the first `n` events, or the beginning. */
  ghost function SinceSuccess(history: seq<Event>, addr: Str, n: nat): (from: nat)
    requires n <= |history|
    ensures from <= n
    ensures forall i :: from <= i < n && history[i].Succeeded? ==> history[i].addr != addr
    ensures from > 0 ==> history[from - 1] == Succeeded(addr)
  {
    if n == 0 then 0
    else if history[n - 1] == Succeeded(addr) then n
    else SinceSuccess(history, addr, n - 1)
  }

  /** The circuit is open when enough failures were recorded since the last success. */
  ghost predicate IsOpen(history: seq<Event>, addr: Str, n: nat, threshold: int)
    requires n <= |history|
  {
    FailuresNow(history, addr, n) >= threshold
  }

  /** Just after the last outcome of a backend among the first `n` events, or the beginning. */
  ghost function SinceOutcome(history: seq<Event>, addr: Str, n: nat): (from: nat)
    requires n <= |history|
    ensures from <= n
    ensures forall i :: from <= i < n ==> !history[i].IsOutcomeOf(addr)
    ensures from > 0 ==> history[from - 1].IsOutcomeOf(addr)
  {
    if n == 0 then 0
    else if history[n - 1].IsOutcomeOf(addr) then n
    else SinceOutcome(history, addr, n - 1)
  }

  /** A grant was made since the last outcome. */
  ghost predicate GrantOutstanding(history: seq<Event>, addr: Str, n: nat)
    requires n <= |history|
  {
    exists i :: SinceOutcome(history, addr, n) <= i < n && history[i].IsGrantOf(addr)
  }

  /**
   Whether a backend may receive a request: always while its circuit is closed;
   while it is open, once the open period since the last failure is over, unless
   a request granted since then has not reported its outcome yet.
   */
  ghost predicate MayReceive(history: seq<Event>, addr: Str, n: nat, now: real, threshold: int, openDuration: real)
    requires n <= |history|
  {
    IsOpen(history, addr, n, threshold) ==>
      var from := SinceOutcome(history, addr, n);
      && from > 0 && history[from - 1].Failed?
      && history[from - 1].now + openDuration <= now
      && !GrantOutstanding(history, addr, n)
  }

  /** The failures of a backend since its last success. */
  ghost function FailuresNow(history: seq<Event>, addr: Str, n: nat): nat
    requires n <= |history|
  {
    Failures(history, addr, SinceSuccess(history, addr, n), n)
  }

  /** A backend that has failed since its last success has failed last. */
  lemma {:induction false} LastOutcomeIsAFailure(history: seq<Event>, addr: Str, n: nat)
    requires n <= |history|
    ensures FailuresNow(history, addr, n) > 0 ==>
              SinceOutcome(history, addr, n) > 0 && history[SinceOutcome(history, addr, n) - 1].Failed?
  {
    if n > 0 {
      LastOutcomeIsAFailure(history, addr, n - 1);
    }
  }

  /** What was recorded up to `n` does not change as the history grows. */
  lemma {:induction false} SamePrefix(history: seq<Event>, longer: seq<Event>, addr: Str, n: nat)
    requires n <= |history| <= |longer| && history == longer[..|history|]
    ensures SinceSuccess(longer, addr, n) == SinceSuccess(history, addr, n)
    ensures SinceOutcome(longer, addr, n) == SinceOutcome(history, addr, n)
    ensures forall from: nat :: Failures(longer, addr, from, n) == Failures(history, addr, from, n)
  {
    if n > 0 {
      SamePrefix(history, longer, addr, n - 1);
      assert longer[n - 1] == history[n - 1];
    }
  }

  // -------------------------------------------------------------- the breaker

  datatype Circuit = Circuit(failures: nat, openedUntil: Option<real>, probing: bool)

  /** The circuit the trace calls for: none until there is a failure since the last success. */
  ghost function CircuitOf(history: seq<Event>, addr: Str, threshold: int, openDuration: real): Option<Circuit> {
    var n := |history|;
    var failures := FailuresNow(history, addr, n);
    if failures == 0 then None else
      LastOutcomeIsAFailure(history, addr, n);
      var open := failures >= threshold;
      Some(Circuit(
        failures,
        if open then Some(history[SinceOutcome(history, addr, n) - 1].now + openDuration) else None,
        open && GrantOutstanding(history, addr, n)))
  }

  /** What the rule says, in terms of the circuit that is tracked. */
  lemma CircuitDecides(history: seq<Event>, addr: Str, now: real, threshold: int, openDuration: real)
    requires threshold >= 1
    ensures var c := CircuitOf(history, addr, threshold, openDuration);
            MayReceive(history, addr, |history|, now, threshold, openDuration)
            <==> c.None? || c.value.openedUntil.None? || (c.value.openedUntil.value <= now && !c.value.probing)
  {
    LastOutcomeIsAFailure(history, addr, |history|);
  }

  /** How one event changes the circuit of each backend. */
  ghost function Changed(c: Option<Circuit>, event: Event, addr: Str, threshold: int,
                         openDuration: real): Option<Circuit> {
    if event.addr != addr then c else
      match event
      case Asked(_, _, granted) =>
        if granted && c.Some? && c.value.openedUntil.Some? then Some(c.value.(probing := true)) else c
      case Succeeded(_) => None
      case Failed(_, now) =>
        var failures := if c.Some? then c.value.failures + 1 else 1;
        Some(Circuit(failures, if failures >= threshold then Some(now + openDuration) else None, false))
  }

  lemma CircuitStep(history: seq<Event>, event: Event, addr: Str, threshold: int, openDuration: real)
    requires threshold >= 1
    ensures CircuitOf(history + [event], addr, threshold, openDuration)
         == Changed(CircuitOf(history, addr, threshold, openDuration), event, addr, threshold, openDuration)
  {
    OneMore(history, event, addr);
    GrantsGrow(history, event, addr);
    LastOutcomeIsAFailure(history, addr, |history|);
    var from := SinceOutcome(history, addr, |history|);
    assert from > 0 ==> (history + [event])[from - 1] == history[from - 1];
  }

  lemma OneMore(history: seq<Event>, event: Event, addr: Str)
    ensures FailuresNow(history + [event], addr, |history| + 1)
         == if event == Succeeded(addr) then 0
            else FailuresNow(history, addr, |history|) + if event.Failed? && event.addr == addr then 1 else 0
    ensures SinceOutcome(history + [event], addr, |history| + 1)
         == if event.IsOutcomeOf(addr) then |history| + 1 else SinceOutcome(history, addr, |history|)
  {
    SamePrefix(history, history + [event], addr, |history|);
    assert (history + [event])[|history|] == event;
  }

  lemma GrantsGrow(history: seq<Event>, event: Event, addr: Str)
    ensures GrantOutstanding(history + [event], addr, |history| + 1)
       <==> !event.IsOutcomeOf(addr)
            && (GrantOutstanding(history, addr, |history|) || event.IsGrantOf(addr))
  {
    var longer, n := history + [event], |history|;
    SamePrefix(history, longer, addr, n);
    assert longer[n] == event;
    if !event.IsOutcomeOf(addr) {
      if GrantOutstanding(history, addr, n) {
        var i :| SinceOutcome(history, addr, n) <= i < n && history[i].IsGrantOf(addr);
        assert longer[i] == history[i];
      }
      if GrantOutstanding(longer, addr, n + 1) {
        var i :| SinceOutcome(longer, addr, n + 1) <= i < n + 1 && longer[i].IsGrantOf(addr);
        assert i < n ==> longer[i] == history[i];
      }
    }
  }

  /** The tracked circuits are the ones the trace calls for. */
  ghost predicate Tracks(circuits: map<Str, Circuit>, history: seq<Event>, threshold: int, openDuration: real) {
    forall a :: TrackedOf(circuits, a) == CircuitOf(history, a, threshold, openDuration)
  }

  ghost function TrackedOf(circuits: map<Str, Circuit>, addr: Str): Option<Circuit> {
    if addr in circuits then Some(circuits[addr]) else None
  }

  lemma TracksOneMore(circuits: map<Str, Circuit>, history: seq<Event>, event: Event, after: map<Str, Circuit>,
                      threshold: int, openDuration: real)
    requires threshold >= 1 && Tracks(circuits, history, threshold, openDuration)
    requires forall a :: TrackedOf(after, a) == Changed(TrackedOf(circuits, a), event, a, threshold, openDuration)
    ensures Tracks(after, history + [event], threshold, openDuration)
  {
    forall a
      ensures TrackedOf(after, a) == CircuitOf(history + [event], a, threshold, openDuration)
    {
      CircuitStep(history, event, a, threshold, openDuration);
    }
  }

  /** Every question was answered by the rule. */
  ghost predicate Answered(history: seq<Event>, threshold: int, openDuration: real) {
    forall i :: 0 <= i < |history| && history[i].Asked? ==> AnsweredAt(history, i, threshold, openDuration)
  }

  ghost predicate AnsweredAt(history: seq<Event>, i: nat, threshold: int, openDuration: real)
    requires i < |history| && history[i].Asked?
  {
    history[i].granted <==> MayReceive(history, history[i].addr, i, history[i].now, threshold, openDuration)
  }

  /** The rule at one time looks at nothing recorded later. */
  lemma RuleOfPrefix(history: seq<Event>, longer: seq<Event>, addr: Str, n: nat, now: real, threshold: int,
                     openDuration: real)
    requires n <= |history| <= |longer| && history == longer[..|history|]
    ensures MayReceive(longer, addr, n, now, threshold, openDuration)
       <==> MayReceive(history, addr, n, now, threshold, openDuration)
  {
    SamePrefix(history, longer, addr, n);
    assert forall i :: 0 <= i < n ==> longer[i] == history[i];
  }

  lemma AnsweredSoFar(history: seq<Event>, event: Event, threshold: int, openDuration: real)
    requires Answered(history, threshold, openDuration)
    requires event.Asked? ==>
               (event.granted <==> MayReceive(history, event.addr, |history|, event.now, threshold, openDuration))
    ensures Answered(history + [event], threshold, openDuration)
  {
    var longer := history + [event];
    forall i | 0 <= i < |longer| && longer[i].Asked?
      ensures AnsweredAt(longer, i, threshold, openDuration)
    {
      RuleOfPrefix(history, longer, longer[i].addr, i, longer[i].now, threshold, openDuration);
      assert i < |history| ==> AnsweredAt(history, i, threshold, openDuration);
    }
  }

  class Breaker {
    const enabled: bool
    const threshold: int
    const openDuration: real
    var circuits: map<Str, Circuit>
    ghost var history: seq<Event>

    /** The tracked circuits are the ones the trace calls for, and every question was answered by the rule. */
    ghost predicate Valid()
      reads this
    {
      enabled ==>
        && threshold >= 1
        && Tracks(circuits, history, threshold, openDuration)
        && Answered(history, threshold, openDuration)
    }

    constructor (enabled: bool, threshold: int, openDuration: real)
      requires enabled ==> threshold >= 1
      ensures Valid() && history == []
      ensures this.enabled == enabled && this.threshold == threshold && this.openDuration == openDuration
    {
      this.enabled, this.threshold, this.openDuration := enabled, threshold, openDuration;
      circuits := map[];
      history := [];
    }

    method Allow(addr: Str, now: real) returns (granted: bool)
      requires Valid()
      modifies this
      ensures Valid()
      ensures !enabled ==> granted && history == old(history)
      ensures enabled ==> history == old(history) + [Asked(addr, now, granted)]
      ensures enabled ==> (granted <==> MayReceive(old(history), addr, |old(history)|, now, threshold, openDuration))
    {
      if !enabled {
        return true;
      }
      ghost var before := circuits;
      CircuitDecides(history, addr, now, threshold, openDuration);
      assert TrackedOf(circuits, addr) == CircuitOf(history, addr, threshold, openDuration);
      if addr !in circuits || circuits[addr].openedUntil.None? {
        granted := true;
      } else if now < circuits[addr].openedUntil.value {
        granted := false;
      } else if circuits[addr].probing {
        granted := false;
      } else {
        circuits := circuits[addr := circuits[addr].(probing := true)];
        granted := true;
      }
      hide Tracks, CircuitOf, MayReceive, Answered;
      TracksOneMore(before, history, Asked(addr, now, granted), circuits, threshold, openDuration);
      AnsweredSoFar(history, Asked(addr, now, granted), threshold, openDuration);
      history := history + [Asked(addr, now, granted)];
    }

    method RecordSuccess(addr: Str)
      requires Valid()
      modifies this
      ensures Valid()
      ensures history == old(history) + if enabled then [Succeeded(addr)] else []
    {
      if !enabled {
        return;
      }
      hide Tracks, CircuitOf, MayReceive, Answered;
      TracksOneMore(circuits, history, Succeeded(addr), circuits - {addr}, threshold, openDuration);
      AnsweredSoFar(history, Succeeded(addr), threshold, openDuration);
      history := history + [Succeeded(addr)];
      if addr !in circuits {
        assert circuits - {addr} == circuits;
        return;
      }
      circuits := circuits - {addr};
    }

    method RecordFailure(addr: Str, now: real)
      requires Valid()
      modifies this
      ensures Valid()
      ensures history == old(history) + if enabled then [Failed(addr, now)] else []
    {
      if !enabled {
        return;
      }
      var tracked := if addr in circuits then circuits[addr] else Circuit(0, None, false);
      tracked := tracked.(probing := false, failures := tracked.failures + 1);
      if tracked.failures >= threshold {
        tracked := tracked.(openedUntil := Some(now + openDuration));
      }
      assert TrackedOf(circuits, addr) == CircuitOf(history, addr, threshold, openDuration);
      assert Some(tracked) == Changed(TrackedOf(circuits, addr), Failed(addr, now), addr, threshold, openDuration);
      hide Tracks, CircuitOf, MayReceive, Answered;
      TracksOneMore(circuits, history, Failed(addr, now), circuits[addr := tracked], threshold, openDuration);
      AnsweredSoFar(history, Failed(addr, now), threshold, openDuration);
      circuits := circuits[addr := tracked];
      history := history + [Failed(addr, now)];
    }
  }

  /** What is recorded about other backends has no say in whether one may receive a request. */
  lemma {:induction false} OthersHaveNoSay(history: seq<Event>, more: seq<Event>, addr: Str, now: real,
                                           threshold: int, openDuration: real)
    requires forall i :: 0 <= i < |more| ==> more[i].addr != addr
    ensures MayReceive(history + more, addr, |history + more|, now, threshold, openDuration)
       <==> MayReceive(history, addr, |history|, now, threshold, openDuration)
  {
    if more == [] {
      assert history + more == history;
    } else {
      var most, last := more[..|more| - 1], more[|more| - 1];
      assert history + more == (history + most) + [last];
      OthersHaveNoSay(history, most, addr, now, threshold, openDuration);
      OneOtherHasNoSay(history + most, last, addr, now, threshold, openDuration);
    }
  }

  lemma OneOtherHasNoSay(history: seq<Event>, event: Event, addr: Str, now: real, threshold: int, openDuration: real)
    requires event.addr != addr
    ensures MayReceive(history + [event], addr, |history| + 1, now, threshold, openDuration)
       <==> MayReceive(history, addr, |history|, now, threshold, openDuration)
  {
    var longer, n := history + [event], |history|;
    OneMore(history, event, addr);
    GrantsGrow(history, event, addr);
    var from := SinceOutcome(history, addr, n);
    assert from > 0 ==> longer[from - 1] == history[from - 1];
  }

  // --------------------------------------------------- what callers rely on

  /** The circuit is open exactly when some stretch up to now holds enough failures and no success. */
  lemma OpenIffEnoughFailures(history: seq<Event>, addr: Str, n: nat, threshold: int)
    requires n <= |history| && threshold >= 1
    ensures IsOpen(history, addr, n, threshold) <==>
            exists from: nat :: from <= n && Failures(history, addr, from, n) >= threshold
                                && forall i :: from <= i < n ==> history[i] != Succeeded(addr)
  {
    var since := SinceSuccess(history, addr, n);
    if from: nat :|
      && from <= n && Failures(history, addr, from, n) >= threshold
      && forall i :: from <= i < n ==> history[i] != Succeeded(addr)
    {
      assert since > 0 ==> history[since - 1] == Succeeded(addr);
      MoreFromEarlier(history, addr, since, from, n);
    }
  }

  lemma {:induction false} MoreFromEarlier(history: seq<Event>, addr: Str, early: nat, late: nat, n: nat)
    requires early <= late && n <= |history|
    ensures Failures(history, addr, early, n) >= Failures(history, addr, late, n)
  {
    if n > late {
      MoreFromEarlier(history, addr, early, late, n - 1);
    }
  }

  /** Between two points without a success, a circuit that was open stays open. */
  lemma {:induction false} StaysOpen(history: seq<Event>, addr: Str, i: nat, j: nat, threshold: int)
    requires i <= j <= |history| && IsOpen(history, addr, i, threshold)
    requires forall k :: i <= k < j ==> history[k] != Succeeded(addr)
    ensures IsOpen(history, addr, j, threshold)
  {
    if i < j {
      StaysOpen(history, addr, i, j - 1, threshold);
    }
  }

  /** No failure was recorded at an earlier time than one before it. */
  ghost predicate InOrder(history: seq<Event>) {
    forall i, j :: 0 <= i < j < |history| && history[i].Failed? && history[j].Failed? ==>
      history[i].now <= history[j].now
  }

  /**
   After a failure that leaves the circuit open, a breaker refused every question
   before the open period was over, unless a success came first.
   */
  lemma RefusesWhileOpen(b: Breaker, addr: Str, i: nat, j: nat)
    requires b.enabled && b.Valid() && InOrder(b.history) && i < j < |b.history|
    requires b.history[i].Failed? && b.history[i].addr == addr && IsOpen(b.history, addr, i + 1, b.threshold)
    requires b.history[j].Asked? && b.history[j].addr == addr && b.history[j].now < b.history[i].now + b.openDuration
    requires forall k :: i < k < j ==> b.history[k] != Succeeded(addr)
    ensures !b.history[j].granted
  {
    StaysOpen(b.history, addr, i + 1, j, b.threshold);
    assert AnsweredAt(b.history, j, b.threshold, b.openDuration);
    var from := SinceOutcome(b.history, addr, j);
    assert b.history[i].IsOutcomeOf(addr);
    assert i < from - 1 && b.history[from - 1].Failed? ==> b.history[i].now <= b.history[from - 1].now;
  }

  /** The failures of a backend recorded among events `from` up to `to`. */
  ghost function FailuresAmong(history: seq<Event>, addr: Str, from: nat, to: nat): set<nat>
    requires to <= |history|
  {
    set i: nat | from <= i < to && history[i].Failed? && history[i].addr == addr
  }

  lemma {:induction false} FailuresAreCounted(history: seq<Event>, addr: Str, from: nat, to: nat)
    requires to <= |history|
    ensures Failures(history, addr, from, to) == |FailuresAmong(history, addr, from, to)|
  {
    if to <= from {
      NoneAmong(history, addr, from, to);
    } else {
      FailuresAreCounted(history, addr, from, to - 1);
      OneMoreAmong(history, addr, from, to);
    }
  }

  lemma NoneAmong(history: seq<Event>, addr: Str, from: nat, to: nat)
    requires to <= |history| && to <= from
    ensures FailuresAmong(history, addr, from, to) == {}
  {
  }

  lemma OneMoreAmong(history: seq<Event>, addr: Str, from: nat, to: nat)
    requires from < to <= |history|
    ensures to - 1 !in FailuresAmong(history, addr, from, to - 1)
    ensures FailuresAmong(history, addr, from, to)
         == FailuresAmong(history, addr, from, to - 1)
            + if history[to - 1].Failed? && history[to - 1].addr == addr then {to - 1} else {}
  {
  }

  /** As many failures as the threshold from `from` up to event `n`, with no success among them. */
  ghost predicate Tripped(history: seq<Event>, addr: Str, from: nat, n: nat, threshold: int)
    requires n <= |history|
  {
    && from <= n && |FailuresAmong(history, addr, from, n)| >= threshold
    && forall i :: from <= i < n ==> history[i] != Succeeded(addr)
  }

  /**
   Event `i` is a failure whose open period is over at `now`, and since which nothing
   up to event `n` concerned the backend but questions that were refused.
   */
  ghost predicate TimeIsUp(history: seq<Event>, addr: Str, i: nat, n: nat, now: real, openDuration: real)
    requires n <= |history|
  {
    && i < n && history[i].Failed? && history[i].addr == addr && history[i].now + openDuration <= now
    && forall k :: i < k < n ==> history[k].addr != addr || (history[k].Asked? && !history[k].granted)
  }

  /**
   A breaker granted a question exactly when no success-free stretch up to then held
   enough failures, or when the open period since the backend's last outcome, a
   failure, was over and no question since had been granted.
   */
  lemma GrantedExactly(b: Breaker, j: nat)
    requires b.enabled && b.Valid() && j < |b.history| && b.history[j].Asked?
    ensures b.history[j].granted
       <==> || (forall from: nat :: !Tripped(b.history, b.history[j].addr, from, j, b.threshold))
            || exists i: nat :: TimeIsUp(b.history, b.history[j].addr, i, j, b.history[j].now, b.openDuration)
  {
    var h, addr, now := b.history, b.history[j].addr, b.history[j].now;
    assert AnsweredAt(h, j, b.threshold, b.openDuration);
    OpenWhenTripped(h, addr, j, b.threshold);
    MayReceiveInTime(h, addr, j, now, b.threshold, b.openDuration);
  }

  lemma OpenWhenTripped(history: seq<Event>, addr: Str, n: nat, threshold: int)
    requires n <= |history| && threshold >= 1
    ensures IsOpen(history, addr, n, threshold) <==> exists from: nat :: Tripped(history, addr, from, n, threshold)
  {
    hide FailuresAmong, IsOpen, Failures;
    OpenIffEnoughFailures(history, addr, n, threshold);
    if from: nat :| Tripped(history, addr, from, n, threshold) {
      FailuresAreCounted(history, addr, from, n);
    }
    if from: nat :|
      && from <= n && Failures(history, addr, from, n) >= threshold
      && forall i :: from <= i < n ==> history[i] != Succeeded(addr)
    {
      FailuresAreCounted(history, addr, from, n);
      assert Tripped(history, addr, from, n, threshold);
    }
  }

  lemma MayReceiveInTime(history: seq<Event>, addr: Str, n: nat, now: real, threshold: int, openDuration: real)
    requires n <= |history| && threshold >= 1
    ensures MayReceive(history, addr, n, now, threshold, openDuration)
       <==> !IsOpen(history, addr, n, threshold)
            || exists i: nat :: TimeIsUp(history, addr, i, n, now, openDuration)
  {
    hide IsOpen;
    var from := SinceOutcome(history, addr, n);
    if i: nat :| TimeIsUp(history, addr, i, n, now, openDuration) {
      assert i + 1 == from;
    }
    if from > 0 && history[from - 1].Failed? && history[from - 1].now + openDuration <= now
       && !GrantOutstanding(history, addr, n) {
      assert TimeIsUp(history, addr, from - 1, n, now, openDuration);
    }
  }

  /** Between two questions a breaker granted about an open circuit, one of its outcomes was recorded. */
  lemma OneProbeAtATime(b: Breaker, addr: Str, i: nat, j: nat)
    requires b.enabled && b.Valid() && i < j < |b.history|
    requires b.history[i].IsGrantOf(addr)
    requires b.history[j].IsGrantOf(addr)
    requires IsOpen(b.history, addr, j, b.threshold)
    ensures exists k :: i < k < j && b.history[k].IsOutcomeOf(addr)
  {
    assert AnsweredAt(b.history, j, b.threshold, b.openDuration);
    var from := SinceOutcome(b.history, addr, j);
    assert i < from;
    assert b.history[from - 1].IsOutcomeOf(addr);
  }

  /**
   A grant to an open circuit that never reports an outcome shuts the backend out
   for good: no later question is granted, however late it is asked.
   */
  lemma AbandonedProbeShutsOut(history: seq<Event>, addr: Str, i: nat, n: nat, now: real, threshold: int,
                               openDuration: real)
    requires i < n <= |history| && threshold >= 1
    requires history[i].IsGrantOf(addr) && IsOpen(history, addr, i, threshold)
    requires forall k :: i < k < n ==> !history[k].IsOutcomeOf(addr)
    ensures !MayReceive(history, addr, n, now, threshold, openDuration)
  {
    StaysOpen(history, addr, i, n, threshold);
    var from := SinceOutcome(history, addr, n);
    assert from > 0 ==> history[from - 1].IsOutcomeOf(addr);
  }

  /**
   A backend will be let through again, if it is asked about late enough and nothing
   else is recorded, exactly when its circuit is closed or no grant is outstanding.
   */
  lemma LetThroughSomeDay(history: seq<Event>, addr: Str, n: nat, threshold: int, openDuration: real)
    requires threshold >= 1 && n <= |history|
    ensures (exists later: real :: MayReceive(history, addr, n, later, threshold, openDuration))
       <==> !(IsOpen(history, addr, n, threshold) && GrantOutstanding(history, addr, n))
  {
    LastOutcomeIsAFailure(history, addr, n);
    var from := SinceOutcome(history, addr, n);
    var late := if from > 0 && history[from - 1].Failed? then history[from - 1].now + openDuration else 0.0;
    if !(IsOpen(history, addr, n, threshold) && GrantOutstanding(history, addr, n)) {
      assert MayReceive(history, addr, n, late, threshold, openDuration);
    }
  }

  /**
   While a grant is outstanding on an open circuit, one more event leaves both as they
   are exactly when it is not an outcome of that backend.
   */
  lemma OutstandingUntilAnOutcome(history: seq<Event>, event: Event, addr: Str, threshold: int)
    requires threshold >= 1 && IsOpen(history, addr, |history|, threshold) && GrantOutstanding(history, addr, |history|)
    ensures IsOpen(history + [event], addr, |history| + 1, threshold)
            && GrantOutstanding(history + [event], addr, |history| + 1)
       <==> !event.IsOutcomeOf(addr)
  {
    OneMore(history, event, addr);
    GrantsGrow(history, event, addr);
  }

  /** Questions count for nothing, an attempt's failure for one, and its success takes back all that went before. */
  lemma {:induction false} AfterAnAttempt(history: seq<Event>, questions: seq<Event>, outcome: Event, addr: Str)
    requires (forall q :: q in questions ==> q.Asked?) && outcome.IsOutcomeOf(addr)
    ensures var longer := history + questions + [outcome];
            && FailuresNow(longer, addr, |longer|)
               == (if outcome.Succeeded? then 0 else FailuresNow(history, addr, |history|) + 1)
            && SinceOutcome(longer, addr, |longer|) == |longer|
  {
    QuestionsCountNothing(history, questions, addr);
    OneMore(history + questions, outcome, addr);
  }

  lemma {:induction false} QuestionsCountNothing(history: seq<Event>, questions: seq<Event>, addr: Str)
    requires forall q :: q in questions ==> q.Asked?
    ensures FailuresNow(history + questions, addr, |history + questions|) == FailuresNow(history, addr, |history|)
  {
    if questions == [] {
      assert history + questions == history;
    } else {
      var most, last := questions[..|questions| - 1], questions[|questions| - 1];
      assert history + questions == (history + most) + [last];
      QuestionsCountNothing(history, most, addr);
      OneMore(history + most, last, addr);
    }
  }

  /** One granted question among others spends the probe of an open circuit. */
  lemma QuestionSpendsTheProbe(history: seq<Event>, questions: seq<Event>, addr: Str, i: nat, later: real,
                               threshold: int, openDuration: real)
    requires threshold >= 1 && IsOpen(history, addr, |history|, threshold)
    requires forall q :: q in questions ==> q.Asked?
    requires i < |questions| && questions[i].addr == addr && questions[i].granted
    ensures !MayReceive(history + questions, addr, |history + questions|, later, threshold, openDuration)
    ensures var (asked, n) := (history + questions, |history + questions|);
            IsOpen(asked, addr, n, threshold) && GrantOutstanding(asked, addr, n)
  {
    var asked, n := history + questions, |history|;
    forall e | n <= e < |asked|
      ensures asked[e].Asked?
    {
      assert questions[e - n] in questions;
    }
    SamePrefix(history, asked, addr, n);
    StaysOpen(asked, addr, n, n + i, threshold);
    AbandonedProbeShutsOut(asked, addr, n + i, |asked|, later, threshold, openDuration);
  }
}
