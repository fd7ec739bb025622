/**
 The balancer as a transition system: any number of requests, each at its own
 point of the retry loop, and reloads, interleaved one atomic step at a time.
 */
module Interleaving {
  import opened Basics
  import opened RetryPolicy
  import opened RetryBudgets

  /** A backend object: a reload keeps it when its address survives. */
  datatype Object = Object(addr: Str, active: int)

  /** One configuration as requests see it, with the two counters of its retry budget. */
  datatype Snapshot = Snapshot(pool: seq<nat>, attempts: nat, percent: real, minimum: int, requests: int, retries: int)

  /** Where a request is in the retry loop. */
  datatype Point =
    | Arrived                  // about to read the current snapshot
    | Loaded                   // about to be counted into its budget's load
    | Choosing                 // at the head of the loop
    | Reserving                // a retry: about to add to the retries in flight
    | Weighing                 // added; about to read the load and compare
    | Refused                  // over the limit; about to take the addition back
    | Starting                 // about to acquire the backend it chose
    | Forwarding               // the backend has it
    | Releasing                // the attempt is over; about to release the backend
    | Returning                // about to give its retry back
    | Judging                  // about to decide what follows
    | Leaving(verdict: Verdict) // about to be counted out of the load
    | Done(verdict: Verdict)

  /**
   A request. `ticket` is what its addition to the retries in flight returned,
   while that addition stands; `granted` the load it was let through at, while it
   holds the retry; `holding` the backend it has acquired.
   */
  datatype Request = Request(
    idempotent: bool, snapshot: nat, point: Point, counted: bool,
    ticket: Option<int>, granted: Option<int>, holding: Option<nat>,
    tried: seq<nat>, outcomes: seq<Outcome>)

  datatype System = System(objects: seq<Object>, snapshots: seq<Snapshot>, requests: seq<Request>)

  // ------------------------------------------------------------ the steps

  datatype Action =
    | Arrive(idempotent: bool)
    | Load | Count | Choose(backend: nat) | GiveUp
    | Reserve | Weigh | TakeBack
    | Acquire | Attempt(outcome: Outcome) | Release | ReturnRetry | Judge | Leave
    | Reload(addrs: seq<Str>, attempts: nat, percent: real, minimum: int)

  /** What a step changes: the request itself, its budget's counters and one backend's. */
  datatype Effect = Effect(request: Request, requests: int, retries: int, backend: nat, active: int)

  function Only(q: Request): Effect {
    Effect(q, 0, 0, 0, 0)
  }

  /** Whether a request at this point may take this step, given the snapshot it works from. */
  predicate Enabled(q: Request, a: Action, snap: Snapshot) {
    match a
    case Load => q.point.Arrived?
    case Count => q.point.Loaded?
    case Choose(b) => q.point.Choosing? && |q.outcomes| < snap.attempts && b in snap.pool && b !in q.tried
    case GiveUp => q.point.Choosing? && (|q.outcomes| >= snap.attempts || forall b :: b in snap.pool ==> b in q.tried)
    case Reserve => q.point.Reserving?
    case Weigh => q.point.Weighing?
    case TakeBack => q.point.Refused?
    case Acquire => q.point.Starting?
    case Attempt(_) => q.point.Forwarding?
    case Release => q.point.Releasing?
    case ReturnRetry => q.point.Returning?
    case Judge => q.point.Judging?
    case Leave => q.point.Leaving?
    case _ => false
  }

  /** The step of a request, reading the current snapshot's index only to load it. */
  function Step(q: Request, a: Action, snap: Snapshot, current: nat): Effect
    requires Enabled(q, a, snap) && Sane(q)
  {
    match a
    case Load => Only(q.(snapshot := current, point := Loaded))
    case Count => Effect(q.(point := Choosing, counted := true), 1, 0, 0, 0)
    case Choose(b) => Only(q.(tried := q.tried + [b], point := if q.outcomes == [] then Starting else Reserving))
    case GiveUp => Only(q.(point := Leaving(NoBackend)))
    case Reserve => Effect(q.(ticket := Some(snap.retries + 1), point := Weighing), 0, 1, 0, 0)
    case Weigh =>
      if q.ticket.value > LimitAt(snap.percent, snap.minimum, snap.requests) then Only(q.(point := Refused))
      else Only(q.(granted := Some(snap.requests), point := Starting))
    case TakeBack => Effect(q.(ticket := None, point := Leaving(BudgetExhausted)), 0, -1, 0, 0)
    case Acquire =>
      var b := q.tried[|q.tried| - 1];
      Effect(q.(holding := Some(b), point := Forwarding), 0, 0, b, 1)
    case Attempt(o) => Only(q.(outcomes := q.outcomes + [o], point := Releasing))
    case Release =>
      var next := if q.ticket.Some? then Returning else Judging;
      Effect(q.(holding := None, point := next), 0, 0, q.holding.value, -1)
    case ReturnRetry => Effect(q.(ticket := None, granted := None, point := Judging), 0, -1, 0, 0)
    case Judge =>
      var next := AfterAttempt(q.idempotent, |q.outcomes| - 1, snap.attempts, q.outcomes[|q.outcomes| - 1]);
      Only(q.(point := if next.Some? then Leaving(next.value) else Choosing))
    case Leave => Effect(q.(counted := false, point := Done(q.point.verdict)), -1, 0, 0, 0)
  }

  /** What a request holds at each point: enough to take its next step. */
  predicate Sane(q: Request) {
    && (q.counted <==> !(q.point.Arrived? || q.point.Loaded? || q.point.Done?))
    && (q.holding.Some? <==> q.point.Forwarding? || q.point.Releasing?)
    && (q.holding.Some? ==> q.tried != [] && q.holding.value == q.tried[|q.tried| - 1])
    && (match q.point
        case Arrived => q.tried == [] && q.outcomes == []
        case Loaded => q.tried == [] && q.outcomes == []
        case Choosing => |q.tried| == |q.outcomes|
        case Reserving => |q.tried| == |q.outcomes| + 1 > 1
        case Weighing => |q.tried| == |q.outcomes| + 1 > 1
        case Refused => |q.tried| == |q.outcomes| + 1 > 1
        case Starting => |q.tried| == |q.outcomes| + 1
        case Forwarding => |q.tried| == |q.outcomes| + 1
        case Leaving(_) => |q.tried| >= |q.outcomes|
        case Done(_) => |q.tried| >= |q.outcomes|
        case _ => |q.tried| == |q.outcomes|)
    && (q.point.Releasing? || q.point.Returning? || q.point.Judging? ==> q.outcomes != [])
    && (q.granted.Some? ==> q.ticket.Some?)
    && (match q.point
        case Weighing => q.ticket.Some? && q.granted.None?
        case Refused => q.ticket.Some? && q.granted.None?
        case Starting => q.ticket.Some? == q.granted.Some? == (|q.outcomes| > 0)
        case Forwarding => q.ticket.Some? == q.granted.Some? == (|q.outcomes| > 0)
        case Releasing => q.ticket.Some? == q.granted.Some?
        case Returning => q.ticket.Some? && q.granted.Some?
        case _ => q.ticket.None?)
  }

  function Taken(s: System, i: nat, e: Effect): System
    requires i < |s.requests| && e.request.snapshot < |s.snapshots| && (e.active != 0 ==> e.backend < |s.objects|)
  {
    var k := e.request.snapshot;
    var snap := s.snapshots[k];
    System(
      if e.active == 0 then s.objects
      else s.objects[e.backend := s.objects[e.backend].(active := s.objects[e.backend].active + e.active)],
      s.snapshots[k := snap.(requests := snap.requests + e.requests, retries := snap.retries + e.retries)],
      s.requests[i := e.request])
  }

  /** The pool of a new configuration: an address in the current pool keeps its object, any other gets a new one. */
  function Merged(objects: seq<Object>, existing: seq<nat>, addrs: seq<Str>): (r: (seq<nat>, seq<Object>))
    requires forall i :: 0 <= i < |existing| ==> existing[i] < |objects|
    ensures |r.0| == |addrs| && |objects| <= |r.1| && r.1[..|objects|] == objects
    ensures forall i :: 0 <= i < |addrs| ==> r.0[i] < |r.1| && r.1[r.0[i]].addr == addrs[i]
    ensures forall b :: |objects| <= b < |r.1| ==> r.1[b].active == 0
    ensures forall i, j :: 0 <= i < |addrs| && 0 <= j < |existing| && objects[existing[j]].addr == addrs[i] ==>
              r.0[i] in existing
  {
    if addrs == [] then ([], objects) else
      var (pool, grown) := Merged(objects, existing, addrs[..|addrs| - 1]);
      var addr := addrs[|addrs| - 1];
      var kept := Find(grown, existing, addr, |existing|);
      if kept.Some? then (pool + [kept.value], grown)
      else (pool + [|grown|], grown + [Object(addr, 0)])
  }

  /** The backend with this address among the first `n` of a pool. */
  function Find(objects: seq<Object>, pool: seq<nat>, addr: Str, n: nat): (b: Option<nat>)
    requires n <= |pool| && forall i :: 0 <= i < |pool| ==> pool[i] < |objects|
    ensures b.Some? ==> b.value in pool && objects[b.value].addr == addr
    ensures b.None? ==> forall i :: 0 <= i < n ==> objects[pool[i]].addr != addr
  {
    if n == 0 then None
    else if objects[pool[n - 1]].addr == addr then Some(pool[n - 1])
    else Find(objects, pool, addr, n - 1)
  }

  function Current(s: System): (k: nat)
    requires s.snapshots != []
    ensures k < |s.snapshots|
  {
    |s.snapshots| - 1
  }

  /** Configuration validation: different addresses, at least one attempt, a share in (0, 100], a positive minimum. */
  ghost predicate ValidReload(a: Action)
    requires a.Reload?
  {
    Distinct(a.addrs) && a.attempts >= 1 && 0.0 < a.percent <= 100.0 && a.minimum >= 1
  }

  /** One atomic step of the system: a request arrives, a reload is applied, or a request moves. */
  ghost predicate Next(s: System, t: System) {
    && WellFormed(s)
    && (|| (exists idempotent :: t == WithArrival(s, idempotent))
        || (exists a: Action :: a.Reload? && ValidReload(a) && t == Reloaded(s, a))
        || (exists i: nat, a: Action :: i < |s.requests| && Moves(s, i, a, t)))
  }

  /**
   Enough for every part of the state to refer to something; every state of a run is
   well formed (`CountersAreAlwaysExact`).
   */
  ghost predicate WellFormed(s: System) {
    && s.snapshots != []
    && (forall k :: 0 <= k < |s.snapshots| ==> PoolInRange(s, s.snapshots[k]))
    && (forall i :: 0 <= i < |s.requests| ==> s.requests[i].snapshot < |s.snapshots| && Sane(s.requests[i]))
  }

  ghost predicate PoolInRange(s: System, snap: Snapshot) {
    forall i :: 0 <= i < |snap.pool| ==> snap.pool[i] < |s.objects|
  }

  function WithArrival(s: System, idempotent: bool): System {
    s.(requests := s.requests + [NewRequest(idempotent)])
  }

  /** A balancer that has just started on a first configuration. */
  ghost predicate Initial(s: System) {
    exists a: Action :: a.Reload? && ValidReload(a) && s == Started(a)
  }

  function Started(a: Action): System
    requires a.Reload?
  {
    var (pool, objects) := Merged([], [], a.addrs);
    System(objects, [Snapshot(pool, a.attempts, a.percent, a.minimum, 0, 0)], [])
  }

  function NewRequest(idempotent: bool): Request {
    Request(idempotent, 0, Arrived, false, None, None, None, [], [])
  }

  ghost function Reloaded(s: System, a: Action): System
    requires WellFormed(s) && a.Reload?
  {
    assert PoolInRange(s, s.snapshots[Current(s)]);
    var (pool, objects) := Merged(s.objects, s.snapshots[Current(s)].pool, a.addrs);
    System(objects, s.snapshots + [Snapshot(pool, a.attempts, a.percent, a.minimum, 0, 0)], s.requests)
  }

  ghost predicate Moves(s: System, i: nat, a: Action, t: System)
    requires WellFormed(s) && i < |s.requests|
  {
    var q := s.requests[i];
    var snap := s.snapshots[q.snapshot];
    && Enabled(q, a, snap)
    && (var e := Step(q, a, snap, Current(s));
        (e.active != 0 ==> e.backend < |s.objects|) && t == Taken(s, i, e))
  }

  // ------------------------------------------------ the invariant of each part

  /** The attempts a request has made so far were all failures that may be retried. */
  ghost predicate GoingOn(q: Request, snap: Snapshot) {
    && AllFailed(q.outcomes)
    && (|q.outcomes| < snap.attempts ==> forall i :: 0 <= i < |q.outcomes| ==> Retryable(q.idempotent, q.outcomes[i]))
  }

  /** Everything one request relies on. */
  ghost predicate Sound(q: Request, snap: Snapshot) {
    && Sane(q) && Offered(snap.pool, snap.attempts, q.idempotent, q.tried, q.outcomes)
    && (q.granted.Some? ==>
          q.granted.value >= 0 && q.ticket.value <= LimitAt(snap.percent, snap.minimum, q.granted.value))
    && (match q.point
        case Leaving(v) => Ended(snap.pool, snap.attempts, q.idempotent, q.tried[..|q.outcomes|], q.outcomes, v)
        case Done(v) => Ended(snap.pool, snap.attempts, q.idempotent, q.tried[..|q.outcomes|], q.outcomes, v)
        case Releasing => AllFailed(q.outcomes[..|q.outcomes| - 1])
        case Returning => AllFailed(q.outcomes[..|q.outcomes| - 1])
        case Judging => AllFailed(q.outcomes[..|q.outcomes| - 1])
        case _ => GoingOn(q, snap))
  }

  ghost predicate SoundSnapshot(s: System, snap: Snapshot) {
    && PoolInRange(s, snap)
    && (forall i, j :: 0 <= i < j < |snap.pool| ==> s.objects[snap.pool[i]].addr != s.objects[snap.pool[j]].addr)
    && snap.attempts >= 1 && 0.0 < snap.percent && snap.minimum >= 1
  }

  ghost predicate Consistent(s: System) {
    && s.snapshots != []
    && (forall k :: 0 <= k < |s.snapshots| ==> SoundSnapshot(s, s.snapshots[k]))
    && (forall i :: 0 <= i < |s.requests| ==> s.requests[i].snapshot < |s.snapshots|
                                              && Sound(s.requests[i], s.snapshots[s.requests[i].snapshot]))
  }

  /** One step of a request keeps what it relies on. */
  lemma StepKeepsSound(q: Request, a: Action, snap: Snapshot, current: nat, afterwards: Snapshot)
    requires Enabled(q, a, snap) && Sane(q) && Sound(q, snap) && Distinct(snap.pool) && snap.attempts >= 1
    requires a.Weigh? ==> snap.requests >= 0
    requires !a.Load? ==> afterwards == snap
    ensures Sound(Step(q, a, snap, current).request, afterwards)
  {
    match a
    case Load =>
    case Count =>
    case Choose(b) => Chooses(q, b, snap);
    case GiveUp => GivesUp(q, snap);
    case Reserve =>
    case Weigh =>
    case TakeBack => TakesBack(q, snap);
    case Acquire =>
    case Attempt(o) => Attempts(q, o, snap);
    case Release =>
    case ReturnRetry =>
    case Judge => Judges(q, snap);
    case Leave =>
  }

  lemma Chooses(q: Request, b: nat, snap: Snapshot)
    requires Sound(q, snap) && Enabled(q, Choose(b), snap)
    ensures Sound(Step(q, Choose(b), snap, 0).request, snap)
  {
  }

  lemma Attempts(q: Request, o: Outcome, snap: Snapshot)
    requires Sound(q, snap) && q.point.Forwarding?
    ensures Sound(Step(q, Attempt(o), snap, 0).request, snap)
  {
    assert (q.outcomes + [o])[..|q.outcomes|] == q.outcomes;
  }

  lemma GivesUp(q: Request, snap: Snapshot)
    requires Sound(q, snap) && Distinct(snap.pool) && snap.attempts >= 1 && Enabled(q, GiveUp, snap)
    ensures Ended(snap.pool, snap.attempts, q.idempotent, q.tried, q.outcomes, NoBackend)
    ensures q.tried[..|q.outcomes|] == q.tried
  {
    DistinctFitsIn(q.tried, snap.pool);
    if |q.outcomes| < snap.attempts {
      DistinctFitsIn(snap.pool, q.tried);
    }
  }

  lemma TakesBack(q: Request, snap: Snapshot)
    requires Sound(q, snap) && Distinct(snap.pool) && q.point.Refused?
    ensures Ended(snap.pool, snap.attempts, q.idempotent, q.tried[..|q.outcomes|], q.outcomes, BudgetExhausted)
  {
    DistinctFitsIn(q.tried, snap.pool);
    var offered := q.tried[..|q.outcomes|];
    assert forall b :: b in offered ==> b in q.tried;
  }

  lemma Judges(q: Request, snap: Snapshot)
    requires Sound(q, snap) && q.point.Judging? && snap.attempts >= 1
    ensures Sound(Step(q, Judge, snap, 0).request, snap)
  {
    var n := |q.outcomes|;
    assert q.tried[..n] == q.tried;
    assert forall i :: 0 <= i < n - 1 ==> q.outcomes[..n - 1][i] == q.outcomes[i];
  }

  // --------------------------------------------------------------- counting

  /** What can be counted over the requests. */
  datatype Gauge =
    | Serving(object: nat)                  // requests that hold a backend
    | Counted(snapshot: nat)                // requests in a budget's load
    | Reserved(snapshot: nat)               // additions to its retries in flight that stand
    | TicketUpTo(snapshot: nat, top: int)   // those whose ticket is at most `top`
    | Granted(snapshot: nat)                // retries it let through that are still held
    | InTransit(snapshot: nat)              // additions not let through, or not yet

  function Reading(q: Request, g: Gauge): (r: nat)
    ensures r <= 1
  {
    match g
    case Serving(o) => if q.holding == Some(o) then 1 else 0
    case Counted(k) => if q.counted && q.snapshot == k then 1 else 0
    case Reserved(k) => if q.ticket.Some? && q.snapshot == k then 1 else 0
    case TicketUpTo(k, top) => if q.ticket.Some? && q.snapshot == k && q.ticket.value <= top then 1 else 0
    case Granted(k) => if q.granted.Some? && q.snapshot == k then 1 else 0
    case InTransit(k) => if q.ticket.Some? && q.granted.None? && q.snapshot == k then 1 else 0
  }

  function Tally(requests: seq<Request>, g: Gauge, n: nat): nat
    requires n <= |requests|
  {
    if n == 0 then 0 else Tally(requests, g, n - 1) + Reading(requests[n - 1], g)
  }

  function Total(s: System, g: Gauge): nat {
    Tally(s.requests, g, |s.requests|)
  }

  lemma {:induction false} TallyAfterUpdate(requests: seq<Request>, i: nat, q: Request, g: Gauge, n: nat)
    requires i < |requests| && n <= |requests|
    ensures Tally(requests[i := q], g, n)
       == Tally(requests, g, n) + if i < n then Reading(q, g) - Reading(requests[i], g) else 0
  {
    if n > 0 {
      TallyAfterUpdate(requests, i, q, g, n - 1);
    }
  }

  lemma {:induction false} TallyOfPrefix(requests: seq<Request>, longer: seq<Request>, g: Gauge, n: nat)
    requires n <= |requests| <= |longer| && requests == longer[..|requests|]
    ensures Tally(longer, g, n) == Tally(requests, g, n)
  {
    if n > 0 {
      TallyOfPrefix(requests, longer, g, n - 1);
      assert longer[n - 1] == requests[n - 1];
    }
  }

  lemma {:induction false} TallyIsMonotone(requests: seq<Request>, g: Gauge, h: Gauge, n: nat)
    requires n <= |requests| && forall i :: 0 <= i < n ==> Reading(requests[i], g) <= Reading(requests[i], h)
    ensures Tally(requests, g, n) <= Tally(requests, h, n)
  {
    if n > 0 {
      TallyIsMonotone(requests, g, h, n - 1);
    }
  }

  lemma {:induction false} TallyOfNone(requests: seq<Request>, g: Gauge, n: nat)
    requires n <= |requests| && forall i :: 0 <= i < n ==> Reading(requests[i], g) == 0
    ensures Tally(requests, g, n) == 0
  {
    if n > 0 {
      TallyOfNone(requests, g, n - 1);
    }
  }

  /** The requests among the first `n` that a gauge reads. */
  ghost function Those(requests: seq<Request>, g: Gauge, n: nat): set<nat>
    requires n <= |requests|
  {
    set i: nat | i < n && Reading(requests[i], g) == 1
  }

  lemma OneOfThose(requests: seq<Request>, g: Gauge, n: nat)
    requires 0 < n <= |requests|
    ensures n - 1 !in Those(requests, g, n - 1)
    ensures Those(requests, g, n)
         == Those(requests, g, n - 1) + if Reading(requests[n - 1], g) == 1 then {n - 1} else {}
  {
    hide Reading;
  }

  /** A tally is the number of requests it reads. */
  lemma {:induction false} TallyCounts(requests: seq<Request>, g: Gauge, n: nat)
    requires n <= |requests|
    ensures Tally(requests, g, n) == |Those(requests, g, n)|
  {
    hide Reading;
    if n > 0 {
      TallyCounts(requests, g, n - 1);
      OneOfThose(requests, g, n);
    }
  }

  /** Every counter is exact, and no more than `top` additions hold a ticket of at most `top`. */
  ghost predicate Exact(s: System) {
    && (forall o: nat :: o < |s.objects| ==> s.objects[o].active == Total(s, Serving(o)))
    && (forall o: nat :: o >= |s.objects| ==> Total(s, Serving(o)) == 0)
    && (forall k: nat :: k < |s.snapshots| ==> s.snapshots[k].requests == Total(s, Counted(k)))
    && (forall k: nat :: k < |s.snapshots| ==> s.snapshots[k].retries == Total(s, Reserved(k)))
    && (forall k: nat :: k >= |s.snapshots| ==> Total(s, Counted(k)) == 0 && Total(s, Reserved(k)) == 0)
    && (forall k: nat, top: nat :: Total(s, TicketUpTo(k, top)) <= top)
  }

  ghost predicate Invariant(s: System) {
    Consistent(s) && Exact(s)
  }

  lemma StepMovesCounts(s: System, i: nat, a: Action, t: System, g: Gauge)
    requires Consistent(s) && i < |s.requests| && Moves(s, i, a, t)
    ensures Total(t, g) == Total(s, g) + Reading(t.requests[i], g) - Reading(s.requests[i], g)
  {
    TallyAfterUpdate(s.requests, i, t.requests[i], g, |s.requests|);
  }

  /** The counters move by exactly what the request's own readings move by. */
  lemma EffectMatchesReadings(q: Request, a: Action, snap: Snapshot, current: nat)
    requires Enabled(q, a, snap) && Sane(q)
    ensures var e := Step(q, a, snap, current);
            && (forall o: nat ::
                  Reading(e.request, Serving(o)) - Reading(q, Serving(o)) == if o == e.backend then e.active else 0)
            && (forall k: nat ::
                  Reading(e.request, Counted(k)) - Reading(q, Counted(k))
                  == if k == e.request.snapshot then e.requests else 0)
            && (forall k: nat ::
                  Reading(e.request, Reserved(k)) - Reading(q, Reserved(k))
                  == if k == e.request.snapshot then e.retries else 0)
            && (forall k: nat, top: nat :: !a.Reserve? ==>
                  Reading(e.request, TicketUpTo(k, top)) <= Reading(q, TicketUpTo(k, top)))
            && (forall k: nat, top: nat :: a.Reserve? && !(k == q.snapshot && snap.retries + 1 <= top) ==>
                  Reading(e.request, TicketUpTo(k, top)) <= Reading(q, TicketUpTo(k, top)))
  {
  }

  lemma StepKeepsExact(s: System, i: nat, a: Action, t: System)
    requires Invariant(s) && i < |s.requests| && Moves(s, i, a, t)
    ensures Exact(t)
  {
    var q := s.requests[i];
    var snap := s.snapshots[q.snapshot];
    EffectMatchesReadings(q, a, snap, Current(s));
    forall k: nat, top: nat
      ensures Total(t, TicketUpTo(k, top)) <= top
    {
      StepKeepsTickets(s, i, a, t, k, top);
    }
    StepKeepsSnapshot(q, a, snap, Current(s));
    EffectIsExact(s, i, Step(q, a, snap, Current(s)));
  }

  lemma EffectIsExact(s: System, i: nat, e: Effect)
    requires Exact(s) && i < |s.requests| && e.request.snapshot < |s.snapshots|
    requires (e.active != 0 ==> e.backend < |s.objects|)
    requires forall o: nat ::
               Reading(e.request, Serving(o)) - Reading(s.requests[i], Serving(o))
               == if o == e.backend then e.active else 0
    requires forall k: nat ::
               Reading(e.request, Counted(k)) - Reading(s.requests[i], Counted(k))
               == if k == e.request.snapshot then e.requests else 0
    requires forall k: nat ::
               Reading(e.request, Reserved(k)) - Reading(s.requests[i], Reserved(k))
               == if k == e.request.snapshot then e.retries else 0
    requires forall k: nat, top: nat :: Total(Taken(s, i, e), TicketUpTo(k, top)) <= top
    ensures Exact(Taken(s, i, e))
  {
    var t := Taken(s, i, e);
    forall g
      ensures Total(t, g) == Total(s, g) + Reading(e.request, g) - Reading(s.requests[i], g)
    {
      TallyAfterUpdate(s.requests, i, e.request, g, |s.requests|);
    }
  }

  lemma StepKeepsSnapshot(q: Request, a: Action, snap: Snapshot, current: nat)
    requires Enabled(q, a, snap) && Sane(q)
    ensures Step(q, a, snap, current).request.snapshot == if a.Load? then current else q.snapshot
  {
  }

  /** A new ticket is one more than the additions that stand, so it cannot crowd those below it. */
  lemma StepKeepsTickets(s: System, i: nat, a: Action, t: System, k: nat, top: nat)
    requires Invariant(s) && i < |s.requests| && Moves(s, i, a, t)
    ensures Total(t, TicketUpTo(k, top)) <= top
  {
    var q := s.requests[i];
    EffectMatchesReadings(q, a, s.snapshots[q.snapshot], Current(s));
    if a.Reserve? && k == q.snapshot && s.snapshots[k].retries + 1 <= top {
      TallyIsMonotone(t.requests, TicketUpTo(k, top), Reserved(k), |t.requests|);
      StepMovesCounts(s, i, a, t, Reserved(k));
    } else {
      StepMovesCounts(s, i, a, t, TicketUpTo(k, top));
    }
  }

  lemma StepKeepsConsistent(s: System, i: nat, a: Action, t: System)
    requires Invariant(s) && i < |s.requests| && Moves(s, i, a, t)
    ensures Consistent(t)
  {
    var q := s.requests[i];
    var snap := s.snapshots[q.snapshot];
    DistinctPool(s, snap);
    StepKeepsSound(q, a, snap, Current(s), if a.Load? then s.snapshots[Current(s)] else snap);
    StepKeepsSnapshot(q, a, snap, Current(s));
    EffectIsConsistent(s, i, Step(q, a, snap, Current(s)));
  }

  lemma EffectIsConsistent(s: System, i: nat, e: Effect)
    requires Consistent(s) && i < |s.requests| && e.request.snapshot < |s.snapshots| && (e.active != 0 ==>
              e.backend < |s.objects|)
    requires Sound(e.request, s.snapshots[e.request.snapshot])
    ensures Consistent(Taken(s, i, e))
  {
    var t := Taken(s, i, e);
    assert forall b :: 0 <= b < |s.objects| ==> t.objects[b].addr == s.objects[b].addr;
    forall k | 0 <= k < |t.snapshots|
      ensures SoundSnapshot(t, t.snapshots[k])
    {
      assert SoundSnapshot(s, s.snapshots[k]);
    }
    forall j | 0 <= j < |t.requests|
      ensures t.requests[j].snapshot < |t.snapshots| && Sound(t.requests[j], t.snapshots[t.requests[j].snapshot])
    {
      var r := t.requests[j];
      SoundIgnoresCounters(r, s.snapshots[r.snapshot], t.snapshots[r.snapshot]);
    }
  }

  lemma SoundIgnoresCounters(q: Request, before: Snapshot, after: Snapshot)
    requires after == before.(requests := after.requests, retries := after.retries)
    ensures Sound(q, after) <==> Sound(q, before)
  {
  }

  lemma DistinctPool(s: System, snap: Snapshot)
    requires SoundSnapshot(s, snap)
    ensures Distinct(snap.pool)
  {
  }

  lemma ArrivalKeepsInvariant(s: System, idempotent: bool)
    requires Invariant(s)
    ensures Invariant(WithArrival(s, idempotent))
  {
    var t := WithArrival(s, idempotent);
    forall g
      ensures Total(t, g) == Total(s, g)
    {
      TallyOfPrefix(s.requests, t.requests, g, |s.requests|);
    }
    var snap := s.snapshots[0];
    assert Sound(NewRequest(idempotent), snap);
  }

  lemma ReloadKeepsInvariant(s: System, a: Action)
    requires Invariant(s) && a.Reload? && ValidReload(a)
    ensures Invariant(Reloaded(s, a))
  {
    var t := Reloaded(s, a);
    forall b | 0 <= b < |s.objects|
      ensures t.objects[b] == s.objects[b]
    {
      assert t.objects[..|s.objects|][b] == s.objects[b];
    }
    assert forall g :: Total(t, g) == Total(s, g);
    forall k | 0 <= k < |t.snapshots|
      ensures SoundSnapshot(t, t.snapshots[k])
    {
      if k < |s.snapshots| {
        assert SoundSnapshot(s, s.snapshots[k]);
      }
    }
  }

  lemma StartIsInvariant(s: System)
    requires Initial(s)
    ensures Invariant(s)
  {
  }

  // ------------------------------------------------------------ the results

  /** A run of the balancer, as the states it goes through. */
  ghost predicate IsBehavior(states: seq<System>) {
    && states != [] && Initial(states[0])
    && forall n :: 0 <= n < |states| - 1 ==> Next(states[n], states[n + 1])
  }

  /**
   In every state of every run, each backend's counter is the number of requests
   holding it, and each budget's two counters are the requests and the retries
   that took that snapshot.
   */
  lemma {:induction false} CountersAreAlwaysExact(states: seq<System>, n: nat)
    requires IsBehavior(states) && n < |states|
    ensures Invariant(states[n])
  {
    if n == 0 {
      StartIsInvariant(states[0]);
    } else {
      CountersAreAlwaysExact(states, n - 1);
      var s, t := states[n - 1], states[n];
      assert Next(s, t);
      if idempotent :| t == WithArrival(s, idempotent) {
        ArrivalKeepsInvariant(s, idempotent);
      } else if a: Action :| a.Reload? && ValidReload(a) && t == Reloaded(s, a) {
        ReloadKeepsInvariant(s, a);
      } else {
        var i: nat, a: Action :| i < |s.requests| && Moves(s, i, a, t);
        StepKeepsConsistent(s, i, a, t);
        StepKeepsExact(s, i, a, t);
      }
    }
  }

  /**
   So at every point of every run a backend's counter is the number of requests that
   hold it, and a budget's two counters are the numbers of requests and of tickets
   counted into it, whichever requests came and went.
   */
  lemma CountersCountTheirHolders(states: seq<System>, n: nat)
    requires IsBehavior(states) && n < |states|
    ensures var s := states[n];
            && (forall o: nat :: o < |s.objects| ==>
                  s.objects[o].active == |set i: nat | i < |s.requests| && s.requests[i].holding == Some(o)|)
            && (forall k: nat :: k < |s.snapshots| ==>
                  && s.snapshots[k].requests
                     == |set i: nat | i < |s.requests| && s.requests[i].counted && s.requests[i].snapshot == k|
                  && s.snapshots[k].retries
                     == |set i: nat | i < |s.requests| && s.requests[i].ticket.Some? && s.requests[i].snapshot == k|)
  {
    CountersAreAlwaysExact(states, n);
    var s := states[n];
    forall o: nat | o < |s.objects|
      ensures s.objects[o].active == |set i: nat | i < |s.requests| && s.requests[i].holding == Some(o)|
    {
      Holders(s, o);
    }
    forall k: nat | k < |s.snapshots|
      ensures s.snapshots[k].requests
           == |set i: nat | i < |s.requests| && s.requests[i].counted && s.requests[i].snapshot == k|
      ensures s.snapshots[k].retries
           == |set i: nat | i < |s.requests| && s.requests[i].ticket.Some? && s.requests[i].snapshot == k|
    {
      CountedIn(s, k);
      Ticketed(s, k);
    }
  }

  lemma Holders(s: System, o: nat)
    ensures Total(s, Serving(o)) == |set i: nat | i < |s.requests| && s.requests[i].holding == Some(o)|
  {
    TallyCounts(s.requests, Serving(o), |s.requests|);
    assert (set i: nat | i < |s.requests| && s.requests[i].holding == Some(o))
        == Those(s.requests, Serving(o), |s.requests|);
  }

  lemma CountedIn(s: System, k: nat)
    ensures Total(s, Counted(k))
         == |set i: nat | i < |s.requests| && s.requests[i].counted && s.requests[i].snapshot == k|
  {
    TallyCounts(s.requests, Counted(k), |s.requests|);
    assert (set i: nat | i < |s.requests| && s.requests[i].counted && s.requests[i].snapshot == k)
        == Those(s.requests, Counted(k), |s.requests|);
  }

  lemma Ticketed(s: System, k: nat)
    ensures Total(s, Reserved(k))
         == |set i: nat | i < |s.requests| && s.requests[i].ticket.Some? && s.requests[i].snapshot == k|
  {
    TallyCounts(s.requests, Reserved(k), |s.requests|);
    assert (set i: nat | i < |s.requests| && s.requests[i].ticket.Some? && s.requests[i].snapshot == k)
        == Those(s.requests, Reserved(k), |s.requests|);
  }

  lemma LetThrough(s: System, k: nat)
    ensures Total(s, Granted(k))
         == |set i: nat | i < |s.requests| && s.requests[i].granted.Some? && s.requests[i].snapshot == k|
  {
    TallyCounts(s.requests, Granted(k), |s.requests|);
    assert (set i: nat | i < |s.requests| && s.requests[i].granted.Some? && s.requests[i].snapshot == k)
        == Those(s.requests, Granted(k), |s.requests|);
  }

  /** Whatever way the requests ended, panics included, once all have ended every counter is back to zero. */
  lemma EverythingReturnsToZero(states: seq<System>, n: nat)
    requires IsBehavior(states) && n < |states|
    requires forall i :: 0 <= i < |states[n].requests| ==> states[n].requests[i].point.Done?
    ensures forall o: nat :: o < |states[n].objects| ==> states[n].objects[o].active == 0
    ensures forall k: nat :: k < |states[n].snapshots| ==>
              states[n].snapshots[k].requests == 0 && states[n].snapshots[k].retries == 0
  {
    var s := states[n];
    CountersAreAlwaysExact(states, n);
    forall g
      ensures Total(s, g) == 0
    {
      TallyOfNone(s.requests, g, |s.requests|);
    }
  }

  /** A budget's `retries` is the retries held plus the reservations in transit. */
  lemma RetriesAreHeldOrInTransit(states: seq<System>, n: nat, k: nat)
    requires IsBehavior(states) && n < |states| && k < |states[n].snapshots|
    ensures states[n].snapshots[k].retries == Total(states[n], Granted(k)) + Total(states[n], InTransit(k))
  {
    CountersAreAlwaysExact(states, n);
    SplitReservations(states[n].requests, k, |states[n].requests|);
  }

  lemma {:induction false} SplitReservations(requests: seq<Request>, k: nat, n: nat)
    requires n <= |requests| && forall i :: 0 <= i < n ==> Sane(requests[i])
    ensures Tally(requests, Reserved(k), n) == Tally(requests, Granted(k), n) + Tally(requests, InTransit(k), n)
  {
    if n > 0 {
      SplitReservations(requests, k, n - 1);
    }
  }

  /**
   However the steps of reserving, weighing and giving back are interleaved, the
   retries a budget has let through and that are still held are no more than its
   minimum, or no more than its percentage of the largest load any of them was let
   through at.
   */
  lemma RetriesStayInBudget(states: seq<System>, n: nat, k: nat, largest: int)
    requires IsBehavior(states) && n < |states| && k < |states[n].snapshots|
    requires forall q :: q in states[n].requests && q.snapshot == k && q.granted.Some? ==> q.granted.value <= largest
    ensures var (s, snap) := (states[n], states[n].snapshots[k]);
            var held := |set i: nat | i < |s.requests| && s.requests[i].granted.Some? && s.requests[i].snapshot == k|;
            held <= snap.minimum || 100.0 * held as real <= snap.percent * largest as real
  {
    hide LimitAt, Reading;
    var s, snap := states[n], states[n].snapshots[k];
    CountersAreAlwaysExact(states, n);
    GrantsAreWithinLimit(s, k, largest);
    LetThrough(s, k);
    if Total(s, Granted(k)) >= 1 {
      WithinLimit(snap.percent, snap.minimum, largest, Total(s, Granted(k)));
    } else {
      assert snap.minimum >= 1 by {
        assert SoundSnapshot(s, snap);
      }
    }
  }

  lemma GrantsAreWithinLimit(s: System, k: nat, largest: int)
    requires Invariant(s) && k < |s.snapshots|
    requires forall q :: q in s.requests && q.snapshot == k && q.granted.Some? ==> q.granted.value <= largest
    ensures Total(s, Granted(k)) <= LimitAt(s.snapshots[k].percent, s.snapshots[k].minimum, largest)
  {
    var snap := s.snapshots[k];
    assert SoundSnapshot(s, snap);
    var limit := LimitAt(snap.percent, snap.minimum, largest);
    forall i | 0 <= i < |s.requests|
      ensures Reading(s.requests[i], Granted(k)) <= Reading(s.requests[i], TicketUpTo(k, limit))
    {
      var q := s.requests[i];
      if q.granted.Some? && q.snapshot == k {
        assert Sound(q, snap);
        LimitGrows(snap.percent, snap.minimum, q.granted.value, largest);
      }
    }
    TallyIsMonotone(s.requests, Granted(k), TicketUpTo(k, limit), |s.requests|);
  }

  /**
   A reservation is let through exactly when it, with those that stood when it was
   made, is within the minimum or within the percentage of the load read; and it
   counts at least itself.
   */
  lemma WeighsExactly(states: seq<System>, n: nat, i: nat, t: System)
    requires IsBehavior(states) && n < |states| && i < |states[n].requests|
    requires WellFormed(states[n]) && Moves(states[n], i, Weigh, t)
    ensures var (q, snap) := (states[n].requests[i], states[n].snapshots[states[n].requests[i].snapshot]);
            && 1 <= q.ticket.value
            && (t.requests[i].point.Starting?
                <==> || q.ticket.value <= snap.minimum
                     || 100.0 * q.ticket.value as real <= snap.percent * snap.requests as real)
            && (t.requests[i].point.Refused? <==> !t.requests[i].point.Starting?)
  {
    CountersAreAlwaysExact(states, n);
    var s, q := states[n], states[n].requests[i];
    TicketsAreNumbered(s, i);
    WeighsByLimit(q, s.snapshots[q.snapshot], Current(s));
  }

  lemma TicketsAreNumbered(s: System, i: nat)
    requires Exact(s) && i < |s.requests| && s.requests[i].ticket.Some?
    ensures 1 <= s.requests[i].ticket.value
  {
    var k := s.requests[i].snapshot;
    assert Total(s, TicketUpTo(k, 0)) <= 0;
    TallyIncludes(s.requests, TicketUpTo(k, 0), i, |s.requests|);
  }

  lemma WeighsByLimit(q: Request, snap: Snapshot, current: nat)
    requires Enabled(q, Weigh, snap) && Sane(q) && 1 <= q.ticket.value
    ensures var point := Step(q, Weigh, snap, current).request.point;
            && (point.Starting?
                <==> || q.ticket.value <= snap.minimum
                     || 100.0 * q.ticket.value as real <= snap.percent * snap.requests as real)
            && (point.Refused? <==> !point.Starting?)
  {
    hide LimitAt;
    WithinLimit(snap.percent, snap.minimum, snap.requests, q.ticket.value);
  }

  lemma {:induction false} TallyIncludes(requests: seq<Request>, g: Gauge, i: nat, n: nat)
    requires i < n <= |requests|
    ensures Reading(requests[i], g) <= Tally(requests, g, n)
  {
    if i < n - 1 {
      TallyIncludes(requests, g, i, n - 1);
    }
  }

  /** Every request that has ended tells one of the stories `Ended` describes, whatever ran beside it. */
  lemma EveryEndIsExplained(states: seq<System>, n: nat, i: nat)
    requires IsBehavior(states) && n < |states| && i < |states[n].requests| && states[n].requests[i].point.Done?
    ensures var q := states[n].requests[i];
            && q.snapshot < |states[n].snapshots| && |q.outcomes| <= |q.tried|
            && var snap := states[n].snapshots[q.snapshot];
               Ended(snap.pool, snap.attempts, q.idempotent, q.tried[..|q.outcomes|], q.outcomes, q.point.verdict)
  {
    CountersAreAlwaysExact(states, n);
  }

  /**
   In every run, an idempotent request whose every attempt failed, and that the
   budget did not refuse, was offered to as many backends as its pool has, up to
   the attempts of its snapshot.
   */
  lemma EveryoneWasAsked(states: seq<System>, n: nat, i: nat)
    requires IsBehavior(states) && n < |states| && i < |states[n].requests|
    requires states[n].requests[i].point.Done? && states[n].requests[i].point.verdict != BudgetExhausted
    requires states[n].requests[i].idempotent
    requires forall o :: o in states[n].requests[i].outcomes ==> o == DialFailed || o == FailedAfterSend
    ensures var q := states[n].requests[i];
            && q.snapshot < |states[n].snapshots| && |q.outcomes| <= |q.tried|
            && Distinct(q.tried[..|q.outcomes|])
            && var (pool, attempts) := (states[n].snapshots[q.snapshot].pool, states[n].snapshots[q.snapshot].attempts);
               |q.outcomes| == if |pool| < attempts then |pool| else attempts
  {
    EveryEndIsExplained(states, n, i);
    FailuresFailed(states[n].requests[i].outcomes);
    var q := states[n].requests[i];
    var snap := states[n].snapshots[q.snapshot];
    EveryAttemptFails(snap.pool, snap.attempts, q.tried[..|q.outcomes|], q.outcomes, q.point.verdict);
  }

  /**
   At every point of every run, no request is offered to one backend twice, and one
   that is not idempotent has reached at most its last.
   */
  lemma OfferedOnceEach(states: seq<System>, n: nat, i: nat, j: nat)
    requires IsBehavior(states) && n < |states| && i < |states[n].requests| && j < |states[n].requests[i].outcomes|
    ensures Distinct(states[n].requests[i].tried) && |states[n].requests[i].outcomes| <= |states[n].requests[i].tried|
    ensures !states[n].requests[i].idempotent && j < |states[n].requests[i].tried| - 1 ==>
              states[n].requests[i].outcomes[j] == DialFailed
  {
    CountersAreAlwaysExact(states, n);
    var q := states[n].requests[i];
    if !q.idempotent {
      ReachesAtMostOneBackend(states[n].snapshots[q.snapshot].pool, states[n].snapshots[q.snapshot].attempts, q.tried,
                              q.outcomes, j);
    }
  }

  /** An address that survives a reload keeps its object, and with it its count of requests in flight. */
  lemma SurvivorsKeepTheirCount(s: System, a: Action, i: nat, j: nat)
    requires Invariant(s) && a.Reload? && ValidReload(a)
    requires i < |a.addrs| && j < |s.snapshots[Current(s)].pool|
    requires s.objects[s.snapshots[Current(s)].pool[j]].addr == a.addrs[i]
    ensures var (t, b) := (Reloaded(s, a), s.snapshots[Current(s)].pool[j]);
            t.snapshots[Current(t)].pool[i] == b && t.objects[b] == s.objects[b]
  {
    var t, pool := Reloaded(s, a), s.snapshots[Current(s)].pool;
    var b := t.snapshots[Current(t)].pool[i];
    assert SoundSnapshot(s, s.snapshots[Current(s)]);
    assert b in pool;
    var m :| 0 <= m < |pool| && pool[m] == b;
    assert t.objects[..|s.objects|][b] == s.objects[b];
    assert m == j;
  }

  /** The settings that a request which reads them now will work from are those of the newest reload. */
  lemma LoadsTheNewest(s: System, i: nat, a: Action, t: System)
    requires WellFormed(s) && i < |s.requests| && s.requests[i].point.Arrived? && Moves(s, i, a, t)
    ensures t.requests[i].snapshot == |s.snapshots| - 1 && !t.requests[i].point.Arrived?
    ensures t.snapshots == s.snapshots
  {
  }

  /**
   A request that had read its settings works from the same ones later: the same
   snapshot, of which only the budget's counters may have changed.
   */
  ghost predicate WorksFromTheSame(s: System, t: System, i: nat) {
    && i < |s.requests| && i < |t.requests| && t.requests[i].snapshot == s.requests[i].snapshot < |s.snapshots|
    && !t.requests[i].point.Arrived?
    && |s.snapshots| <= |t.snapshots|
    && var (before, after) := (s.snapshots[s.requests[i].snapshot], t.snapshots[s.requests[i].snapshot]);
       after == before.(requests := after.requests, retries := after.retries)
  }

  /** Once it has read its settings a request works from them to its end, whatever is reloaded meanwhile. */
  lemma {:induction false} KeepsItsSettings(states: seq<System>, m: nat, n: nat, i: nat)
    requires IsBehavior(states) && m <= n < |states| && i < |states[m].requests|
    requires !states[m].requests[i].point.Arrived?
    ensures WorksFromTheSame(states[m], states[n], i)
  {
    hide Next, Consistent, Exact, Initial, WorksFromTheSame;
    if m < n {
      KeepsItsSettings(states, m, n - 1, i);
      assert Next(states[n - 1], states[n]);
      OneMoreStep(states[m], states[n - 1], states[n], i);
    } else {
      CountersAreAlwaysExact(states, m);
      HasSettings(states[m], i);
    }
  }

  lemma OneMoreStep(s: System, t: System, u: System, i: nat)
    requires WorksFromTheSame(s, t, i) && Next(t, u)
    ensures WorksFromTheSame(s, u, i)
  {
    hide Next;
    SettingsStay(t, u, i);
  }

  lemma HasSettings(s: System, i: nat)
    requires Consistent(s) && i < |s.requests| && !s.requests[i].point.Arrived?
    ensures WorksFromTheSame(s, s, i)
  {
  }

  lemma SettingsStay(s: System, t: System, i: nat)
    requires Next(s, t) && i < |s.requests| && !s.requests[i].point.Arrived?
    ensures WorksFromTheSame(s, t, i)
  {
    hide Moves, Merged, Sane;
    if idempotent :| t == WithArrival(s, idempotent) {
    } else if a: Action :| a.Reload? && ValidReload(a) && t == Reloaded(s, a) {
    } else {
      var j: nat, a: Action :| j < |s.requests| && Moves(s, j, a, t);
      MoveKeepsSettings(s, j, a, t, i);
    }
  }

  lemma MoveKeepsSettings(s: System, j: nat, a: Action, t: System, i: nat)
    requires WellFormed(s) && j < |s.requests| && Moves(s, j, a, t)
    requires i < |s.requests| && !s.requests[i].point.Arrived?
    ensures WorksFromTheSame(s, t, i)
  {
    hide Step, Enabled, Sane;
    var q := s.requests[j];
    StaysLoaded(q, a, s.snapshots[q.snapshot], Current(s));
    StepKeepsSnapshot(q, a, s.snapshots[q.snapshot], Current(s));
  }

  lemma StaysLoaded(q: Request, a: Action, snap: Snapshot, current: nat)
    requires Enabled(q, a, snap) && Sane(q)
    ensures !Step(q, a, snap, current).request.point.Arrived?
    ensures !q.point.Arrived? ==> Step(q, a, snap, current).request.snapshot == q.snapshot
  {
  }

  // --------------------------------------------------- nothing gets stuck

  /** A request that has not ended can always take its next step, and so does not wait for any other. */
  lemma NobodyIsStuck(states: seq<System>, n: nat, i: nat) returns (a: Action, t: System)
    requires IsBehavior(states) && n < |states| && i < |states[n].requests| && !states[n].requests[i].point.Done?
    ensures Consistent(states[n]) && Moves(states[n], i, a, t)
  {
    CountersAreAlwaysExact(states, n);
    var s := states[n];
    var q := s.requests[i];
    var snap := s.snapshots[q.snapshot];
    a := match q.point
         case Arrived => Load
         case Loaded => Count
         case Choosing => GiveUp
         case Reserving => Reserve
         case Weighing => Weigh
         case Refused => TakeBack
         case Starting => Acquire
         case Forwarding => Attempt(Served)
         case Releasing => Release
         case Returning => ReturnRetry
         case Judging => Judge
         case Leaving(_) => Leave;
    if q.point.Choosing? && !Enabled(q, GiveUp, snap) {
      var b :| b in snap.pool && b !in q.tried;
      a := Choose(b);
    }
    EffectIsInRange(s, i, a);
    t := Taken(s, i, Step(q, a, snap, Current(s)));
  }

  lemma EffectIsInRange(s: System, i: nat, a: Action)
    requires Invariant(s) && i < |s.requests| && Enabled(s.requests[i], a, s.snapshots[s.requests[i].snapshot])
    ensures var e := Step(s.requests[i], a, s.snapshots[s.requests[i].snapshot], Current(s));
            e.active != 0 ==> e.backend < |s.objects|
  {
    var q := s.requests[i];
    assert SoundSnapshot(s, s.snapshots[q.snapshot]);
    assert q.tried != [] ==> q.tried[|q.tried| - 1] in q.tried;
  }

  /** How many more steps a request can take at most, once it has its snapshot. */
  function StepsLeft(q: Request, snap: Snapshot): int {
    10 * (snap.attempts - |q.outcomes|) +
    match q.point
    case Arrived => 20
    case Loaded => 19
    case Choosing => 8
    case Reserving => 7
    case Weighing => 6
    case Refused => 5
    case Starting => 5
    case Forwarding => 4
    case Releasing => 13
    case Returning => 12
    case Judging => 11
    case Leaving(_) => 1
    case Done(_) => 0
  }

  /** Nearer to its end: it has read its snapshot and had not, or has fewer steps left. */
  predicate Nearer(before: Request, after: Request, snap: Snapshot) {
    if before.point.Arrived? then !after.point.Arrived?
    else !after.point.Arrived? && 0 <= StepsLeft(after, snap) < StepsLeft(before, snap)
  }

  /** Every step of a request brings it nearer to its end: the retry loop ends however the other requests run. */
  lemma EveryStepIsProgress(q: Request, a: Action, snap: Snapshot, current: nat)
    requires Enabled(q, a, snap) && Sound(q, snap)
    ensures Nearer(q, Step(q, a, snap, current).request, snap)
  {
  }
}
