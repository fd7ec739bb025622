/** Which failures may be retried, and what a finished request looks like from outside. */
module RetryPolicy {
  import opened Basics

  /** The idempotent methods of section 9.2.2 of RFC 9110. */
  predicate Idempotent(httpMethod: string) {
    httpMethod in {"GET", "HEAD", "PUT", "DELETE", "OPTIONS", "TRACE"}
  }

  /**
   How one attempt ends. A client that goes away ends it whatever else went wrong,
   without a report; one that goes away only after the failure was reported is
   noticed by the loop all the same.
   */
  datatype Outcome = Served | DialFailed | FailedAfterSend | CutOff | ClientGone | FailedThenGone(sent: bool) {
    predicate Failed() {
      DialFailed? || FailedAfterSend?
    }

    /** Whether the client was there when the attempt's outcome was reported. */
    predicate Reported() {
      !ClientGone?
    }

    predicate SawTheClientGo() {
      ClientGone? || FailedThenGone?
    }

    /** Whether the backend can have received the request. Only a failed dial rules it out. */
    predicate MayHaveArrived() {
      !DialFailed? && (FailedThenGone? ==> sent)
    }
  }

  predicate Retryable(idempotent: bool, o: Outcome) {
    idempotent || o.DialFailed?
  }

  /** How a request ends: answered, broken off by a panic, abandoned by its client, or refused. */
  datatype Verdict = Answered | BrokenOff | Abandoned | NotRetryable | BudgetExhausted | NoBackend

  /** What follows attempt `n` (from 0) of at most `attempts`: an end, or another round of the loop. */
  function AfterAttempt(idempotent: bool, n: nat, attempts: nat, o: Outcome): (next: Option<Verdict>)
    ensures next.Some? ==> !next.value.BudgetExhausted? && !next.value.NoBackend?
    ensures next == Some(Abandoned) <==> o.SawTheClientGo()
    ensures next.None? ==> o.Failed() && (n + 1 < attempts ==> Retryable(idempotent, o))
  {
    match o
    case Served => Some(Answered)
    case CutOff => Some(BrokenOff)
    case ClientGone => Some(Abandoned)
    case FailedThenGone(_) => Some(Abandoned)
    case _ => if n + 1 < attempts && !Retryable(idempotent, o) then Some(NotRetryable) else None
  }

  // ------------------------------------------------------ a request's story

  /**
   What holds of a request while it runs: it was offered to different backends of
   its pool, at most `attempts` of them, and after every attempt but the last it
   had failed in a way that may be retried.
   */
  ghost predicate Offered<T>(pool: seq<T>, attempts: nat, idempotent: bool, offered: seq<T>, outcomes: seq<Outcome>) {
    && Distinct(offered) && (forall b :: b in offered ==> b in pool)
    && |outcomes| <= |offered| <= attempts
    && forall i :: 0 <= i < |outcomes| && i + 1 < |offered| ==>
        outcomes[i].Failed() && Retryable(idempotent, outcomes[i])
  }

  ghost predicate AllFailed(outcomes: seq<Outcome>) {
    forall i :: 0 <= i < |outcomes| ==> outcomes[i].Failed()
  }

  lemma FailuresFailed(outcomes: seq<Outcome>)
    requires forall o :: o in outcomes ==> o == DialFailed || o == FailedAfterSend
    ensures AllFailed(outcomes)
  {
    forall i | 0 <= i < |outcomes|
      ensures outcomes[i].Failed()
    {
      assert outcomes[i] in outcomes;
    }
  }

  /** How each verdict comes about. */
  ghost predicate Ended<T>(pool: seq<T>, attempts: nat, idempotent: bool, offered: seq<T>, outcomes: seq<Outcome>,
                           v: Verdict) {
    && Offered(pool, attempts, idempotent, offered, outcomes) && |outcomes| == |offered|
    && match v
       case Answered => outcomes != [] && outcomes[|outcomes| - 1].Served?
       case BrokenOff => outcomes != [] && outcomes[|outcomes| - 1].CutOff?
       case Abandoned => outcomes != [] && outcomes[|outcomes| - 1].SawTheClientGo()
       case NotRetryable =>
         !idempotent && outcomes != [] && outcomes[|outcomes| - 1].FailedAfterSend? && |outcomes| < attempts
       case BudgetExhausted => AllFailed(outcomes) && 0 < |outcomes| < Min(|pool|, attempts)
       case NoBackend => AllFailed(outcomes) && |outcomes| == Min(|pool|, attempts)
  }

  /** A request that is not idempotent reaches at most one backend, the last it was offered to. */
  lemma ReachesAtMostOneBackend<T>(pool: seq<T>, attempts: nat, offered: seq<T>, outcomes: seq<Outcome>, i: nat)
    requires Offered(pool, attempts, false, offered, outcomes) && i < |outcomes|
    ensures outcomes[i].MayHaveArrived() ==> i == |offered| - 1
  {
  }

  /** An idempotent request whose every attempt fails is offered to as many backends as there are, up to the limit. */
  lemma EveryAttemptFails<T>(pool: seq<T>, attempts: nat, offered: seq<T>, outcomes: seq<Outcome>, v: Verdict)
    requires Ended(pool, attempts, true, offered, outcomes, v) && AllFailed(outcomes) && !v.BudgetExhausted?
    ensures v == NoBackend && |offered| == Min(|pool|, attempts)
  {
    assert outcomes != [] ==> outcomes[|outcomes| - 1].Failed();
  }

  /** Different members of a list are no more than the list, and all of it when they are as many. */
  lemma DistinctFitsIn<T>(some: seq<T>, all: seq<T>)
    requires Distinct(some) && forall b :: b in some ==> b in all
    ensures |some| <= |all|
    ensures Distinct(all) && |some| == |all| ==> forall b :: b in all ==> b in some
  {
    var m := set b | b in some;
    var n := set b | b in all;
    SizeOfElements(some);
    SizeAtMost(all);
    assert m <= n;
    SubsetIsNoLarger(m, n);
    if Distinct(all) && |some| == |all| {
      SizeOfElements(all);
      EqualSizes(m, n);
      assert forall b :: b in all ==> b in n;
    }
  }

  lemma {:induction false} SizeOfElements<T>(s: seq<T>)
    requires Distinct(s)
    ensures |set b | b in s| == |s|
  {
    if s != [] {
      SizeOfElements(s[1..]);
      assert s == [s[0]] + s[1..];
      assert s[0] !in s[1..];
      assert (set b | b in s) == {s[0]} + set b | b in s[1..];
    }
  }

  lemma {:induction false} SizeAtMost<T>(s: seq<T>)
    ensures |set b | b in s| <= |s|
  {
    if s != [] {
      SizeAtMost(s[1..]);
      assert s == [s[0]] + s[1..];
      assert (set b | b in s) == {s[0]} + set b | b in s[1..];
    }
  }

  lemma {:induction false} SubsetIsNoLarger<T>(a: set<T>, b: set<T>)
    requires a <= b
    ensures |a| <= |b|
  {
    if a != {} {
      var x :| x in a;
      SubsetIsNoLarger(a - {x}, b - {x});
    }
  }

  lemma EqualSizes<T>(a: set<T>, b: set<T>)
    requires a <= b && |a| == |b|
    ensures a == b
  {
    SubsetIsNoLarger(a, b);
    if x :| x in b && x !in a {
      SubsetIsNoLarger(a, b - {x});
      assert false;
    }
  }
}
