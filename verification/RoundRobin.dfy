/** Round robin over one shared 64-bit counter, which retries read without advancing. */
module RoundRobin {
  import opened Basics
  import opened Backends

  const WRAP := 0x1_0000_0000_0000_0000

  type Word = x: int | 0 <= x < WRAP

  class RoundRobin {
    /** How many turns have been taken, modulo 2^64. */
    var next: Word

    constructor ()
      ensures next == 0
    {
      next := 0;
    }

    method Select(pool: seq<Backend>) returns (chosen: Option<Backend>)
      modifies `next
      ensures pool == [] ==> chosen == None && next == old(next)
      ensures pool != [] ==> chosen == Some(pool[old(next) % |pool|]) && next == Advance(old(next), 1)
      ensures pool != [] ==> next == (old(next) + 1) % 18446744073709551616
    {
      if |pool| == 0 {
        return None;
      }
      // An atomic addition answers with the sum, one past the turn taken.
      OneBack(next);
      next := (next + 1) % WRAP;
      var index := ((next + WRAP - 1) % WRAP) % |pool|;
      return Some(pool[index]);
    }

    /** Looks at whose turn it is and leaves it at that. */
    method SelectRetry(pool: seq<Backend>) returns (chosen: Option<Backend>)
      ensures chosen == if pool == [] then None else Some(pool[next % |pool|])
    {
      if |pool| == 0 {
        return None;
      }
      return Some(pool[next % |pool|]);
    }
  }

  /** One turn on and one turn back is where the counter was, across the wrap too. */
  lemma OneBack(next: Word)
    ensures ((next + 1) % WRAP + WRAP - 1) % WRAP == next
  {
    if next == WRAP - 1 {
      Divided(next + 1, WRAP, 1, 0);
      Divided(WRAP - 1, WRAP, 0, WRAP - 1);
    } else {
      Divided(next + 1, WRAP, 0, next + 1);
      Divided(next + WRAP, WRAP, 1, next);
    }
  }

  /** The counter `t` turns on. */
  function Advance(next: Word, t: nat): Word {
    (next + t) % WRAP
  }

  // ------------------------------------------------ retries take no turns

  /** One use of the strategy: a first attempt or a retry, over the candidates it has. */
  datatype Call = Call(pool: seq<Backend>, first: bool)

  /** How many turns the first `n` calls take: one for each first attempt that has candidates. */
  ghost function TurnsBefore(calls: seq<Call>, n: nat): nat
    requires n <= |calls|
  {
    if n == 0 then 0 else TurnsBefore(calls, n - 1) + if calls[n - 1].first && calls[n - 1].pool != [] then 1 else 0
  }

  /** The backend that is due at call `k`. */
  ghost function Due(next: Word, calls: seq<Call>, k: nat): Option<Backend>
    requires k < |calls|
  {
    if calls[k].pool == [] then None else Some(calls[k].pool[Advance(next, TurnsBefore(calls, k)) % |calls[k].pool|])
  }

  /** The first attempts among the first `n` calls. */
  function FirstsOf(calls: seq<Call>, n: nat): seq<Call>
    requires n <= |calls|
  {
    if n == 0 then [] else FirstsOf(calls, n - 1) + if calls[n - 1].first then [calls[n - 1]] else []
  }

  /** What was chosen for them. */
  ghost function ChosenFirst(calls: seq<Call>, chosen: seq<Option<Backend>>, n: nat): seq<Option<Backend>>
    requires n <= |calls| && n <= |chosen|
  {
    if n == 0 then [] else ChosenFirst(calls, chosen, n - 1) + if calls[n - 1].first then [chosen[n - 1]] else []
  }

  /**
   Drives one strategy object through any calls: each gets whoever is due, and only
   first attempts move the counter.
   */
  method Drive(strategy: RoundRobin, calls: seq<Call>) returns (chosen: seq<Option<Backend>>)
    modifies strategy
    ensures |chosen| == |calls| && forall k :: 0 <= k < |calls| ==> chosen[k] == Due(old(strategy.next), calls, k)
    ensures strategy.next == Advance(old(strategy.next), TurnsBefore(calls, |calls|))
  {
    chosen := [];
    for n := 0 to |calls|
      invariant |chosen| == n && forall k :: 0 <= k < n ==> chosen[k] == Due(old(strategy.next), calls, k)
      invariant strategy.next == Advance(old(strategy.next), TurnsBefore(calls, n))
    {
      var one;
      AdvanceOnce(old(strategy.next), TurnsBefore(calls, n));
      if calls[n].first {
        one := strategy.Select(calls[n].pool);
      } else {
        one := strategy.SelectRetry(calls[n].pool);
      }
      chosen := chosen + [one];
    }
  }

  lemma AdvanceOnce(next: Word, t: nat)
    ensures Advance(Advance(next, t), 1) == Advance(next, t + 1)
  {
    var q, r := (next + t) / WRAP, (next + t) % WRAP;
    if r == WRAP - 1 {
      Divided(next + t + 1, WRAP, q + 1, 0);
      Divided(r + 1, WRAP, 1, 0);
    } else {
      Divided(next + t + 1, WRAP, q, r + 1);
      Divided(r + 1, WRAP, 0, r + 1);
    }
  }

  /** The choices are those due at the calls, which take this many turns in all. */
  ghost predicate ChosenAsDue(next: Word, calls: seq<Call>, chosen: seq<Option<Backend>>, turns: nat) {
    && |chosen| == |calls| && turns == TurnsBefore(calls, |calls|)
    && forall k :: 0 <= k < |calls| ==> chosen[k] == Due(next, calls, k)
  }

  /** Who is due at the first attempts does not depend on the retries among them. */
  lemma {:induction false} FirstsAreDueAlike(next: Word, calls: seq<Call>, chosen: seq<Option<Backend>>, n: nat)
    requires n <= |calls| == |chosen| && forall k :: 0 <= k < n ==> chosen[k] == Due(next, calls, k)
    ensures ChosenAsDue(next, FirstsOf(calls, n), ChosenFirst(calls, chosen, n), TurnsBefore(calls, n))
  {
    if n > 0 {
      FirstsAreDueAlike(next, calls, chosen, n - 1);
      if calls[n - 1].first {
        OneMoreFirst(next, FirstsOf(calls, n - 1), ChosenFirst(calls, chosen, n - 1), TurnsBefore(calls, n - 1),
                     calls[n - 1]);
        assert ChosenFirst(calls, chosen, n) == ChosenFirst(calls, chosen, n - 1) + [chosen[n - 1]];
        assert FirstsOf(calls, n) == FirstsOf(calls, n - 1) + [calls[n - 1]];
      } else {
        assert ChosenFirst(calls, chosen, n) == ChosenFirst(calls, chosen, n - 1);
        assert FirstsOf(calls, n) == FirstsOf(calls, n - 1);
      }
    }
  }

  lemma OneMoreFirst(next: Word, firsts: seq<Call>, choices: seq<Option<Backend>>, turns: nat, call: Call)
    requires ChosenAsDue(next, firsts, choices, turns) && call.first
    ensures var choice := if call.pool == [] then None else Some(call.pool[Advance(next, turns) % |call.pool|]);
            ChosenAsDue(next, firsts + [call], choices + [choice], turns + if call.pool != [] then 1 else 0)
  {
    TurnsOfPrefix(firsts, call, |firsts|);
    forall k | 0 <= k < |firsts|
      ensures Due(next, firsts + [call], k) == Due(next, firsts, k)
    {
      TurnsOfPrefix(firsts, call, k);
    }
  }

  lemma {:induction false} TurnsOfPrefix(calls: seq<Call>, more: Call, n: nat)
    requires n <= |calls|
    ensures TurnsBefore(calls + [more], n) == TurnsBefore(calls, n)
  {
    if n > 0 {
      TurnsOfPrefix(calls, more, n - 1);
    }
  }

  /**
   Two objects at one turn, one driven through first attempts and retries and one
   through the first attempts alone, choose alike.
   */
  method RetriesTakeNoTurns(strategy: RoundRobin, twin: RoundRobin, calls: seq<Call>)
    returns (mixed: seq<Option<Backend>>, alone: seq<Option<Backend>>)
    requires strategy != twin && strategy.next == twin.next
    modifies strategy, twin
    ensures |mixed| == |calls| && ChosenFirst(calls, mixed, |calls|) == alone
    ensures strategy.next == twin.next
  {
    ghost var next := strategy.next;
    mixed := Drive(strategy, calls);
    alone := Drive(twin, FirstsOf(calls, |calls|));
    FirstsAreDueAlike(next, calls, mixed, |calls|);
  }

  // ------------------------------------------------------------ evenness

  /** How many of `k` consecutive first attempts over `n` backends land on position `i`. */
  function Hits(next: Word, k: nat, n: nat, i: nat): nat
    requires n > 0
  {
    if k == 0 then 0
    else Hits(next, k - 1, n, i) + if Advance(next, k - 1) % n == i then 1 else 0
  }

  /** A stretch is even when every position has its share, rounded down or up. */
  ghost predicate Even(next: Word, k: nat, n: nat)
    requires n > 0
  {
    forall i: nat :: i < n ==> k / n <= Hits(next, k, n, i) <= (k + n - 1) / n
  }

  /** How many of `0, 1, ..., k - 1` leave the remainder `r`. */
  function Taken(k: nat, n: nat, r: int): int
    requires n > 0
  {
    (k + n - 1 - r) / n
  }

  /** Of `k` consecutive numbers from `c`, how many leave the remainder `i`. */
  function Share(c: nat, k: nat, n: nat, i: nat): int
    requires n > 0
  {
    Taken(k, n, (i - c) % n)
  }

  lemma TakenStep(k: nat, n: nat, r: nat)
    requires r < n
    ensures Taken(0, n, r) == 0
    ensures Taken(k + 1, n, r) == Taken(k, n, r) + if (k + n - r) % n == 0 then 1 else 0
  {
    Divided(n - 1 - r, n, 0, n - 1 - r);
    QuotientStep(k + n - 1 - r, n);
  }

  lemma ShareStep(c: nat, k: nat, n: nat, i: nat)
    requires i < n
    ensures Share(c, 0, n, i) == 0
    ensures Share(c, k + 1, n, i) == Share(c, k, n, i) + if (c + k) % n == i then 1 else 0
  {
    TakenStep(k, n, (i - c) % n);
    SameRemainder(c, k, i, (i - c) % n, n);
  }

  lemma QuotientStep(x: int, n: int)
    requires n > 0
    ensures (x + 1) / n == x / n + if (x + 1) % n == 0 then 1 else 0
  {
    var q, r := x / n, x % n;
    assert x == n * q + r;
    if r == n - 1 {
      Divided(x + 1, n, q + 1, 0);
    } else {
      Divided(x + 1, n, q, r + 1);
    }
  }

  lemma Divided(x: int, n: int, q: int, r: int)
    requires n > 0 && 0 <= r < n && x == n * q + r
    ensures x / n == q && x % n == r
  {
    var d := x / n - q;
    assert n * d == r - x % n by {
      assert n * (x / n) == n * q + n * d;
    }
    AtLeastOnce(n, d);
  }

  lemma AtLeastOnce(n: int, d: int)
    requires n > 0
    ensures d >= 1 ==> n * d >= n
    ensures d <= -1 ==> n * d <= -n
  {
  }

  lemma SameRemainder(c: int, k: int, i: int, r: int, n: int)
    requires n > 0 && 0 <= i < n && r == (i - c) % n
    ensures (k + n - r) % n == 0 <==> (c + k) % n == i
  {
    var q := (i - c) / n;
    assert i - c == n * q + r;
    var p := (k + n - r) / n;
    var s := (k + n - r) % n;
    assert k + n - r == n * p + s;
    assert c + k == i + n * (p - q - 1) + s by {
      assert n * (p - q - 1) == n * p - n * q - n;
    }
    if s == 0 {
      Divided(c + k, n, p - q - 1, i);
    } else if (c + k) % n == i {
      var t := (c + k) / n;
      assert s == n * (t - (p - q - 1)) by {
        assert n * (t - (p - q - 1)) == n * t - n * (p - q - 1);
      }
      NotAMultiple(s, n, t - (p - q - 1));
      assert false;
    }
  }

  lemma NotAMultiple(s: int, n: int, d: int)
    requires 0 < s < n
    ensures s != n * d
  {
    if d >= 1 {
      assert n * d >= n;
    } else {
      assert n * d <= 0;
    }
  }

  lemma ShareIsEven(c: nat, k: nat, n: nat, i: nat)
    requires i < n
    ensures k / n <= Share(c, k, n, i) <= (k + n - 1) / n
  {
    TakenIsEven(k, n, (i - c) % n);
  }

  lemma TakenIsEven(k: nat, n: nat, r: nat)
    requires r < n
    ensures k / n <= Taken(k, n, r) <= (k + n - 1) / n
  {
    var some, all := k + n - 1 - r, k + n - 1;
    Monotone(k, some, n);
    Monotone(some, all, n);
  }

  lemma Monotone(a: int, b: int, n: int)
    requires n > 0 && a <= b
    ensures a / n <= b / n
  {
    if b / n + 1 <= a / n {
      Product(n, b / n + 1, a / n);
      assert false;
    }
  }

  lemma Product(n: int, a: int, b: int)
    requires n >= 0 && a <= b
    ensures n * a <= n * b
  {
  }

  /** While the counter's residue is that of a counter that never wraps, hits are shares. */
  lemma {:induction false} HitsAreShares(next: Word, k: nat, n: nat, i: nat)
    requires i < n
    requires forall t :: 0 <= t < k ==> Advance(next, t) % n == (next + t) % n
    ensures Hits(next, k, n, i) == Share(next, k, n, i)
  {
    ShareStep(next, 0, n, i);
    if k > 0 {
      HitsAreShares(next, k - 1, n, i);
      ShareStep(next, k - 1, n, i);
      assert Advance(next, k - 1) % n == (next + (k - 1)) % n;
    }
  }

  /** Any stretch of first attempts that does not cross the wrap of the counter is even. */
  lemma EvenShortOfTheWrap(next: Word, k: nat, n: nat)
    requires n > 0 && next + k <= WRAP
    ensures Even(next, k, n)
  {
    forall i: nat | i < n
      ensures k / n <= Hits(next, k, n, i) <= (k + n - 1) / n
    {
      HitsAreShares(next, k, n, i);
      ShareIsEven(next, k, n, i);
    }
  }

  /** Across the wrap too, exactly when the pool size divides the range of the counter. */
  lemma EvenAcrossTheWrap(n: nat)
    requires n > 0
    ensures (forall next: Word, k: nat :: Even(next, k, n)) <==> 18446744073709551616 % n == 0
  {
    if WRAP % n == 0 {
      forall next: Word, k: nat
        ensures Even(next, k, n)
      {
        forall i: nat | i < n
          ensures k / n <= Hits(next, k, n, i) <= (k + n - 1) / n
        {
          forall t | 0 <= t < k
            ensures Advance(next, t) % n == (next + t) % n
          {
            WrapDoesNotMatter(next + t, n);
          }
          HitsAreShares(next, k, n, i);
          ShareIsEven(next, k, n, i);
        }
      }
    } else {
      var next, k := UnevenStretch(n);
      assert !Even(next, k, n);
    }
  }

  /**
   First attempts on a strategy object go around its pool: after any number of them
   every backend has had its share, rounded down or up, unless the 64-bit counter
   wrapped on the way and the pool's size does not divide 2^64.
   */
  method GoAround(strategy: RoundRobin, pool: seq<Backend>, k: nat) returns (chosen: seq<Backend>)
    requires pool != [] && Distinct(pool)
    modifies strategy
    ensures |chosen| == k && forall b :: b in chosen ==> b in pool
    ensures old(strategy.next) + k <= 18446744073709551616 || 18446744073709551616 % |pool| == 0 ==>
              forall b :: b in pool ==> k / |pool| <= multiset(chosen)[b] <= (k + |pool| - 1) / |pool|
  {
    chosen := [];
    ghost var start: Word := strategy.next;
    for n := 0 to k
      invariant |chosen| == n && strategy.next == Advance(start, n)
      invariant forall t :: 0 <= t < n ==> chosen[t] == pool[Advance(start, t) % |pool|]
    {
      var one := strategy.Select(pool);
      AdvanceOnce(start, n);
      chosen := chosen + [one.value];
    }
    if start + k <= WRAP || WRAP % |pool| == 0 {
      EvenWhenAllowed(start, k, |pool|);
      forall b | b in pool
        ensures k / |pool| <= multiset(chosen)[b] <= (k + |pool| - 1) / |pool|
      {
        var i :| 0 <= i < |pool| && pool[i] == b;
        HitsAreChoices(start, pool, chosen, k, i);
        assert chosen[..k] == chosen;
      }
    }
  }

  lemma EvenWhenAllowed(next: Word, k: nat, n: nat)
    requires n > 0 && (next + k <= WRAP || WRAP % n == 0)
    ensures Even(next, k, n)
  {
    if next + k <= WRAP {
      EvenShortOfTheWrap(next, k, n);
    } else {
      EvenAcrossTheWrap(n);
    }
  }

  lemma {:induction false} HitsAreChoices(next: Word, pool: seq<Backend>, chosen: seq<Backend>, k: nat, i: nat)
    requires k <= |chosen| && i < |pool| && Distinct(pool)
    requires forall t :: 0 <= t < |chosen| ==> chosen[t] == pool[Advance(next, t) % |pool|]
    ensures multiset(chosen[..k])[pool[i]] == Hits(next, k, |pool|, i)
  {
    if k > 0 {
      HitsAreChoices(next, pool, chosen, k - 1, i);
      assert chosen[..k] == chosen[..k - 1] + [chosen[k - 1]];
    }
  }

  lemma WrapDoesNotMatter(x: nat, n: nat)
    requires n > 0 && WRAP % n == 0
    ensures (x % WRAP) % n == x % n
  {
    var q, r := x / WRAP, x % WRAP;
    var p, s := r / n, r % n;
    assert x == n * (WRAP / n * q + p) + s by {
      assert n * (WRAP / n) == WRAP;
      assert n * (WRAP / n * q + p) == n * (WRAP / n) * q + n * p;
    }
    Divided(x, n, WRAP / n * q + p, s);
  }

  /**
   The stretch that starts on the last multiple of `n` and ends just past the wrap hits
   position 0 twice and the last one never.
   */
  lemma UnevenStretch(n: nat) returns (next: Word, k: nat)
    requires n > 0 && WRAP % n != 0
    ensures !Even(next, k, n)
  {
    var r := (WRAP - 1) % n;
    RemainderBeforeWrap(n, r);
    next, k := WRAP - 1 - r, r + 2;
    HitsAreShares(next, r + 1, n, 0);
    HitsAreShares(next, r + 1, n, n - 1);
    FirstAndLast(next, r + 1, n);
    TwiceAndNever(next, k, n);
  }

  lemma RemainderBeforeWrap(n: nat, r: nat)
    requires n > 0 && WRAP % n != 0 && r == (WRAP - 1) % n
    ensures r < n - 1 && 0 <= WRAP - 1 - r && (WRAP - 1 - r) % n == 0
  {
    var q := (WRAP - 1) / n;
    assert WRAP - 1 - r == n * q + 0;
    Divided(WRAP - 1 - r, n, q, 0);
    if r == n - 1 {
      assert WRAP == n * (q + 1) + 0;
      Divided(WRAP, n, q + 1, 0);
      assert false;
    }
  }

  lemma TwiceAndNever(next: Word, k: nat, n: nat)
    requires 2 <= k <= n && Advance(next, k - 1) == 0
    requires Hits(next, k - 1, n, 0) == 1 && Hits(next, k - 1, n, n - 1) == 0
    ensures !Even(next, k, n)
  {
    assert Hits(next, k, n, 0) == 2 && Hits(next, k, n, n - 1) == 0;
    if k == n {
      Divided(k, n, 1, 0);
    } else {
      Divided(k + n - 1, n, 1, k - 1);
    }
  }

  lemma FirstAndLast(c: nat, k: nat, n: nat)
    requires n > 0 && c % n == 0 && 0 < k < n
    ensures Share(c, k, n, 0) == 1 && Share(c, k, n, n - 1) == 0
  {
    var q := c / n;
    Divided(0 - c, n, -q, 0);
    Divided(n - 1 - c, n, -q, n - 1);
    Divided(k + n - 1, n, 1, k - 1);
    Divided(k + n - 1 - (n - 1), n, 0, k);
  }

  // -------------------------------------------- retries around one failure

  /**
   The position each retry lands on among the other backends, over the first `t`
   requests, when the backend at `f` fails every first attempt and each retry is
   made before the next request.
   */
  function RetryLandings(n: nat, f: nat, t: nat): (landings: seq<nat>)
    requires n >= 2
  {
    if t == 0 then []
    else if Advance(0, t - 1) % n == f then RetryLandings(n, f, t - 1) + [Advance(0, t) % (n - 1)]
    else RetryLandings(n, f, t - 1)
  }

  /** One more request makes one more retry when its first attempt lands on the failing backend. */
  lemma NextRetry(n: nat, f: nat, t: nat)
    requires n >= 2 && f < n && t + 1 < WRAP
    ensures RetryLandings(n, f, t + 1) == RetryLandings(n, f, t) + if t % n == f then [(t + 1) % (n - 1)] else []
  {
    NoWrap(t);
    NoWrap(t + 1);
  }

  lemma NoWrap(t: Word)
    ensures Advance(0, t) == t
  {
  }

  lemma FailureStep(n: nat, f: nat, t: nat)
    requires f < n
    ensures Taken(0, n, f) == 0
    ensures Taken(t + 1, n, f) == Taken(t, n, f) + if t % n == f then 1 else 0
  {
    Divided(f - 0, n, 0, f);
    TakenStep(t, n, f);
    SameRemainder(0, t, f, f, n);
  }

  /** Landing `m` is position `f + 1 + m` of the others, around and around. */
  lemma {:induction false} LandingsGoAround(n: nat, f: nat, t: nat)
    requires n >= 2 && f < n && t < WRAP
    ensures |RetryLandings(n, f, t)| == Taken(t, n, f)
    ensures forall m :: 0 <= m < |RetryLandings(n, f, t)| ==> RetryLandings(n, f, t)[m] == (f + 1 + m) % (n - 1)
  {
    if t == 0 {
      FailureStep(n, f, 0);
    } else {
      LandingsGoAround(n, f, t - 1);
      NextRetry(n, f, t - 1);
      FailureStep(n, f, t - 1);
      if (t - 1) % n == f {
        TurnOfRetry(n, f, t, |RetryLandings(n, f, t - 1)|);
      }
    }
  }

  /** Before retry `m` the counter stands at `f + 1 + m * n`, which is `f + 1 + m` modulo `n - 1`. */
  lemma TurnOfRetry(n: nat, f: nat, t: nat, m: nat)
    requires n >= 2 && f < n && t > 0 && (t - 1) % n == f && m == Taken(t - 1, n, f)
    ensures t % (n - 1) == (f + 1 + m) % (n - 1)
  {
    var q := (t - 1) / n;
    assert t - 1 == n * q + f;
    Divided(t - 1 + n - 1 - f, n, q, n - 1);
    var p, r := (f + 1 + m) / (n - 1), (f + 1 + m) % (n - 1);
    assert t == (n - 1) * (q + p) + r by {
      assert n * q == (n - 1) * q + q;
      assert (n - 1) * (q + p) == (n - 1) * q + (n - 1) * p;
    }
    Divided(t, n - 1, q + p, r);
  }

  /** So the landings are even over the other positions too. */
  lemma LandingsAreEven(n: nat, f: nat, t: nat, i: nat)
    requires n >= 2 && f < n && t < WRAP && i < n - 1
    ensures var retries := RetryLandings(n, f, t);
            |retries| / (n - 1) <= Occurrences(retries, |retries|, i) <= (|retries| + n - 2) / (n - 1)
  {
    var retries := RetryLandings(n, f, t);
    LandingsGoAround(n, f, t);
    OccurrencesAreShares(retries, f + 1, |retries|, n - 1, i);
    ShareIsEven(f + 1, |retries|, n - 1, i);
  }

  function Occurrences(s: seq<nat>, k: nat, i: nat): nat
    requires k <= |s|
  {
    if k == 0 then 0 else Occurrences(s, k - 1, i) + if s[k - 1] == i then 1 else 0
  }

  lemma {:induction false} OccurrencesAreShares(s: seq<nat>, c: nat, k: nat, n: nat, i: nat)
    requires i < n && k <= |s| && forall m :: 0 <= m < k ==> s[m] == (c + m) % n
    ensures Occurrences(s, k, i) == Share(c, k, n, i)
  {
    ShareStep(c, 0, n, i);
    if k > 0 {
      OccurrencesAreShares(s, c, k - 1, n, i);
      ShareStep(c, k - 1, n, i);
    }
  }

  // The same, said of the calls themselves: what they are due is what a strategy
  // object gives them (`Drive`).

  function Others(pool: seq<Backend>, f: nat): (others: seq<Backend>)
    requires f < |pool|
    ensures |others| == |pool| - 1
  {
    pool[..f] + pool[f + 1..]
  }

  /**
   The calls of the first `t` requests to a strategy at its first turn: a first
   attempt for each, and a retry over the others right after one that `pool[f]` was
   due for, which it fails.
   */
  ghost function CallsAround(pool: seq<Backend>, f: nat, t: nat): (calls: seq<Call>)
    requires f < |pool|
  {
    if t == 0 then [] else WithRequest(CallsAround(pool, f, t - 1), pool, f)
  }

  ghost function WithRequest(before: seq<Call>, pool: seq<Backend>, f: nat): seq<Call>
    requires f < |pool|
  {
    var calls := before + [Call(pool, true)];
    if Due(0, calls, |before|) == Some(pool[f]) then calls + [Call(Others(pool, f), false)] else calls
  }

  /** What was due at the retries among the first `n` calls. */
  ghost function DueAtRetries(calls: seq<Call>, n: nat): seq<Option<Backend>>
    requires n <= |calls|
  {
    if n == 0 then [] else DueAtRetries(calls, n - 1) + if calls[n - 1].first then [] else [Due(0, calls, n - 1)]
  }

  lemma {:induction false} RetriesOfPrefix(calls: seq<Call>, more: Call, n: nat)
    requires n <= |calls|
    ensures DueAtRetries(calls + [more], n) == DueAtRetries(calls, n)
  {
    if n > 0 {
      RetriesOfPrefix(calls, more, n - 1);
      TurnsOfPrefix(calls, more, n - 1);
    }
  }

  /** One more call: the turns it takes, what it is due, and what that adds to the retries. */
  lemma OneMoreCall(calls: seq<Call>, more: Call)
    requires more.pool != []
    ensures var (after, n, turns) := (calls + [more], |calls|, TurnsBefore(calls, |calls|));
            && TurnsBefore(after, n + 1) == turns + (if more.first then 1 else 0)
            && Due(0, after, n) == Some(more.pool[Advance(0, turns) % |more.pool|])
            && DueAtRetries(after, n + 1) == DueAtRetries(calls, n) + if more.first then [] else [Due(0, after, n)]
  {
    TurnsOfPrefix(calls, more, |calls|);
    RetriesOfPrefix(calls, more, |calls|);
  }

  /** The retries are due at the positions among the others that the schedule gives. */
  lemma {:induction false} RetriesAreTheLandings(pool: seq<Backend>, f: nat, t: nat)
    requires Distinct(pool) && |pool| >= 2 && f < |pool| && t < WRAP
    ensures var (calls, landings) := (CallsAround(pool, f, t), RetryLandings(|pool|, f, t));
            && TurnsBefore(calls, |calls|) == t
            && LandOn(DueAtRetries(calls, |calls|), Others(pool, f), landings)
  {
    if t > 0 {
      hide WithRequest, DueAtRetries, TurnsBefore, LandOn;
      RetriesAreTheLandings(pool, f, t - 1);
      NextRetry(|pool|, f, t - 1);
      OneMoreRequest(CallsAround(pool, f, t - 1), pool, f, t - 1, RetryLandings(|pool|, f, t - 1));
    }
  }

  /** One more request takes one turn, and makes a retry, where the turn then stands, when `pool[f]` was due. */
  lemma OneMoreRequest(before: seq<Call>, pool: seq<Backend>, f: nat, t: nat, landings: seq<nat>)
    requires Distinct(pool) && |pool| >= 2 && f < |pool| && t + 1 < WRAP
    requires TurnsBefore(before, |before|) == t
    requires LandOn(DueAtRetries(before, |before|), Others(pool, f), landings)
    ensures var after := WithRequest(before, pool, f);
            && TurnsBefore(after, |after|) == t + 1
            && LandOn(DueAtRetries(after, |after|), Others(pool, f),
                      landings + if t % |pool| == f then [(t + 1) % (|pool| - 1)] else [])
  {
    hide Due, DueAtRetries, TurnsBefore, Advance;
    var first, n := before + [Call(pool, true)], |pool|;
    OneMoreCall(before, Call(pool, true));
    NoWrap(t);
    assert Due(0, first, |before|) == Some(pool[t % n]);
    if t % n == f {
      NoWrap(t + 1);
      OneMoreCall(first, Call(Others(pool, f), false));
    } else {
      assert pool[t % n] != pool[f];
    }
  }

  /** Each retry is due at the position among the others that its landing gives. */
  ghost predicate LandOn(retries: seq<Option<Backend>>, others: seq<Backend>, landings: seq<nat>) {
    && |retries| == |landings|
    && forall m :: 0 <= m < |retries| ==> landings[m] < |others| && retries[m] == Some(others[landings[m]])
  }

  /**
   When one of n backends fails every first attempt and each retry precedes the next
   request, retry `m` goes to position `f + 1 + m` of the others, around and around.
   */
  lemma RetriesGoAround(pool: seq<Backend>, f: nat, t: nat)
    requires Distinct(pool) && |pool| >= 2 && f < |pool| && t < WRAP
    ensures var retries := DueAtRetries(CallsAround(pool, f, t), |CallsAround(pool, f, t)|);
            && |retries| == Taken(t, |pool|, f)
            && forall m :: 0 <= m < |retries| ==> retries[m] == Some(Others(pool, f)[(f + 1 + m) % (|pool| - 1)])
  {
    RetriesAreTheLandings(pool, f, t);
    LandingsGoAround(|pool|, f, t);
  }

  /** How many of the first `k` went to a backend. */
  ghost function Received(retries: seq<Option<Backend>>, k: nat, b: Backend): nat
    requires k <= |retries|
  {
    if k == 0 then 0 else Received(retries, k - 1, b) + if retries[k - 1] == Some(b) then 1 else 0
  }

  lemma {:induction false} ReceivedByLandings(retries: seq<Option<Backend>>, others: seq<Backend>, landings: seq<nat>,
                                              k: nat, i: nat)
    requires LandOn(retries, others, landings) && Distinct(others) && i < |others| && k <= |retries|
    ensures Received(retries, k, others[i]) == Occurrences(landings, k, i)
  {
    if k > 0 {
      ReceivedByLandings(retries, others, landings, k - 1, i);
      assert landings[k - 1] != i ==> others[landings[k - 1]] != others[i];
    }
  }

  /** Those retries are even over the other backends: each gets its share of them, rounded down or up. */
  lemma RetriesAreEven(pool: seq<Backend>, f: nat, t: nat, i: nat)
    requires Distinct(pool) && |pool| >= 2 && f < |pool| && t < WRAP && i < |pool| - 1
    ensures var retries := DueAtRetries(CallsAround(pool, f, t), |CallsAround(pool, f, t)|);
            var n := |pool| - 1;
            |retries| / n <= Received(retries, |retries|, Others(pool, f)[i]) <= (|retries| + n - 1) / n
  {
    hide CallsAround, DueAtRetries, RetryLandings, Received, Occurrences, Others;
    var retries := DueAtRetries(CallsAround(pool, f, t), |CallsAround(pool, f, t)|);
    var landings := RetryLandings(|pool|, f, t);
    RetriesAreTheLandings(pool, f, t);
    OthersDiffer(pool, f);
    ReceivedByLandings(retries, Others(pool, f), landings, |retries|, i);
    LandingsAreEven(|pool|, f, t, i);
  }

  lemma OthersDiffer(pool: seq<Backend>, f: nat)
    requires Distinct(pool) && f < |pool|
    ensures Distinct(Others(pool, f))
  {
  }
}
