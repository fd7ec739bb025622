/**
 Smooth weighted round robin over a pool that stays fixed, as arithmetic on the
 vector of credits: `x[i]` is the credit of the backend at position `i` and
 `w[i] >= 1` its weight.
 */
module WeightedTurns {
  import opened Sums

  ghost predicate IsFirstMax(x: seq<int>, j: nat) {
    && j < |x|
    && (forall i :: 0 <= i < j ==> x[i] < x[j])
    && (forall i :: j <= i < |x| ==> x[i] <= x[j])
  }

  lemma {:induction false} FirstMaxExists(x: seq<int>) returns (j: nat)
    requires x != []
    ensures IsFirstMax(x, j)
  {
    if |x| == 1 {
      j := 0;
    } else {
      j := FirstMaxExists(x[..|x| - 1]);
      if x[|x| - 1] > x[j] {
        j := |x| - 1;
      }
    }
  }

  lemma FirstMaxIsUnique(x: seq<int>, i: nat, j: nat)
    requires IsFirstMax(x, i) && IsFirstMax(x, j)
    ensures i == j
  {
    assert x[i] == x[j];
  }

  /** The position of the first largest entry. */
  ghost function FirstMax(x: seq<int>): (j: nat)
    requires x != []
    ensures IsFirstMax(x, j)
  {
    assert exists j: nat :: IsFirstMax(x, j) by {
      var j := FirstMaxExists(x);
    }
    var j: nat :| IsFirstMax(x, j);
    j
  }

  /** A pool whose weights are the ones selection uses: never below one. */
  ghost predicate Weights(w: seq<int>) {
    w != [] && forall i :: 0 <= i < |w| ==> 1 <= w[i]
  }

  function Raised(x: seq<int>, w: seq<int>): seq<int>
    requires |x| == |w|
  {
    seq(|x|, i requires 0 <= i < |x| => x[i] + w[i])
  }

  /** Whose turn it is. */
  ghost function Turn(x: seq<int>, w: seq<int>): (j: nat)
    requires |x| == |w| > 0
    ensures j < |x|
  {
    FirstMax(Raised(x, w))
  }

  /** The credits after one selection. */
  ghost function Next(x: seq<int>, w: seq<int>): (y: seq<int>)
    requires |x| == |w| > 0
    ensures |y| == |x|
  {
    var r, j := Raised(x, w), Turn(x, w);
    r[j := r[j] - Sum(w)]
  }

  /** The credits after `t` selections. */
  ghost function Run(x: seq<int>, w: seq<int>, t: nat): (y: seq<int>)
    requires |x| == |w| > 0
    ensures |y| == |x|
  {
    if t == 0 then x else Next(Run(x, w, t - 1), w)
  }

  /** How many of the first `t` selections chose the backend at `i`. */
  ghost function Turns(x: seq<int>, w: seq<int>, t: nat, i: nat): nat
    requires |x| == |w| > 0
  {
    if t == 0 then 0
    else Turns(x, w, t - 1, i) + if Turn(Run(x, w, t - 1), w) == i then 1 else 0
  }

  lemma RunStep(x: seq<int>, w: seq<int>, t: nat)
    requires |x| == |w| > 0
    ensures Run(x, w, t + 1) == Next(Run(x, w, t), w)
  {
  }

  lemma TurnsStep(x: seq<int>, w: seq<int>, t: nat, i: nat)
    requires |x| == |w| > 0
    ensures Turns(x, w, t + 1, i) == Turns(x, w, t, i) + if Turn(Run(x, w, t), w) == i then 1 else 0
  {
  }

  ghost function Zeros(n: nat): (x: seq<int>)
    ensures |x| == n && forall i :: 0 <= i < n ==> x[i] == 0
  {
    seq(n, _ => 0)
  }

  // ------------------------------------------------------------ the ledger

  /** What one selection does to each credit. */
  lemma NextAt(x: seq<int>, w: seq<int>, i: nat)
    requires |x| == |w| && i < |x|
    ensures Next(x, w)[i] == x[i] + w[i] - if Turn(x, w) == i then Sum(w) else 0
  {
  }

  lemma LedgerStep(start: int, now: int, t: nat, share: int, total: int, turns: nat, turn: bool)
    requires now == start + t * share - total * turns
    ensures now + share - (if turn then total else 0)
         == start + (t + 1) * share - total * (turns + if turn then 1 else 0)
  {
  }

  /** A credit is exactly what a backend was owed minus what it was served. */
  lemma {:induction false} Ledger(x: seq<int>, w: seq<int>, t: nat, i: nat)
    requires |x| == |w| > 0 && i < |x|
    ensures Run(x, w, t)[i] == x[i] + t * w[i] - Sum(w) * Turns(x, w, t, i)
  {
    if t > 0 {
      var y := Run(x, w, t - 1);
      Ledger(x, w, t - 1, i);
      NextAt(y, w, i);
      LedgerStep(x[i], y[i], t - 1, w[i], Sum(w), Turns(x, w, t - 1, i), Turn(y, w) == i);
    }
  }

  /** One selection moves credit around without making any. */
  lemma NextKeepsSum(x: seq<int>, w: seq<int>)
    requires |x| == |w| > 0
    ensures Sum(Raised(x, w)) == Sum(x) + Sum(w)
    ensures Sum(Next(x, w)) == Sum(x)
  {
    var r, j := Raised(x, w), Turn(x, w);
    SumOfAdded(x, w, r, Upto(|x|), |x|);
    SumAfterUpdate(r, j, r[j] - Sum(w), Upto(|x|), |x|);
  }

  lemma {:induction false} RunKeepsSum(x: seq<int>, w: seq<int>, t: nat)
    requires |x| == |w| > 0
    ensures Sum(Run(x, w, t)) == Sum(x)
  {
    if t > 0 {
      RunKeepsSum(x, w, t - 1);
      NextKeepsSum(Run(x, w, t - 1), w);
    }
  }

  lemma {:induction false} SumOfZeros(n: nat, s: set<nat>, k: nat)
    requires k <= n
    ensures SumOn(Zeros(n), s, k) == 0
  {
    if k > 0 {
      SumOfZeros(n, s, k - 1);
    }
  }

  /** Every selection is one turn of one backend. */
  lemma {:induction false} TurnsAddUp(x: seq<int>, w: seq<int>, t: nat)
    requires |x| == |w| > 0
    ensures Sum(seq(|x|, i requires 0 <= i < |x| => Turns(x, w, t, i))) == t
  {
    var now := seq(|x|, i requires 0 <= i < |x| => Turns(x, w, t, i));
    if t == 0 {
      assert now == Zeros(|x|);
      SumOfZeros(|x|, Upto(|x|), |x|);
    } else {
      var j := Turn(Run(x, w, t - 1), w);
      var before := seq(|x|, i requires 0 <= i < |x| => Turns(x, w, t - 1, i));
      TurnsAddUp(x, w, t - 1);
      assert now == before[j := before[j] + 1];
      SumAfterUpdate(before, j, before[j] + 1, Upto(|x|), |x|);
    }
  }

  // ------------------------------------------- never a whole turn ahead

  /** The winner's raised credit is at least the average of the raised credits. */
  lemma WinnerIsAboveAverage(x: seq<int>, w: seq<int>)
    requires |x| == |w| > 0
    ensures Sum(x) + Sum(w) <= |x| * Raised(x, w)[Turn(x, w)]
  {
    var r, n := Raised(x, w), |x|;
    NextKeepsSum(x, w);
    SumAtMost(r, Upto(n), n, r[Turn(x, w)]);
    CountOfUpto(n, n);
  }

  lemma TotalIsPositive(w: seq<int>)
    requires Weights(w)
    ensures 1 <= |w| <= Sum(w)
  {
    var neg := seq(|w|, i requires 0 <= i < |w| => -w[i]);
    SumAtMost(neg, Upto(|w|), |w|, -1);
    CountOfUpto(|w|, |w|);
    SumOfAdded(neg, w, Zeros(|w|), Upto(|w|), |w|);
    SumOfZeros(|w|, Upto(|w|), |w|);
  }

  /** The length of a cycle. */
  ghost function Total(w: seq<int>): (n: nat)
    requires Weights(w)
    ensures n == Sum(w) && |w| <= n
  {
    TotalIsPositive(w);
    Sum(w)
  }

  lemma {:induction false} CreditsStayAboveMinusTotal(w: seq<int>, t: nat, i: nat)
    requires Weights(w) && i < |w|
    ensures -Sum(w) < Run(Zeros(|w|), w, t)[i]
  {
    TotalIsPositive(w);
    if t > 0 {
      var x := Run(Zeros(|w|), w, t - 1);
      CreditsStayAboveMinusTotal(w, t - 1, i);
      RunKeepsSum(Zeros(|w|), w, t - 1);
      SumOfZeros(|w|, Upto(|w|), |w|);
      NextStaysAboveMinusTotal(x, w, i);
    }
  }

  lemma NextStaysAboveMinusTotal(x: seq<int>, w: seq<int>, i: nat)
    requires Weights(w) && |x| == |w| && i < |w|
    requires Sum(x) == 0 && -Sum(w) < x[i]
    ensures -Sum(w) < Next(x, w)[i]
  {
    TotalIsPositive(w);
    WinnerIsAboveAverage(x, w);
    NextAt(x, w, i);
  }

  // -------------------------------------- never a harmonic number behind

  /** The harmonic number 1 + 1/2 + ... + 1/n. */
  ghost function H(n: nat): real {
    if n == 0 then 0.0 else H(n - 1) + 1.0 / n as real
  }

  /** The most credit any `k` of `n` backends can hold together. */
  ghost function Cap(total: int, n: nat, k: nat): real {
    k as real * total as real * (H(n) - H(k))
  }

  /** From a bound on `k + 1` backends to one on the `k` that did not win. */
  lemma CapStep(part: int, winner: int, total: int, n: nat, k: nat)
    requires part <= k * winner
    requires (part + winner) as real <= Cap(total, n, k + 1) + total as real
    ensures part as real <= Cap(total, n, k)
  {
    assert (k * winner) as real == k as real * winner as real;
    assert (k + 1) as real == k as real + 1.0;
    var q := 1.0 / (k + 1) as real;
    assert (k as real + 1.0) * q == 1.0;
    CapArithmetic(part as real, winner as real, total as real, k as real, H(n) - H(k + 1), q);
  }

  lemma CapArithmetic(p: real, v: real, c: real, m: real, d: real, q: real)
    requires 0.0 <= m && (m + 1.0) * q == 1.0
    requires p <= m * v && p + v <= (m + 1.0) * c * d + c
    ensures p <= m * c * (d + q)
  {
    var n, a := m + 1.0, m * c;
    OneMoreTimes(m, p, v);
    ScaledUp(m, p + v, n * c * d + c);
    Regrouped(m, n, c, d);
    Cancelled(n, q, a);
    Distributed(n, a * d, a * q);
    ScaledDown(n, p, a * d + a * q);
    Distributed(a, d, q);
  }

  lemma OneMoreTimes(m: real, p: real, v: real)
    requires p <= m * v
    ensures (m + 1.0) * p <= m * (p + v)
  {
    Distributed(m, p, v);
  }

  lemma ScaledUp(c: real, a: real, b: real)
    requires 0.0 <= c && a <= b
    ensures c * a <= c * b
  {
    NonNegative(c, b - a);
  }

  lemma ScaledDown(c: real, a: real, b: real)
    requires 0.0 < c && c * a <= c * b
    ensures a <= b
  {
    if b < a {
      Positive(c, a - b);
    }
  }

  lemma Positive(a: real, b: real)
    requires 0.0 < a && 0.0 < b
    ensures 0.0 < a * b
  {
  }

  lemma Regrouped(m: real, n: real, c: real, d: real)
    ensures m * (n * c * d + c) == n * ((m * c) * d) + m * c
  {
  }

  lemma Cancelled(n: real, q: real, a: real)
    requires n * q == 1.0
    ensures n * (a * q) == a
  {
    assert n * (a * q) == a * (n * q);
  }

  lemma Distributed(c: real, a: real, b: real)
    ensures c * (a + b) == c * a + c * b
  {
  }

  /** No group of `k` backends is ever owed more than `Cap` together. */
  lemma {:induction false} GroupCredit(w: seq<int>, t: nat, s: set<nat>)
    requires Weights(w)
    requires forall i :: i in s ==> i < |w|
    ensures SumOn(Run(Zeros(|w|), w, t), s, |w|) as real <= Cap(Sum(w), |w|, CountIn(s, |w|))
  {
    if t == 0 {
      NoCreditYet(w, s);
    } else {
      var x := Run(Zeros(|w|), w, t - 1);
      var j := Turn(x, w);
      if j in s {
        GroupCredit(w, t - 1, s);
        GroupWithWinner(x, w, s);
      } else {
        GroupCredit(w, t - 1, s + {j});
        GroupWithoutWinner(x, w, s);
      }
    }
  }

  lemma NoCreditYet(w: seq<int>, s: set<nat>)
    requires Weights(w)
    ensures SumOn(Zeros(|w|), s, |w|) as real <= Cap(Sum(w), |w|, CountIn(s, |w|))
  {
    SumOfZeros(|w|, s, |w|);
    TotalIsPositive(w);
    CountInIsBounded(s, |w|);
    HarmonicGrows(CountIn(s, |w|), |w|);
    NonNegative(CountIn(s, |w|) as real * Sum(w) as real, H(|w|) - H(CountIn(s, |w|)));
  }

  lemma NonNegative(a: real, b: real)
    requires 0.0 <= a && 0.0 <= b
    ensures 0.0 <= a * b
  {
  }

  lemma GroupWithWinner(x: seq<int>, w: seq<int>, s: set<nat>)
    requires Weights(w) && |x| == |w| && Turn(x, w) in s
    ensures SumOn(Next(x, w), s, |w|) <= SumOn(x, s, |w|)
  {
    var r, j := Raised(x, w), Turn(x, w);
    SumOfAdded(x, w, r, s, |w|);
    SumAfterUpdate(r, j, r[j] - Sum(w), s, |w|);
    PartAtMostWhole(w, s, |w|);
  }

  lemma GroupWithoutWinner(x: seq<int>, w: seq<int>, s: set<nat>)
    requires Weights(w) && |x| == |w| && Turn(x, w) !in s
    requires SumOn(x, s + {Turn(x, w)}, |w|) as real <= Cap(Sum(w), |w|, CountIn(s + {Turn(x, w)}, |w|))
    ensures SumOn(Next(x, w), s, |w|) as real <= Cap(Sum(w), |w|, CountIn(s, |w|))
  {
    var r, j, n := Raised(x, w), Turn(x, w), |w|;
    SumOfAdded(x, w, r, s + {j}, n);
    PartAtMostWhole(w, s + {j}, n);
    SumWithOneMore(r, j, s, n);
    SumAtMost(r, s, n, r[j]);
    SumAfterUpdate(r, j, r[j] - Sum(w), s, n);
    CapStep(SumOn(r, s, n), r[j], Sum(w), n, CountIn(s, n));
  }

  lemma {:induction false} CountInIsBounded(s: set<nat>, n: nat)
    ensures CountIn(s, n) <= n
  {
    if n > 0 {
      CountInIsBounded(s, n - 1);
    }
  }

  lemma {:induction false} HarmonicGrows(k: nat, n: nat)
    requires k <= n
    ensures H(k) <= H(n)
  {
    if k < n {
      HarmonicGrows(k, n - 1);
    }
  }

  lemma {:induction false} CountOfOne(i: nat, n: nat)
    ensures CountIn({i}, n) == if i < n then 1 else 0
  {
    if n > 0 {
      CountOfOne(i, n - 1);
    }
  }

  lemma {:induction false} SumOfOne(x: seq<int>, i: nat, n: nat)
    requires i < |x| && n <= |x|
    ensures SumOn(x, {i}, n) == if i < n then x[i] else 0
  {
    if n > 0 {
      SumOfOne(x, i, n - 1);
    }
  }

  /** After `t` selections, less than one turn ahead of the share and at most 1/2 + ... + 1/n behind it. */
  ghost predicate NearItsShare(total: int, n: nat, weight: int, t: nat, turns: nat) {
    && total * turns - t * weight < total
    && (t * weight - total * turns) as real <= total as real * (H(n) - 1.0)
  }

  /** On fresh credits every prefix of selections keeps every backend near its share. */
  lemma SharesStayClose(w: seq<int>, t: nat, i: nat)
    requires Weights(w) && i < |w|
    ensures NearItsShare(Sum(w), |w|, w[i], t, Turns(Zeros(|w|), w, t, i))
  {
    Ledger(Zeros(|w|), w, t, i);
    CreditsStayAboveMinusTotal(w, t, i);
    SingleCredit(w, t, i);
  }

  lemma SingleCredit(w: seq<int>, t: nat, i: nat)
    requires Weights(w) && i < |w|
    ensures Run(Zeros(|w|), w, t)[i] as real <= Sum(w) as real * (H(|w|) - 1.0)
  {
    GroupCredit(w, t, {i});
    GroupOfOne(Run(Zeros(|w|), w, t), w, i);
  }

  lemma GroupOfOne(x: seq<int>, w: seq<int>, i: nat)
    requires |x| == |w| && i < |w|
    requires SumOn(x, {i}, |w|) as real <= Cap(Sum(w), |w|, CountIn({i}, |w|))
    ensures x[i] as real <= Sum(w) as real * (H(|w|) - 1.0)
  {
    CountOfOne(i, |w|);
    SumOfOne(x, i, |w|);
    CapOfOne(Sum(w), |w|);
  }

  lemma CapOfOne(total: int, n: nat)
    ensures Cap(total, n, 1) == total as real * (H(n) - 1.0)
  {
    assert H(1) == H(0) + 1.0 / 1.0;
  }

  // --------------------------------------------------------- the exact cycle

  /** After one cycle every credit is zero again and everyone had exactly its weight in turns. */
  lemma OneCycle(w: seq<int>)
    requires Weights(w)
    ensures Run(Zeros(|w|), w, Total(w)) == Zeros(|w|)
    ensures forall i :: 0 <= i < |w| ==> Turns(Zeros(|w|), w, Total(w), i) == w[i]
  {
    var n, total := |w|, Total(w);
    var turns := seq(n, i requires 0 <= i < n => Turns(Zeros(n), w, total, i));
    forall i | 0 <= i < n
      ensures turns[i] <= w[i]
    {
      AtMostItsWeight(w, i);
    }
    TurnsAddUp(Zeros(n), w, total);
    EqualSumsForceEquality(turns, w, n);
    forall i | 0 <= i < n
      ensures Turns(Zeros(n), w, total, i) == w[i] && Run(Zeros(n), w, total)[i] == 0
    {
      assert turns[i] == w[i];
      Ledger(Zeros(n), w, total, i);
    }
  }

  lemma AtMostItsWeight(w: seq<int>, i: nat)
    requires Weights(w) && i < |w|
    ensures Turns(Zeros(|w|), w, Total(w), i) <= w[i]
  {
    var total := Total(w);
    Ledger(Zeros(|w|), w, total, i);
    CreditsStayAboveMinusTotal(w, total, i);
    AtMostByLedger(total, w[i], Turns(Zeros(|w|), w, total, i));
  }

  lemma AtMostByLedger(total: int, share: int, turns: int)
    requires total > 0 && -total < total * share - total * turns
    ensures turns <= share
  {
    if share + 1 <= turns {
      LargerFactor(total, share + 1, turns);
      assert false;
    }
  }

  lemma LargerFactor(c: int, a: int, b: int)
    requires c >= 0 && a <= b
    ensures c * a <= c * b
  {
  }

  lemma {:induction false} RunRestarts(x: seq<int>, w: seq<int>, s: nat, t: nat, u: nat)
    requires |x| == |w| > 0 && u == s + t
    ensures Run(x, w, u) == Run(Run(x, w, s), w, t)
    decreases t
  {
    if t > 0 {
      RunRestarts(x, w, s, t - 1, u - 1);
      RunStep(x, w, u - 1);
    }
  }

  /**
   The sequence of turns has period W, and every window of W consecutive
   selections holds exactly `w[i]` turns of backend `i`.
   */
  lemma EveryWindowIsExact(w: seq<int>, t: nat, i: nat)
    requires Weights(w) && i < |w|
    ensures Turn(Run(Zeros(|w|), w, t + Total(w)), w) == Turn(Run(Zeros(|w|), w, t), w)
    ensures Turns(Zeros(|w|), w, t + Total(w), i) - Turns(Zeros(|w|), w, t, i) == w[i]
  {
    var z, total := Zeros(|w|), Total(w);
    OneCycle(w);
    RunRestarts(z, w, total, t, t + total);
    Ledger(z, w, t, i);
    Ledger(z, w, t + total, i);
    WindowCount(w[i], total, t, Turns(z, w, t, i), Turns(z, w, t + total, i));
  }

  lemma WindowCount(share: int, total: int, t: int, a: int, b: int)
    requires total > 0
    requires (t + total) * share - total * b == t * share - total * a
    ensures b - a == share
  {
    assert total * (b - a) == total * share;
    if b - a < share {
      LargerFactor(total, b - a + 1, share);
      assert false;
    } else if share < b - a {
      LargerFactor(total, share + 1, b - a);
      assert false;
    }
  }

  // -------------------------------------------------- from leftover credits

  function Debts(x: seq<int>): (d: seq<int>)
    ensures |d| == |x|
  {
    seq(|x|, i requires 0 <= i < |x| => if x[i] < 0 then -x[i] else 0)
  }

  /** Below every credit a run can reach: all debts at the start, or what an average winner is left with. */
  ghost function Floor(x: seq<int>, w: seq<int>): int
    requires |x| == |w| > 0
  {
    var average := (Sum(x) + Sum(w)) / |x| - Sum(w);
    var debts := -Sum(Debts(x));
    if average < debts then average else debts
  }

  lemma {:induction false} CreditsStayAboveFloor(x: seq<int>, w: seq<int>, t: nat, i: nat)
    requires Weights(w) && |x| == |w| && i < |x|
    ensures Floor(x, w) <= Run(x, w, t)[i]
    decreases t
  {
    if t == 0 {
      StartsAboveFloor(x, w, i);
    } else {
      CreditsStayAboveFloor(x, w, t - 1, i);
      RunKeepsSum(x, w, t - 1);
      RunStep(x, w, t - 1);
      NextStaysAboveFloor(x, Run(x, w, t - 1), w, i);
    }
  }

  lemma StartsAboveFloor(x: seq<int>, w: seq<int>, i: nat)
    requires Weights(w) && |x| == |w| && i < |x|
    ensures Floor(x, w) <= x[i] && Floor(x, w) <= 0
  {
    PartAtMostWhole(Debts(x), {i}, |x|);
    SumOfOne(Debts(x), i, |x|);
  }

  lemma NextStaysAboveFloor(x: seq<int>, y: seq<int>, w: seq<int>, i: nat)
    requires Weights(w) && |x| == |y| == |w| && i < |x|
    requires Sum(y) == Sum(x) && Floor(x, w) <= y[i]
    ensures Floor(x, w) <= Next(y, w)[i]
  {
    WinnerIsAboveAverage(y, w);
    AverageRoundsDown(Sum(x) + Sum(w), |x|, Raised(y, w)[Turn(y, w)]);
    NextAt(y, w, i);
  }

  lemma AverageRoundsDown(sum: int, n: int, v: int)
    requires n > 0 && sum <= n * v
    ensures sum / n <= v
  {
    if v + 1 <= sum / n {
      LargerFactor(n, v + 1, sum / n);
      assert false;
    }
  }

  /** A bound on how far shares can drift, fixed by the leftover credits and the weights alone. */
  ghost function Drift(x: seq<int>, w: seq<int>): int
    requires |x| == |w| > 0
  {
    Sum(x) - |x| * Floor(x, w)
  }

  /**
   From whatever credits earlier pools left behind, on a pool that then stays
   fixed, every backend's turns stay within a constant of its share for ever.
   */
  lemma DriftIsBounded(x: seq<int>, w: seq<int>, t: nat, i: nat)
    requires Weights(w) && |x| == |w| && i < |x|
    ensures -Drift(x, w) <= Sum(w) * Turns(x, w, t, i) - t * w[i] <= Drift(x, w)
  {
    Ledger(x, w, t, i);
    CreditsAreConfined(x, w, t, i);
    StartsConfined(x, w, i);
  }

  lemma StartsConfined(x: seq<int>, w: seq<int>, i: nat)
    requires Weights(w) && |x| == |w| && i < |x|
    ensures Floor(x, w) <= x[i] <= Drift(x, w) + Floor(x, w)
  {
    CreditsAreConfined(x, w, 0, i);
  }

  /** Each credit stays between the floor and `Drift` above it. */
  lemma CreditsAreConfined(x: seq<int>, w: seq<int>, t: nat, i: nat)
    requires Weights(w) && |x| == |w| && i < |x|
    ensures Floor(x, w) <= Run(x, w, t)[i] <= Drift(x, w) + Floor(x, w)
  {
    var y, low := Run(x, w, t), Floor(x, w);
    forall k | 0 <= k < |x|
      ensures low <= y[k]
    {
      CreditsStayAboveFloor(x, w, t, k);
    }
    RunKeepsSum(x, w, t);
    OneIsAtMostTheExcess(y, low, i);
  }

  lemma OneIsAtMostTheExcess(y: seq<int>, low: int, i: nat)
    requires i < |y| && forall k :: 0 <= k < |y| ==> low <= y[k]
    ensures y[i] <= Sum(y) - |y| * low + low
  {
    var n := |y|;
    var excess := seq(n, k requires 0 <= k < n => y[k] - low);
    var flat := seq(n, _ => low);
    SumOfAdded(excess, flat, y, Upto(n), n);
    SumOfFlat(n, low, n);
    PartAtMostWhole(excess, {i}, n);
    SumOfOne(excess, i, n);
  }

  lemma {:induction false} SumOfFlat(n: nat, v: int, k: nat)
    requires k <= n
    ensures SumOn(seq(n, _ => v), Upto(n), k) == k * v
  {
    if k > 0 {
      SumOfFlat(n, v, k - 1);
    }
  }
}
