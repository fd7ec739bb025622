/** Sums of an integer vector over a set of its positions. */
module Sums {

  /** The sum of `x[i]` over the positions `i < n` that lie in `s`. */
  ghost function SumOn(x: seq<int>, s: set<nat>, n: nat): int
    requires n <= |x|
  {
    if n == 0 then 0 else SumOn(x, s, n - 1) + if n - 1 in s then x[n - 1] else 0
  }

  /** How many positions below `n` lie in `s`. */
  ghost function CountIn(s: set<nat>, n: nat): nat {
    if n == 0 then 0 else CountIn(s, n - 1) + if n - 1 in s then 1 else 0
  }

  /** Every position below `n`. */
  ghost function Upto(n: nat): (s: set<nat>)
    ensures forall i: nat :: i in s <==> i < n
  {
    if n == 0 then {} else Upto(n - 1) + {n - 1}
  }

  ghost function Sum(x: seq<int>): int {
    SumOn(x, Upto(|x|), |x|)
  }

  lemma SumOfOneMore(x: seq<int>, n: nat)
    requires n < |x|
    ensures SumOn(x, Upto(|x|), n + 1) == SumOn(x, Upto(|x|), n) + x[n]
  {
  }

  lemma {:induction false} SumOfAdded(x: seq<int>, y: seq<int>, z: seq<int>, s: set<nat>, n: nat)
    requires n <= |x| && |x| == |y| == |z|
    requires forall i :: 0 <= i < n ==> z[i] == x[i] + y[i]
    ensures SumOn(z, s, n) == SumOn(x, s, n) + SumOn(y, s, n)
  {
    if n > 0 {
      SumOfAdded(x, y, z, s, n - 1);
    }
  }

  lemma {:induction false} SumAfterUpdate(x: seq<int>, j: nat, v: int, s: set<nat>, n: nat)
    requires j < |x| && n <= |x|
    ensures SumOn(x[j := v], s, n) == SumOn(x, s, n) + if j in s && j < n then v - x[j] else 0
  {
    if n > 0 {
      SumAfterUpdate(x, j, v, s, n - 1);
    }
  }

  lemma {:induction false} SumWithOneMore(x: seq<int>, j: nat, s: set<nat>, n: nat)
    requires j !in s && n <= |x|
    ensures SumOn(x, s + {j}, n) == SumOn(x, s, n) + if j < n then x[j] else 0
    ensures CountIn(s + {j}, n) == CountIn(s, n) + if j < n then 1 else 0
  {
    if n > 0 {
      SumWithOneMore(x, j, s, n - 1);
    }
  }

  lemma {:induction false} SumAtMost(x: seq<int>, s: set<nat>, n: nat, top: int)
    requires n <= |x|
    requires forall i :: 0 <= i < n && i in s ==> x[i] <= top
    ensures SumOn(x, s, n) <= CountIn(s, n) * top
  {
    if n > 0 {
      SumAtMost(x, s, n - 1, top);
    }
  }

  lemma {:induction false} SumIsMonotone(x: seq<int>, y: seq<int>, s: set<nat>, n: nat)
    requires n <= |x| && n <= |y|
    requires forall i :: 0 <= i < n ==> x[i] <= y[i]
    ensures SumOn(x, s, n) <= SumOn(y, s, n)
  {
    if n > 0 {
      SumIsMonotone(x, y, s, n - 1);
    }
  }

  /** Over non-negative entries a part never exceeds the whole. */
  lemma {:induction false} PartAtMostWhole(x: seq<int>, s: set<nat>, n: nat)
    requires n <= |x|
    requires forall i :: 0 <= i < n ==> 0 <= x[i]
    ensures 0 <= SumOn(x, s, n) <= SumOn(x, Upto(|x|), n)
  {
    if n > 0 {
      PartAtMostWhole(x, s, n - 1);
    }
  }

  /** No non-negative entry exceeds the sum. */
  lemma {:induction false} EntryAtMostSum(x: seq<int>, i: nat, n: nat)
    requires i < n <= |x|
    requires forall k :: 0 <= k < n ==> 0 <= x[k]
    ensures 0 <= x[i] <= SumOn(x, Upto(|x|), n)
  {
    PartAtMostWhole(x, {}, n);
    if i < n - 1 {
      EntryAtMostSum(x, i, n - 1);
    } else {
      PartAtMostWhole(x, {}, n - 1);
    }
  }

  lemma {:induction false} CountOfUpto(m: nat, n: nat)
    requires n <= m
    ensures CountIn(Upto(m), n) == n
  {
    if n > 0 {
      CountOfUpto(m, n - 1);
    }
  }

  /** Two vectors ordered entry by entry, with the same sum, are the same. */
  lemma {:induction false} EqualSumsForceEquality(x: seq<int>, y: seq<int>, n: nat)
    requires n <= |x| == |y|
    requires forall i :: 0 <= i < n ==> x[i] <= y[i]
    requires SumOn(x, Upto(|x|), n) == SumOn(y, Upto(|y|), n)
    ensures forall i :: 0 <= i < n ==> x[i] == y[i]
  {
    if n > 0 {
      SumIsMonotone(x, y, Upto(|x|), n - 1);
      EqualSumsForceEquality(x, y, n - 1);
    }
  }
}
