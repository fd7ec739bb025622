/** Smooth weighted round robin: the credit map of `WeightedRoundRobin.Select` over changing pools. */
module WeightedRoundRobin {
  import opened Basics
  import opened Backends
  import opened Sums
  import opened WeightedTurns

  /** A backend as one selection sees it: its address and the weight it is credited with. */
  datatype Share = Share(addr: Str, weight: int)

  /** Weights below one are credited as one. */
  function Shares(sight: Sight, pool: seq<Backend>): (shares: seq<Share>)
    ensures |shares| == |pool|
    ensures forall i :: 0 <= i < |pool| ==>
              && shares[i].addr == pool[i].addr
              && shares[i].weight == if sight.Weight(pool[i]) < 1 then 1 else sight.Weight(pool[i])
  {
    seq(|pool|, i requires 0 <= i < |pool| => Share(pool[i].addr, Max(sight.Weight(pool[i]), 1)))
  }

  ghost predicate ValidPool(pool: seq<Share>) {
    && (forall i :: 0 <= i < |pool| ==> 1 <= pool[i].weight)
    && (forall i, j :: 0 <= i < j < |pool| ==> pool[i].addr != pool[j].addr)
  }

  function WeightsOf(pool: seq<Share>): (w: seq<int>)
    ensures |w| == |pool| && forall i :: 0 <= i < |pool| ==> w[i] == pool[i].weight
  {
    seq(|pool|, i requires 0 <= i < |pool| => pool[i].weight)
  }

  type Credits = map<Str, int>

  /** An address without an entry has no credit, as a Go map answers. */
  function CreditOf(credit: Credits, addr: Str): int {
    if addr in credit then credit[addr] else 0
  }

  /** Adding to an entry, as Go's `+=` does, which makes a missing one. */
  function Added(credit: Credits, addr: Str, amount: int): Credits {
    credit[addr := CreditOf(credit, addr) + amount]
  }

  /** The credits of a pool, position by position. */
  function CreditsOf(credit: Credits, pool: seq<Share>): (x: seq<int>)
    ensures |x| == |pool| && forall i :: 0 <= i < |pool| ==> x[i] == CreditOf(credit, pool[i].addr)
  {
    seq(|pool|, i requires 0 <= i < |pool| => CreditOf(credit, pool[i].addr))
  }

  /** The credits once the first `n` backends of the pool have been raised. */
  ghost function Raise(credit: Credits, pool: seq<Share>, n: nat): Credits
    requires n <= |pool|
  {
    if n == 0 then credit else Added(Raise(credit, pool, n - 1), pool[n - 1].addr, pool[n - 1].weight)
  }

  /** Which backend a selection chooses: the first with the most credit once all are raised. */
  ghost function Chosen(credit: Credits, pool: seq<Share>): (j: nat)
    requires pool != []
    ensures j < |pool|
  {
    Turn(CreditsOf(credit, pool), WeightsOf(pool))
  }

  /** The credit map after a selection: all are raised, and the chosen one pays the total weight. */
  ghost function AfterSelect(credit: Credits, pool: seq<Share>): Credits
    requires pool != []
  {
    Added(Raise(credit, pool, |pool|), pool[Chosen(credit, pool)].addr, -Sum(WeightsOf(pool)))
  }

  /** Where the single pass over the pool stands: the credits, the total weight, and the best so far. */
  datatype Pass = Pass(credit: Credits, total: int, best: Option<nat>)

  ghost function PassBackend(pass: Pass, pool: seq<Share>, i: nat): Pass
    requires i < |pool| && (pass.best.Some? ==> pass.best.value < |pool|)
  {
    var credit := Added(pass.credit, pool[i].addr, pool[i].weight);
    var better := pass.best.None? || CreditOf(credit, pool[i].addr) > CreditOf(credit, pool[pass.best.value].addr);
    Pass(credit, pass.total + pool[i].weight, if better then Some(i) else pass.best)
  }

  /** A pass from the credits `start` to the end of the pool, as the places where it stands on the way. */
  ghost predicate IsTrail(trail: seq<Pass>, start: Credits, pool: seq<Share>) {
    && |trail| == |pool| + 1 && trail[0] == Pass(start, 0, None)
    && forall i :: 0 <= i < |pool| ==> GoesOn(trail, pool, i)
  }

  ghost predicate GoesOn(trail: seq<Pass>, pool: seq<Share>, i: nat)
    requires i < |pool| && i + 1 < |trail|
  {
    && (trail[i].best.Some? ==> trail[i].best.value < |pool|)
    && trail[i + 1] == PassBackend(trail[i], pool, i)
  }

  class WeightedRoundRobin {
    var credit: Credits

    constructor ()
      ensures credit == map[]
    {
      credit := map[];
    }

    /**
     One pass raises every backend and compares it with the best so far, while
     the backends after it have not been raised yet; the outcome is that of
     raising all of them first. An empty pool is refused and changes nothing.
     */
    method Select(pool: seq<Backend>, ghost sight: Sight) returns (chosen: Option<Backend>)
      requires Distinct(Addrs(pool)) && Sees(sight, pool)
      modifies `credit
      ensures pool == [] ==> chosen == None && credit == old(credit)
      ensures pool != [] ==> chosen == Some(pool[Chosen(old(credit), Shares(sight, pool))])
      ensures pool != [] ==> credit == AfterSelect(old(credit), Shares(sight, pool))
      ensures pool != [] ==> exists j :: 0 <= j < |pool| && chosen == Some(pool[j]) && Leads(old(credit), pool, j)
      ensures pool != [] ==> forall b :: b in pool ==>
                CreditOf(credit, b.addr)
                == WithWeight(old(credit), b) - if chosen == Some(b) then WeightOfAll(pool) else 0
      ensures forall a :: a !in Addrs(pool) ==>
                (a in credit <==> a in old(credit)) && CreditOf(credit, a) == CreditOf(old(credit), a)
    {
      hide *;
      if |pool| == 0 {
        return None;
      }
      ValidShares(sight, pool);
      SharesAreSeen(sight, pool);
      SelectInPlainWords(credit, sight, pool);
      ghost var trail := WholePool(credit, Shares(sight, pool));
      var best, totalWeight := RaiseAndCompare(pool, Shares(sight, pool), trail);
      credit := Added(credit, best.addr, -totalWeight);
      return Some(best);
    }

    /** The loop: raises every backend and keeps the best so far. */
    method RaiseAndCompare(pool: seq<Backend>, ghost shares: seq<Share>,
                           ghost trail: seq<Pass>) returns (best: Backend, totalWeight: int)
      requires pool != [] && |shares| == |pool| && IsTrail(trail, credit, shares)
      requires forall k :: 0 <= k < |pool| ==>
                 && shares[k].addr == pool[k].addr
                 && shares[k].weight == if pool[k].weight < 1 then 1 else pool[k].weight
      modifies `credit
      ensures var end := trail[|pool|];
              && credit == end.credit && totalWeight == end.total
              && end.best.Some? && end.best.value < |pool| && best == pool[end.best.value]
    {
      best, totalWeight := pool[0], 0;
      for i := 0 to |pool|
        invariant credit == trail[i].credit && totalWeight == trail[i].total
        invariant if i == 0 then trail[i].best.None?
                  else trail[i].best.Some? && trail[i].best.value < |pool| && best == pool[trail[i].best.value]
      {
        assert GoesOn(trail, shares, i);
        var weight := pool[i].weight;
        if weight < 1 {
          weight := 1;
        }
        totalWeight := totalWeight + weight;
        credit := Added(credit, pool[i].addr, weight);
        if i == 0 || CreditOf(credit, pool[i].addr) > CreditOf(credit, best.addr) {
          best := pool[i];
        }
      }
    }
  }

  /** What a backend competes with: its credit and its weight, of which less than one counts as one. */
  ghost function WithWeight(credit: Credits, b: Backend): int
    reads b`weight
  {
    CreditOf(credit, b.addr) + if b.weight < 1 then 1 else b.weight
  }

  /** The backend at `j` has the most of it, and is the first that has. */
  ghost predicate Leads(credit: Credits, pool: seq<Backend>, j: nat)
    requires j < |pool|
    reads (set b | b in pool)`weight
  {
    && (forall i :: 0 <= i < j ==> WithWeight(credit, pool[i]) < WithWeight(credit, pool[j]))
    && (forall i :: j <= i < |pool| ==> WithWeight(credit, pool[i]) <= WithWeight(credit, pool[j]))
  }

  lemma SharesAreSeen(sight: Sight, pool: seq<Backend>)
    requires Sees(sight, pool)
    ensures forall k :: 0 <= k < |pool| ==>
              && Shares(sight, pool)[k].addr == pool[k].addr
              && Shares(sight, pool)[k].weight == if pool[k].weight < 1 then 1 else pool[k].weight
  {
  }

  lemma SelectInPlainWords(credit: Credits, sight: Sight, pool: seq<Backend>)
    requires pool != [] && Distinct(Addrs(pool)) && Sees(sight, pool)
    ensures var (j, after) := (Chosen(credit, Shares(sight, pool)), AfterSelect(credit, Shares(sight, pool)));
            && Leads(credit, pool, j)
            && (forall b :: b in pool ==>
                  CreditOf(after, b.addr) == WithWeight(credit, b) - if pool[j] == b then WeightOfAll(pool) else 0)
            && (forall a :: a !in Addrs(pool) ==>
                  (a in after <==> a in credit) && CreditOf(after, a) == CreditOf(credit, a))
  {
    var shares := Shares(sight, pool);
    ValidShares(sight, pool);
    LeadsWhenChosen(credit, sight, pool);
    forall b | b in pool
      ensures CreditOf(AfterSelect(credit, shares), b.addr)
           == WithWeight(credit, b) - if pool[Chosen(credit, shares)] == b then WeightOfAll(pool) else 0
    {
      CreditAfterwards(credit, sight, pool, b);
    }
    forall a | a !in Addrs(pool)
      ensures a in AfterSelect(credit, shares) <==> a in credit
      ensures CreditOf(AfterSelect(credit, shares), a) == CreditOf(credit, a)
    {
      assert forall i :: 0 <= i < |shares| ==> shares[i].addr == Addrs(pool)[i];
      OutsidersAreUntouched(credit, shares, a);
    }
  }

  lemma LeadsWhenChosen(credit: Credits, sight: Sight, pool: seq<Backend>)
    requires pool != [] && Sees(sight, pool)
    ensures Leads(credit, pool, Chosen(credit, Shares(sight, pool)))
  {
    var shares := Shares(sight, pool);
    var raised := Raised(CreditsOf(credit, shares), WeightsOf(shares));
    forall i | 0 <= i < |pool|
      ensures raised[i] == WithWeight(credit, pool[i])
    {
      assert pool[i] in pool;
    }
    assert IsFirstMax(raised, Chosen(credit, shares));
  }

  lemma CreditAfterwards(credit: Credits, sight: Sight, pool: seq<Backend>, b: Backend)
    requires pool != [] && Distinct(Addrs(pool)) && Sees(sight, pool) && b in pool
    ensures CreditOf(AfterSelect(credit, Shares(sight, pool)), b.addr)
         == WithWeight(credit, b)
            - if pool[Chosen(credit, Shares(sight, pool))] == b then WeightOfAll(pool) else 0
  {
    hide WeightOfAll, Sum, Chosen, AfterSelect, Distinct;
    var shares := Shares(sight, pool);
    var i :| 0 <= i < |pool| && pool[i] == b;
    ValidShares(sight, pool);
    DistinctBackends(pool);
    SharesAddUp(sight, pool);
    SelectIsNext(credit, shares);
    NextAt(CreditsOf(credit, shares), WeightsOf(shares), i);
    ChosenIsTurn(credit, shares);
    SamePosition(pool, i, Chosen(credit, shares));
  }

  lemma ChosenIsTurn(credit: Credits, shares: seq<Share>)
    requires shares != []
    ensures Chosen(credit, shares) == Turn(CreditsOf(credit, shares), WeightsOf(shares))
  {
  }

  lemma SamePosition(pool: seq<Backend>, i: nat, j: nat)
    requires Distinct(pool) && i < |pool| && j < |pool|
    ensures pool[i] == pool[j] <==> i == j
  {
  }

  /** The credit a backend competes with: its own, raised by its weight. */
  ghost function OnceRaised(credit: Credits, share: Share): int {
    CreditOf(credit, share.addr) + share.weight
  }

  /** The best so far after the first `n` backends: a later one has to beat it outright. */
  ghost function BestOf(credit: Credits, pool: seq<Share>, n: nat): (j: nat)
    requires 0 < n <= |pool|
    ensures j < n
  {
    if n == 1 then 0 else
      var at := BestOf(credit, pool, n - 1);
      if OnceRaised(credit, pool[n - 1]) > OnceRaised(credit, pool[at]) then n - 1 else at
  }

  /** Backends not yet raised do not matter to the comparison made on the way. */
  lemma RaiseOneMore(start: Credits, pool: seq<Share>, i: nat)
    requires ValidPool(pool) && 0 < i < |pool|
    ensures var (after, at) := (Raise(start, pool, i + 1), BestOf(start, pool, i));
            BestOf(start, pool, i + 1)
            == if CreditOf(after, pool[i].addr) > CreditOf(after, pool[at].addr) then i else at
  {
    RaiseAt(start, pool, i + 1, i);
    RaiseAt(start, pool, i + 1, BestOf(start, pool, i));
  }

  lemma {:induction false} TrailOver(start: Credits, pool: seq<Share>, n: nat) returns (trail: seq<Pass>)
    requires n <= |pool|
    ensures |trail| == n + 1 && trail[0] == Pass(start, 0, None)
    ensures forall i :: 0 <= i < n ==> GoesOn(trail, pool, i)
    ensures trail[n].best.Some? ==> trail[n].best.value < |pool|
  {
    if n == 0 {
      trail := [Pass(start, 0, None)];
    } else {
      var before := TrailOver(start, pool, n - 1);
      trail := before + [PassBackend(before[n - 1], pool, n - 1)];
      forall i | 0 <= i < n
        ensures GoesOn(trail, pool, i)
      {
        assert i < n - 1 ==> GoesOn(before, pool, i);
      }
    }
  }

  /** Along a trail the credits are those of raising, and the total is the weights added up. */
  lemma {:induction false} TrailRaises(trail: seq<Pass>, start: Credits, pool: seq<Share>, n: nat)
    requires IsTrail(trail, start, pool) && n <= |pool|
    ensures trail[n].credit == Raise(start, pool, n)
    ensures trail[n].total == SumOn(WeightsOf(pool), Upto(|pool|), n)
  {
    if n > 0 {
      TrailRaises(trail, start, pool, n - 1);
      assert GoesOn(trail, pool, n - 1);
      SumOfOneMore(WeightsOf(pool), n - 1);
    }
  }

  /** And the best is the one that nobody behind it beat. */
  lemma {:induction false} TrailCompares(trail: seq<Pass>, start: Credits, pool: seq<Share>, n: nat)
    requires ValidPool(pool) && IsTrail(trail, start, pool) && n <= |pool|
    ensures trail[n].best == if n == 0 then None else Some(BestOf(start, pool, n))
  {
    if n > 0 {
      TrailCompares(trail, start, pool, n - 1);
      ComparesOnce(trail, start, pool, n - 1);
    }
  }

  lemma ComparesOnce(trail: seq<Pass>, start: Credits, pool: seq<Share>, i: nat)
    requires ValidPool(pool) && IsTrail(trail, start, pool) && i < |pool|
    requires trail[i].best == if i == 0 then None else Some(BestOf(start, pool, i))
    ensures trail[i + 1].best == Some(BestOf(start, pool, i + 1))
  {
    assert GoesOn(trail, pool, i);
    if i > 0 {
      TrailRaises(trail, start, pool, i + 1);
      RaiseOneMore(start, pool, i);
    }
  }

  lemma {:induction false} BestIsFirst(credit: Credits, pool: seq<Share>, n: nat)
    requires 0 < n <= |pool|
    ensures forall i :: 0 <= i < BestOf(credit, pool, n) ==>
              OnceRaised(credit, pool[i]) < OnceRaised(credit, pool[BestOf(credit, pool, n)])
    ensures forall i :: 0 <= i < n ==> OnceRaised(credit, pool[i]) <= OnceRaised(credit, pool[BestOf(credit, pool, n)])
  {
    if n > 1 {
      BestIsFirst(credit, pool, n - 1);
    }
  }

  /** At the end of the pass everybody is raised, and the best is the first with the most credit. */
  lemma WholePool(start: Credits, pool: seq<Share>) returns (trail: seq<Pass>)
    requires ValidPool(pool) && pool != []
    ensures IsTrail(trail, start, pool)
    ensures var end := trail[|pool|];
            && end.best == Some(Chosen(start, pool))
            && AfterSelect(start, pool) == Added(end.credit, pool[end.best.value].addr, -end.total)
  {
    trail := TrailOver(start, pool, |pool|);
    TrailRaises(trail, start, pool, |pool|);
    TrailCompares(trail, start, pool, |pool|);
    BestIsChosen(start, pool);
  }

  lemma BestIsChosen(start: Credits, pool: seq<Share>)
    requires pool != []
    ensures BestOf(start, pool, |pool|) == Chosen(start, pool)
  {
    var raised := Raised(CreditsOf(start, pool), WeightsOf(pool));
    assert forall i :: 0 <= i < |pool| ==> raised[i] == OnceRaised(start, pool[i]);
    BestIsFirst(start, pool, |pool|);
    FirstMaxIsUnique(raised, BestOf(start, pool, |pool|), Chosen(start, pool));
  }

  lemma ValidShares(sight: Sight, pool: seq<Backend>)
    requires Distinct(Addrs(pool))
    ensures ValidPool(Shares(sight, pool))
  {
    forall i, j | 0 <= i < j < |pool|
      ensures Shares(sight, pool)[i].addr != Shares(sight, pool)[j].addr
    {
      assert Addrs(pool)[i] != Addrs(pool)[j];
    }
  }

  /** Raising a prefix of the pool raises exactly the backends in it, once each. */
  lemma {:induction false} RaiseAt(credit: Credits, pool: seq<Share>, n: nat, i: nat)
    requires ValidPool(pool) && n <= |pool| && i < |pool|
    ensures CreditOf(Raise(credit, pool, n), pool[i].addr)
         == CreditOf(credit, pool[i].addr) + if i < n then pool[i].weight else 0
    ensures i < n ==> pool[i].addr in Raise(credit, pool, n)
  {
    if n > 0 {
      RaiseAt(credit, pool, n - 1, i);
      assert i != n - 1 ==> pool[i].addr != pool[n - 1].addr;
    }
  }

  // ------------------------------------------- the credits of a fixed pool

  /** What a selection does to the pool's credits is one step of the vector. */
  lemma SelectIsNext(credit: Credits, pool: seq<Share>)
    requires ValidPool(pool) && pool != []
    ensures CreditsOf(AfterSelect(credit, pool), pool) == Next(CreditsOf(credit, pool), WeightsOf(pool))
  {
    var after, x, w := AfterSelect(credit, pool), CreditsOf(credit, pool), WeightsOf(pool);
    forall i | 0 <= i < |pool|
      ensures CreditsOf(after, pool)[i] == Next(x, w)[i]
    {
      RaiseAt(credit, pool, |pool|, i);
      NextAt(x, w, i);
      if i != Chosen(credit, pool) {
        assert pool[i].addr != pool[Chosen(credit, pool)].addr;
      }
    }
  }

  /** The credit map after the first `n` selections of a history, each over its own pool. */
  ghost function History(pools: seq<seq<Share>>, n: nat): Credits
    requires n <= |pools|
    requires forall k :: 0 <= k < n ==> pools[k] != []
  {
    if n == 0 then map[] else AfterSelect(History(pools, n - 1), pools[n - 1])
  }

  /** The credit map after `t` selections over one pool. */
  ghost function Repeat(credit: Credits, pool: seq<Share>, t: nat): Credits
    requires pool != []
  {
    if t == 0 then credit else AfterSelect(Repeat(credit, pool, t - 1), pool)
  }

  /** The pool's credits, position by position, are these. */
  ghost predicate Holds(credit: Credits, pool: seq<Share>, x: seq<int>) {
    CreditsOf(credit, pool) == x
  }

  lemma {:induction false} RepeatHoldsRun(credit: Credits, pool: seq<Share>, x: seq<int>, t: nat)
    requires ValidPool(pool) && pool != [] && |x| == |pool| && Holds(credit, pool, x)
    ensures Holds(Repeat(credit, pool, t), pool, Run(x, WeightsOf(pool), t))
  {
    if t > 0 {
      RepeatHoldsRun(credit, pool, x, t - 1);
      SelectKeepsStep(Repeat(credit, pool, t - 1), pool, Run(x, WeightsOf(pool), t - 1));
    }
  }

  lemma SelectKeepsStep(credit: Credits, pool: seq<Share>, x: seq<int>)
    requires ValidPool(pool) && pool != [] && |x| == |pool| && Holds(credit, pool, x)
    ensures Holds(AfterSelect(credit, pool), pool, Next(x, WeightsOf(pool)))
  {
    SelectIsNext(credit, pool);
  }

  lemma RepeatIsRun(credit: Credits, pool: seq<Share>, t: nat)
    requires ValidPool(pool) && pool != []
    ensures CreditsOf(Repeat(credit, pool, t), pool) == Run(CreditsOf(credit, pool), WeightsOf(pool), t)
  {
    RepeatHoldsRun(credit, pool, CreditsOf(credit, pool), t);
  }

  /** How many of the first `t` selections over one pool chose the backend at `i`. */
  ghost function Served(credit: Credits, pool: seq<Share>, t: nat, i: nat): nat
    requires pool != []
  {
    Turns(CreditsOf(credit, pool), WeightsOf(pool), t, i)
  }

  /** `Served` starts at zero and grows by one exactly when the next selection chooses `i`. */
  lemma ServedCountsSelections(credit: Credits, pool: seq<Share>, t: nat, i: nat)
    requires ValidPool(pool) && pool != []
    ensures Served(credit, pool, 0, i) == 0
    ensures Served(credit, pool, t + 1, i)
         == Served(credit, pool, t, i) + if Chosen(Repeat(credit, pool, t), pool) == i then 1 else 0
  {
    RepeatIsRun(credit, pool, t);
    TurnsStep(CreditsOf(credit, pool), WeightsOf(pool), t, i);
  }

  /**
   A fresh strategy over a fixed pool of total weight W is never a whole turn
   ahead of any backend's share, and never 1/2 + ... + 1/n turns behind it.
   */
  lemma FreshSharesStayClose(pool: seq<Share>, t: nat, i: nat)
    requires ValidPool(pool) && i < |pool|
    ensures NearItsShare(Sum(WeightsOf(pool)), |pool|, pool[i].weight, t, Served(map[], pool, t, i))
  {
    assert CreditsOf(map[], pool) == Zeros(|pool|);
    SharesStayClose(WeightsOf(pool), t, i);
  }

  /** A fresh strategy repeats itself every W selections, and every window of W is exact. */
  lemma FreshWindowsAreExact(pool: seq<Share>, t: nat, i: nat)
    requires ValidPool(pool) && i < |pool|
    ensures var total := Total(WeightsOf(pool));
            && Chosen(Repeat(map[], pool, t + total), pool) == Chosen(Repeat(map[], pool, t), pool)
            && Served(map[], pool, t + total, i) - Served(map[], pool, t, i) == pool[i].weight
            && CreditOf(Repeat(map[], pool, total), pool[i].addr) == 0
  {
    var w, total := WeightsOf(pool), Total(WeightsOf(pool));
    assert CreditsOf(map[], pool) == Zeros(|pool|);
    RepeatIsRun(map[], pool, t);
    RepeatIsRun(map[], pool, t + total);
    EveryWindowIsExact(w, t, i);
    OneCycle(w);
    RepeatIsRun(map[], pool, total);
    assert CreditsOf(Repeat(map[], pool, total), pool)[i] == 0;
  }

  /**
   Whatever credits a history of other pools left behind, over a pool that then
   stays fixed every backend's share of the turns is met to within a constant.
   */
  lemma LeftoverCreditsAreBounded(pools: seq<seq<Share>>, pool: seq<Share>, t: nat, i: nat)
    requires forall k :: 0 <= k < |pools| ==> pools[k] != []
    requires ValidPool(pool) && i < |pool|
    ensures var (left, w) := (History(pools, |pools|), WeightsOf(pool));
            var drift := Drift(CreditsOf(left, pool), w);
            -drift <= Sum(w) * Served(left, pool, t, i) - t * w[i] <= drift
  {
    var left, w := History(pools, |pools|), WeightsOf(pool);
    DriftIsBounded(CreditsOf(left, pool), w, t, i);
  }

  // ----------------------------------------------- turns of live backends

  lemma {:induction false} WeightsAddUp(sight: Sight, pool: seq<Backend>, n: nat)
    requires Sees(sight, pool) && n <= |pool|
    ensures SumOn(WeightsOf(Shares(sight, pool)), Upto(|pool|), n) == WeightOfAll(pool[..n])
  {
    if n > 0 {
      WeightsAddUp(sight, pool, n - 1);
      assert pool[..n][..n - 1] == pool[..n - 1];
      assert pool[n - 1] in pool;
    }
  }

  lemma SharesAddUp(sight: Sight, pool: seq<Backend>)
    requires Sees(sight, pool)
    ensures Sum(WeightsOf(Shares(sight, pool))) == WeightOfAll(pool)
  {
    WeightsAddUp(sight, pool, |pool|);
    assert pool[..|pool|] == pool;
  }

  /** Each selection chose whom the credits left by those before it call for. */
  ghost predicate ChosenInTurn(start: Credits, shares: seq<Share>, pool: seq<Backend>, chosen: seq<Backend>) {
    && |shares| == |pool| > 0
    && forall k :: 0 <= k < |chosen| ==> chosen[k] == pool[Chosen(Repeat(start, shares, k), shares)]
  }

  /** A strategy object over a fixed pool, selection after selection. */
  method Drive(strategy: WeightedRoundRobin, pool: seq<Backend>, t: nat, ghost sight: Sight)
    returns (chosen: seq<Backend>)
    requires pool != [] && Distinct(Addrs(pool)) && Sees(sight, pool)
    modifies strategy
    ensures |chosen| == t && ChosenInTurn(old(strategy.credit), Shares(sight, pool), pool, chosen)
    ensures strategy.credit == Repeat(old(strategy.credit), Shares(sight, pool), t)
  {
    hide *;
    chosen := [];
    ghost var start, shares := strategy.credit, Shares(sight, pool);
    NothingChosen(start, shares, pool);
    for n := 0 to t
      invariant |chosen| == n && ChosenInTurn(start, shares, pool, chosen)
      invariant strategy.credit == Repeat(start, shares, n)
    {
      var next := strategy.Select(pool, sight);
      OneMoreChosen(start, shares, pool, chosen);
      chosen := chosen + [next.value];
    }
  }

  lemma NothingChosen(start: Credits, shares: seq<Share>, pool: seq<Backend>)
    requires |shares| == |pool| > 0
    ensures ChosenInTurn(start, shares, pool, []) && Repeat(start, shares, 0) == start
  {
  }

  lemma OneMoreChosen(start: Credits, shares: seq<Share>, pool: seq<Backend>, chosen: seq<Backend>)
    requires |shares| == |pool| > 0 && ChosenInTurn(start, shares, pool, chosen)
    ensures var before := Repeat(start, shares, |chosen|);
            && Repeat(start, shares, |chosen| + 1) == AfterSelect(before, shares)
            && ChosenInTurn(start, shares, pool, chosen + [pool[Chosen(before, shares)]])
  {
    hide Chosen, AfterSelect;
  }

  /** A backend's turns among the selections are how often it was chosen. */
  lemma {:induction false} TurnsAreSelections(start: Credits, shares: seq<Share>, pool: seq<Backend>,
                                              chosen: seq<Backend>, t: nat, i: nat)
    requires ChosenInTurn(start, shares, pool, chosen) && ValidPool(shares) && t <= |chosen|
    requires i < |pool| && Distinct(pool)
    ensures multiset(chosen[..t])[pool[i]] == Served(start, shares, t, i)
  {
    hide Chosen, Repeat, ValidPool, Served;
    if t == 0 {
      ServedCountsSelections(start, shares, 0, i);
    } else {
      TurnsAreSelections(start, shares, pool, chosen, t - 1, i);
      ServedCountsSelections(start, shares, t - 1, i);
      assert chosen[..t] == chosen[..t - 1] + [chosen[t - 1]];
    }
  }

  lemma DistinctBackends(pool: seq<Backend>)
    requires Distinct(Addrs(pool))
    ensures Distinct(pool)
  {
    forall i, j | 0 <= i < j < |pool|
      ensures pool[i] != pool[j]
    {
      assert Addrs(pool)[i] != Addrs(pool)[j];
    }
  }

  /**
   After these selections a backend is not a whole turn ahead of its weighted share of
   them, nor more than 1/2 + ... + 1/n turns behind it.
   */
  ghost predicate KeepsToItsShare(pool: seq<Backend>, chosen: seq<Backend>, b: Backend)
    reads (set c | c in pool)`weight, b`weight
  {
    var (total, weight, turns) := (WeightOfAll(pool), if b.weight < 1 then 1 else b.weight, multiset(chosen)[b]);
    && total * turns - |chosen| * weight < total
    && (|chosen| * weight - total * turns) as real <= total as real * (H(|pool|) - 1.0)
  }

  /** Over these selections every backend had exactly its weight in turns. */
  ghost predicate TurnsByWeight(pool: seq<Backend>, window: seq<Backend>)
    reads (set b | b in pool)`weight
  {
    forall b :: b in pool ==> multiset(window)[b] == if b.weight < 1 then 1 else b.weight
  }

  lemma SharesAreKept(sight: Sight, pool: seq<Backend>, chosen: seq<Backend>, b: Backend)
    requires Distinct(Addrs(pool)) && Sees(sight, pool) && b in pool
    requires ChosenInTurn(map[], Shares(sight, pool), pool, chosen)
    ensures KeepsToItsShare(pool, chosen, b)
  {
    hide Served, H, ChosenInTurn, ValidPool, Distinct, WeightOfAll, NearItsShare, KeepsToItsShare, Sum, Chosen, Repeat;
    var shares := Shares(sight, pool);
    var i :| 0 <= i < |pool| && pool[i] == b;
    ValidShares(sight, pool);
    DistinctBackends(pool);
    TurnsAreSelections(map[], shares, pool, chosen, |chosen|, i);
    assert chosen[..|chosen|] == chosen;
    SharesAddUp(sight, pool);
    FreshSharesStayClose(shares, |chosen|, i);
    KeptWhenNear(pool, chosen, b);
  }

  lemma KeptWhenNear(pool: seq<Backend>, chosen: seq<Backend>, b: Backend)
    requires NearItsShare(WeightOfAll(pool), |pool|, if b.weight < 1 then 1 else b.weight, |chosen|,
                          multiset(chosen)[b])
    ensures KeepsToItsShare(pool, chosen, b)
  {
    hide WeightOfAll, H;
  }

  lemma WindowsAreExact(sight: Sight, pool: seq<Backend>, chosen: seq<Backend>, from: nat, to: nat)
    requires Distinct(Addrs(pool)) && Sees(sight, pool) && from <= to <= |chosen| && to - from == WeightOfAll(pool)
    requires ChosenInTurn(map[], Shares(sight, pool), pool, chosen)
    ensures TurnsByWeight(pool, chosen[from..to])
  {
    forall b | b in pool
      ensures multiset(chosen[from..to])[b] == if b.weight < 1 then 1 else b.weight
    {
      TurnsInWindow(sight, pool, chosen, from, to, b);
    }
  }

  lemma TurnsInWindow(sight: Sight, pool: seq<Backend>, chosen: seq<Backend>, from: nat, to: nat, b: Backend)
    requires Distinct(Addrs(pool)) && Sees(sight, pool) && from <= to <= |chosen| && to - from == WeightOfAll(pool)
    requires ChosenInTurn(map[], Shares(sight, pool), pool, chosen) && b in pool
    ensures multiset(chosen[from..to])[b] == if b.weight < 1 then 1 else b.weight
  {
    hide Served, ChosenInTurn, ValidPool, Distinct, WeightOfAll, Chosen, Repeat;
    var shares := Shares(sight, pool);
    var i :| 0 <= i < |pool| && pool[i] == b;
    ValidShares(sight, pool);
    DistinctBackends(pool);
    TurnsAreSelections(map[], shares, pool, chosen, from, i);
    TurnsAreSelections(map[], shares, pool, chosen, to, i);
    assert chosen[..to] == chosen[..from] + chosen[from..to];
    SharesAddUp(sight, pool);
    FreshWindowsAreExact(shares, from, i);
  }

  /**
   A fresh strategy over any pool keeps every backend to its weighted share however
   often it has chosen, and any run of as many selections as the weights come to,
   wherever it starts, gives every backend exactly its weight in turns.
   */
  method TakeTurns(pool: seq<Backend>, t: nat) returns (chosen: seq<Backend>)
    requires pool != [] && Distinct(Addrs(pool))
    ensures |chosen| == t && forall b :: b in chosen ==> b in pool
    ensures forall b :: b in pool ==> KeepsToItsShare(pool, chosen, b)
    ensures forall from, to :: 0 <= from <= to <= t && to - from == WeightOfAll(pool) ==>
              TurnsByWeight(pool, chosen[from..to])
  {
    hide *;
    var strategy := new WeightedRoundRobin();
    ghost var sight := SightOf(pool);
    chosen := Drive(strategy, pool, t, sight);
    OnlyThePool(map[], Shares(sight, pool), pool, chosen);
    forall b | b in pool
      ensures KeepsToItsShare(pool, chosen, b)
    {
      SharesAreKept(sight, pool, chosen, b);
    }
    forall from, to | 0 <= from <= to <= t && to - from == WeightOfAll(pool)
      ensures TurnsByWeight(pool, chosen[from..to])
    {
      WindowsAreExact(sight, pool, chosen, from, to);
    }
  }

  lemma OnlyThePool(start: Credits, shares: seq<Share>, pool: seq<Backend>, chosen: seq<Backend>)
    requires ChosenInTurn(start, shares, pool, chosen)
    ensures forall b :: b in chosen ==> b in pool
  {
    hide Chosen, Repeat;
  }

  /** As many selections as the weights come to: every backend has had its weight in turns. */
  method OneCycleOfTurns(pool: seq<Backend>) returns (chosen: seq<Backend>)
    requires pool != [] && Distinct(Addrs(pool))
    ensures forall b :: b in chosen ==> b in pool
    ensures forall b :: b in pool ==> multiset(chosen)[b] == if b.weight < 1 then 1 else b.weight
  {
    var total := 0;
    for i := 0 to |pool|
      invariant total == WeightOfAll(pool[..i])
      invariant 0 <= total
    {
      assert pool[..i + 1][..i] == pool[..i];
      total := total + if pool[i].weight < 1 then 1 else pool[i].weight;
    }
    assert pool[..|pool|] == pool;
    chosen := TakeTurns(pool, total);
    assert chosen[0..total] == chosen;
  }

  // --------------------------------------- conservation over any history

  /** The credits of the first `n` addresses of a list together. */
  ghost function CreditOfAll(credit: Credits, addrs: seq<Str>, n: nat): int
    requires n <= |addrs|
  {
    if n == 0 then 0 else CreditOfAll(credit, addrs, n - 1) + CreditOf(credit, addrs[n - 1])
  }

  /** Every address of the pool is on the list. */
  ghost predicate Covers(addrs: seq<Str>, pool: seq<Share>) {
    forall i :: 0 <= i < |pool| ==> pool[i].addr in addrs
  }

  lemma {:induction false} CreditMoves(credit: Credits, addrs: seq<Str>, n: nat, k: nat, amount: int)
    requires Distinct(addrs) && n <= |addrs| && k < |addrs|
    ensures CreditOfAll(Added(credit, addrs[k], amount), addrs, n)
         == CreditOfAll(credit, addrs, n) + if k < n then amount else 0
  {
    if n > 0 {
      CreditMoves(credit, addrs, n - 1, k, amount);
    }
  }

  lemma {:induction false} RaiseAdds(credit: Credits, addrs: seq<Str>, pool: seq<Share>, n: nat)
    requires Distinct(addrs) && Covers(addrs, pool) && n <= |pool|
    ensures CreditOfAll(Raise(credit, pool, n), addrs, |addrs|)
         == CreditOfAll(credit, addrs, |addrs|) + SumOn(WeightsOf(pool), Upto(|pool|), n)
  {
    if n > 0 {
      RaiseAdds(credit, addrs, pool, n - 1);
      var k: nat :| k < |addrs| && addrs[k] == pool[n - 1].addr;
      CreditMoves(Raise(credit, pool, n - 1), addrs, |addrs|, k, pool[n - 1].weight);
    }
  }

  lemma SelectMovesCredit(credit: Credits, addrs: seq<Str>, pool: seq<Share>)
    requires Distinct(addrs) && Covers(addrs, pool) && pool != []
    ensures CreditOfAll(AfterSelect(credit, pool), addrs, |addrs|) == CreditOfAll(credit, addrs, |addrs|)
  {
    RaiseAdds(credit, addrs, pool, |pool|);
    var addr := pool[Chosen(credit, pool)].addr;
    var k: nat :| k < |addrs| && addrs[k] == addr;
    CreditMoves(Raise(credit, pool, |pool|), addrs, |addrs|, k, -Sum(WeightsOf(pool)));
  }

  /**
   Whatever pools are selected from, with whatever weights, credit is only ever
   moved: over all the addresses that ever took part, it sums to zero.
   */
  lemma {:induction false} CreditIsConserved(pools: seq<seq<Share>>, n: nat, addrs: seq<Str>)
    requires n <= |pools| && Distinct(addrs)
    requires forall k :: 0 <= k < n ==> pools[k] != [] && Covers(addrs, pools[k])
    ensures CreditOfAll(History(pools, n), addrs, |addrs|) == 0
  {
    if n == 0 {
      NothingOwed(addrs, |addrs|);
    } else {
      CreditIsConserved(pools, n - 1, addrs);
      SelectMovesCredit(History(pools, n - 1), addrs, pools[n - 1]);
    }
  }

  lemma {:induction false} NothingOwed(addrs: seq<Str>, n: nat)
    requires n <= |addrs|
    ensures CreditOfAll(map[], addrs, n) == 0
  {
    if n > 0 {
      NothingOwed(addrs, n - 1);
    }
  }

  /** A selection leaves the entry of every address outside its pool as it was. */
  lemma OutsidersAreUntouched(credit: Credits, pool: seq<Share>, addr: Str)
    requires pool != [] && forall i :: 0 <= i < |pool| ==> pool[i].addr != addr
    ensures addr in AfterSelect(credit, pool) <==> addr in credit
    ensures addr in credit ==> AfterSelect(credit, pool)[addr] == credit[addr]
  {
    RaiseMisses(credit, pool, |pool|, addr);
  }

  lemma {:induction false} RaiseMisses(credit: Credits, pool: seq<Share>, n: nat, addr: Str)
    requires n <= |pool| && forall i :: 0 <= i < |pool| ==> pool[i].addr != addr
    ensures addr in Raise(credit, pool, n) <==> addr in credit
    ensures addr in credit ==> Raise(credit, pool, n)[addr] == credit[addr]
  {
    if n > 0 {
      RaiseMisses(credit, pool, n - 1, addr);
    }
  }
}
