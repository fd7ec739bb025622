/** How an attempt reaches a strategy: by its cookie, by its key, by turn, or by load. */
module Placement {
  import opened Basics
  import opened Backends
  import opened StickyPins
  import RoundRobin
  import WeightedRoundRobin
  import ConsistentHashing
  import Rendezvous

  datatype Strategy =
    | Turns(turns: RoundRobin.RoundRobin)
    | Weighted(credits: WeightedRoundRobin.WeightedRoundRobin)
    | LeastConnections
    | Keyed(hash: ConsistentHashing.ConsistentHash)

  /** The objects a strategy keeps its state in. */
  function StateOf(strategy: Strategy): set<object> {
    match strategy
    case Turns(turns) => {turns}
    case Weighted(credits) => {credits}
    case _ => {}
  }

  /** What a strategy remembers from one selection to the next. */
  datatype Memory = AtTurn(next: RoundRobin.Word) | WithCredits(credit: WeightedRoundRobin.Credits) | Nothing

  ghost function MemoryOf(strategy: Strategy): Memory
    reads StateOf(strategy)
  {
    match strategy
    case Turns(turns) => AtTurn(turns.next)
    case Weighted(credits) => WithCredits(credits.credit)
    case _ => Nothing
  }

  /** Two random draws, of which only their remainders matter. */
  datatype Draws = Draws(first: nat, second: nat)

  /** The positions two draws stand for: the second is drawn from all but the first. */
  ghost function Drawn(draws: Draws, n: nat): (positions: (nat, nat))
    requires n >= 2
    ensures positions.0 < n && positions.1 < n && positions.0 != positions.1
  {
    var first, second := draws.first % n, draws.second % (n - 1);
    (first, if second < first then second else second + 1)
  }

  /** Any two positions may be drawn, in either order. */
  lemma AnyTwoAreDrawn(n: nat, i: nat, j: nat) returns (draws: Draws)
    requires n >= 2 && i < n && j < n && i != j
    ensures Drawn(draws, n) == (i, j)
  {
    var second := if j < i then j else j - 1;
    draws := Draws(i, second);
    RoundRobin.Divided(i, n, 0, i);
    RoundRobin.Divided(second, n - 1, 0, second);
  }

  /** Of the two backends drawn, the one with fewer requests in flight; the first of them on a tie. */
  ghost predicate LessBusy(sight: Sight, pool: seq<Backend>, draws: Draws, b: Backend) {
    if |pool| < 2 then b in pool else
      var (i, j) := Drawn(draws, |pool|);
      && (b == pool[i] || b == pool[j])
      && sight.Active(b) <= sight.Active(pool[i]) && sight.Active(b) <= sight.Active(pool[j])
      && (sight.Active(pool[i]) == sight.Active(pool[j]) ==> b == pool[i])
  }

  /** Compares the loads of the two positions drawn. */
  method SelectLeast(pool: seq<Backend>, draws: Draws, ghost sight: Sight) returns (chosen: Option<Backend>)
    requires Sees(sight, pool)
    ensures pool == [] ==> chosen == None
    ensures pool != [] ==> chosen.Some? && chosen.value in pool && LessBusy(sight, pool, draws, chosen.value)
    ensures |pool| == 2 ==> chosen.value.active <= pool[0].active && chosen.value.active <= pool[1].active
    ensures |pool| >= 2 ==>
              exists i, j :: 0 <= i < |pool| && 0 <= j < |pool| && i != j
                             && chosen.value == pool[i] && pool[i].active <= pool[j].active
  {
    if |pool| == 0 {
      return None;
    }
    if |pool| == 1 {
      return Some(pool[0]);
    }
    var first, second := draws.first % |pool|, draws.second % (|pool| - 1);
    if second >= first {
      second := second + 1;
    }
    assert first != second && 0 <= second < |pool|;
    if pool[second].active < pool[first].active {
      return Some(pool[second]);
    }
    return Some(pool[first]);
  }

  /** What the strategy itself relies on. */
  ghost predicate Ready(strategy: Strategy, pool: seq<Backend>)
    reads (set b | b in pool)`hash, (set b | b in pool)`active
  {
    && Distinct(Addrs(pool)) && (forall b :: b in pool ==> 0 <= b.active)
    && (strategy.Keyed? ==> ConsistentHashing.HashesKept(strategy.hash.hashKey, pool))
  }

  ghost function ClaimsOn(hash: ConsistentHashing.ConsistentHash, key: Str): Rendezvous.Scoring {
    ConsistentHashing.Claims(hash.hashKey, hash.draw, hash.hashKey(key))
  }

  /** Whether a strategy with this memory selects `b`: by turn, by credit, by load, or by where the key belongs. */
  ghost predicate Selects(strategy: Strategy, memory: Memory, sight: Sight, key: Str, draws: Draws,
                          candidates: seq<Backend>, b: Backend)
    requires candidates != []
  {
    match strategy
    case Turns(_) => memory.AtTurn? && b == candidates[memory.next % |candidates|]
    case Weighted(_) =>
      && memory.WithCredits?
      && b == candidates[WeightedRoundRobin.Chosen(memory.credit, WeightedRoundRobin.Shares(sight, candidates))]
    case LeastConnections => LessBusy(sight, candidates, draws, b)
    case Keyed(hash) =>
      if key == [] then LessBusy(sight, candidates, draws, b)
      else ConsistentHashing.IsPlacement(sight, hash.balanceFactor, ClaimsOn(hash, key), candidates, b)
  }

  /**
   What a strategy remembers after a selection: under round robin only a first
   attempt takes a turn, and weighted round robin charges every attempt alike.
   */
  ghost function Remembered(memory: Memory, sight: Sight, candidates: seq<Backend>, first: bool): Memory
    requires candidates != []
  {
    match memory
    case AtTurn(next) => if first then AtTurn(RoundRobin.Advance(next, 1)) else memory
    case WithCredits(credit) =>
      WithCredits(WeightedRoundRobin.AfterSelect(credit, WeightedRoundRobin.Shares(sight, candidates)))
    case Nothing => Nothing
  }

  /** The backend for one attempt by the algorithm. */
  method Choose(strategy: Strategy, key: Str, candidates: seq<Backend>, first: bool, draws: Draws, ghost sight: Sight)
    returns (chosen: Option<Backend>)
    requires Ready(strategy, candidates) && Sees(sight, candidates)
    modifies StateOf(strategy), (set b | b in candidates)`hash
    ensures Ready(strategy, candidates)
    ensures candidates == [] ==> chosen == None && MemoryOf(strategy) == old(MemoryOf(strategy))
    ensures candidates != [] ==>
              && chosen.Some? && chosen.value in candidates
              && Selects(strategy, old(MemoryOf(strategy)), sight, key, draws, candidates, chosen.value)
              && MemoryOf(strategy) == Remembered(old(MemoryOf(strategy)), sight, candidates, first)
    ensures strategy.Turns? && candidates != [] ==>
              && chosen.value == candidates[old(strategy.turns.next) % |candidates|]
              && strategy.turns.next
                 == if first then (old(strategy.turns.next) + 1) % 18446744073709551616 else old(strategy.turns.next)
    ensures strategy.Weighted? && candidates != [] ==>
              exists j :: 0 <= j < |candidates| && chosen.value == candidates[j]
                          && WeightedRoundRobin.Leads(old(strategy.credits.credit), candidates, j)
    ensures strategy.Weighted? ==> forall b :: b in candidates ==>
              WeightedRoundRobin.CreditOf(strategy.credits.credit, b.addr)
              == WeightedRoundRobin.WithWeight(old(strategy.credits.credit), b)
                 - if chosen.value == b then WeightOfAll(candidates) else 0
    ensures strategy.Keyed? && key != [] && strategy.hash.balanceFactor == 0 ==> forall b :: b in candidates ==>
              strategy.hash.ClaimOn(strategy.hash.hashKey(key), b)
              <= strategy.hash.ClaimOn(strategy.hash.hashKey(key), chosen.value)
    ensures strategy.Keyed? && key != [] && strategy.hash.balanceFactor >= 100 && candidates != [] ==>
              strategy.hash.IsBelowBound(candidates, chosen.value)
    ensures (strategy.LeastConnections? || (strategy.Keyed? && key == [])) && |candidates| == 2 ==>
              chosen.value.active <= candidates[0].active && chosen.value.active <= candidates[1].active
  {
    hide WeightedRoundRobin.Leads, WeightedRoundRobin.CreditOf, WeightedRoundRobin.WithWeight, WeightOfAll, LessBusy;
    hide ConsistentHashing.ConsistentHash.ClaimOn, ConsistentHashing.ConsistentHash.IsBelowBound;
    hide ConsistentHashing.IsPlacement, WeightedRoundRobin.Chosen, WeightedRoundRobin.AfterSelect;
    match strategy
    case Turns(turns) =>
      if !first {
        chosen := turns.SelectRetry(candidates);
      } else {
        chosen := turns.Select(candidates);
      }
    case Weighted(credits) =>
      chosen := credits.Select(candidates, sight);
    case LeastConnections =>
      chosen := SelectLeast(candidates, draws, sight);
    case Keyed(hash) =>
      if |key| == 0 {
        chosen := SelectLeast(candidates, draws, sight);
      } else {
        var backend := hash.SelectFor(key, candidates, sight);
        chosen := if backend == null then None else Some(backend);
      }
  }

  /** Whether an attempt may go to `b`: to the pinned backend while it is a candidate, else where the strategy says. */
  ghost predicate GoesTo(strategy: Strategy, memory: Memory, sight: Sight, key: Str, draws: Draws,
                         candidates: seq<Backend>,
                         pinned: Option<Backend>, b: Backend)
  {
    && b in candidates
    && if pinned.Some? && pinned.value in candidates then b == pinned.value
       else Selects(strategy, memory, sight, key, draws, candidates, b)
  }

  /**
   What the strategy remembers after an attempt was placed: it is not asked about one
   that is pinned, or has nowhere to go.
   */
  ghost function MemoryAfter(memory: Memory, sight: Sight, candidates: seq<Backend>, pinned: Option<Backend>,
                             first: bool): Memory {
    if candidates == [] || (pinned.Some? && pinned.value in candidates) then memory
    else Remembered(memory, sight, candidates, first)
  }

  /** Places one attempt; the algorithm is only asked about one that is not pinned to a candidate. */
  method Place(strategy: Strategy, key: Str, pinned: Option<Backend>, candidates: seq<Backend>, first: bool,
               draws: Draws, ghost sight: Sight)
    returns (placed: Option<Backend>)
    requires Ready(strategy, candidates) && Sees(sight, candidates)
    modifies StateOf(strategy), (set b | b in candidates)`hash
    ensures Ready(strategy, candidates)
    ensures placed.None? <==> candidates == []
    ensures placed.Some? ==>
              GoesTo(strategy, old(MemoryOf(strategy)), sight, key, draws, candidates, pinned, placed.value)
    ensures MemoryOf(strategy) == MemoryAfter(old(MemoryOf(strategy)), sight, candidates, pinned, first)
  {
    if pinned.Some? && pinned.value in candidates {
      return pinned;
    }
    placed := Choose(strategy, key, candidates, first, draws, sight);
  }

  // ---------------------------------------------- why a key went where it did

  datatype Reason = AtHome | Overloaded | Unavailable

  /** What is counted for a keyed request, given its home in the whole pool and its candidates. */
  function ReasonFor(home: Backend, chosen: Backend, candidates: seq<Backend>): Reason {
    if chosen == home then AtHome
    else if home in candidates then Overloaded
    else Unavailable
  }

  /**
   The reason is the truth: a key that passed over a home among its candidates did
   so because that home was full, and one whose home had room stayed at home.
   */
  lemma ReasonIsTheTruth(sight: Sight, factor: int, claims: Rendezvous.Scoring, pool: seq<Backend>,
                         candidates: seq<Backend>,
                         gone: set<Str>, home: Backend, chosen: Backend)
    requires candidates != [] && Distinct(Addrs(candidates))
    requires ConsistentHashing.Views(sight, candidates)
       == Rendezvous.Survivors(ConsistentHashing.Views(sight, pool), gone)
    requires home in pool
    requires Rendezvous.Home(claims, ConsistentHashing.Views(sight, pool)) == Some(ConsistentHashing.View(sight, home))
    requires home.addr !in gone <==> home in candidates
    requires chosen in candidates && ConsistentHashing.IsPlacement(sight, factor, claims, candidates, chosen)
    ensures ReasonFor(home, chosen, candidates) == Overloaded ==>
              factor != 0 && !ConsistentHashing.Fits(sight, factor, candidates, home)
    ensures ReasonFor(home, chosen, candidates) == Unavailable ==> home.addr in gone
    ensures home in candidates && (factor == 0 || ConsistentHashing.Fits(sight, factor, candidates, home)) ==>
              ReasonFor(home, chosen, candidates) == AtHome
  {
    if home in candidates {
      Rendezvous.LeavingMovesOnlyTheirKeys(claims, ConsistentHashing.Views(sight, pool), gone);
      ConsistentHashing.OnlyOneHome(sight, claims, candidates, home);
    }
  }
}
