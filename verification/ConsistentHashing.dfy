/** Consistent hashing with bounded loads: `ConsistentHash` over the running pool. */
module ConsistentHashing {
  import opened Basics
  import opened Backends
  import opened Sums
  import opened KeyHash
  import opened Rendezvous
  import opened BoundedLoads

  /**
   A key's hash combined with an address's, turned into a draw from an
   exponential distribution. Only that draws are positive matters here.
   */
  type Draw = bv64 -> real

  ghost predicate Positive(draw: Draw) {
    forall u :: draw(u) > 0.0
  }

  /** The word a key and an address draw from together. */
  function Combined(keyHash: bv64, addrHash: bv64): bv64 { keyHash ^ addrHash }

  /** The claims of all candidates on a key with this hash. */
  ghost function Claims(hashKey: Str -> bv64, draw: Draw, keyHash: bv64): Scoring {
    (c: Candidate) => c.weight as real * draw(Combined(keyHash, hashKey(c.addr)))
  }

  lemma ClaimIs(hashKey: Str -> bv64, draw: Draw, keyHash: bv64, c: Candidate)
    ensures Claims(hashKey, draw, keyHash)(c) == c.weight as real * draw(Combined(keyHash, hashKey(c.addr)))
  {
    hide Combined;
  }

  /** Weights below one are read as one. */
  function WeightOf(b: Backend): int
    reads b`weight
  {
    Max(b.weight, 1)
  }

  function View(sight: Sight, b: Backend): Candidate {
    Candidate(b.addr, Max(sight.Weight(b), 1))
  }

  ghost function Views(sight: Sight, pool: seq<Backend>): (views: seq<Candidate>)
    ensures |views| == |pool| && forall i :: 0 <= i < |pool| ==> views[i] == View(sight, pool[i])
  {
    seq(|pool|, i requires 0 <= i < |pool| => View(sight, pool[i]))
  }

  ghost function LoadsOf(sight: Sight, pool: seq<Backend>): (loads: seq<int>)
    ensures |loads| == |pool| && forall i :: 0 <= i < |pool| ==> loads[i] == sight.Active(pool[i])
  {
    seq(|pool|, i requires 0 <= i < |pool| => sight.Active(pool[i]))
  }

  ghost function WeightsOf(sight: Sight, pool: seq<Backend>): (weights: seq<int>)
    ensures |weights| == |pool| && forall i :: 0 <= i < |pool| ==> 1 <= weights[i] == View(sight, pool[i]).weight
  {
    seq(|pool|, i requires 0 <= i < |pool| => View(sight, pool[i]).weight)
  }

  /** The counters of a running pool: nobody serves fewer than zero requests. */
  ghost predicate Serving(sight: Sight, pool: seq<Backend>) {
    forall b :: b in pool ==> 0 <= sight.Active(b)
  }

  /** Whether `b` may take one more of the requests `pool` is serving. */
  ghost predicate Fits(sight: Sight, factor: int, pool: seq<Backend>, b: Backend)
    requires pool != []
  {
    PositiveTotal(WeightsOf(sight, pool));
    HasRoom(factor, Sum(LoadsOf(sight, pool)), Sum(WeightsOf(sight, pool)), sight.Active(b), View(sight, b).weight)
  }

  /** The hash kept on every backend is its own, or not computed yet. */
  ghost predicate HashesKept(hashKey: Str -> bv64, pool: seq<Backend>)
    reads (set b | b in pool)`hash
  {
    forall b :: b in pool ==> b.hash == 0 || b.hash == hashKey(b.addr)
  }

  /** A backend with its score for the key being placed. */
  datatype Scored = Scored(backend: Backend, score: real)

  ghost predicate Descending(ranked: seq<Scored>) {
    forall i, j :: 0 <= i < j < |ranked| ==> ranked[i].score >= ranked[j].score
  }

  /** Ranks by descending score. Nothing below depends on how it orders equal scores. */
  method SortByScore(scored: seq<Scored>) returns (ranked: seq<Scored>)
    ensures multiset(ranked) == multiset(scored)
    ensures Descending(ranked)
  {
    ranked := [];
    for i := 0 to |scored|
      invariant multiset(ranked) == multiset(scored[..i])
      invariant Descending(ranked)
    {
      ranked := InsertByScore(ranked, scored[i]);
      OneMore(scored, i);
    }
    assert scored[..|scored|] == scored;
  }

  method InsertByScore(ranked: seq<Scored>, x: Scored) returns (longer: seq<Scored>)
    requires Descending(ranked)
    ensures multiset(longer) == multiset(ranked) + multiset{x}
    ensures Descending(longer)
  {
    var at := 0;
    while at < |ranked| && ranked[at].score >= x.score
      invariant at <= |ranked|
      invariant forall k :: 0 <= k < at ==> ranked[k].score >= x.score
    {
      at := at + 1;
    }
    InsertedInOrder(ranked, at, x);
    longer := ranked[..at] + [x] + ranked[at..];
  }

  lemma OneMore(scored: seq<Scored>, i: nat)
    requires i < |scored|
    ensures multiset(scored[..i + 1]) == multiset(scored[..i]) + multiset{scored[i]}
  {
    assert scored[..i + 1] == scored[..i] + [scored[i]];
  }

  lemma InsertedInOrder(ranked: seq<Scored>, at: nat, x: Scored)
    requires Descending(ranked) && at <= |ranked|
    requires forall k :: 0 <= k < at ==> ranked[k].score >= x.score
    requires at < |ranked| ==> ranked[at].score < x.score
    ensures Descending(ranked[..at] + [x] + ranked[at..])
    ensures multiset(ranked[..at] + [x] + ranked[at..]) == multiset(ranked) + multiset{x}
  {
    var longer := ranked[..at] + [x] + ranked[at..];
    forall i, j | 0 <= i < j < |longer|
      ensures longer[i].score >= longer[j].score
    {
      PlaceInLonger(ranked, at, x, i);
      PlaceInLonger(ranked, at, x, j);
      assert at < j ==> ranked[at].score >= ranked[j - 1].score;
    }
    SameMembers(ranked, at);
  }

  lemma PlaceInLonger(ranked: seq<Scored>, at: nat, x: Scored, i: nat)
    requires at <= |ranked| && i <= |ranked|
    ensures (ranked[..at] + [x] + ranked[at..])[i] == if i < at then ranked[i] else if i == at then x else ranked[i - 1]
  {
  }

  lemma SameMembers(ranked: seq<Scored>, at: nat)
    requires at <= |ranked|
    ensures multiset(ranked) == multiset(ranked[..at]) + multiset(ranked[at..])
  {
    assert ranked == ranked[..at] + ranked[at..];
  }

  class ConsistentHash {
    /** The bound in per cent of a backend's share; 0 leaves the load unbounded. */
    const balanceFactor: int
    const hashKey: Str -> bv64
    const draw: Draw

    /** The strategy of the balancer: FNV-1a and SplitMix64, with a draw made of the 53 highest bits. */
    constructor (balanceFactor: int, exponential: bv64 -> real)
      ensures this.balanceFactor == balanceFactor
      ensures forall s :: hashKey(s) == HashKey(s)
      ensures forall x :: draw(x) == exponential(TopBits(x))
    {
      this.balanceFactor := balanceFactor;
      hashKey := s => HashKey(s);
      draw := x => exponential(TopBits(x));
    }

    /** The key hash of an address, read off the backend unless it is missing there. */
    method AddrHash(b: Backend) returns (h: bv64)
      requires HashesKept(hashKey, [b])
      modifies b`hash
      ensures h == hashKey(b.addr) && HashesKept(hashKey, [b])
    {
      assert b in [b];
      if b.hash != 0 {
        return b.hash;
      }
      h := hashKey(b.addr);
      b.hash := h;
    }

    /** One candidate's claim on a key, keeping the hash of its address. */
    method Score(keyHash: bv64, b: Backend, ghost pool: seq<Backend>, ghost sight: Sight) returns (score: real)
      requires b in pool && Sees(sight, pool) && HashesKept(hashKey, pool)
      modifies b`hash
      ensures score == Claims(hashKey, draw, keyHash)(View(sight, b))
      ensures HashesKept(hashKey, pool)
    {
      var addrHash := AddrHash(b);
      assert b in [b];
      CombinedIs(keyHash, addrHash);
      hide Combined;
      score := WeightOf(b) as real * draw(keyHash ^ addrHash);
    }

    /** How strongly a backend claims a key with this hash: its weight, times the draw of the two hashes together. */
    ghost function ClaimOn(keyHash: bv64, b: Backend): real
      reads b`weight
    {
      (if b.weight < 1 then 1 else b.weight) as real * draw(Combined(keyHash, hashKey(b.addr)))
    }

    lemma ClaimsOfAll(keyHash: bv64, pool: seq<Backend>, sight: Sight)
      requires Sees(sight, pool)
      ensures forall b :: b in pool ==> Claims(hashKey, draw, keyHash)(View(sight, b)) == ClaimOn(keyHash, b)
    {
      hide Claims;
      forall b | b in pool
        ensures Claims(hashKey, draw, keyHash)(View(sight, b)) == ClaimOn(keyHash, b)
      {
        ClaimIs(hashKey, draw, keyHash, View(sight, b));
      }
    }

    /** Scans for the strongest claim on the key, loads aside. */
    method Home(key: Str, pool: seq<Backend>, ghost sight: Sight) returns (best: Backend?)
      requires Sees(sight, pool) && HashesKept(hashKey, pool)
      modifies (set b | b in pool)`hash
      ensures HashesKept(hashKey, pool)
      ensures best == null <==> pool == []
      ensures best != null ==>
                && best in pool
                && Rendezvous.Home(Claims(hashKey, draw, hashKey(key)), Views(sight, pool)) == Some(View(sight, best))
      ensures best != null ==> forall b :: b in pool ==> ClaimOn(hashKey(key), b) <= ClaimOn(hashKey(key), best)
    {
      var keyHash := hashKey(key);
      ghost var views, claims := Views(sight, pool), Claims(hashKey, draw, keyHash);
      best := null;
      var bestScore := 0.0;
      for i := 0 to |pool|
        invariant HashesKept(hashKey, pool)
        invariant if i == 0 then best == null
                  else
                    && best != null && best in pool
                    && HomeAmong(claims, views, i) == Some(View(sight, best)) && bestScore == claims(View(sight, best))
      {
        var s := Score(keyHash, pool[i], pool, sight);
        assert views[i] == View(sight, pool[i]);
        if i > 0 {
          HomeStep(claims, views, i);
        }
        if best == null || s > bestScore {
          best, bestScore := pool[i], s;
        }
      }
      if best != null {
        HomeOutscores(sight, claims, pool, best);
        ClaimsOfAll(hashKey(key), pool, sight);
      }
    }

    /** The totals the bound is a share of: the requests in flight and the weight of the pool. */
    method Totals(pool: seq<Backend>, ghost sight: Sight) returns (inFlight: int, totalWeight: int)
      requires Sees(sight, pool)
      ensures inFlight == Sum(LoadsOf(sight, pool)) && totalWeight == Sum(WeightsOf(sight, pool))
    {
      inFlight, totalWeight := 0, 0;
      for i := 0 to |pool|
        invariant inFlight == SumOn(LoadsOf(sight, pool), Upto(|pool|), i)
        invariant totalWeight == SumOn(WeightsOf(sight, pool), Upto(|pool|), i)
      {
        inFlight := inFlight + pool[i].active;
        totalWeight := totalWeight + WeightOf(pool[i]);
      }
    }

    /**
     The highest-scoring backend with room. Home is the fast path; only when it is
     full are the others ranked. Home is also the answer when nobody has room.
     */
    method SelectFor(key: Str, pool: seq<Backend>, ghost sight: Sight) returns (chosen: Backend?)
      requires Sees(sight, pool) && Serving(sight, pool) && HashesKept(hashKey, pool) && Distinct(Addrs(pool))
      modifies (set b | b in pool)`hash
      ensures HashesKept(hashKey, pool)
      ensures chosen == null <==> pool == []
      ensures pool != [] ==>
                chosen in pool && IsPlacement(sight, balanceFactor, Claims(hashKey, draw, hashKey(key)), pool, chosen)
      ensures pool != [] && (balanceFactor == 0 || forall b :: b in pool ==> !IsBelowBound(pool, b)) ==>
                forall b :: b in pool ==> ClaimOn(hashKey(key), b) <= ClaimOn(hashKey(key), chosen)
      ensures balanceFactor != 0 && (exists b :: b in pool && IsBelowBound(pool, b)) ==>
                && IsBelowBound(pool, chosen)
                && forall b :: b in pool && IsBelowBound(pool, b) ==>
                    ClaimOn(hashKey(key), b) <= ClaimOn(hashKey(key), chosen)
      ensures balanceFactor >= 100 && pool != [] ==> IsBelowBound(pool, chosen)
    {
      if |pool| == 0 {
        return null;
      }
      var keyHash := hashKey(key);
      ghost var claims := Claims(hashKey, draw, keyHash);
      var home := Home(key, pool, sight);
      chosen := home;
      if balanceFactor != 0 {
        SumsOfLoads(LoadsOf(sight, pool), WeightsOf(sight, pool));
        var inFlight, totalWeight := Totals(pool, sight);
        if HasRoom(balanceFactor, inFlight, totalWeight, home.active, WeightOf(home)) {
          HomeWithRoom(sight, balanceFactor, claims, pool, home);
        } else {
          chosen := RankedSearch(keyHash, pool, inFlight, totalWeight, home, sight);
        }
      }
      PlacedInPlainWords(key, pool, chosen, sight);
    }

    /** Whether a backend may take one more request: it is below its weight's share of them all, times the factor. */
    ghost predicate IsBelowBound(pool: seq<Backend>, b: Backend)
      reads (set c | c in pool)`weight, (set c | c in pool)`active, b`weight, b`active
    {
      100 * b.active * WeightOfAll(pool) < balanceFactor * (InFlight(pool) + 1) * if b.weight < 1 then 1 else b.weight
    }

    lemma RoomIsBelowBound(pool: seq<Backend>, b: Backend, sight: Sight)
      requires Sees(sight, pool) && b in pool
      ensures Fits(sight, balanceFactor, pool, b) <==> IsBelowBound(pool, b)
    {
      PositiveTotal(WeightsOf(sight, pool));
      LoadsAddUp(sight, pool);
      WeightsAddUp(sight, pool);
      RoomInIntegers(balanceFactor, InFlight(pool), WeightOfAll(pool), b.active, View(sight, b).weight);
      assert 100 * b.active == b.active * 100;
    }

    lemma PlacedInPlainWords(key: Str, pool: seq<Backend>, chosen: Backend, sight: Sight)
      requires Sees(sight, pool) && Serving(sight, pool) && chosen in pool
      requires IsPlacement(sight, balanceFactor, Claims(hashKey, draw, hashKey(key)), pool, chosen)
      ensures balanceFactor == 0 || (forall b :: b in pool ==> !IsBelowBound(pool, b)) ==>
                forall b :: b in pool ==> ClaimOn(hashKey(key), b) <= ClaimOn(hashKey(key), chosen)
      ensures balanceFactor != 0 && (exists b :: b in pool && IsBelowBound(pool, b)) ==>
                && IsBelowBound(pool, chosen)
                && forall b :: b in pool && IsBelowBound(pool, b) ==>
                    ClaimOn(hashKey(key), b) <= ClaimOn(hashKey(key), chosen)
      ensures balanceFactor >= 100 ==> IsBelowBound(pool, chosen)
    {
      hide Fits, IsBelowBound, Claims, ClaimOn;
      var claims := Claims(hashKey, draw, hashKey(key));
      ClaimsOfAll(hashKey(key), pool, sight);
      forall b | b in pool
        ensures Fits(sight, balanceFactor, pool, b) <==> IsBelowBound(pool, b)
      {
        RoomIsBelowBound(pool, b, sight);
      }
      if Rendezvous.Home(claims, Views(sight, pool)) == Some(View(sight, chosen)) {
        HomeOutscores(sight, claims, pool, chosen);
      }
    }

    /** Every backend of the pool with its score, the highest first. */
    method Ranked(keyHash: bv64, pool: seq<Backend>, ghost sight: Sight) returns (ranked: seq<Scored>)
      requires Sees(sight, pool) && HashesKept(hashKey, pool)
      modifies (set b | b in pool)`hash
      ensures HashesKept(hashKey, pool)
      ensures IsRanking(sight, Claims(hashKey, draw, keyHash), pool, ranked)
      ensures forall k :: 0 <= k < |ranked| ==> ranked[k].score == ClaimOn(keyHash, ranked[k].backend)
    {
      ghost var claims := Claims(hashKey, draw, keyHash);
      var scored: seq<Scored> := [];
      for i := 0 to |pool|
        invariant |scored| == i
        invariant HashesKept(hashKey, pool)
        invariant forall k :: 0 <= k < i ==> scored[k] == Scored(pool[k], claims(View(sight, pool[k])))
      {
        var s := Score(keyHash, pool[i], pool, sight);
        scored := scored + [Scored(pool[i], s)];
      }
      ranked := SortByScore(scored);
      RankedAreThePool(sight, pool, scored, ranked, claims);
      ClaimsOfAll(keyHash, pool, sight);
    }

    /** The highest-scoring backend with room, or home when there is none. */
    method RankedSearch(keyHash: bv64, pool: seq<Backend>, inFlight: int, totalWeight: int,
                        home: Backend, ghost sight: Sight) returns (chosen: Backend)
      requires Sees(sight, pool) && pool != [] && Serving(sight, pool) && HashesKept(hashKey, pool)
      requires Distinct(Addrs(pool))
      requires inFlight == Sum(LoadsOf(sight, pool)) && totalWeight == Sum(WeightsOf(sight, pool))
      requires home in pool && balanceFactor != 0
      requires Rendezvous.Home(Claims(hashKey, draw, keyHash), Views(sight, pool)) == Some(View(sight, home))
      requires !Fits(sight, balanceFactor, pool, home)
      modifies (set b | b in pool)`hash
      ensures HashesKept(hashKey, pool)
      ensures chosen in pool && IsPlacement(sight, balanceFactor, Claims(hashKey, draw, keyHash), pool, chosen)
    {
      var ranked := Ranked(keyHash, pool, sight);
      chosen := FirstFit(Claims(hashKey, draw, keyHash), pool, ranked, inFlight, totalWeight, home, sight);
    }

    /** The first of the ranked backends with room, or home when there is none. */
    method FirstFit(ghost claims: Scoring, pool: seq<Backend>, ranked: seq<Scored>, inFlight: int, totalWeight: int,
                    home: Backend, ghost sight: Sight)
      returns (chosen: Backend)
      requires Sees(sight, pool) && pool != [] && Serving(sight, pool) && Distinct(Addrs(pool))
      requires IsRanking(sight, claims, pool, ranked)
      requires inFlight == Sum(LoadsOf(sight, pool)) && totalWeight == Sum(WeightsOf(sight, pool))
      requires home in pool && balanceFactor != 0
      requires Rendezvous.Home(claims, Views(sight, pool)) == Some(View(sight, home))
      requires !Fits(sight, balanceFactor, pool, home)
      ensures chosen in pool && IsPlacement(sight, balanceFactor, claims, pool, chosen)
    {
      SumsOfLoads(LoadsOf(sight, pool), WeightsOf(sight, pool));
      for i := 0 to |ranked|
        invariant forall k :: 0 <= k < i ==> !Fits(sight, balanceFactor, pool, ranked[k].backend)
      {
        var candidate := ranked[i].backend;
        if HasRoom(balanceFactor, inFlight, totalWeight, candidate.active, WeightOf(candidate)) {
          FirstWithRoom(sight, balanceFactor, claims, pool, ranked, i, home);
          return candidate;
        }
      }
      NobodyWithRoom(sight, balanceFactor, claims, pool, ranked, home);
      return home;
    }
  }

  lemma {:induction false} SomeLoadsAddUp(sight: Sight, pool: seq<Backend>, n: nat)
    requires Sees(sight, pool) && n <= |pool|
    ensures SumOn(LoadsOf(sight, pool), Upto(|pool|), n) == InFlight(pool[..n])
    ensures SumOn(WeightsOf(sight, pool), Upto(|pool|), n) == WeightOfAll(pool[..n])
  {
    if n > 0 {
      SomeLoadsAddUp(sight, pool, n - 1);
      assert pool[..n][..n - 1] == pool[..n - 1];
      assert pool[n - 1] in pool;
    }
  }

  lemma LoadsAddUp(sight: Sight, pool: seq<Backend>)
    requires Sees(sight, pool)
    ensures Sum(LoadsOf(sight, pool)) == InFlight(pool)
  {
    SomeLoadsAddUp(sight, pool, |pool|);
    assert pool[..|pool|] == pool;
  }

  lemma WeightsAddUp(sight: Sight, pool: seq<Backend>)
    requires Sees(sight, pool)
    ensures Sum(WeightsOf(sight, pool)) == WeightOfAll(pool)
  {
    SomeLoadsAddUp(sight, pool, |pool|);
    assert pool[..|pool|] == pool;
  }

  ghost predicate IsRanking(sight: Sight, claims: Scoring, pool: seq<Backend>, ranked: seq<Scored>)
  {
    && Descending(ranked)
    && (forall k :: 0 <= k < |ranked| ==>
          ranked[k].backend in pool && ranked[k].score == claims(View(sight, ranked[k].backend)))
    && (forall b :: b in pool ==> exists k :: 0 <= k < |ranked| && ranked[k].backend == b)
  }

  /** The first of a ranking that has room is where the key goes. */
  lemma FirstWithRoom(sight: Sight, factor: int, claims: Scoring, pool: seq<Backend>, ranked: seq<Scored>, i: nat,
                      home: Backend)
    requires pool != [] && Serving(sight, pool) && factor != 0 && IsRanking(sight, claims, pool, ranked) && i < |ranked|
    requires Fits(sight, factor, pool, ranked[i].backend) && home in pool && !Fits(sight, factor, pool, home)
    requires Rendezvous.Home(claims, Views(sight, pool)) == Some(View(sight, home)) && Distinct(Addrs(pool))
    requires forall k :: 0 <= k < i ==> !Fits(sight, factor, pool, ranked[k].backend)
    ensures IsPlacement(sight, factor, claims, pool, ranked[i].backend)
  {
    forall b | b in pool && Fits(sight, factor, pool, b)
      ensures claims(View(sight, b)) <= claims(View(sight, ranked[i].backend))
    {
      var k :| 0 <= k < |ranked| && ranked[k].backend == b;
      assert i < k ==> ranked[i].score >= ranked[k].score;
    }
    OnlyOneHome(sight, claims, pool, home);
  }

  /** Different addresses make the home a single backend of the pool. */
  lemma OnlyOneHome(sight: Sight, claims: Scoring, pool: seq<Backend>, home: Backend)
    requires Distinct(Addrs(pool)) && home in pool
    requires Rendezvous.Home(claims, Views(sight, pool)) == Some(View(sight, home))
    ensures forall h :: h in pool && Rendezvous.Home(claims, Views(sight, pool)) == Some(View(sight, h)) ==> h == home
  {
    forall h | h in pool && Rendezvous.Home(claims, Views(sight, pool)) == Some(View(sight, h))
      ensures h == home
    {
      var i :| 0 <= i < |pool| && pool[i] == h;
      var j :| 0 <= j < |pool| && pool[j] == home;
      assert View(sight, h).addr == View(sight, home).addr;
      SameAddrSameBackend(pool, i, j);
    }
  }

  /** When nobody in the ranking has room the key stays at home, which cannot happen at a factor of at least 100. */
  lemma NobodyWithRoom(sight: Sight, factor: int, claims: Scoring, pool: seq<Backend>, ranked: seq<Scored>,
                       home: Backend)
    requires pool != [] && Serving(sight, pool) && factor != 0 && IsRanking(sight, claims, pool, ranked) && home in pool
    requires Rendezvous.Home(claims, Views(sight, pool)) == Some(View(sight, home))
    requires forall k :: 0 <= k < |ranked| ==> !Fits(sight, factor, pool, ranked[k].backend)
    ensures IsPlacement(sight, factor, claims, pool, home)
  {
    forall b | b in pool
      ensures !Fits(sight, factor, pool, b)
    {
      var k :| 0 <= k < |ranked| && ranked[k].backend == b;
    }
    SomeBackendFits(sight, factor, pool);
  }

  /** A home with room is where its key goes. */
  lemma HomeWithRoom(sight: Sight, factor: int, claims: Scoring, pool: seq<Backend>, home: Backend)
    requires pool != [] && Serving(sight, pool) && home in pool && factor != 0
    requires Rendezvous.Home(claims, Views(sight, pool)) == Some(View(sight, home)) && Fits(sight, factor, pool, home)
    ensures IsPlacement(sight, factor, claims, pool, home)
  {
    HomeOutscores(sight, claims, pool, home);
  }

  /**
   Where a key goes: home when the load is unbounded or nobody has room, and
   otherwise to the backend with room that claims the key most strongly, which is
   home itself when home has room. At a factor of at least 100 somebody always has.
   */
  ghost predicate IsPlacement(sight: Sight, factor: int, claims: Scoring, pool: seq<Backend>, chosen: Backend)
    requires pool != []
  {
    var isHome := Rendezvous.Home(claims, Views(sight, pool)) == Some(View(sight, chosen));
    && (factor == 0 ==> isHome)
    && (factor != 0 ==>
          if exists b :: b in pool && Fits(sight, factor, pool, b) then
            && Fits(sight, factor, pool, chosen)
            && forall b :: b in pool && Fits(sight, factor, pool, b) ==>
                claims(View(sight, b)) <= claims(View(sight, chosen))
          else isHome)
    && (factor != 0 ==>
          forall h :: (&& h in pool && Fits(sight, factor, pool, h)
                       && Rendezvous.Home(claims, Views(sight, pool)) == Some(View(sight, h))) ==>
            isHome)
    && (factor >= 100 ==> Fits(sight, factor, pool, chosen))
  }

  lemma HomeOutscores(sight: Sight, claims: Scoring, pool: seq<Backend>, home: Backend)
    requires Rendezvous.Home(claims, Views(sight, pool)) == Some(View(sight, home))
    ensures forall b :: b in pool ==> claims(View(sight, b)) <= claims(View(sight, home))
  {
    forall b | b in pool
      ensures claims(View(sight, b)) <= claims(View(sight, home))
    {
      var i :| 0 <= i < |pool| && pool[i] == b;
      assert Views(sight, pool)[i] == View(sight, b);
      NobodyOutscoresHome(claims, Views(sight, pool), View(sight, b));
    }
  }

  lemma RankedAreThePool(sight: Sight, pool: seq<Backend>, scored: seq<Scored>, ranked: seq<Scored>, claims: Scoring)
    requires multiset(ranked) == multiset(scored) && |scored| == |pool|
    requires forall k :: 0 <= k < |pool| ==> scored[k] == Scored(pool[k], claims(View(sight, pool[k])))
    ensures Descending(ranked) ==> IsRanking(sight, claims, pool, ranked)
  {
    forall k | 0 <= k < |ranked|
      ensures ranked[k].backend in pool && ranked[k].score == claims(View(sight, ranked[k].backend))
    {
      assert ranked[k] in multiset(scored);
      var i :| 0 <= i < |scored| && scored[i] == ranked[k];
    }
    forall b | b in pool
      ensures exists k :: 0 <= k < |ranked| && ranked[k].backend == b
    {
      var i :| 0 <= i < |pool| && pool[i] == b;
      assert scored[i] in multiset(ranked);
      var k :| 0 <= k < |ranked| && ranked[k] == scored[i];
    }
  }

  /** At a factor of at least 100 the pool always has a backend with room. */
  lemma SomeBackendFits(sight: Sight, factor: int, pool: seq<Backend>)
    requires pool != [] && Serving(sight, pool)
    ensures factor >= 100 ==> exists b :: b in pool && Fits(sight, factor, pool, b)
  {
    if factor >= 100 {
      SumsOfLoads(LoadsOf(sight, pool), WeightsOf(sight, pool));
      var i := SomebodyHasRoom(factor, LoadsOf(sight, pool), WeightsOf(sight, pool));
      assert Fits(sight, factor, pool, pool[i]);
    }
  }

  /** A placement on the running pool is a step the bound on loads allows. */
  lemma PlacementIsPossible(sight: Sight, factor: int, claims: Scoring, pool: seq<Backend>, chosen: Backend)
    returns (j: nat)
    requires pool != [] && Serving(sight, pool) && chosen in pool && factor >= 100
    requires IsPlacement(sight, factor, claims, pool, chosen)
    ensures j < |pool| && pool[j] == chosen && ValidLoads(LoadsOf(sight, pool), WeightsOf(sight, pool))
    ensures Possible(factor, WeightsOf(sight, pool), LoadsOf(sight, pool), Placed(j))
  {
    j :| 0 <= j < |pool| && pool[j] == chosen;
  }

  /**
   Every backend is home to some key hash: among backends of one weight and different
   address hashes, to the one that meets its own in the word with the largest draw.
   */
  lemma EveryBackendIsSomeHome(hashKey: Str -> bv64, draw: Draw, pool: seq<Candidate>, u: bv64, i: nat)
    requires i < |pool| && pool[i].weight >= 1 && IsLargest(draw, u)
    requires forall j :: 0 <= j < |pool| ==> pool[j].weight == pool[i].weight
    requires forall j :: 0 <= j < |pool| && j != i ==> hashKey(pool[j].addr) != hashKey(pool[i].addr)
    ensures Rendezvous.Home(Claims(hashKey, draw, Combined(u, hashKey(pool[i].addr))), pool) == Some(pool[i])
  {
    hide Claims, IsLargest, Combined;
    var claims := Claims(hashKey, draw, Combined(u, hashKey(pool[i].addr)));
    forall j | 0 <= j < |pool| && j != i
      ensures claims(pool[j]) < claims(pool[i])
    {
      LargestDrawWins(hashKey, draw, pool[i], pool[j], u);
    }
    FirstHighestIsHome(claims, pool, i);
  }

  /** No other word has as large a draw. */
  ghost predicate IsLargest(draw: Draw, u: bv64) {
    forall v: bv64 :: v != u ==> draw(v) < draw(u)
  }

  lemma LargestDrawWins(hashKey: Str -> bv64, draw: Draw, c: Candidate, d: Candidate, u: bv64)
    requires c.weight == d.weight >= 1 && hashKey(d.addr) != hashKey(c.addr) && IsLargest(draw, u)
    ensures var claims := Claims(hashKey, draw, Combined(u, hashKey(c.addr))); claims(d) < claims(c)
  {
    hide *;
    CombinedApart(u, hashKey(c.addr), hashKey(d.addr));
    ClaimIs(hashKey, draw, Combined(u, hashKey(c.addr)), c);
    ClaimIs(hashKey, draw, Combined(u, hashKey(c.addr)), d);
    LargerTimes(draw, c.weight as real, Combined(Combined(u, hashKey(c.addr)), hashKey(d.addr)), u);
  }

  lemma LargerTimes(draw: Draw, w: real, v: bv64, u: bv64)
    requires 0.0 < w && v != u && IsLargest(draw, u)
    ensures w * draw(v) < w * draw(u)
  {
    LessTimes(w, draw(v), draw(u));
  }

  lemma CombinedIs(g: bv64, h: bv64)
    ensures Combined(g, h) == g ^ h
  {
  }

  lemma CombinedApart(u: bv64, mine: bv64, other: bv64)
    requires mine != other
    ensures Combined(Combined(u, mine), mine) == u && Combined(Combined(u, mine), other) != u
  {
  }

  lemma LessTimes(w: real, a: real, b: real)
    requires 0.0 < w && a < b
    ensures w * a < w * b
  {
  }

  /** Where no draw comes twice, two keys with different hashes are never claimed alike by a backend. */
  lemma KeysAreToldApart(hashKey: Str -> bv64, draw: Draw, g: bv64, h: bv64, c: Candidate)
    requires g != h && c.weight >= 1 && forall u: bv64, v: bv64 :: draw(u) == draw(v) ==> u == v
    ensures Claims(hashKey, draw, g)(c) != Claims(hashKey, draw, h)(c)
  {
    hide *;
    CombinedDiffers(g, h, hashKey(c.addr));
    ClaimIs(hashKey, draw, g, c);
    ClaimIs(hashKey, draw, h, c);
    ApartTimes(c.weight as real, draw(Combined(g, hashKey(c.addr))), draw(Combined(h, hashKey(c.addr))));
  }

  lemma CombinedDiffers(g: bv64, h: bv64, mine: bv64)
    requires g != h
    ensures Combined(g, mine) != Combined(h, mine) && Combined(mine, g) != Combined(mine, h)
  {
  }

  lemma ApartTimes(w: real, a: real, b: real)
    requires 0.0 < w && a != b
    ensures w * a != w * b
  {
    if a < b {
      LessTimes(w, a, b);
    } else {
      LessTimes(w, b, a);
    }
  }

  /** Nor are there ties between backends of one weight and different address hashes. */
  lemma BackendsAreToldApart(hashKey: Str -> bv64, draw: Draw, keyHash: bv64, c: Candidate, d: Candidate)
    requires hashKey(c.addr) != hashKey(d.addr) && c.weight == d.weight >= 1
    requires forall u: bv64, v: bv64 :: draw(u) == draw(v) ==> u == v
    ensures Claims(hashKey, draw, keyHash)(c) != Claims(hashKey, draw, keyHash)(d)
  {
    hide *;
    CombinedDiffers(hashKey(c.addr), hashKey(d.addr), keyHash);
    ClaimIs(hashKey, draw, keyHash, c);
    ClaimIs(hashKey, draw, keyHash, d);
    ApartTimes(c.weight as real, draw(Combined(keyHash, hashKey(c.addr))), draw(Combined(keyHash, hashKey(d.addr))));
  }

  /** Under positive draws, raising one backend's weight moves keys only onto that backend. */
  lemma HeavierBackendOnlyGains(hashKey: Str -> bv64, draw: Draw, keyHash: bv64, pool: seq<Candidate>, i: nat,
                                weight: int)
    requires Positive(draw) && i < |pool| && pool[i].weight <= weight
    ensures var (claims, raised) := (Claims(hashKey, draw, keyHash), pool[i := pool[i].(weight := weight)]);
            || Rendezvous.Home(claims, raised) == Some(raised[i])
            || Rendezvous.Home(claims, raised) == Rendezvous.Home(claims, pool)
  {
    ProductGrows(pool[i].weight as real, weight as real, draw(Combined(keyHash, hashKey(pool[i].addr))));
    RaisingMovesKeysOnlyOntoIt(Claims(hashKey, draw, keyHash), pool, i, weight);
  }
}
