/** One upstream server, and how a reload merges the running pool with a new configuration. */
module Backends {
  import opened Basics

  class Backend {
    const addr: Str
    // A reload may set it at any time.
    var weight: int
    // Requests in flight.
    var active: int
    // Either zero or the key hash of `addr`.
    var hash: bv64

    constructor (addr: Str, weight: int)
      ensures this.addr == addr && this.weight == weight && active == 0 && hash == 0
    {
      this.addr := addr;
      this.weight := weight;
      active := 0;
      hash := 0;
    }

    method SetWeight(weight: int)
      modifies `weight
      ensures this.weight == weight
    {
      this.weight := weight;
    }

    method Acquire()
      modifies `active
      ensures active == old(active) + 1
    {
      active := active + 1;
    }

    method Release()
      modifies `active
      ensures active == old(active) - 1
    {
      active := active - 1;
    }
  }

  /** What a request finds when it looks at its pool: every backend's weight, and its requests in flight. */
  datatype Sight = Sight(weights: map<Backend, int>, actives: map<Backend, int>) {
    function Weight(b: Backend): int {
      if b in weights then weights[b] else 0
    }

    function Active(b: Backend): int {
      if b in actives then actives[b] else 0
    }
  }

  ghost predicate Sees(sight: Sight, pool: seq<Backend>)
    reads (set b | b in pool)`weight, (set b | b in pool)`active
  {
    forall b :: b in pool ==> sight.Weight(b) == b.weight && sight.Active(b) == b.active
  }

  ghost function SightOf(pool: seq<Backend>): (sight: Sight)
    reads set b | b in pool
    ensures Sees(sight, pool)
  {
    Sight(map b | b in pool :: b.weight, map b | b in pool :: b.active)
  }

  /** What a pool's weights come to, with those below one counted as one. */
  ghost function WeightOfAll(pool: seq<Backend>): int
    reads (set b | b in pool)`weight
  {
    if pool == [] then 0 else
      var last := pool[|pool| - 1];
      WeightOfAll(pool[..|pool| - 1]) + if last.weight < 1 then 1 else last.weight
  }

  /** The requests a pool is serving. */
  ghost function InFlight(pool: seq<Backend>): int
    reads (set b | b in pool)`active
  {
    if pool == [] then 0 else InFlight(pool[..|pool| - 1]) + pool[|pool| - 1].active
  }

  function Addrs(pool: seq<Backend>): (addrs: seq<Str>)
    ensures |addrs| == |pool| && forall i :: 0 <= i < |pool| ==> addrs[i] == pool[i].addr
  {
    seq(|pool|, i requires 0 <= i < |pool| => pool[i].addr)
  }

  lemma SameAddrSameBackend(pool: seq<Backend>, i: nat, j: nat)
    requires Distinct(Addrs(pool)) && i < |pool| && j < |pool| && pool[i].addr == pool[j].addr
    ensures i == j
  {
    assert Addrs(pool)[i] == Addrs(pool)[j];
  }

  /** A backend as the configuration file lists it. */
  datatype Configured = Configured(addr: Str, weight: int)

  /** Whether a configuration lists the address. */
  ghost predicate Lists(configured: seq<Configured>, addr: Str) {
    exists i :: 0 <= i < |configured| && configured[i].addr == addr
  }

  /** The backends of a pool by their addresses. */
  method ByAddr(pool: seq<Backend>) returns (known: map<Str, Backend>)
    requires Distinct(Addrs(pool))
    ensures forall a :: a in known <==> a in Addrs(pool)
    ensures forall a :: a in known ==> known[a] in pool && known[a].addr == a
  {
    known := map[];
    for i := 0 to |pool|
      invariant forall a :: a in known <==> a in Addrs(pool)[..i]
      invariant forall a :: a in known ==> known[a] in pool && known[a].addr == a
    {
      known := known[pool[i].addr := pool[i]];
    }
    assert Addrs(pool)[..|pool|] == Addrs(pool);
  }

  /**
   The pool for a new configuration. An address that survives keeps its object,
   with its requests in flight, under its new weight; a new address starts idle;
   and no backend outside the new configuration is touched.
   */
  method MergeBackends(existing: seq<Backend>, configured: seq<Configured>) returns (pool: seq<Backend>)
    requires Distinct(Addrs(existing))
    requires forall i, j :: 0 <= i < j < |configured| ==> configured[i].addr != configured[j].addr
    modifies (set b | b in existing)`weight
    ensures |pool| == |configured|
    ensures forall i :: 0 <= i < |pool| ==> pool[i].addr == configured[i].addr && pool[i].weight == configured[i].weight
    ensures forall i :: 0 <= i < |pool| ==>
              if pool[i].addr in Addrs(existing) then pool[i] in existing else fresh(pool[i]) && pool[i].active == 0
    ensures forall b :: b in existing && !Lists(configured, b.addr) ==> b.weight == old(b.weight)
  {
    var known := ByAddr(existing);
    pool := [];
    for i := 0 to |configured|
      invariant |pool| == i
      invariant forall k :: 0 <= k < i ==> pool[k].addr == configured[k].addr && pool[k].weight == configured[k].weight
      invariant forall k :: 0 <= k < i ==>
                if pool[k].addr in known then pool[k] in existing else fresh(pool[k]) && pool[k].active == 0
      invariant forall b :: b in existing && (forall k :: 0 <= k < i ==> configured[k].addr != b.addr) ==>
                b.weight == old(b.weight)
    {
      var wanted := configured[i];
      if wanted.addr in known {
        assert known[wanted.addr] !in pool;
        known[wanted.addr].SetWeight(wanted.weight);
        pool := pool + [known[wanted.addr]];
      } else {
        var b := new Backend(wanted.addr, wanted.weight);
        pool := pool + [b];
      }
    }
  }
}
