# A verified model of ege-balancer's placement and protection logic

ege-balancer is an HTTP load balancer written in Go. This project models how it
decides which backend serves a request and how it protects backends from overload,
and proves what its comments and documentation promise, over every input, every
run and every interleaving. Sockets, time and chance are replaced by parameters:
an attempt ends as served, failed at dialling, failed after sending, cut off by a
panic, abandoned by its client, or failed with the client leaving once that was
reported.

The modules follow the program's components.

- **Weighted turns.** `WeightedRoundRobin` is the strategy, with its credit map and
  its single pass; `WeightedTurns` and `Sums` are the arithmetic of credits on a
  fixed pool.
- **Equal turns.** `RoundRobin` is the shared 64-bit counter, which retries read
  and first attempts advance.
- **Consistent hashing.** `KeyHash` is the word arithmetic of the key hash,
  `Rendezvous` the choice of a home, `BoundedLoads` the bound on loads, and
  `ConsistentHashing` the strategy over the live pool.
- **Protection.** `HealthChecking`, `CircuitBreaking` and `RateLimiting` are the
  per-address state machines, each with the program's fields and a ghost history of
  its calls; each is proved to decide what a statement about that history says.
- **Memory.** `SessionCache` is the mock backend's session cache, list and map;
  `StickyPins` the cookie protocol of a client and the balancer.
- **The retry loop.** `RetryPolicy` says what may be retried, `RetryBudgets` is the
  budget, `Placement` how an attempt reaches a strategy, `RequestRules` what one
  request goes by and what it teaches the balancer, and `ProxyCore` the loop itself
  on the objects a running balancer has. `Interleaving` is the same loop as a
  transition system, in which any number of requests and reloads take their atomic
  steps in any order, the steps of the retry budget included.
- `Backends` is the pool and its merging on a reload; `Basics` the shared vocabulary.

Configuration is taken as validated (internal/config/validate.go:48-68, 79-106,
127-132, 168-171): addresses are distinct and thresholds are at least one.

## Where the code and its comments part

- When round robin's counter wraps, more than its value modulo the pool size matters:
  every stretch is even across the wrap if and only if the pool size divides 2^64
  (`RoundRobin.EvenAcrossTheWrap`, with an uneven stretch for any other size in
  `RoundRobin.UnevenStretch`).
- After the open period the breaker is to let one request through as a probe, whose
  outcome closes the circuit or opens it again. Candidates are determined before the
  strategy chooses among them, and asking marks the probe. So the probe is carried
  out if and only if the request's destination, settled beforehand by cookie and
  strategy, is that backend and the client stays until the outcome is reported
  (`RequestRules.ProbeOfARequest`, with an instance on live objects in
  `ProxyCore.LoseTheProbe`).
  A lost probe leaves the backend out until one of its outcomes is recorded, by a
  request already under way or one that finds no fit backend at all, or until a
  reload, which starts with every circuit closed (`RequestRules.SettingsFor`).

## Model

| member | source | states |
|---|---|---|
| `WeightedRoundRobin.WeightedRoundRobin.Select` | internal/balancer/weightedroundrobin.go:38-67 | The one pass that compares credits while it is still raising them chooses the first backend with the most credit and weight together; every backend of the pool gains its weight, one below one counting as one, the chosen one pays the total, and every other entry stays as it was. An empty pool is refused and changes nothing. |
| `WeightedRoundRobin.WeightedRoundRobin.RaiseAndCompare` | internal/balancer/weightedroundrobin.go:50-63 | The loop itself, step by step, on the backends' own weights: it ends with the credits, the total and the best of a pass that raises and compares one backend after another. |
| `WeightedRoundRobin.RaiseOneMore` | internal/balancer/weightedroundrobin.go:59-62 | Why comparing on the way is safe: the credits of backends not reached yet play no part, and the running best is replaced only when beaten outright. |
| `WeightedRoundRobin.TrailRaises` | internal/balancer/weightedroundrobin.go:57-60 | Along such a pass the credits are those of raising each backend once, and the total is the weights added up. |
| `WeightedRoundRobin.TrailCompares` | internal/balancer/weightedroundrobin.go:60-62 | And the best is the one nobody behind it beat. |
| `WeightedRoundRobin.WholePool` | internal/balancer/weightedroundrobin.go:50-63 | At the end of the pass the best is the first largest raised credit of the whole pool, and its paying the total makes the credits those after a selection. |
| `WeightedRoundRobin.SelectIsNext` | internal/balancer/weightedroundrobin.go:46-66 | One selection over the credit map is one step of the credit vector the arithmetic results are about. |
| `WeightedRoundRobin.RepeatIsRun` | internal/balancer/weightedroundrobin.go:46-66 | Any number of selections over one pool moves the map along the run of the vector. |
| `WeightedRoundRobin.ServedCountsSelections` | internal/balancer/weightedroundrobin.go:46-66 | The turn counts in the results below grow by one exactly when a selection chooses that backend. |
| `WeightedRoundRobin.FreshSharesStayClose` | internal/balancer/weightedroundrobin.go:9-16 | On fresh credits, after any number of selections no backend is a whole turn ahead of its weighted share, and none is more than 1/2 + ... + 1/n turns behind it. |
| `WeightedRoundRobin.FreshWindowsAreExact` | internal/balancer/weightedroundrobin.go:9-16 | The sequence of choices has the total weight W as a period, every window of W selections gives every backend exactly its weight in turns, and after W selections every credit is zero again. |
| `WeightedRoundRobin.Drive` | internal/balancer/weightedroundrobin.go:46-66 | One strategy object over a fixed live pool, selection after selection, follows the run the results above are about. |
| `WeightedRoundRobin.TakeTurns` | internal/balancer/weightedroundrobin.go:9-16 | The same on live backends: a fresh strategy object over any pool keeps each backend within both bounds of its share by its own weight after any number of selections, and any run of as many selections as the weights add up to, wherever it starts, chooses every backend exactly as often as its weight says. |
| `WeightedRoundRobin.OneCycleOfTurns` | internal/balancer/weightedroundrobin.go:13-16 | A fresh strategy object run for one cycle: each backend of the pool is chosen exactly its weight times, or once when its weight is below one. |
| `WeightedRoundRobin.LeftoverCreditsAreBounded` | internal/balancer/weightedroundrobin.go:26-29 | Whatever credits a history of other pools and weights left behind, on a pool that then stays fixed turns stay within a constant of the share for ever. |
| `WeightedRoundRobin.CreditIsConserved` | internal/balancer/weightedroundrobin.go:46-66 | Through any history of pools and weights the credits of all addresses that ever took part sum to zero. |
| `WeightedRoundRobin.OutsidersAreUntouched` | internal/balancer/weightedroundrobin.go:26-29 | A selection leaves the entry of every address outside its pool as it was, present or absent. |
| `WeightedTurns.Ledger` | internal/balancer/weightedroundrobin.go:59-65 | A credit is at any time what it started with plus what the backend was owed minus what it was served. |
| `WeightedTurns.RunKeepsSum` | internal/balancer/weightedroundrobin.go:59-65 | Selections only move credit between backends. |
| `WeightedTurns.TurnsAddUp` | internal/balancer/weightedroundrobin.go:59-66 | Every selection is one turn of exactly one backend. |
| `WeightedTurns.CreditsStayAboveMinusTotal` | internal/balancer/weightedroundrobin.go:60-65 | On fresh credits no credit ever falls to minus the total weight. |
| `WeightedTurns.GroupCredit` | internal/balancer/weightedroundrobin.go:59-65 | On fresh credits any k of the n backends together are never owed more than k W (H(n) - H(k)), H the harmonic numbers. |
| `WeightedTurns.SharesStayClose` | internal/balancer/weightedroundrobin.go:59-65 | Both bounds on a single backend, from the two results above. |
| `WeightedTurns.OneCycle` | internal/balancer/weightedroundrobin.go:13-16 | After W selections from fresh credits all credits are zero and each backend had exactly its weight in turns. |
| `WeightedTurns.EveryWindowIsExact` | internal/balancer/weightedroundrobin.go:13-16 | The same for a window that starts anywhere, and the periodicity of the choices. |
| `WeightedTurns.DriftIsBounded` | internal/balancer/weightedroundrobin.go:26-29 | From any starting credits, turns stay within a bound that depends only on those credits and the weights. |
| `WeightedTurns.CreditsAreConfined` | internal/balancer/weightedroundrobin.go:59-65 | From any starting credits, each credit stays in a fixed interval. |
| `Backends.Backend.Acquire` | internal/balancer/balancer.go:53-55 | One more request in flight; nothing else changes. |
| `Backends.Backend.Release` | internal/balancer/balancer.go:58-60 | One request fewer in flight; nothing else changes. |
| `Backends.Backend.SetWeight` | internal/balancer/balancer.go:48-50 | The weight is replaced; nothing else changes. |
| `Backends.MergeBackends` | internal/balancer/balancer.go:112-134 | The merged pool lists the configured addresses in order under their new weights; an address that survives keeps its very object, with its requests in flight, a new one starts idle, and a backend that is dropped keeps its weight. |
| `RoundRobin.RoundRobin.Select` | internal/balancer/roundrobin.go:23-30 | The backend at the counter modulo the pool size, and the counter moved on by one modulo 2^64; an empty pool takes no turn. |
| `RoundRobin.RoundRobin.SelectRetry` | internal/balancer/roundrobin.go:32-41 | The backend the next turn falls on; being read-only it cannot take the turn. |
| `RoundRobin.Drive` | internal/balancer/roundrobin.go:22-41 | One strategy object driven through any first attempts and retries over any pools: each gets the backend that is due, and only first attempts with candidates move the counter. |
| `RoundRobin.FirstsAreDueAlike` | internal/balancer/roundrobin.go:32-35 | Who is due at the first attempts does not depend on the retries among them. |
| `RoundRobin.RetriesTakeNoTurns` | internal/balancer/roundrobin.go:32-35 | Two objects at one turn, one driven through first attempts and retries and the other through the first attempts alone, choose the same backends for them and end at the same turn. |
| `RoundRobin.EvenShortOfTheWrap` | internal/balancer/roundrobin.go:9-14 | Any stretch of first attempts that does not cross the wrap gives every position its share, rounded down or up. |
| `RoundRobin.GoAround` | internal/balancer/roundrobin.go:9-30 | First attempts on a live object give every backend its share, rounded down or up, after any number of them, unless the counter passes 2^64 on the way and the pool size does not divide 2^64. |
| `RoundRobin.EvenAcrossTheWrap` | internal/balancer/roundrobin.go:12-14 | Every stretch, across the wrap too, is even if and only if the pool size divides 2^64. The comment that only the value modulo the pool size matters holds exactly then. |
| `RoundRobin.UnevenStretch` | internal/balancer/roundrobin.go:12-14 | For every other pool size, a stretch across the wrap that is uneven. |
| `RoundRobin.RetriesGoAround` | internal/balancer/roundrobin.go:32-35 | Of n backends one fails every first attempt, and each of those requests is retried before the next one comes. Over those calls, to whoever is due at each, retry m goes to the backend at position (f + 1 + m) mod (n - 1) of the others. |
| `RoundRobin.RetriesAreEven` | internal/balancer/roundrobin.go:32-35 | Over those calls every other backend is due at its share of the retries, rounded down or up. |
| `KeyHash.ComputeHashKey` | internal/balancer/consistenthash.go:177-188 | The byte loop computes the hash the results below are about. |
| `KeyHash.ComputeMix` | internal/balancer/consistenthash.go:193-200 | The five word operations, written out, compute the function the results below are about. |
| `KeyHash.MixIsABijection` | internal/balancer/consistenthash.go:190-200 | Mixing loses nothing: it has an inverse on 64-bit words, on both sides. |
| `KeyHash.TopBitsAre53` | internal/balancer/consistenthash.go:149-152 | A score is drawn from one of 2^53 values, and two words draw alike if and only if their mixes have the same 53 highest bits. |
| `KeyHash.EveryDrawOccurs` | internal/balancer/consistenthash.go:149-152 | Each of those values is drawn by a word that is known. |
| `KeyHash.FnvOfA` | internal/balancer/consistenthash.go:177-188 | The published FNV-1a hash of "a", which fixes the offset, the prime and the order of the two operations. |
| `KeyHash.FirstOfSplitMix` | internal/balancer/consistenthash.go:190-200 | The published first output of SplitMix64 from seed zero, which fixes the shifts and the factors of the mixer. |
| `KeyHash.FoldKeepsApart` | internal/balancer/consistenthash.go:183-186 | Folding one byte neither merges two states nor lets two bytes lead from one state to the same. |
| `KeyHash.SuffixCancels` | internal/balancer/consistenthash.go:183-186 | Bytes hashed after two states neither merge them nor tell them apart. |
| `KeyHash.CommonSuffix` | internal/balancer/consistenthash.go:177-188 | Two keys with a common ending collide exactly when what precedes it collides. |
| `KeyHash.OneByteApart` | internal/balancer/consistenthash.go:190-192 | Two keys of one length, however long, that differ in exactly one byte never have the same hash. |
| `Rendezvous.HomeIsFirstHighest` | internal/balancer/consistenthash.go:108-120 | The scan returns the first candidate that no other outscores. |
| `Rendezvous.FirstHighestIsHome` | internal/balancer/consistenthash.go:108-120 | And whoever is that is what the scan returns. |
| `Rendezvous.LeavingMovesOnlyTheirKeys` | internal/balancer/consistenthash.go:31-37 | Backends that leave, or are left out as unhealthy or tried, move only the keys they were home to. |
| `Rendezvous.JoiningMovesKeysOnlyOntoIt` | internal/balancer/consistenthash.go:31-34 | A backend that joins anywhere in the pool takes keys only for itself. |
| `Rendezvous.RaisingMovesKeysOnlyOntoIt` | internal/balancer/consistenthash.go:144-148 | A candidate whose score rises with its weight takes keys only for itself. |
| `Rendezvous.OrderDoesNotMatter` | internal/balancer/consistenthash.go:108-120 | Without ties the home does not depend on the order of the pool. |
| `BoundedLoads.RoomInIntegers` | internal/balancer/consistenthash.go:133-136 | The test against the rounded-up bound is the exact integer inequality active * 100 * W < factor * (inFlight + 1) * w. |
| `BoundedLoads.SomebodyHasRoom` | internal/balancer/consistenthash.go:87-90 | At a factor of at least 100 some backend always has room, whatever the loads and weights. |
| `BoundedLoads.PlacedWithinBound` | internal/balancer/consistenthash.go:122-125 | A placement leaves its backend within its bound at the load it leaves behind. |
| `BoundedLoads.LoadsStayBounded` | internal/balancer/consistenthash.go:39-43 | Over any run of placements and completions from an idle fixed pool, each request counted as it is placed, every load stays at most its weighted share of the highest total so far times the factor, rounded up. |
| `BoundedLoads.PeakIsTheHighest` | internal/balancer/consistenthash.go:39-43 | The peak in that bound is the total at some point of the run, and no total is higher. |
| `BoundedLoads.RacesOvershootByTheOthers` | internal/balancer/consistenthash.go:122-136 | Over any interleaving of choosing, counting and ending, a load with the requests bound for that backend exceeds the bound at the highest total so far by at most m - 1, when at most m requests were chosen and not yet counted at any time. |
| `BoundedLoads.PeakOfAllIsTheHighest` | internal/balancer/consistenthash.go:39-43 | The highest total in that bound is the total at some point of the run. |
| `BoundedLoads.MostWereChosen` | internal/balancer/consistenthash.go:122-136 | And m requests had chosen and were not counted at some point of it. |
| `ConsistentHashing.ConsistentHash.constructor` | internal/balancer/consistenthash.go:56-61 | The strategy hashes keys with the function above and draws from the 53 top bits of the mixed word. |
| `ConsistentHashing.ConsistentHash.AddrHash` | internal/balancer/consistenthash.go:155-165 | The hash kept on a backend is always its own, computed at most when it is missing. |
| `ConsistentHashing.ConsistentHash.Home` | internal/balancer/consistenthash.go:108-120 | The loop over the live pool returns a backend with the largest claim, its weight times the draw of key hash and address hash together, the first in the pool on a tie, and null only for an empty pool. |
| `ConsistentHashing.ConsistentHash.Totals` | internal/balancer/consistenthash.go:126-131 | The totals are the sums of the loads and of the effective weights. |
| `ConsistentHashing.SortByScore` | internal/balancer/consistenthash.go:95-99 | Ranking keeps every scored backend and orders by descending score. |
| `ConsistentHashing.ConsistentHash.Ranked` | internal/balancer/consistenthash.go:95-99 | The ranking holds the whole pool, each backend under its own claim on this key. |
| `ConsistentHashing.ConsistentHash.SelectFor` | internal/balancer/consistenthash.go:71-106 | Fast path and ranked search together: when the load is unbounded or nobody is below the bound, a backend with the largest claim on the key; otherwise one below the bound, active * 100 * W < factor * (inFlight + 1) * w on the live counters, with the largest claim among those; at a factor of at least 100 always one below the bound. |
| `ConsistentHashing.HomeWithRoom` | internal/balancer/consistenthash.go:82-85 | The fast path agrees with the ranked search. |
| `ConsistentHashing.FirstWithRoom` | internal/balancer/consistenthash.go:100-104 | The first of a ranking with room is the strongest claim among all with room, however ties were ordered. |
| `ConsistentHashing.SomeBackendFits` | internal/balancer/consistenthash.go:87-90 | On the live pool the fall-through to home is never reached at a factor of at least 100. |
| `ConsistentHashing.PlacementIsPossible` | internal/balancer/consistenthash.go:122-136 | A placement on the live pool is a step the bound on loads covers. |
| `ConsistentHashing.EveryBackendIsSomeHome` | internal/balancer/consistenthash.go:144-153 | The key decides: among backends of one weight with different address hashes each is home to a key hash that is given. |
| `ConsistentHashing.KeysAreToldApart` | internal/balancer/consistenthash.go:149-153 | Where no draw comes twice, a backend claims two keys with different hashes differently. |
| `ConsistentHashing.BackendsAreToldApart` | internal/balancer/consistenthash.go:149-153 | And two backends of one weight with different address hashes never tie for a key. |
| `ConsistentHashing.HeavierBackendOnlyGains` | internal/balancer/consistenthash.go:144-153 | Raising one weight moves keys only onto that backend. |
| `SessionCache.Cache.Seen` | cmd/mockbackend/cache.go:32-49 | True exactly when the key occurred since the last clear and fewer different keys than the capacity occurred after its last occurrence; afterwards the map holds exactly the keys of which that is true. |
| `SessionCache.Cache.MoveToFront` | cmd/mockbackend/cache.go:36-38 | Moving an element by its identity keeps list and map linked and moves its key to the front. |
| `SessionCache.Cache.Insert` | cmd/mockbackend/cache.go:41-47 | A new key goes to the front and at most the oldest goes, from list and map alike. |
| `SessionCache.Cache.Size` | cmd/mockbackend/cache.go:52-56 | The size is the number of different keys since the last clear, up to the capacity. |
| `SessionCache.Cache.Clear` | cmd/mockbackend/cache.go:59-64 | Everything is forgotten. |
| `SessionCache.Cache.KeysAreRemembered` | cmd/mockbackend/cache.go:13-19 | The keys of the map are decided by the trace alone, by stack distance. |
| `SessionCache.SeenSinceMeaning` | cmd/mockbackend/cache.go:30-32 | The stack distance is what its name says: the different keys after the last occurrence. |
| `SessionCache.Position` | cmd/mockbackend/cache.go:17-17 | A key stands in the recency order right behind the keys seen since. |
| `SessionCache.RememberedByStackDistance` | cmd/mockbackend/cache.go:30-49 | Remembered exactly when the stack distance is below the capacity. |
| `SessionCache.LargerRemembersMore` | cmd/mockbackend/cache.go:13-19 | Fed the same trace, a larger cache remembers all that a smaller one does. |
| `SessionCache.AfterSeeing` | cmd/mockbackend/cache.go:36-47 | How one call changes what is remembered, as moves on a bounded list. |
| `RateLimiting.RateLimiter.Allow` | internal/proxy/ratelimit.go:73-101 | Every request is decided exactly as by a limiter that never forgets a client, whatever was swept and however the rate changed, and without a positive rate it is granted; a client is dropped exactly when a new one comes, 10000 are tracked and it was quiet for more than 600 seconds. |
| `RateLimiting.RateLimiter.SetPerSecond` | internal/proxy/ratelimit.go:50-54 | The new rate is in force and every bucket stays as it was. |
| `RateLimiting.RateLimiter.Sweep` | internal/proxy/ratelimit.go:105-111 | Exactly the clients quiet for longer than the TTL are dropped. |
| `RateLimiting.ForgottenIsFull` | internal/proxy/ratelimit.go:103-111 | A bucket idle for the TTL would have refilled anyway. |
| `RateLimiting.StaysMirrored` | internal/proxy/ratelimit.go:73-101 | Serving a client, with a sweep or without, keeps the tracked buckets a mirror of the unforgetting limiter. |
| `RateLimiting.Account` | internal/proxy/ratelimit.go:88-100 | Over any stretch in which the rate, reloads included, stays positive and at most a top rate, grants and tokens left are paid for by one full bucket and the refill since. |
| `RateLimiting.AdmitsAtMost` | internal/proxy/ratelimit.go:26-28 | While the rate, whatever is reloaded, stays positive and at most top, a limiter lets one client through at most top * (1 + d) times in any stretch of d seconds. |
| `RateLimiting.RefusesExactly` | internal/proxy/ratelimit.go:73-101 | At a fixed positive rate a limiter refuses a request if and only if it would be one too many since some earlier request of its client: more than rate * (1 + d) over the d seconds since. |
| `HealthChecking.CountersAreRuns` | internal/health/health.go:183-195 | The two counters are the lengths of the unbroken run the trace of outcomes ends with. |
| `HealthChecking.OutByTrace` | internal/health/health.go:172-201 | A backend is out exactly when some U failures in a row have been recorded and no H successes in a row after them. |
| `HealthChecking.RunAtTheEnd` | internal/health/health.go:172-201 | Whatever came before, U failures at the end of a trace put a backend out and H successes bring it back. |
| `HealthChecking.TrackedByTrace` | internal/health/health.go:89-97 | Under fixed thresholds the bookkeeping of an address, over reloads, is that of its own trace. |
| `HealthChecking.SurvivorsKeepTheirTrace` | internal/health/health.go:75-77 | Over any events, any number of reloads among them, an address no reload drops keeps its trace and has every outcome reported for it added. |
| `HealthChecking.DroppedIsForgotten` | internal/health/health.go:75-77 | An address that was dropped is forgotten, reports about it meanwhile change nothing, and it returns healthy. |
| `HealthChecking.CountersAreRunsThroughout` | internal/health/health.go:183-195 | Over any reloads and thresholds the counters are the unbroken run the trace ends with. |
| `HealthChecking.LastReloadDecides` | internal/health/health.go:78-98 | Thresholds that change: one more outcome takes a backend out exactly when it completes a run of as many failures as the last reload asks for, and brings it back exactly when it completes such a run of successes, whatever part of the run came before that reload. |
| `HealthChecking.HttpChecker.Reload` | internal/health/health.go:78-98 | The new thresholds are in force, and the rebuilt map holds exactly the new pool, survivors with the very bookkeeping they had and others fresh, and is what the history with the reload calls for. |
| `HealthChecking.HttpChecker.Record` | internal/health/health.go:174-201 | The updated map is the bookkeeping the history with the outcome calls for; an address that is not tracked is ignored. |
| `HealthChecking.HttpChecker.IsHealthy` | internal/health/health.go:112-121 | Untracked, or healthy by its history; under fixed thresholds, not out by its trace. |
| `CircuitBreaking.Breaker.Allow` | internal/proxy/breaker.go:50-74 | Granted exactly when the circuit is closed, or its open period since the last failure is over and no grant since is without its outcome; a disabled breaker grants everything and keeps no record. |
| `CircuitBreaking.Breaker.RecordSuccess` | internal/proxy/breaker.go:77-93 | The tracked circuits stay those the history calls for. |
| `CircuitBreaking.Breaker.RecordFailure` | internal/proxy/breaker.go:97-118 | The tracked circuits stay those the history calls for. |
| `CircuitBreaking.CircuitStep` | internal/proxy/breaker.go:28-36 | The circuit defined by counting over the whole history changes with one event just as the three fields do. |
| `CircuitBreaking.CircuitDecides` | internal/proxy/breaker.go:58-74 | What the history says about a question is what the three fields say. |
| `CircuitBreaking.OpenIffEnoughFailures` | internal/proxy/breaker.go:111-114 | A circuit is open exactly when some stretch up to now holds at least the threshold of failures and no success. |
| `CircuitBreaking.RefusesWhileOpen` | internal/proxy/breaker.go:62-64 | After a failure at t that leaves the circuit open, a breaker refused every question before t plus the open period unless a success came first, times being in order. |
| `CircuitBreaking.OneProbeAtATime` | internal/proxy/breaker.go:65-71 | Between two questions a breaker granted about an open circuit one of its outcomes was recorded. |
| `CircuitBreaking.GrantedExactly` | internal/proxy/breaker.go:50-74 | A breaker granted a question if and only if no success-free stretch up to then held as many failures as the threshold, or the last outcome was a failure at least the open period ago and no question since had been granted. |
| `CircuitBreaking.OthersHaveNoSay` | internal/proxy/breaker.go:25-25 | What is recorded about other backends has no say. |
| `CircuitBreaking.AbandonedProbeShutsOut` | internal/proxy/breaker.go:65-71 | A grant to an open circuit with no outcome recorded since refuses every later question. |
| `CircuitBreaking.LetThroughSomeDay` | internal/proxy/breaker.go:58-74 | With nothing else recorded, a backend will be let through again if and only if its circuit is closed or no grant is outstanding. |
| `StickyPins.NewPins` | internal/proxy/sticky.go:64-81 | Every address of the pool has its token, and every token names a backend it belongs to. |
| `StickyPins.ReadNamesTheOwner` | internal/proxy/sticky.go:94-106 | A cookie of the name in force leads to a backend only if it is that backend's token, and under injective tokens whenever it is. |
| `StickyPins.CookieNamesTheAnswerer` | internal/proxy/sticky.go:108-123 | Whatever cookies a client starts with, after each answered request its cookie of the name in force is the token of the backend that answered. |
| `StickyPins.CookieIsSetWhenNeeded` | internal/proxy/sticky.go:108-123 | An answer sets the cookie if and only if the client does not hold that backend's token under the name in force. |
| `StickyPins.StaysPinned` | internal/proxy/sticky.go:134-152 | Once answered under a name, then over any reloads, whenever that name is in force and the backend is a candidate and answers, requests go to it and no cookie is set, whatever happens in between under other names or with sticky sessions off. |
| `StickyPins.RenamingUnpins` | internal/proxy/sticky.go:94-123 | A reload that renames the cookie unpins: the first request under the new name goes where the algorithm says, whatever is held under the old one, and its answer pins under the new name. |
| `RetryPolicy.AfterAttempt` | internal/proxy/proxy.go:247-269 | Only a failure that may be retried, or the last one allowed, lets the loop go on; a request is abandoned exactly when its client is found gone, the failure of its attempt reported or not. |
| `RetryBudgets.RetryBudget.TryRetry` | internal/proxy/retrybudget.go:37-53 | Reserves exactly when the retries in flight are below the minimum, or one more of them is at most the percentage of the requests in flight; a refusal leaves the counter as it was. |
| `RetryBudgets.RetryBudget.RetryFinished` | internal/proxy/retrybudget.go:48-48 | One retry given back. |
| `RetryBudgets.RetryBudget.RequestStarted` | internal/proxy/retrybudget.go:32-32 | One request more in the load. |
| `RetryBudgets.RetryBudget.RequestFinished` | internal/proxy/retrybudget.go:35-35 | One request fewer in the load. |
| `RetryBudgets.LimitGrows` | internal/proxy/retrybudget.go:50-53 | The limit never falls as the load rises. |
| `RetryBudgets.LimitIs` | internal/proxy/retrybudget.go:50-53 | The limit is the larger of the minimum and the whole number of retries in the percentage of the load. |
| `RetryBudgets.WithinLimit` | internal/proxy/retrybudget.go:50-53 | Being within the limit without rounding: at most the minimum, or a hundred times it at most percent times the load. |
| `Interleaving.CountersAreAlwaysExact` | internal/proxy/proxy.go:209-289 | In every state of every run of interleaved requests and reloads, each backend counts the requests holding it, each budget counts the requests and the retries that took its snapshot, and no more than top reservations stand with a ticket of at most top. |
| `Interleaving.CountersCountTheirHolders` | internal/proxy/proxy.go:209-289 | So in every state of every run each backend's counter is the number of requests that hold it, and each budget's two counters are the numbers of requests and of tickets counted into it. |
| `Interleaving.StepKeepsTickets` | internal/proxy/retrybudget.go:39-45 | Adding before weighing is what bounds the retries: a new ticket is one more than the reservations that stand. |
| `Interleaving.StepKeepsExact` | internal/proxy/proxy.go:221-289 | Every atomic step of a request moves each counter by exactly what the request came to hold or gave back. |
| `Interleaving.StepKeepsConsistent` | internal/proxy/proxy.go:227-270 | Every atomic step keeps every request's account of its offers and outcomes. |
| `Interleaving.ReloadKeepsInvariant` | internal/proxy/proxy.go:113-120 | A reload keeps all of it, for requests still working from older snapshots too. |
| `Interleaving.RetriesAreHeldOrInTransit` | internal/proxy/retrybudget.go:22-23 | A budget's counter is the retries held plus the reservations being weighed or taken back. |
| `Interleaving.RetriesStayInBudget` | internal/proxy/retrybudget.go:9-16 | Under every interleaving the retries held are at most the minimum, or a hundred times their number is at most percent times the largest load any of them was let through at. |
| `Interleaving.WeighsExactly` | internal/proxy/retrybudget.go:37-53 | In every run a reservation is let through exactly when its ticket is at most the minimum or within the percentage of the load read, and a ticket counts at least itself. |
| `Interleaving.LoadsTheNewest` | internal/proxy/proxy.go:207-215 | A request works from the settings of the newest reload when it reads them. |
| `Interleaving.KeepsItsSettings` | internal/proxy/proxy.go:207-215 | From then on it works from the same settings to its end, whatever is reloaded meanwhile. |
| `Interleaving.EverythingReturnsToZero` | internal/proxy/proxy.go:278-289 | Once all requests have ended, in whatever way, panics included, every counter is zero. |
| `Interleaving.EveryEndIsExplained` | internal/proxy/proxy.go:207-276 | Every request that has ended was offered and answered as its verdict says, whatever ran beside it. |
| `Interleaving.OfferedOnceEach` | internal/proxy/proxy.go:226-232 | At no point of any run has a request been offered to one backend twice; one that is not idempotent has failed at dialling everywhere but at its last. |
| `Interleaving.EveryoneWasAsked` | internal/proxy/proxy.go:226-270 | In every run, an idempotent request whose every attempt failed, and that the budget did not refuse, was offered to exactly min(pool size, attempts) different backends of its snapshot. |
| `Interleaving.SurvivorsKeepTheirCount` | internal/balancer/balancer.go:112-117 | An address that survives a reload keeps its object and its count of requests in flight. |
| `Interleaving.NobodyIsStuck` | internal/proxy/proxy.go:227-276 | A request that has not ended can always take its next step without waiting for another. |
| `Interleaving.EveryStepIsProgress` | internal/proxy/proxy.go:209-276 | Every step, that of reading the snapshot included, brings a request nearer to its end, so the retry loop ends however the others run. |
| `Placement.SelectLeast` | internal/balancer/leastconnections.go:35-56 | Of the two different positions two draws stand for, the backend with fewer requests in flight, the first drawn on a tie; of two backends, always one with the fewest. |
| `Placement.AnyTwoAreDrawn` | internal/balancer/leastconnections.go:44-50 | Any two different positions are drawn, in either order, by some draws. |
| `Placement.Choose` | internal/proxy/hashing.go:31-51 | Each strategy on its live object: round robin the backend at the counter, which only a first attempt advances; weighted round robin the first with the most credit and weight, which then pays, retries included; consistent hashing the largest claim on the key when unbounded and one below the bound at a factor of at least 100; least connections, and a request without a key, the less busy of two. |
| `Placement.Place` | internal/proxy/sticky.go:140-152 | To the pinned backend while it is a candidate, without touching the strategy; otherwise where the algorithm says. |
| `Placement.ReasonIsTheTruth` | internal/proxy/hashing.go:53-65 | A key counted as passed over for load had a full home, one counted as unavailable had lost its home, and a home among the candidates with room is where its key went. |
| `RequestRules.EligibleUnlessAllTried` | internal/proxy/proxy.go:361-388 | Candidates were never tried before, and there are none exactly when all have been tried. |
| `RequestRules.CandidatesByTrace` | internal/proxy/proxy.go:361-388 | Under fixed health thresholds a backend is a candidate if and only if it was not tried and either is not out by its trace and let through by the breaker's rule, or no untried backend is. |
| `RequestRules.KeepKeepsOrder` | internal/proxy/proxy.go:361-388 | Candidates stand in the order of the pool. |
| `RequestRules.LeftOutAsIfGone` | internal/balancer/consistenthash.go:34-37 | Backends left out of the candidates, as unhealthy, tripped or tried, are to consistent hashing as if they had left the pool, so what is proved of leaving applies to failover and retries. |
| `RequestRules.SettingsFor` | internal/proxy/proxy.go:139-163 | New settings start idle, with every circuit closed under the configured threshold and open period, a token for every backend under the configured cookie name, and more than one attempt only when failures are retried. |
| `RequestRules.AskingSpendsTheProbe` | internal/proxy/proxy.go:374-381 | Determining the candidates leaves a grant outstanding for every fit backend whose circuit is open, chosen or not. |
| `RequestRules.ProbeIsCarriedOut` | internal/proxy/proxy.go:374-388 | The probe of a fit backend with an open circuit is carried out by an attempt if and only if the attempt goes there and its client stays until the outcome is reported; otherwise no later question is granted. |
| `RequestRules.ProbeOfARequest` | internal/proxy/breaker.go:11-18 | For a whole request under the breaker policy: the probe is carried out if and only if the backend is the request's destination, by its cookie or by what the strategy remembers before the request, and the client stays until the outcome is reported. |
| `RequestRules.OneDestination` | internal/proxy/hashing.go:31-51 | Without ties between claims on a key there is exactly one such destination. |
| `RequestRules.LostProbe` | internal/proxy/proxy.go:374-388 | For a request that comes to two healthy backends, the second open with its time up, the turn on the first: it is answered by the first, the breaker has been told exactly of two grants and one success, and with nothing else recorded no later question about the second is granted. |
| `ProxyCore.LoseTheProbe` | internal/proxy/proxy.go:361-388 | That instance on live objects: a balancer of two backends, one recorded failure, one request through the loop half a minute later, and then a question at any later time, which is refused. The whole history of its breaker is stated. |
| `RequestRules.OneTurnAtMost` | internal/proxy/hashing.go:31-38 | Under round robin a request takes one turn with its first attempt, unless that is pinned, and none with its retries. |
| `RequestRules.WhatItComesDownTo` | internal/proxy/proxy.go:226-270 | However a request ends, its offers are all different; one that is idempotent, all failed and not refused went to min(pool size, attempts) backends; one that is not has reached at most its last. |
| `RequestRules.InPlainWords` | internal/proxy/proxy.go:207-276 | The same with methods, verdicts and outcomes written out: how the verdict follows from the last outcome, how far a request that failed everywhere went by its method, and that one with another method failed at dialling everywhere but at its last. |
| `RequestRules.CookieInPlainWords` | internal/proxy/sticky.go:94-123 | The cookie of an answered or broken-off request is the last backend's token unless the request's own cookie led there; no other request gets one. |
| `RequestRules.RequestIsAnExchange` | internal/proxy/sticky.go:134-152 | A request through the loop is an exchange of the cookie protocol: where it went first and the cookie it got are what that protocol says. |
| `RequestRules.KeyDecides` | internal/proxy/hashing.go:31-51 | A request with a key and no cookie that decides goes, under an unbounded load, first to a candidate whose claim on its key is largest. |
| `RequestRules.OneKeyOneBackend` | internal/balancer/consistenthash.go:31-37 | Two such requests with one key and the same candidates go first to the same backend, whatever the draws and loads. |
| `RequestRules.OnlyBackendLearns` | internal/proxy/proxy.go:278-359 | A served attempt is reported as a success and a failed one as a failure, to health checking and to the breaker, once. |
| `RequestRules.RoundWithSomebody` | internal/proxy/proxy.go:227-269 | One round extends a request's story: an end that is explained, or another round. |
| `RequestRules.RoundWithNobody` | internal/proxy/proxy.go:228-231 | Running out of candidates ends a request with every backend tried, and asks nobody about anything. |
| `ProxyCore.Core.Available` | internal/proxy/proxy.go:361-388 | Exactly the untried backends that are healthy and let through, in pool order; all untried ones when there are none; and exactly one question to the breaker for each untried healthy backend. |
| `ProxyCore.Core.Try` | internal/proxy/proxy.go:278-359 | Backend released and retry given back however the attempt ends, and exactly one report of the outcome to health checking and the breaker, or none for a client that was gone before it. |
| `ProxyCore.Core.NextBackend` | internal/proxy/proxy.go:228-229 | The pinned backend or the strategy's choice among exactly the candidates, with what the strategy remembers afterwards; none exactly when all have been tried. |
| `ProxyCore.Core.OneRound` | internal/proxy/proxy.go:227-245 | One round of the loop under any strategy, with its effect on what is known, on what the strategy remembers and on the counters. |
| `ProxyCore.Core.OfferAround` | internal/proxy/proxy.go:227-275 | The loop as a whole, for a request already counted in. |
| `ProxyCore.Core.ServeHttp` | internal/proxy/proxy.go:207-276 | For any sequence of outcomes and under every strategy: the verdict is the one the last outcome calls for; no backend is offered the request twice; a GET, HEAD, PUT, DELETE, OPTIONS or TRACE that fails everywhere, and any request that can nowhere be dialled, goes to min(pool size, attempts) backends unless the budget refuses; any other method failed at dialling everywhere but at its last backend; the budget refuses only over its minimum and percentage; every attempt went where cookie and strategy say given all that was reported and remembered by then; each outcome was reported once; all counters are back; and the cookie on the answer, broken off or not, is the answering backend's token. |
| `ProxyCore.ServeAll` | internal/proxy/proxy.go:278-388 | Requests one after another through the loop of a balancer with one backend: as many failures at the end as health checking asks for put it out, as many as the breaker asks for open its circuit until the open period is over, as many successes bring it back, and one closes its circuit, whatever went before. |
| `ProxyCore.ServeTwice` | internal/proxy/hashing.go:31-51 | Two requests with one key through the loop, under an unbounded load and without cookies, go first to the same backend when they find the same candidates. |

## Left out

- Sockets, the reverse proxy and its transport, the buffer pool, request identifiers, logging, metrics, servers, and parsing and validating configuration.
- Buffering and replaying request bodies, and the refusal of a body that is too large, which precedes the retry loop.
- Rounding of 64-bit floating point: scores, percentages, tokens and durations are real numbers. A score is the weight times a positive draw, and ties go by pool order where the code's scan does that.
- The distribution of keys and of random draws. Least connections is the less busy of two different backends drawn, with the draws as parameters.
- The strength of the cookie's signature: a token is a function of the address, injective on a pool where a result needs it. Cookie attributes, and taking the cookie off forwarded requests.
- Clocks that run back, and saturation of durations: times given to one object never decrease where a result says so. One reading of the clock stands for all questions about candidates in a round.
- Sorting inside the standard library: ranking is an insertion sort, and nothing relies on how it orders equal scores.
- The linked list of the session cache is a sequence of element objects found by identity.
- Probing goroutines of the health checker: a probe is an outcome recorded at any time.
- The rule that turns answers of 500 and above into failures, which reads the live settings rather than the request's snapshot: its effect is an attempt that failed after sending.
- A client that hangs up ends its request as abandoned whether or not an answer had begun, and the cookie of such an answer is not followed. Cookies do not expire, and a client has one of each name.
- RateLimiting.RefusesExactly: it is about a fixed rate. While the rate changes, `RateLimiting.RateLimiter.Allow` and `RateLimiting.AdmitsAtMost` are what is stated.
- BoundedLoads.LoadsStayBounded: choosing a backend and counting the request into it are one step, which is what the exact bound needs; `BoundedLoads.RacesOvershootByTheOthers` is the bound without that.
- BoundedLoads.RacesOvershootByTheOthers: one choice reads all loads at one time, while the code reads them one after another.
- Interleaving.CountersAreAlwaysExact: the candidates of a retry are any untried backends of the snapshot, which covers whatever health checking, the breaker and the strategy allow.
- Interleaving.RetriesStayInBudget: nothing is said about a budget being willing; a reservation being taken back can make another be refused.
- The proportions of first attempts alone when weighted retries are interleaved; every selection is counted.
- ProxyCore.Core.ServeHttp: one request at a time on the shared objects; concurrency is the subject of `Interleaving`. What a request sees of weights and loads does not change while it is placed.
- The rest of the mock backend, the demo, the load generator, scripts and dashboards.
