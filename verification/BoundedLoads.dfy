/**
 The bound of consistent hashing with bounded loads, over the loads and the
 effective weights of a pool: who has room, why somebody always has, and how far
 any backend's load can rise over a whole run.
 */
module BoundedLoads {
  import opened Basics
  import opened Sums

  /** The smallest integer that is at least `x`. */
  function Ceil(x: real): int {
    -(-x).Floor
  }

  /** `factor` per cent of a weight's share of the requests in flight. */
  function Allowance(factor: int, inFlight: int, weight: int, total: int): real
    requires total > 0
  {
    factor as real / 100.0 * (inFlight as real * weight as real / total as real)
  }

  /** The least whole number of requests that is not below a backend's allowance. */
  function Bound(factor: int, inFlight: int, weight: int, total: int): int
    requires total > 0
  {
    Ceil(Allowance(factor, inFlight, weight, total))
  }

  /** Whether a backend may take one more request, counting the one being placed as in flight. */
  predicate HasRoom(factor: int, inFlight: int, total: int, active: int, weight: int)
    requires total > 0
  {
    active < Bound(factor, inFlight + 1, weight, total)
  }

  /** An integer is below the ceiling of `x` exactly when it is below `x`. */
  lemma BelowCeil(n: int, x: real)
    ensures n < Ceil(x) <==> n as real < x
  {
  }

  /** Room in integers: rounding up never matters to a load that is a whole number. */
  lemma RoomInIntegers(factor: int, inFlight: int, total: int, active: int, weight: int)
    requires total > 0
    ensures HasRoom(factor, inFlight, total, active, weight)
       <==> active * 100 * total < factor * (inFlight + 1) * weight
  {
    var x := Allowance(factor, inFlight + 1, weight, total);
    BelowCeil(active, x);
    var bound := factor * (inFlight + 1) * weight;
    var scale := 100.0 * total as real;
    assert x * scale == bound as real by {
      BoundScales(factor as real, (inFlight + 1) as real, weight as real, total as real);
      assert (factor * (inFlight + 1) * weight) as real == factor as real * (inFlight + 1) as real * weight as real;
    }
    ScaleKeepsOrder(active as real, x, scale);
    assert active as real * scale == (active * 100 * total) as real;
  }

  lemma BoundScales(f: real, a: real, w: real, t: real)
    requires t > 0.0
    ensures f / 100.0 * (a * w / t) * (100.0 * t) == f * a * w
  {
    var q := a * w / t;
    assert q * t == a * w;
    assert f / 100.0 * q * (100.0 * t) == f * (q * t);
  }

  lemma ScaleKeepsOrder(a: real, b: real, c: real)
    requires c > 0.0
    ensures a < b <==> a * c < b * c
  {
    if a < b {
      assert 0.0 < (b - a) * c;
    } else {
      assert 0.0 <= (a - b) * c;
    }
  }

  ghost predicate ValidLoads(loads: seq<int>, weights: seq<int>) {
    && |loads| == |weights| > 0
    && (forall i :: 0 <= i < |loads| ==> 0 <= loads[i])
    && (forall i :: 0 <= i < |weights| ==> 1 <= weights[i])
  }

  lemma PositiveTotal(weights: seq<int>)
    requires forall i :: 0 <= i < |weights| ==> 1 <= weights[i]
    ensures weights != [] ==> 0 < Sum(weights)
  {
    if weights != [] {
      FirstEntry(weights, |weights|);
      PartAtMostWhole(weights, {0}, |weights|);
    }
  }

  lemma SumsOfLoads(loads: seq<int>, weights: seq<int>)
    requires ValidLoads(loads, weights)
    ensures 0 <= Sum(loads) && 0 < Sum(weights)
  {
    PartAtMostWhole(loads, {}, |loads|);
    PositiveTotal(weights);
  }

  lemma {:induction false} FirstEntry(x: seq<int>, n: nat)
    requires 0 < n <= |x|
    ensures SumOn(x, {0}, n) == x[0]
  {
    if n > 1 {
      FirstEntry(x, n - 1);
    }
  }

  ghost predicate Roomy(factor: int, loads: seq<int>, weights: seq<int>, i: nat)
    requires ValidLoads(loads, weights) && i < |loads|
  {
    SumsOfLoads(loads, weights);
    HasRoom(factor, Sum(loads), Sum(weights), loads[i], weights[i])
  }

  /** With a bound of at least the fair share, whatever the loads and weights somebody has room. */
  lemma SomebodyHasRoom(factor: int, loads: seq<int>, weights: seq<int>) returns (i: nat)
    requires ValidLoads(loads, weights) && factor >= 100
    ensures i < |loads| && Roomy(factor, loads, weights, i)
  {
    SumsOfLoads(loads, weights);
    var inFlight, total := Sum(loads), Sum(weights);
    i := 0;
    while i < |loads| && !HasRoom(factor, inFlight, total, loads[i], weights[i])
      invariant i <= |loads|
      invariant forall k :: 0 <= k < i ==> !HasRoom(factor, inFlight, total, loads[k], weights[k])
    {
      i := i + 1;
    }
    if i == |loads| {
      FullPoolIsTooFull(factor, inFlight, total, loads, weights, |loads|);
      Overfull(factor, inFlight, total);
      assert false;
    }
  }

  /** If none of the first `n` has room, together they hold at least the bound of all of them. */
  lemma {:induction false} FullPoolIsTooFull(factor: int, inFlight: int, total: int, loads: seq<int>, weights: seq<int>,
                                             n: nat)
    requires |loads| == |weights| && n <= |loads| && total > 0
    requires forall k :: 0 <= k < n ==> !HasRoom(factor, inFlight, total, loads[k], weights[k])
    ensures factor * (inFlight + 1) * SumOn(weights, Upto(|weights|), n) <= SumOn(loads, Upto(|loads|), n) * 100 * total
  {
    if n > 0 {
      FullPoolIsTooFull(factor, inFlight, total, loads, weights, n - 1);
      RoomInIntegers(factor, inFlight, total, loads[n - 1], weights[n - 1]);
      OneMoreTerm(factor * (inFlight + 1), 100 * total, SumOn(weights, Upto(|weights|), n - 1), weights[n - 1],
                  SumOn(loads, Upto(|loads|), n - 1), loads[n - 1]);
    }
  }

  lemma OneMoreTerm(f: int, g: int, a: int, b: int, c: int, d: int)
    requires f * a <= c * g && f * b <= d * g
    ensures f * (a + b) <= (c + d) * g
  {
  }

  lemma Overfull(factor: int, inFlight: int, total: int)
    requires factor >= 100 && inFlight >= 0 && total > 0
    ensures inFlight * 100 * total < factor * (inFlight + 1) * total
  {
    assert inFlight * 100 < factor * (inFlight + 1) by {
      assert 100 * (inFlight + 1) <= factor * (inFlight + 1);
    }
  }

  // ------------------------------------------------------------ whole runs

  /** A request placed on a backend, or one finished there. */
  datatype Event = Placed(backend: nat) | Finished(backend: nat)

  ghost function After(loads: seq<int>, event: Event): (r: seq<int>)
    requires event.backend < |loads|
    ensures |r| == |loads|
  {
    loads[event.backend := loads[event.backend] + if event.Placed? then 1 else -1]
  }

  /** What one step of the balancer may do: place on a backend with room, or finish a request in flight. */
  ghost predicate Possible(factor: int, weights: seq<int>, loads: seq<int>, event: Event)
    requires ValidLoads(loads, weights)
  {
    && event.backend < |loads|
    && (event.Placed? ==> Roomy(factor, loads, weights, event.backend))
    && (event.Finished? ==> 1 <= loads[event.backend])
  }

  /** The loads after a run of events from an idle pool, if every event was possible when it happened. */
  ghost function LoadsAfter(factor: int, weights: seq<int>, run: seq<Event>, n: nat): (loads: Option<seq<int>>)
    requires n <= |run| && weights != [] && forall i :: 0 <= i < |weights| ==> 1 <= weights[i]
    ensures loads.Some? ==> ValidLoads(loads.value, weights)
  {
    if n == 0 then Some(seq(|weights|, _ => 0)) else
      var before := LoadsAfter(factor, weights, run, n - 1);
      if before.None? || !Possible(factor, weights, before.value, run[n - 1]) then None
      else Some(After(before.value, run[n - 1]))
  }

  /** The most requests in flight at once over the first `n` events. */
  ghost function Peak(factor: int, weights: seq<int>, run: seq<Event>, n: nat): (peak: int)
    requires n <= |run| && weights != [] && forall i :: 0 <= i < |weights| ==> 1 <= weights[i]
    requires LoadsAfter(factor, weights, run, n).Some?
  {
    var now := Sum(LoadsAfter(factor, weights, run, n).value);
    if n == 0 then now else Max(now, Peak(factor, weights, run, n - 1))
  }

  /**
   Over any run on a fixed pool that starts idle, no backend's load ever exceeds
   its weight's share of the highest total so far, times the factor, rounded up.
   */
  lemma {:induction false} LoadsStayBounded(factor: int, weights: seq<int>, run: seq<Event>, n: nat, b: nat)
    requires n <= |run| && weights != [] && (forall i :: 0 <= i < |weights| ==> 1 <= weights[i]) && factor >= 0
    requires LoadsAfter(factor, weights, run, n).Some? && b < |weights|
    ensures 0 < Sum(weights)
    ensures LoadsAfter(factor, weights, run, n).value[b]
         <= Bound(factor, Peak(factor, weights, run, n), weights[b], Sum(weights))
  {
    var loads := LoadsAfter(factor, weights, run, n).value;
    SumsOfLoads(loads, weights);
    if n == 0 {
      BoundGrows(factor, 0, Sum(loads), weights[b], Sum(weights));
    } else {
      var before, event := LoadsAfter(factor, weights, run, n - 1).value, run[n - 1];
      LoadsStayBounded(factor, weights, run, n - 1, b);
      PeakCoversNow(factor, weights, run, n - 1);
      BoundGrows(factor, Peak(factor, weights, run, n - 1), Peak(factor, weights, run, n), weights[b], Sum(weights));
      BoundGrows(factor, Sum(loads), Peak(factor, weights, run, n), weights[b], Sum(weights));
      if event == Placed(b) {
        PlacedWithinBound(factor, weights, before, event);
      }
    }
  }

  /** A placement leaves its backend within the bound of the load it leaves behind. */
  lemma PlacedWithinBound(factor: int, weights: seq<int>, loads: seq<int>, event: Event)
    requires ValidLoads(loads, weights) && Possible(factor, weights, loads, event) && event.Placed?
    ensures 0 < Sum(weights) && Sum(After(loads, event)) == Sum(loads) + 1
    ensures After(loads, event)[event.backend]
         <= Bound(factor, Sum(After(loads, event)), weights[event.backend], Sum(weights))
  {
    SumsOfLoads(loads, weights);
    SumAfterUpdate(loads, event.backend, loads[event.backend] + 1, Upto(|loads|), |loads|);
  }

  lemma PeakCoversNow(factor: int, weights: seq<int>, run: seq<Event>, n: nat)
    requires n <= |run| && weights != [] && forall i :: 0 <= i < |weights| ==> 1 <= weights[i]
    requires LoadsAfter(factor, weights, run, n).Some?
    ensures 0 <= Sum(LoadsAfter(factor, weights, run, n).value) <= Peak(factor, weights, run, n)
  {
    SumsOfLoads(LoadsAfter(factor, weights, run, n).value, weights);
  }

  /** The peak is the total at some point so far, and no total so far is higher. */
  lemma {:induction false} PeakIsTheHighest(factor: int, weights: seq<int>, run: seq<Event>, n: nat) returns (at: nat)
    requires n <= |run| && weights != [] && forall i :: 0 <= i < |weights| ==> 1 <= weights[i]
    requires LoadsAfter(factor, weights, run, n).Some?
    ensures at <= n && LoadsAfter(factor, weights, run, at).Some?
    ensures Peak(factor, weights, run, n) == Sum(LoadsAfter(factor, weights, run, at).value)
    ensures forall k: nat :: k <= n ==>
              && LoadsAfter(factor, weights, run, k).Some?
              && Sum(LoadsAfter(factor, weights, run, k).value) <= Peak(factor, weights, run, n)
  {
    at := n;
    if n > 0 {
      var before := PeakIsTheHighest(factor, weights, run, n - 1);
      if Sum(LoadsAfter(factor, weights, run, n).value) < Peak(factor, weights, run, n - 1) {
        at := before;
      }
    }
  }

  // --------------------------------------- requests that choose in between

  /** A request chooses a backend by the loads it finds, is counted there later, and ends. */
  datatype Move = Chose(backend: nat) | Counted(backend: nat) | Ended(backend: nat)

  /** The loads that are counted, and the requests that have chosen and are not counted yet. */
  datatype Race = Race(loads: seq<int>, chosen: seq<int>)

  ghost predicate ValidRace(race: Race, weights: seq<int>) {
    && ValidLoads(race.loads, weights)
    && |race.chosen| == |weights|
    && forall i :: 0 <= i < |weights| ==> 0 <= race.chosen[i]
  }

  ghost predicate Allowed(factor: int, weights: seq<int>, race: Race, move: Move)
    requires ValidRace(race, weights)
  {
    && move.backend < |weights|
    && match move
       case Chose(b) => Roomy(factor, race.loads, weights, b)
       case Counted(b) => 1 <= race.chosen[b]
       case Ended(b) => 1 <= race.loads[b]
  }

  ghost function Moved(race: Race, move: Move): Race
    requires move.backend < |race.loads| == |race.chosen|
  {
    var b, (loads, chosen) := move.backend, (race.loads, race.chosen);
    match move
    case Chose(_) => Race(loads, chosen[b := chosen[b] + 1])
    case Counted(_) => Race(loads[b := loads[b] + 1], chosen[b := chosen[b] - 1])
    case Ended(_) => Race(loads[b := loads[b] - 1], chosen)
  }

  /** Where a run of moves from an idle pool leads, if every move was allowed when it was made. */
  ghost function RaceAfter(factor: int, weights: seq<int>, run: seq<Move>, n: nat): (race: Option<Race>)
    requires n <= |run| && weights != [] && forall i :: 0 <= i < |weights| ==> 1 <= weights[i]
    ensures race.Some? ==> ValidRace(race.value, weights)
  {
    if n == 0 then Some(Race(seq(|weights|, _ => 0), seq(|weights|, _ => 0))) else
      var before := RaceAfter(factor, weights, run, n - 1);
      if before.None? || !Allowed(factor, weights, before.value, run[n - 1]) then None
      else Some(Moved(before.value, run[n - 1]))
  }

  /** The most requests there were at once, chosen or counted, over the first `n` moves. */
  ghost function PeakOfAll(factor: int, weights: seq<int>, run: seq<Move>, n: nat): (peak: int)
    requires n <= |run| && weights != [] && forall i :: 0 <= i < |weights| ==> 1 <= weights[i]
    requires RaceAfter(factor, weights, run, n).Some?
    ensures var race := RaceAfter(factor, weights, run, n).value;
            Sum(race.loads) + Sum(race.chosen) <= peak
  {
    var race := RaceAfter(factor, weights, run, n).value;
    var now := Sum(race.loads) + Sum(race.chosen);
    if n == 0 then now else Max(now, PeakOfAll(factor, weights, run, n - 1))
  }

  /** The most requests there were at once that had chosen and were not counted. */
  ghost function MostChosen(factor: int, weights: seq<int>, run: seq<Move>, n: nat): (most: int)
    requires n <= |run| && weights != [] && forall i :: 0 <= i < |weights| ==> 1 <= weights[i]
    requires RaceAfter(factor, weights, run, n).Some?
    ensures Sum(RaceAfter(factor, weights, run, n).value.chosen) <= most
  {
    var now := Sum(RaceAfter(factor, weights, run, n).value.chosen);
    if n == 0 then now else Max(now, MostChosen(factor, weights, run, n - 1))
  }

  /** That peak is the total at some point so far, and no total so far is higher. */
  lemma {:induction false} PeakOfAllIsTheHighest(factor: int, weights: seq<int>, run: seq<Move>, n: nat)
    returns (at: nat)
    requires n <= |run| && weights != [] && forall i :: 0 <= i < |weights| ==> 1 <= weights[i]
    requires RaceAfter(factor, weights, run, n).Some?
    ensures at <= n && RaceAfter(factor, weights, run, at).Some?
    ensures var race := RaceAfter(factor, weights, run, at).value;
            PeakOfAll(factor, weights, run, n) == Sum(race.loads) + Sum(race.chosen)
  {
    at := n;
    if n > 0 {
      var before := PeakOfAllIsTheHighest(factor, weights, run, n - 1);
      var race := RaceAfter(factor, weights, run, n).value;
      if Sum(race.loads) + Sum(race.chosen) < PeakOfAll(factor, weights, run, n - 1) {
        at := before;
      }
    }
  }

  /** And as many had chosen and were not counted at some point so far. */
  lemma {:induction false} MostWereChosen(factor: int, weights: seq<int>, run: seq<Move>, n: nat) returns (at: nat)
    requires n <= |run| && weights != [] && forall i :: 0 <= i < |weights| ==> 1 <= weights[i]
    requires RaceAfter(factor, weights, run, n).Some?
    ensures at <= n && RaceAfter(factor, weights, run, at).Some?
    ensures MostChosen(factor, weights, run, n) == Sum(RaceAfter(factor, weights, run, at).value.chosen)
  {
    at := n;
    if n > 0 {
      var before := MostWereChosen(factor, weights, run, n - 1);
      if Sum(RaceAfter(factor, weights, run, n).value.chosen) < MostChosen(factor, weights, run, n - 1) {
        at := before;
      }
    }
  }

  /**
   The load of `b`, with the requests bound for it, is at most the bound at the peak
   and the others that may choose meanwhile.
   */
  ghost predicate Within(factor: int, weights: seq<int>, race: Race, b: nat, peak: int, most: int)
    requires b < |weights| == |race.loads| == |race.chosen| && 0 < Sum(weights)
  {
    race.loads[b] + race.chosen[b] <= Bound(factor, peak, weights[b], Sum(weights)) + Max(most - 1, 0)
  }

  /**
   Over any interleaving of choosing, counting and ending from an idle pool, no
   backend's load, the requests bound for it included, exceeds its bound at the peak
   by more than the requests that can choose before the others are counted.
   */
  lemma {:induction false} RacesOvershootByTheOthers(factor: int, weights: seq<int>, run: seq<Move>, n: nat, b: nat)
    requires n <= |run| && weights != [] && (forall i :: 0 <= i < |weights| ==> 1 <= weights[i]) && factor >= 0
    requires RaceAfter(factor, weights, run, n).Some? && b < |weights|
    ensures 0 < Sum(weights)
    ensures Within(factor, weights, RaceAfter(factor, weights, run, n).value, b,
                   PeakOfAll(factor, weights, run, n), MostChosen(factor, weights, run, n))
  {
    PositiveTotal(weights);
    if n == 0 {
      SumsOfLoads(RaceAfter(factor, weights, run, 0).value.loads, weights);
      SumsOfLoads(RaceAfter(factor, weights, run, 0).value.chosen, weights);
      BoundGrows(factor, 0, PeakOfAll(factor, weights, run, 0), weights[b], Sum(weights));
    } else {
      RacesOvershootByTheOthers(factor, weights, run, n - 1, b);
      OvershootMoves(factor, weights, RaceAfter(factor, weights, run, n - 1).value, run[n - 1], b,
                     PeakOfAll(factor, weights, run, n - 1), PeakOfAll(factor, weights, run, n),
                     MostChosen(factor, weights, run, n - 1), MostChosen(factor, weights, run, n));
    }
  }

  lemma OvershootMoves(factor: int, weights: seq<int>, before: Race, move: Move, b: nat,
                       peakBefore: int, peak: int, mostBefore: int, most: int)
    requires ValidRace(before, weights) && Allowed(factor, weights, before, move) && b < |weights| && factor >= 0
    requires Sum(before.loads) + Sum(before.chosen) <= peakBefore <= peak && mostBefore <= most
    requires Sum(Moved(before, move).loads) + Sum(Moved(before, move).chosen) <= peak
    requires Sum(Moved(before, move).chosen) <= most
    requires 0 < Sum(weights) && Within(factor, weights, before, b, peakBefore, mostBefore)
    ensures Within(factor, weights, Moved(before, move), b, peak, most)
  {
    SumsOfLoads(before.loads, weights);
    SumsOfLoads(before.chosen, weights);
    BoundGrows(factor, peakBefore, peak, weights[b], Sum(weights));
    if move == Chose(b) {
      ChoosesWithinBound(factor, weights, before, b);
      BoundGrows(factor, Sum(before.loads) + 1, peak, weights[b], Sum(weights));
    }
  }

  /** One that chooses a backend finds it below the bound, and shares it with the others that have chosen at most. */
  lemma ChoosesWithinBound(factor: int, weights: seq<int>, race: Race, b: nat)
    requires ValidRace(race, weights) && Allowed(factor, weights, race, Chose(b))
    ensures 0 < Sum(weights)
    ensures Sum(Moved(race, Chose(b)).chosen) == Sum(race.chosen) + 1
    ensures race.loads[b] + 1 <= Bound(factor, Sum(race.loads) + 1, weights[b], Sum(weights))
    ensures race.chosen[b] <= Sum(race.chosen)
  {
    SumsOfLoads(race.loads, weights);
    SumAfterUpdate(race.chosen, b, race.chosen[b] + 1, Upto(|race.chosen|), |race.chosen|);
    EntryAtMostSum(race.chosen, b, |race.chosen|);
  }

  lemma BoundGrows(factor: int, low: int, high: int, weight: int, total: int)
    requires factor >= 0 && 0 <= low <= high && weight >= 1 && total > 0
    ensures 0 <= Bound(factor, low, weight, total) <= Bound(factor, high, weight, total)
  {
    var w, t, f := weight as real, total as real, factor as real / 100.0;
    ProductGrows(0.0, low as real, w);
    ProductGrows(low as real, high as real, w);
    QuotientGrows(0.0, low as real * w, t);
    QuotientGrows(low as real * w, high as real * w, t);
    ProductGrows(0.0, low as real * w / t, f);
    ProductGrows(low as real * w / t, high as real * w / t, f);
    CeilGrows(0.0, Allowance(factor, low, weight, total));
    CeilGrows(Allowance(factor, low, weight, total), Allowance(factor, high, weight, total));
  }

  lemma ProductGrows(x: real, y: real, c: real)
    requires x <= y && 0.0 <= c
    ensures x * c <= y * c && c * x <= c * y && 0.0 * c == 0.0
  {
    assert 0.0 <= (y - x) * c;
  }

  lemma QuotientGrows(x: real, y: real, c: real)
    requires x <= y && 0.0 < c
    ensures x / c <= y / c && 0.0 / c == 0.0
  {
    ProductGrows(x, y, 1.0 / c);
    assert x / c == x * (1.0 / c);
    assert y / c == y * (1.0 / c);
  }

  lemma CeilGrows(x: real, y: real)
    requires x <= y
    ensures Ceil(x) <= Ceil(y)
  {
  }
}
