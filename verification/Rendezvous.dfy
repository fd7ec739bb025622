/**
 Weighted rendezvous hashing as a choice among values: every candidate claims a
 key with a score, and the highest score is the key's home. The results hold for
 every scoring, ties included; a tie goes to the earlier candidate.
 */
module Rendezvous {
  import opened Basics

  datatype Candidate = Candidate(addr: Str, weight: int)

  /** How strongly each candidate claims one key. */
  type Scoring = Candidate -> real

  /** The home of the key among the first `n` candidates. */
  function HomeAmong(score: Scoring, pool: seq<Candidate>, n: nat): (home: Option<Candidate>)
    requires n <= |pool|
    ensures home.None? <==> n == 0
  {
    if n == 0 then None else
      var best := HomeAmong(score, pool, n - 1);
      if best.None? || score(pool[n - 1]) > score(best.value) then Some(pool[n - 1]) else best
  }

  /** One more candidate becomes the home exactly when it outscores the home so far. */
  lemma HomeStep(score: Scoring, pool: seq<Candidate>, n: nat)
    requires 0 < n < |pool|
    ensures HomeAmong(score, pool, 1) == Some(pool[0])
    ensures HomeAmong(score, pool, n + 1)
         == if score(pool[n]) > score(HomeAmong(score, pool, n).value) then Some(pool[n]) else HomeAmong(score, pool, n)
  {
  }

  function Home(score: Scoring, pool: seq<Candidate>): Option<Candidate> {
    HomeAmong(score, pool, |pool|)
  }

  /** The home is the first of the candidates that no other outscores. */
  lemma {:induction false} HomeIsFirstHighest(score: Scoring, pool: seq<Candidate>, n: nat) returns (j: nat)
    requires 0 < n <= |pool|
    ensures j < n && HomeAmong(score, pool, n) == Some(pool[j])
    ensures forall i :: 0 <= i < j ==> score(pool[i]) < score(pool[j])
    ensures forall i :: j <= i < n ==> score(pool[i]) <= score(pool[j])
  {
    j := 0;
    if n > 1 {
      j := HomeIsFirstHighest(score, pool, n - 1);
      if score(pool[n - 1]) > score(pool[j]) {
        j := n - 1;
      }
    }
  }

  /** Conversely, whoever is the first that none outscores is the home. */
  lemma FirstHighestIsHome(score: Scoring, pool: seq<Candidate>, j: nat)
    requires j < |pool|
    requires forall i :: 0 <= i < j ==> score(pool[i]) < score(pool[j])
    requires forall i :: j <= i < |pool| ==> score(pool[i]) <= score(pool[j])
    ensures Home(score, pool) == Some(pool[j])
  {
    var k := HomeIsFirstHighest(score, pool, |pool|);
    assert score(pool[j]) == score(pool[k]);
  }

  // ------------------------------------------------- when the pool changes

  /** The candidates left when the addresses in `gone` have left, in their old order. */
  function Survivors(pool: seq<Candidate>, gone: set<Str>): (left: seq<Candidate>)
    ensures forall c :: c in left <==> c in pool && c.addr !in gone
  {
    if pool == [] then [] else
      var rest, last := Survivors(pool[..|pool| - 1], gone), pool[|pool| - 1];
      assert pool == pool[..|pool| - 1] + [last];
      if last.addr in gone then rest else rest + [last]
  }

  lemma HomeOfConcat(score: Scoring, pool: seq<Candidate>, last: Candidate)
    ensures Home(score, pool + [last])
         == if pool == [] || score(last) > score(Home(score, pool).value) then Some(last) else Home(score, pool)
  {
    HomeOfPrefix(score, pool + [last], pool, |pool|);
  }

  lemma {:induction false} HomeOfPrefix(score: Scoring, pool: seq<Candidate>, prefix: seq<Candidate>, n: nat)
    requires n <= |prefix| <= |pool| && prefix == pool[..|prefix|]
    ensures HomeAmong(score, pool, n) == HomeAmong(score, prefix, n)
  {
    if n > 0 {
      HomeOfPrefix(score, pool, prefix, n - 1);
    }
  }

  /** A candidate outscores the home of the candidates it was chosen from only by being absent from them. */
  lemma NobodyOutscoresHome(score: Scoring, pool: seq<Candidate>, c: Candidate)
    requires c in pool
    ensures Home(score, pool).Some? && Home(score, pool).value in pool && score(c) <= score(Home(score, pool).value)
  {
    var i :| 0 <= i < |pool| && pool[i] == c;
    var j := HomeIsFirstHighest(score, pool, |pool|);
    assert i < j ==> score(pool[i]) < score(pool[j]);
  }

  /** Backends that leave take only their own keys with them. */
  lemma {:induction false} LeavingMovesOnlyTheirKeys(score: Scoring, pool: seq<Candidate>, gone: set<Str>)
    requires pool != [] && Home(score, pool).value.addr !in gone
    ensures Home(score, Survivors(pool, gone)) == Home(score, pool)
  {
    var rest, last := pool[..|pool| - 1], pool[|pool| - 1];
    var left := Survivors(rest, gone);
    assert pool == rest + [last];
    HomeOfConcat(score, rest, last);
    if Home(score, pool) == Some(last) && (rest == [] || score(last) > score(Home(score, rest).value)) {
      HomeOfConcat(score, left, last);
      if left != [] {
        NobodyOutscoresHome(score, left, left[0]);
        NobodyOutscoresHome(score, rest, Home(score, left).value);
      }
    } else {
      LeavingMovesOnlyTheirKeys(score, rest, gone);
      if last.addr !in gone {
        HomeOfConcat(score, left, last);
      }
    }
  }

  /** A backend that joins, wherever in the pool, takes keys only for itself. */
  lemma JoiningMovesKeysOnlyOntoIt(score: Scoring, before: seq<Candidate>, after: seq<Candidate>, joined: Candidate)
    requires joined in after && before == Survivors(after, {joined.addr})
    requires forall c :: c in after && c.addr == joined.addr ==> c == joined
    ensures Home(score, after) == Some(joined) || Home(score, after) == Home(score, before)
  {
    NobodyOutscoresHome(score, after, joined);
    if Home(score, after) != Some(joined) {
      LeavingMovesOnlyTheirKeys(score, after, {joined.addr});
    }
  }

  /** A backend whose score rises with its weight takes keys only for itself. */
  lemma RaisingMovesKeysOnlyOntoIt(score: Scoring, pool: seq<Candidate>, i: nat, weight: int)
    requires i < |pool| && score(pool[i]) <= score(pool[i].(weight := weight))
    ensures var raised := pool[i := pool[i].(weight := weight)];
            Home(score, raised) == Some(raised[i]) || Home(score, raised) == Home(score, pool)
  {
    var raised := pool[i := pool[i].(weight := weight)];
    var j := HomeIsFirstHighest(score, raised, |raised|);
    if j != i {
      forall k | 0 <= k < j
        ensures score(pool[k]) < score(pool[j])
      {
        assert score(raised[k]) < score(raised[j]);
      }
      forall k | j <= k < |pool|
        ensures score(pool[k]) <= score(pool[j])
      {
        assert score(raised[k]) <= score(raised[j]);
      }
      FirstHighestIsHome(score, pool, j);
    }
  }

  /** Without ties the home does not depend on the order the pool is listed in. */
  lemma OrderDoesNotMatter(score: Scoring, pool: seq<Candidate>, other: seq<Candidate>)
    requires forall c :: c in pool <==> c in other
    requires forall c, d :: c in pool && d in pool && c != d ==> score(c) != score(d)
    ensures Home(score, pool) == Home(score, other)
  {
    if pool != [] {
      NobodyOutscoresHome(score, pool, pool[0]);
      NobodyOutscoresHome(score, other, Home(score, pool).value);
      NobodyOutscoresHome(score, pool, Home(score, other).value);
    } else {
      assert forall i :: 0 <= i < |other| ==> other[i] in other;
    }
  }
}
