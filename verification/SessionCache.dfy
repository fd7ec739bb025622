/**
 The bounded memory of a mock backend: what `seen` answers is a statement about
 the trace of calls alone, the stack distance of the key.
 */
module SessionCache {
  import opened Basics

  // ------------------------------------------------------- recency, as values

  function Without(order: seq<Str>, key: Str): (rest: seq<Str>)
    ensures key !in rest
    ensures forall k :: k in rest <==> k in order && k != key
    ensures |rest| <= |order|
  {
    if order == [] then [] else
      assert order == [order[0]] + order[1..];
      if order[0] == key then Without(order[1..], key) else [order[0]] + Without(order[1..], key)
  }

  /** Every key seen since the last `clear`, the most recent first. */
  function Recency(trace: seq<Str>): (order: seq<Str>)
    ensures Distinct(order)
    ensures forall k :: k in order <==> k in trace
  {
    if trace == [] then [] else
      var before, key := Recency(trace[..|trace| - 1]), trace[|trace| - 1];
      assert trace == trace[..|trace| - 1] + [key];
      DistinctWithout(before, key);
      [key] + Without(before, key)
  }

  lemma {:induction false} DistinctWithout(order: seq<Str>, key: Str)
    requires Distinct(order)
    ensures Distinct(Without(order, key))
    ensures key in order ==> |Without(order, key)| == |order| - 1
    ensures key !in order ==> Without(order, key) == order
  {
    if order != [] {
      assert order == [order[0]] + order[1..];
      assert order[0] !in order[1..];
      DistinctWithout(order[1..], key);
    }
  }

  /** The most recent of an order, as many as the capacity allows. */
  function Newest(order: seq<Str>, capacity: int): seq<Str> {
    order[..Min(|order|, Max(capacity, 0))]
  }

  /** What a cache of this capacity remembers after a trace. */
  function Remembered(trace: seq<Str>, capacity: int): seq<Str> {
    Newest(Recency(trace), capacity)
  }

  // ---------------------------------------------------------- stack distance

  /** The different keys after the last time `key` was seen. */
  function SeenSince(trace: seq<Str>, key: Str): set<Str> {
    if trace == [] || trace[|trace| - 1] == key then {}
    else SeenSince(trace[..|trace| - 1], key) + {trace[|trace| - 1]}
  }

  function Keys(trace: seq<Str>): set<Str> {
    set k | k in trace
  }

  /** `SeenSince` is what its name says: whatever occurs after the last occurrence. */
  lemma {:induction false} SeenSinceMeaning(before: seq<Str>, key: Str, after: seq<Str>)
    requires key !in after
    ensures SeenSince(before + [key] + after, key) == Keys(after)
  {
    var trace := before + [key] + after;
    if after != [] {
      var n, last := |after|, after[|after| - 1];
      assert trace[..|trace| - 1] == before + [key] + after[..n - 1];
      assert after == after[..n - 1] + [last];
      SeenSinceMeaning(before, key, after[..n - 1]);
    }
  }

  /** A key stands in the recency order right behind the keys seen since. */
  lemma {:induction false} Position(trace: seq<Str>, key: Str) returns (p: nat)
    requires key in trace
    ensures p < |Recency(trace)| && Recency(trace)[p] == key
    ensures p == |SeenSince(trace, key)|
    ensures forall k :: k in SeenSince(trace, key) <==> k in Recency(trace)[..p]
  {
    var before, last := trace[..|trace| - 1], trace[|trace| - 1];
    assert trace == before + [last];
    if last == key {
      p := 0;
    } else {
      var q := Position(before, key);
      p := Pushed(Recency(before), last, q, SeenSince(before, key));
    }
  }

  /** How the position of an entry, and the keys in front of it, change when another is moved or put to the front. */
  lemma Pushed(order: seq<Str>, last: Str, q: nat, since: set<Str>) returns (p: nat)
    requires Distinct(order) && q < |order| && order[q] != last
    requires |since| == q && forall k :: k in since <==> k in order[..q]
    ensures var now := [last] + Without(order, last);
            && p < |now| && now[p] == order[q] && p == |since + {last}|
            && forall k :: k in since + {last} <==> k in now[..p]
  {
    p := PositionWithout(order, last, q);
    var now := [last] + Without(order, last);
    assert now[..p] == [last] + Without(order, last)[..p - 1];
    if last in since {
      assert since + {last} == since;
    }
  }

  /** Where an entry ends up when another is moved to the front. */
  lemma {:induction false} PositionWithout(order: seq<Str>, key: Str, q: nat) returns (p: nat)
    requires Distinct(order) && q < |order| && order[q] != key
    ensures p == if key in order[..q] then q else q + 1
    ensures p - 1 < |Without(order, key)| && Without(order, key)[p - 1] == order[q]
    ensures forall k :: k in Without(order, key)[..p - 1] <==> k in order[..q] && k != key
  {
    var head, rest := order[0], order[1..];
    assert order == [head] + rest;
    if q == 0 {
      assert order[..q] == [];
      p := 1;
    } else {
      assert order[..q] == [head] + rest[..q - 1];
      assert head !in rest;
      MemberOfCons(head, rest[..q - 1]);
      if head == key {
        DistinctWithout(rest, key);
        p := q;
      } else {
        var r := PositionWithout(rest, key, q - 1);
        p := r + 1;
        assert Without(order, key)[..p - 1] == [head] + Without(rest, key)[..r - 1];
        MemberOfCons(head, Without(rest, key)[..r - 1]);
      }
    }
  }

  lemma MemberOfCons(head: Str, tail: seq<Str>)
    ensures forall k :: k in [head] + tail <==> k == head || k in tail
  {
  }

  /**
   A key is remembered exactly when it has been seen since the last `clear` and
   fewer different keys than the capacity have been seen after it.
   */
  lemma RememberedByStackDistance(trace: seq<Str>, capacity: int, key: Str)
    ensures key in Remembered(trace, capacity) <==> key in trace && |SeenSince(trace, key)| < capacity
  {
    var order, kept := Recency(trace), Remembered(trace, capacity);
    if key in trace {
      var p := Position(trace, key);
      if p < capacity {
        assert kept[p] == key;
      } else {
        assert forall i :: 0 <= i < |kept| ==> kept[i] == order[i] && order[i] != order[p];
      }
    } else {
      assert forall k :: k in kept ==> k in order;
    }
  }

  /** Fed the same trace, a larger cache remembers everything a smaller one does. */
  lemma LargerRemembersMore(trace: seq<Str>, small: int, large: int, key: Str)
    requires small <= large && key in Remembered(trace, small)
    ensures key in Remembered(trace, large)
  {
    RememberedByStackDistance(trace, small, key);
    RememberedByStackDistance(trace, large, key);
  }

  // -------------------------------------------------------------- the cache

  /** An element of the list: a pointer of its own, with the key it holds. */
  class Element {
    const value: Str

    constructor (value: Str)
      ensures this.value == value
    {
      this.value := value;
    }
  }

  function Values(order: seq<Element>): (values: seq<Str>)
    ensures |values| == |order| && forall i :: 0 <= i < |order| ==> values[i] == order[i].value
  {
    seq(|order|, i requires 0 <= i < |order| => order[i].value)
  }

  /** List and map hold the same elements, each under its own key. */
  ghost predicate Linked(order: seq<Element>, entries: map<Str, Element>) {
    && Distinct(Values(order))
    && (forall e :: e in order ==> e.value in entries && entries[e.value] == e)
    && (forall k :: k in entries ==> entries[k] in order && entries[k].value == k)
  }

  lemma PushedFront(order: seq<Element>, entries: map<Str, Element>, entry: Element)
    requires Linked(order, entries) && entry.value !in entries
    ensures Linked([entry] + order, entries[entry.value := entry])
    ensures Values([entry] + order) == [entry.value] + Values(order)
  {
    forall i | 0 <= i < |order|
      ensures Values(order)[i] != entry.value
    {
      assert order[i] in order;
    }
  }

  lemma DroppedBack(order: seq<Element>, entries: map<Str, Element>)
    requires Linked(order, entries) && order != []
    ensures var (rest, oldest) := (order[..|order| - 1], order[|order| - 1]);
            Linked(rest, entries - {oldest.value}) && Values(rest) == Values(order)[..|order| - 1]
  {
    var rest, oldest := order[..|order| - 1], order[|order| - 1];
    assert order == rest + [oldest];
    forall e | e in rest
      ensures e.value != oldest.value
    {
      var i :| 0 <= i < |rest| && rest[i] == e;
      assert Values(order)[i] != Values(order)[|order| - 1];
    }
  }

  lemma OneTooMany(pushed: seq<Str>, capacity: int)
    requires 0 < |pushed| <= Max(capacity, 0) + 1
    ensures Newest(pushed, capacity) == if |pushed| > capacity then pushed[..|pushed| - 1] else pushed
  {
  }

  /** Taking one element out of the list, and putting it back at the front. */
  lemma MovedToFront(order: seq<Element>, entries: map<Str, Element>, at: nat)
    requires Linked(order, entries) && at < |order|
    ensures var (entry, rest) := (order[at], order[..at] + order[at + 1..]);
            && Linked([entry] + rest, entries)
            && Values([entry] + rest) == [entry.value] + Without(Values(order), entry.value)
  {
    var moved := [order[at]] + (order[..at] + order[at + 1..]);
    WithoutAt(Values(order), at);
    DistinctWithout(Values(order), order[at].value);
    assert Values(moved) == [order[at].value] + (Values(order)[..at] + Values(order)[at + 1..]);
    SameElements(order, at);
  }

  lemma SameElements(order: seq<Element>, at: nat)
    requires at < |order|
    ensures forall e :: e in order <==> e in [order[at]] + (order[..at] + order[at + 1..])
  {
    assert order == order[..at] + [order[at]] + order[at + 1..];
  }

  class Cache {
    const capacity: int
    /** The elements by recency, latest first. */
    var order: seq<Element>
    var entries: map<Str, Element>
    /** The calls of `seen` since the last `clear`. */
    ghost var trace: seq<Str>

    /** What the list and the map hold is decided by the trace alone. */
    ghost predicate Valid()
      reads this
    {
      && Linked(order, entries)
      && Values(order) == Remembered(trace, capacity)
    }

    constructor (capacity: int)
      ensures Valid() && this.capacity == capacity && trace == []
    {
      this.capacity := capacity;
      order := [];
      entries := map[];
      trace := [];
    }

    /** Moves an element of the list, found by its identity, to the front. */
    method MoveToFront(entry: Element)
      requires Linked(order, entries) && entry in order
      modifies `order
      ensures Linked(order, entries)
      ensures Values(order) == [entry.value] + Without(old(Values(order)), entry.value)
    {
      var at := 0;
      while order[at] != entry
        invariant 0 <= at < |order| && forall k :: 0 <= k < at ==> order[k] != entry
        decreases |order| - at
      {
        at := at + 1;
      }
      MovedToFront(order, entries, at);
      order := [entry] + (order[..at] + order[at + 1..]);
    }

    /** Puts a key that was not remembered to the front, and drops the oldest if that is one too many. */
    method Insert(key: Str)
      requires Linked(order, entries) && key !in entries && |order| <= Max(capacity, 0)
      modifies `order, `entries
      ensures Linked(order, entries)
      ensures Values(order) == Newest([key] + old(Values(order)), capacity)
    {
      var entry := new Element(key);
      PushedFront(order, entries, entry);
      order := [entry] + order;
      entries := entries[key := entry];
      OneTooMany(Values(order), capacity);
      if |order| > capacity {
        DroppedBack(order, entries);
        var oldest := order[|order| - 1];
        order := order[..|order| - 1];
        entries := entries - {oldest.value};
      }
    }

    /** Whether the key was remembered; it is remembered from now on, capacity permitting. */
    method Seen(key: Str) returns (remembered: bool)
      requires Valid()
      modifies this
      ensures Valid() && trace == old(trace) + [key]
      ensures remembered <==> key in old(trace) && |SeenSince(old(trace), key)| < capacity
      ensures forall k :: k in entries <==> k in trace && |SeenSince(trace, k)| < capacity
    {
      KeysAreRemembered();
      AfterSeeing(trace, capacity, key);
      remembered := key in entries;
      if remembered {
        MoveToFront(entries[key]);
      } else {
        Insert(key);
      }
      trace := trace + [key];
      KeysAreRemembered();
    }

    lemma KeysAreRemembered()
      requires Valid()
      ensures forall k :: k in entries <==> k in trace && |SeenSince(trace, k)| < capacity
    {
      forall k
        ensures k in entries <==> k in trace && |SeenSince(trace, k)| < capacity
      {
        RememberedByStackDistance(trace, capacity, k);
        if k in Values(order) {
          var i :| 0 <= i < |order| && Values(order)[i] == k;
          assert order[i] in order;
        }
        if k in entries {
          var i :| 0 <= i < |order| && order[i] == entries[k];
          assert Values(order)[i] == k;
        }
      }
    }

    /** The length of the list, which is decided by the trace too. */
    method Size() returns (n: nat)
      requires Valid()
      ensures n == Max(0, Min(capacity, |Keys(trace)|))
    {
      n := |order|;
      DistinctCount(Recency(trace));
      assert Keys(Recency(trace)) == Keys(trace);
    }

    /** Starts a new trace with nothing in list or map. */
    method Clear()
      modifies this
      ensures Valid() && trace == []
    {
      order := [];
      entries := map[];
      trace := [];
    }
  }

  lemma {:induction false} DistinctCount(order: seq<Str>)
    requires Distinct(order)
    ensures |Keys(order)| == |order|
  {
    if order != [] {
      DistinctCount(order[1..]);
      assert order == [order[0]] + order[1..];
      assert order[0] !in order[1..];
      assert Keys(order) == {order[0]} + Keys(order[1..]);
    }
  }

  lemma {:induction false} WithoutAt(order: seq<Str>, at: nat)
    requires Distinct(order) && at < |order|
    ensures Without(order, order[at]) == order[..at] + order[at + 1..]
  {
    assert order == [order[0]] + order[1..];
    if at == 0 {
      assert order[0] !in order[1..];
      DistinctWithout(order[1..], order[0]);
    } else {
      WithoutAt(order[1..], at - 1);
    }
  }

  /** How what is remembered changes when a key is seen: it moves to the front, and at most the oldest goes. */
  lemma AfterSeeing(trace: seq<Str>, capacity: int, key: Str)
    ensures var kept := Remembered(trace, capacity);
            Remembered(trace + [key], capacity)
              == if key in kept then [key] + Without(kept, key) else Newest([key] + kept, capacity)
  {
    var order := Recency(trace);
    assert (trace + [key])[..|trace|] == trace;
    if key in order {
      var i :| 0 <= i < |order| && order[i] == key;
      if i < capacity {
        StillKept(order, i, capacity);
      } else {
        NoLongerKept(order, i, capacity);
      }
    } else {
      DistinctWithout(order, key);
      KeptAlready(order, key, capacity);
    }
  }

  lemma StillKept(order: seq<Str>, i: nat, capacity: int)
    requires Distinct(order) && i < |order| && i < capacity
    ensures order[i] in Newest(order, capacity)
    ensures Newest([order[i]] + Without(order, order[i]), capacity)
       == [order[i]] + Without(Newest(order, capacity), order[i])
  {
    var n := Min(|order|, capacity);
    var kept, moved := order[..n], [order[i]] + (order[..i] + order[i + 1..]);
    assert Newest(order, capacity) == kept && kept[i] == order[i];
    WithoutAt(order, i);
    WithoutAt(kept, i);
    CutAfterMove(order, i, n);
    assert Newest(moved, capacity) == moved[..n];
  }

  lemma CutAfterMove(order: seq<Str>, i: nat, n: nat)
    requires i < n <= |order|
    ensures ([order[i]] + (order[..i] + order[i + 1..]))[..n] == [order[i]] + (order[..n][..i] + order[..n][i + 1..])
  {
  }

  lemma NoLongerKept(order: seq<Str>, i: nat, capacity: int)
    requires Distinct(order) && i < |order| && i >= capacity
    ensures order[i] !in Newest(order, capacity)
    ensures Newest([order[i]] + Without(order, order[i]), capacity)
       == Newest([order[i]] + Newest(order, capacity), capacity)
  {
    var n := Max(capacity, 0);
    WithoutAt(order, i);
    KeptAlready(order[..i] + order[i + 1..], order[i], capacity);
    CutWithout(order, i, n);
  }

  lemma CutWithout(order: seq<Str>, i: nat, n: nat)
    requires n <= i < |order|
    ensures (order[..i] + order[i + 1..])[..n] == order[..n]
  {
  }

  /** What was forgotten before makes no difference when one more comes in front. */
  lemma KeptAlready(order: seq<Str>, key: Str, capacity: int)
    ensures Newest([key] + order, capacity) == Newest([key] + Newest(order, capacity), capacity)
  {
  }
}
