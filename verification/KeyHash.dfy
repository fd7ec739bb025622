/** The key hash of consistent hashing: 64-bit FNV-1a, finished by the SplitMix64 mixer. */
module KeyHash {
  import opened Basics

  const OFFSET: bv64 := 14695981039346656037

  // The word operations the hash is made of, each with the one that undoes it.
  // The factors are written out where they are used: the solver then multiplies
  // a constant by its inverse instead of blasting two 64-bit products.
  function TimesPrime(x: bv64): bv64 { x * 1099511628211 }
  function OverPrime(x: bv64): bv64 { x * 0xce965057aff6957b }
  function TimesFirst(x: bv64): bv64 { x * 0xbf58476d1ce4e5b9 }
  function OverFirst(x: bv64): bv64 { x * 0x96de1b173f119089 }
  function TimesSecond(x: bv64): bv64 { x * 0x94d049bb133111eb }
  function OverSecond(x: bv64): bv64 { x * 0x319642b2d24d8ec3 }
  function Shift30(x: bv64): bv64 { x ^ (x >> 30) }
  function Unshift30(x: bv64): bv64 { x ^ (x >> 30) ^ (x >> 60) }
  function Shift27(x: bv64): bv64 { x ^ (x >> 27) }
  function Unshift27(x: bv64): bv64 { x ^ (x >> 27) ^ (x >> 54) }
  function Shift31(x: bv64): bv64 { x ^ (x >> 31) }
  function Unshift31(x: bv64): bv64 { x ^ (x >> 31) ^ (x >> 62) }

  function Mix(x: bv64): bv64 {
    Shift31(TimesSecond(Shift27(TimesFirst(Shift30(x)))))
  }

  /** The 53 bits of a mixed word that a score is drawn from. */
  function TopBits(x: bv64): bv64 {
    Shift11(Mix(x))
  }

  function Shift11(x: bv64): bv64 { x >> 11 }

  function Xored(h: bv64, b: bv8): bv64 { h ^ (b as bv64) }

  /** One byte folded into the FNV-1a state. */
  function Fold(h: bv64, b: bv8): bv64 {
    TimesPrime(Xored(h, b))
  }

  /** The FNV-1a state after the first `n` bytes, from the state `h`. */
  function Fnv(h: bv64, s: Str, n: nat): bv64
    requires n <= |s|
  {
    if n == 0 then h else Fold(Fnv(h, s, n - 1), s[n - 1])
  }

  function HashKey(s: Str): bv64 {
    Mix(Fnv(OFFSET, s, |s|))
  }

  lemma Shift30Is(x: bv64)
    ensures Shift30(x) == x ^ (x >> 30)
  {
  }

  lemma Shift27Is(x: bv64)
    ensures Shift27(x) == x ^ (x >> 27)
  {
  }

  lemma Shift31Is(x: bv64)
    ensures Shift31(x) == x ^ (x >> 31)
  {
  }

  lemma TimesFirstIs(x: bv64)
    ensures TimesFirst(x) == x * 0xbf58476d1ce4e5b9
  {
  }

  lemma TimesSecondIs(x: bv64)
    ensures TimesSecond(x) == x * 0x94d049bb133111eb
  {
  }

  lemma TimesPrimeIs(x: bv64)
    ensures TimesPrime(x) == x * 1099511628211
  {
  }

  lemma XoredIs(h: bv64, b: bv8)
    ensures Xored(h, b) == h ^ (b as bv64)
  {
  }

  method ComputeMix(word: bv64) returns (x: bv64)
    ensures x == Mix(word)
  {
    x := word;
    Shift30Is(x);
    x := x ^ (x >> 30);
    TimesFirstIs(x);
    x := x * 0xbf58476d1ce4e5b9;
    Shift27Is(x);
    x := x ^ (x >> 27);
    TimesSecondIs(x);
    x := x * 0x94d049bb133111eb;
    Shift31Is(x);
    x := x ^ (x >> 31);
  }

  method FoldByte(state: bv64, b: bv8) returns (h: bv64)
    ensures h == Fold(state, b)
  {
    h := state;
    XoredIs(h, b);
    h := h ^ (b as bv64);
    TimesPrimeIs(h);
    h := h * 1099511628211;
  }

  method ComputeHashKey(s: Str) returns (h: bv64)
    ensures h == HashKey(s)
  {
    h := OFFSET;
    for i := 0 to |s|
      invariant h == Fnv(OFFSET, s, i)
    {
      h := FoldByte(h, s[i]);
    }
    h := ComputeMix(h);
  }

  // -------------------------------------------------- undoing each operation

  // Each operation is undone in two steps: first with the word written out, which
  // the solver simplifies, and then by name, which needs no word arithmetic.

  lemma PrimeWritten(x: bv64)
    ensures OverPrime(x * 1099511628211) == x && TimesPrime(x * 0xce965057aff6957b) == x
  {
  }

  lemma PrimeUndone(x: bv64)
    ensures OverPrime(TimesPrime(x)) == x && TimesPrime(OverPrime(x)) == x
  {
    PrimeWritten(x);
  }

  lemma FirstWritten(x: bv64)
    ensures OverFirst(x * 0xbf58476d1ce4e5b9) == x && TimesFirst(x * 0x96de1b173f119089) == x
  {
  }

  lemma FirstUndone(x: bv64)
    ensures OverFirst(TimesFirst(x)) == x && TimesFirst(OverFirst(x)) == x
  {
    FirstWritten(x);
  }

  lemma SecondWritten(x: bv64)
    ensures OverSecond(x * 0x94d049bb133111eb) == x && TimesSecond(x * 0x319642b2d24d8ec3) == x
  {
  }

  lemma SecondUndone(x: bv64)
    ensures OverSecond(TimesSecond(x)) == x && TimesSecond(OverSecond(x)) == x
  {
    SecondWritten(x);
  }

  lemma Shift30Written(x: bv64)
    ensures Unshift30(x ^ (x >> 30)) == x && Shift30(x ^ (x >> 30) ^ (x >> 60)) == x
  {
  }

  lemma Shift30Undone(x: bv64)
    ensures Unshift30(Shift30(x)) == x && Shift30(Unshift30(x)) == x
  {
    Shift30Written(x);
  }

  lemma Shift27Written(x: bv64)
    ensures Unshift27(x ^ (x >> 27)) == x && Shift27(x ^ (x >> 27) ^ (x >> 54)) == x
  {
  }

  lemma Shift27Undone(x: bv64)
    ensures Unshift27(Shift27(x)) == x && Shift27(Unshift27(x)) == x
  {
    Shift27Written(x);
  }

  lemma Shift31Written(x: bv64)
    ensures Unshift31(x ^ (x >> 31)) == x && Shift31(x ^ (x >> 31) ^ (x >> 62)) == x
  {
  }

  lemma Shift31Undone(x: bv64)
    ensures Unshift31(Shift31(x)) == x && Shift31(Unshift31(x)) == x
  {
    Shift31Written(x);
  }

  function Unmix(y: bv64): bv64 {
    Unshift30(OverFirst(Unshift27(OverSecond(Unshift31(y)))))
  }

  /** Mixing loses nothing: it is a bijection on 64-bit words. */
  lemma MixIsABijection(x: bv64)
    ensures Unmix(Mix(x)) == x
    ensures Mix(Unmix(x)) == x
  {
    UnmixMix(x);
    MixUnmix(x);
  }

  lemma UnmixMix(x: bv64)
    ensures Unmix(Mix(x)) == x
  {
    var a := Shift30(x);
    var b := TimesFirst(a);
    var c := Shift27(b);
    var d := TimesSecond(c);
    Shift31Undone(d);
    SecondUndone(c);
    Shift27Undone(b);
    FirstUndone(a);
    Shift30Undone(x);
  }

  lemma MixUnmix(y: bv64)
    ensures Mix(Unmix(y)) == y
  {
    var d := Unshift31(y);
    var c := OverSecond(d);
    var b := Unshift27(c);
    var a := OverFirst(b);
    Shift30Undone(a);
    FirstUndone(b);
    Shift27Undone(c);
    SecondUndone(d);
    Shift31Undone(y);
  }

  // ------------------------------------------------------- what a draw keeps

  /** A word without its 11 lowest bits. */
  function HighBits(m: bv64): bv64 { m & 0xffff_ffff_ffff_f800 }

  lemma Shift11IsSmall(m: bv64)
    ensures Shift11(m) < 0x20_0000_0000_0000
  {
  }

  lemma SameAboveWhenShifted(m: bv64, n: bv64)
    requires Shift11(m) == Shift11(n)
    ensures HighBits(m) == HighBits(n)
  {
  }

  lemma SameShiftedWhenAbove(m: bv64, n: bv64)
    requires HighBits(m) == HighBits(n)
    ensures Shift11(m) == Shift11(n)
  {
  }

  /** A score is drawn from one of 2^53 values, and two words draw alike exactly when their mixes begin alike. */
  lemma TopBitsAre53(x: bv64, y: bv64)
    ensures TopBits(x) < 0x20_0000_0000_0000
    ensures TopBits(x) == TopBits(y) <==> HighBits(Mix(x)) == HighBits(Mix(y))
  {
    hide Mix, Shift11, HighBits;
    Shift11IsSmall(Mix(x));
    if TopBits(x) == TopBits(y) {
      SameAboveWhenShifted(Mix(x), Mix(y));
    } else if HighBits(Mix(x)) == HighBits(Mix(y)) {
      SameShiftedWhenAbove(Mix(x), Mix(y));
    }
  }

  function Above(v: bv64, low: bv64): bv64 { (v << 11) | low }

  lemma Shift11Undone(v: bv64, low: bv64)
    requires v < 0x20_0000_0000_0000 && low < 2048
    ensures Shift11(Above(v, low)) == v
  {
  }

  /** And each of those values is drawn, by the words whose mix begins with it. */
  lemma EveryDrawOccurs(v: bv64, low: bv64)
    requires v < 0x20_0000_0000_0000 && low < 2048
    ensures TopBits(Unmix(Above(v, low))) == v
  {
    hide Mix, Unmix, Shift11, Above;
    MixIsABijection(Above(v, low));
    Shift11Undone(v, low);
  }

  // ------------------------------------------------------- published values

  /** The hash of "a" in the test vectors of 64-bit FNV-1a, before it is mixed. */
  lemma FnvOfA()
    ensures Fnv(OFFSET, [0x61], 1) == 0xaf63dc4c8601ec8c
  {
    assert Fnv(OFFSET, [0x61], 0) == 14695981039346656037;
    assert Xored(14695981039346656037, 0x61) == 0xcbf29ce484222344;
    assert TimesPrime(0xcbf29ce484222344) == 0xaf63dc4c8601ec8c;
  }

  /** The first output of SplitMix64 from the seed zero, which mixes its increment. */
  lemma FirstOfSplitMix()
    ensures Mix(0x9e3779b97f4a7c15) == 0xe220a8397b1dcdaf
  {
  }

  // ---------------------------------------------------------- keys that differ

  lemma XoredApart(g: bv64, h: bv64, b: bv8, c: bv8)
    requires Xored(g, b) == Xored(h, c)
    ensures b == c ==> g == h
    ensures g == h ==> b == c
  {
  }

  /** Folding the same byte keeps two states apart, and two different bytes drive one state apart. */
  lemma FoldKeepsApart(g: bv64, h: bv64, b: bv8, c: bv8)
    requires Fold(g, b) == Fold(h, c)
    ensures b == c ==> g == h
    ensures g == h ==> b == c
  {
    PrimeUndone(Xored(g, b));
    PrimeUndone(Xored(h, c));
    XoredApart(g, h, b, c);
  }

  /** Bytes hashed after two states neither merge them nor tell them apart. */
  lemma {:induction false} SuffixCancels(g: bv64, h: bv64, s: Str, n: nat)
    requires n <= |s|
    ensures Fnv(g, s, n) == Fnv(h, s, n) <==> g == h
  {
    if n > 0 {
      SuffixCancels(g, h, s, n - 1);
      if Fnv(g, s, n) == Fnv(h, s, n) {
        FoldKeepsApart(Fnv(g, s, n - 1), Fnv(h, s, n - 1), s[n - 1], s[n - 1]);
      }
    }
  }

  lemma {:induction false} FnvOfConcat(h: bv64, s: Str, t: Str, n: nat)
    requires n <= |t|
    ensures Fnv(h, s + t, |s| + n) == Fnv(Fnv(h, s, |s|), t, n)
  {
    if n > 0 {
      FnvOfConcat(h, s, t, n - 1);
    } else {
      FnvOfPrefix(h, s, t, |s|);
    }
  }

  lemma {:induction false} FnvOfPrefix(h: bv64, s: Str, t: Str, n: nat)
    requires n <= |s|
    ensures Fnv(h, s + t, n) == Fnv(h, s, n)
  {
    if n > 0 {
      FnvOfPrefix(h, s, t, n - 1);
    }
  }

  /** A common ending never decides whether two keys collide: only what comes before it does. */
  lemma CommonSuffix(s: Str, t: Str, suffix: Str)
    ensures HashKey(s + suffix) == HashKey(t + suffix) <==> HashKey(s) == HashKey(t)
  {
    FnvOfConcat(OFFSET, s, suffix, |suffix|);
    FnvOfConcat(OFFSET, t, suffix, |suffix|);
    SuffixCancels(Fnv(OFFSET, s, |s|), Fnv(OFFSET, t, |t|), suffix, |suffix|);
    MixSeparates(Fnv(OFFSET, s, |s|), Fnv(OFFSET, t, |t|));
    MixSeparates(Fnv(OFFSET, s + suffix, |s + suffix|), Fnv(OFFSET, t + suffix, |t + suffix|));
  }

  lemma MixSeparates(x: bv64, y: bv64)
    ensures Mix(x) == Mix(y) ==> x == y
  {
    UnmixMix(x);
    UnmixMix(y);
  }

  /** Two keys of one length that differ in exactly one byte never share a hash. */
  lemma OneByteApart(s: Str, t: Str, i: nat)
    requires |s| == |t| && i < |s| && s[i] != t[i]
    requires forall k :: 0 <= k < |s| && k != i ==> s[k] == t[k]
    ensures HashKey(s) != HashKey(t)
  {
    var before, after := s[..i], s[i + 1..];
    assert s == (before + [s[i]]) + after;
    assert t == (before + [t[i]]) + after;
    CommonSuffix(before + [s[i]], before + [t[i]], after);
    LastByteApart(before, s[i], t[i]);
  }

  lemma LastByteApart(s: Str, b: bv8, c: bv8)
    requires b != c
    ensures HashKey(s + [b]) != HashKey(s + [c])
  {
    var h := Fnv(OFFSET, s, |s|);
    HashOfOneMore(s, b);
    HashOfOneMore(s, c);
    FoldedApart(h, b, c);
  }

  lemma HashOfOneMore(s: Str, b: bv8)
    ensures HashKey(s + [b]) == Mix(Fold(Fnv(OFFSET, s, |s|), b))
  {
    FnvOfPrefix(OFFSET, s, [b], |s|);
  }

  lemma FoldedApart(h: bv64, b: bv8, c: bv8)
    requires b != c
    ensures Mix(Fold(h, b)) != Mix(Fold(h, c))
  {
    MixSeparates(Fold(h, b), Fold(h, c));
    if Fold(h, b) == Fold(h, c) {
      FoldKeepsApart(h, h, b, c);
    }
  }
}
