/** `ZSTD_count`: the length of a common prefix, a word at a time. */
module Counting {
  import opened Nums
  import opened BitSeq
  import opened Suffixes

  /** `^` of machine words. */
  function Xor(a: nat, b: nat): nat
    decreases a + b
  {
    if a == 0 && b == 0 then 0 else (if a % 2 != b % 2 then 1 else 0) + 2 * Xor(a / 2, b / 2)
  }

  function TrailingZeros(x: nat): nat
    requires x > 0
  {
    if x % 2 == 1 then 0 else 1 + TrailingZeros(x / 2)
  }

  lemma {:induction false} XorZero(a: nat, b: nat)
    ensures Xor(a, b) == 0 <==> a == b
    decreases a + b
  {
    if !(a == 0 && b == 0) {
      XorZero(a / 2, b / 2);
    }
  }

  lemma {:induction false} XorSplit(x: nat, y: nat, p: nat, q: nat, k: nat)
    requires x < Pow2(k) && y < Pow2(k)
    ensures Xor(x + Shl(p, k), y + Shl(q, k)) == Xor(x, y) + Shl(Xor(p, q), k)
    decreases k
  {
    hide Shl;
    ShlTwiceOf(p, k);
    ShlTwiceOf(q, k);
    ShlTwiceOf(Xor(p, q), k);
    if k == 0 {
      ShlByZero(p);
      ShlByZero(q);
      ShlByZero(Xor(p, q));
    } else {
      XorSplit(x / 2, y / 2, p, q, k - 1);
    }
  }

  lemma ShlByZero(x: nat)
    ensures Shl(x, 0) == x
  {
  }

  lemma ShlTwiceOf(x: nat, k: nat)
    ensures k > 0 ==> Shl(x, k) == 2 * Shl(x, k - 1)
  {
    if k > 0 {
      ShlTwice(x, k - 1);
    }
  }

  lemma {:induction false} ZerosSplit(x: nat, p: nat, k: nat)
    requires x < Pow2(k) && x + Shl(p, k) > 0
    ensures x > 0 ==> TrailingZeros(x + Shl(p, k)) == TrailingZeros(x) < k
    ensures x == 0 ==> p > 0 && TrailingZeros(x + Shl(p, k)) == k + TrailingZeros(p)
    decreases k
  {
    ShlTwiceOf(p, k);
    if k > 0 && x % 2 == 0 {
      ZerosSplit(x / 2, p, k - 1);
    }
  }

  /** The little-endian word of `n` bytes at `p`. */
  function Word(t: Text, p: nat, n: nat): nat
    requires p + n <= |t|
    decreases n
  {
    if n == 0 then 0 else t[p] + Shl(Word(t, p + 1, n - 1), 8)
  }

  /** The lowest differing bit of two words is in their first differing byte. */
  lemma {:induction false} WordsDiffer(t: Text, a: nat, b: nat, n: nat, limit: nat)
    requires b <= a && a + n <= limit <= |t|
    ensures Word(t, b, n) == Word(t, a, n) <==> Shared(t, b, a, n)
    ensures var diff := Xor(Word(t, b, n), Word(t, a, n));
            diff == 0 <==> Shared(t, b, a, n)
    ensures var diff := Xor(Word(t, b, n), Word(t, a, n));
            diff != 0 ==> TrailingZeros(diff) / 8 == Lcp(t, a, b, limit)
    decreases n
  {
    hide Xor, TrailingZeros, Shl;
    XorZero(Word(t, b, n), Word(t, a, n));
    if n > 0 {
      var p, q := Word(t, b + 1, n - 1), Word(t, a + 1, n - 1);
      FirstByte(t[b], t[a], p, q);
      WordsDiffer(t, a + 1, b + 1, n - 1, limit);
    }
  }

  lemma FirstByte(x: Byte, y: Byte, p: nat, q: nat)
    ensures var diff := Xor(x + Shl(p, 8), y + Shl(q, 8));
            && (x == y ==> (diff == 0 <==> Xor(p, q) == 0))
            && (x == y && diff != 0 ==> TrailingZeros(diff) / 8 == 1 + TrailingZeros(Xor(p, q)) / 8)
            && (x != y ==> diff != 0 && TrailingZeros(diff) / 8 == 0)
  {
    hide Xor, TrailingZeros, Shl;
    var low, high := Xor(x, y), Xor(p, q);
    assert Pow2(8) == 256;
    XorSplit(x, y, p, q, 8);
    XorZero(x, y);
    XorBelow(x, y, 8);
    ShlZero(8);
    if high > 0 {
      ShlMono(1, high, 8);
      ShlPow2(0, 8);
    }
    if low + Shl(high, 8) > 0 {
      ZerosSplit(low, high, 8);
    }
  }

  lemma {:induction false} XorBelow(x: nat, y: nat, k: nat)
    requires x < Pow2(k) && y < Pow2(k)
    ensures Xor(x, y) < Pow2(k)
    decreases k
  {
    if k > 0 {
      XorBelow(x / 2, y / 2, k - 1);
    }
  }

  lemma SharedSplit(t: Text, a: nat, b: nat, limit: nat, k: nat)
    requires b <= a && a + k <= limit <= |t| && Shared(t, b, a, k)
    ensures Lcp(t, a, b, limit) == k + Lcp(t, a + k, b + k, limit)
  {
    LcpAfter(t, a, b, limit, k);
  }

  /** `count`. */
  method Count(t: Text, from: nat, match0: nat, limit: nat) returns (n: nat)
    requires match0 <= from <= limit <= |t|
    ensures n == Lcp(t, from, match0, limit)
  {
    var a, b := from, match0;
    while a + 8 <= limit
      invariant b <= a <= limit && a - from == b - match0 && from <= a
      invariant Lcp(t, from, match0, limit) == a - from + Lcp(t, a, b, limit)
    {
      var diff := Xor(Word(t, b, 8), Word(t, a, 8));
      WordsDiffer(t, a, b, 8, limit);
      if diff != 0 {
        return a - from + TrailingZeros(diff) / 8;
      }
      SharedSplit(t, a, b, limit, 8);
      a, b := a + 8, b + 8;
    }
    n := CountTail(t, a, b, limit);
    n := a - from + n;
  }

  /** The last seven bytes at most. */
  method CountTail(t: Text, from: nat, match0: nat, limit: nat) returns (n: nat)
    requires match0 <= from <= limit <= |t| && limit < from + 8
    ensures n == Lcp(t, from, match0, limit)
  {
    var a, b := from, match0;
    if a + 4 <= limit {
      WordsDiffer(t, a, b, 4, limit);
      if Word(t, b, 4) == Word(t, a, 4) {
        SharedSplit(t, a, b, limit, 4);
        a, b := a + 4, b + 4;
      }
    }
    ghost var first := a;
    if a + 2 <= limit {
      WordsDiffer(t, a, b, 2, limit);
      if Word(t, b, 2) == Word(t, a, 2) {
        SharedSplit(t, a, b, limit, 2);
        a, b := a + 2, b + 2;
      }
    }
    if a < limit && t[b] == t[a] {
      a := a + 1;
    }
    n := a - from;
  }

  // The first bytes of a candidate

  /** `<<` of a 32-bit word. */
  function Shl32(x: nat, n: nat): nat { Low(Shl(x, n), 32) }

  /** `ZSTD_readMINMATCH`. */
  function ReadMinMatch(t: Text, p: nat, length: nat): nat
    requires p + 4 <= |t|
  {
    if length == 3 then Shl32(Word(t, p, 4), 8) else Word(t, p, 4)
  }

  lemma {:induction false} LowSplit(x: nat, q: nat, m: nat, n: nat)
    requires x < Pow2(m)
    ensures Low(x + Shl(q, m), m + n) == x + Shl(Low(q, n), m)
    decreases m
  {
    ShlTwiceOf(q, m);
    ShlTwiceOf(Low(q, n), m);
    if m > 0 {
      LowSplit(x / 2, q, m - 1, n);
    }
  }

  lemma {:induction false} WordLow(t: Text, p: nat, n: nat, k: nat)
    requires p + n <= |t| && k <= n
    ensures Low(Word(t, p, n), 8 * k) == Word(t, p, k)
    decreases k
  {
    if k > 0 {
      assert Pow2(8) == 256;
      LowSplit(t[p], Word(t, p + 1, n - 1), 8, 8 * (k - 1));
      WordLow(t, p + 1, n - 1, k - 1);
    }
  }

  /** Equal exactly when the first `length` bytes are. */
  lemma MinMatchShared(t: Text, a: nat, b: nat, length: nat, limit: nat)
    requires b <= a && a + 4 <= limit <= |t| && (length == 3 || length == 4)
    ensures ReadMinMatch(t, a, length) == ReadMinMatch(t, b, length) <==> Shared(t, b, a, length)
  {
    hide Low, Shl, Word;
    WordsDiffer(t, a, b, length, limit);
    if length == 3 {
      MinMatchThree(t, a);
      MinMatchThree(t, b);
      var x, y := Word(t, a, 3), Word(t, b, 3);
      if Shl(x, 8) == Shl(y, 8) {
        ShrLowUnique(x, 0, 8);
        ShrLowUnique(y, 0, 8);
      }
    }
  }

  lemma MinMatchThree(t: Text, p: nat)
    requires p + 4 <= |t|
    ensures ReadMinMatch(t, p, 3) == Shl(Word(t, p, 3), 8)
  {
    hide Low, Shl, Word;
    LowSplit(0, Word(t, p, 4), 8, 24);
    WordLow(t, p, 4, 3);
  }
}
