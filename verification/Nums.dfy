/** Powers of two, shifts and masks of words, and the highest set bit. The
    shifts are defined bit by bit, so that no proof multiplies variables. */
module Nums {

  function Pow2(n: nat): (r: nat)
    ensures r >= 1
  {
    if n == 0 then 1 else 2 * Pow2(n - 1)
  }

  /** `x << n`, unbounded. */
  function Shl(x: nat, n: nat): nat
    decreases n, x
  {
    if n == 0 then x else Shl(2 * x, n - 1)
  }

  /** `x >> n`. */
  function Shr(x: nat, n: nat): nat
    decreases n, x
  {
    if n == 0 then x else Shr(x / 2, n - 1)
  }

  /** `x & ((1 << n) - 1)`. */
  function Low(x: nat, n: nat): (r: nat)
    ensures r < Pow2(n)
    decreases n, x
  {
    if n == 0 then 0 else x % 2 + 2 * Low(x / 2, n - 1)
  }

  lemma {:induction false} Pow2Mono(a: nat, b: nat)
    requires a <= b
    ensures Pow2(a) <= Pow2(b)
    ensures a < b ==> 2 * Pow2(a) <= Pow2(b)
    decreases b - a
  {
    if a < b {
      Pow2Mono(a, b - 1);
    }
  }

  lemma Pow2Zero()
    ensures Pow2(0) == 1
  {
  }

  lemma Pow2One()
    ensures Pow2(1) == 2
  {
  }

  lemma Pow2Next(n: nat)
    ensures Pow2(n + 1) == 2 * Pow2(n)
  {
  }

  // Shifts

  lemma {:induction false} ShlPow2(a: nat, n: nat)
    ensures Shl(Pow2(a), n) == Pow2(a + n)
    decreases n
  {
    if n > 0 {
      ShlPow2(a + 1, n - 1);
    }
  }

  lemma {:induction false} ShlMono(x: nat, y: nat, n: nat)
    requires x <= y
    ensures Shl(x, n) <= Shl(y, n)
    decreases n
  {
    if n > 0 {
      ShlMono(2 * x, 2 * y, n - 1);
    }
  }

  lemma {:induction false} ShlAdd(x: nat, y: nat, n: nat)
    ensures Shl(x + y, n) == Shl(x, n) + Shl(y, n)
    decreases n
  {
    if n > 0 {
      ShlAdd(2 * x, 2 * y, n - 1);
    }
  }

  lemma ShlNext(x: nat, n: nat)
    ensures Shl(x + 1, n) == Shl(x, n) + Pow2(n)
  {
    ShlAdd(x, 1, n);
    ShlPow2(0, n);
    assert Pow2(0) == 1;
  }

  lemma {:induction false} ShlShl(x: nat, m: nat, n: nat)
    ensures Shl(Shl(x, m), n) == Shl(x, m + n)
    decreases m
  {
    if m > 0 {
      ShlShl(2 * x, m - 1, n);
    }
  }

  lemma {:induction false} ShlTwice(x: nat, n: nat)
    ensures Shl(2 * x, n) == 2 * Shl(x, n)
    decreases n
  {
    if n > 0 {
      ShlTwice(2 * x, n - 1);
    }
  }

  lemma {:induction false} ShlZero(n: nat)
    ensures Shl(0, n) == 0
    decreases n
  {
    if n > 0 {
      ShlZero(n - 1);
    }
  }

  /** The bits shifted out, and the rest. */
  lemma {:induction false} ShrLow(x: nat, n: nat)
    ensures x == Shl(Shr(x, n), n) + Low(x, n)
    decreases n
  {
    if n > 0 {
      ShrLow(x / 2, n - 1);
      ShlTwice(Shr(x / 2, n - 1), n - 1);
    }
  }

  /** ... and no other split. */
  lemma {:induction false} ShrLowUnique(q: nat, r: nat, n: nat)
    requires r < Pow2(n)
    ensures Shr(Shl(q, n) + r, n) == q && Low(Shl(q, n) + r, n) == r
    decreases n
  {
    if n > 0 {
      ShlTwice(q, n - 1);
      ShrLowUnique(q, r / 2, n - 1);
    }
  }

  lemma ShrBelow(x: nat, n: nat, k: nat)
    ensures Shr(x, n) < k <==> x < Shl(k, n)
  {
    var q := Shr(x, n);
    ShrLow(x, n);
    if q < k {
      ShlAdd(q, 1, n);
      ShlPow2(0, n);
      ShlMono(q + 1, k, n);
    } else {
      ShlMono(k, q, n);
    }
  }

  lemma {:induction false} ShrShr(x: nat, m: nat, n: nat)
    ensures Shr(Shr(x, m), n) == Shr(x, m + n)
    decreases m
  {
    if m > 0 {
      ShrShr(x / 2, m - 1, n);
    }
  }

  lemma LowSmall(x: nat, n: nat)
    requires x < Pow2(n)
    ensures Low(x, n) == x && Shr(x, n) == 0
  {
    ShlZero(n);
    ShrLowUnique(0, x, n);
  }

  /** Bits from `n` up do not reach the low ones. */
  lemma LowShift(x: nat, q: nat, n: nat)
    ensures Low(x + Shl(q, n), n) == Low(x, n)
  {
    hide Shl, Shr, Low;
    ShrLow(x, n);
    ShlAdd(Shr(x, n), q, n);
    ShrLowUnique(Shr(x, n) + q, Low(x, n), n);
  }

  /** Masking early or late. */
  lemma LowLow(a: nat, s: nat, n: nat)
    ensures Low(Low(a, n) + s, n) == Low(a + s, n)
  {
    ShrLow(a, n);
    LowShift(Low(a, n) + s, Shr(a, n), n);
  }

  // The highest set bit

  /** `31 - leading_zeros`. */
  function HighBit(v: nat): (h: nat)
    requires v >= 1
    ensures Pow2(h) <= v < Pow2(h + 1)
  {
    if v == 1 then 0 else 1 + HighBit(v / 2)
  }

  lemma HighBitUnique(v: nat, h: nat)
    requires Pow2(h) <= v < Pow2(h + 1)
    ensures HighBit(v) == h
  {
    var g := HighBit(v);
    if g < h {
      Pow2Mono(g + 1, h);
    } else if h < g {
      Pow2Mono(h + 1, g);
    }
  }

  // Quotients

  lemma MulLe(a: int, b: int, m: int)
    requires a <= b && 0 <= m
    ensures a * m <= b * m
  {
  }

  /** Quotient and remainder are the only pair that recombines. */
  lemma DivModUnique(x: int, m: int, q: int, r: int)
    requires m > 0 && x == q * m + r && 0 <= r < m
    ensures x / m == q && x % m == r
  {
    var q2, r2 := x / m, x % m;
    assert x == q2 * m + r2 && 0 <= r2 < m;
    assert (q + 1) * m == q * m + m && (q2 + 1) * m == q2 * m + m;
    if q < q2 {
      MulLe(q + 1, q2, m);
    } else if q2 < q {
      MulLe(q2 + 1, q, m);
    }
  }

  lemma {:induction false} ShlIsMul(x: nat, n: nat)
    ensures Shl(x, n) == x * Pow2(n)
    decreases n
  {
    if n > 0 {
      ShlIsMul(2 * x, n - 1);
      MulAssoc(x, 2, Pow2(n - 1));
    }
  }

  /** A mask is a remainder. */
  lemma LowIsMod(x: nat, n: nat)
    ensures Low(x, n) == x % Pow2(n)
  {
    ShrLow(x, n);
    ShlIsMul(Shr(x, n), n);
    DivModUnique(x, Pow2(n), Shr(x, n), Low(x, n));
  }

  lemma MulAssoc(a: int, b: int, c: int)
    ensures (a * b) * c == a * (b * c)
  {
  }

  // Words

  /** `|` of machine words, bit by bit. */
  function BitOr(a: nat, b: nat): (r: nat)
    decreases a + b
  {
    if a == 0 && b == 0 then 0
    else (if a % 2 == 1 || b % 2 == 1 then 1 else 0) + 2 * BitOr(a / 2, b / 2)
  }

  lemma {:induction false} BitOrZero(b: nat)
    ensures BitOr(0, b) == b
  {
    if b > 0 {
      BitOrZero(b / 2);
    }
  }

  /** Words without a set bit in common are added by `|`. */
  lemma {:induction false} BitOrDisjoint(a: nat, b: nat, k: nat)
    requires a < Pow2(k)
    ensures BitOr(a, Shl(b, k)) == a + Shl(b, k)
    decreases k
  {
    if k == 0 {
      BitOrZero(b);
    } else {
      ShlTwice(b, k - 1);
      BitOrDisjoint(a / 2, b, k - 1);
    }
  }

  lemma {:induction false} BitOrComm(a: nat, b: nat)
    ensures BitOr(a, b) == BitOr(b, a)
    decreases a + b
  {
    if !(a == 0 && b == 0) {
      BitOrComm(a / 2, b / 2);
    }
  }
}
