/** The table description of an FSE distribution (RFC 8878, section 4.1.1) as
    bits: each count in as few bits as what is left allows, zeros in runs. */
module NCountBits {
  import opened Nums
  import opened BitSeq
  import opened FseDist

  /** Counts of at least -1 that tile the table. */
  ghost predicate Tiles(norm: seq<int>, log: nat) {
    5 <= log <= 12 && 1 <= |norm| <= 256 && (forall s :: 0 <= s < |norm| ==> norm[s] >= -1)
    && Rest(norm, 0) == Pow2(log)
  }

  /** The cells of the symbols from `s` on. */
  function Rest(norm: seq<int>, s: nat): nat
    requires s <= |norm|
    decreases |norm| - s
  {
    if s == |norm| then 0 else Abs(norm[s]) + Rest(norm, s + 1)
  }

  // One count

  /** The values that one bit less can tell, with `rem` left of `2^k .. 2^(k+1)`. */
  function Short(rem: nat): (m: int)
    requires rem >= 1
  {
    2 * Pow2(HighBit(rem)) - 1 - rem
  }

  /** A count plus one, as written. */
  function Coded(v: nat, rem: nat): nat
    requires rem >= 1 && v <= rem
  {
    if v >= Pow2(HighBit(rem)) then v + Short(rem) else v
  }

  function Width(v: nat, rem: nat): nat
    requires rem >= 1 && v <= rem
  {
    if v < Short(rem) then HighBit(rem) else HighBit(rem) + 1
  }

  function CountBits(v: nat, rem: nat): (b: Bits)
    requires rem >= 1 && v <= rem
    ensures |b| == Width(v, rem)
  {
    ToBits(Coded(v, rem), Width(v, rem))
  }

  /** What a reader makes of the low bits `low`, and one more, `all`. */
  function Decoded(low: nat, all: nat, rem: nat): (nat, nat)
    requires rem >= 1 && all < 2 * Pow2(HighBit(rem))
  {
    var k := HighBit(rem);
    if low < Short(rem) then (low, k)
    else (if all >= Pow2(k) then all - Short(rem) else all, k + 1)
  }

  /** Both ways a count is told. */
  lemma CountFits(v: nat, rem: nat)
    requires rem >= 1 && v <= rem
    ensures var k := HighBit(rem);
            && Coded(v, rem) < Pow2(Width(v, rem)) && Pow2(k + 1) == 2 * Pow2(k)
            && (Width(v, rem) == k ==> Coded(v, rem) == v < Short(rem))
            && (Width(v, rem) == k + 1 ==> Low(Coded(v, rem), k) >= Short(rem))
            && (Width(v, rem) == k + 1 ==> v == if Coded(v, rem) >= Pow2(k) then Coded(v, rem) - Short(rem) else Coded(v, rem))
  {
    var k := HighBit(rem);
    var w := Coded(v, rem);
    if w >= Pow2(k) {
      ShlPow2(0, k);
      ShrLowUnique(1, w - Pow2(k), k);
    } else {
      LowSmall(w, k);
    }
  }

  // Runs of zeros

  function RunBits(z: nat): (b: Bits)
    ensures |b| == 2 * (z / 3) + 2
  {
    if z >= 3 then [true, true] + RunBits(z - 3) else ToBits(z, 2)
  }

  /** Zero counts from `s` on. */
  function Zeros0(norm: seq<int>, s: nat): (z: nat)
    requires s <= |norm|
    ensures s + z <= |norm| && (forall i :: s <= i < s + z ==> norm[i] == 0) && (s + z < |norm| ==> norm[s + z] != 0)
    decreases |norm| - s
  {
    if s < |norm| && norm[s] == 0 then 1 + Zeros0(norm, s + 1) else 0
  }

  lemma {:induction false} ZerosKeepRest(norm: seq<int>, s: nat, z: nat)
    requires s + z <= |norm| && forall i :: s <= i < s + z ==> norm[i] == 0
    ensures Rest(norm, s + z) == Rest(norm, s)
    decreases z
  {
    if z > 0 {
      ZerosKeepRest(norm, s + 1, z - 1);
    }
  }

  // The whole description

  /** The symbols from `s` on; after a zero count, the run of zeros first. */
  function SymbolBits(norm: seq<int>, s: nat, after0: bool): Bits
    requires s <= |norm| && forall i :: 0 <= i < |norm| ==> norm[i] >= -1
    decreases |norm| - s, 1
  {
    if Rest(norm, s) == 0 then []
    else if after0 then
      ZerosKeepRest(norm, s, Zeros0(norm, s));
      RunBits(Zeros0(norm, s)) + CountsFrom(norm, s + Zeros0(norm, s))
    else CountsFrom(norm, s)
  }

  /** The count of `s`, then the rest. */
  function CountsFrom(norm: seq<int>, s: nat): Bits
    requires s <= |norm| && Rest(norm, s) > 0 && forall i :: 0 <= i < |norm| ==> norm[i] >= -1
    decreases |norm| - s, 0
  {
    CountBits(norm[s] + 1, Rest(norm, s) + 1) + SymbolBits(norm, s + 1, norm[s] == 0)
  }

  function Header(norm: seq<int>, log: nat): Bits
    requires log >= 5 && forall i :: 0 <= i < |norm| ==> norm[i] >= -1
  {
    ToBits(log - 5, 4) + SymbolBits(norm, 0, false)
  }
}
