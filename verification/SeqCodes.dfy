/** Sequence codes: a length or offset as a code and extra bits (RFC 8878,
    section 3.1.1.3.2.1.1). The constant tables of the two sides are written
    as their runs: each run of codes steps by a power of two. */
module SeqCodes {
  import opened Nums

  const MAX_LL: nat := 35
  const MAX_ML: nat := 52
  const MAX_OFF: nat := 31

  function LlBits(c: nat): nat {
    if c < 16 then 0 else if c < 20 then 1 else if c < 22 then 2 else if c < 24 then 3
    else if c == 24 then 4 else c - 19
  }

  function LlBase(c: nat): nat {
    if c < 16 then c else if c < 20 then 16 + 2 * (c - 16) else if c < 22 then 24 + 4 * (c - 20)
    else if c < 24 then 32 + 8 * (c - 22) else if c == 24 then 48 else Pow2(c - 19)
  }

  function MlBits(c: nat): nat {
    if c < 32 then 0 else if c < 36 then 1 else if c < 38 then 2 else if c < 40 then 3
    else if c < 42 then 4 else if c == 42 then 5 else c - 36
  }

  function MlBase(c: nat): nat {
    if c < 32 then c + 3 else if c < 36 then 35 + 2 * (c - 32) else if c < 38 then 43 + 4 * (c - 36)
    else if c < 40 then 51 + 8 * (c - 38) else if c < 42 then 67 + 16 * (c - 40)
    else if c == 42 then 99 else Pow2(c - 36) + 3
  }

  function OfBits(c: nat): nat { c }

  /** Repeat codes have no base of their own; from code 2 on, `2^c - 3`. */
  function OfBase(c: nat): nat {
    if c == 0 then 0 else if c == 1 then 1 else Pow2Mono(2, c); assert Pow2(2) == 4; Pow2(c) - 3
  }

  /** `ll_code`: up to 63 by table, above by the highest bit. */
  function LlCode(litLen: nat): nat {
    if litLen < 16 then litLen else if litLen < 24 then 16 + (litLen - 16) / 2
    else if litLen < 32 then 20 + (litLen - 24) / 4 else if litLen < 48 then 22 + (litLen - 32) / 8
    else if litLen < 64 then 24 else HighBit(litLen) + 19
  }

  /** `ml_code`: up to 127 by table, above by the highest bit. */
  function MlCode(mlBase: nat): nat {
    if mlBase < 32 then mlBase else if mlBase < 40 then 32 + (mlBase - 32) / 2
    else if mlBase < 48 then 36 + (mlBase - 40) / 4 else if mlBase < 64 then 38 + (mlBase - 48) / 8
    else if mlBase < 96 then 40 + (mlBase - 64) / 16 else if mlBase < 128 then 42 else HighBit(mlBase) + 36
  }

  function OffCode(offBase: nat): nat { if offBase <= 1 then 0 else HighBit(offBase) }

  /** A value between two powers is the lower one and its low bits. */
  lemma HighAndLow(v: nat)
    requires v >= 1
    ensures v == Pow2(HighBit(v)) + Low(v, HighBit(v))
  {
    var h := HighBit(v);
    ShlPow2(0, h);
    ShrLowUnique(1, v - Pow2(h), h);
  }

  lemma HighBitRange(v: nat, lo: nat, hi: nat)
    requires Pow2(lo) <= v < Pow2(hi)
    ensures lo <= HighBit(v) < hi
  {
    var h := HighBit(v);
    if h < lo {
      Pow2Mono(h + 1, lo);
    } else if hi <= h {
      Pow2Mono(hi, h);
    }
  }

  lemma SmallLow(v: nat)
    ensures Low(v, 0) == 0 && Low(v, 1) == v % 2 && Low(v, 2) == v % 4 && Low(v, 3) == v % 8
    ensures Low(v, 4) == v % 16 && Low(v, 5) == v % 32
  {
    LowIsMod(v, 1);
    LowIsMod(v, 2);
    LowIsMod(v, 3);
    LowIsMod(v, 4);
    LowIsMod(v, 5);
    assert Pow2(1) == 2 && Pow2(2) == 4 && Pow2(3) == 8 && Pow2(4) == 16 && Pow2(5) == 32;
  }

  /** A literal length is 0 exactly where its base is. */
  lemma LlZero(v: nat)
    requires v < 0x2_0000
    ensures LlBase(LlCode(v)) == 0 <==> v == 0
  {
    LlSplits(v);
    if v >= 64 {
      assert Pow2(6) == 64 && Pow2(17) == 0x2_0000;
      HighBitRange(v, 6, 17);
    }
  }

  /** Every literal length below 2^17 is its code's base and the code's extra bits. */
  lemma LlSplits(v: nat)
    requires v < 0x2_0000
    ensures LlCode(v) <= MAX_LL && LlBits(LlCode(v)) <= 16
    ensures LlBase(LlCode(v)) + Low(v, LlBits(LlCode(v))) == v
  {
    hide Low;
    if v < 64 {
      SmallLow(v);
    } else {
      assert Pow2(6) == 64 && Pow2(17) == 0x2_0000;
      HighBitRange(v, 6, 17);
      HighAndLow(v);
    }
  }

  /** Every match length less three below 2^17, likewise. */
  lemma MlSplits(v: nat)
    requires v < 0x2_0000
    ensures MlCode(v) <= MAX_ML && MlBits(MlCode(v)) <= 16
    ensures MlBase(MlCode(v)) + Low(v, MlBits(MlCode(v))) == v + 3
  {
    hide Low, HighBit, Pow2;
    if v < 128 {
      SmallLow(v);
    } else {
      Pow7And17();
      HighBitRange(v, 7, 17);
      HighAndLow(v);
    }
  }

  lemma Pow7And17()
    ensures Pow2(7) == 128 && Pow2(17) == 0x2_0000
  {
    assert Pow2(7) == 128 && Pow2(17) == 0x2_0000;
  }

  lemma Pow32()
    ensures Pow2(0) == 1 && Pow2(32) == 0x1_0000_0000
  {
    assert Pow2(8) == 0x100;
    assert Pow2(12) == 0x1000;
    assert Pow2(16) == 0x1_0000;
    assert Pow2(20) == 0x10_0000;
    assert Pow2(24) == 0x100_0000;
    assert Pow2(28) == 0x1000_0000;
  }

  /** Every offset value that fits 32 bits. */
  lemma OffSplits(v: nat)
    requires 1 <= v < 0x1_0000_0000
    ensures OffCode(v) <= MAX_OFF && v == Pow2(OffCode(v)) + Low(v, OffCode(v))
  {
    Pow32();
    HighBitRange(v, 0, 32);
    HighAndLow(v);
  }
}
