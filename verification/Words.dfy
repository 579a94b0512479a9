/** 64-bit words as bit strings, and byte strings ended by a mark. */
module Words {
  import opened Nums
  import opened BitSeq

  /** `<<` of a 64-bit word. */
  function Shl64(x: nat, n: nat): nat { Low(Shl(x, n), 64) }

  /** The eight little-endian bytes of a word. */
  function WordBytes(c: nat): (b: seq<Byte>)
    ensures |b| == 8
  {
    assert Pow2(8) == 256;
    seq(8, k requires 0 <= k => Low(Shr(c, 8 * k), 8) as Byte)
  }

  lemma {:induction false} ToBitsAppend(v: nat, m: nat, n: nat)
    ensures ToBits(v, m + n) == ToBits(v, m) + ToBits(Shr(v, m), n)
    decreases m
  {
    if m > 0 {
      ToBitsAppend(v / 2, m - 1, n);
    }
  }

  lemma {:induction false} ToBitsLow(v: nat, n: nat)
    ensures ToBits(Low(v, n), n) == ToBits(v, n)
  {
    ToNatOfBits(v, n);
    ToBitsOfNat(ToBits(v, n));
  }

  lemma {:induction false} WordBytesBits(c: nat, k: nat)
    requires k <= 8
    ensures BytesBits(WordBytes(c)[..k]) == ToBits(c, 8 * k)
  {
    if k > 0 {
      WordBytesBits(c, k - 1);
      var b := WordBytes(c);
      assert b[..k] == b[..k - 1] + [b[k - 1]];
      BytesBitsAppend(b[..k - 1], [b[k - 1]]);
      OneByte(b[k - 1]);
      ToBitsLow(Shr(c, 8 * (k - 1)), 8);
      ToBitsAppend(c, 8 * (k - 1), 8);
    }
  }

  lemma OneByte(b: Byte)
    ensures BytesBits([b]) == ToBits(b, 8)
  {
    assert BytesBits([b][1..]) == [];
  }

  /** A bit string read back through a wider word keeps its bits, with zeros above. */
  lemma {:induction false} ToBitsWider(s: Bits, n: nat)
    requires |s| <= n
    ensures ToBits(ToNat(s), n) == s + Zeros(n - |s|)
  {
    ToNatZeros(n - |s|);
    ToNatAppend(s, Zeros(n - |s|));
    ShlZero(|s|);
    ToBitsOfNat(s + Zeros(n - |s|));
  }

  lemma ShlBits(w: Bits, k: nat)
    requires k <= |w|
    ensures Low(Shl(ToNat(w), k), |w|) == ToNat(Zeros(k) + w[..|w| - k])
  {
    ToNatZeros(k);
    ToNatAppend(Zeros(k), w);
    var z := Zeros(k) + w;
    Split(z, |w|);
    assert z[..|w|] == Zeros(k) + w[..|w| - k];
  }

  /** Shifting left by `k` and right by `|w| - n` reads `n` bits below the top `k`. */
  lemma LookBits(w: Bits, k: nat, n: nat)
    requires k + n <= |w|
    ensures Shr(Low(Shl(ToNat(w), k), |w|), |w| - n) == ToNat(w[|w| - k - n..|w| - k])
  {
    ShlBits(w, k);
    var z := Zeros(k) + w[..|w| - k];
    Split(z, |w| - n);
    assert z[|w| - n..] == w[|w| - k - n..|w| - k];
  }

  /** Whatever is shifted, `n` bits come out. */
  lemma LookBound(x: nat, m: nat, n: nat)
    requires n <= m
    ensures Shr(Low(x, m), m - n) < Pow2(n)
  {
    ShrBelow(Low(x, m), m - n, Pow2(n));
    ShlPow2(n, m - n);
  }

  // Marked byte strings

  /** `bytes` hold `bits`, then a set bit, then zeros up to the byte's end. */
  ghost predicate Marked(bytes: seq<Byte>, bits: Bits) {
    && |bytes| == |bits| / 8 + 1
    && BytesBits(bytes) == bits + [true] + Zeros(8 * |bytes| - |bits| - 1)
  }

  /** What a decoder opens: not empty, with a mark in the last byte. */
  predicate Openable(src: seq<Byte>) { src != [] && src[|src| - 1] != 0 }

  /** The zeros above the mark, and the mark: `leading_zeros() + 1`. */
  function Padding(last: Byte): (p: nat)
    requires last != 0
    ensures 1 <= p <= 8
  {
    assert Pow2(8) == 256;
    if HighBit(last) >= 8 then Pow2Mono(8, HighBit(last)); 8 else 8 - HighBit(last)
  }

  /** The bits below the mark. */
  function Payload(src: seq<Byte>): Bits
    requires Openable(src)
  {
    BytesBits(src)[..8 * |src| - Padding(src[|src| - 1])]
  }

  lemma MarkedByte(low: Bits, n: nat)
    requires |low| + 1 + n == 8
    ensures ToNat(low + [true] + Zeros(n)) >= 1 && HighBit(ToNat(low + [true] + Zeros(n))) == |low|
  {
    var s := low + [true];
    ToNatAppend(low, [true]);
    assert [true][1..] == [];
    ToNatZeros(n);
    ToNatAppend(s, Zeros(n));
    ShlZero(|s|);
    ShlPow2(0, |low|);
    HighBitUnique(ToNat(s + Zeros(n)), |low|);
  }

  /** The mark tells the payload from the padding. */
  lemma MarkedOpens(bytes: seq<Byte>, bits: Bits)
    requires Marked(bytes, bits)
    ensures Openable(bytes) && Payload(bytes) == bits
  {
    var m := |bytes| - 1;
    var all := BytesBits(bytes);
    BytesBitsSlice(bytes, m, m + 1);
    assert bytes[m..m + 1] == [bytes[m]];
    OneByte(bytes[m]);
    var low, n := bits[8 * m..], 8 * |bytes| - |bits| - 1;
    assert all[8 * m..8 * (m + 1)] == low + [true] + Zeros(n);
    ToNatOfBits(bytes[m], 8);
    assert Pow2(8) == 256;
    LowSmall(bytes[m], 8);
    MarkedByte(low, n);
  }
}
