/** `BIT_CStream_t`: bits gather in a 64-bit container and leave it whole
    bytes at a time. */
module BackwardWriter {
  import opened Nums
  import opened BitSeq
  import opened Words

  /** Region length that lets `Close` succeed after `bits` bits, the end mark included. */
  function CapacityFor(bits: nat): nat { (bits + 7) / 8 + 9 }

  class BitCStream {
    var bitContainer: nat
    var bitPos: nat
    const buf: array<Byte>
    var ptr: nat
    const endPtr: nat
    /** Every bit added so far, and how many of their bytes left the container. */
    ghost var written: Bits
    ghost var flushed: nat

    ghost predicate Valid()
      reads this, buf
    {
      && buf.Length > 8 && endPtr == buf.Length - 8
      && bitPos < 64 && |written| == 8 * flushed + bitPos
      && bitContainer == ToNat(written[8 * flushed..])
      && ptr == (if flushed < endPtr then flushed else endPtr)
      && (flushed <= endPtr ==> BytesBits(buf[..flushed]) == written[..8 * flushed])
    }

    /** `BIT_initCStream`. */
    constructor (buf: array<Byte>)
      requires buf.Length > 8
      ensures Valid() && this.buf == buf && written == [] && flushed == 0
    {
      this.buf, endPtr := buf, buf.Length - 8;
      bitContainer, bitPos, ptr := 0, 0, 0;
      written, flushed := [], 0;
    }

    /** `BIT_addBits`: the low `nb` bits of `value`. The pending bits stay below 64. */
    method AddBits(value: nat, nb: nat)
      requires Valid() && nb < 32 && nb + bitPos < 64
      modifies this
      ensures Valid() && written == old(written) + ToBits(value, nb)
      ensures flushed == old(flushed) && bitPos == old(bitPos) + nb
    {
      hide ToNat, ToBits, BytesBits, BitOr, Shl64, Low;
      Joined(written[8 * flushed..], value, nb);
      assert (written + ToBits(value, nb))[8 * flushed..] == written[8 * flushed..] + ToBits(value, nb);
      assert (written + ToBits(value, nb))[..8 * flushed] == written[..8 * flushed];
      bitContainer := BitOr(bitContainer, Shl64(Low(value, nb), bitPos));
      bitPos := bitPos + nb;
      written := written + ToBits(value, nb);
    }

    /** `BIT_flushBits`: store the whole container, advance by the complete bytes. */
    method FlushBits()
      requires Valid()
      modifies this, buf
      ensures Valid() && written == old(written) && bitPos == old(bitPos) % 8
      ensures flushed == old(flushed) + old(bitPos) / 8
      ensures flushed < endPtr ==> BytesBits(buf[flushed..flushed + 1]) == written[8 * flushed..] + Zeros(8 - bitPos)
    {
      hide ToNat, BytesBits, WordBytes, Shr, Zeros;
      var nbBytes := bitPos / 8;
      ghost var before, f := buf[..ptr], flushed;
      var word := WordBytes(bitContainer);
      forall k | 0 <= k < 8 {
        buf[ptr + k] := word[k];
      }
      if f + nbBytes <= endPtr {
        assert buf[..f + nbBytes] == before + word[..nbBytes];
        assert f + nbBytes < endPtr ==> buf[f + nbBytes..f + nbBytes + 1] == word[nbBytes..nbBytes + 1];
      }
      Flushing(before, written, f, nbBytes);
      ptr := if ptr + nbBytes < endPtr then ptr + nbBytes else endPtr;
      bitPos := bitPos % 8;
      bitContainer := Shr(bitContainer, 8 * nbBytes);
      flushed := flushed + nbBytes;
    }

    /** `BIT_closeCStream`: the end mark, and the stream's size, or 0 when it
        did not fit. */
    method Close() returns (size: nat)
      requires Valid() && bitPos < 63
      modifies this, buf
      ensures (|old(written)| + 1) / 8 >= endPtr ==> size == 0
      ensures (|old(written)| + 1) / 8 < endPtr ==> 0 < size <= buf.Length && Marked(buf[..size], old(written))
    {
      AddBits(1, 1);
      assert ToBits(1, 1) == [true] by {
        assert ToBits(1, 1)[1..] == [];
      }
      FlushBits();
      if ptr >= endPtr {
        return 0;
      }
      size := ptr + if bitPos > 0 then 1 else 0;
      ClosedMarked(buf[..size], buf[..flushed], written, flushed);
    }
  }

  /** `|=` of new bits above the pending ones. */
  lemma Joined(pending: Bits, value: nat, nb: nat)
    requires |pending| + nb < 64
    ensures BitOr(ToNat(pending), Shl64(Low(value, nb), |pending|)) == ToNat(pending + ToBits(value, nb))
  {
    hide ToNat, ToBits, Low, Shl, BitOr, Pow2;
    var b := ToBits(value, nb);
    ToNatOfBits(value, nb);
    ToNatAppend(pending, b);
    BitOrDisjoint(ToNat(pending), ToNat(b), |pending|);
    Pow2Mono(|pending| + nb, 64);
    LowSmall(ToNat(pending + b) - ToNat(pending), 64);
  }

  lemma Flushing(before: seq<Byte>, written: Bits, f: nat, nbBytes: nat)
    requires 8 * f <= |written| < 8 * f + 64 && nbBytes == (|written| - 8 * f) / 8
    ensures var c := ToNat(written[8 * f..]);
            && Shr(c, 8 * nbBytes) == ToNat(written[8 * (f + nbBytes)..])
            && (BytesBits(before) == written[..8 * f] ==>
              BytesBits(before + WordBytes(c)[..nbBytes]) == written[..8 * (f + nbBytes)])
            && BytesBits(WordBytes(c)[nbBytes..nbBytes + 1])
               == written[8 * (f + nbBytes)..] + Zeros(8 * (f + nbBytes + 1) - |written|)
  {
    var pending := written[8 * f..];
    Split(pending, 8 * nbBytes);
    assert pending[8 * nbBytes..] == written[8 * (f + nbBytes)..];
    StoredBytes(pending, nbBytes);
    BytesBitsAppend(before, WordBytes(ToNat(pending))[..nbBytes]);
    assert written[..8 * (f + nbBytes)] == written[..8 * f] + pending[..8 * nbBytes];
  }

  lemma StoredBytes(pending: Bits, nbBytes: nat)
    requires |pending| < 64 && nbBytes == |pending| / 8
    ensures BytesBits(WordBytes(ToNat(pending))[..nbBytes]) == pending[..8 * nbBytes]
    ensures BytesBits(WordBytes(ToNat(pending))[nbBytes..nbBytes + 1])
            == pending[8 * nbBytes..] + Zeros(8 * (nbBytes + 1) - |pending|)
  {
    hide ToNat, BytesBits, WordBytes, Zeros;
    WordHolds(ToNat(pending), pending, 8);
    StoredSlices(WordBytes(ToNat(pending)), pending, nbBytes);
  }

  lemma WordHolds(c: nat, pending: Bits, k: nat)
    requires c == ToNat(pending) && |pending| <= 8 * k && k == |WordBytes(c)|
    ensures BytesBits(WordBytes(c)) == pending + Zeros(8 * k - |pending|)
  {
    ToBitsWider(pending, 8 * k);
    WordBytesBits(c, k);
    assert WordBytes(c)[..k] == WordBytes(c);
  }

  lemma StoredSlices(b: seq<Byte>, pending: Bits, k: nat)
    requires |b| == 8 && |pending| < 64 && k == |pending| / 8 && BytesBits(b) == pending + Zeros(64 - |pending|)
    ensures BytesBits(b[..k]) == pending[..8 * k]
    ensures BytesBits(b[k..k + 1]) == pending[8 * k..] + Zeros(8 * (k + 1) - |pending|)
  {
    BytesBitsSlice(b, 0, k);
    BytesBitsSlice(b, k, k + 1);
    assert b[0..k] == b[..k];
    PaddedSlices(pending, 64, k);
  }

  lemma PaddedSlices(p: Bits, n: nat, k: nat)
    requires |p| < n && 8 * k <= |p| < 8 * k + 8 <= n
    ensures (p + Zeros(n - |p|))[8 * 0..8 * k] == p[..8 * k]
    ensures (p + Zeros(n - |p|))[8 * k..8 * (k + 1)] == p[8 * k..] + Zeros(8 * (k + 1) - |p|)
  {
  }

  lemma ClosedMarked(bytes: seq<Byte>, whole: seq<Byte>, w: Bits, f: nat)
    requires |w| >= 1 && w[|w| - 1] && 8 * f <= |w| < 8 * f + 8 && |whole| == f && BytesBits(whole) == w[..8 * f]
    requires if |w| == 8 * f then bytes == whole
             else |bytes| == f + 1 && bytes[..f] == whole && BytesBits(bytes[f..]) == w[8 * f..] + Zeros(8 * f + 8 - |w|)
    ensures bytes != [] && Marked(bytes, w[..|w| - 1])
  {
    var bits := w[..|w| - 1];
    assert w == bits + [true];
    if |w| > 8 * f {
      assert bytes == bytes[..f] + bytes[f..];
      BytesBitsAppend(bytes[..f], bytes[f..]);
      assert w[..8 * f] + (w[8 * f..] + Zeros(8 * f + 8 - |w|)) == bits + [true] + Zeros(8 * f + 8 - |w|);
    } else {
      assert w[..8 * f] == bits + [true] + Zeros(0);
    }
  }
}
