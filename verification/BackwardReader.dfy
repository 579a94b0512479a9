/** `BIT_DStream_t`: bits are read from the high end of a 64-bit container
    that moves from the stream's last bytes to its first. */
module BackwardReader {
  import opened Nums
  import opened BitSeq
  import opened Words

  datatype Status = Unfinished | EndOfBuffer | Completed | Overflow

  /** The stream's bits, padded to one container. */
  function Padded(src: seq<Byte>): (w: Bits)
    ensures |w| >= 64 && |w| >= 8 * |src|
  {
    BytesBits(src) + Zeros(if |src| < 8 then 64 - 8 * |src| else 0)
  }

  /** `MEM_readLE64`, of a short stream `read_le_short`. */
  function ReadLE(src: seq<Byte>, at: nat): nat
    requires at + 8 <= |src| || at == 0
  {
    if |src| < 8 then ToNat(BytesBits(src)) else ToNat(BytesBits(src[at..at + 8]))
  }

  lemma ReadsPadded(src: seq<Byte>, at: nat)
    requires at + 8 <= |src| || at == 0
    ensures 8 * at + 64 <= |Padded(src)| && ReadLE(src, at) == ToNat(Padded(src)[8 * at..8 * at + 64])
  {
    if |src| < 8 {
      var z := Zeros(64 - 8 * |src|);
      ToNatZeros(64 - 8 * |src|);
      ToNatAppend(BytesBits(src), z);
      ShlZero(8 * |src|);
      assert Padded(src)[0..64] == BytesBits(src) + z;
    } else {
      assert Padded(src) == BytesBits(src);
      BytesBitsSlice(src, at, at + 8);
    }
  }

  function AnyBits(container: nat, consumed: nat, n: nat): nat
    requires n <= 56
  {
    Shr(Shr(Shl64(container, consumed % 64), 1), (63 - n) % 64)
  }

  function FastBits(container: nat, consumed: nat, n: nat): nat
    requires 1 <= n <= 56
  {
    Shr(Shl64(container, consumed % 64), 64 - n)
  }

  /** The two looks agree, and give `n` bits. */
  lemma LooksAgree(container: nat, consumed: nat, n: nat)
    requires n <= 56
    ensures AnyBits(container, consumed, n) < Pow2(n)
    ensures n >= 1 ==> FastBits(container, consumed, n) == AnyBits(container, consumed, n)
  {
    TwoShifts(Shl(container, consumed % 64), 64, n);
  }

  lemma PayloadPadded(src: seq<Byte>)
    requires Openable(src)
    ensures |Payload(src)| <= |Padded(src)| && Payload(src) == Padded(src)[..|Payload(src)|]
  {
  }

  /** The loaded container over the stream's bits. */
  lemma Window(w: Bits, p: Bits, at: nat, consumed: nat, n: nat)
    requires at + 64 <= |w| && |p| <= |w| && p == w[..|p|]
    requires consumed + n <= 64 && at + 64 - consumed <= |p|
    ensures w[at..at + 64][64 - consumed - n..64 - consumed] == p[at + 64 - consumed - n..at + 64 - consumed]
  {
    var x, y := at + 64 - consumed - n, at + 64 - consumed;
    SliceSlice(w, at, at + 64, 64 - consumed - n, 64 - consumed);
    SliceSlice(w, 0, |p|, x, y);
    assert w[0..|p|] == p;
  }

  lemma SliceSlice(w: Bits, lo: nat, hi: nat, a: nat, b: nat)
    requires lo <= hi <= |w| && a <= b <= hi - lo
    ensures w[lo..hi][a..b] == w[lo + a..lo + b]
  {
    var x, y := w[lo..hi][a..b], w[lo + a..lo + b];
    assert |x| == |y| && forall i :: 0 <= i < |x| ==> x[i] == y[i];
  }

  /** Bits that are there are read; none past the loaded ones is touched. */
  lemma LooksRight(src: seq<Byte>, ptr: nat, consumed: nat, n: nat)
    requires Openable(src) && (ptr + 8 <= |src| || ptr == 0) && 1 <= n <= 56
    requires consumed + n <= 64 && 8 * ptr + 64 - consumed <= |Payload(src)|
    ensures FastBits(ReadLE(src, ptr), consumed, n)
            == ToNat(Payload(src)[8 * ptr + 64 - consumed - n..8 * ptr + 64 - consumed])
  {
    hide Padded, Payload, ReadLE, FastBits, ToNat;
    ReadsPadded(src, ptr);
    PayloadPadded(src);
    LooksInto(Padded(src), Payload(src), ReadLE(src, ptr), 8 * ptr, consumed, n);
  }

  lemma LooksInto(w: Bits, p: Bits, c: nat, at: nat, consumed: nat, n: nat)
    requires at + 64 <= |w| && |p| <= |w| && p == w[..|p|] && c == ToNat(w[at..at + 64])
    requires 1 <= n <= 56 && consumed + n <= 64 && at + 64 - consumed <= |p|
    ensures FastBits(c, consumed, n) == ToNat(p[at + 64 - consumed - n..at + 64 - consumed])
  {
    Window(w, p, at, consumed, n);
    LookBits64(w[at..at + 64], consumed, n);
  }

  lemma AnyBitsRead(src: seq<Byte>, ptr: nat, consumed: nat, n: nat)
    requires Openable(src) && (ptr + 8 <= |src| || ptr == 0) && n <= 56
    ensures AnyBits(ReadLE(src, ptr), consumed, n) < Pow2(n)
    ensures n >= 1 ==> FastBits(ReadLE(src, ptr), consumed, n) == AnyBits(ReadLE(src, ptr), consumed, n)
    ensures consumed + n <= 64 && 8 * ptr + 64 - consumed <= |Payload(src)| ==>
              AnyBits(ReadLE(src, ptr), consumed, n)
              == ToNat(Payload(src)[8 * ptr + 64 - consumed - n..8 * ptr + 64 - consumed])
  {
    LooksAgree(ReadLE(src, ptr), consumed, n);
    if n == 0 {
      assert Pow2(0) == 1;
    } else if consumed + n <= 64 && 8 * ptr + 64 - consumed <= |Payload(src)| {
      LooksRight(src, ptr, consumed, n);
    }
  }

  class BitDStream {
    const src: seq<Byte>
    var ptr: nat
    var container: nat
    var bitsConsumed: nat

    ghost predicate Valid()
      reads this
    {
      && Openable(src)
      && (ptr + 8 <= |src| || ptr == 0)
      && container == ReadLE(src, ptr)
      && (bitsConsumed <= 64 || ptr == 0)
      && Unread() <= |Payload(src)|
    }

    /** The bits not yet consumed; below zero once more were than there are. */
    function Unread(): int
      reads this
    {
      8 * ptr + 64 - bitsConsumed
    }

    /** What every reload leaves: all the rest loaded, or 57 bits and more. */
    ghost predicate Loaded(n: nat)
      reads this
    {
      ptr == 0 || bitsConsumed + n <= 64
    }

    /** `BIT_initDStream`. */
    constructor (src: seq<Byte>)
      requires Openable(src)
      ensures Valid() && this.src == src && Unread() == |Payload(src)| && Loaded(56)
    {
      this.src := src;
      var padding := Padding(src[|src| - 1]);
      if |src| >= 8 {
        ptr := |src| - 8;
        container := ReadLE(src, |src| - 8);
        bitsConsumed := padding;
      } else {
        ptr := 0;
        container := ReadLE(src, 0);
        bitsConsumed := padding + (8 - |src|) * 8;
      }
    }

    /** `BIT_lookBits`, 0 bits included. */
    function LookBitsAny(n: nat): nat
      requires n <= 56
      reads this
    {
      AnyBits(container, bitsConsumed, n)
    }

    /** `BIT_lookBitsFast`, at least one bit. */
    function LookBits(n: nat): nat
      requires 1 <= n <= 56
      reads this
    {
      FastBits(container, bitsConsumed, n)
    }

    method ReadBits(n: nat) returns (value: nat)
      requires Valid() && n <= 56 && Loaded(n)
      modifies this`bitsConsumed
      ensures Valid() && Unread() == old(Unread()) - n && bitsConsumed == old(bitsConsumed) + n
      ensures value < Pow2(n)
      ensures n <= old(Unread()) ==> value == ToNat(Payload(src)[Unread()..Unread() + n])
    {
      hide Payload, ToNat, ReadLE, AnyBits, FastBits, Pow2;
      ghost var u := Unread();
      AnyBitsRead(src, ptr, bitsConsumed, n);
      assert n <= u ==> LookBitsAny(n) == ToNat(Payload(src)[u - n..u]);
      value := LookBitsAny(n);
      bitsConsumed := bitsConsumed + n;
      assert Unread() == u - n;
    }

    method ReadBitsFast(n: nat) returns (value: nat)
      requires Valid() && 1 <= n <= 56 && Loaded(n)
      modifies this`bitsConsumed
      ensures Valid() && Unread() == old(Unread()) - n && bitsConsumed == old(bitsConsumed) + n
      ensures value < Pow2(n)
      ensures n <= old(Unread()) ==> value == ToNat(Payload(src)[Unread()..Unread() + n])
    {
      hide Payload, ToNat, ReadLE, AnyBits, FastBits, Pow2;
      ghost var u := Unread();
      AnyBitsRead(src, ptr, bitsConsumed, n);
      assert n <= u ==> LookBits(n) == ToNat(Payload(src)[u - n..u]);
      value := LookBits(n);
      bitsConsumed := bitsConsumed + n;
      assert Unread() == u - n;
    }

    /** `BIT_reloadDStream`: the unread bits stay the same. */
    method Reload() returns (status: Status)
      requires Valid()
      modifies this
      ensures Valid() && Unread() == old(Unread())
      ensures status == Overflow <==> Unread() < 0
      ensures ptr == 0 || bitsConsumed <= 7
      ensures status == Unfinished ==> bitsConsumed <= 7 && Unread() >= 57
      ensures status == EndOfBuffer || status == Completed ==> ptr == 0
      ensures status == Completed <==> Unread() == 0
    {
      if bitsConsumed > 64 {
        return Overflow;
      }
      if ptr >= 8 {
        ptr := ptr - bitsConsumed / 8;
        bitsConsumed := bitsConsumed % 8;
        container := ReadLE(src, ptr);
        return Unfinished;
      }
      if ptr == 0 {
        return if bitsConsumed < 64 then EndOfBuffer else Completed;
      }
      var nbBytes := bitsConsumed / 8;
      status := Unfinished;
      if ptr < nbBytes {
        nbBytes := ptr;
        status := EndOfBuffer;
      }
      ptr := ptr - nbBytes;
      bitsConsumed := bitsConsumed - nbBytes * 8;
      container := ReadLE(src, ptr);
    }

    /** `is_finished`: exactly every bit was consumed. */
    method IsFinished() returns (r: bool)
      requires Valid()
      ensures r <==> Unread() == 0 && ptr == 0
    {
      r := ptr == 0 && bitsConsumed == 64;
    }
  }

  lemma LookBits64(w: Bits, k: nat, n: nat)
    requires |w| == 64 && k + n <= 64 && n >= 1
    ensures Shr(Shl64(ToNat(w), k % 64), 64 - n) == ToNat(w[64 - k - n..64 - k])
  {
    LookBits(w, k, n);
  }

  /** `>> 1 >> (m - 1 - n)` shifts by `m - n` where `m - n` could be too much at once. */
  lemma TwoShifts(x: nat, m: nat, n: nat)
    requires n < m
    ensures Shr(Shr(Low(x, m), 1), m - 1 - n) == Shr(Low(x, m), m - n) < Pow2(n)
  {
    ShrShr(Low(x, m), 1, m - 1 - n);
    LookBound(x, m, n);
  }
}
