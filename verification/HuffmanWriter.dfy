/** The fast Huffman writer: two 64-bit containers with the bits at the top,
    and noise below them that never reaches an emitted bit. */
module HuffmanWriter {
  import opened Nums
  import opened BitSeq
  import opened Words
  import opened Kraft
  import opened HuffmanCodes
  import opened HuffmanTable
  import opened HuffmanStream
  import BackwardWriter

  /** One container: only the low 8 bits of `bitPos` count. */
  datatype Cont = Cont(container: nat, bitPos: nat) {
    function Pos(): nat { Low(bitPos, 8) }

    /** `HUF_addBits`: `fast` lets the length field in as noise. */
    function Add(fast: bool, elt: nat): Cont {
      Cont(BitOr(Shr(container, Low(elt, 8)), if fast then elt else Shl(Shr(elt, 8), 8)),
           Low(bitPos + if fast then elt else Low(elt, 8), 64))
    }

    /** `HUF_mergeIndex1`. */
    function Merge(other: Cont): Cont {
      Cont(BitOr(Shr(container, other.Pos()), other.container), Low(bitPos + other.bitPos, 64))
    }

    /** `bits` at the top, and below them nothing above the low `noise` bits. */
    ghost predicate Packed(bits: Bits, noise: nat) {
      && |bits| + noise <= 64 && Pos() == |bits|
      && Low(container, 64 - |bits|) < Pow2(noise)
      && container == Low(container, 64 - |bits|) + Shl(ToNat(bits), 64 - |bits|)
    }
  }

  lemma TailOfTail(w: Bits, i: nat, n: nat)
    requires i + n <= |w|
    ensures w[i..][n..] == w[i + n..]
  {
  }

  /** A word stored behind `before`, the first `n` of its bytes to be kept. */
  lemma WordStored(now: seq<Byte>, before: seq<Byte>, word: seq<Byte>, n: nat)
    requires |word| == 8 && n < 8 && |before| + 8 <= |now| && now[..|before|] == before && now[|before|..|before| + 8] == word
    ensures now[..|before| + n] == before + word[..n] && now[|before| + n..|before| + n + 1] == word[n..n + 1]
  {
    var b := |before|;
    assert now[b..b + 8][..n] == now[b..b + n] && now[..b + n] == now[..b] + now[b..b + n];
    assert now[b..b + 8][n..n + 1] == [word[n]] && now[b + n..b + n + 1] == [now[b + n]];
    assert now[b..b + 8][n] == now[b + n];
  }

  lemma {:induction false} BitOrSplit(x: nat, y: nat, p: nat, q: nat, k: nat)
    requires x < Pow2(k) && y < Pow2(k)
    ensures BitOr(x, y) < Pow2(k)
    ensures BitOr(x + Shl(p, k), y + Shl(q, k)) == BitOr(x, y) + Shl(BitOr(p, q), k)
    decreases k
  {
    if k > 0 {
      ShlTwice(p, k - 1);
      ShlTwice(q, k - 1);
      ShlTwice(BitOr(p, q), k - 1);
      BitOrSplit(x / 2, y / 2, p, q, k - 1);
    }
  }

  lemma ShrAdd(x: nat, q: nat, n: nat)
    ensures Shr(x + Shl(q, n), n) == Shr(x, n) + q
  {
    ShrLow(x, n);
    ShlAdd(Shr(x, n), q, n);
    ShrLowUnique(Shr(x, n) + q, Low(x, n), n);
  }

  lemma ShrNarrow(x: nat, n: nat, j: nat)
    requires x < Pow2(j)
    ensures Shr(x, n) < Pow2(if j > n then j - n else 0)
  {
    if j > n {
      ShrBelow(x, n, Pow2(j - n));
      ShlPow2(j - n, n);
    } else {
      Pow2Mono(j, n);
      LowSmall(x, n);
    }
  }

  function Max(a: nat, b: nat): nat { if a < b then b else a }

  /** The noise left after `n` more bits and new noise of `e`. */
  function NoiseAfter(noise: nat, n: nat, e: nat): nat { Max(if noise > n then noise - n else 0, e) }

  /** The heart of both: what is or-ed in lands above the bits held, its noise
      below them. */
  lemma Combine(c: nat, b: Bits, j: nat, n: nat, q: nat, y: nat, e: nat)
    requires |b| + n + e <= 64 && |b| + n + j <= 64 + n && q < Pow2(n) && y < Pow2(e)
    requires Low(c, 64 - |b|) < Pow2(j) && c == Low(c, 64 - |b|) + Shl(ToNat(b), 64 - |b|)
    ensures var r, k := BitOr(Shr(c, n), y + Shl(q, 64 - n)), 64 - |b| - n;
            && Low(r, k) < Pow2(NoiseAfter(j, n, e)) && NoiseAfter(j, n, e) <= k
            && r == Low(r, k) + Shl(ToNat(b) + Shl(q, |b|), k)
  {
    hide Low, Shr, Shl, BitOr, Pow2, ToNat;
    var k, junk, live := 64 - |b| - n, Low(c, 64 - |b|), ToNat(b);
    var t := NoiseAfter(j, n, e);
    ShlShl(live, k, n);
    ShrAdd(junk, Shl(live, k), n);
    ShrNarrow(junk, n, j);
    Pow2Mono(if j > n then j - n else 0, t);
    Pow2Mono(e, t);
    Pow2Mono(t, k);
    ShlShl(q, |b|, k);
    BitOrSplit(Shr(junk, n), y, live, Shl(q, |b|), k);
    BitOrDisjoint(live, q, |b|);
    ShlZero(t);
    BitOrSplit(Shr(junk, n), y, 0, 0, t);
    ShrLowUnique(live + Shl(q, |b|), BitOr(Shr(junk, n), y), k);
  }

  /** The parts of a code as packed. */
  lemma EltParts(nb: nat, v: nat)
    requires 1 <= nb <= 12 && v < Pow2(nb)
    ensures Elt(nb, v) == nb + Shl(v, 64 - nb) && Low(Elt(nb, v), 8) == nb
    ensures Shl(Shr(Elt(nb, v), 8), 8) == Shl(v, 64 - nb)
  {
    hide Low, Shr, Shl;
    assert Pow2(8) == 256;
    ShlShl(v, 56 - nb, 8);
    ShrLowUnique(Shl(v, 56 - nb), nb, 8);
  }

  lemma PosAdds(pos: nat, x: nat, n: nat)
    requires Low(pos, 8) + n <= 64 && Low(x, 8) == n
    ensures Low(Low(pos + x, 64), 8) == Low(pos, 8) + n
  {
    hide Low, Pow2;
    LowOfLow(pos + x, 8, 56);
    LowLow(pos, x, 8);
    LowLow(x, Low(pos, 8), 8);
    Small8(Low(pos, 8) + n);
  }

  lemma Small8(x: nat)
    requires x <= 64
    ensures Low(x, 8) == x
  {
    assert Pow2(8) == 256;
    LowSmall(x, 8);
  }

  lemma {:induction false} LowOfLow(x: nat, m: nat, n: nat)
    ensures Low(Low(x, m + n), m) == Low(x, m)
    decreases m
  {
    if m > 0 {
      LowOfLow(x / 2, m - 1, n);
    }
  }

  /** One code more: the length field may stay when there is room for it. */
  lemma AddPacked(c: Cont, b: Bits, j: nat, fast: bool, nb: nat, v: nat, e: nat)
    requires c.Packed(b, j) && 1 <= nb <= 12 && v < Pow2(nb) && nb < Pow2(e)
    requires |b| + nb + (if fast then e else 0) <= 64
    ensures c.Add(fast, Elt(nb, v)).Packed(b + ToBits(v, nb), NoiseAfter(j, nb, if fast then e else 0))
  {
    hide Low, Shr, Shl, BitOr, ToNat, ToBits, Elt, NoiseAfter, Pow2;
    EltParts(nb, v);
    AddPos(c, fast, nb, v);
    Pow2Zero();
    Combine(c.container, b, j, nb, v, if fast then nb else 0, if fast then e else 0);
    CodeAppended(b, v, nb);
  }

  lemma AddPos(c: Cont, fast: bool, nb: nat, v: nat)
    requires c.Pos() + nb <= 64 && 1 <= nb <= 12 && v < Pow2(nb)
    ensures c.Add(fast, Elt(nb, v)).Pos() == c.Pos() + nb
  {
    hide Low, Elt;
    EltParts(nb, v);
    PosAdds(c.bitPos, Elt(nb, v), nb);
    Small8(nb);
    PosAdds(c.bitPos, nb, nb);
  }

  lemma CodeAppended(b: Bits, v: nat, nb: nat)
    requires v < Pow2(nb)
    ensures ToNat(b + ToBits(v, nb)) == ToNat(b) + Shl(v, |b|)
  {
    ToNatAppend(b, ToBits(v, nb));
    ToNatOfBits(v, nb);
    LowSmall(v, nb);
  }

  /** The second container joins the first. */
  lemma MergePacked(c: Cont, b: Bits, j: nat, d: Cont, a: Bits, e: nat)
    requires c.Packed(b, j) && d.Packed(a, e) && |b| + |a| + e <= 64
    ensures c.Merge(d).Packed(b + a, NoiseAfter(j, |a|, e))
  {
    hide Low, Shr, Shl, BitOr, ToNat, NoiseAfter, Pow2;
    PosAdds(c.bitPos, d.bitPos, |a|);
    Combine(c.container, b, j, |a|, ToNat(a), Low(d.container, 64 - |a|), e);
    ToNatAppend(b, a);
  }

  /** The emitted word holds the bits and nothing of the noise; what is not a
      whole byte stays, over any noise. */
  lemma FlushPacked(c: Cont, b: Bits, j: nat)
    requires c.Packed(b, j) && 0 < |b| <= 64
    ensures Shr(c.container, 64 - |b|) == ToNat(b)
    ensures Cont(c.container, Low(c.bitPos, 3)).Packed(b[8 * (|b| / 8)..], 64 - |b| % 8)
  {
    hide Low, Shr, Shl, ToNat, Pow2;
    EmittedBits(c, b, j);
    KeptBits(c, b, j, 8 * (|b| / 8));
    Low3(c.bitPos, |b|);
  }

  lemma EmittedBits(c: Cont, b: Bits, j: nat)
    requires c.Packed(b, j)
    ensures Shr(c.container, 64 - |b|) == ToNat(b)
  {
    hide Low, Shr, Shl, ToNat, Pow2;
    Pow2Mono(j, 64 - |b|);
    ShrLowUnique(ToNat(b), Low(c.container, 64 - |b|), 64 - |b|);
  }

  lemma KeptBits(c: Cont, b: Bits, j: nat, whole: nat)
    requires c.Packed(b, j) && whole <= |b|
    ensures var k := 64 - (|b| - whole);
            Low(c.container, k) < Pow2(k) && c.container == Low(c.container, k) + Shl(ToNat(b[whole..]), k)
  {
    hide Low, Shr, Shl, ToNat, Pow2;
    EmittedBits(c, b, j);
    ShrShr(c.container, 64 - |b|, whole);
    Split(b, whole);
    ShrLow(c.container, 64 - |b| + whole);
  }

  lemma SmallMod(n: nat)
    requires n <= 64
    ensures Low(n, 3) == n % 8
  {
    LowIsMod(n, 3);
    assert Pow2(3) == 8;
  }

  lemma Low3(pos: nat, n: nat)
    requires Low(pos, 8) == n <= 64
    ensures Low(Low(pos, 3), 8) == n % 8
  {
    LowOfLow(pos, 3, 5);
    SmallMod(n);
    Small8(n % 8);
  }

  /** `i * u`. */
  function Times(i: nat, u: nat): nat { if i == 0 then 0 else Times(i - 1, u) + u }

  lemma {:induction false} TimesIsMul(i: nat, u: nat)
    ensures Times(i, u) == i * u
  {
    if i > 0 {
      TimesIsMul(i - 1, u);
    }
  }

  lemma {:induction false} TimesMono(i: nat, k: nat, u: nat)
    requires i <= k
    ensures Times(i, u) <= Times(k, u)
  {
    if i < k {
      TimesMono(i, k - 1, u);
    }
  }

  /** `kUnroll` and `kLastFast` leave room for the noise of codes of `u` bits
      at most, whose lengths take `e` bits. */
  predicate Fits(k: nat, lastFast: bool, u: nat, e: nat) {
    && 1 <= k && 1 <= u <= 12 && u < Pow2(e) && e <= 8
    && 7 + Times(k, u) <= 63 && 7 + Times(k - 1, u) + e <= 64 && (lastFast ==> 7 + Times(k, u) + e <= 64)
  }

  /** The groups per table log. */
  function Unroll(tableLog: nat): (nat, bool) {
    match tableLog
    case 11 => (5, false)
    case 10 => (5, true)
    case 9 => (6, false)
    case 8 => (7, false)
    case 7 => (8, false)
    case _ => (9, true)
  }

  /** Every choice fits. */
  lemma UnrollFits(u: nat)
    requires 1 <= u <= 11
    ensures Fits(Unroll(u).0, Unroll(u).1, u, if u <= 7 then 3 else 4)
  {
    assert Pow2(3) == 8 && Pow2(4) == 16;
  }

  /** The encoder's table: a code for every symbol of `src`. */
  ghost predicate TableFor(ct: seq<nat>, l: seq<nat>, u: nat, src: seq<nat>) {
    && Full(l, u) && u <= 11 && |l| <= |ct| == 256 && HuffmanStream.Coded(l, src)
    && forall s :: 0 <= s < |l| ==> ct[s] == Elt(l[s], Value(l, u, s))
  }

  class HufCStream {
    var c0: Cont
    var c1: Cont
    const buf: array<Byte>
    var ptr: nat
    /** The bits added to the first container, and those waiting in the second. */
    ghost var written: Bits
    ghost var waiting: Bits
    ghost var noise0: nat
    ghost var noise1: nat
    /** The second container is in use. */
    ghost var second: bool

    ghost predicate Valid()
      reads this, buf
    {
      && ptr <= buf.Length && 8 * ptr <= |written|
      && BytesBits(buf[..ptr]) == written[..8 * ptr]
      && c0.Packed(written[8 * ptr..], noise0)
      && if second then c1.Packed(waiting, noise1) else waiting == []
    }

    ghost function Pending(): int
      reads this
    {
      |written| - 8 * ptr
    }

    /** The bits a container has not given up yet. */
    ghost function Load(first: bool): int
      reads this
    {
      if first then Pending() else |waiting|
    }

    constructor (buf: array<Byte>)
      ensures Valid() && this.buf == buf && written == [] && waiting == [] && ptr == 0 && !second
    {
      this.buf, ptr := buf, 0;
      c0, c1 := Cont(0, 0), Cont(0, 0);
      written, waiting, noise0, noise1, second := [], [], 0, 0, false;
      new;
      Nothing();
    }

    /** `HUF_addBits` for one symbol. */
    method AddSymbol(ct: seq<nat>, first: bool, fast: bool, s: nat, ghost l: seq<nat>, ghost u: nat, ghost e: nat)
      requires Valid() && Full(l, u) && u <= 11 && s < |l| <= |ct| && l[s] >= 1 && ct[s] == Elt(l[s], Value(l, u, s))
      requires u < Pow2(e) && (if first then waiting == [] else second)
      requires (if first then Pending() else |waiting|) + l[s] + (if fast then e else 0) <= 64
      modifies this
      ensures Valid() && ptr == old(ptr) && second == old(second)
      ensures written + waiting == old(written + waiting) + ToBits(Value(l, u, s), l[s])
      ensures if first then waiting == [] && |written| == old(|written|) + l[s] && noise1 == old(noise1)
              else written == old(written) && |waiting| == old(|waiting|) + l[s]
                   && noise1 == NoiseAfter(old(noise1), l[s], if fast then e else 0)
    {
      hide Full, Value, Cont.Packed, Cont.Add, ToBits, NoiseAfter, Pow2;
      ghost var v, nb := Value(l, u, s), l[s];
      CodeBounds(l, u, s);
      if first {
        AddPacked(c0, written[8 * ptr..], noise0, fast, nb, v, e);
        c0 := c0.Add(fast, ct[s]);
        noise0 := NoiseAfter(noise0, nb, if fast then e else 0);
        assert (written + ToBits(v, nb))[8 * ptr..] == written[8 * ptr..] + ToBits(v, nb);
        assert (written + ToBits(v, nb))[..8 * ptr] == written[..8 * ptr];
        written := written + ToBits(v, nb);
        assert written + waiting == written;
      } else {
        AddPacked(c1, waiting, noise1, fast, nb, v, e);
        c1 := c1.Add(fast, ct[s]);
        noise1 := NoiseAfter(noise1, nb, if fast then e else 0);
        Regroup(written, waiting, ToBits(v, nb));
        waiting := waiting + ToBits(v, nb);
      }
    }

    /** `HUF_zeroIndex1`. */
    method ZeroIndex1()
      requires Valid() && waiting == []
      modifies this`c1, this`noise1, this`second
      ensures Valid() && noise1 == 0 && second
    {
      c1, noise1, second := Cont(0, 0), 0, true;
      Nothing();
    }

    /** `HUF_mergeIndex1`. */
    method MergeIndex1()
      requires Valid() && second && Pending() + |waiting| + noise1 <= 64
      modifies this
      ensures Valid() && !second && written == old(written + waiting) && ptr == old(ptr)
    {
      hide Cont.Packed, Cont.Merge;
      MergePacked(c0, written[8 * ptr..], noise0, c1, waiting, noise1);
      assert (written + waiting)[8 * ptr..] == written[8 * ptr..] + waiting;
      assert (written + waiting)[..8 * ptr] == written[..8 * ptr];
      noise0 := NoiseAfter(noise0, |waiting|, noise1);
      c0 := c0.Merge(c1);
      written, waiting, second := written + waiting, [], false;
    }

    /** One word, stored whole. */
    method StoreWord(word: seq<Byte>)
      requires |word| == 8 && ptr + 8 <= buf.Length
      modifies buf
      ensures buf[..ptr] == old(buf[..ptr]) && buf[ptr..ptr + 8] == word
    {
      forall k | 0 <= k < 8 {
        buf[ptr + k] := word[k];
      }
    }

    /** `HUF_flushBits`: one word stored whole, the complete bytes kept. */
    method FlushBits()
      requires Valid() && !second && 0 < Pending() < 64 && ptr + 8 <= buf.Length
      modifies this, buf
      ensures Valid() && !second && written == old(written) && Pending() == old(Pending()) % 8
      ensures BytesBits(buf[ptr..ptr + 1]) == written[8 * ptr..] + Zeros(8 - Pending())
    {
      hide Cont.Packed, ToNat, BytesBits, WordBytes, Shr, Low, Zeros;
      ghost var pending := written[8 * ptr..];
      FlushPacked(c0, pending, noise0);
      PosIs(c0, pending, noise0);
      var nbBits := c0.Pos();
      var nbBytes := nbBits / 8;
      var word := WordBytes(Shr(c0.container, 64 - nbBits));
      BackwardWriter.Flushing(buf[..ptr], written, ptr, nbBytes);
      ghost var before := buf[..ptr];
      StoreWord(word);
      WordStored(buf[..], before, word, nbBytes);
      TailOfTail(written, 8 * ptr, 8 * nbBytes);
      c0 := Cont(c0.container, Low(c0.bitPos, 3));
      ptr := ptr + nbBytes;
      noise0 := 64 - nbBits % 8;
    }

    /** `HUF_closeCStream`: the end mark, and the size. */
    method Close() returns (size: nat)
      requires Valid() && !second && Pending() <= 7 && ptr + 8 <= buf.Length
      modifies this, buf
      ensures 0 < size <= buf.Length && Marked(buf[..size], old(written))
    {
      hide Cont.Packed, BytesBits, ToBits, Elt, Pow2, Zeros;
      EndMark();
      AddPacked(c0, written[8 * ptr..], noise0, false, 1, 1, 1);
      c0 := c0.Add(false, Elt(1, 1));
      noise0 := NoiseAfter(noise0, 1, 0);
      ghost var w := written + [true];
      assert w[8 * ptr..] == written[8 * ptr..] + [true] && w[..8 * ptr] == written[..8 * ptr];
      written := w;
      FlushBits();
      size := ptr + if c0.Pos() > 0 then 1 else 0;
      PosIs(c0, written[8 * ptr..], noise0);
      assert w[..|w| - 1] == old(written);
      assert size > ptr ==> buf[..size][..ptr] == buf[..ptr] && buf[..size][ptr..] == buf[ptr..ptr + 1];
      BackwardWriter.ClosedMarked(buf[..size], buf[..ptr], w, ptr);
    }
  }

  /** `HUF_endMark` is the code 1 of one bit. */
  lemma EndMark()
    ensures ToBits(1, 1) == [true] && 1 < Pow2(1)
  {
    assert ToBits(1, 1)[1..] == [];
  }

  lemma PosIs(c: Cont, b: Bits, j: nat)
    requires c.Packed(b, j)
    ensures c.Pos() == |b|
  {
  }

  lemma Nothing()
    ensures Cont(0, 0).Packed([], 0)
  {
    LowSmall(0, 8);
    LowSmall(0, 64);
    ShlZero(64);
  }

  lemma CodeBounds(l: seq<nat>, u: nat, s: nat)
    requires Full(l, u) && s < |l| && l[s] >= 1
    ensures l[s] <= u && Value(l, u, s) < Pow2(l[s])
  {
    ValueFits(l, u, s);
  }

  // The loop over the input

  /** The codes written so far are those of `src` from `n` on. */
  ghost predicate Written(w: Bits, l: seq<nat>, u: nat, src: seq<nat>, n: nat) {
    Full(l, u) && HuffmanStream.Coded(l, src) && n <= |src| && w == LitBits(l, u, src, n)
  }

  lemma {:induction false} LitBound(l: seq<nat>, u: nat, src: seq<nat>, n: nat)
    requires Full(l, u) && HuffmanStream.Coded(l, src) && n <= |src|
    ensures |LitBits(l, u, src, n)| <= Times(|src| - n, u)
    decreases |src| - n
  {
    if n < |src| {
      LitBound(l, u, src, n + 1);
      CodeBounds(l, u, src[n]);
    }
  }

  /** `encode_group`: `k` symbols before position `n`, the last one first. */
  method EncodeGroup(bw: HufCStream, first: bool, k: nat, lastFast: bool, ct: seq<nat>, src: seq<nat>, n: nat,
                     ghost l: seq<nat>, ghost u: nat, ghost e: nat)
    requires bw.Valid() && TableFor(ct, l, u, src) && Fits(k, lastFast, u, e) && k <= n <= |src|
    requires Written(bw.written + bw.waiting, l, u, src, n) && bw.second == !first
    requires bw.Load(first) <= (if first then 7 else 0) && (first || bw.noise1 == 0)
    modifies bw
    ensures bw.Valid() && bw.ptr == old(bw.ptr) && bw.second == !first
    ensures Written(bw.written + bw.waiting, l, u, src, n - k) && 0 < bw.Load(first)
    ensures if first then bw.Load(true) < 64 else bw.Pending() == old(bw.Pending()) && bw.Load(false) + bw.noise1 <= 57
    ensures !first ==> bw.Load(false) <= 56
  {
    hide HufCStream.Valid, Full, TableFor, NoiseAfter, Written, Times;
    FitsTimes(k, lastFast, u, e);
    var i := 0;
    while i < k - 1
      invariant 0 <= i <= k - 1 && bw.Valid() && bw.ptr == old(bw.ptr) && bw.second == !first
      invariant Written(bw.written + bw.waiting, l, u, src, n - i)
      invariant bw.Load(first) <= (if first then 7 else 0) + Times(i, u) && (first || bw.noise1 <= e)
      invariant (first || bw.Pending() == old(bw.Pending())) && (i > 0 ==> 0 < bw.Load(first))
    {
      TimesNext(i, k, u);
      NoiseBound(bw.noise1, ct, l, u, src, n - i - 1, e);
      AddNext(bw, first, true, ct, src, n - i, l, u, e);
      i := i + 1;
    }
    NoiseBound(bw.noise1, ct, l, u, src, n - k, e);
    AddNext(bw, first, lastFast, ct, src, n - k + 1, l, u, e);
  }

  lemma FitsTimes(k: nat, lastFast: bool, u: nat, e: nat)
    requires Fits(k, lastFast, u, e)
    ensures Times(k, u) == Times(k - 1, u) + u && Times(0, u) == 0
  {
  }

  lemma TimesNext(i: nat, k: nat, u: nat)
    requires i < k - 1
    ensures Times(i + 1, u) == Times(i, u) + u <= Times(k - 1, u)
  {
    TimesMono(i + 1, k - 1, u);
  }

  lemma NoiseBound(noise: nat, ct: seq<nat>, l: seq<nat>, u: nat, src: seq<nat>, n: nat, e: nat)
    requires TableFor(ct, l, u, src) && n < |src|
    ensures Full(l, u) && src[n] < |l| && 1 <= l[src[n]] <= u
    ensures noise <= e ==> NoiseAfter(noise, l[src[n]], e) <= e
    ensures NoiseAfter(noise, l[src[n]], 0) + l[src[n]] <= Max(noise, l[src[n]])
  {
    CodeBounds(l, u, src[n]);
  }

  /** The code of the symbol before position `n`. */
  method AddNext(bw: HufCStream, first: bool, fast: bool, ct: seq<nat>, src: seq<nat>, n: nat,
                 ghost l: seq<nat>, ghost u: nat, ghost e: nat)
    requires bw.Valid() && TableFor(ct, l, u, src) && u < Pow2(e) && 0 < n <= |src|
    requires Written(bw.written + bw.waiting, l, u, src, n) && bw.second == !first
    requires bw.Load(first) + u + (if fast then e else 0) <= 64
    modifies bw
    ensures bw.Valid() && bw.ptr == old(bw.ptr) && bw.second == !first
    ensures Written(bw.written + bw.waiting, l, u, src, n - 1) && src[n - 1] < |l|
    ensures var nb := l[src[n - 1]];
            && 1 <= nb <= u && bw.Load(first) == old(bw.Load(first)) + nb > 0
            && (first || (bw.Pending() == old(bw.Pending())
                && bw.noise1 == NoiseAfter(old(bw.noise1), nb, if fast then e else 0)))
  {
    hide Full, NoiseAfter, Pow2, Cont.Packed;
    CodeBounds(l, u, src[n - 1]);
    bw.AddSymbol(ct, first, fast, src[n - 1], l, u, e);
  }

  /** Room in the output for what is pending at position `n`. */
  lemma Room(bw: HufCStream, l: seq<nat>, u: nat, src: seq<nat>, n: nat)
    requires bw.Valid() && Written(bw.written + bw.waiting, l, u, src, n) && bw.buf.Length == Times(|src|, u) / 8 + 8
    ensures bw.ptr + 8 <= bw.buf.Length
  {
    LitBound(l, u, src, n);
    TimesMono(|src| - n, |src|, u);
  }

  /** The symbols that do not fill a group, each masked. */
  method EncodeRest(bw: HufCStream, rem: nat, ct: seq<nat>, src: seq<nat>, ghost l: seq<nat>, ghost u: nat, ghost e: nat,
                    ghost k: nat, ghost lastFast: bool)
    requires bw.Valid() && !bw.second && bw.Load(true) == 0 && TableFor(ct, l, u, src) && Fits(k, lastFast, u, e)
    requires 0 < rem < k && rem <= |src| && Written(bw.written + bw.waiting, l, u, src, |src|)
    requires bw.buf.Length == Times(|src|, u) / 8 + 8
    modifies bw, bw.buf
    ensures bw.Valid() && !bw.second && bw.Load(true) <= 7
    ensures Written(bw.written + bw.waiting, l, u, src, |src| - rem)
  {
    hide HufCStream.Valid, Full, TableFor, NoiseAfter, Written, Times;
    FitsTimes(k, lastFast, u, e);
    var i := 0;
    while i < rem
      invariant 0 <= i <= rem && bw.Valid() && !bw.second
      invariant Written(bw.written + bw.waiting, l, u, src, |src| - i)
      invariant 0 <= bw.Load(true) <= Times(i, u) && (i > 0 ==> 0 < bw.Load(true))
    {
      TimesGroup(i, k, u);
      AddNext(bw, true, false, ct, src, |src| - i, l, u, e);
      i := i + 1;
    }
    TimesMonoGroup(rem, k, u);
    FlushGroup(bw, l, u, src, |src| - rem);
  }

  lemma TimesGroup(i: nat, k: nat, u: nat)
    requires i < k
    ensures Times(i + 1, u) == Times(i, u) + u <= Times(k, u)
  {
    TimesMono(i + 1, k, u);
  }

  lemma TimesMonoGroup(i: nat, k: nat, u: nat)
    requires i <= k
    ensures Times(i, u) <= Times(k, u)
  {
    TimesMono(i, k, u);
  }

  method FlushGroup(bw: HufCStream, ghost l: seq<nat>, ghost u: nat, ghost src: seq<nat>, ghost n: nat)
    requires bw.Valid() && !bw.second && 0 < bw.Load(true) < 64
    requires Written(bw.written + bw.waiting, l, u, src, n) && bw.buf.Length == Times(|src|, u) / 8 + 8
    modifies bw, bw.buf
    ensures bw.Valid() && !bw.second && bw.Load(true) <= 7 && Written(bw.written + bw.waiting, l, u, src, n)
  {
    hide Written, Times, Cont.Packed;
    Room(bw, l, u, src, n);
    bw.FlushBits();
  }

  /** One group through the first container. */
  method EncodeFirst(bw: HufCStream, k: nat, lastFast: bool, ct: seq<nat>, src: seq<nat>, n: nat,
                     ghost l: seq<nat>, ghost u: nat, ghost e: nat)
    requires bw.Valid() && !bw.second && bw.Load(true) <= 7 && TableFor(ct, l, u, src) && Fits(k, lastFast, u, e)
    requires k <= n <= |src| && Written(bw.written + bw.waiting, l, u, src, n) && bw.buf.Length == Times(|src|, u) / 8 + 8
    modifies bw, bw.buf
    ensures bw.Valid() && !bw.second && bw.Load(true) <= 7 && Written(bw.written + bw.waiting, l, u, src, n - k)
  {
    hide Written, Times, HufCStream.Valid, TableFor, Fits;
    EncodeGroup(bw, true, k, lastFast, ct, src, n, l, u, e);
    FlushGroup(bw, l, u, src, n - k);
  }

  /** One group through the second container, then merged. */
  method EncodeSecond(bw: HufCStream, k: nat, lastFast: bool, ct: seq<nat>, src: seq<nat>, n: nat,
                      ghost l: seq<nat>, ghost u: nat, ghost e: nat)
    requires bw.Valid() && !bw.second && bw.Load(true) <= 7 && TableFor(ct, l, u, src) && Fits(k, lastFast, u, e)
    requires k <= n <= |src| && Written(bw.written + bw.waiting, l, u, src, n) && bw.buf.Length == Times(|src|, u) / 8 + 8
    modifies bw, bw.buf
    ensures bw.Valid() && !bw.second && bw.Load(true) <= 7 && Written(bw.written + bw.waiting, l, u, src, n - k)
  {
    hide Written, Times, HufCStream.Valid, TableFor, Fits;
    WaitsForNothing(bw);
    bw.ZeroIndex1();
    EncodeGroup(bw, false, k, lastFast, ct, src, n, l, u, e);
    bw.MergeIndex1();
    WaitsForNothing(bw);
    FlushGroup(bw, l, u, src, n - k);
  }

  lemma WaitsForNothing(bw: HufCStream)
    requires bw.Valid() && !bw.second
    ensures bw.waiting == [] && bw.written + bw.waiting == bw.written && bw.Load(true) >= 0
  {
  }

  function Rem(n: nat, k: nat): nat
    requires k >= 1
  {
    n % k
  }

  /** Whole groups after the rest: an odd one out, then pairs. */
  lemma GroupCounts(n: nat, k: nat) returns (m: nat, odd: bool)
    requires k >= 1
    ensures Rem(n, k) < k && Rem(n, k) <= n && n - Rem(n, k) == Times(m, 2 * k) + (if odd then k else 0)
    ensures Rem(n - Rem(n, k), 2 * k) == if odd then k else 0
  {
    var q := n / k;
    m, odd := q / 2, q % 2 == 1;
    assert n == q * k + n % k;
    PairsOf(q, m, if odd then 1 else 0, k);
    RemOf(m, k, if odd then k else 0);
  }

  lemma PairsOf(q: nat, m: nat, r: nat, k: nat)
    requires q == 2 * m + r && r <= 1
    ensures q * k == Times(m, 2 * k) + if r == 1 then k else 0
  {
    TimesIsMul(m, 2 * k);
    MulAssoc(m, 2, k);
    assert (2 * m + r) * k == (2 * m) * k + r * k;
  }

  lemma RemOf(m: nat, k: nat, r: nat)
    requires k >= 1 && r < 2 * k
    ensures Rem(Times(m, 2 * k) + r, 2 * k) == r
  {
    TimesIsMul(m, 2 * k);
    DivModUnique(m * (2 * k) + r, 2 * k, m, r);
  }

  lemma NothingYet(bw: HufCStream, ct: seq<nat>, l: seq<nat>, u: nat, src: seq<nat>)
    requires bw.Valid() && !bw.second && bw.written == [] && TableFor(ct, l, u, src)
    ensures Written(bw.written + bw.waiting, l, u, src, |src|)
  {
    WaitsForNothing(bw);
  }

  /** `HUF_compress1X_usingCTable_internal_body_loop`. */
  method Compress1XLoop(bw: HufCStream, k: nat, lastFast: bool, ct: seq<nat>, src: seq<nat>,
                        ghost l: seq<nat>, ghost u: nat, ghost e: nat)
    requires bw.Valid() && !bw.second && bw.Load(true) == 0 && bw.written == [] && TableFor(ct, l, u, src)
    requires Fits(k, lastFast, u, e) && bw.buf.Length == Times(|src|, u) / 8 + 8
    modifies bw, bw.buf
    ensures bw.Valid() && !bw.second && bw.Load(true) <= 7 && Written(bw.written + bw.waiting, l, u, src, 0)
  {
    hide Written, Times, HufCStream.Valid, TableFor, Fits, HufCStream.Load, Rem;
    NothingYet(bw, ct, l, u, src);
    FitsK(k, lastFast, u, e);
    var n: nat := |src|;
    ghost var m: nat, odd := GroupCounts(n, k);
    var rem := Rem(n, k);
    if rem > 0 {
      EncodeRest(bw, rem, ct, src, l, u, e, k, lastFast);
      n := n - rem;
    }
    n := EncodeOdd(bw, k, lastFast, ct, src, n, Rem(n, 2 * k) != 0, l, u, e);
    EncodePairs(bw, k, lastFast, ct, src, n, m, l, u, e);
  }

  /** "Join to 2K": one group alone when their number is odd. */
  method EncodeOdd(bw: HufCStream, k: nat, lastFast: bool, ct: seq<nat>, src: seq<nat>, from: nat, odd: bool,
                   ghost l: seq<nat>, ghost u: nat, ghost e: nat)
    returns (n: nat)
    requires bw.Valid() && !bw.second && bw.Load(true) <= 7 && TableFor(ct, l, u, src) && Fits(k, lastFast, u, e)
    requires from <= |src| && (odd ==> k <= from) && Written(bw.written + bw.waiting, l, u, src, from)
    requires bw.buf.Length == Times(|src|, u) / 8 + 8
    modifies bw, bw.buf
    ensures bw.Valid() && !bw.second && bw.Load(true) <= 7 && n == (if odd then from - k else from)
    ensures Written(bw.written + bw.waiting, l, u, src, n)
  {
    hide Written, Times, HufCStream.Valid, TableFor, Fits, HufCStream.Load;
    n := from;
    if odd {
      EncodeFirst(bw, k, lastFast, ct, src, n, l, u, e);
      n := n - k;
    }
  }

  lemma FitsK(k: nat, lastFast: bool, u: nat, e: nat)
    requires Fits(k, lastFast, u, e)
    ensures k >= 1
  {
  }

  method EncodePairs(bw: HufCStream, k: nat, lastFast: bool, ct: seq<nat>, src: seq<nat>, from: nat, ghost pairs: nat,
                     ghost l: seq<nat>, ghost u: nat, ghost e: nat)
    requires bw.Valid() && !bw.second && bw.Load(true) <= 7 && TableFor(ct, l, u, src) && Fits(k, lastFast, u, e)
    requires from <= |src| && Written(bw.written + bw.waiting, l, u, src, from) && bw.buf.Length == Times(|src|, u) / 8 + 8
    requires from == Times(pairs, 2 * k)
    modifies bw, bw.buf
    ensures bw.Valid() && !bw.second && bw.Load(true) <= 7 && Written(bw.written + bw.waiting, l, u, src, 0)
  {
    hide Written, Times, HufCStream.Valid, TableFor, Fits, HufCStream.Load;
    var n: nat := from;
    ghost var m: nat := pairs;
    while n > 0
      invariant n <= |src| && n == Times(m, 2 * k)
      invariant bw.Valid() && !bw.second && bw.Load(true) <= 7 && Written(bw.written + bw.waiting, l, u, src, n)
      decreases n
    {
      PairBelow(m, k, n);
      FitsK(k, lastFast, u, e);
      EncodeFirst(bw, k, lastFast, ct, src, n, l, u, e);
      EncodeSecond(bw, k, lastFast, ct, src, n - k, l, u, e);
      n := n - 2 * k;
      m := m - 1;
    }
  }

  lemma PairBelow(m: nat, k: nat, n: nat)
    requires n == Times(m, 2 * k) && n > 0
    ensures m >= 1 && n >= 2 * k && Times(m - 1, 2 * k) == n - 2 * k
  {
  }

  /** `HUF_compress1X_usingCTable`: whatever the table log, the marked stream of
      the input's codes, inside the tight bound. */
  method Compress1X(src: seq<nat>, table: HufTable, ghost l: seq<nat>) returns (bytes: seq<Byte>)
    requires table.Holds(l, table.tableLog) && table.tableLog <= 11 && HuffmanStream.Coded(l, src)
    ensures Full(l, table.tableLog) && Marked(bytes, LitBits(l, table.tableLog, src, 0))
  {
    hide Full, Times, Fits;
    var u := table.tableLog;
    TableLogUsed(l, u);
    UnrollFits(u);
    TimesIsMul(|src|, u);
    var buf := new Byte[|src| * u / 8 + 8](_ => 0);
    var bw := new HufCStream(buf);
    var (k, lastFast) := Unroll(u);
    var ct := table.elts[..];
    Compress1XLoop(bw, k, lastFast, ct, src, l, u, if u <= 7 then 3 else 4);
    Room(bw, l, u, src, 0);
    WaitsForNothing(bw);
    var size := bw.Close();
    bytes := buf[..size];
  }

  lemma TableLogUsed(l: seq<nat>, u: nat)
    requires Full(l, u)
    ensures 1 <= u
  {
  }
}
