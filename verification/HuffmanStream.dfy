/** One Huffman stream of literals (RFC 8878, section 4.2.2): what the encoder
    writes, the single-symbol decoder for any bytes, and the round trip. */
module HuffmanStream {
  import opened Options
  import opened Nums
  import opened BitSeq
  import opened Words
  import opened Kraft
  import opened HuffmanCodes
  import opened HuffmanWeights
  import opened HuffmanDecoder
  import opened BackwardReader

  const LOG: nat := HUF_FAST_TABLE_LOG

  /** The codes of `src` from `n` on, the last symbol written first. */
  ghost function LitBits(l: seq<nat>, u: nat, src: seq<nat>, n: nat): Bits
    requires Full(l, u) && n <= |src| && Coded(l, src)
    decreases |src| - n
  {
    if n == |src| then [] else LitBits(l, u, src, n + 1) + ToBits(Value(l, u, src[n]), l[src[n]])
  }

  /** Every symbol has a code. */
  ghost predicate Coded(l: seq<nat>, src: seq<nat>) {
    forall i :: 0 <= i < |src| ==> src[i] < |l| && l[src[i]] >= 1
  }

  /** The `t` bits below position `pos`, zeros below the stream's first. */
  function WindowAt(p: Bits, pos: nat, t: nat): (x: nat)
    requires pos <= |p|
    ensures x < Pow2(t)
  {
    if pos >= t then ToNat(p[pos - t..pos])
    else
      ShortWindow(p[..pos], t);
      Shl(ToNat(p[..pos]), t - pos)
  }

  lemma ShortWindow(b: Bits, t: nat)
    requires |b| <= t
    ensures Shl(ToNat(b), t - |b|) < Pow2(t)
  {
    hide Shl, ToNat;
    ShlAdd(ToNat(b), 1, t - |b|);
    ShlPow2(0, t - |b|);
    ShlMono(ToNat(b) + 1, Pow2(|b|), t - |b|);
    ShlPow2(|b|, t - |b|);
  }

  /** `n` symbols from position `pos` down, if they use up exactly its bits. */
  ghost function DecodeX1(l: seq<nat>, u: nat, p: Bits, pos: int, n: nat): Option<seq<nat>>
    requires Full(l, u) && u <= LOG && pos <= |p|
    decreases n
  {
    if n == 0 then if pos == 0 then Some([]) else None
    else if pos <= 0 then None
    else
      var s := Symbol(l, u, LOG, WindowAt(p, pos, LOG));
      var rest := DecodeX1(l, u, p, pos - l[s], n - 1);
      if rest == None then None else Some([s] + rest.value)
  }

  // Round trip

  /** A window that starts with `nb` given bits. */
  lemma WindowTop(p: Bits, pos: nat, t: nat, nb: nat)
    requires nb <= pos <= |p| && nb <= t
    ensures Shr(WindowAt(p, pos, t), t - nb) == ToNat(p[pos - nb..pos])
  {
    if pos >= t {
      Split(p[pos - t..pos], t - nb);
      assert p[pos - t..pos][t - nb..] == p[pos - nb..pos];
    } else {
      var k := t - pos;
      ShrLowUnique(ToNat(p[..pos]), 0, k);
      ShrShr(Shl(ToNat(p[..pos]), k), k, pos - nb);
      Split(p[..pos], pos - nb);
      assert p[..pos][pos - nb..] == p[pos - nb..pos];
    }
  }

  lemma {:induction false} DecodesBack(l: seq<nat>, u: nat, src: seq<nat>, n: nat, p: Bits)
    requires Full(l, u) && u <= LOG && Coded(l, src) && n <= |src|
    requires |LitBits(l, u, src, n)| <= |p| && p[..|LitBits(l, u, src, n)|] == LitBits(l, u, src, n)
    ensures DecodeX1(l, u, p, |LitBits(l, u, src, n)|, |src| - n) == Some(src[n..])
    decreases |src| - n
  {
    hide Full, Value, Symbol, WindowAt, ToBits;
    if n < |src| {
      var s, rest := src[n], LitBits(l, u, src, n + 1);
      var nb, pos := l[s], |LitBits(l, u, src, n)|;
      var b := ToBits(Value(l, u, s), nb);
      assert p[..pos] == rest + b;
      assert p[..|rest|] == p[..pos][..|rest|];
      assert p[pos - nb..pos] == p[..pos][pos - nb..];
      DecodesBack(l, u, src, n + 1, p);
      FullBound(l, u);
      ReadsCode(l, u, p, pos, s);
      assert src[n..] == [s] + src[n + 1..];
    }
  }

  lemma FullBound(l: seq<nat>, u: nat)
    requires Full(l, u)
    ensures AtMost(l, u)
  {
  }

  lemma ReadsCode(l: seq<nat>, u: nat, p: Bits, pos: nat, s: nat)
    requires Full(l, u) && u <= LOG && s < |l| && 1 <= l[s] <= pos <= |p|
    requires p[pos - l[s]..pos] == ToBits(Value(l, u, s), l[s])
    ensures Symbol(l, u, LOG, WindowAt(p, pos, LOG)) == s
  {
    hide Symbol, ToBits, Low, Value, Pow2;
    var x := WindowAt(p, pos, LOG);
    WindowTop(p, pos, LOG, l[s]);
    ToNatOfBits(Value(l, u, s), l[s]);
    ValueFits(l, u, s);
    LowSmall(Value(l, u, s), l[s]);
    PrefixFree(l, u, LOG, s, Symbol(l, u, LOG, x), x);
  }

  /** A marked stream of codes decodes to the symbols, every bit consumed. */
  lemma LiteralsRoundTrip(l: seq<nat>, u: nat, src: seq<nat>, bytes: seq<Byte>)
    requires Full(l, u) && u <= LOG && Coded(l, src) && Marked(bytes, LitBits(l, u, src, 0))
    ensures Openable(bytes)
    ensures DecodeX1(l, u, Payload(bytes), |Payload(bytes)|, |src|) == Some(src)
  {
    var p := LitBits(l, u, src, 0);
    MarkedOpens(bytes, p);
    hide DecodeX1, LitBits, Full, Marked, Payload;
    assert p[..|p|] == p && src[0..] == src;
    DecodesBack(l, u, src, 0, p);
  }

  // The decoder's loop

  /** A look over the low end of the first container reads zeros there. */
  lemma LookOver(w: Bits, k: nat, n: nat)
    requires |w| == 64 && k < 64 && n <= 56 && k + n > 64
    ensures Shr(Shl64(ToNat(w), k), 64 - n) == Shl(ToNat(w[..64 - k]), k + n - 64)
  {
    hide ToNat, Shr, Shl, Low;
    ShlBits(w, k);
    var z := Zeros(k) + w[..64 - k];
    Split(z, 64 - n);
    assert z[64 - n..] == Zeros(k + n - 64) + w[..64 - k];
    ToNatZeros(k + n - 64);
    ToNatAppend(Zeros(k + n - 64), w[..64 - k]);
  }

  lemma LooksWindow(src: seq<Byte>, ptr: nat, consumed: nat)
    requires Openable(src) && (ptr + 8 <= |src| || ptr == 0) && (ptr == 0 || consumed + LOG <= 64)
    requires 0 < 8 * ptr + 64 - consumed <= |Payload(src)|
    ensures FastBits(ReadLE(src, ptr), consumed, LOG) == WindowAt(Payload(src), 8 * ptr + 64 - consumed, LOG)
  {
    hide Padded, ReadLE, BytesBits, Payload, ToNat;
    if consumed + LOG <= 64 {
      LooksRight(src, ptr, consumed, LOG);
    } else {
      LooksOver(src, consumed);
    }
  }

  /** At the start of the stream a look may reach below its first bit. */
  lemma LooksOver(src: seq<Byte>, consumed: nat)
    requires Openable(src) && consumed <= 63 && consumed + LOG > 64 && 64 - consumed <= |Payload(src)|
    ensures FastBits(ReadLE(src, 0), consumed, LOG) == WindowAt(Payload(src), 64 - consumed, LOG)
  {
    hide Padded, ReadLE, BytesBits, Payload;
    ReadsPadded(src, 0);
    PayloadPadded(src);
    LookOver(Padded(src)[0..64], consumed, LOG);
    var pos := 64 - consumed;
    assert Padded(src)[0..64][..pos] == Padded(src)[..|Payload(src)|][..pos];
  }

  /** The decoding table of a tree. */
  ghost predicate TableOf(dt: seq<HuffmanEntry>, l: seq<nat>, u: nat) {
    Full(l, u) && u <= LOG && |dt| == Pow2(LOG) && forall x :: 0 <= x < |dt| ==> Right(dt[x], l, u, x)
  }

  lemma EntryIs(dt: seq<HuffmanEntry>, l: seq<nat>, u: nat, x: nat)
    requires TableOf(dt, l, u) && x < Pow2(LOG)
    ensures Full(l, u) && u <= LOG && x < |dt|
    ensures dt[x].symbol == Symbol(l, u, LOG, x) < |l| && 1 <= dt[x].numBits == l[dt[x].symbol] <= LOG
  {
    assert Right(dt[x], l, u, x);
    PrefixFree(l, u, LOG, dt[x].symbol, Symbol(l, u, LOG, x), x);
  }

  /** What was decoded so far, before what the rest gives. */
  ghost function Then(a: seq<nat>, rest: Option<seq<nat>>): Option<seq<nat>> {
    if rest == None then None else Some(a + rest.value)
  }

  /** `huf_decode_symbol_x1`. */
  method DecodeSymbol(br: BitDStream, dt: seq<HuffmanEntry>, ghost l: seq<nat>, ghost u: nat, ghost done: seq<nat>, ghost left: nat)
    returns (s: nat)
    requires br.Valid() && br.Loaded(LOG) && TableOf(dt, l, u) && left > 0
    modifies br`bitsConsumed
    ensures br.Valid() && br.bitsConsumed <= old(br.bitsConsumed) + LOG && br.Unread() < old(br.Unread())
    ensures Then(done, DecodeX1(l, u, Payload(br.src), old(br.Unread()), left))
            == Then(done + [s], DecodeX1(l, u, Payload(br.src), br.Unread(), left - 1))
  {
    hide Payload, ReadLE, FastBits, TableOf, WindowAt, DecodeX1, Full, Symbol, Pow2;
    LookBelow(br.container, br.bitsConsumed);
    var x := br.LookBits(LOG);
    EntryIs(dt, l, u, x);
    var pos := br.Unread();
    if pos > 0 {
      LooksWindow(br.src, br.ptr, br.bitsConsumed);
    }
    s := dt[x].symbol;
    br.bitsConsumed := br.bitsConsumed + dt[x].numBits;
    StepX1(l, u, Payload(br.src), pos, left, x, s, done);
  }

  lemma LookBelow(container: nat, consumed: nat)
    ensures FastBits(container, consumed, LOG) < Pow2(LOG)
  {
    LooksAgree(container, consumed, LOG);
  }

  lemma CodedSymbol(l: seq<nat>, u: nat, x: nat)
    requires Full(l, u) && u <= LOG && x < Pow2(LOG)
    ensures Symbol(l, u, LOG, x) < |l| && l[Symbol(l, u, LOG, x)] >= 1
  {
  }

  lemma StepX1(l: seq<nat>, u: nat, p: Bits, pos: int, left: nat, x: nat, s: nat, done: seq<nat>)
    requires Full(l, u) && u <= LOG && pos <= |p| && left > 0 && x < Pow2(LOG) && s == Symbol(l, u, LOG, x)
    requires pos > 0 ==> x == WindowAt(p, pos, LOG)
    ensures l[s] >= 1
    ensures Then(done, DecodeX1(l, u, p, pos, left)) == Then(done + [s], DecodeX1(l, u, p, pos - l[s], left - 1))
  {
    hide Symbol, WindowAt, Full, Pow2;
    CodedSymbol(l, u, x);
    var rest := DecodeX1(l, u, p, pos - l[s], left - 1);
    if pos > 0 && rest.Some? {
      assert done + ([s] + rest.value) == done + [s] + rest.value;
    }
  }

  /** Up to here `out` has what the stream gives; the rest of the stream gives the rest. */
  ghost predicate Decoding(whole: Option<seq<nat>>, done: seq<nat>, l: seq<nat>, u: nat, p: Bits, pos: int, left: nat)
  {
    Full(l, u) && u <= LOG && pos <= |p| && whole == Then(done, DecodeX1(l, u, p, pos, left))
  }

  method StoreSymbol(out: array<nat>, at: nat, br: BitDStream, dt: seq<HuffmanEntry>, ghost l: seq<nat>, ghost u: nat,
                     ghost whole: Option<seq<nat>>)
    requires br.Valid() && br.Loaded(LOG) && TableOf(dt, l, u) && at < out.Length
    requires Decoding(whole, out[..at], l, u, Payload(br.src), br.Unread(), out.Length - at)
    modifies br`bitsConsumed, out
    ensures br.Valid() && br.bitsConsumed <= old(br.bitsConsumed) + LOG && br.Unread() < old(br.Unread())
    ensures Decoding(whole, out[..at + 1], l, u, Payload(br.src), br.Unread(), out.Length - at - 1)
  {
    hide DecodeX1, Payload, BitDStream.Valid, Full, TableOf, Then;
    ghost var done := out[..at];
    PayloadBound(br);
    var s := DecodeSymbol(br, dt, l, u, done, out.Length - at);
    PayloadBound(br);
    out[at] := s;
    assert out[..at + 1] == done + [s];
  }

  lemma PayloadBound(br: BitDStream)
    requires br.Valid()
    ensures Openable(br.src) && br.Unread() <= |Payload(br.src)|
  {
  }

  /** The last symbols: at most three with 57 bits loaded, or from the last container. */
  method StoreRest(out: array<nat>, from: nat, br: BitDStream, dt: seq<HuffmanEntry>, ghost l: seq<nat>, ghost u: nat,
                   ghost whole: Option<seq<nat>>)
    requires br.Valid() && TableOf(dt, l, u) && from <= out.Length
    requires br.ptr == 0 || (br.bitsConsumed <= 7 && out.Length - from <= 3)
    requires Decoding(whole, out[..from], l, u, Payload(br.src), br.Unread(), out.Length - from)
    modifies br`bitsConsumed, out
    ensures br.Valid() && Decoding(whole, out[..out.Length], l, u, Payload(br.src), br.Unread(), 0)
  {
    hide DecodeX1, Payload, BitDStream.Valid, Full, TableOf, Decoding;
    PayloadBound(br);
    var p := from;
    while p < out.Length
      invariant from <= p <= out.Length && br.Valid() && Openable(br.src)
      invariant br.ptr == 0 || br.bitsConsumed <= 7 + (p - from) * LOG
      invariant Decoding(whole, out[..p], l, u, Payload(br.src), br.Unread(), out.Length - p)
    {
      StoreSymbol(out, p, br, dt, l, u, whole);
      p := p + 1;
    }
  }

  /** `huf_decode_stream_x1`: four symbols a reload while the loads are whole. */
  method DecodeStreamX1(out: array<nat>, br: BitDStream, dt: seq<HuffmanEntry>, ghost l: seq<nat>, ghost u: nat,
                        ghost whole: Option<seq<nat>>)
    requires br.Valid() && TableOf(dt, l, u)
    requires Decoding(whole, out[..0], l, u, Payload(br.src), br.Unread(), out.Length)
    modifies br, out
    ensures br.Valid() && Decoding(whole, out[..out.Length], l, u, Payload(br.src), br.Unread(), 0)
  {
    hide DecodeX1, Payload, BitDStream.Valid, Full, TableOf, Decoding;
    var p := 0;
    var status := br.Reload();
    while out.Length > 3 && status == Unfinished && p < out.Length - 3
      invariant 0 <= p <= out.Length && br.Valid() && Openable(br.src)
      invariant status == Unfinished ==> br.bitsConsumed <= 7
      invariant status != Unfinished ==> br.ptr == 0 || br.Unread() < 0
      invariant Decoding(whole, out[..p], l, u, Payload(br.src), br.Unread(), out.Length - p)
      decreases out.Length - p
    {
      StoreSymbol(out, p, br, dt, l, u, whole);
      StoreSymbol(out, p + 1, br, dt, l, u, whole);
      StoreSymbol(out, p + 2, br, dt, l, u, whole);
      StoreSymbol(out, p + 3, br, dt, l, u, whole);
      p := p + 4;
      status := br.Reload();
    }
    OverflowIsFirst(br);
    StoreRest(out, p, br, dt, l, u, whole);
  }

  lemma OverflowIsFirst(br: BitDStream)
    requires br.Valid()
    ensures br.Unread() <= 0 ==> br.ptr == 0
  {
  }

  /** `huf_decompress_1x1`, for any bytes: it accepts exactly the streams whose
      bits the symbols use up, and gives those symbols. */
  method Decompress1X1(out: array<nat>, src: seq<Byte>, dt: seq<HuffmanEntry>, ghost l: seq<nat>, ghost u: nat) returns (ok: bool)
    requires TableOf(dt, l, u)
    modifies out
    ensures Full(l, u) && u <= LOG
    ensures ok <==> Openable(src) && DecodeX1(l, u, Payload(src), |Payload(src)|, out.Length) != None
    ensures ok ==> Some(out[..]) == DecodeX1(l, u, Payload(src), |Payload(src)|, out.Length)
  {
    hide DecodeX1, Payload, BitDStream.Valid, Full;
    assert Full(l, u);
    if !Openable(src) {
      return false;
    }
    var br := new BitDStream(src);
    ghost var whole := DecodeX1(l, u, Payload(src), |Payload(src)|, out.Length);
    NothingYet(whole, out[..0]);
    DecodeStreamX1(out, br, dt, l, u, whole);
    ok := br.IsFinished();
    FinishX1(l, u, Payload(src), br.Unread(), out[..out.Length]);
    OverflowIsFirst(br);
    assert out[..out.Length] == out[..];
  }

  lemma NothingYet(whole: Option<seq<nat>>, done: seq<nat>)
    requires done == []
    ensures whole == Then(done, whole)
  {
    if whole.Some? {
      assert [] + whole.value == whole.value;
    }
  }

  lemma FinishX1(l: seq<nat>, u: nat, p: Bits, pos: int, done: seq<nat>)
    requires Full(l, u) && u <= LOG && pos <= |p|
    ensures Then(done, DecodeX1(l, u, p, pos, 0)) == if pos == 0 then Some(done) else None
  {
    assert done + [] == done;
  }
}
