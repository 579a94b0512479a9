/** One Huffman stream of literals by the double-symbol table: for any bytes
    and any length, what the single-symbol decoder gives. */
module HuffmanStreamX2 {
  import opened Options
  import opened Nums
  import opened BitSeq
  import opened Words
  import opened Kraft
  import opened HuffmanCodes
  import opened HuffmanWeights
  import opened HuffmanDecoder
  import opened HuffmanDouble
  import opened BackwardReader
  import opened HuffmanStream

  /** The decoding table of a tree. */
  ghost predicate TableX2(dt: seq<HufEntryX2>, l: seq<nat>, u: nat) {
    Full(l, u) && u <= LOG && dt == CellsX2(l, u, LOG)
  }

  lemma EntryX2(dt: seq<HufEntryX2>, l: seq<nat>, u: nat, x: nat)
    requires TableX2(dt, l, u) && x < Pow2(LOG)
    ensures Full(l, u) && u <= LOG && x < |dt| && dt[x] == CellX2(l, u, LOG, x)
    ensures dt[x].first < |l| && 1 <= dt[x].nbBits <= LOG && 1 <= dt[x].length <= 2
    ensures dt[x].first == Symbol(l, u, LOG, x) && 1 <= l[dt[x].first] <= LOG
  {
    CodeBound(l, u, dt[x].first);
  }

  // A window after some of its bits

  /** A window of the stream with zeros before it. */
  lemma WindowPadded(p: Bits, pos: nat, t: nat)
    requires pos <= |p|
    ensures WindowAt(p, pos, t) == ToNat((Zeros(t) + p)[pos..pos + t])
  {
    var q := Zeros(t) + p;
    if pos >= t {
      assert q[pos..pos + t] == p[pos - t..pos];
    } else {
      assert q[pos..pos + t] == Zeros(t - pos) + p[..pos];
      ToNatZeros(t - pos);
      ToNatAppend(Zeros(t - pos), p[..pos]);
    }
  }

  /** `n` bits on, the window begins with the rest of this one. */
  lemma WindowShift(p: Bits, pos: nat, t: nat, n: nat)
    requires n <= pos <= |p| && n <= t
    ensures Shr(WindowAt(p, pos - n, t), n) == Low(WindowAt(p, pos, t), t - n)
  {
    hide WindowAt, ToNat, Zeros;
    var q := Zeros(t) + p;
    WindowPadded(p, pos, t);
    WindowPadded(p, pos - n, t);
    Split(q[pos..pos + t], t - n);
    Split(q[pos - n..pos - n + t], n);
    assert q[pos..pos + t][..t - n] == q[pos - n..pos - n + t][n..];
  }

  /** A second symbol that fits is the one the next window begins with. */
  lemma SecondSymbol(l: seq<nat>, u: nat, p: Bits, pos: nat, r: nat, s: nat)
    requires Full(l, u) && u <= LOG && pos <= |p| && r == Symbol(l, u, LOG, WindowAt(p, pos, LOG)) && l[r] <= LOG
    requires s == Symbol(l, u, LOG, After(WindowAt(p, pos, LOG), l[r], LOG)) && l[r] + l[s] <= LOG && l[r] <= pos
    ensures Symbol(l, u, LOG, WindowAt(p, pos - l[r], LOG)) == s
  {
    hide WindowAt, Full, Value, Shl, Low, Shr, Symbol, Pow2;
    var n, x, w := l[r], WindowAt(p, pos, LOG), WindowAt(p, pos - l[r], LOG);
    WindowShift(p, pos, LOG, n);
    PowPositive(n);
    ShrLowUnique(Low(x, LOG - n), 0, n);
    ShrShr(w, n, LOG - n - l[s]);
    ShrShr(After(x, n, LOG), n, LOG - n - l[s]);
    PrefixFree(l, u, LOG, s, Symbol(l, u, LOG, w), w);
  }

  /** One cell is one single-symbol step, or two. */
  lemma StepX2(l: seq<nat>, u: nat, p: Bits, pos: int, left: nat, x: nat, done: seq<nat>)
    requires Full(l, u) && u <= LOG && pos <= |p| && left >= 2 && x < Pow2(LOG)
    requires pos > 0 ==> x == WindowAt(p, pos, LOG)
    ensures var e := CellX2(l, u, LOG, x);
            && e.nbBits >= 1
            && Then(done, DecodeX1(l, u, p, pos, left))
               == Then(done + [e.first, e.second][..e.length], DecodeX1(l, u, p, pos - e.nbBits, left - e.length))
  {
    hide Full, Symbol, WindowAt, DecodeX1, Then, After, Pow2;
    var e := CellX2(l, u, LOG, x);
    var r := e.first;
    CodeBound(l, u, r);
    StepX1(l, u, p, pos, left, x, r, done);
    if e.length == 1 {
      assert [e.first, e.second][..1] == [r];
    } else {
      var s, y, next := e.second, After(x, l[r], LOG), pos - l[r];
      if next > 0 {
        SecondSymbol(l, u, p, pos, r, s);
      }
      StepX1(l, u, p, next, left - 1, if next > 0 then WindowAt(p, next, LOG) else y, s, done + [r]);
      assert done + [e.first, e.second][..2] == done + [r] + [s];
    }
  }

  // The decoder's loops

  /** `HUF_decodeSymbolX2`: two bytes are always written, one or two count. */
  method StoreCell(out: array<nat>, at: nat, br: BitDStream, dt: seq<HufEntryX2>, ghost l: seq<nat>, ghost u: nat,
                   ghost whole: Option<seq<nat>>)
    returns (next: nat)
    requires br.Valid() && br.Loaded(LOG) && TableX2(dt, l, u) && at + 2 <= out.Length
    requires Decoding(whole, out[..at], l, u, Payload(br.src), br.Unread(), out.Length - at)
    modifies br`bitsConsumed, out
    ensures br.Valid() && br.bitsConsumed <= old(br.bitsConsumed) + LOG && at < next <= at + 2
    ensures Decoding(whole, out[..next], l, u, Payload(br.src), br.Unread(), out.Length - next)
  {
    hide DecodeX1, Payload, Full, TableX2, Then, ReadLE, FastBits, WindowAt, CellX2, Pow2, Symbol;
    ghost var done, pos := out[..at], br.Unread();
    LookBelow(br.container, br.bitsConsumed);
    var x := br.LookBits(LOG);
    EntryX2(dt, l, u, x);
    if pos > 0 {
      LooksWindow(br.src, br.ptr, br.bitsConsumed);
    }
    var e := dt[x];
    StepX2(l, u, Payload(br.src), pos, out.Length - at, x, done);
    out[at], out[at + 1] := e.first, e.second;
    br.bitsConsumed := br.bitsConsumed + e.nbBits;
    next := at + e.length;
    assert out[..next] == done + [e.first, e.second][..e.length];
  }

  /** The code lengths as `code_len` finds them. */
  ghost predicate Lengths(weights: seq<nat>, maxNumBits: nat, l: seq<nat>, u: nat) {
    maxNumBits == u && |l| <= |weights| && weights[..|l|] == Weights(u, l)
  }

  lemma CodeLen(weights: seq<nat>, maxNumBits: nat, l: seq<nat>, u: nat, s: nat)
    requires Lengths(weights, maxNumBits, l, u) && Full(l, u) && s < |l| && l[s] >= 1
    ensures s < |weights| && maxNumBits + 1 - weights[s] == l[s]
  {
    assert weights[s] == weights[..|l|][s];
  }

  /** `huf_decode_last_symbol_x2`: the first symbol of the cell, and its own bits. */
  method StoreLast(out: array<nat>, at: nat, br: BitDStream, dt: seq<HufEntryX2>, weights: seq<nat>, maxNumBits: nat,
                   ghost l: seq<nat>, ghost u: nat, ghost whole: Option<seq<nat>>)
    requires br.Valid() && br.Loaded(LOG) && TableX2(dt, l, u) && Lengths(weights, maxNumBits, l, u) && at + 1 == out.Length
    requires Decoding(whole, out[..at], l, u, Payload(br.src), br.Unread(), 1)
    modifies br`bitsConsumed, out
    ensures br.Valid() && Decoding(whole, out[..out.Length], l, u, Payload(br.src), br.Unread(), 0)
  {
    hide DecodeX1, Payload, Full, TableX2, Then, ReadLE, FastBits, WindowAt, CellX2, Pow2, Symbol, Lengths;
    ghost var done, pos := out[..at], br.Unread();
    LookBelow(br.container, br.bitsConsumed);
    var x := br.LookBits(LOG);
    EntryX2(dt, l, u, x);
    if pos > 0 {
      LooksWindow(br.src, br.ptr, br.bitsConsumed);
    }
    var symbol := dt[x].first;
    CodeLen(weights, maxNumBits, l, u, symbol);
    StepX1(l, u, Payload(br.src), pos, 1, x, symbol, done);
    out[at] := symbol;
    br.bitsConsumed := br.bitsConsumed + (maxNumBits + 1 - weights[symbol]);
    assert out[..out.Length] == done + [symbol];
  }

  /** Five cells, of at most 55 bits. */
  method StoreFive(out: array<nat>, at: nat, br: BitDStream, dt: seq<HufEntryX2>, ghost l: seq<nat>, ghost u: nat,
                   ghost whole: Option<seq<nat>>)
    returns (next: nat)
    requires br.Valid() && br.bitsConsumed <= 7 && TableX2(dt, l, u) && at + 10 <= out.Length
    requires Decoding(whole, out[..at], l, u, Payload(br.src), br.Unread(), out.Length - at)
    modifies br`bitsConsumed, out
    ensures br.Valid() && at < next <= at + 10
    ensures Decoding(whole, out[..next], l, u, Payload(br.src), br.Unread(), out.Length - next)
  {
    hide DecodeX1, Payload, BitDStream.Valid, Full, TableX2, Decoding;
    PayloadBound(br);
    next := at;
    var k := 0;
    while k < 5
      invariant 0 <= k <= 5 && at + k <= next <= at + 2 * k && br.Valid() && Openable(br.src) && br.bitsConsumed <= 7 + k * LOG
      invariant Decoding(whole, out[..next], l, u, Payload(br.src), br.Unread(), out.Length - next)
    {
      next := StoreCell(out, next, br, dt, l, u, whole);
      k := k + 1;
    }
  }

  /** What every reload leaves: 57 bits and more, or all the rest. */
  ghost predicate Reloaded(br: BitDStream, status: Status)
    reads br
  {
    && br.Valid() && Openable(br.src) && (br.ptr == 0 || br.bitsConsumed <= 7)
    && (status == Unfinished ==> br.bitsConsumed <= 7) && (status != Unfinished ==> br.ptr == 0)
  }

  method ReloadX2(br: BitDStream) returns (status: Status)
    requires br.Valid()
    modifies br
    ensures Reloaded(br, status) && br.Unread() == old(br.Unread())
  {
    PayloadBound(br);
    status := br.Reload();
    OverflowIsFirst(br);
  }

  /** Ten symbols at most a reload, then one cell a reload, then without. */
  method StorePairs(out: array<nat>, from: nat, br: BitDStream, dt: seq<HufEntryX2>, ghost l: seq<nat>, ghost u: nat,
                    ghost whole: Option<seq<nat>>)
    returns (op: nat)
    requires br.Valid() && Openable(br.src) && TableX2(dt, l, u) && from + 2 <= out.Length
    requires Decoding(whole, out[..from], l, u, Payload(br.src), br.Unread(), out.Length - from)
    modifies br, out
    ensures br.Valid() && Openable(br.src) && out.Length - 1 <= op <= out.Length && (br.ptr == 0 || br.bitsConsumed <= 7)
    ensures Decoding(whole, out[..op], l, u, Payload(br.src), br.Unread(), out.Length - op)
  {
    hide DecodeX1, Payload, BitDStream.Valid, Full, TableX2, Decoding;
    op := from;
    var status := ReloadX2(br);
    while status == Unfinished && op + 2 <= out.Length
      invariant from <= op <= out.Length && Reloaded(br, status)
      invariant Decoding(whole, out[..op], l, u, Payload(br.src), br.Unread(), out.Length - op)
      decreases out.Length - op
    {
      op := StoreCell(out, op, br, dt, l, u, whole);
      status := ReloadX2(br);
    }
    while op + 2 <= out.Length
      invariant from <= op <= out.Length && br.Valid() && Openable(br.src)
      invariant (br.ptr == 0 || br.bitsConsumed <= 7) && (op + 2 <= out.Length ==> br.ptr == 0)
      invariant Decoding(whole, out[..op], l, u, Payload(br.src), br.Unread(), out.Length - op)
      decreases out.Length - op
    {
      op := StoreCell(out, op, br, dt, l, u, whole);
    }
  }

  /** `huf_decode_stream_x2`. */
  method DecodeStreamX2(out: array<nat>, br: BitDStream, dt: seq<HufEntryX2>, weights: seq<nat>, maxNumBits: nat,
                        ghost l: seq<nat>, ghost u: nat, ghost whole: Option<seq<nat>>)
    requires br.Valid() && Openable(br.src) && TableX2(dt, l, u) && Lengths(weights, maxNumBits, l, u)
    requires Decoding(whole, out[..0], l, u, Payload(br.src), br.Unread(), out.Length)
    modifies br, out
    ensures br.Valid() && Decoding(whole, out[..out.Length], l, u, Payload(br.src), br.Unread(), 0)
  {
    hide DecodeX1, Payload, BitDStream.Valid, Full, TableX2, Decoding, Lengths;
    var op: nat := 0;
    var status := ReloadX2(br);
    while out.Length >= 8 && status == Unfinished && op + 10 <= out.Length
      invariant op <= out.Length && Reloaded(br, status)
      invariant Decoding(whole, out[..op], l, u, Payload(br.src), br.Unread(), out.Length - op)
      decreases out.Length - op
    {
      op := StoreFive(out, op, br, dt, l, u, whole);
      status := ReloadX2(br);
    }
    if out.Length - op >= 2 {
      op := StorePairs(out, op, br, dt, l, u, whole);
    }
    if op < out.Length {
      StoreLast(out, op, br, dt, weights, maxNumBits, l, u, whole);
    }
  }

  /** `huf_decompress_1x2`, for any bytes: it accepts what the single-symbol
      decoder accepts, and gives what that gives. */
  method Decompress1X2(out: array<nat>, src: seq<Byte>, dt: seq<HufEntryX2>, weights: seq<nat>, maxNumBits: nat,
                       ghost l: seq<nat>, ghost u: nat)
    returns (ok: bool)
    requires TableX2(dt, l, u) && Lengths(weights, maxNumBits, l, u)
    modifies out
    ensures Full(l, u) && u <= LOG
    ensures ok <==> Openable(src) && DecodeX1(l, u, Payload(src), |Payload(src)|, out.Length) != None
    ensures ok ==> Some(out[..]) == DecodeX1(l, u, Payload(src), |Payload(src)|, out.Length)
  {
    hide DecodeX1, Payload, BitDStream.Valid, Full, Lengths;
    assert Full(l, u);
    if !Openable(src) {
      return false;
    }
    var br := new BitDStream(src);
    ghost var whole := DecodeX1(l, u, Payload(src), |Payload(src)|, out.Length);
    NothingYet(whole, out[..0]);
    DecodeStreamX2(out, br, dt, weights, maxNumBits, l, u, whole);
    ok := br.IsFinished();
    FinishX1(l, u, Payload(src), br.Unread(), out[..out.Length]);
    OverflowIsFirst(br);
    assert out[..out.Length] == out[..];
  }

  /** The tables of one set of weights, and both decoders on the same bytes:
      the same verdict, and the same literals. */
  method SameDecoders(out1: array<nat>, out2: array<nat>, src: seq<Byte>, table: HuffmanDecoder.HuffmanTable, ghost l: seq<nat>, ghost u: nat)
    returns (ok1: bool, ok2: bool)
    requires table.Knows(l, u) && out1 != out2 && out1.Length == out2.Length
    requires out1 !in {table.weights, table.rankStats, table.sorted} && out2 !in {table.weights, table.rankStats, table.sorted}
    modifies out1, out2, table.sorted, table.decode, table.decodeX2
    ensures ok1 == ok2 && (ok1 ==> out1[..] == out2[..])
  {
    hide DecodeX1, Payload, Full, Right, CellX2;
    table.FillX1(l, u);
    KnownTree(l, u);
    ghost var cells := table.decode[..];
    ok1 := Decompress1X1(out1, src, table.decode[..], l, u);
    table.FillX2(l, u);
    ok2 := Decompress1X2(out2, src, table.decodeX2[..], table.weights[..], table.maxNumBits, l, u);
  }
}
