/** The weights of a Huffman table description (RFC 8878, section 4.2.1.2) as
    an FSE stream with two interleaved states. */
module WeightStream {
  import opened Options
  import opened Nums
  import opened BitSeq
  import opened Words
  import opened FseDist
  import opened FseSpread
  import opened FseEncoder
  import FseDecoder
  import opened BackwardWriter
  import opened BackwardReader
  import opened SeqSection
  import opened SeqDecoder

  const OMAX: nat := 255

  // Decoding

  datatype DTable = DTable(cells: seq<Cell>, log: nat) {
    ghost predicate Valid() { Good(cells, log, 9, 0) }
  }

  /** The state after `st`, its bits just below position `u`. */
  ghost function NextState(t: DTable, p: Bits, u: int, st: nat): (next: nat)
    requires t.Valid() && st < |t.cells|
    ensures next < |t.cells|
  {
    t.cells[st].nextState + Field(p, u, t.cells[st].numBits)
  }

  /** The weights from number `op` on, in state `a`, then `b`: when `a` needs
      more bits than there are, its weight and the one of `b` are the last. */
  ghost function Decode(t: DTable, p: Bits, u: int, a: nat, b: nat, op: nat): Option<seq<nat>>
    requires t.Valid() && a < |t.cells| && b < |t.cells|
    decreases OMAX - op
  {
    if op > OMAX - 2 then None
    else if u < t.cells[a].numBits then Some([t.cells[a].baseValue, t.cells[b].baseValue])
    else
      var rest := Decode(t, p, u - t.cells[a].numBits, b, NextState(t, p, u, a), op + 1);
      if rest == None then None else Some([t.cells[a].baseValue] + rest.value)
  }

  ghost function DecodeWeights(t: DTable, src: seq<Byte>): Option<seq<nat>>
    requires t.Valid()
  {
    if !Openable(src) || |Payload(src)| < 2 * t.log then None
    else
      var p := Payload(src);
      Decode(t, p, |p| - 2 * t.log, Field(p, |p|, t.log), Field(p, |p| - t.log, t.log), 0)
  }

  /** What is out, before what the rest gives. */
  ghost function Then(out: seq<nat>, rest: Option<seq<nat>>): Option<seq<nat>> {
    if rest == None then None else Some(out + rest.value)
  }

  lemma DecodeStep(t: DTable, p: Bits, u: nat, a: nat, b: nat, op: nat, out: seq<nat>)
    requires t.Valid() && a < |t.cells| && b < |t.cells|
    ensures op > OMAX - 2 ==> Then(out, Decode(t, p, u, a, b, op)) == None
    ensures op <= OMAX - 2 ==>
            var v, w := t.cells[a].baseValue, t.cells[b].baseValue;
            && (u < t.cells[a].numBits ==> Then(out, Decode(t, p, u, a, b, op)) == Some(out + [v, w]))
            && (u >= t.cells[a].numBits ==>
              Then(out, Decode(t, p, u, a, b, op))
              == Then(out + [v], Decode(t, p, u - t.cells[a].numBits, b, NextState(t, p, u, a), op + 1)))
  {
    hide Field;
    if op <= OMAX - 2 && u >= t.cells[a].numBits {
      var rest := Decode(t, p, u - t.cells[a].numBits, b, NextState(t, p, u, a), op + 1);
      if rest.Some? {
        assert out + ([t.cells[a].baseValue] + rest.value) == out + [t.cells[a].baseValue] + rest.value;
      }
    }
  }

  /** `FSE_decodeSymbol`. */
  method DecodeSymbol(br: BitDStream, t: DTable, st: nat) returns (symbol: nat, next: nat)
    requires t.Valid() && st < |t.cells| && br.Valid() && br.Loaded(t.cells[st].numBits)
    modifies br
    ensures br.Valid() && br.Unread() == old(br.Unread()) - t.cells[st].numBits
    ensures br.bitsConsumed == old(br.bitsConsumed) + t.cells[st].numBits && br.ptr == old(br.ptr)
    ensures symbol == t.cells[st].baseValue && next < |t.cells|
    ensures br.Unread() >= 0 ==> next == NextState(t, Payload(br.src), old(br.Unread()), st)
  {
    hide Payload, Pow2;
    var read := br.ReadBits(t.cells[st].numBits);
    symbol, next := t.cells[st].baseValue, t.cells[st].nextState + read;
  }

  /** A weight of the fast loop, which the window always has the bits for. */
  method DecodeOne(br: BitDStream, t: DTable, out: array<nat>, op: nat, a: nat, b: nat) returns (next: nat)
    requires t.Valid() && a < |t.cells| && b < |t.cells| && br.Valid() && br.bitsConsumed <= 46 && br.Unread() >= 9
    requires op < out.Length - 1 == OMAX - 1
    modifies br, out
    ensures br.Valid() && next < |t.cells| && old(br.Unread()) - 9 <= br.Unread()
    ensures br.bitsConsumed <= old(br.bitsConsumed) + 9
    ensures Then(out[..op + 1], Decode(t, Payload(br.src), br.Unread(), b, next, op + 1))
            == Then(old(out[..op]), Decode(t, Payload(br.src), old(br.Unread()), a, b, op))
  {
    hide Payload, Decode, Then, NextState;
    ghost var u := br.Unread();
    DecodeStep(t, Payload(br.src), u, a, b, op, out[..op]);
    var symbol;
    symbol, next := DecodeSymbol(br, t, a);
    out[op] := symbol;
    assert out[..op + 1] == old(out[..op]) + [symbol];
  }

  /** A weight of the slow loop: the last but one if the bits run out. */
  method DecodeOrEnd(br: BitDStream, t: DTable, out: array<nat>, op: nat, a: nat, b: nat) returns (ended: bool, ok: bool, next: nat)
    requires t.Valid() && a < |t.cells| && b < |t.cells| && Fresh(br) && br.Unread() >= 0 && op <= out.Length == OMAX
    modifies br, out
    ensures !ended ==> Fresh(br) && br.Unread() >= 0 && next < |t.cells| && op < OMAX - 1
    ensures !ended ==>
      Then(out[..op + 1], Decode(t, Payload(br.src), br.Unread(), b, next, op + 1))
      == Then(old(out[..op]), Decode(t, Payload(br.src), old(br.Unread()), a, b, op))
    ensures ended && ok ==> op + 2 <= OMAX
    ensures ended ==> Then(old(out[..op]), Decode(t, Payload(br.src), old(br.Unread()), a, b, op)) == if ok then Some(out[..op + 2]) else None
  {
    hide Payload, Then, NextState, Decode;
    ended, ok, next := true, false, 0;
    ghost var u := br.Unread();
    DecodeStep(t, Payload(br.src), u, a, b, op, out[..op]);
    if op > OMAX - 2 {
      return;
    }
    var symbol;
    symbol, next := DecodeSymbol(br, t, a);
    out[op] := symbol;
    var status := br.Reload();
    if status == Overflow {
      var last, _ := DecodeSymbol(br, t, b);
      out[op + 1] := last;
      assert out[..op + 2] == old(out[..op]) + [symbol, last];
      ok := true;
    } else {
      assert out[..op + 1] == old(out[..op]) + [symbol];
      ended := false;
    }
  }

  /** `fse_decompress_weights`, for any bytes. */
  method FseDecompressWeights(t: DTable, src: seq<Byte>, out: array<nat>) returns (ok: bool, n: nat)
    requires t.Valid() && out.Length == OMAX
    modifies out
    ensures n <= OMAX && DecodeWeights(t, src) == if ok then Some(out[..n]) else None
  {
    hide Payload, Then, NextState, Field, Decode, BitDStream.Valid;
    ok, n := false, 0;
    if !Openable(src) {
      return;
    }
    var br := new BitDStream(src);
    var state1: nat := ReadReload(br, t.log);
    var state2: nat := ReadReload(br, t.log);
    var status := br.Reload();
    if status == Overflow {
      return;
    }
    ghost var p := Payload(src);
    ghost var whole := Decode(t, p, br.Unread(), state1, state2, 0);
    assert DecodeWeights(t, src) == whole;
    var op: nat := 0;
    BeginThen(whole, out[..0]);
    status := br.Reload();
    while status == Unfinished && op < OMAX - 3
      invariant op <= OMAX - 3 && op % 4 == 0 && state1 < |t.cells| && state2 < |t.cells| && Fresh(br) && br.Unread() >= 0 && br.src == src
      invariant status == Unfinished ==> br.Unread() >= 57 && br.bitsConsumed <= 7
      invariant whole == Then(out[..op], Decode(t, p, br.Unread(), state1, state2, op))
      decreases OMAX - op
    {
      state1, state2 := DecodeFour(br, t, out, op, state1, state2);
      op := op + 4;
      status := br.Reload();
    }
    ok, n := DecodeLast(br, t, out, op, state1, state2);
  }

  method DecodeFour(br: BitDStream, t: DTable, out: array<nat>, op: nat, a: nat, b: nat) returns (state1: nat, state2: nat)
    requires t.Valid() && a < |t.cells| && b < |t.cells| && br.Valid() && br.bitsConsumed <= 7 && br.Unread() >= 57
    requires op < out.Length - 4 == OMAX - 4
    modifies br, out
    ensures br.Valid() && state1 < |t.cells| && state2 < |t.cells| && br.Unread() >= 0
    ensures Then(out[..op + 4], Decode(t, Payload(br.src), br.Unread(), state1, state2, op + 4))
            == Then(old(out[..op]), Decode(t, Payload(br.src), old(br.Unread()), a, b, op))
  {
    hide Payload, Then, NextState, Field, Decode, BitDStream.Valid;
    state1, state2 := a, b;
    state1 := DecodeOne(br, t, out, op, state1, state2);
    state2 := DecodeOne(br, t, out, op + 1, state2, state1);
    state1 := DecodeOne(br, t, out, op + 2, state1, state2);
    state2 := DecodeOne(br, t, out, op + 3, state2, state1);
  }

  /** One weight at a time, until the bits run out. */
  method DecodeLast(br: BitDStream, t: DTable, out: array<nat>, op0: nat, a: nat, b: nat) returns (ok: bool, n: nat)
    requires t.Valid() && a < |t.cells| && b < |t.cells| && Fresh(br) && br.Unread() >= 0 && op0 <= out.Length == OMAX
    modifies br, out
    ensures n <= OMAX
    ensures Then(old(out[..op0]), Decode(t, Payload(br.src), old(br.Unread()), a, b, op0)) == if ok then Some(out[..n]) else None
  {
    hide Payload, Then, NextState, Field, Decode;
    var op: nat, state1: nat, state2: nat, ended := op0, a, b, false;
    ghost var whole := Then(out[..op], Decode(t, Payload(br.src), br.Unread(), a, b, op));
    while true
      invariant op <= OMAX && state1 < |t.cells| && state2 < |t.cells| && Fresh(br) && br.Unread() >= 0
      invariant whole == Then(out[..op], Decode(t, Payload(br.src), br.Unread(), state1, state2, op))
      decreases OMAX - op
    {
      ended, ok, state1 := DecodeOrEnd(br, t, out, op, state1, state2);
      if ended {
        return ok, if ok then op + 2 else 0;
      }
      op := op + 1;
      ended, ok, state2 := DecodeOrEnd(br, t, out, op, state2, state1);
      if ended {
        return ok, if ok then op + 2 else 0;
      }
      op := op + 1;
    }
  }

  lemma BeginThen(whole: Option<seq<nat>>, out: seq<nat>)
    requires out == []
    ensures whole == Then(out, whole)
  {
    if whole.Some? {
      assert out + whole.value == whole.value;
    }
  }

  // Encoding

  /** Every weight has a state in the table of `d`. */
  ghost predicate Encodable(d: Dist, w: seq<nat>) {
    d.Valid() && d.log <= 6 && |d.norm| <= MAX_SEQ + 1 && 3 <= |w| <= OMAX && forall i :: 0 <= i < |w| ==> Built(d).Codes(w[i])
  }

  /** The state that has weights `n`, `n + 2`, ... in it. */
  ghost function StateAt(d: Dist, w: seq<nat>, n: nat): (st: nat)
    requires Encodable(d, w) && n < |w|
    ensures Built(d).State(st)
    decreases |w| - n
  {
    if n + 2 < |w| then Built(d).Next(StateAt(d, w, n + 2), w[n]) else Built(d).Init(w[n])
  }

  /** The bits of weight `n`: what its state gives up. */
  ghost function BitsAt(d: Dist, w: seq<nat>, n: nat): (b: Bits)
    requires Encodable(d, w) && n + 2 < |w|
    ensures |b| == Built(d).Bits(StateAt(d, w, n + 2), w[n]) <= d.log
  {
    BitsBound(Built(d), StateAt(d, w, n + 2), w[n]);
    ToBits(StateAt(d, w, n + 2), Built(d).Bits(StateAt(d, w, n + 2), w[n]))
  }

  /** The bits once weights `n` and up are written, the last ones first. */
  ghost function BitsFrom(d: Dist, w: seq<nat>, n: nat): (b: Bits)
    requires Encodable(d, w) && n < |w|
    ensures |b| <= d.log * (|w| - n)
    decreases |w| - n
  {
    if n + 2 < |w| then
      var more := BitsFrom(d, w, n + 1);
      Grows(d.log, |w| - n - 1);
      more + BitsAt(d, w, n)
    else []
  }

  lemma Grows(a: nat, b: nat)
    ensures a * b + a == a * (b + 1)
  {
  }

  ghost function Stream(d: Dist, w: seq<nat>): Bits
    requires Encodable(d, w)
  {
    BitsFrom(d, w, 0) + ToBits(StateAt(d, w, 1), d.log) + ToBits(StateAt(d, w, 0), d.log)
  }

  /** `FseCState::encode` of weight `n`. */
  method EncodeSymbol(t: CTable, ghost d: Dist, bw: BitCStream, w: seq<nat>, n: nat, st: nat) returns (next: nat)
    requires t.Implements(Built(d)) && Encodable(d, w) && n + 2 < |w| && bw.Valid() && bw.bitPos <= 57
    requires st == StateAt(d, w, n + 2) && bw.written == BitsFrom(d, w, n + 1)
    modifies bw
    ensures bw.Valid() && bw.bitPos <= old(bw.bitPos) + 6 && next == StateAt(d, w, n) && bw.written == BitsFrom(d, w, n)
  {
    hide CTable.Implements, BitCStream.Valid, Coder.Bits, Coder.Next, Coder.Init, Coder.State, ToBits, Dist.Valid;
    ghost var c := Built(d);
    CodeBound(d, w[n]);
    BitsBound(c, st, w[n]);
    var nb := t.NbBitsOut(st, w[n], c);
    next := t.NextState(st, w[n], c);
    bw.AddBits(st, nb);
  }

  lemma CodeBound(d: Dist, s: nat)
    requires d.Valid() && |d.norm| <= MAX_SEQ + 1 && Built(d).Codes(s)
    ensures s <= MAX_SEQ
  {
  }

  /** `compress_using_ctable`. */
  method CompressUsingCTable(t: CTable, ghost d: Dist, w: seq<nat>) returns (bytes: seq<Byte>)
    requires t.Implements(Built(d)) && (|w| > 2 ==> Encodable(d, w))
    ensures |w| <= 2 ==> bytes == []
    ensures |w| > 2 ==> Marked(bytes, Stream(d, w))
  {
    hide CTable.Implements, Encodable, BitsFrom, StateAt, BitCStream.Valid, Marked, Ready, Dist.Valid, Stream;
    if |w| <= 2 {
      return [];
    }
    var buf := new Byte[|w| + |w| / 128 + 4 + 8](_ => 0);
    var bw := new BitCStream(buf);
    var state1, state2, ip := EncodeFirst(t, d, bw, w);
    state1, state2 := EncodeLoop(t, d, bw, w, ip, state1, state2);
    EncodeEnd(t, d, bw, w, state1, state2);
    StreamFits(d, w);
    var size := bw.Close();
    bytes := buf[..size];
  }

  /** Four weights per flush. */
  method EncodeLoop(t: CTable, ghost d: Dist, bw: BitCStream, w: seq<nat>, n: nat, st1: nat, st2: nat)
    returns (state1: nat, state2: nat)
    requires t.Implements(Built(d)) && n + 2 <= |w| && n % 4 == 0 && Ready(d, bw, w, n, st1, st2)
    modifies bw, bw.buf
    ensures Ready(d, bw, w, 0, state1, state2)
  {
    hide CTable.Implements, Encodable, BitsFrom, StateAt, BitCStream.Valid, Ready, Dist.Valid;
    state1, state2 := st1, st2;
    var ip: nat := n;
    while ip > 0
      invariant ip + 2 <= |w| && ip % 4 == 0 && Ready(d, bw, w, ip, state1, state2)
    {
      state1, state2, ip := EncodeFour(t, d, bw, w, ip, state1, state2);
    }
  }

  method EncodeFour(t: CTable, ghost d: Dist, bw: BitCStream, w: seq<nat>, n: nat, st1: nat, st2: nat)
    returns (state1: nat, state2: nat, ip: nat)
    requires t.Implements(Built(d)) && 4 <= n && n + 2 <= |w| && Ready(d, bw, w, n, st1, st2)
    modifies bw, bw.buf
    ensures ip == n - 4 && Ready(d, bw, w, ip, state1, state2)
  {
    hide CTable.Implements, Encodable, BitsFrom, StateAt, BitCStream.Valid, Dist.Valid;
    state1, state2, ip := EncodeTwo(t, d, bw, w, n, st1, st2);
    state1, state2, ip := EncodeTwo(t, d, bw, w, ip, state1, state2);
    FlushPending(d, bw, w, ip, state1, state2);
  }

  /** Up to the point where a multiple of four weights is left. */
  /** What is left after the ends divides by four. */
  lemma Quarters(n: nat)
    requires n >= 3
    ensures var ip := n - 2 - n % 2;
            ip >= 0 && if (n - 2) / 2 % 2 != 0 then ip >= 2 && (ip - 2) % 4 == 0 else ip % 4 == 0
  {
  }

  method EncodeFirst(t: CTable, ghost d: Dist, bw: BitCStream, w: seq<nat>) returns (state1: nat, state2: nat, ip: nat)
    requires t.Implements(Built(d)) && Encodable(d, w) && bw.Valid() && bw.bitPos == 0 && bw.written == []
    modifies bw, bw.buf
    ensures ip + 2 <= |w| && ip % 4 == 0 && Ready(d, bw, w, ip, state1, state2)
  {
    hide CTable.Implements, BitsFrom, StateAt, BitCStream.Valid, Encodable, Coder.Codes, Coder.Init, Coder.State, Dist.Valid, Dist.Size, Pow2;
    CodesBound(d, w);
    LastWeights(d, w);
    Quarters(|w|);
    ip := |w| - 2;
    if |w| % 2 != 0 {
      state1, state2 := t.InitState(w[ip + 1], Built(d)), t.InitState(w[ip], Built(d));
      ip := ip - 1;
      state1 := EncodeSymbol(t, d, bw, w, ip, state1);
      FlushPending(d, bw, w, ip, state1, state2);
    } else {
      state2, state1 := t.InitState(w[ip + 1], Built(d)), t.InitState(w[ip], Built(d));
    }
    if (|w| - 2) / 2 % 2 != 0 {
      state1, state2, ip := EncodeTwo(t, d, bw, w, ip, state1, state2);
      FlushPending(d, bw, w, ip, state1, state2);
    }
  }

  method FlushPending(ghost d: Dist, bw: BitCStream, ghost w: seq<nat>, ghost ip: nat, ghost state1: nat, ghost state2: nat)
    requires bw.Valid() && Encodable(d, w) && ip + 2 <= |w|
    requires state1 == StateAt(d, w, ip) && state2 == StateAt(d, w, ip + 1) && bw.written == BitsFrom(d, w, ip)
    modifies bw, bw.buf
    ensures Ready(d, bw, w, ip, state1, state2)
  {
    hide Encodable, BitsFrom, StateAt;
    bw.FlushBits();
  }

  method EncodeEnd(t: CTable, ghost d: Dist, bw: BitCStream, ghost w: seq<nat>, state1: nat, state2: nat)
    requires t.Implements(Built(d)) && Encodable(d, w) && Ready(d, bw, w, 0, state1, state2)
    modifies bw, bw.buf
    ensures bw.Valid() && bw.bitPos <= 7 && bw.written == Stream(d, w)
  {
    hide CTable.Implements, BitsFrom, StateAt, BitCStream.Valid;
    FlushState(t, Built(d), bw, state2);
    FlushState(t, Built(d), bw, state1);
  }

  /** Six bits a weight at most: the region suffices. */
  lemma StreamFits(d: Dist, w: seq<nat>)
    requires Encodable(d, w)
    ensures (|Stream(d, w)| + 1) / 8 < |w| + |w| / 128 + 4
  {
    hide BitsFrom;
    SixTimes(d.log, |w|);
  }

  lemma SixTimes(a: nat, n: nat)
    requires a <= 6
    ensures a * n <= 6 * n
  {
  }

  /** Two weights of the two states, the odd one first. */
  method EncodeTwo(t: CTable, ghost d: Dist, bw: BitCStream, w: seq<nat>, n: nat, st1: nat, st2: nat)
    returns (state1: nat, state2: nat, ip: nat)
    requires 2 <= n && n + 2 <= |w| && t.Implements(Built(d)) && Encodable(d, w) && bw.Valid() && bw.bitPos <= 51
    requires st1 == StateAt(d, w, n) && st2 == StateAt(d, w, n + 1) && bw.written == BitsFrom(d, w, n)
    modifies bw
    ensures bw.Valid() && bw.bitPos <= old(bw.bitPos) + 12 && ip == n - 2
    ensures state1 == StateAt(d, w, ip) && state2 == StateAt(d, w, ip + 1) && bw.written == BitsFrom(d, w, ip)
  {
    hide CTable.Implements, BitsFrom, StateAt, BitCStream.Valid, Encodable;
    state2 := EncodeSymbol(t, d, bw, w, n - 1, st2);
    state1 := EncodeSymbol(t, d, bw, w, n - 2, st1);
    ip := n - 2;
  }

  ghost predicate Ready(d: Dist, bw: BitCStream, w: seq<nat>, ip: nat, state1: nat, state2: nat)
    reads bw, bw.buf
  {
    && bw.Valid() && bw.bitPos <= 7 && Encodable(d, w) && ip + 2 <= |w|
    && state1 == StateAt(d, w, ip) && state2 == StateAt(d, w, ip + 1) && bw.written == BitsFrom(d, w, ip)
  }

  lemma CodesBound(d: Dist, w: seq<nat>)
    requires Encodable(d, w)
    ensures d.Valid() && |w| >= 3 && forall i :: 0 <= i < |w| ==> Built(d).Codes(w[i]) && w[i] <= MAX_SEQ
  {
  }

  lemma LastWeights(d: Dist, w: seq<nat>)
    requires Encodable(d, w)
    ensures BitsFrom(d, w, |w| - 2) == []
    ensures StateAt(d, w, |w| - 2) == Built(d).Init(w[|w| - 2]) && StateAt(d, w, |w| - 1) == Built(d).Init(w[|w| - 1])
  {
  }

  // The round trip

  /** The decoding table of `d`; its cells carry the weights. */
  ghost function TableOf(d: Dist): (t: DTable)
    requires d.Valid()
    ensures t.Valid() && t.log == d.log && |t.cells| == d.Size()
  {
    TableValid(d);
    DTable(FseDecoder.BuiltCells(d, FseDecoder.NoCodes), d.log)
  }

  lemma TableValid(d: Dist)
    requires d.Valid()
    ensures Good(FseDecoder.BuiltCells(d, FseDecoder.NoCodes), d.log, 9, 0)
  {
    forall u: nat | u < d.Size()
      ensures FseDecoder.CellAt(d, FseDecoder.NoCodes, u).numBits <= d.log && FseDecoder.CellAt(d, FseDecoder.NoCodes, u).extraBits == 0
    {
    }
  }

  lemma FieldOf(p: Bits, u: nat, x: Bits, v: nat, n: nat)
    requires u <= |p| && p[..u] == x + ToBits(v, n)
    ensures Field(p, u, n) == Low(v, n) && u - n == |x| && p[..|x|] == x
  {
    ToNatOfBits(v, n);
    assert p[u - n..u] == p[..u][u - n..];
    assert p[..|x|] == p[..u][..|x|];
  }

  /** Where a state starts, all its bits are still to come. */
  lemma InitCell(d: Dist, s: nat)
    requires d.Valid() && Built(d).Codes(s)
    ensures var st := Low(Built(d).Init(s), d.log);
            && st < |TableOf(d).cells| && TableOf(d).cells[st].baseValue == s
            && (TableOf(d).cells[st].numBits == 0 <==> d.Prob(s) == d.Size())
  {
    hide Low, Occ, Select, Spread, HighBit, Pow2, Dist.Start;
    ProbFits(d, s);
    InitDecodes(Built(d), FseDecoder.NoCodes, s);
    StateModulo(Built(d), Built(d).Init(s));
    InitRank(d, s);
    HighBitIsLog(d.Prob(s), d.log);
  }

  /** The first cell of a symbol numbers it by its count. */
  lemma InitRank(d: Dist, s: nat)
    requires d.Valid() && Built(d).Codes(s)
    ensures var u := Built(d).Init(s) - d.Size(); 0 <= u < d.Size() && FseDecoder.Rank(d, u) == d.Prob(s)
  {
    hide Low, Select, Spread, HighBit, Pow2, Dist.Start;
    ProbFits(d, s);
    InitDecodes(Built(d), FseDecoder.NoCodes, s);
  }

  lemma HighBitIsLog(x: nat, log: nat)
    requires 1 <= x <= Pow2(log)
    ensures HighBit(x) == log <==> x == Pow2(log)
  {
    if x == Pow2(log) {
      HighBitUnique(x, log);
    }
  }

  /** The step of weight `n`: its cell, and the state of weight `n + 2` again. */
  lemma StepCell(d: Dist, w: seq<nat>, n: nat)
    requires Encodable(d, w) && n + 2 < |w|
    ensures var t, v, st := TableOf(d), StateAt(d, w, n + 2), Low(StateAt(d, w, n), d.log);
            && st < |t.cells| && t.cells[st].baseValue == w[n] && t.cells[st].numBits == Built(d).Bits(v, w[n])
            && t.cells[st].nextState + Low(v, t.cells[st].numBits) == Low(v, d.log)
  {
    EncodeThenDecode(Built(d), FseDecoder.NoCodes, StateAt(d, w, n + 2), w[n]);
  }

  /** A state that needs more bits than there are ends the stream. */
  lemma RunsDry(t: DTable, p: Bits, u: nat, a: nat, b: nat, op: nat)
    requires t.Valid() && a < |t.cells| && b < |t.cells| && op <= OMAX - 2 && u < t.cells[a].numBits
    ensures Decode(t, p, u, a, b, op) == Some([t.cells[a].baseValue, t.cells[b].baseValue])
  {
  }

  /** One more weight before the rest. */
  lemma OneMore(t: DTable, p: Bits, u: nat, a: nat, b: nat, op: nat, v: nat, x: Bits, c: nat)
    requires t.Valid() && a < |t.cells| && b < |t.cells| && c < |t.cells| && op <= OMAX - 2
    requires u <= |p| && p[..u] == x + ToBits(v, t.cells[a].numBits)
    requires t.cells[a].nextState + Low(v, t.cells[a].numBits) == c
    ensures |x| <= |p| && p[..|x|] == x
    ensures var rest := Decode(t, p, |x|, b, c, op + 1);
            rest.Some? ==> Decode(t, p, u, a, b, op) == Some([t.cells[a].baseValue] + rest.value)
  {
    hide Field, Low, ToBits;
    FieldOf(p, u, x, v, t.cells[a].numBits);
  }

  /** The decoder's states at weight `n`. */
  ghost function DecState(d: Dist, w: seq<nat>, n: nat): (st: nat)
    requires Encodable(d, w) && n < |w|
    ensures st < |TableOf(d).cells|
  {
    Low(StateAt(d, w, n), d.log)
  }

  lemma DecodesEnd(d: Dist, w: seq<nat>, p: Bits)
    requires Encodable(d, w) && d.Prob(w[|w| - 2]) < d.Size()
    ensures Decode(TableOf(d), p, 0, DecState(d, w, |w| - 2), DecState(d, w, |w| - 1), |w| - 2) == Some(w[|w| - 2..])
  {
    hide Low, Dist.Valid, TableOf, Decode;
    var n := |w| - 2;
    LastWeights(d, w);
    InitCell(d, w[n]);
    InitCell(d, w[n + 1]);
    RunsDry(TableOf(d), p, 0, DecState(d, w, n), DecState(d, w, n + 1), n);
    assert w[n..] == [w[n], w[n + 1]];
  }

  lemma DecodesOne(d: Dist, w: seq<nat>, p: Bits, n: nat)
    requires Encodable(d, w) && n + 2 < |w|
    requires |BitsFrom(d, w, n)| <= |p| && p[..|BitsFrom(d, w, n)|] == BitsFrom(d, w, n)
    ensures |BitsFrom(d, w, n + 1)| <= |p| && p[..|BitsFrom(d, w, n + 1)|] == BitsFrom(d, w, n + 1)
    ensures var rest := Decode(TableOf(d), p, |BitsFrom(d, w, n + 1)|, DecState(d, w, n + 1), DecState(d, w, n + 2), n + 1);
            rest.Some? ==>
            Decode(TableOf(d), p, |BitsFrom(d, w, n)|, DecState(d, w, n), DecState(d, w, n + 1), n) == Some([w[n]] + rest.value)
  {
    hide Low, Dist.Valid, TableOf, Decode, ToBits, Coder.Bits, Coder.Next, Coder.Init, Coder.State, Coder.Codes, StateAt;
    StepCell(d, w, n);
    OneMore(TableOf(d), p, |BitsFrom(d, w, n)|, DecState(d, w, n), DecState(d, w, n + 1), n,
            StateAt(d, w, n + 2), BitsFrom(d, w, n + 1), DecState(d, w, n + 2));
  }

  lemma {:induction false} DecodesFrom(d: Dist, w: seq<nat>, p: Bits, n: nat)
    requires Encodable(d, w) && n + 2 <= |w| && d.Prob(w[|w| - 2]) < d.Size()
    requires |BitsFrom(d, w, n)| <= |p| && p[..|BitsFrom(d, w, n)|] == BitsFrom(d, w, n)
    ensures Decode(TableOf(d), p, |BitsFrom(d, w, n)|, DecState(d, w, n), DecState(d, w, n + 1), n) == Some(w[n..])
    decreases |w| - n
  {
    hide Dist.Valid, TableOf, Decode, BitsFrom, DecState, Encodable;
    if n + 2 == |w| {
      LastWeights(d, w);
      DecodesEnd(d, w, p);
    } else {
      DecodesOne(d, w, p, n);
      DecodesFrom(d, w, p, n + 1);
      assert w[n..] == [w[n]] + w[n + 1..];
    }
  }

  /** What the decoder makes of the stream, whatever its states do. */
  lemma DecodesStream(d: Dist, w: seq<nat>, bytes: seq<Byte>)
    requires Encodable(d, w) && Marked(bytes, Stream(d, w))
    ensures var p, x := Stream(d, w), BitsFrom(d, w, 0);
            && |x| <= |p| && p[..|x|] == x
            && DecodeWeights(TableOf(d), bytes) == Decode(TableOf(d), p, |x|, DecState(d, w, 0), DecState(d, w, 1), 0)
  {
    hide Low, Field, Dist.Valid, TableOf, Decode, BitsFrom, StateAt, ToBits;
    var p := Stream(d, w);
    MarkedOpens(bytes, p);
    assert p[..|p|] == p;
    FieldOf(p, |p|, BitsFrom(d, w, 0) + ToBits(StateAt(d, w, 1), d.log), StateAt(d, w, 0), d.log);
    FieldOf(p, |p| - d.log, BitsFrom(d, w, 0), StateAt(d, w, 1), d.log);
  }

  /** With states that never need a bit, the weights run past 255 and are refused. */
  lemma {:induction false} TooMany(t: DTable, p: Bits, u: nat, a: nat, b: nat, op: nat)
    requires t.Valid() && a < |t.cells| && b < |t.cells| && forall c :: 0 <= c < |t.cells| ==> t.cells[c].numBits == 0
    ensures Decode(t, p, u, a, b, op) == None
    decreases OMAX - op
  {
    hide Field;
    if op <= OMAX - 2 {
      TooMany(t, p, u, b, NextState(t, p, u, a), op + 1);
    }
  }

  /** Two symbols with cells: neither has them all. */
  lemma NotAlone(d: Dist, s: nat, r: nat)
    requires d.Valid() && d.Prob(s) > 0 && d.Prob(r) > 0 && s != r
    ensures d.Prob(s) < d.Size()
  {
    hide Spread;
    ProbFits(d, s);
    ProbFits(d, r);
    var a, b := if r < s then r else s, if r < s then s else r;
    StartMono(d, a, b);
    StartMono(d, b + 1, |d.norm|);
  }

  /** A symbol with the whole table is the only one. */
  lemma OnlyOne(d: Dist, s: nat, c: nat)
    requires d.Valid() && d.Prob(s) == d.Size() && c < |TableOf(d).cells|
    ensures TableOf(d).cells[c].numBits == 0
  {
    SpreadOwner(d, c);
    if Spread(d)[c] != s {
      NotAlone(d, s, Spread(d)[c]);
    }
    var x := FseDecoder.Rank(d, c);
    Pow2Next(d.log);
    HighBitUnique(x, d.log);
  }

  /** What `CompressUsingCTable` writes, `FseDecompressWeights` gives back,
      except where one weight has the whole table: then it is refused past 255
      weights. The decoder refuses such a table before that. */
  lemma RoundTrip(d: Dist, w: seq<nat>, bytes: seq<Byte>)
    requires Encodable(d, w) && Marked(bytes, Stream(d, w))
    ensures DecodeWeights(TableOf(d), bytes) == if d.Prob(w[|w| - 2]) < d.Size() then Some(w) else None
  {
    hide Low, Field, Dist.Valid, TableOf, Decode, BitsFrom, StateAt, DecState;
    DecodesStream(d, w, bytes);
    var p, x := Stream(d, w), BitsFrom(d, w, 0);
    if d.Prob(w[|w| - 2]) < d.Size() {
      DecodesFrom(d, w, p, 0);
      assert w[0..] == w;
    } else {
      CodesBound(d, w);
      ProbFits(d, w[|w| - 2]);
      forall c: nat | c < |TableOf(d).cells|
        ensures TableOf(d).cells[c].numBits == 0
      {
        OnlyOne(d, w[|w| - 2], c);
      }
      TooMany(TableOf(d), p, |x|, DecState(d, w, 0), DecState(d, w, 1), 0);
    }
  }

  /** Two distinct weights never share out that way. */
  lemma TwoValues(d: Dist, w: seq<nat>, i: nat, j: nat)
    requires Encodable(d, w) && i < |w| && j < |w| && w[i] != w[j]
    ensures d.Prob(w[|w| - 2]) < d.Size()
  {
    var s := w[|w| - 2];
    CodesBound(d, w);
    NotAlone(d, s, if w[i] == s then w[j] else w[i]);
  }
}
