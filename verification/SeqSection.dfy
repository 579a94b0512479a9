/** The sequences bitstream (RFC 8878, section 3.1.1.3.2): what the encoder
    writes, what the decoder reads, and that the two are inverse. */
module SeqSection {
  import opened Nums
  import opened BitSeq
  import opened Words
  import opened SeqCodes
  import opened RepCodes
  import opened FseEncoder
  import FseDecoder
  import opened BackwardWriter
  import opened BackwardReader

  type Cell = FseDecoder.Cell

  datatype Seq = Seq(litLen: nat, offBase: nat, mlBase: nat) {
    predicate Valid() { litLen < 0x2_0000 && mlBase < 0x2_0000 && 1 <= offBase < 0x1_0000_0000 }
    function Ll(): nat { LlCode(litLen) }
    function Of(): nat { OffCode(offBase) }
    function Ml(): nat { MlCode(mlBase) }
    function ExtraBits(): nat { LlBits(Ll()) + MlBits(Ml()) + Of() }

    /** The raw bits, in the order they are written. */
    function Extra(): Bits {
      ToBits(litLen, LlBits(Ll())) + ToBits(mlBase, MlBits(Ml())) + ToBits(offBase, Of())
    }
  }

  lemma SeqBounds(s: Seq)
    requires s.Valid()
    ensures s.Ll() <= MAX_LL && s.Ml() <= MAX_ML && s.Of() <= MAX_OFF
    ensures LlBits(s.Ll()) <= 16 && MlBits(s.Ml()) <= 16 && s.ExtraBits() <= 63 && |s.Extra()| == s.ExtraBits()
  {
    LlSplits(s.litLen);
    MlSplits(s.mlBase);
    OffSplits(s.offBase);
  }

  // The encoder as a function

  datatype States = States(ll: nat, of: nat, ml: nat)

  /** The three tables. */
  datatype Coders = Coders(ll: Coder, of: Coder, ml: Coder) {
    ghost predicate Valid() {
      && ll.Valid() && of.Valid() && ml.Valid()
      && ll.Log() <= 9 && of.Log() <= 8 && ml.Log() <= 9
      && Symbols(ll) <= MAX_LL + 1 && Symbols(of) <= MAX_OFF + 1 && Symbols(ml) <= MAX_ML + 1
    }

    /** The tables have a state for every code of `s`. */
    predicate Covers(s: Seq) { s.Valid() && ll.Codes(s.Ll()) && of.Codes(s.Of()) && ml.Codes(s.Ml()) }

    predicate State(st: States) { ll.State(st.ll) && of.State(st.of) && ml.State(st.ml) }

    ghost function Init(s: Seq): (st: States)
      requires Valid() && Covers(s)
      ensures State(st)
    {
      States(ll.Init(s.Ll()), of.Init(s.Of()), ml.Init(s.Ml()))
    }

    ghost function Next(st: States, s: Seq): (r: States)
      requires Valid() && Covers(s) && State(st)
      ensures State(r)
    {
      States(ll.Next(st.ll, s.Ll()), of.Next(st.of, s.Of()), ml.Next(st.ml, s.Ml()))
    }

    /** The bits the three states give up, in the order they are written. */
    ghost function StateBits(st: States, s: Seq): Bits
      requires Valid() && Covers(s) && State(st)
    {
      ToBits(st.of, of.Bits(st.of, s.Of())) + ToBits(st.ml, ml.Bits(st.ml, s.Ml())) + ToBits(st.ll, ll.Bits(st.ll, s.Ll()))
    }

    ghost function Flush(st: States): (b: Bits)
      ensures |b| == ml.Log() + of.Log() + ll.Log()
    {
      ToBits(st.ml, ml.Log()) + ToBits(st.of, of.Log()) + ToBits(st.ll, ll.Log())
    }
  }

  function Symbols(c: Coder): nat { if c.Built? then |c.d.norm| else c.symbol + 1 }

  ghost predicate Encodable(c: Coders, seqs: seq<Seq>) {
    c.Valid() && seqs != [] && forall i :: 0 <= i < |seqs| ==> c.Covers(seqs[i])
  }

  /** The states once sequences `n` and up are written, the last one first. */
  ghost function StatesAt(c: Coders, seqs: seq<Seq>, n: nat): (st: States)
    requires Encodable(c, seqs) && n < |seqs|
    ensures c.State(st)
    decreases |seqs| - n
  {
    if n == |seqs| - 1 then c.Init(seqs[n]) else c.Next(StatesAt(c, seqs, n + 1), seqs[n])
  }

  ghost function BitsFrom(c: Coders, seqs: seq<Seq>, n: nat): Bits
    requires Encodable(c, seqs) && n < |seqs|
    decreases |seqs| - n
  {
    if n == |seqs| - 1 then seqs[n].Extra()
    else BitsFrom(c, seqs, n + 1) + (c.StateBits(StatesAt(c, seqs, n + 1), seqs[n]) + seqs[n].Extra())
  }

  ghost function Stream(c: Coders, seqs: seq<Seq>): Bits
    requires Encodable(c, seqs)
  {
    BitsFrom(c, seqs, 0) + c.Flush(StatesAt(c, seqs, 0))
  }

  /** `extra_bits`: the raw bits of the sequences from `n` on. */
  function ExtraFrom(seqs: seq<Seq>, n: nat): nat
    requires n <= |seqs|
    decreases |seqs| - n
  {
    if n == |seqs| then 0 else seqs[n].ExtraBits() + ExtraFrom(seqs, n + 1)
  }

  lemma StateBitsBound(c: Coders, st: States, s: Seq)
    requires c.Valid() && c.Covers(s) && c.State(st)
    ensures c.of.Bits(st.of, s.Of()) <= 8
    ensures c.ml.Bits(st.ml, s.Ml()) <= 9 && c.ll.Bits(st.ll, s.Ll()) <= 9
    ensures |c.StateBits(st, s)| <= 26
  {
    BitsBound(c.of, st.of, s.Of());
    BitsBound(c.ml, st.ml, s.Ml());
    BitsBound(c.ll, st.ll, s.Ll());
  }

  /** The region `encode_sequences` sizes always suffices. */
  lemma {:induction false} StreamBound(c: Coders, seqs: seq<Seq>, n: nat)
    requires Encodable(c, seqs) && n < |seqs|
    ensures |BitsFrom(c, seqs, n)| <= ExtraFrom(seqs, n) + 26 * (|seqs| - n - 1)
    decreases |seqs| - n
  {
    SeqBounds(seqs[n]);
    if n < |seqs| - 1 {
      StreamBound(c, seqs, n + 1);
      StateBitsBound(c, StatesAt(c, seqs, n + 1), seqs[n]);
    } else {
      assert ExtraFrom(seqs, n + 1) == 0;
    }
  }

  // The encoder's loop

  /** `FSE_flushCState`. */
  method FlushState(t: CTable, ghost c: Coder, bw: BitCStream, value: nat)
    requires t.Implements(c) && bw.Valid() && c.State(value) && bw.bitPos <= 7
    modifies bw, bw.buf
    ensures bw.Valid() && bw.written == old(bw.written) + ToBits(value, c.Log()) && bw.bitPos <= 7
  {
    StateBound(c, value);
    bw.AddBits(value, t.tableLog);
    bw.FlushBits();
  }

  datatype CTables = CTables(ll: CTable, of: CTable, ml: CTable) {
    ghost predicate Implement(c: Coders) { ll.Implements(c.ll) && of.Implements(c.of) && ml.Implements(c.ml) }

    /** `nbBitsOut` of the three states, as `States`. */
    function NbBits(st: States, s: Seq, ghost c: Coders): (nb: States)
      requires Implement(c) && c.Covers(s) && c.State(st)
      ensures nb.of == c.of.Bits(st.of, s.Of()) && nb.ml == c.ml.Bits(st.ml, s.Ml()) && nb.ll == c.ll.Bits(st.ll, s.Ll())
    {
      SeqBounds(s);
      States(ll.NbBitsOut(st.ll, s.Ll(), c.ll), of.NbBitsOut(st.of, s.Of(), c.of), ml.NbBitsOut(st.ml, s.Ml(), c.ml))
    }

    function Next(st: States, s: Seq, ghost c: Coders): (r: States)
      requires Implement(c) && c.Valid() && c.Covers(s) && c.State(st)
      ensures r == c.Next(st, s)
    {
      SeqBounds(s);
      States(ll.NextState(st.ll, s.Ll(), c.ll), of.NextState(st.of, s.Of(), c.of), ml.NextState(st.ml, s.Ml(), c.ml))
    }

    function Init(s: Seq, ghost c: Coders): (r: States)
      requires Implement(c) && c.Valid() && c.Covers(s)
      ensures r == c.Init(s)
    {
      SeqBounds(s);
      States(ll.InitState(s.Ll(), c.ll), of.InitState(s.Of(), c.of), ml.InitState(s.Ml(), c.ml))
    }
  }

  /** Raw bits of the lengths. */
  method AddLengths(bw: BitCStream, s: Seq)
    requires bw.Valid() && LlBits(s.Ll()) <= 16 && MlBits(s.Ml()) <= 16
    requires bw.bitPos + LlBits(s.Ll()) + MlBits(s.Ml()) < 64
    modifies bw
    ensures bw.Valid() && bw.bitPos == old(bw.bitPos) + LlBits(s.Ll()) + MlBits(s.Ml())
    ensures bw.written == old(bw.written) + ToBits(s.litLen, LlBits(s.Ll())) + ToBits(s.mlBase, MlBits(s.Ml()))
  {
    bw.AddBits(s.litLen, LlBits(s.Ll()));
    bw.AddBits(s.mlBase, MlBits(s.Ml()));
  }

  /** Raw bits of the offset, and the flush that ends a sequence. */
  method AddOffset(bw: BitCStream, s: Seq)
    requires bw.Valid() && s.Of() < 32 && bw.bitPos + s.Of() < 64
    modifies bw, bw.buf
    ensures bw.Valid() && bw.written == old(bw.written) + ToBits(s.offBase, s.Of()) && bw.bitPos <= 7
  {
    bw.AddBits(s.offBase, s.Of());
    bw.FlushBits();
  }

  /** The raw bits of the last sequence: 63 at most, into an empty container. */
  method EncodeLast(bw: BitCStream, s: Seq)
    requires bw.Valid() && bw.bitPos == 0 && s.Valid()
    modifies bw, bw.buf
    ensures bw.Valid() && bw.written == old(bw.written) + s.Extra() && bw.bitPos <= 7
  {
    SeqBounds(s);
    AddLengths(bw, s);
    AddOffset(bw, s);
    Grouped(old(bw.written), s);
  }

  lemma Grouped(w: Bits, s: Seq)
    ensures w + ToBits(s.litLen, LlBits(s.Ll())) + ToBits(s.mlBase, MlBits(s.Ml())) + ToBits(s.offBase, s.Of())
            == w + s.Extra()
  {
    Regroup4(w, ToBits(s.litLen, LlBits(s.Ll())), ToBits(s.mlBase, MlBits(s.Ml())), ToBits(s.offBase, s.Of()));
  }

  /** The raw bits of a sequence over at most 33 pending ones: the two
      conditional flushes keep the container below 64 bits. */
  method EncodeExtra(bw: BitCStream, s: Seq)
    requires bw.Valid() && bw.bitPos <= 7 + 26 && s.Valid()
    modifies bw, bw.buf
    ensures bw.Valid() && bw.bitPos <= 7 && bw.written == old(bw.written) + s.Extra()
  {
    SeqBounds(s);
    if s.ExtraBits() >= 64 - 7 - (9 + 9 + 8) {
      bw.FlushBits();
    }
    AddLengths(bw, s);
    if s.ExtraBits() > 56 {
      bw.FlushBits();
    }
    AddOffset(bw, s);
    Grouped(old(bw.written), s);
  }

  /** The three states give up their bits for one sequence. */
  method EncodeStates(t: CTables, ghost c: Coders, bw: BitCStream, st: States, s: Seq) returns (next: States)
    requires t.Implement(c) && bw.Valid() && bw.bitPos <= 7
    requires c.Valid() && c.Covers(s) && c.State(st)
    modifies bw
    ensures bw.Valid() && bw.bitPos <= 7 + 26
    ensures next == c.Next(st, s)
    ensures bw.written == old(bw.written) + c.StateBits(st, s)
  {
    StateBitsBound(c, st, s);
    var nb := t.NbBits(st, s, c);
    next := t.Next(st, s, c);
    AddThree(bw, st.of, nb.of, st.ml, nb.ml, st.ll, nb.ll);
  }

  method AddThree(bw: BitCStream, u: nat, m: nat, v: nat, n: nat, w: nat, k: nat)
    requires bw.Valid() && m < 32 && n < 32 && k < 32 && bw.bitPos + m + n + k < 64
    modifies bw
    ensures bw.Valid() && bw.bitPos == old(bw.bitPos) + m + n + k
    ensures bw.written == old(bw.written) + (ToBits(u, m) + ToBits(v, n) + ToBits(w, k))
  {
    bw.AddBits(u, m);
    bw.AddBits(v, n);
    bw.AddBits(w, k);
    Regroup4(old(bw.written), ToBits(u, m), ToBits(v, n), ToBits(w, k));
  }

  /** Sequence `n`, the ones after it written. */
  method EncodeOne(t: CTables, ghost c: Coders, bw: BitCStream, seqs: seq<Seq>, n: nat, st: States) returns (next: States)
    requires t.Implement(c) && Encodable(c, seqs) && n + 1 < |seqs| && bw.Valid() && bw.bitPos <= 7
    requires st == StatesAt(c, seqs, n + 1) && bw.written == BitsFrom(c, seqs, n + 1)
    modifies bw, bw.buf
    ensures bw.Valid() && bw.bitPos <= 7
    ensures next == StatesAt(c, seqs, n) && bw.written == BitsFrom(c, seqs, n)
  {
    next := EncodeStates(t, c, bw, st, seqs[n]);
    EncodeExtra(bw, seqs[n]);
    Regroup(old(bw.written), c.StateBits(st, seqs[n]), seqs[n].Extra());
  }

  /** The sequences before the last one, backwards. */
  method EncodeRest(t: CTables, ghost c: Coders, bw: BitCStream, seqs: seq<Seq>, last: States) returns (st: States)
    requires t.Implement(c) && Encodable(c, seqs) && bw.Valid() && bw.bitPos <= 7
    requires last == StatesAt(c, seqs, |seqs| - 1) && bw.written == BitsFrom(c, seqs, |seqs| - 1)
    modifies bw, bw.buf
    ensures bw.Valid() && bw.bitPos <= 7
    ensures st == StatesAt(c, seqs, 0) && bw.written == BitsFrom(c, seqs, 0)
  {
    hide Coders.Valid, Coders.Covers;
    st := last;
    var n := |seqs| - 1;
    while n > 0
      invariant 0 <= n < |seqs|
      invariant bw.Valid() && bw.bitPos <= 7
      invariant st == StatesAt(c, seqs, n) && bw.written == BitsFrom(c, seqs, n)
    {
      n := n - 1;
      st := EncodeOne(t, c, bw, seqs, n, st);
    }
  }

  /** `ZSTD_encodeSequences_body`. */
  method EncodeSequences(t: CTables, ghost c: Coders, seqs: seq<Seq>, extraBits: nat) returns (bytes: seq<Byte>)
    requires t.Implement(c) && Encodable(c, seqs) && extraBits == ExtraFrom(seqs, 0)
    ensures Marked(bytes, Stream(c, seqs))
  {
    hide Coders.StateBits, Seq.Extra, Marked, BytesBits, CTables.Implement, Encodable, ExtraFrom;
    LastOf(t, c, seqs);
    var buf := new Byte[CapacityFor(extraBits + |seqs| * (9 + 8 + 9) + 1)](_ => 0);
    var bw := new BitCStream(buf);
    var st := t.Init(seqs[|seqs| - 1], c);
    EncodeLast(bw, seqs[|seqs| - 1]);
    assert bw.written == BitsFrom(c, seqs, |seqs| - 1);
    st := EncodeRest(t, c, bw, seqs, st);
    EncodeEnd(t, c, bw, st);
    StreamBound(c, seqs, 0);
    var size := bw.Close();
    bytes := buf[..size];
  }

  lemma LastOf(t: CTables, c: Coders, seqs: seq<Seq>)
    requires t.Implement(c) && Encodable(c, seqs)
    ensures c.Valid() && seqs != [] && c.Covers(seqs[|seqs| - 1]) && seqs[|seqs| - 1].Valid()
  {
  }

  method EncodeEnd(t: CTables, ghost c: Coders, bw: BitCStream, st: States)
    requires t.Implement(c) && c.State(st) && bw.Valid() && bw.bitPos <= 7
    modifies bw, bw.buf
    ensures bw.Valid() && bw.bitPos <= 7 && bw.written == old(bw.written) + c.Flush(st)
  {
    FlushState(t.ml, c.ml, bw, st.ml);
    FlushState(t.of, c.of, bw, st.of);
    FlushState(t.ll, c.ll, bw, st.ll);
    Regroup4(old(bw.written), ToBits(st.ml, c.ml.Log()), ToBits(st.of, c.of.Log()), ToBits(st.ll, c.ll.Log()));
  }
}
