/** The decoder reads back every sequence section the encoder writes. */
module SeqRoundTrip {
  import opened Options
  import opened Nums
  import opened BitSeq
  import opened Words
  import opened SeqCodes
  import opened RepCodes
  import opened FseEncoder
  import FseDist
  import FseSpread
  import FseDecoder
  import opened SeqSection
  import opened SeqDecoder

  function LlCodes(): FseDecoder.Codes {
    FseDecoder.Codes(seq(MAX_LL + 1, c requires 0 <= c => LlBase(c)), seq(MAX_LL + 1, c requires 0 <= c => LlBits(c)))
  }

  function OfCodes(): FseDecoder.Codes {
    FseDecoder.Codes(seq(MAX_OFF + 1, c requires 0 <= c => OfBase(c)), seq(MAX_OFF + 1, c requires 0 <= c => OfBits(c)))
  }

  function MlCodes(): FseDecoder.Codes {
    FseDecoder.Codes(seq(MAX_ML + 1, c requires 0 <= c => MlBase(c)), seq(MAX_ML + 1, c requires 0 <= c => MlBits(c)))
  }

  /** The decoding tables that go with the encoder's. */
  ghost function TablesOf(c: Coders): DTables
    requires c.Valid()
  {
    DTables(c.ll.Cells(LlCodes()), c.of.Cells(OfCodes()), c.ml.Cells(MlCodes()), c.ll.Log(), c.of.Log(), c.ml.Log())
  }

  lemma CellsGood(c: Coder, codes: FseDecoder.Codes, maxLog: nat, maxExtra: nat)
    requires c.Valid() && c.Log() <= maxLog && codes.Codes? && codes.Covers(Symbols(c))
    requires forall s :: 0 <= s < Symbols(c) ==> codes.bits[s] <= maxExtra
    ensures Good(c.Cells(codes), c.Log(), maxLog, maxExtra)
  {
    var cells := c.Cells(codes);
    forall u | 0 <= u < |cells|
      ensures cells[u].extraBits <= maxExtra && cells[u].numBits <= c.Log()
    {
      if c.Built? {
        CellGood(c.d, codes, u);
      }
    }
  }

  lemma CellGood(d: FseDist.Dist, codes: FseDecoder.Codes, u: nat)
    requires d.Valid() && codes.Codes? && codes.Covers(|d.norm|) && u < d.Size()
    ensures FseDecoder.CellAt(d, codes, u).numBits <= d.log
    ensures exists s :: 0 <= s < |d.norm| && FseDecoder.CellAt(d, codes, u).extraBits == codes.bits[s]
  {
    FseSpread.SpreadOwner(d, u);
    var s, x := FseSpread.Spread(d)[u], FseDecoder.Rank(d, u);
    FseDecoder.RankBits(x, d.log);
    assert FseDecoder.CellAt(d, codes, u) == FseDecoder.CellFor(d.log, codes, s, x);
    assert FseDecoder.CellAt(d, codes, u).extraBits == codes.bits[s];
  }

  lemma TablesValid(c: Coders)
    requires c.Valid()
    ensures TablesOf(c).Valid()
  {
    CellsGood(c.ll, LlCodes(), 9, 16);
    CellsGood(c.of, OfCodes(), 8, 31);
    CellsGood(c.ml, MlCodes(), 9, 16);
  }

  /** The decoder's states where the encoder is in `st`. */
  ghost function DecStates(c: Coders, st: States): (d: DStates)
    requires c.Valid()
    ensures InTables(TablesOf(c), d)
  {
    DStates(Low(st.ll, c.ll.Log()), Low(st.of, c.of.Log()), Low(st.ml, c.ml.Log()))
  }

  function RawOf(s: Seq): Raw {
    Raw(s.litLen, s.mlBase + 3, s.Of(), OfBase(s.Of()), Low(s.offBase, s.Of()), s.litLen == 0)
  }

  function RawsFrom(seqs: seq<Seq>, n: nat): (r: seq<Raw>)
    requires n <= |seqs|
    ensures |r| == |seqs| - n
    decreases |seqs| - n
  {
    if n == |seqs| then [] else [RawOf(seqs[n])] + RawsFrom(seqs, n + 1)
  }

  // Fields

  /** `z` is `x` and then `y`. */
  ghost predicate Joins(z: Bits, x: Bits, y: Bits) { z == x + y }

  lemma FieldOf(p: Bits, u: nat, x: Bits, b: Bits)
    requires u <= |p| && Joins(p[..u], x, b)
    ensures Field(p, u, |b|) == ToNat(b) && u - |b| == |x| && p[..|x|] == x
  {
    assert p[u - |b|..u] == p[..u][u - |b|..];
    assert p[..|x|] == p[..u][..|x|];
  }

  lemma ThreeParts(p: Bits, u: nat, x: Bits, a: Bits, b: Bits, c: Bits)
    requires u <= |p| && Joins(p[..u], x, a + b + c)
    ensures u - |c| - |b| - |a| == |x| && p[..|x|] == x
    ensures Field(p, u, |c|) == ToNat(c) && Field(p, u - |c|, |b|) == ToNat(b) && Field(p, u - |c| - |b|, |a|) == ToNat(a)
  {
    hide Field, ToNat;
    Regroup4(x, a, b, c);
    PartsOf(p, u, x, x + a, x + a + b, a, b, c);
  }

  lemma PartsOf(p: Bits, u: nat, x: Bits, xa: Bits, xab: Bits, a: Bits, b: Bits, c: Bits)
    requires u <= |p| && Joins(xa, x, a) && Joins(xab, xa, b) && Joins(p[..u], xab, c)
    ensures u - |c| - |b| - |a| == |x| && p[..|x|] == x
    ensures Field(p, u, |c|) == ToNat(c) && Field(p, u - |c|, |b|) == ToNat(b) && Field(p, u - |c| - |b|, |a|) == ToNat(a)
  {
    hide Field, ToNat, Joins;
    FieldOf(p, u, xab, c);
    FieldOf(p, u - |c|, xa, b);
    FieldOf(p, u - |c| - |b|, x, a);
  }

  lemma ThreeFields(p: Bits, u: nat, x: Bits, va: nat, na: nat, vb: nat, nb: nat, vc: nat, nc: nat)
    requires u <= |p| && Joins(p[..u], x, ToBits(va, na) + ToBits(vb, nb) + ToBits(vc, nc))
    ensures Field(p, u, nc) == Low(vc, nc) && Field(p, u - nc, nb) == Low(vb, nb)
    ensures u - nc - nb - na == |x| && Field(p, u - nc - nb, na) == Low(va, na) && p[..|x|] == x
  {
    hide ToNat, ToBits, Low, Field, Joins;
    ThreeParts(p, u, x, ToBits(va, na), ToBits(vb, nb), ToBits(vc, nc));
    ToNatOfBits(va, na);
    ToNatOfBits(vb, nb);
    ToNatOfBits(vc, nc);
  }

  // A stream as a chain of sequences, whatever tables made it

  /** The cells of `s`'s codes. */
  ghost predicate ReadsSeq(t: DTables, d: DStates, s: Seq) {
    && InTables(t, d)
    && t.ll[d.ll].baseValue == LlBase(s.Ll()) && t.ll[d.ll].extraBits == LlBits(s.Ll())
    && t.of[d.of].baseValue == OfBase(s.Of()) && t.of[d.of].extraBits == s.Of()
    && t.ml[d.ml].baseValue == MlBase(s.Ml()) && t.ml[d.ml].extraBits == MlBits(s.Ml())
  }

  /** The low bits of `v` lead from `d` to `e`. */
  ghost predicate Link(t: DTables, d: DStates, e: DStates, v: States)
    requires InTables(t, d)
  {
    && t.ll[d.ll].nextState + Low(v.ll, t.ll[d.ll].numBits) == e.ll
    && t.of[d.of].nextState + Low(v.of, t.of[d.of].numBits) == e.of
    && t.ml[d.ml].nextState + Low(v.ml, t.ml[d.ml].numBits) == e.ml
  }

  ghost function LinkBits(t: DTables, d: DStates, v: States): Bits
    requires InTables(t, d)
  {
    ToBits(v.of, t.of[d.of].numBits) + ToBits(v.ml, t.ml[d.ml].numBits) + ToBits(v.ll, t.ll[d.ll].numBits)
  }

  /** `bits` are what is written once sequence `n` is, and `ds` where the decoder then is. */
  datatype Chain = Chain(t: DTables, seqs: seq<Seq>, ds: seq<DStates>, vs: seq<States>, bits: seq<Bits>) {
    ghost predicate Shape() {
      && t.Valid() && |seqs| == |ds| == |vs| == |bits| && seqs != []
      && forall n :: 0 <= n < |seqs| ==> At(n)
    }

    ghost predicate At(n: nat)
      requires |seqs| == |ds| == |vs| == |bits| && n < |seqs|
    {
      && seqs[n].Valid() && ReadsSeq(t, ds[n], seqs[n])
      && (n == |seqs| - 1 ==> bits[n] == seqs[n].Extra())
      && (n < |seqs| - 1 ==>
        && Link(t, ds[n], ds[n + 1], vs[n + 1])
        && bits[n] == bits[n + 1] + (LinkBits(t, ds[n], vs[n + 1]) + seqs[n].Extra()))
    }
  }

  /** The raw bits give the sequence back. */
  lemma ReadsExtra(t: DTables, p: Bits, u: nat, d: DStates, s: Seq, x: Bits)
    requires ReadsSeq(t, d, s) && s.Valid() && u <= |p| && Joins(p[..u], x, s.Extra())
    ensures RawAt(t, p, u, d) == RawOf(s) && u - ExtraCount(t, d) == |x| && p[..|x|] == x
  {
    hide Field, Low, ToBits, ToNat, Joins;
    ThreeFields(p, u, x, s.litLen, LlBits(s.Ll()), s.mlBase, MlBits(s.Ml()), s.offBase, s.Of());
    LlSplits(s.litLen);
    LlZero(s.litLen);
    MlSplits(s.mlBase);
  }

  /** The state bits lead on. */
  lemma ReadsLink(t: DTables, p: Bits, u: nat, d: DStates, e: DStates, v: States, x: Bits)
    requires t.Valid() && InTables(t, d) && Link(t, d, e, v) && u <= |p| && Joins(p[..u], x, LinkBits(t, d, v))
    ensures NextAt(t, p, u, d) == e && u - StateCount(t, d) == |x| && p[..|x|] == x
  {
    hide Field, Low, ToBits, ToNat, Joins, DTables.Valid;
    ThreeFields(p, u, x, v.of, t.of[d.of].numBits, v.ml, t.ml[d.ml].numBits, v.ll, t.ll[d.ll].numBits);
  }

  lemma DecodesLast(t: DTables, p: Bits, u: nat, d: DStates, s: Seq)
    requires t.Valid() && ReadsSeq(t, d, s) && s.Valid() && u <= |p| && p[..u] == s.Extra()
    ensures DecodeFrom(t, p, u, 1, d) == Some([RawOf(s)] + [])
  {
    hide RawAt, RawOf, ExtraCount, StateCount, Seq.Extra, NextAt;
    assert s.Extra() == [] + s.Extra();
    ReadsExtra(t, p, u, d, s, []);
  }

  lemma ReadsIn(t: DTables, d: DStates, s: Seq)
    requires t.Valid() && ReadsSeq(t, d, s)
    ensures InTables(t, d)
  {
  }

  lemma DecodesOn(t: DTables, p: Bits, u: nat, k: nat, d: DStates)
    requires t.Valid() && InTables(t, d) && k > 1
    ensures var v := u - ExtraCount(t, d);
            var rest := DecodeFrom(t, p, v - StateCount(t, d), k - 1, NextAt(t, p, v, d));
            DecodeFrom(t, p, u, k, d) == if rest == None then None else Some([RawAt(t, p, u, d)] + rest.value)
  {
    hide RawAt, NextAt, ExtraCount, StateCount;
  }

  lemma DecodesOne(t: DTables, p: Bits, u: nat, k: nat, d: DStates, e: DStates, v: States, s: Seq, rest: Bits)
    requires t.Valid() && ReadsSeq(t, d, s) && Link(t, d, e, v) && InTables(t, e) && s.Valid() && k > 1
    requires u <= |p| && p[..u] == rest + (LinkBits(t, d, v) + s.Extra())
    ensures |rest| <= u && p[..|rest|] == rest
    ensures DecodeFrom(t, p, u, k, d)
            == var more := DecodeFrom(t, p, |rest|, k - 1, e); if more == None then None else Some([RawOf(s)] + more.value)
  {
    hide ReadsSeq, Link, LinkBits, RawAt, RawOf, NextAt, DTables.Valid, Seq.Extra, Seq.Valid, ExtraCount, StateCount, DecodeFrom;
    ReadsIn(t, d, s);
    DecodesOn(t, p, u, k, d);
    var sb := LinkBits(t, d, v);
    Regroup(rest, sb, s.Extra());
    var all := rest + sb;
    ReadsExtra(t, p, u, d, s, all);
    ReadsLink(t, p, |all|, d, e, v, rest);
  }

  lemma {:induction false} DecodesFrom(k: Chain, n: nat, p: Bits)
    requires k.Shape() && n < |k.seqs| && |k.bits[n]| <= |p| && p[..|k.bits[n]|] == k.bits[n]
    ensures InTables(k.t, k.ds[n])
    ensures DecodeFrom(k.t, p, |k.bits[n]|, |k.seqs| - n, k.ds[n]) == Some(RawsFrom(k.seqs, n))
    decreases |k.seqs| - n
  {
    hide Link, LinkBits, RawOf, DTables.Valid, RawAt, NextAt, Field;
    assert k.At(n);
    if n == |k.seqs| - 1 {
      DecodesLast(k.t, p, |k.bits[n]|, k.ds[n], k.seqs[n]);
      assert RawsFrom(k.seqs, n + 1) == [];
    } else {
      assert k.At(n + 1);
      DecodesOne(k.t, p, |k.bits[n]|, |k.seqs| - n, k.ds[n], k.ds[n + 1], k.vs[n + 1], k.seqs[n], k.bits[n + 1]);
      DecodesFrom(k, n + 1, p);
    }
  }

  // The encoder makes such a chain

  ghost function ChainOf(c: Coders, seqs: seq<Seq>): Chain
    requires Encodable(c, seqs)
  {
    Chain(TablesOf(c), seqs,
          seq(|seqs|, n requires 0 <= n < |seqs| => DecStates(c, StatesAt(c, seqs, n))),
          seq(|seqs|, n requires 0 <= n < |seqs| => StatesAt(c, seqs, n)),
          seq(|seqs|, n requires 0 <= n < |seqs| => BitsFrom(c, seqs, n)))
  }

  /** In the states the encoder left, the decoder reads the sequence's own
      codes, and the bits that lead to the states before. */
  lemma CodedStep(c: Coders, st: States, s: Seq)
    requires c.Valid() && c.Covers(s) && c.State(st)
    ensures var t, d := TablesOf(c), DecStates(c, c.Next(st, s));
            ReadsSeq(t, d, s) && Link(t, d, DecStates(c, st), st) && LinkBits(t, d, st) == c.StateBits(st, s)
  {
    hide ReadsSeq, Link, LinkBits, Seq.Valid, Coder.Valid, Coder.Next, Coder.Bits, Coder.State;
    CodedReads(c, st, s);
    CodedLinks(c, st, s);
  }

  lemma CodedReads(c: Coders, st: States, s: Seq)
    requires c.Valid() && c.Covers(s) && c.State(st)
    ensures ReadsSeq(TablesOf(c), DecStates(c, c.Next(st, s)), s)
  {
    hide Low, ToBits, Coder.Valid, Coder.Next, Coder.Bits, Coder.State, Seq.Valid;
    SeqBounds(s);
    EncodeThenDecode(c.ll, LlCodes(), st.ll, s.Ll());
    EncodeThenDecode(c.of, OfCodes(), st.of, s.Of());
    EncodeThenDecode(c.ml, MlCodes(), st.ml, s.Ml());
  }

  lemma CodedLinks(c: Coders, st: States, s: Seq)
    requires c.Valid() && c.Covers(s) && c.State(st)
    ensures var t, d := TablesOf(c), DecStates(c, c.Next(st, s));
            InTables(t, d) && Link(t, d, DecStates(c, st), st) && LinkBits(t, d, st) == c.StateBits(st, s)
  {
    hide Low, ToBits, LinkBits, Coders.StateBits, Coder.Valid, Coder.Next, Coder.Bits, Coder.State, Seq.Valid;
    SeqBounds(s);
    CodedBits(c, st, s);
    EncodeThenDecode(c.ll, LlCodes(), st.ll, s.Ll());
    EncodeThenDecode(c.of, OfCodes(), st.of, s.Of());
    EncodeThenDecode(c.ml, MlCodes(), st.ml, s.Ml());
  }

  /** The cells a step leads to take as many bits as it wrote. */
  lemma CodedBits(c: Coders, st: States, s: Seq)
    requires c.Valid() && c.Covers(s) && c.State(st)
    ensures var t, d := TablesOf(c), DecStates(c, c.Next(st, s));
            InTables(t, d) && LinkBits(t, d, st) == c.StateBits(st, s)
  {
    hide Low, ToBits, Coder.Valid, Coder.Next, Coder.Bits, Coder.State, Seq.Valid;
    SeqBounds(s);
    EncodeThenDecode(c.ll, LlCodes(), st.ll, s.Ll());
    EncodeThenDecode(c.of, OfCodes(), st.of, s.Of());
    EncodeThenDecode(c.ml, MlCodes(), st.ml, s.Ml());
  }

  lemma CodedLast(c: Coders, s: Seq)
    requires c.Valid() && c.Covers(s)
    ensures ReadsSeq(TablesOf(c), DecStates(c, c.Init(s)), s)
  {
    SeqBounds(s);
    InitDecodes(c.ll, LlCodes(), s.Ll());
    InitDecodes(c.of, OfCodes(), s.Of());
    InitDecodes(c.ml, MlCodes(), s.Ml());
  }

  lemma ChainAt(c: Coders, seqs: seq<Seq>, n: nat)
    requires Encodable(c, seqs) && n < |seqs|
    ensures ChainOf(c, seqs).At(n)
  {
    if n == |seqs| - 1 {
      CodedLast(c, seqs[n]);
    } else {
      CodedStep(c, StatesAt(c, seqs, n + 1), seqs[n]);
    }
  }

  lemma ChainShape(c: Coders, seqs: seq<Seq>)
    requires Encodable(c, seqs)
    ensures ChainOf(c, seqs).Shape()
  {
    TablesValid(c);
    forall n: nat | n < |seqs| ensures ChainOf(c, seqs).At(n) {
      ChainAt(c, seqs, n);
    }
  }

  /** Sequence section round trip: every bit is consumed, every sequence comes back. */
  lemma StreamDecodes(c: Coders, seqs: seq<Seq>)
    requires Encodable(c, seqs)
    ensures TablesOf(c).Valid()
    ensures DecodeStream(TablesOf(c), Stream(c, seqs), |seqs|) == Some(RawsFrom(seqs, 0))
  {
    ChainShape(c, seqs);
    var k, st := ChainOf(c, seqs), StatesAt(c, seqs, 0);
    StartReads(k, Stream(c, seqs), st, c.ll.Log(), c.of.Log(), c.ml.Log());
  }

  lemma StartReads(k: Chain, p: Bits, st: States, llLog: nat, ofLog: nat, mlLog: nat)
    requires k.Shape() && k.t.llLog == llLog && k.t.ofLog == ofLog && k.t.mlLog == mlLog
    requires p == k.bits[0] + (ToBits(st.ml, mlLog) + ToBits(st.of, ofLog) + ToBits(st.ll, llLog))
    requires k.ds[0] == DStates(Low(st.ll, llLog), Low(st.of, ofLog), Low(st.ml, mlLog))
    ensures DecodeStream(k.t, p, |k.seqs|) == Some(RawsFrom(k.seqs, 0))
  {
    hide DecodeFrom, RawsFrom, ToNat, ToBits, Low;
    assert p[..|p|] == p;
    ThreeFields(p, |p|, k.bits[0], st.ml, mlLog, st.of, ofLog, st.ll, llLog);
    DecodesFrom(k, 0, p);
  }

  // Offsets

  /** The history after the first `n` sequences, as the encoder keeps it. */
  function RepsAfter(seqs: seq<Seq>, n: nat, hist: Reps): Reps
    requires n <= |seqs| && Sound(seqs, n, hist)
    decreases n, 1
  {
    if n == 0 then hist else UpdateRep(RepsAfter(seqs, n - 1, hist), seqs[n - 1].offBase, seqs[n - 1].litLen == 0)
  }

  /** No sequence among the first `n` gives a zero offset. */
  predicate Sound(seqs: seq<Seq>, n: nat, hist: Reps)
    requires n <= |seqs|
    decreases n, 0
  {
    if n == 0 then hist.r0 >= 1
    else
      && Sound(seqs, n - 1, hist) && 1 <= seqs[n - 1].offBase < 0x1_0000_0000
      && UpdateRep(RepsAfter(seqs, n - 1, hist), seqs[n - 1].offBase, seqs[n - 1].litLen == 0).r0 >= 1
  }

  function DecodedSeqs(seqs: seq<Seq>, n: nat, hist: Reps): (d: seq<Decoded>)
    requires n <= |seqs| && Sound(seqs, n, hist)
    ensures |d| == n
  {
    if n == 0 then []
    else
      DecodedSeqs(seqs, n - 1, hist)
      + [Decoded(seqs[n - 1].litLen, seqs[n - 1].mlBase + 3, RepsAfter(seqs, n, hist).r0)]
  }

  lemma {:induction false} RawsAt(seqs: seq<Seq>, n: nat, i: nat)
    requires n <= i < |seqs|
    ensures RawsFrom(seqs, n)[i - n] == RawOf(seqs[i])
    decreases i - n
  {
    if n < i {
      RawsAt(seqs, n + 1, i);
    }
  }

  lemma OneMoreOf(raws: seq<Raw>, n: nat)
    requires n < |raws|
    ensures raws[..n + 1] == raws[..n] + [raws[n]]
  {
  }

  lemma {:induction false} ResolvesTo(seqs: seq<Seq>, n: nat, hist: Reps)
    requires n <= |seqs| && Sound(seqs, n, hist)
    ensures ResolveAll(RawsFrom(seqs, 0)[..n], hist) == (DecodedSeqs(seqs, n, hist), RepsAfter(seqs, n, hist))
  {
    if n > 0 {
      hide UpdateRep, DecodeOffset, OffCode, OfBase, Low, ResolveAll, RawsFrom, RawOf, Resolved, Sound, DecodedSeqs, RepsAfter;
      var raws := RawsFrom(seqs, 0);
      ResolvesTo(seqs, n - 1, hist);
      RawsAt(seqs, 0, n - 1);
      OneMoreOf(raws, n - 1);
      ResolveOneMore(raws[..n - 1], RawOf(seqs[n - 1]), hist);
      SoundNext(seqs, n - 1, hist);
      ResolvedOf(seqs[n - 1], RepsAfter(seqs, n - 1, hist));
    }
  }

  lemma SoundNext(seqs: seq<Seq>, n: nat, hist: Reps)
    requires n < |seqs| && Sound(seqs, n + 1, hist)
    ensures var rep, s := RepsAfter(seqs, n, hist), seqs[n];
            && rep.r0 >= 1 && 1 <= s.offBase < 0x1_0000_0000 && UpdateRep(rep, s.offBase, s.litLen == 0).r0 != 0
            && RepsAfter(seqs, n + 1, hist) == UpdateRep(rep, s.offBase, s.litLen == 0)
            && DecodedSeqs(seqs, n + 1, hist)
               == DecodedSeqs(seqs, n, hist) + [Decoded(s.litLen, s.mlBase + 3, RepsAfter(seqs, n + 1, hist).r0)]
  {
    hide UpdateRep;
  }

  lemma ResolvedOf(s: Seq, rep: Reps)
    requires rep.r0 >= 1 && 1 <= s.offBase < 0x1_0000_0000 && UpdateRep(rep, s.offBase, s.litLen == 0).r0 != 0
    ensures Resolved(RawOf(s), rep) == UpdateRep(rep, s.offBase, s.litLen == 0)
    ensures RawOf(s).ll == s.litLen && RawOf(s).ml == s.mlBase + 3
  {
    hide UpdateRep, DecodeOffset, OffCode, OfBase, Low;
    SidesAgree(rep, s.offBase, s.litLen == 0);
  }

  /** What `EncodeSequences` writes, `DecodeSequences` reads: the same literal
      lengths, match lengths and offset codes, every bit consumed; and unless
      one resolves to 0, the offsets and the history the encoder kept. */
  lemma SectionRoundTrip(c: Coders, seqs: seq<Seq>, bytes: seq<Byte>, hist: Reps)
    requires Encodable(c, seqs) && Marked(bytes, Stream(c, seqs))
    ensures TablesOf(c).Valid() && Openable(bytes)
    ensures DecodeStream(TablesOf(c), Payload(bytes), |seqs|) == Some(RawsFrom(seqs, 0))
    ensures Sound(seqs, |seqs|, hist) ==>
              ResolveAll(RawsFrom(seqs, 0), hist) == (DecodedSeqs(seqs, |seqs|, hist), RepsAfter(seqs, |seqs|, hist))
  {
    hide DecodeStream, Stream, ResolveAll, DecodedSeqs, RepsAfter, Sound;
    MarkedOpens(bytes, Stream(c, seqs));
    StreamDecodes(c, seqs);
    if Sound(seqs, |seqs|, hist) {
      ResolvesTo(seqs, |seqs|, hist);
    }
    assert RawsFrom(seqs, 0)[..|seqs|] == RawsFrom(seqs, 0);
  }
}
