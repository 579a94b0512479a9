/** Decoding the sequences bitstream: as a function of the stream's bits, by
    the decoder's loop, and the round trip. */
module SeqDecoder {
  import opened Options
  import opened Nums
  import opened BitSeq
  import opened Words
  import opened SeqCodes
  import opened RepCodes
  import opened FseEncoder
  import FseDecoder
  import opened BackwardReader
  import opened SeqSection

  /** One decoded sequence before its offset is resolved; `ll0` if its literal
      length starts from 0. */
  datatype Raw = Raw(ll: nat, ml: nat, ofBits: nat, ofBase: nat, ofExtra: nat, ll0: bool)

  /** The decoding tables, with what the builders and the constants bound. */
  datatype DTables = DTables(ll: seq<Cell>, of: seq<Cell>, ml: seq<Cell>, llLog: nat, ofLog: nat, mlLog: nat) {
    ghost predicate Valid() {
      && Good(ll, llLog, 9, 16) && Good(of, ofLog, 8, 31) && Good(ml, mlLog, 9, 16)
    }
  }

  ghost predicate Good(cells: seq<Cell>, log: nat, maxLog: nat, maxExtra: nat) {
    && FseDecoder.IsTable(cells, log) && log <= maxLog
    && forall u :: 0 <= u < |cells| ==> cells[u].extraBits <= maxExtra && cells[u].numBits <= log
  }

  /** The `n` bits below position `hi`, 0 when they are not all there. */
  ghost function Field(p: Bits, hi: int, n: nat): (v: nat)
    ensures v < Pow2(n)
  {
    if 0 <= hi - n && hi <= |p| then ToNat(p[hi - n..hi]) else 0
  }

  datatype DStates = DStates(ll: nat, of: nat, ml: nat)

  ghost predicate InTables(t: DTables, st: DStates) {
    st.ll < |t.ll| && st.of < |t.of| && st.ml < |t.ml|
  }

  /** The extra bits of the sequence in state `st`. */
  ghost function ExtraCount(t: DTables, st: DStates): nat
    requires InTables(t, st)
  {
    t.of[st.of].extraBits + t.ml[st.ml].extraBits + t.ll[st.ll].extraBits
  }

  /** Its fields, read from position `u` down: offset, match length, literal length. */
  ghost function RawAt(t: DTables, p: Bits, u: int, st: DStates): Raw
    requires InTables(t, st)
  {
    var l, o, m := t.ll[st.ll], t.of[st.of], t.ml[st.ml];
    Raw(l.baseValue + Field(p, u - o.extraBits - m.extraBits, l.extraBits),
        m.baseValue + Field(p, u - o.extraBits, m.extraBits),
        o.extraBits, o.baseValue, Field(p, u, o.extraBits), l.baseValue == 0)
  }

  ghost function StateCount(t: DTables, st: DStates): nat
    requires InTables(t, st)
  {
    t.ll[st.ll].numBits + t.ml[st.ml].numBits + t.of[st.of].numBits
  }

  /** The next states, read from position `u` down: literal length, match length, offset. */
  ghost function NextAt(t: DTables, p: Bits, u: int, st: DStates): (r: DStates)
    requires t.Valid() && InTables(t, st)
    ensures InTables(t, r)
  {
    var l, o, m := t.ll[st.ll], t.of[st.of], t.ml[st.ml];
    DStates(l.nextState + Field(p, u, l.numBits),
            o.nextState + Field(p, u - l.numBits - m.numBits, o.numBits),
            m.nextState + Field(p, u - l.numBits, m.numBits))
  }

  /** `n` sequences from position `u` down, if they use up exactly its bits. */
  ghost function DecodeFrom(t: DTables, p: Bits, u: int, n: nat, st: DStates): Option<seq<Raw>>
    requires t.Valid() && InTables(t, st)
    decreases n
  {
    if u < 0 then None
    else if n == 0 then if u == 0 then Some([]) else None
    else
      var v := u - ExtraCount(t, st);
      var rest :=
        if n == 1 then if v == 0 then Some([]) else None
        else DecodeFrom(t, p, v - StateCount(t, st), n - 1, NextAt(t, p, v, st));
      if rest == None then None else Some([RawAt(t, p, u, st)] + rest.value)
  }

  /** The whole section after its tables: the initial states, then the sequences. */
  ghost function DecodeStream(t: DTables, p: Bits, n: nat): Option<seq<Raw>>
    requires t.Valid()
  {
    DecodeFrom(t, p, |p| - t.llLog - t.ofLog - t.mlLog, n, StartAt(t, p))
  }

  ghost function StartAt(t: DTables, p: Bits): (st: DStates)
    requires t.Valid()
    ensures InTables(t, st)
  {
    DStates(Field(p, |p|, t.llLog), Field(p, |p| - t.llLog, t.ofLog), Field(p, |p| - t.llLog - t.ofLog, t.mlLog))
  }

  // Offsets

  datatype Decoded = Decoded(ll: nat, ml: nat, offset: nat)

  function Resolved(raw: Raw, hist: Reps): Reps {
    DecodeOffset(hist, raw.ofBits, raw.ofBase, raw.ofExtra, raw.ll0)
  }

  // The decoder's loop

  /** Where a read may start: all the rest loaded, or at least 57 bits. */
  ghost predicate Fresh(br: BitDStream)
    reads br
  {
    br.Valid() && (br.ptr == 0 || br.bitsConsumed <= 7)
  }

  /** A field of any number of bits, none included. */
  method ReadField(br: BitDStream, n: nat) returns (v: nat)
    requires br.Valid() && n <= 56 && br.Loaded(n)
    modifies br`bitsConsumed
    ensures br.Valid() && br.Unread() == old(br.Unread()) - n && br.bitsConsumed == old(br.bitsConsumed) + n
    ensures v < Pow2(n) && (br.Unread() >= 0 ==> v == Field(Payload(br.src), old(br.Unread()), n))
  {
    v := 0;
    if n > 0 {
      v := br.ReadBitsFast(n);
    } else {
      assert Pow2(0) == 1;
    }
  }

  /** The extra bits of one sequence, reloading between them only if they
      could leave too little for the states. */
  method ReadExtras(br: BitDStream, t: DTables, st: DStates) returns (raw: Raw)
    requires Fresh(br) && t.Valid() && InTables(t, st)
    modifies br
    ensures br.Valid() && br.Unread() == old(br.Unread()) - ExtraCount(t, st)
    ensures br.ptr == 0 || br.bitsConsumed + 26 <= 64
    ensures br.Unread() >= 0 ==> raw == RawAt(t, Payload(br.src), old(br.Unread()), st)
  {
    hide Field, Payload, Pow2, BitDStream.Valid;
    var l, o, m := t.ll[st.ll], t.of[st.of], t.ml[st.ml];
    var totalBits := l.extraBits + m.extraBits + o.extraBits;
    var ofExtra := ReadField(br, o.extraBits);
    var mlExtra := ReadField(br, m.extraBits);
    if totalBits >= 57 - 26 {
      var _ := br.Reload();
    }
    var llExtra := ReadField(br, l.extraBits);
    raw := Raw(l.baseValue + llExtra, m.baseValue + mlExtra, o.extraBits, o.baseValue, ofExtra, l.baseValue == 0);
  }

  /** The three state updates. */
  method ReadStates(br: BitDStream, t: DTables, st: DStates) returns (next: DStates)
    requires br.Valid() && (br.ptr == 0 || br.bitsConsumed + 26 <= 64) && t.Valid() && InTables(t, st)
    modifies br
    ensures Fresh(br) && br.Unread() == old(br.Unread()) - StateCount(t, st) && InTables(t, next)
    ensures br.Unread() >= 0 ==> next == NextAt(t, Payload(br.src), old(br.Unread()), st)
  {
    hide Field, Payload, Pow2, BitDStream.Valid;
    var l, o, m := t.ll[st.ll], t.of[st.of], t.ml[st.ml];
    var llRead := ReadField(br, l.numBits);
    var mlRead := ReadField(br, m.numBits);
    var ofRead := ReadField(br, o.numBits);
    next := DStates(l.nextState + llRead, o.nextState + ofRead, m.nextState + mlRead);
    var _ := br.Reload();
  }

  /** The initial states, a reload after each. */
  method ReadStart(br: BitDStream, t: DTables) returns (st: DStates)
    requires br.Valid() && br.Loaded(56) && t.Valid() && br.Unread() == |Payload(br.src)|
    modifies br
    ensures Fresh(br) && br.Unread() == old(br.Unread()) - t.llLog - t.ofLog - t.mlLog && InTables(t, st)
    ensures br.Unread() >= 0 ==> st == StartAt(t, Payload(br.src))
  {
    hide Field, Payload, Pow2, BitDStream.Valid;
    var ll := ReadReload(br, t.llLog);
    var of := ReadReload(br, t.ofLog);
    var ml := ReadReload(br, t.mlLog);
    st := DStates(ll, of, ml);
  }

  method ReadReload(br: BitDStream, n: nat) returns (v: nat)
    requires br.Valid() && br.Loaded(56) && n <= 56
    modifies br
    ensures Fresh(br) && br.Loaded(56) && br.Unread() == old(br.Unread()) - n
    ensures v < Pow2(n) && (br.Unread() >= 0 ==> v == Field(Payload(br.src), old(br.Unread()), n))
  {
    v := ReadField(br, n);
    var _ := br.Reload();
  }

  /** The sequences as executed: lengths and offset of each, and the history after. */
  function ResolveAll(raws: seq<Raw>, hist: Reps): (seq<Decoded>, Reps)
    decreases |raws|
  {
    if raws == [] then ([], hist)
    else
      var (before, h) := ResolveAll(raws[..|raws| - 1], hist);
      var raw := raws[|raws| - 1];
      (before + [Decoded(raw.ll, raw.ml, Resolved(raw, h).r0)], Resolved(raw, h))
  }

  /** One more sequence onto the ones resolved. */
  lemma ResolveOneMore(raws: seq<Raw>, raw: Raw, hist: Reps)
    ensures var (before, h) := ResolveAll(raws, hist);
            ResolveAll(raws + [raw], hist)
            == (before + [Decoded(raw.ll, raw.ml, Resolved(raw, h).r0)], Resolved(raw, h))
  {
    var all := raws + [raw];
    assert all[..|all| - 1] == raws && all[|all| - 1] == raw;
  }

  /** One sequence of the main loop, the states updated after it. */
  method DecodeOne(br: BitDStream, t: DTables, st: DStates, k: nat, ghost raws: seq<Raw>)
    returns (raw: Raw, next: DStates)
    requires Fresh(br) && t.Valid() && InTables(t, st) && k > 1
    modifies br
    ensures Fresh(br) && InTables(t, next)
    ensures Then(raws, DecodeFrom(t, Payload(br.src), old(br.Unread()), k, st))
            == Then(raws + [raw], DecodeFrom(t, Payload(br.src), br.Unread(), k - 1, next))
  {
    hide Field, Payload, DecodeFrom, RawAt, NextAt, Then;
    ghost var u := br.Unread();
    raw := ReadExtras(br, t, st);
    next := ReadStates(br, t, st);
    DecodeStep(t, Payload(br.src), u, k, st, raws, raw, next);
  }

  /** The last sequence, whose states are not updated. */
  method DecodeFinal(br: BitDStream, t: DTables, st: DStates, ghost raws: seq<Raw>) returns (raw: Raw, ok: bool)
    requires Fresh(br) && t.Valid() && InTables(t, st)
    modifies br
    ensures Then(raws, DecodeFrom(t, Payload(br.src), old(br.Unread()), 1, st)) == if ok then Some(raws + [raw]) else None
  {
    ghost var u := br.Unread();
    raw := ReadExtras(br, t, st);
    DecodeLast(t, Payload(br.src), u, st, raws, raw);
    ok := br.IsFinished();
  }

  /** The sequences loop of `run_sequences`, for any bytes: it accepts exactly
      the streams whose bits `DecodeStream` uses up, and gives what that gives. */
  method DecodeSequences(t: DTables, src: seq<Byte>, n: nat, hist: Reps)
    returns (ok: bool, out: seq<Decoded>, end: Reps)
    requires t.Valid() && n >= 1
    ensures ok <==> Openable(src) && DecodeStream(t, Payload(src), n) != None
    ensures ok ==> (out, end) == ResolveAll(DecodeStream(t, Payload(src), n).value, hist)
  {
    out, end := [], hist;
    if !Openable(src) {
      return false, out, end;
    }
    var br := new BitDStream(src);
    var st := ReadStart(br, t);
    ghost var raws: seq<Raw> := [];
    ghost var p, whole := Payload(src), DecodeStream(t, Payload(src), n);
    StartThen(t, p, n, br.Unread(), st);
    var k := n;
    var raw;
    while k > 1
      invariant 1 <= k <= n && Fresh(br) && br.src == src && InTables(t, st)
      invariant whole == Then(raws, DecodeFrom(t, p, br.Unread(), k, st))
      invariant (out, end) == ResolveAll(raws, hist)
    {
      raw, st := DecodeOne(br, t, st, k, raws);
      ResolveOneMore(raws, raw, hist);
      raws := raws + [raw];
      end := Resolved(raw, end);
      out := out + [Decoded(raw.ll, raw.ml, end.r0)];
      k := k - 1;
    }
    raw, ok := DecodeFinal(br, t, st, raws);
    ResolveOneMore(raws, raw, hist);
    end := Resolved(raw, end);
    out := out + [Decoded(raw.ll, raw.ml, end.r0)];
  }

  lemma StartThen(t: DTables, p: Bits, n: nat, u: int, st: DStates)
    requires t.Valid() && InTables(t, st) && u == |p| - t.llLog - t.ofLog - t.mlLog
    requires u >= 0 ==> st == StartAt(t, p)
    ensures DecodeStream(t, p, n) == Then([], DecodeFrom(t, p, u, n, st))
  {
    var d := DecodeFrom(t, p, u, n, st);
    if d.Some? {
      assert [] + d.value == d.value;
    }
  }

  /** What was decoded so far, before what the rest gives. */
  ghost function Then(raws: seq<Raw>, rest: Option<seq<Raw>>): Option<seq<Raw>> {
    if rest == None then None else Some(raws + rest.value)
  }

  lemma DecodeStep(t: DTables, p: Bits, u: int, k: nat, st: DStates, raws: seq<Raw>, raw: Raw, next: DStates)
    requires t.Valid() && InTables(t, st) && k > 1 && InTables(t, next)
    requires var v := u - ExtraCount(t, st);
             v - StateCount(t, st) >= 0 ==> raw == RawAt(t, p, u, st) && next == NextAt(t, p, v, st)
    ensures Then(raws, DecodeFrom(t, p, u, k, st))
            == Then(raws + [raw], DecodeFrom(t, p, u - ExtraCount(t, st) - StateCount(t, st), k - 1, next))
  {
    hide RawAt, NextAt, Field, DTables.Valid, ExtraCount, StateCount;
    var w := u - ExtraCount(t, st) - StateCount(t, st);
    var rest := DecodeFrom(t, p, w, k - 1, next);
    if w >= 0 {
      assert DecodeFrom(t, p, u, k, st) == if rest == None then None else Some([raw] + rest.value);
      ThenMore(raws, raw, rest);
    }
  }

  lemma ThenMore(raws: seq<Raw>, raw: Raw, rest: Option<seq<Raw>>)
    ensures Then(raws, if rest == None then None else Some([raw] + rest.value)) == Then(raws + [raw], rest)
  {
    if rest.Some? {
      assert raws + ([raw] + rest.value) == raws + [raw] + rest.value;
    }
  }

  lemma DecodeLast(t: DTables, p: Bits, u: int, st: DStates, raws: seq<Raw>, raw: Raw)
    requires t.Valid() && InTables(t, st)
    requires u - ExtraCount(t, st) >= 0 ==> raw == RawAt(t, p, u, st)
    ensures Then(raws, DecodeFrom(t, p, u, 1, st)) == if u == ExtraCount(t, st) then Some(raws + [raw]) else None
  {
    if u == ExtraCount(t, st) {
      assert DecodeFrom(t, p, u, 1, st) == Some([raw] + []);
      assert [raw] + [] == [raw];
    }
  }
}
