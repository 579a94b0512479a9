/** Repeat offsets relative to a block's start, as the parallel decoder keeps
    them before that start is known, and their resolution. */
module RelOffsets {
  import opened RepCodes
  import opened SeqDecoder

  const WORD: nat := 0x1_0000_0000
  const REL_BIAS: nat := 0x8000_0000
  const REL_NONE: nat := 3 * WORD
  const WORD64: nat := 0x1_0000_0000_0000_0000

  /** `from << 32 | off`. */
  function From(e: nat): nat { e / WORD }
  function Off(e: nat): nat { e % WORD }

  datatype Rels = Rels(e0: nat, e1: nat, e2: nat) {
    function New(offset: nat): Rels { Rels(REL_NONE + offset, e0, e1) }

    function Code0(ll0: bool): Rels { if ll0 then Rels(e1, e0, e2) else this }

    /** Repeat offset `o` in 1..=3, 3 the first less one, wrapping. */
    function Code1(o: nat): Rels {
      var temp := if o == 3 then (e0 + WORD64 - 1) % WORD64 else if o == 1 then e1 else e2;
      Rels(temp, e0, if o != 1 then e1 else e2)
    }

    /** The offset part of `decode_rel_sequence`; `e0` is then its entry. */
    function Next(raw: Raw): Rels {
      if raw.ofBits > 1 then New(raw.ofBase + raw.ofExtra)
      else if raw.ofBits == 0 then Code0(raw.ll0)
      else Code1(1 + (if raw.ll0 then 1 else 0) + raw.ofExtra)
    }
  }

  function Start(): Rels { Rels(REL_BIAS, WORD + REL_BIAS, 2 * WORD + REL_BIAS) }

  /** `RelReps`. */
  class RelReps {
    var h: array<nat>

    ghost predicate Valid()
      reads this
    {
      h.Length == 3
    }

    ghost function Value(): Rels
      reads this, h
      requires Valid()
    {
      Rels(h[0], h[1], h[2])
    }

    constructor ()
      ensures Valid() && fresh(h) && Value() == Start()
    {
      h := new nat[3](k => if 0 <= k then k * WORD + REL_BIAS else 0);
    }

    method NewOffset(offset: nat) returns (o: nat)
      requires Valid() && offset < WORD
      modifies h
      ensures Value() == old(Value()).New(offset) && o == Value().e0
    {
      o := REL_NONE + offset;
      h[0], h[1], h[2] := o, h[0], h[1];
    }

    method Code0(ll0: nat) returns (o: nat)
      requires Valid() && ll0 <= 1
      modifies h
      ensures Value() == old(Value()).Code0(ll0 == 1) && o == Value().e0
    {
      o := h[ll0];
      h[1] := h[1 - ll0];
      h[0] := o;
    }

    method Code1(o: nat) returns (temp: nat)
      requires Valid() && 1 <= o <= 3
      modifies h
      ensures Value() == old(Value()).Code1(o) && temp == Value().e0
    {
      temp := if o == 3 then (h[0] + WORD64 - 1) % WORD64 else h[o];
      if o != 1 {
        h[2] := h[1];
      }
      h[1] := h[0];
      h[0] := temp;
    }
  }

  // Resolution

  function At(base: Reps, k: nat): nat { if k == 0 then base.r0 else if k == 1 then base.r1 else base.r2 }

  /** `RelBase::resolve`, in 32 bits. */
  function Resolve(base: Reps, e: nat): nat {
    var from := From(e) % 4;
    ((if from == 3 then 0 else (At(base, from) + WORD - REL_BIAS) % WORD) + Off(e)) % WORD
  }

  /** `RelBase::offset`: an offset of 0 becomes one that execution rejects. */
  function OffsetOf(base: Reps, e: nat): nat {
    if Resolve(base, e) == 0 then USIZE_MAX else Resolve(base, e)
  }

  function HistOf(base: Reps, r: Rels): Reps { Reps(Resolve(base, r.e0), Resolve(base, r.e1), Resolve(base, r.e2)) }

  predicate InWord(v: nat) { 1 <= v < WORD }

  predicate Usable(base: Reps) { InWord(base.r0) && InWord(base.r1) && InWord(base.r2) }

  /** `e` is worth `v`, after at most `n` decrements. */
  predicate Stands(e: nat, v: int, base: Reps, n: nat) {
    && From(e) <= 3 && 0 <= v < WORD
    && if From(e) == 3 then v == Off(e)
       else REL_BIAS - n <= Off(e) <= REL_BIAS && v == At(base, From(e)) - (REL_BIAS - Off(e))
  }

  lemma StandsResolves(e: nat, v: int, base: Reps, n: nat)
    requires Stands(e, v, base, n) && Usable(base)
    ensures Resolve(base, e) == v
  {
  }

  ghost predicate AllStand(r: Rels, h: Reps, base: Reps, n: nat) {
    && Stands(r.e0, h.r0, base, n) && Stands(r.e1, h.r1, base, n) && Stands(r.e2, h.r2, base, n)
    && Usable(h)
  }

  /** What the table of offset codes gives: from 2 bits on a nonzero offset. */
  predicate Fits(raw: Raw) {
    && (raw.ofBits > 1 ==> 1 <= raw.ofBase + raw.ofExtra < WORD)
    && (raw.ofBits == 1 ==> raw.ofExtra <= 1)
  }

  /** A decrement never borrows from `from`, and the new entry is worth the
      serial decoder's new first offset, or 0 for one it rejects. */
  lemma StepStands(r: Rels, h: Reps, base: Reps, n: nat, raw: Raw)
    requires AllStand(r, h, base, n) && Usable(base) && Fits(raw) && n + 1 < REL_BIAS
    ensures OffsetOf(base, r.Next(raw).e0) == Resolved(raw, h).r0
    ensures Resolved(raw, h).r0 != USIZE_MAX ==> AllStand(r.Next(raw), Resolved(raw, h), base, n + 1)
  {
    hide Resolve, Usable, Rels.Next, Resolved, Stands;
    var next, want := r.Next(raw), Resolved(raw, h);
    if raw.ofBits > 1 {
      NewStands(r, h, base, n, raw);
    } else if raw.ofBits == 0 {
      RepStands(r, h, base, n, raw);
    } else {
      CodedStands(r, h, base, n, raw);
    }
    StandsResolves(next.e0, if want.r0 == USIZE_MAX then 0 else want.r0, base, n + 1);
  }

  /** What a step has to keep: the new first entry stands, and all do unless it is corrupt. */
  ghost predicate Kept(r: Rels, h: Reps, base: Reps, n: nat) {
    && Stands(r.e0, if h.r0 == USIZE_MAX then 0 else h.r0, base, n)
    && (h.r0 == USIZE_MAX || InWord(h.r0))
    && (h.r0 != USIZE_MAX ==> AllStand(r, h, base, n))
  }

  lemma NewStands(r: Rels, h: Reps, base: Reps, n: nat, raw: Raw)
    requires AllStand(r, h, base, n) && Fits(raw) && n + 1 < REL_BIAS && raw.ofBits > 1
    ensures Kept(r.Next(raw), Resolved(raw, h), base, n + 1)
  {
  }

  lemma RepStands(r: Rels, h: Reps, base: Reps, n: nat, raw: Raw)
    requires AllStand(r, h, base, n) && n + 1 < REL_BIAS && raw.ofBits == 0
    ensures Kept(r.Next(raw), Resolved(raw, h), base, n + 1)
  {
  }

  lemma CodedStands(r: Rels, h: Reps, base: Reps, n: nat, raw: Raw)
    requires AllStand(r, h, base, n) && Fits(raw) && n + 1 < REL_BIAS && raw.ofBits == 1
    ensures Kept(r.Next(raw), Resolved(raw, h), base, n + 1)
  {
    hide Rels.Next, Resolved, Kept, AllStand;
    if 1 + (if raw.ll0 then 1 else 0) + raw.ofExtra == 3 {
      ThirdStands(r, h, base, n, raw);
    } else {
      LaterStands(r, h, base, n, raw);
    }
  }

  lemma LaterStands(r: Rels, h: Reps, base: Reps, n: nat, raw: Raw)
    requires AllStand(r, h, base, n) && Fits(raw) && n + 1 < REL_BIAS && raw.ofBits == 1
    requires 1 + (if raw.ll0 then 1 else 0) + raw.ofExtra != 3
    ensures Kept(r.Next(raw), Resolved(raw, h), base, n + 1)
  {
  }

  /** The one code that takes a decrement. */
  lemma ThirdStands(r: Rels, h: Reps, base: Reps, n: nat, raw: Raw)
    requires AllStand(r, h, base, n) && Fits(raw) && n + 1 < REL_BIAS && raw.ofBits == 1
    requires 1 + (if raw.ll0 then 1 else 0) + raw.ofExtra == 3
    ensures Kept(r.Next(raw), Resolved(raw, h), base, n + 1)
  {
    Decrement(r.e0, h.r0, base, n);
  }

  lemma Decrement(e: nat, v: nat, base: Reps, n: nat)
    requires Stands(e, v, base, n) && v >= 1 && n + 1 < REL_BIAS
    ensures (e + WORD64 - 1) % WORD64 == e - 1 && Stands(e - 1, v - 1, base, n + 1)
  {
    assert e < 4 * WORD && Off(e) >= 1;
    assert From(e - 1) == From(e) && Off(e - 1) == Off(e) - 1;
  }

  /** The entries of a block's sequences, and the history after them. */
  function RelAll(raws: seq<Raw>): (seq<nat>, Rels)
    decreases |raws|
  {
    if raws == [] then ([], Start())
    else
      var (before, r) := RelAll(raws[..|raws| - 1]);
      var next := r.Next(raws[|raws| - 1]);
      (before + [next.e0], next)
  }

  /** None of the first `n` is corrupt. */
  ghost predicate Clean(ds: seq<Decoded>, n: nat)
    requires n <= |ds|
  {
    forall j :: 0 <= j < n ==> ds[j].offset != USIZE_MAX
  }

  /** Every entry, up to and with the first corrupt one, is worth its offset. */
  ghost predicate Worth(base: Reps, es: seq<nat>, ds: seq<Decoded>) {
    |es| == |ds| && forall i :: 0 <= i < |ds| ==> (Clean(ds, i) ==> OffsetOf(base, es[i]) == ds[i].offset)
  }

  lemma CleanOn(ds: seq<Decoded>, d: Decoded, n: nat)
    requires n <= |ds|
    ensures Clean(ds + [d], n) <==> Clean(ds, n)
    ensures Clean(ds + [d], |ds| + 1) <==> Clean(ds, |ds|) && d.offset != USIZE_MAX
  {
    var all := ds + [d];
    assert forall j :: 0 <= j < |ds| ==> all[j] == ds[j];
    assert all[|ds|] == d;
  }

  lemma WorthOn(base: Reps, es: seq<nat>, ds: seq<Decoded>, e: nat, d: Decoded)
    requires Worth(base, es, ds) && (Clean(ds, |ds|) ==> OffsetOf(base, e) == d.offset)
    ensures Worth(base, es + [e], ds + [d])
  {
    hide OffsetOf, Clean;
    var all, more := ds + [d], es + [e];
    forall i | 0 <= i < |all| ensures Clean(all, i) ==> OffsetOf(base, more[i]) == all[i].offset {
      CleanOn(ds, d, i);
      if i < |ds| {
        assert more[i] == es[i] && all[i] == ds[i];
      }
    }
  }

  lemma RelOneMore(rest: seq<Raw>, raw: Raw)
    ensures var (es, r) := RelAll(rest); RelAll(rest + [raw]) == (es + [r.Next(raw).e0], r.Next(raw))
  {
    assert (rest + [raw])[..|rest|] == rest;
  }

  /** Up to and with the first corrupt one, every offset resolves to the serial
      decoder's; without a corrupt one, so does the history. */
  lemma {:induction false} ResolvesSerial(raws: seq<Raw>, base: Reps)
    requires |raws| < REL_BIAS && Usable(base) && forall i :: 0 <= i < |raws| ==> Fits(raws[i])
    ensures |ResolveAll(raws, base).0| == |raws| && Worth(base, RelAll(raws).0, ResolveAll(raws, base).0)
    ensures Clean(ResolveAll(raws, base).0, |raws|) ==>
              && AllStand(RelAll(raws).1, ResolveAll(raws, base).1, base, |raws|)
              && HistOf(base, RelAll(raws).1) == ResolveAll(raws, base).1
    decreases |raws|
  {
    hide Rels.Next, Resolved, OffsetOf, HistOf, AllStand, Fits, Usable, RelAll, ResolveAll, Clean, Worth;
    if raws == [] {
      ResolvesNone(base);
    } else {
      var n := |raws| - 1;
      var rest, raw := raws[..n], raws[n];
      ResolvesSerial(rest, base);
      ResolvesOne(rest, raw, base);
      assert rest + [raw] == raws;
    }
  }

  lemma ResolvesNone(base: Reps)
    requires Usable(base)
    ensures RelAll([]) == ([], Start()) && ResolveAll([], base) == ([], base) && Worth(base, [], []) && HistOf(base, Start()) == base
    ensures AllStand(Start(), base, base, 0)
  {
    StartStands(base);
    AllResolve(Start(), base, base, 0);
  }

  lemma ResolvesOne(rest: seq<Raw>, raw: Raw, base: Reps)
    requires |rest| + 1 < REL_BIAS && Usable(base) && Fits(raw)
    requires |ResolveAll(rest, base).0| == |rest| && Worth(base, RelAll(rest).0, ResolveAll(rest, base).0)
    requires Clean(ResolveAll(rest, base).0, |rest|) ==> AllStand(RelAll(rest).1, ResolveAll(rest, base).1, base, |rest|)
    ensures var (ds, h) := ResolveAll(rest + [raw], base);
            && |ds| == |rest| + 1 && Worth(base, RelAll(rest + [raw]).0, ds)
            && (Clean(ds, |rest| + 1) ==>
                  AllStand(RelAll(rest + [raw]).1, h, base, |rest| + 1) && HistOf(base, RelAll(rest + [raw]).1) == h)
  {
    hide Rels.Next, Resolved, OffsetOf, HistOf, AllStand, Fits, Worth, Clean, RelAll, ResolveAll, Usable;
    var (ds, h) := ResolveAll(rest, base);
    var (es, r) := RelAll(rest);
    var d := Decoded(raw.ll, raw.ml, Resolved(raw, h).r0);
    ResolveOneMore(rest, raw, base);
    RelOneMore(rest, raw);
    if Clean(ds, |rest|) {
      StepStands(r, h, base, |rest|, raw);
      if d.offset != USIZE_MAX {
        AllResolve(r.Next(raw), Resolved(raw, h), base, |rest| + 1);
      }
    }
    WorthOn(base, es, ds, r.Next(raw).e0, d);
    CleanOn(ds, d, |rest|);
  }

  lemma StartStands(base: Reps)
    requires Usable(base)
    ensures AllStand(Start(), base, base, 0)
  {
  }

  lemma AllResolve(r: Rels, h: Reps, base: Reps, n: nat)
    requires AllStand(r, h, base, n) && Usable(base)
    ensures HistOf(base, r) == h
  {
    StandsResolves(r.e0, h.r0, base, n);
    StandsResolves(r.e1, h.r1, base, n);
    StandsResolves(r.e2, h.r2, base, n);
  }

  // What is published at the end

  /** `decoded_all`: the offsets, and the `from`s two bits each. */
  datatype Published = Published(o0: nat, o1: nat, o2: nat, from: nat)

  function Publish(r: Rels): Published {
    Published(Off(r.e0), Off(r.e1), Off(r.e2), From(r.e0) + 4 * From(r.e1) + 16 * From(r.e2))
  }

  function Read(p: Published): Rels {
    Rels(p.from % 4 * WORD + p.o0, p.from / 4 % 4 * WORD + p.o1, p.from / 16 % 4 * WORD + p.o2)
  }

  lemma PublishedReads(r: Rels)
    requires From(r.e0) <= 3 && From(r.e1) <= 3 && From(r.e2) <= 3
    ensures Read(Publish(r)) == r
  {
    var f := Publish(r).from;
    assert f / 4 == From(r.e1) + 4 * From(r.e2) && f / 16 == From(r.e2);
  }
}
