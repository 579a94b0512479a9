/** The encoder's double-buffered entropy tables and its repeat offsets, and
    the decoder's: what the encoder may repeat is always what the decoder
    holds, and the blocks give the text back. */
module EntropyLockstep {
  import opened Options
  import opened BitSeq
  import opened RepCodes
  import opened FastFinder
  import opened BlockExec
  import opened SplitOffsets

  datatype Repeat = NoTable | Check | Valid

  datatype Next = Keep | Drop | New

  /** One table, double-buffered. */
  class Slots<T> {
    var slots: seq<T>
    var cur: nat
    var mode: Repeat

    ghost predicate Ok()
      reads this
    {
      |slots| == 2 && cur < 2
    }

    /** The table that may be repeated. */
    function Held(): Option<T>
      requires Ok()
      reads this
    {
      if mode.NoTable? then None else Some(slots[cur])
    }

    function Spare(): T
      requires Ok()
      reads this
    {
      slots[1 - cur]
    }

    constructor (first: T, second: T, mode: Repeat)
      ensures Ok() && this.mode == mode && Held() == (if mode.NoTable? then None else Some(first))
    {
      slots, cur, this.mode := [first, second], 0, mode;
    }

    /** A coder writes the spare slot. */
    method Build(table: T)
      requires Ok()
      modifies this`slots
      ensures Ok() && Held() == old(Held()) && Spare() == table
    {
      slots := slots[1 - cur := table];
    }

    method Commit(next: Next)
      requires Ok()
      modifies this`cur, this`mode
      ensures Ok() && slots == old(slots)
      ensures match next
              case Keep => Held() == old(Held()) && mode == old(mode)
              case Drop => Held() == None
              case New => Held() == Some(old(Spare())) && mode == Check
    {
      match next {
        case Keep =>
        case Drop => mode := NoTable;
        case New => cur, mode := 1 - cur, Check;
      }
    }

    /** A `Valid` table becomes `Check`. */
    method DemoteValid()
      requires Ok()
      modifies this`mode
      ensures Ok() && Held() == old(Held()) && mode == (if old(mode).Valid? then Check else old(mode))
    {
      if mode == Valid {
        mode := Check;
      }
    }

    /** A copy of what `from` holds, into the slot this one holds its table in. */
    method Load(from: Slots<T>)
      requires Ok() && from.Ok()
      modifies this
      ensures Ok() && Held() == old(from.Held()) && mode == old(from.mode)
    {
      mode := from.mode;
      if from.mode != NoTable {
        slots := slots[cur := from.slots[from.cur]];
      }
    }
  }

  // What a section says about a table, and the decoder's side

  datatype Section<T> = Untouched | Described(table: T) | Predefined(table: T) | Repeated

  /** The decoder's table after the section; `None` rejects it. */
  function Decode<T>(held: Option<T>, s: Section<T>): Option<Option<T>> {
    match s
    case Untouched => Some(held)
    case Described(x) => Some(Some(x))
    case Predefined(x) => Some(Some(x))
    case Repeated => if held == None then None else Some(held)
  }

  /** Whatever the encoder may repeat, the decoder holds. */
  ghost predicate InStep<T>(enc: Option<T>, dec: Option<T>) { enc.Some? ==> dec == enc }

  /** A section and what it commits fit, for a table held so and a spare. */
  ghost predicate Fits<T>(held: Option<T>, spare: T, s: Section<T>, next: Next) {
    match s
    case Untouched => next == Keep
    case Described(x) => next == New && x == spare
    case Predefined(_) => next == Drop
    case Repeated => next == Keep && held.Some?
  }

  function AfterCommit<T>(held: Option<T>, spare: T, next: Next): Option<T> {
    match next case Keep => held case Drop => None case New => Some(spare)
  }

  /** The decoder accepts such a section, and stays in step. */
  lemma SectionKeepsStep<T>(enc: Option<T>, dec: Option<T>, spare: T, s: Section<T>, next: Next)
    requires InStep(enc, dec) && Fits(enc, spare, s, next)
    ensures Decode(dec, s).Some? && InStep(AfterCommit(enc, spare, next), Decode(dec, s).value)
  {
  }

  // The coders

  /** The outcomes of the literal coder's tests, whatever they are. */
  datatype LitTests = LitTests(attempted: bool, early: bool, preferRepeat: bool, covers: bool, builds: bool, oldCheaper: bool,
                               descriptionTooLong: bool, gains: bool)

  /** `compress_literals_with`: only a table held is repeated, and only a table
      just built in the spare slot is described. */
  method CodeLiterals<T>(huf: Slots<T>, tests: LitTests, table: T) returns (s: Section<T>, next: Next)
    requires huf.Ok()
    modifies huf`slots
    ensures huf.Ok() && huf.Held() == old(huf.Held()) && Fits(huf.Held(), huf.Spare(), s, next) && !s.Predefined?
  {
    s, next := Untouched, Keep;
    if !tests.attempted {
      return;
    }
    var repeat := huf.mode;
    var size := false;
    if tests.preferRepeat && repeat == Valid {
      size := true;
    } else if !tests.early {
      if repeat == Check && !tests.covers {
        repeat := NoTable;
      }
      if tests.preferRepeat && repeat != NoTable {
        size := true;
      } else if tests.builds {
        huf.Build(table);
        if repeat != NoTable && tests.oldCheaper {
          size := true;
        } else if !tests.descriptionTooLong {
          repeat := NoTable;
          size := true;
        }
      }
    }
    if !size || !tests.gains {
      return;
    }
    if repeat != NoTable {
      s := Repeated;
    } else {
      s, next := Described(table), New;
    }
  }

  datatype EncodingType = Basic | Rle | Compressed | RepeatTable

  /** The inputs of `select_encoding_type`: a cost that is an error is none. */
  datatype TypeTests = TypeTests(oneCode: bool, fewSequences: bool, defaultAllowed: bool, fast: bool, belowStatic: bool,
                                 belowDynamic: bool, basicCost: nat, repeatCost: Option<nat>, compressedCost: Option<nat>)

  const NO_COST: nat := 0xFFFF_FFFF_FFFF_FFFF

  /** `select_encoding_type`: the type, and the mode it leaves. */
  function SelectType(mode: Repeat, t: TypeTests): (r: (EncodingType, Repeat))
    ensures r.0.RepeatTable? ==> mode != NoTable && r.1 == mode
    ensures r.0.Compressed? ==> r.1 == Check
    ensures r.0.Basic? || r.0.Rle? ==> r.1 == NoTable
  {
    if t.oneCode then (if t.defaultAllowed && t.fewSequences then Basic else Rle, NoTable)
    else if t.fast then
      if t.defaultAllowed && mode == Valid && t.belowStatic then (RepeatTable, mode)
      else if t.defaultAllowed && t.belowDynamic then (Basic, NoTable)
      else (Compressed, Check)
    else
      var repeatCost := if mode == NoTable then None else t.repeatCost;
      var repeatOrMax := if repeatCost == None then NO_COST else repeatCost.value;
      var compressedOrMax := if t.compressedCost == None then NO_COST else t.compressedCost.value;
      if t.defaultAllowed && t.basicCost <= repeatOrMax && t.basicCost <= compressedOrMax then (Basic, NoTable)
      else if repeatCost != None && repeatCost.value <= compressedOrMax then (RepeatTable, mode)
      else (Compressed, Check)
  }

  /** One sequence table: `None` where its build fails. */
  method CodeTable<T>(fse: Slots<T>, tests: TypeTests, builds: bool, table: T) returns (ok: bool, s: Section<T>, next: Next)
    requires fse.Ok()
    modifies fse`slots
    ensures fse.Ok() && fse.Held() == old(fse.Held()) && (ok ==> Fits(fse.Held(), fse.Spare(), s, next))
  {
    var (ty, _) := SelectType(fse.mode, tests);
    ok, s, next := true, Repeated, Keep;
    match ty {
      case RepeatTable =>
      case Basic => fse.Build(table); s, next := Predefined(table), Drop;
      case Rle => fse.Build(table); s, next := Predefined(table), Drop;
      case Compressed => fse.Build(table); ok, s, next := builds, Described(table), New;
    }
  }

  // Blocks

  datatype Dec<T> = Dec(huf: Option<T>, ll: Option<T>, of: Option<T>, ml: Option<T>, rep: Reps, out: seq<Byte>)

  /** A block as written: RAW and RLE blocks say nothing about tables. */
  datatype Block<T> =
    | RawBlock(bytes: seq<Byte>)
    | RleBlock(byte: Byte, len: nat)
    | CompressedBlock(huf: Section<T>, ll: Section<T>, of: Section<T>, ml: Section<T>, seqs: seq<Stored>, lits: seq<Byte>)

  function DecodeBlock<T>(d: Dec<T>, b: Block<T>): Option<Dec<T>> {
    match b
    case RawBlock(bytes) => Some(d.(out := d.out + bytes))
    case RleBlock(byte, len) => Some(d.(out := d.out + seq(len, _ => byte)))
    case CompressedBlock(huf, ll, of, ml, seqs, lits) =>
      match (Decode(d.huf, huf), Decode(d.ll, ll), Decode(d.of, of), Decode(d.ml, ml))
      case (Some(h), Some(l), Some(o), Some(m)) =>
        (match ExecBlock(d.out, d.rep, seqs, lits)
         case None => None
         case Some((out, rep)) => Some(Dec(h, l, o, m, rep, out)))
      case _ => None
  }

  /** The decoder over a run of blocks. */
  function DecodeAll<T>(d: Dec<T>, blocks: seq<Block<T>>): Option<Dec<T>> {
    if blocks == [] then Some(d)
    else
      match DecodeAll(d, blocks[..|blocks| - 1])
      case None => None
      case Some(e) => DecodeBlock(e, blocks[|blocks| - 1])
  }

  lemma OneBlockMore<T>(d: Dec<T>, blocks: seq<Block<T>>, b: Block<T>)
    requires DecodeAll(d, blocks).Some?
    ensures DecodeAll(d, blocks + [b]) == DecodeBlock(DecodeAll(d, blocks).value, b)
  {
    assert (blocks + [b])[..|blocks|] == blocks;
  }

  /** `is_rle`. */
  predicate IsRle(data: seq<Byte>) { data != [] && forall i :: 0 <= i < |data| ==> data[i] == data[0] }

  /** What decides one block: tests, the tables built, whether the payload
      gains, and whether it is short enough for an RLE block to be tried. */
  datatype Choice<T> = Choice(lit: LitTests, types: (TypeTests, TypeTests, TypeTests), builds: (bool, bool, bool),
                              tables: (T, T, T, T), gains: bool, small: bool)

  class BlockState<T> {
    const huf: Slots<T>
    const ll: Slots<T>
    const of: Slots<T>
    const ml: Slots<T>
    var rep: Reps

    /** Whether the finders keep the third offset; the fast ones do not. */
    ghost const third: bool

    ghost predicate Ok()
      reads this, huf, ll, of, ml
    {
      && huf.Ok() && ll.Ok() && of.Ok() && ml.Ok()
      && huf != ll && huf != of && huf != ml && ll != of && ll != ml && of != ml
    }

    /** The decoder holds what may be repeated: the tables, and the offsets as
        far as they are known. */
    ghost predicate Lockstep(d: Dec<T>)
      requires Ok()
      reads this, huf, ll, of, ml
    {
      && InStep(huf.Held(), d.huf) && InStep(ll.Held(), d.ll) && InStep(of.Held(), d.of) && InStep(ml.Held(), d.ml)
      && Knows(rep, d.rep, third) && Small(rep)
    }

    constructor (huf: Slots<T>, ll: Slots<T>, of: Slots<T>, ml: Slots<T>, rep: Reps, ghost third: bool)
      ensures this.huf == huf && this.ll == ll && this.of == of && this.ml == ml && this.rep == rep && this.third == third
    {
      this.huf, this.ll, this.of, this.ml, this.rep := huf, ll, of, ml, rep;
      this.third := third;
    }

    /** `end_block`. */
    method EndBlock(committed: bool, next: (Next, Next, Next, Next), newRep: Reps)
      requires Ok()
      modifies this`rep, huf`cur, huf`mode, ll`cur, ll`mode, of`cur, of`mode, ml`cur, ml`mode
      ensures Ok() && rep == if committed then newRep else old(rep)
      ensures huf.Held() == if committed then AfterCommit(old(huf.Held()), old(huf.Spare()), next.0) else old(huf.Held())
      ensures ll.Held() == if committed then AfterCommit(old(ll.Held()), old(ll.Spare()), next.1) else old(ll.Held())
      ensures of.Held() == if committed then AfterCommit(old(of.Held()), old(of.Spare()), next.2) else old(of.Held())
      ensures ml.Held() == if committed then AfterCommit(old(ml.Held()), old(ml.Spare()), next.3) else old(ml.Held())
      ensures of.mode != Valid
    {
      if committed {
        rep := newRep;
        huf.Commit(next.0);
        ll.Commit(next.1);
        of.Commit(next.2);
        ml.Commit(next.3);
      }
      of.DemoteValid();
    }

    /** `entropy_and_emit`, for sequences and literals that give `data` to the
        decoder: whatever it chooses, the decoder takes the block, has the data
        and stays in step; a block not written COMPRESSED changes nothing held. */
    method EntropyAndEmit(c: Choice<T>, isFirstBlock: bool, data: seq<Byte>, seqs: seq<Stored>, lits: seq<Byte>, newRep: Reps,
                          ghost d: Dec<T>)
      returns (b: Block<T>)
      requires Ok() && Lockstep(d) && Small(newRep) && DataOf(d, data, seqs, lits, newRep, third)
      modifies this, huf, ll, of, ml
      ensures Ok() && DecodeBlock(d, b).Some? && Lockstep(DecodeBlock(d, b).value) && DecodeBlock(d, b).value.out == d.out + data
      ensures rep == if b.CompressedBlock? then newRep else old(rep)
      ensures !b.CompressedBlock? ==>
                && huf.Held() == old(huf.Held()) && ll.Held() == old(ll.Held())
                && of.Held() == old(of.Held()) && ml.Held() == old(ml.Held())
    {
      hide ExecBlock, Knows, Small, IsRle;
      var okAll, next, sections := CodeAll(c, seqs != []);
      var codes := okAll && c.gains;
      if !isFirstBlock && (!codes || c.small) && IsRle(data) {
        RleGives(data);
        b := RleBlock(data[0], |data|);
        EndBlock(false, next, newRep);
        return;
      }
      if codes {
        SectionKeepsStep(huf.Held(), d.huf, huf.Spare(), sections.0, next.0);
        SectionKeepsStep(ll.Held(), d.ll, ll.Spare(), sections.1, next.1);
        SectionKeepsStep(of.Held(), d.of, of.Spare(), sections.2, next.2);
        SectionKeepsStep(ml.Held(), d.ml, ml.Spare(), sections.3, next.3);
        b := CompressedBlock(sections.0, sections.1, sections.2, sections.3, seqs, lits);
      } else {
        b := RawBlock(data);
      }
      EndBlock(codes, next, newRep);
    }

    /** `emit_block`: a block as the finder left it in `store`, `built` its
        offsets then, or nothing tried; whole, or in parts behind the sequences
        `splits`, their repeat codes rewritten for the decoder. Whichever parts
        are RAW, RLE or COMPRESSED, the decoder has the text and is in step. */
    method EmitBlock(cs: seq<Choice<T>>, isFirstBlock: bool, text: seq<Byte>, start: nat, end: nat, store: SeqStore, built: Option<Reps>,
                     splits: seq<nat>, ghost d: Dec<T>)
      returns (blocks: seq<Block<T>>)
      requires Ok() && Lockstep(d) && start <= end <= |text| && d.out == text[..start] && |cs| == |splits| + 1
      requires built.Some? ==>
                 && BlockOf(d, text, start, end, store, rep, third).Valid() && Small(built.value)
                 && DataOf(d, text[start..end], store.seqs, store.lits, built.value, third) && SplitsInOrder(splits, |store.seqs|)
      modifies this, huf, ll, of, ml, store`seqs
      ensures Ok() && DecodeAll(d, blocks).Some? && Lockstep(DecodeAll(d, blocks).value) && DecodeAll(d, blocks).value.out == text[..end]
    {
      hide DataOf, DecodeBlock, Knows, Small, Whole.Valid;
      assert text[..start] + text[start..end] == text[..end];
      blocks := [];
      OneBlockMore(d, [], RawBlock(text[start..end]));
      if built.None? {
        blocks := [RawBlock(text[start..end])];
        RawGives(d, text[start..end]);
        EndBlock(false, (Keep, Keep, Keep, Keep), rep);
        assert blocks == [] + blocks;
        return;
      }
      if splits == [] {
        var b := EntropyAndEmit(cs[0], isFirstBlock, text[start..end], store.seqs, store.lits, built.value, d);
        OneBlockMore(d, [], b);
        blocks := [] + [b];
        return;
      }
      blocks := EmitParts(cs, isFirstBlock, text, start, end, store, splits, d);
    }

    /** The parts, one after the other. */
    method EmitParts(cs: seq<Choice<T>>, isFirstBlock: bool, text: seq<Byte>, start: nat, end: nat, store: SeqStore, splits: seq<nat>,
                     ghost d: Dec<T>)
      returns (blocks: seq<Block<T>>)
      requires Ok() && Lockstep(d) && start <= end <= |text| && d.out == text[..start] && |cs| == |splits| + 1
      requires BlockOf(d, text, start, end, store, rep, third).Valid() && SplitsInOrder(splits, |store.seqs|)
      modifies this, huf, ll, of, ml, store`seqs
      ensures Ok() && DecodeAll(d, blocks).Some? && Lockstep(DecodeAll(d, blocks).value) && DecodeAll(d, blocks).value.out == text[..end]
    {
      hide DataOf, DecodeBlock, Knows, Small, Whole.Valid, Whole.Found, AllKnown, LitLens, MatchLens;
      ghost var w := BlockOf(d, text, start, end, store, rep, third);
      WholeStarts(w);
      blocks := [];
      var at: nat, litAt: nat, pos: nat, k: nat := 0, 0, start, 0;
      var dRep, cRep := rep, rep;
      while k <= |splits|
        invariant 0 <= k <= |splits| + 1 && Ok() && DecodeAll(d, blocks).Some? && Lockstep(DecodeAll(d, blocks).value) && dRep == rep
        invariant start <= pos <= end && DecodeAll(d, blocks).value.out == text[..pos]
        invariant |store.seqs| == |w.seqs| && at <= |w.seqs| && store.seqs[at..] == w.seqs[at..]
        invariant if k <= |splits| then at == (if k == 0 then 0 else splits[k - 1]) && w.Found(at, litAt, pos, cRep) else pos == end
      {
        var last := k == |splits|;
        var seqEnd := if last then |store.seqs| else splits[k];
        ghost var dec := DecodeAll(d, blocks).value;
        var b, dNext;
        b, litAt, pos, dNext, cRep := EmitPart(cs[k], isFirstBlock, w, text, store, at, seqEnd, litAt, pos, dRep, cRep, last, end, dec);
        if b.CompressedBlock? {
          dRep := dNext;
        }
        OneBlockMore(d, blocks, b);
        blocks := blocks + [b];
        at, k := seqEnd, k + 1;
      }
    }

    /** One part: its codes rewritten, then coded as a block of its own. */
    method EmitPart(c: Choice<T>, isFirstBlock: bool, ghost w: Whole, text: seq<Byte>, store: SeqStore, at: nat, seqEnd: nat, litAt: nat,
                    pos: nat, dRep: Reps, cRep: Reps, last: bool, end: nat, ghost dec: Dec<T>)
      returns (b: Block<T>, litEnd: nat, posEnd: nat, dNext: Reps, cNext: Reps)
      requires Ok() && Lockstep(dec) && dRep == rep && w.Valid() && w.third == third && w.text == text && w.end == end && w.lits == store.lits
      requires at <= seqEnd <= |store.seqs| == |w.seqs| && store.seqs[at..] == w.seqs[at..] && (last ==> seqEnd == |w.seqs|)
      requires w.Found(at, litAt, pos, cRep) && pos <= |text| && dec.out == text[..pos]
      modifies this, huf, ll, of, ml, store`seqs
      ensures Ok() && DecodeBlock(dec, b).Some? && Lockstep(DecodeBlock(dec, b).value) && rep == if b.CompressedBlock? then dNext else dRep
      ensures pos <= posEnd <= end <= |text| && DecodeBlock(dec, b).value.out == text[..posEnd]
      ensures |store.seqs| == |w.seqs| && store.seqs[seqEnd..] == w.seqs[seqEnd..]
      ensures if last then posEnd == end else w.Found(seqEnd, litEnd, posEnd, cNext)
    {
      hide DataOf, DecodeBlock, Knows, Small, Whole.Valid, Whole.Found, AllKnown, ResolveTo, Gives, LitLens, MatchLens;
      PartIs(store.seqs, w.seqs, at, seqEnd);
      LockstepKnows(dec);
      PartDecodes(w, at, seqEnd, litAt, pos, cRep, dRep, dec.rep, last);
      PartFits(w, at, litAt, pos, cRep);
      litEnd := if last then |store.lits| else litAt + LitLens(store.seqs[at..seqEnd]);
      posEnd := if last then end else pos + LitLens(store.seqs[at..seqEnd]) + MatchLens(store.seqs[at..seqEnd]);
      ghost var before := store.seqs;
      dNext, cNext := ResolveOffCodes(store, at, seqEnd, dRep, cRep, third);
      PartSet(before, store.seqs, w.seqs, at, seqEnd, ResolveTo(dRep, cRep, w.seqs[at..seqEnd], seqEnd - at, third).seqs);
      PartData(w, pos, posEnd, dec, ResolveTo(dRep, cRep, w.seqs[at..seqEnd], seqEnd - at, third), store.lits[litAt..litEnd]);
      b := EntropyAndEmit(c, isFirstBlock, text[pos..posEnd], store.seqs[at..seqEnd], store.lits[litAt..litEnd], dNext, dec);
    }

    lemma LockstepKnows(d: Dec<T>)
      requires Ok() && Lockstep(d)
      ensures Knows(rep, d.rep, third) && Small(rep)
    {
    }

    /** `entropy_code`: every candidate fits what is held; building one leaves
        what is held alone. */
    method CodeAll(c: Choice<T>, sequences: bool)
      returns (ok: bool, next: (Next, Next, Next, Next), s: (Section<T>, Section<T>, Section<T>, Section<T>))
      requires Ok()
      modifies huf`slots, ll`slots, of`slots, ml`slots
      ensures Ok() && huf.Held() == old(huf.Held()) && ll.Held() == old(ll.Held())
      ensures of.Held() == old(of.Held()) && ml.Held() == old(ml.Held())
      ensures ok ==> Fits(huf.Held(), huf.Spare(), s.0, next.0) && Fits(ll.Held(), ll.Spare(), s.1, next.1)
      ensures ok ==> Fits(of.Held(), of.Spare(), s.2, next.2) && Fits(ml.Held(), ml.Spare(), s.3, next.3)
    {
      var h, hn := CodeLiterals(huf, c.lit, c.tables.0);
      if !sequences {
        return true, (hn, Keep, Keep, Keep), (h, Untouched, Untouched, Untouched);
      }
      var ok1, s1, n1 := CodeTable(ll, c.types.0, c.builds.0, c.tables.1);
      var ok2, s2, n2 := CodeTable(of, c.types.1, c.builds.1, c.tables.2);
      var ok3, s3, n3 := CodeTable(ml, c.types.2, c.builds.2, c.tables.3);
      return ok1 && ok2 && ok3, (hn, n1, n2, n3), (h, s1, s2, s3);
    }
  }

  /** The sequences and literals give `data` to the decoder, which then knows
      what `newRep` says. */
  ghost predicate DataOf<T>(d: Dec<T>, data: seq<Byte>, seqs: seq<Stored>, lits: seq<Byte>, newRep: Reps, third: bool) {
    match ExecBlock(d.out, d.rep, seqs, lits)
    case None => false
    case Some((out, rep)) => out == d.out + data && Knows(newRep, rep, third)
  }

  ghost function BlockOf<T>(d: Dec<T>, text: seq<Byte>, start: nat, end: nat, store: SeqStore, known: Reps, third: bool): Whole
    reads store
  {
    Whole(text, start, end, d.rep, known, store.seqs, store.lits, third)
  }

  /** Where a block may be split: behind sequences, in order. */
  predicate SplitsInOrder(splits: seq<nat>, n: nat) {
    && (forall k :: 0 <= k < |splits| ==> splits[k] <= n)
    && forall k :: 0 <= k < |splits| - 1 ==> splits[k] <= splits[k + 1]
  }

  lemma RleGives(data: seq<Byte>)
    requires IsRle(data)
    ensures data != [] && seq(|data|, _ => data[0]) == data
  {
  }

  lemma RawGives<T>(d: Dec<T>, data: seq<Byte>)
    ensures DecodeBlock(d, RawBlock(data)) == Some(d.(out := d.out + data))
  {
  }

  lemma PartIs(now: seq<Stored>, found: seq<Stored>, at: nat, j: nat)
    requires at <= j <= |now| == |found| && now[at..] == found[at..]
    ensures now[at..j] == found[at..j] && now[j..] == found[j..]
  {
    assert now[at..j] == now[at..][..j - at] && found[at..j] == found[at..][..j - at];
    assert now[j..] == now[at..][j - at..] && found[j..] == found[at..][j - at..];
  }

  /** A part rewritten in its place. */
  lemma PartSet(before: seq<Stored>, now: seq<Stored>, found: seq<Stored>, at: nat, j: nat, part: seq<Stored>)
    requires at <= j <= |before| == |found| && before[j..] == found[j..] && |part| == j - at && now == before[..at] + part + before[j..]
    ensures |now| == |found| && now[at..j] == part && now[j..] == found[j..]
  {
  }

  lemma PartFits(w: Whole, at: nat, litAt: nat, pos: nat, c: Reps)
    requires w.Valid() && w.Found(at, litAt, pos, c)
    ensures w.end <= |w.text| && Small(c)
  {
  }

  lemma PartData<T>(w: Whole, pos: nat, posEnd: nat, d: Dec<T>, r: Resolved, lits: seq<Byte>)
    requires pos <= posEnd <= |w.text| && Gives(w, pos, posEnd, d.rep, r, lits) && d.out == w.text[..pos]
    ensures DataOf(d, w.text[pos..posEnd], r.seqs, lits, r.d, w.third)
    ensures d.out + w.text[pos..posEnd] == w.text[..posEnd]
  {
    assert w.text[..pos] + w.text[pos..posEnd] == w.text[..posEnd];
  }
}
