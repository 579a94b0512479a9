/** A run of blocks from a text: the fast finders' sequences, split or whole,
    through the entropy stage, and back out of the decoder. */
module FinderLockstep {
  import opened Options
  import opened BitSeq
  import opened RepCodes
  import opened FastFinder
  import DoubleFastFinder
  import opened BlockExec
  import opened SplitOffsets
  import opened EntropyLockstep

  /** The codes a finder stores fit in 32 bits, as its offsets reach back. */
  lemma {:induction false} RebuildSmall(win: Window, prefix: seq<Byte>, rep: Reps, seqs: seq<Stored>, lits: seq<Byte>)
    requires Rebuild(win, prefix, rep, seqs, lits).Some? && |Rebuild(win, prefix, rep, seqs, lits).value.out| < WORD32 - 4
    ensures forall i :: 0 <= i < |seqs| ==> 1 <= seqs[i].offBase < WORD32
  {
    hide UpdateRep, Reaches, DecodedRep;
    if seqs != [] {
      var n := |seqs| - 1;
      var st := Rebuild(win, prefix, rep, seqs[..n], lits).value;
      StepSmall(win, st, seqs[n], lits);
      RebuildSmall(win, prefix, rep, seqs[..n], lits);
      forall i | 0 <= i < |seqs| ensures 1 <= seqs[i].offBase < WORD32 {
        assert i < n ==> seqs[i] == seqs[..n][i];
      }
    }
  }

  lemma StepSmall(win: Window, st: St, s: Stored, lits: seq<Byte>)
    requires Step(win, st, s, lits).Some? && |Step(win, st, s, lits).value.out| < WORD32 - 4
    ensures 1 <= s.offBase < WORD32 && |st.out| <= |Step(win, st, s, lits).value.out|
  {
    hide UpdateRep, Reaches;
    var rep := UpdateRep(st.rep, s.offBase, s.litLen == 0);
    var out := st.out + lits[st.used..st.used + s.litLen];
    ReachesBack(win, |out|, rep.r0);
    assert |Step(win, st, s, lits).value.out| == |out| + s.matchLen;
    if s.offBase > 3 {
      OwnOffset(st.rep, s);
    }
  }

  /** Naming only what is known of two offsets is naming only what is known. */
  lemma {:induction false} FinderKnown(known: Reps, seqs: seq<Stored>, n: nat)
    requires n <= |seqs| && CodesKnown(seqs[..n], known.r0 != 0, known.r1 != 0)
    requires forall i :: 0 <= i < |seqs| ==> 1 <= seqs[i].offBase < WORD32
    ensures AllKnown(known, seqs, n, false)
    ensures var two, c := KnownTwo(seqs[..n], known.r0 != 0, known.r1 != 0), KnownAfter(known, seqs, n, false);
            (two.0 ==> c.r0 != 0) && (two.1 ==> c.r1 != 0)
    decreases n
  {
    if n > 0 {
      assert seqs[..n][..n - 1] == seqs[..n - 1] && seqs[..n][n - 1] == seqs[n - 1];
      FinderKnown(known, seqs, n - 1);
    }
  }

  /** What a finder leaves in the store, the last literals behind: a block for
      any decoder that holds what the encoder knows. */
  lemma StoredBlock(win: Window, text: seq<Byte>, istart: nat, iend: nat, anchor: nat, known: Reps, rep: Reps, seqs: seq<Stored>,
                    lits: seq<Byte>, e: Reps, newRep: Reps)
    requires istart <= anchor <= iend <= |text| < WORD32 - 4 && Knows(known, rep, false) && Small(known)
    requires Rebuild(win, text[..istart], rep, seqs, lits) == Some(St(text[..anchor], e, |lits|))
    requires CodesKnown(seqs, known.r0 != 0, known.r1 != 0) && Carried(newRep.r0, newRep.r1, e)
    ensures var all := lits + text[anchor..iend];
            && Whole(text, istart, iend, rep, known, seqs, all, false).Valid()
            && ExecBlock(text[..istart], rep, seqs, all) == Some((text[..iend], e)) && Knows(newRep, e, false)
  {
    hide CodesKnown, Rebuild, ExecTo, AllKnown, Small;
    var tail := text[anchor..iend];
    MoreLiterals(win, text[..istart], rep, seqs, lits, tail);
    RebuildSmall(win, text[..istart], rep, seqs, lits);
    FinderExec(win, text[..istart], rep, seqs, lits + tail);
    assert seqs[..|seqs|] == seqs;
    FinderKnown(known, seqs, |seqs|);
    assert (lits + tail)[|lits|..] == tail && text[..anchor] + tail == text[..iend];
  }

  /** What happens to one block: whether matches are looked for, where it is
      split, and what the tests of each part come out as. */
  datatype Plan<T> = Plan(attempt: bool, split: seq<Stored> -> seq<nat>, choice: nat -> Choice<T>) {
    ghost predicate Valid() { forall s :: SplitsInOrder(split(s), |s|) }
  }

  /** A finder's tables: one, or a long and a small one. */
  datatype Tables = Single(table: array<nat>, hash: nat -> nat)
                  | Double(long: array<nat>, small: array<nat>, hashL: nat -> nat, hashS: nat -> nat)
  {
    ghost predicate Valid()
    {
      match this
      case Single(table, hash) => forall p :: hash(p) < table.Length
      case Double(long, small, hashL, hashS) => (forall p :: hashL(p) < long.Length) && forall p :: hashS(p) < small.Length
    }

    ghost function Arrays(): set<object> { match this case Single(table, _) => {table} case Double(long, small, _, _) => {long, small} }
  }

  /** The finder of the tables, over one block. */
  method FindSequences(t: Tables, win: Window, text: seq<Byte>, istart: nat, iend: nat, rep: Reps, targetLength: nat, store: SeqStore,
                       ghost held: Reps)
    returns (newRep: Reps)
    requires win.Valid() && win.size >= 1 && win.low <= istart < iend <= |text| < WORD32 - 4 && t.Valid()
    requires store.seqs == [] && store.lits == [] && Knows(rep, held, false) && Small(rep)
    modifies t.Arrays(), store
    ensures Whole(text, istart, iend, held, rep, store.seqs, store.lits, false).Valid() && Small(newRep)
    ensures ExecBlock(text[..istart], held, store.seqs, store.lits).Some?
    ensures ExecBlock(text[..istart], held, store.seqs, store.lits).value.0 == text[..iend]
    ensures Knows(newRep, ExecBlock(text[..istart], held, store.seqs, store.lits).value.1, false)
  {
    hide Whole.Valid, ExecBlock, Rebuild, CodesKnown, OneMatch, MaxRep, NewOffsets;
    var anchor, out0, out1;
    ghost var e;
    match t {
      case Single(table, hash) =>
        anchor, out0, out1, e := CompressBlock(win, text, istart, iend, rep.r0, rep.r1, targetLength, table, hash, store, held);
      case Double(long, small, hashL, hashS) =>
        anchor, out0, out1, e :=
          DoubleFastFinder.CompressBlock(win, text, istart, iend, rep.r0, rep.r1, long, small, hashL, hashS, store, held);
    }
    newRep := Reps(out0, out1, rep.r2);
    StoredBlock(win, text, istart, iend, anchor, rep, held, store.seqs, store.lits, e, newRep);
    store.lits := store.lits + text[anchor..iend];
  }

  ghost predicate Apart<T>(st: BlockState<T>, t: Tables) {
    st !in t.Arrays() && st.huf !in t.Arrays() && st.ll !in t.Arrays() && st.of !in t.Arrays() && st.ml !in t.Arrays()
  }

  /** One block of the text. */
  method CompressBlockOf<T>(st: BlockState<T>, t: Tables, win: Window, text: seq<Byte>, istart: nat, iend: nat, plan: Plan<T>,
                            targetLength: nat, isFirst: bool, ghost d: Dec<T>)
    returns (blocks: seq<Block<T>>)
    requires win.Valid() && win.size >= 1 && win.low <= istart < iend <= |text| < WORD32 - 4 && t.Valid() && plan.Valid()
    requires st.Ok() && st.Lockstep(d) && !st.third && d.out == text[..istart]
    requires Apart(st, t)
    modifies t.Arrays(), st, st.huf, st.ll, st.of, st.ml
    ensures st.Ok() && DecodeAll(d, blocks).Some? && st.Lockstep(DecodeAll(d, blocks).value) && DecodeAll(d, blocks).value.out == text[..iend]
  {
    hide Whole.Valid, ExecBlock, DecodeBlock;
    var store := new SeqStore();
    if !plan.attempt {
      blocks := st.EmitBlock([plan.choice(0)], isFirst, text, istart, iend, store, None, [], d);
      return;
    }
    var newRep := FindSequences(t, win, text, istart, iend, st.rep, targetLength, store, d.rep);
    var splits := plan.split(store.seqs);
    var choices := seq(|splits| + 1, k requires 0 <= k => plan.choice(k));
    assert text[..istart] + text[istart..iend] == text[..iend];
    blocks := st.EmitBlock(choices, isFirst, text, istart, iend, store, Some(newRep), splits, d);
  }

  /** The text, block by block: for any table contents and hashes, wherever the
      blocks are split, whatever the tests come out as and whatever tables are
      built, the decoder takes every block, has the text, and holds what the
      encoder may repeat. */
  method CompressText<T>(st: BlockState<T>, t: Tables, wins: seq<Window>, text: seq<Byte>, cuts: seq<nat>, plans: seq<Plan<T>>,
                         targetLength: nat, ghost d: Dec<T>)
    returns (blocks: seq<Block<T>>)
    requires Cuts(wins, text, cuts) && |plans| == |wins| && |text| < WORD32 - 4 && t.Valid() && forall i :: 0 <= i < |plans| ==> plans[i].Valid()
    requires st.Ok() && st.Lockstep(d) && !st.third && cuts[0] <= |text| && d.out == text[..cuts[0]]
    requires Apart(st, t)
    modifies t.Arrays(), st, st.huf, st.ll, st.of, st.ml
    ensures cuts[|wins|] <= |text| && st.Ok() && DecodeAll(d, blocks).Some? && st.Lockstep(DecodeAll(d, blocks).value)
    ensures DecodeAll(d, blocks).value.out == text[..cuts[|wins|]]
  {
    hide DecodeBlock, DecodeAll, Cuts, Small, Knows;
    blocks := [];
    NoBlocks(d);
    CutInText(wins, text, cuts, 0);
    var i := 0;
    while i < |wins|
      invariant 0 <= i <= |wins| < |cuts| && cuts[i] <= |text| && st.Ok() && DecodeAll(d, blocks).Some? && st.Lockstep(DecodeAll(d, blocks).value)
      invariant DecodeAll(d, blocks).value.out == text[..cuts[i]]
    {
      CutInText(wins, text, cuts, i + 1);
      CutWindow(wins, text, cuts, i);
      ghost var dec := DecodeAll(d, blocks).value;
      var more := CompressBlockOf(st, t, wins[i], text, cuts[i], cuts[i + 1], plans[i], targetLength, i == 0, dec);
      MoreBlocks(d, blocks, more);
      blocks := blocks + more;
      i := i + 1;
    }
  }

  lemma NoBlocks<T>(d: Dec<T>)
    ensures DecodeAll(d, []) == Some(d)
  {
  }

  lemma CutWindow(wins: seq<Window>, text: seq<Byte>, cuts: seq<nat>, i: nat)
    requires Cuts(wins, text, cuts) && i < |wins|
    ensures |cuts| == |wins| + 1 && wins[i].Valid() && wins[i].size >= 1 && wins[i].low <= cuts[i] < cuts[i + 1]
  {
    assert FastFinder.Ordered(cuts, i);
  }

  lemma {:induction false} MoreBlocks<T>(d: Dec<T>, blocks: seq<Block<T>>, more: seq<Block<T>>)
    requires DecodeAll(d, blocks).Some?
    ensures DecodeAll(d, blocks + more) == DecodeAll(DecodeAll(d, blocks).value, more)
    decreases |more|
  {
    if more == [] {
      assert blocks + more == blocks;
    } else {
      MoreBlocks(d, blocks, more[..|more| - 1]);
      assert (blocks + more)[..|blocks + more| - 1] == blocks + more[..|more| - 1];
    }
  }
}
