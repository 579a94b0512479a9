/** The offsets of a block split after its sequences are found: a part written
    RAW or RLE leaves the decoder's history behind the finder's, and the
    repeat codes behind it are rewritten. */
module SplitOffsets {
  import opened Options
  import opened Nums
  import opened BitSeq
  import opened RepCodes
  import opened FastFinder
  import opened MatchCopy
  import opened BlockExec

  // Histories as far as the encoder knows them, 0 for unknown

  /** `third`: whether the third entry is kept at all. */
  ghost predicate Knows(known: Reps, held: Reps, third: bool) {
    && Known(known.r0, held.r0) && Known(known.r1, held.r1) && (third ==> Known(known.r2, held.r2))
    && (known.r0 == 0 ==> known.r1 == 0) && held.r0 >= 1
  }

  /** Which entry a repeat code names: the first, the second, the third, or
      the first less one. */
  function Named(s: Stored): nat
    requires 1 <= s.offBase <= ZSTD_REP_NUM
  {
    s.offBase - 1 + if s.litLen == 0 then 1 else 0
  }

  /** `ZSTD_resolveRepcodeToRawOffset`, wrapping below 0. */
  function RawOffset(rep: Reps, s: Stored): nat
    requires 1 <= s.offBase <= ZSTD_REP_NUM
  {
    match Named(s)
    case 0 => rep.r0
    case 1 => rep.r1
    case 2 => rep.r2
    case _ => (rep.r0 + WORD32 - 1) % WORD32
  }

  /** A repeat code only names an offset that is known, and that is not 0. */
  predicate NamesKnown(known: Reps, s: Stored, third: bool) {
    && 1 <= s.offBase < WORD32
    && (s.offBase <= ZSTD_REP_NUM ==>
          match Named(s)
          case 0 => known.r0 >= 1
          case 1 => known.r1 >= 1
          case 2 => third && known.r2 >= 1
          case _ => known.r0 >= 2)
  }

  function After(known: Reps, s: Stored, third: bool): Reps
    requires NamesKnown(known, s, third)
  {
    UpdateRep(known, s.offBase, s.litLen == 0)
  }

  /** Over the first `n` sequences, from the history before them. */
  predicate AllKnown(known: Reps, seqs: seq<Stored>, n: nat, third: bool)
    requires n <= |seqs|
    decreases n, 0
  {
    n == 0 || (AllKnown(known, seqs, n - 1, third) && NamesKnown(KnownAfter(known, seqs, n - 1, third), seqs[n - 1], third))
  }

  function KnownAfter(known: Reps, seqs: seq<Stored>, n: nat, third: bool): Reps
    requires n <= |seqs| && AllKnown(known, seqs, n, third)
    decreases n, 1
  {
    if n == 0 then known else After(KnownAfter(known, seqs, n - 1, third), seqs[n - 1], third)
  }

  // Rewriting

  /** A repeat code that names different offsets in the two histories becomes
      the offset of the finder's, `c`. */
  function Rewritten(d: Reps, c: Reps, s: Stored): Stored
    requires s.offBase >= 1
  {
    if s.offBase <= ZSTD_REP_NUM && RawOffset(d, s) != RawOffset(c, s) then s.(offBase := RawOffset(c, s) + ZSTD_REP_NUM) else s
  }

  lemma RewrittenKnown(d: Reps, c: Reps, s: Stored, third: bool)
    requires NamesKnown(c, s, third) && Small(d) && Small(c)
    ensures NamesKnown(d, Rewritten(d, c, s), third) && Small(After(d, Rewritten(d, c, s), third)) && Small(After(c, s, third))
  {
  }

  /** One sequence: whatever the decoder holds, the rewritten code gives it the
      offset the finder meant, and both histories go on as far as they are known. */
  lemma RewrittenSame(d: Reps, dHeld: Reps, c: Reps, cHeld: Reps, s: Stored, third: bool)
    requires Knows(d, dHeld, third) && Knows(c, cHeld, third) && NamesKnown(c, s, third) && Small(d) && Small(c)
    requires 1 <= DecodedRep(cHeld, s).r0 < WORD32 - 4
    ensures var t := Rewritten(d, c, s);
            && NamesKnown(d, t, third) && t.litLen == s.litLen && t.matchLen == s.matchLen
            && DecodedRep(dHeld, t).r0 == DecodedRep(cHeld, s).r0
            && Knows(After(d, t, third), DecodedRep(dHeld, t), third) && Knows(After(c, s, third), DecodedRep(cHeld, s), third)
  {
    hide DecodedRep;
    RewrittenKnown(d, c, s, third);
    var t := Rewritten(d, c, s);
    NamedHeld(c, cHeld, s, third);
    DecodedIs(cHeld, s);
    NamedHeld(d, dHeld, t, third);
    if s.offBase <= ZSTD_REP_NUM {
      assert RawOffset(c, s) == UpdateRep(cHeld, s.offBase, s.litLen == 0).r0;
    }
    DecodedIs(dHeld, t);
  }

  /** Offsets that 32 bits can code. */
  predicate Small(rep: Reps) { rep.r0 < WORD32 - 3 && rep.r1 < WORD32 - 3 && rep.r2 < WORD32 - 3 }

  /** What a code names is what the decoder holds there. */
  lemma NamedHeld(known: Reps, held: Reps, s: Stored, third: bool)
    requires Knows(known, held, third) && NamesKnown(known, s, third) && Small(known)
    ensures s.offBase <= ZSTD_REP_NUM ==> UpdateRep(held, s.offBase, s.litLen == 0).r0 == RawOffset(known, s) >= 1
    ensures s.offBase > ZSTD_REP_NUM ==> UpdateRep(held, s.offBase, s.litLen == 0).r0 == s.offBase - ZSTD_REP_NUM
    ensures Knows(After(known, s, third), UpdateRep(held, s.offBase, s.litLen == 0), third)
  {
  }

  // A part of a block

  /** Both histories after some sequences, and these rewritten. */
  datatype Resolved = Resolved(d: Reps, c: Reps, seqs: seq<Stored>)

  function ResolveTo(d: Reps, c: Reps, seqs: seq<Stored>, n: nat, third: bool): (r: Resolved)
    requires n <= |seqs| && AllKnown(c, seqs, n, third) && Small(d) && Small(c)
    ensures |r.seqs| == n && r.c == KnownAfter(c, seqs, n, third) && Small(r.d) && Small(r.c)
  {
    if n == 0 then Resolved(d, c, [])
    else
      var r := ResolveTo(d, c, seqs, n - 1, third);
      var t := Rewritten(r.d, r.c, seqs[n - 1]);
      RewrittenKnown(r.d, r.c, seqs[n - 1], third);
      Resolved(After(r.d, t, third), After(r.c, seqs[n - 1], third), r.seqs + [t])
  }

  /** `ZSTD_seqStore_resolveOffCodes`, over the store's sequences `from` to `to`. */
  method ResolveOffCodes(store: SeqStore, from: nat, to: nat, dRep: Reps, cRep: Reps, ghost third: bool) returns (d: Reps, c: Reps)
    requires from <= to <= |store.seqs| && AllKnown(cRep, store.seqs[from..to], to - from, third) && Small(dRep) && Small(cRep)
    modifies store`seqs
    ensures var r := ResolveTo(dRep, cRep, old(store.seqs[from..to]), to - from, third);
            (d, c) == (r.d, r.c) && store.seqs == old(store.seqs[..from]) + r.seqs + old(store.seqs[to..])
  {
    hide Rewritten, Partly, AllKnown, ResolveTo, UpdateRep, NamesKnown;
    ghost var all := store.seqs;
    d, c := dRep, cRep;
    var n := from;
    PartlyNone(all, from, to, d, c, third);
    while n < to
      invariant from <= n <= to && Partly(store.seqs, all, from, n, to, dRep, cRep, d, c, third)
    {
      PartlyOn(store.seqs, all, from, n, to, dRep, cRep, d, c, third);
      var s := store.seqs[n];
      var t := Rewritten(d, c, s);
      store.seqs := store.seqs[n := t];
      d, c := UpdateRep(d, t.offBase, t.litLen == 0), UpdateRep(c, s.offBase, s.litLen == 0);
      n := n + 1;
    }
    PartlyAll(store.seqs, all, from, to, dRep, cRep, d, c, third);
  }

  /** Rewritten up to `n`. */
  ghost predicate Partly(now: seq<Stored>, all: seq<Stored>, from: nat, n: nat, to: nat, dRep: Reps, cRep: Reps, d: Reps, c: Reps, third: bool)
  {
    && from <= n <= to <= |all| && Small(dRep) && Small(cRep) && AllKnown(cRep, all[from..to], to - from, third)
    && AllKnown(cRep, all[from..to], n - from, third)
    && var r := ResolveTo(dRep, cRep, all[from..to], n - from, third);
       d == r.d && c == r.c && now == all[..from] + r.seqs + all[n..]
  }

  lemma PartlyNone(all: seq<Stored>, from: nat, to: nat, d: Reps, c: Reps, third: bool)
    requires from <= to <= |all| && Small(d) && Small(c) && AllKnown(c, all[from..to], to - from, third)
    ensures Partly(all, all, from, from, to, d, c, d, c, third)
  {
    assert all == all[..from] + [] + all[from..];
  }

  lemma PartlyOn(now: seq<Stored>, all: seq<Stored>, from: nat, n: nat, to: nat, dRep: Reps, cRep: Reps, d: Reps, c: Reps, third: bool)
    requires n < to && Partly(now, all, from, n, to, dRep, cRep, d, c, third)
    ensures |now| == |all| && now[n].offBase >= 1
    ensures var s := now[n]; var t := Rewritten(d, c, s);
            && t.offBase >= 1 && (t.offBase == 3 && t.litLen == 0 ==> d.r0 >= 1) && (s.offBase == 3 && s.litLen == 0 ==> c.r0 >= 1)
            && Partly(now[n := t], all, from, n + 1, to, dRep, cRep,
                      UpdateRep(d, t.offBase, t.litLen == 0), UpdateRep(c, s.offBase, s.litLen == 0), third)
  {
    hide Rewritten, UpdateRep;
    var part := all[from..to];
    var done := ResolveTo(dRep, cRep, part, n - from, third).seqs;
    KnownBefore(cRep, part, n + 1 - from, third);
    assert all[n..][0] == part[n - from] && all[n..][1..] == all[n + 1..];
    var s := now[n];
    assert s == part[n - from];
    RewrittenKnown(d, c, s, third);
    SetNext(all[..from], done, all[n..], Rewritten(d, c, s));
  }

  lemma PartlyAll(now: seq<Stored>, all: seq<Stored>, from: nat, to: nat, dRep: Reps, cRep: Reps, d: Reps, c: Reps, third: bool)
    requires Partly(now, all, from, to, to, dRep, cRep, d, c, third)
    ensures var r := ResolveTo(dRep, cRep, all[from..to], to - from, third);
            (d, c) == (r.d, r.c) && now == all[..from] + r.seqs + all[to..]
  {
  }

  lemma SetNext<T>(a: seq<T>, b: seq<T>, c: seq<T>, x: T)
    requires c != []
    ensures (a + b + c)[|a| + |b| := x] == a + (b + [x]) + c[1..]
  {
  }

  lemma {:induction false} KnownBefore(known: Reps, seqs: seq<Stored>, n: nat, third: bool)
    requires n <= |seqs| && AllKnown(known, seqs, |seqs|, third)
    ensures AllKnown(known, seqs, n, third)
    decreases |seqs| - n
  {
    if n < |seqs| {
      KnownBefore(known, seqs, n + 1, third);
    }
  }

  // What the decoder makes of a rewritten part

  /** `a` after the sequences as found, `b` what the decoder has after the
      rewritten ones of the part, its literals those from `base` on. */
  ghost predicate SameOut(a: St, b: St, base: nat, d: Reps, c: Reps, third: bool) {
    b.out == a.out && b.used + base == a.used && Knows(d, b.rep, third) && Knows(c, a.rep, third)
  }

  lemma ExecSame(a: St, b: St, base: nat, lits: seq<Byte>, part: seq<Byte>, d: Reps, c: Reps, s: Stored, third: bool)
    requires SameOut(a, b, base, d, c, third) && Small(d) && Small(c) && NamesKnown(c, s, third)
    requires ExecOne(a, s, lits).Some? && |ExecOne(a, s, lits).value.out| < WORD32 - 4
    requires base + |part| <= |lits| && part == lits[base..base + |part|] && a.used + s.litLen <= base + |part|
    ensures var t := Rewritten(d, c, s);
            && NamesKnown(d, t, third) && ExecOne(b, t, part).Some?
            && SameOut(ExecOne(a, s, lits).value, ExecOne(b, t, part).value, base, After(d, t, third), After(c, s, third), third)
  {
    hide Rewritten, NamesKnown, Knows, DecodedRep, Replay, Small, After;
    ExecAdds(a, s, lits);
    RewrittenSame(d, b.rep, c, a.rep, s, third);
    SliceOfSlice(lits, base, base + |part|, b.used, b.used + s.litLen);
  }

  lemma SliceOfSlice(s: seq<Byte>, i: nat, j: nat, x: nat, y: nat)
    requires i <= j <= |s| && x <= y <= j - i
    ensures s[i..j][x..y] == s[i + x..i + y]
  {
    var a, b := s[i..j][x..y], s[i + x..i + y];
    forall k | 0 <= k < |a| ensures a[k] == b[k] {
    }
    assert a == b;
  }

  /** The part from `i` to `j`: its first `k` rewritten sequences, from what the
      decoder has out and holds. */
  lemma {:induction false} PartSame(out0: seq<Byte>, rep0: Reps, seqs: seq<Stored>, lits: seq<Byte>, i: nat, j: nat, k: nat,
                                    d: Reps, held: Reps, c: Reps, third: bool, part: seq<Byte>)
    requires i <= j <= |seqs| && k <= j - i && AllKnown(c, seqs[i..j], k, third) && Small(d) && Small(c)
    requires Reached(out0, rep0, seqs, lits, i, i + k)
    requires var st := ExecTo(out0, rep0, seqs, lits, i).value;
             && SameOut(st, St(st.out, held, 0), st.used, d, c, third) && st.used + |part| <= |lits|
             && part == lits[st.used..st.used + |part|] && ExecTo(out0, rep0, seqs, lits, i + k).value.used <= st.used + |part|
    ensures var st, r := ExecTo(out0, rep0, seqs, lits, i).value, ResolveTo(d, c, seqs[i..j], k, third);
            && ExecTo(st.out, held, r.seqs, part, k).Some?
            && SameOut(ExecTo(out0, rep0, seqs, lits, i + k).value, ExecTo(st.out, held, r.seqs, part, k).value, st.used, r.d, r.c, third)
    decreases k
  {
    hide SameOut, Knows, NamesKnown, Rewritten, After, Small, ExecOne;
    var st := ExecTo(out0, rep0, seqs, lits, i).value;
    if k > 0 {
      var s := seqs[i + k - 1];
      assert s == seqs[i..j][k - 1];
      ReachedBefore(out0, rep0, seqs, lits, i, i + k);
      PartSame(out0, rep0, seqs, lits, i, j, k - 1, d, held, c, third, part);
      var r, q := ResolveTo(d, c, seqs[i..j], k - 1, third), ResolveTo(d, c, seqs[i..j], k, third);
      var a, b := ExecTo(out0, rep0, seqs, lits, i + k - 1).value, ExecTo(st.out, held, r.seqs, part, k - 1).value;
      ExecAdds(a, s, lits);
      ExecSame(a, b, st.used, lits, part, r.d, r.c, s, third);
      PrefixExec(st.out, held, r.seqs, q.seqs, part, k - 1);
    }
  }

  /** The sequences from `i` up to `n` execute, within 32 bits. */
  ghost predicate Reached(out0: seq<Byte>, rep0: Reps, seqs: seq<Stored>, lits: seq<Byte>, i: nat, n: nat) {
    && i <= n <= |seqs| && ExecTo(out0, rep0, seqs, lits, i).Some? && ExecTo(out0, rep0, seqs, lits, n).Some?
    && |ExecTo(out0, rep0, seqs, lits, n).value.out| < WORD32 - 4
  }

  lemma ReachedBefore(out0: seq<Byte>, rep0: Reps, seqs: seq<Stored>, lits: seq<Byte>, i: nat, n: nat)
    requires i < n && Reached(out0, rep0, seqs, lits, i, n)
    ensures Reached(out0, rep0, seqs, lits, i, n - 1)
    ensures ExecOne(ExecTo(out0, rep0, seqs, lits, n - 1).value, seqs[n - 1], lits) == ExecTo(out0, rep0, seqs, lits, n)
    ensures ExecTo(out0, rep0, seqs, lits, n - 1).value.used <= ExecTo(out0, rep0, seqs, lits, n).value.used
  {
    hide ExecOne;
    ExecGrows(out0, rep0, seqs, lits, n - 1, n);
  }

  // A block in parts

  function LitLens(seqs: seq<Stored>): nat { if seqs == [] then 0 else LitLens(seqs[..|seqs| - 1]) + seqs[|seqs| - 1].litLen }

  function MatchLens(seqs: seq<Stored>): nat { if seqs == [] then 0 else MatchLens(seqs[..|seqs| - 1]) + seqs[|seqs| - 1].matchLen }

  /** A block as found: its sequences and literals take `text` from `start` to
      `end` for a decoder that holds `rep`, of which `known` is known. */
  datatype Whole = Whole(text: seq<Byte>, start: nat, end: nat, rep: Reps, known: Reps, seqs: seq<Stored>, lits: seq<Byte>, third: bool) {
    ghost predicate Valid() {
      && start <= end <= |text| && end < WORD32 - 4 && Knows(known, rep, third) && Small(known)
      && AllKnown(known, seqs, |seqs|, third)
      && ExecBlock(text[..start], rep, seqs, lits).Some? && ExecBlock(text[..start], rep, seqs, lits).value.0 == text[..end]
    }

    function To(n: nat): Option<St>
      requires n <= |seqs| && start <= |text|
    {
      ExecTo(text[..start], rep, seqs, lits, n)
    }

    /** Before sequence `at`: the literals used, the text out, what is known. */
    ghost predicate Found(at: nat, litAt: nat, pos: nat, c: Reps) {
      && at <= |seqs| && start <= pos <= end <= |text| && To(at).Some? && To(at).value.out == text[..pos] && To(at).value.used == litAt
      && AllKnown(known, seqs, at, third) && c == KnownAfter(known, seqs, at, third) && Small(c) && Knows(c, To(at).value.rep, third)
    }
  }

  lemma WholeStarts(w: Whole)
    requires w.Valid()
    ensures w.Found(0, 0, w.start, w.known)
  {
  }

  /** What is known after a part's sequences, from before them. */
  lemma {:induction false} KnownSplit(known: Reps, seqs: seq<Stored>, at: nat, j: nat, third: bool)
    requires at <= j <= |seqs| && AllKnown(known, seqs, j, third)
    ensures AllKnown(known, seqs, at, third)
    ensures var c := KnownAfter(known, seqs, at, third);
            && AllKnown(c, seqs[at..j], j - at, third)
            && KnownAfter(c, seqs[at..j], j - at, third) == KnownAfter(known, seqs, j, third)
    decreases j
  {
    hide NamesKnown, After;
    if at < j {
      KnownSplit(known, seqs, at, j - 1, third);
      var c := KnownAfter(known, seqs, at, third);
      KnownPrefix(c, seqs[at..j - 1], seqs[at..j], j - 1 - at, third);
      assert seqs[at..j][..j - 1 - at] == seqs[at..j - 1] && seqs[at..j][j - 1 - at] == seqs[j - 1];
    } else {
      assert seqs[at..at] == [];
    }
  }

  lemma {:induction false} KnownPrefix(known: Reps, a: seq<Stored>, b: seq<Stored>, n: nat, third: bool)
    requires n <= |a| <= |b| && b[..|a|] == a && AllKnown(known, a, n, third)
    ensures AllKnown(known, b, n, third) && KnownAfter(known, a, n, third) == KnownAfter(known, b, n, third)
  {
    hide NamesKnown, After;
    if n > 0 {
      KnownPrefix(known, a, b, n - 1, third);
      assert a[n - 1] == b[..|a|][n - 1];
    }
  }

  /** A part's literals and matches are what its sequences add. */
  lemma {:induction false} PartAdds(out: seq<Byte>, rep: Reps, seqs: seq<Stored>, lits: seq<Byte>, at: nat, j: nat)
    requires at <= j <= |seqs| && ExecTo(out, rep, seqs, lits, j).Some?
    ensures ExecTo(out, rep, seqs, lits, at).Some?
    ensures var a, b := ExecTo(out, rep, seqs, lits, at).value, ExecTo(out, rep, seqs, lits, j).value;
            b.used == a.used + LitLens(seqs[at..j]) && |b.out| == |a.out| + LitLens(seqs[at..j]) + MatchLens(seqs[at..j])
    decreases j
  {
    hide ExecOne;
    ExecGrows(out, rep, seqs, lits, at, j);
    if at < j {
      ExecGrows(out, rep, seqs, lits, j - 1, j);
      PartAdds(out, rep, seqs, lits, at, j - 1);
      ExecAdds(ExecTo(out, rep, seqs, lits, j - 1).value, seqs[j - 1], lits);
      assert seqs[at..j][..j - 1 - at] == seqs[at..j - 1] && seqs[at..j][j - 1 - at] == seqs[j - 1];
    } else {
      assert seqs[at..at] == [];
    }
  }

  /** Where a part's literals and bytes end. */
  function LitEnd(w: Whole, at: nat, j: nat, litAt: nat, last: bool): nat
    requires at <= j <= |w.seqs|
  {
    if last then |w.lits| else litAt + LitLens(w.seqs[at..j])
  }

  function PosEnd(w: Whole, at: nat, j: nat, pos: nat, last: bool): nat
    requires at <= j <= |w.seqs|
  {
    if last then w.end else pos + LitLens(w.seqs[at..j]) + MatchLens(w.seqs[at..j])
  }

  /** What a decoder makes of a rewritten part: the bytes from `pos` to
      `posEnd`, its history then as known as `r.d` says. */
  ghost predicate Gives(w: Whole, pos: nat, posEnd: nat, held: Reps, r: Resolved, lits: seq<Byte>)
    requires pos <= posEnd <= |w.text|
  {
    match ExecBlock(w.text[..pos], held, r.seqs, lits)
    case None => false
    case Some((out, rep)) => out == w.text[..posEnd] && Knows(r.d, rep, w.third)
  }

  /** A part's sequences, rewritten, give its bytes to a decoder that has what
      is before them, whatever it holds of the finder's history. */
  lemma PartDecodes(w: Whole, at: nat, j: nat, litAt: nat, pos: nat, c: Reps, d: Reps, held: Reps, last: bool)
    requires w.Valid() && w.Found(at, litAt, pos, c) && Knows(d, held, w.third) && Small(d)
    requires at <= j <= |w.seqs| && (last ==> j == |w.seqs|)
    ensures AllKnown(c, w.seqs[at..j], j - at, w.third)
    ensures var r, litEnd, posEnd := ResolveTo(d, c, w.seqs[at..j], j - at, w.third), LitEnd(w, at, j, litAt, last), PosEnd(w, at, j, pos, last);
            && litAt <= litEnd <= |w.lits| && pos <= posEnd <= w.end
            && Gives(w, pos, posEnd, held, r, w.lits[litAt..litEnd])
            && (!last ==> w.Found(j, litEnd, posEnd, r.c))
  {
    hide Knows, Small, NamesKnown, After, Rewritten, ExecOne, ExecTo, AllKnown, KnownAfter, Whole.Valid, LitLens, MatchLens;
    var out0, third, litEnd := w.text[..w.start], w.third, LitEnd(w, at, j, litAt, last);
    WholeReaches(w, j);
    KnownSplit(w.known, w.seqs, at, j, third);
    PartAdds(out0, w.rep, w.seqs, w.lits, at, j);
    ExecGrows(out0, w.rep, w.seqs, w.lits, at, j);
    FoundOn(w, at, j, litAt, pos, c);
    var part, st, r := w.lits[litAt..litEnd], w.To(at).value, ResolveTo(d, c, w.seqs[at..j], j - at, third);
    PartSame(out0, w.rep, w.seqs, w.lits, at, j, j - at, d, held, c, third, part);
    PartEnds(w, at, j, litAt, litEnd, pos, r, held, last);
  }

  lemma FoundOn(w: Whole, at: nat, j: nat, litAt: nat, pos: nat, c: Reps)
    requires w.Valid() && w.Found(at, litAt, pos, c) && at <= j <= |w.seqs|
    ensures w.To(j).Some? && w.To(at).Some? && w.To(at).value.used == litAt && w.To(at).value.out == w.text[..pos]
    ensures var n, m := LitLens(w.seqs[at..j]), MatchLens(w.seqs[at..j]);
            && w.To(j).value.used == litAt + n <= |w.lits| && pos + n + m <= w.end && w.To(j).value.out == w.text[..pos + n + m]
  {
    hide Knows, Small, ExecTo, AllKnown, KnownAfter, LitLens, MatchLens;
    WholeReaches(w, j);
    PartAdds(w.text[..w.start], w.rep, w.seqs, w.lits, at, j);
  }

  lemma PartEnds(w: Whole, at: nat, j: nat, litAt: nat, litEnd: nat, pos: nat, r: Resolved, held: Reps, last: bool)
    requires w.Valid() && at <= j <= |w.seqs| && (last ==> j == |w.seqs|) && w.To(j).Some? && pos <= |w.text|
    requires litAt <= w.To(j).value.used <= litEnd <= |w.lits| && litEnd == (if last then |w.lits| else w.To(j).value.used)
    requires var b := ExecTo(w.text[..pos], held, r.seqs, w.lits[litAt..litEnd], |r.seqs|);
             b.Some? && SameOut(w.To(j).value, b.value, litAt, r.d, r.c, w.third)
    ensures var x := ExecBlock(w.text[..pos], held, r.seqs, w.lits[litAt..litEnd]);
            && x.Some? && x.value.0 == (if last then w.text[..w.end] else w.To(j).value.out)
            && Knows(r.d, x.value.1, w.third) && Knows(r.c, w.To(j).value.rep, w.third)
  {
    hide Knows, Small, ExecTo, AllKnown, KnownAfter;
    WholeReaches(w, j);
    var part := w.lits[litAt..litEnd];
    var b := ExecTo(w.text[..pos], held, r.seqs, part, |r.seqs|).value;
    assert part[b.used..] == w.lits[w.To(j).value.used..litEnd];
    if last {
      assert w.lits[w.To(j).value.used..litEnd] == w.lits[w.To(j).value.used..];
    } else {
      assert part[b.used..] == [] && b.out + [] == b.out;
    }
  }

  /** The whole block executes up to `j`, inside its text. */
  lemma WholeReaches(w: Whole, j: nat)
    requires w.Valid() && j <= |w.seqs|
    ensures AllKnown(w.known, w.seqs, j, w.third) && w.To(j).Some? && Reached(w.text[..w.start], w.rep, w.seqs, w.lits, j, j)
    ensures |w.To(j).value.out| <= w.end && w.To(j).value.out == w.text[..|w.To(j).value.out|] && w.start <= |w.To(j).value.out|
    ensures j == |w.seqs| ==> w.To(j).value.out + w.lits[w.To(j).value.used..] == w.text[..w.end]
  {
    hide Knows, Small, NamesKnown, After, ExecOne, AllKnown;
    var n, out0 := |w.seqs|, w.text[..w.start];
    KnownBefore(w.known, w.seqs, j, w.third);
    ExecGrows(out0, w.rep, w.seqs, w.lits, j, n);
    ExecGrows(out0, w.rep, w.seqs, w.lits, 0, j);
    var a, z := w.To(j).value, w.To(n).value;
    var all := z.out + w.lits[z.used..];
    assert all == w.text[..w.end];
    assert all[..|z.out|] == z.out && z.out[..|a.out|] == a.out;
    assert w.text[..|a.out|] == all[..|a.out|] == a.out;
  }
}
