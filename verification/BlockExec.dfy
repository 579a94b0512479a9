/** What a decoder makes of a block's sequences: each offset by its code and
    its own history, each match copied from what is out. */
module BlockExec {
  import opened Options
  import opened Nums
  import opened BitSeq
  import opened SeqCodes
  import opened RepCodes
  import opened MatchCopy
  import opened FastFinder

  const WORD32: nat := 0x1_0000_0000

  /** The history after a sequence, its offset first. */
  function DecodedRep(hist: Reps, s: Stored): Reps {
    var c := OffCode(s.offBase);
    DecodeOffset(hist, OfBits(c), OfBase(c), Low(s.offBase, c), s.litLen == 0)
  }

  function ExecOne(st: St, s: Stored, lits: seq<Byte>): Option<St> {
    var rep := DecodedRep(st.rep, s);
    if st.used + s.litLen > |lits| then None
    else
      var out := st.out + lits[st.used..st.used + s.litLen];
      if !(1 <= rep.r0 <= |out|) then None else Some(St(Replay(out, rep.r0, s.matchLen), rep, st.used + s.litLen))
  }

  /** After the first `n` sequences. */
  function ExecTo(out: seq<Byte>, rep: Reps, seqs: seq<Stored>, lits: seq<Byte>, n: nat): (r: Option<St>)
    requires n <= |seqs|
    ensures r.Some? ==> r.value.used <= |lits|
  {
    if n == 0 then Some(St(out, rep, 0))
    else
      match ExecTo(out, rep, seqs, lits, n - 1)
      case None => None
      case Some(st) => ExecOne(st, seqs[n - 1], lits)
  }

  /** A block: the sequences, then the literals that are left. */
  function ExecBlock(out: seq<Byte>, rep: Reps, seqs: seq<Stored>, lits: seq<Byte>): Option<(seq<Byte>, Reps)> {
    match ExecTo(out, rep, seqs, lits, |seqs|)
    case None => None
    case Some(st) => Some((st.out + lits[st.used..], st.rep))
  }

  /** One sequence adds its literals and its match. */
  lemma ExecAdds(st: St, s: Stored, lits: seq<Byte>)
    requires ExecOne(st, s, lits).Some?
    ensures var t := ExecOne(st, s, lits).value;
            && t.used == st.used + s.litLen && |t.out| == |st.out| + s.litLen + s.matchLen && t.out[..|st.out|] == st.out
  {
    hide DecodedRep;
    var out := st.out + lits[st.used..st.used + s.litLen];
    var rep := DecodedRep(st.rep, s);
    assert Replay(out, rep.r0, s.matchLen)[..|st.out|] == Replay(out, rep.r0, s.matchLen)[..|out|][..|st.out|];
  }

  /** What is out only grows. */
  lemma {:induction false} ExecGrows(out: seq<Byte>, rep: Reps, seqs: seq<Stored>, lits: seq<Byte>, m: nat, n: nat)
    requires m <= n <= |seqs| && ExecTo(out, rep, seqs, lits, n).Some?
    ensures ExecTo(out, rep, seqs, lits, m).Some?
    ensures var a, b := ExecTo(out, rep, seqs, lits, m).value, ExecTo(out, rep, seqs, lits, n).value;
            |a.out| <= |b.out| && b.out[..|a.out|] == a.out && a.used <= b.used
    decreases n
  {
    hide ExecOne;
    if m < n {
      ExecGrows(out, rep, seqs, lits, m, n - 1);
      ExecAdds(ExecTo(out, rep, seqs, lits, n - 1).value, seqs[n - 1], lits);
    }
  }

  // A finder's sequences

  /** Where the encoder's history and the offset reach no zero, both sides agree. */
  lemma DecodedIs(hist: Reps, s: Stored)
    requires 1 <= s.offBase < WORD32 && hist.r0 >= 1 && UpdateRep(hist, s.offBase, s.litLen == 0).r0 != 0
    ensures DecodedRep(hist, s) == UpdateRep(hist, s.offBase, s.litLen == 0)
  {
    hide UpdateRep, DecodeOffset, OffCode, OfBase, Low;
    SidesAgree(hist, s.offBase, s.litLen == 0);
  }

  /** What rebuilds a text from a finder's offsets, a decoder executes. */
  lemma {:induction false} FinderExec(win: Window, prefix: seq<Byte>, rep: Reps, seqs: seq<Stored>, lits: seq<Byte>)
    requires Rebuild(win, prefix, rep, seqs, lits).Some? && rep.r0 >= 1
    requires |Rebuild(win, prefix, rep, seqs, lits).value.out| < WORD32 - 4
    ensures ExecTo(prefix, rep, seqs, lits, |seqs|) == Rebuild(win, prefix, rep, seqs, lits)
    ensures Rebuild(win, prefix, rep, seqs, lits).value.rep.r0 >= 1
    decreases |seqs|
  {
    if seqs != [] {
      hide UpdateRep, DecodedRep, Reaches, ExecTo, ExecOne, Step, Rebuild;
      var n := |seqs| - 1;
      RebuildLast(win, prefix, rep, seqs, lits);
      var st := Rebuild(win, prefix, rep, seqs[..n], lits).value;
      StepExec(win, st, seqs[n], lits);
      FinderExec(win, prefix, rep, seqs[..n], lits);
      PrefixExec(prefix, rep, seqs[..n], seqs, lits, n);
      LastExec(prefix, rep, seqs, lits);
    } else {
      NoExec(win, prefix, rep, lits);
    }
  }

  lemma RebuildLast(win: Window, prefix: seq<Byte>, rep: Reps, seqs: seq<Stored>, lits: seq<Byte>)
    requires seqs != [] && Rebuild(win, prefix, rep, seqs, lits).Some?
    ensures Rebuild(win, prefix, rep, seqs[..|seqs| - 1], lits).Some?
    ensures Rebuild(win, prefix, rep, seqs, lits)
            == Step(win, Rebuild(win, prefix, rep, seqs[..|seqs| - 1], lits).value, seqs[|seqs| - 1], lits)
  {
  }

  lemma NoExec(win: Window, prefix: seq<Byte>, rep: Reps, lits: seq<Byte>)
    ensures Rebuild(win, prefix, rep, [], lits) == Some(St(prefix, rep, 0))
    ensures ExecTo(prefix, rep, [], lits, 0) == Some(St(prefix, rep, 0))
  {
  }

  lemma LastExec(prefix: seq<Byte>, rep: Reps, seqs: seq<Stored>, lits: seq<Byte>)
    requires seqs != [] && ExecTo(prefix, rep, seqs, lits, |seqs| - 1).Some?
    ensures ExecTo(prefix, rep, seqs, lits, |seqs|) == ExecOne(ExecTo(prefix, rep, seqs, lits, |seqs| - 1).value, seqs[|seqs| - 1], lits)
  {
  }

  lemma StepExec(win: Window, st: St, s: Stored, lits: seq<Byte>)
    requires Step(win, st, s, lits).Some? && (st.rep.r0 >= 1 ==> |Step(win, st, s, lits).value.out| < WORD32 - 4)
    ensures |st.out| <= |Step(win, st, s, lits).value.out|
    ensures st.rep.r0 >= 1 ==> ExecOne(st, s, lits) == Step(win, st, s, lits) && Step(win, st, s, lits).value.rep.r0 >= 1
  {
    hide UpdateRep, DecodedRep, Reaches, Replay;
    var rep := UpdateRep(st.rep, s.offBase, s.litLen == 0);
    var out := st.out + lits[st.used..st.used + s.litLen];
    ReachesBack(win, |out|, rep.r0);
    assert |Step(win, st, s, lits).value.out| == |out| + s.matchLen;
    if st.rep.r0 >= 1 {
      OwnOffset(st.rep, s);
      DecodedIs(st.rep, s);
    }
  }

  lemma OwnOffset(rep: Reps, s: Stored)
    requires 1 <= s.offBase && !(s.offBase == 3 && s.litLen == 0 && rep.r0 == 0)
    ensures s.offBase > 3 ==> UpdateRep(rep, s.offBase, s.litLen == 0).r0 == s.offBase - 3
  {
  }

  lemma {:induction false} PrefixExec(prefix: seq<Byte>, rep: Reps, a: seq<Stored>, b: seq<Stored>, lits: seq<Byte>, n: nat)
    requires n <= |a| <= |b| && b[..|a|] == a
    ensures ExecTo(prefix, rep, a, lits, n) == ExecTo(prefix, rep, b, lits, n)
  {
    hide ExecOne;
    if n > 0 {
      PrefixExec(prefix, rep, a, b, lits, n - 1);
      assert a[n - 1] == b[..|a|][n - 1] == b[n - 1];
    }
  }
}
