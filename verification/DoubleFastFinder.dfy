/** The double-hash match finder, a long and a short table: whatever they hold,
    the sequences it stores rebuild the block. */
module DoubleFastFinder {
  import opened Options
  import opened BitSeq
  import opened Suffixes
  import opened Counting
  import opened RepCodes
  import opened FastFinder

  /** What a position gives: repeat code 1 one byte on, or a match, its length
      counted forward. */
  datatype Hit = RepHit | MatchHit(at: nat, match0: nat, mLength: nat) | NoHit

  /** The hit is a common prefix, one byte on for the repeat code, at the
      position or after it for a match. */
  ghost predicate GoodHit(text: Text, iend: nat, low: nat, ip: nat, rep1: nat, hit: Hit) {
    match hit
    case NoHit => true
    case RepHit => rep1 != 0 && rep1 <= ip && Shared(text, ip + 1 - rep1, ip + 1, 4)
    case MatchHit(at, m, len) =>
      ip <= at && low <= m < at && 4 <= len && at + len <= iend && Shared(text, m, at, len)
  }

  /** A candidate that shares the word of `w` bytes at `at`, and all it shares. */
  method LongerFrom(text: Text, iend: nat, at: nat, m: nat, w: nat) returns (len: nat)
    requires m < at && at + w <= iend <= |text| && Word(text, m, w) == Word(text, at, w)
    ensures len >= w && at + len <= iend && Shared(text, m, at, len)
  {
    WordsDiffer(text, at, m, w, |text|);
    len := Extend(text, iend, at, m, w);
  }

  /** One position: the repeat code, the long match, the short match or the
      long one a step on if that is longer. */
  method TryPosition(text: Text, iend: nat, low: nat, ip: nat, ip1: nat, rep1: nat, idxl0: nat, idxs0: nat, idxl1: nat) returns (hit: Hit)
    requires ip + HASH_READ_SIZE <= iend && ip < ip1 && ip1 + HASH_READ_SIZE <= iend <= |text| && rep1 <= ip
    ensures GoodHit(text, iend, low, ip, rep1, hit)
  {
    if rep1 > 0 && Word(text, ip + 1 - rep1, 4) == Word(text, ip + 1, 4) {
      WordsDiffer(text, ip + 1, ip + 1 - rep1, 4, |text|);
      return RepHit;
    }
    if CandidateValid(idxl0, low, ip) && Word(text, idxl0, 8) == Word(text, ip, 8) {
      var len := LongerFrom(text, iend, ip, idxl0, 8);
      return MatchHit(ip, idxl0, len);
    }
    if CandidateValid(idxs0, low, ip) && Word(text, idxs0, 4) == Word(text, ip, 4) {
      var len := LongerFrom(text, iend, ip, idxs0, 4);
      hit := MatchHit(ip, idxs0, len);
      if CandidateValid(idxl1, low + 1, ip1) && Word(text, idxl1, 8) == Word(text, ip1, 8) {
        var l1len := LongerFrom(text, iend, ip1, idxl1, 8);
        if l1len > len {
          hit := MatchHit(ip1, idxl1, l1len);
        }
      }
      return;
    }
    hit := NoHit;
  }

  /** The inner loop: positions until one gives something, or none is left. */
  method Search(text: Text, iend: nat, low: nat, start: nat, rep1: nat, long: array<nat>, small: array<nat>,
                hashL: nat -> nat, hashS: nat -> nat)
    returns (hit: Hit, ip: nat, curr: nat)
    requires start + 1 + HASH_READ_SIZE <= iend <= |text| && rep1 <= start
    requires (forall p :: hashL(p) < long.Length) && (forall p :: hashS(p) < small.Length)
    modifies long, small
    ensures start <= ip && curr == ip && (!hit.NoHit? ==> ip + 1 + HASH_READ_SIZE <= iend)
    ensures GoodHit(text, iend, low, ip, rep1, hit)
  {
    hide Shared, Word;
    var ilimit := iend - HASH_READ_SIZE;
    var step, nextStep, ip1 := 1, start + K_STEP_INCR, start + 1;
    var hl0: nat := hashL(start);
    var idxl0: nat := long[hl0];
    ip, curr, hit := start, start, NoHit;
    while ip1 <= ilimit
      invariant start <= ip < ip1 && curr == ip && ip <= ilimit && step >= 1 && hl0 < long.Length && hit.NoHit?
      decreases ilimit + 1 - ip1
    {
      var hs0 := hashS(ip);
      var idxs0: nat := small[hs0];
      curr := ip;
      long[hl0] := curr;
      small[hs0] := curr;
      var hl1 := hashL(ip1);
      var idxl1: nat := long[hl1];
      hit := TryPosition(text, iend, low, ip, ip1, rep1, idxl0, idxs0, idxl1);
      if !hit.NoHit? {
        if hit.MatchHit? && step < 4 {
          long[hl1] := ip1;
        }
        return;
      }
      if ip1 >= nextStep {
        step, nextStep := step + 1, nextStep + K_STEP_INCR;
      }
      if ip1 + step > ilimit {
        return;
      }
      ip, ip1, curr := ip1, ip1 + step, ip1;
      hl0, idxl0 := hl1, idxl1;
    }
  }

  /** What was found, stored. */
  method TakeHit(win: Window, text: Text, start: nat, iend: nat, ghost d0: Reps, store: SeqStore, anchor: nat, from: nat, hit: Hit,
                 ip: nat, rep1_: nat, rep2_: nat, ghost d: Reps, ghost in1: nat, ghost on1: bool, ghost on2: bool)
    returns (next: nat, rep1: nat, rep2: nat, ghost e: Reps)
    requires Keeps(win, text, start, d0, store.seqs, store.lits, anchor, from, d, rep1_, rep2_, in1, on1, on2)
    requires 1 <= iend <= |text| && !hit.NoHit? && from <= ip && ip + 1 + HASH_READ_SIZE <= iend && rep1_ <= ip && anchor <= from
    requires GoodHit(text, iend, win.Lowest(iend - 1), ip, rep1_, hit)
    modifies store
    ensures from + 4 <= next <= iend && rep1 != 0
    ensures Keeps(win, text, start, d0, store.seqs, store.lits, next, next, e, rep1, rep2, in1, on1, on2)
  {
    hide Keeps, Shared, Reaches;
    if hit.RepHit? {
      var mLength := Extend(text, iend, ip + 1, ip + 1 - rep1_, 4);
      StoreRep(win, text, start, d0, store, anchor, ip + 1, ip + 1 - rep1_, mLength, from, rep1_, rep2_, d, in1, on1, on2);
      next, rep1, rep2, e := ip + 1 + mLength, rep1_, rep2_, d;
    } else {
      var low := win.Lowest(iend - 1);
      var ip0, match0, mLength := CatchUp(text, low, anchor, hit.at, hit.match0, hit.mLength);
      CandidateReaches(win, ip0, match0, iend);
      rep2 := rep1_;
      rep1, e := StoreOffset(win, text, start, d0, store, anchor, ip0, match0, mLength, from, rep1_, rep2_, d, in1, on1, on2);
      next := ip0 + mLength;
    }
  }

  /** The complementary insertions behind a match. */
  method FillTables(long: array<nat>, small: array<nat>, hashL: nat -> nat, hashS: nat -> nat, curr: nat, ip: nat)
    requires 2 <= ip && (forall p :: hashL(p) < long.Length) && (forall p :: hashS(p) < small.Length)
    modifies long, small
  {
    long[hashL(curr + 2)] := curr + 2;
    long[hashL(ip - 2)] := ip - 2;
    small[hashS(curr + 2)] := curr + 2;
    small[hashS(ip - 1)] := ip - 1;
  }

  /** Immediate repeat codes; every position coded so goes into both tables. */
  method Immediates(win: Window, text: Text, start: nat, iend: nat, ghost d0: Reps, store: SeqStore, anchor0: nat, rep1_: nat, rep2_: nat,
                    ghost d: Reps, ghost in1: nat, ghost on1: bool, ghost on2: bool, long: array<nat>, small: array<nat>,
                    hashL: nat -> nat, hashS: nat -> nat)
    returns (anchor: nat, rep1: nat, rep2: nat, ghost e: Reps)
    requires Keeps(win, text, start, d0, store.seqs, store.lits, anchor0, anchor0, d, rep1_, rep2_, in1, on1, on2) && rep1_ != 0
    requires HASH_READ_SIZE <= iend <= |text| && anchor0 <= iend
    requires (forall p :: hashL(p) < long.Length) && (forall p :: hashS(p) < small.Length)
    modifies store, long, small
    ensures anchor0 <= anchor <= iend && rep1 != 0
    ensures Keeps(win, text, start, d0, store.seqs, store.lits, anchor, anchor, e, rep1, rep2, in1, on1, on2)
  {
    hide Keeps;
    anchor, rep1, rep2, e := anchor0, rep1_, rep2_, d;
    while anchor <= iend - HASH_READ_SIZE && rep2 > 0 && MatchesBack(text, anchor, rep2)
      invariant anchor0 <= anchor <= iend && rep1 != 0
      invariant Keeps(win, text, start, d0, store.seqs, store.lits, anchor, anchor, e, rep1, rep2, in1, on1, on2)
      decreases iend - anchor
    {
      BackShares(text, anchor, rep2);
      var rLength := Extend(text, iend, anchor, anchor - rep2, 4);
      e := StoreSecond(win, text, start, d0, store, anchor, rLength, rep1, rep2, e, in1, on1, on2);
      rep1, rep2 := rep2, rep1;
      small[hashS(anchor)] := anchor;
      long[hashL(anchor)] := anchor;
      anchor := anchor + rLength;
    }
  }

  /** `ZSTD_compressBlock_doubleFast_noDict_generic`, as the single-hash
      finder, with the same exact condition for the second offset; a caller
      need only check `Carried`. */
  method CompressBlock(win: Window, text: Text, istart: nat, iend: nat, in0: nat, in1: nat, long: array<nat>, small: array<nat>,
                       hashL: nat -> nat, hashS: nat -> nat, store: SeqStore, ghost d0: Reps)
    returns (anchor: nat, out0: nat, out1: nat, ghost d: Reps)
    requires win.Valid() && win.size >= 1 && win.low <= istart < iend <= |text|
    requires (forall p :: hashL(p) < long.Length) && (forall p :: hashS(p) < small.Length)
    requires store.seqs == [] && store.lits == [] && Known(in0, d0.r0) && Known(in1, d0.r1)
    modifies long, small, store
    ensures istart <= anchor <= iend
    ensures Rebuild(win, text[..istart], d0, store.seqs, store.lits) == Some(St(text[..anchor], d, |store.lits|))
    ensures Known(out0, d.r0)
    ensures Known(out1, d.r1) <==>
              (in0 == 0 && in1 > MaxRep(win, istart, iend) && NewOffsets(store.seqs) == 1 ==> in1 == d0.r0)
    ensures Carried(in0, in1, d0) ==> Carried(out0, out1, d)
    ensures in0 != 0 ==> out0 == d.r0
    ensures in0 != 0 && in1 != 0 ==> out1 == d.r1
    ensures CodesKnown(store.seqs, in0 != 0, in1 != 0)
    ensures out0 in {in0, in1} || out0 <= iend
    ensures out1 in {in0, in1} || out1 <= iend
  {
    hide Keeps, Rebuild, NewOffsets, CodesKnown, Carried;
    var ilimit := if iend < HASH_READ_SIZE then 0 else iend - HASH_READ_SIZE;
    var ip := FirstIp(win, istart, iend);
    var maxRep := ip - win.Lowest(ip);
    var saved2: nat, rep2: nat := if in1 > maxRep then in1 else 0, if in1 > maxRep then 0 else in1;
    var saved1: nat, rep1: nat := if in0 > maxRep then in0 else 0, if in0 > maxRep then 0 else in0;
    ghost var on1, on2 := in0 != 0 && in0 <= maxRep, in1 != 0 && in1 <= maxRep;
    anchor, d := istart, d0;
    StartKeeps(win, text, istart, ip, d0, in0, in1, rep1, rep2);
    while ip + 1 <= ilimit
      invariant istart <= anchor <= ip <= iend
      invariant Keeps(win, text, istart, d0, store.seqs, store.lits, anchor, ip, d, rep1, rep2, in1, on1, on2)
      decreases iend - ip
    {
      KeepsUsable(win, text, istart, d0, store.seqs, store.lits, anchor, ip, d, rep1, rep2, in1, on1, on2);
      var hit, at, curr := Search(text, iend, win.Lowest(iend - 1), ip, rep1, long, small, hashL, hashS);
      if hit.NoHit? {
        break;
      }
      anchor, rep1, rep2, d := TakeHit(win, text, istart, iend, d0, store, anchor, ip, hit, at, rep1, rep2, d, in1, on1, on2);
      ip := anchor;
      if anchor <= ilimit {
        FillTables(long, small, hashL, hashS, curr, anchor);
        anchor, rep1, rep2, d :=
          Immediates(win, text, istart, iend, d0, store, anchor, rep1, rep2, d, in1, on1, on2, long, small, hashL, hashS);
        ip := anchor;
      }
    }
    if saved1 != 0 && rep1 != 0 {
      saved2 := saved1;
    }
    out0 := if rep1 != 0 then rep1 else saved1;
    out1 := if rep2 != 0 then rep2 else saved2;
    KeepsEnds(win, text, istart, d0, store.seqs, store.lits, anchor, ip, d, rep1, rep2, in0, in1, maxRep, out0, out1);
  }

  /** A run of blocks, as with the single-hash finder. */
  method CompressRun(wins: seq<Window>, text: Text, cuts: seq<nat>, raw: seq<bool>, in0: nat, in1: nat, long: array<nat>, small: array<nat>,
                     hashL: nat -> nat, hashS: nat -> nat, ghost d0: Reps)
    returns (sent: seq<Sent>, out0: nat, out1: nat, ghost d: Reps)
    requires Cuts(wins, text, cuts) && |raw| == |wins| && Carried(in0, in1, d0) && (forall p :: hashL(p) < long.Length) && (forall p :: hashS(p) < small.Length)
    modifies long, small
    ensures cuts[0] <= |text| && |sent| == |wins|
    ensures DecodeRun(wins, text[..cuts[0]], d0, sent, |wins|) == Some((text[..cuts[|wins|]], d)) && Carried(out0, out1, d)
  {
    hide Rebuild, Carried;
    sent, out0, out1, d := [], in0, in1, d0;
    CutInText(wins, text, cuts, 0);
    var i := 0;
    while i < |wins|
      invariant 0 <= i == |sent| <= |wins| && cuts[i] <= |text| && Carried(out0, out1, d)
      invariant DecodeRun(wins, text[..cuts[0]], d0, sent, i) == Some((text[..cuts[i]], d))
    {
      assert Ordered(cuts, i);
      CutInText(wins, text, cuts, i + 1);
      var b;
      b, out0, out1, d := CompressOne(wins, text, cuts, raw[i], i, out0, out1, long, small, hashL, hashS, d0, sent, d);
      sent := sent + [b];
      i := i + 1;
    }
  }

  method CompressOne(wins: seq<Window>, text: Text, cuts: seq<nat>, raw: bool, i: nat, in0: nat, in1: nat, long: array<nat>, small: array<nat>,
                     hashL: nat -> nat, hashS: nat -> nat, ghost d0: Reps, ghost sent: seq<Sent>, ghost d: Reps)
    returns (b: Sent, out0: nat, out1: nat, ghost e: Reps)
    requires Cuts(wins, text, cuts) && i < |wins| && i == |sent| && Carried(in0, in1, d) && (forall p :: hashL(p) < long.Length) && (forall p :: hashS(p) < small.Length)
    requires cuts[i] < cuts[i + 1] <= |text| && cuts[0] <= |text|
    requires DecodeRun(wins, text[..cuts[0]], d0, sent, i) == Some((text[..cuts[i]], d))
    modifies long, small
    ensures DecodeRun(wins, text[..cuts[0]], d0, sent + [b], i + 1) == Some((text[..cuts[i + 1]], e)) && Carried(out0, out1, e)
  {
    hide Rebuild, DecodeRun, MaxRep, NewOffsets;
    var store := new SeqStore();
    var anchor;
    anchor, out0, out1, e := CompressBlock(wins[i], text, cuts[i], cuts[i + 1], in0, in1, long, small, hashL, hashS, store, d);
    if raw {
      b, out0, out1, e := Raw(text[cuts[i]..cuts[i + 1]]), in0, in1, d;
      assert text[..cuts[i]] + text[cuts[i]..cuts[i + 1]] == text[..cuts[i + 1]];
    } else {
      b := Coded(store.seqs, store.lits, text[anchor..cuts[i + 1]]);
      assert text[..anchor] + text[anchor..cuts[i + 1]] == text[..cuts[i + 1]];
    }
    SentOne(wins, text, cuts[0], d0, sent, b, cuts[i], cuts[i + 1], d, e);
  }
}
