/** The single-hash match finder: whatever its table holds, the sequences it
    stores rebuild the block. */
module FastFinder {
  import opened Options
  import opened Nums
  import opened BitSeq
  import opened Suffixes
  import opened Counting
  import opened RepCodes
  import opened MatchCopy
  import BinaryTree

  const HASH_READ_SIZE: nat := 8
  const K_STEP_INCR: nat := 128
  const ZSTD_REP_NUM: nat := 3
  const REPCODE1_TO_OFFBASE: nat := 1

  type Window = BinaryTree.Window

  // The sequences, and a decoder that replays them

  datatype Stored = Stored(litLen: nat, offBase: nat, matchLen: nat)

  datatype St = St(out: seq<Byte>, rep: Reps, used: nat)

  /** An offset inside the window, at a position. */
  predicate Reaches(win: Window, at: nat, off: nat) {
    1 <= off && off + win.low <= at && (win.loadedDictEnd != 0 || off < win.size)
  }

  function Step(win: Window, st: St, s: Stored, lits: seq<Byte>): Option<St> {
    if s.offBase < 1 || (s.offBase == 3 && s.litLen == 0) || st.used + s.litLen > |lits| then None
    else
      var rep := UpdateRep(st.rep, s.offBase, s.litLen == 0);
      var out := st.out + lits[st.used..st.used + s.litLen];
      if !Reaches(win, |out|, rep.r0) then None
      else Some(St(Replay(out, rep.r0, s.matchLen), rep, st.used + s.litLen))
  }

  /** Replaying from `prefix` and a history. */
  function Rebuild(win: Window, prefix: seq<Byte>, rep: Reps, seqs: seq<Stored>, lits: seq<Byte>): Option<St> {
    if seqs == [] then Some(St(prefix, rep, 0))
    else
      match Rebuild(win, prefix, rep, seqs[..|seqs| - 1], lits)
      case None => None
      case Some(st) => Step(win, st, seqs[|seqs| - 1], lits)
  }

  /** Literals stored later do not matter. */
  lemma {:induction false} MoreLiterals(win: Window, prefix: seq<Byte>, rep: Reps, seqs: seq<Stored>, lits: seq<Byte>, more: seq<Byte>)
    requires Rebuild(win, prefix, rep, seqs, lits).Some?
    ensures Rebuild(win, prefix, rep, seqs, lits + more) == Rebuild(win, prefix, rep, seqs, lits)
    ensures Rebuild(win, prefix, rep, seqs, lits).value.used <= |lits|
  {
    if seqs != [] {
      var n := |seqs| - 1;
      MoreLiterals(win, prefix, rep, seqs[..n], lits, more);
      var st := Rebuild(win, prefix, rep, seqs[..n], lits).value;
      assert (lits + more)[st.used..st.used + seqs[n].litLen] == lits[st.used..st.used + seqs[n].litLen];
    }
  }

  lemma {:induction false} SharedAt(t: Text, x: nat, y: nat, k: nat, i: nat)
    requires Shared(t, x, y, k) && i < k
    ensures x + i < |t| && y + i < |t| && t[x + i] == t[y + i]
    decreases k
  {
    if i > 0 {
      SharedAt(t, x + 1, y + 1, k - 1, i - 1);
    }
  }

  lemma {:induction false} SharedInside(t: Text, x: nat, y: nat, k: nat)
    requires Shared(t, x, y, k) && y <= |t|
    ensures y + k <= |t|
    decreases k
  {
    if k > 0 {
      SharedInside(t, x + 1, y + 1, k - 1);
    }
  }

  /** Copying a common prefix back gives the text. */
  lemma ReplaysText(t: Text, ip: nat, off: nat, len: nat)
    requires 1 <= off <= ip <= |t| && Shared(t, ip - off, ip, len)
    ensures ip + len <= |t| && Replay(t[..ip], off, len) == t[..ip + len]
  {
    SharedInside(t, ip - off, ip, len);
    var s := t[..ip + len];
    forall i | ip <= i < |s| ensures s[i] == s[i - off] {
      SharedAt(t, ip - off, ip, len, i - ip);
    }
    RepeatsIsReplay(s, ip, off, len);
    assert s[..ip] == t[..ip] && s[..ip + len] == s;
  }

  class SeqStore {
    var seqs: seq<Stored>
    var lits: seq<Byte>

    constructor ()
      ensures seqs == [] && lits == []
    {
      seqs, lits := [], [];
    }

    method StoreSeq(text: Text, anchor: nat, litLen: nat, offBase: nat, matchLen: nat)
      requires anchor + litLen <= |text|
      modifies this
      ensures seqs == old(seqs) + [Stored(litLen, offBase, matchLen)] && lits == old(lits) + text[anchor..anchor + litLen]
    {
      seqs := seqs + [Stored(litLen, offBase, matchLen)];
      lits := lits + text[anchor..anchor + litLen];
    }
  }

  /** What is stored rebuilds the text up to `anchor`, leaving history `d`. */
  ghost predicate Rebuilds(win: Window, text: Text, start: nat, d0: Reps, seqs: seq<Stored>, lits: seq<Byte>, anchor: nat, d: Reps)
  {
    start <= anchor <= |text| && Rebuild(win, text[..start], d0, seqs, lits) == Some(St(text[..anchor], d, |lits|))
  }

  lemma StoredRebuilds(win: Window, text: Text, start: nat, d0: Reps, seqs: seq<Stored>, lits: seq<Byte>, anchor: nat, d: Reps,
                       litLen: nat, offBase: nat, len: nat)
    requires Rebuilds(win, text, start, d0, seqs, lits, anchor, d) && anchor + litLen <= |text|
    requires 1 <= offBase && !(offBase == 3 && litLen == 0)
    requires var off := UpdateRep(d, offBase, litLen == 0).r0;
             Reaches(win, anchor + litLen, off) && Shared(text, anchor + litLen - off, anchor + litLen, len)
    ensures Rebuilds(win, text, start, d0, seqs + [Stored(litLen, offBase, len)], lits + text[anchor..anchor + litLen],
                     anchor + litLen + len, UpdateRep(d, offBase, litLen == 0))
  {
    hide UpdateRep, Replay, Reaches, Rebuild, Step, Shared;
    var s, more := Stored(litLen, offBase, len), text[anchor..anchor + litLen];
    MoreLiterals(win, text[..start], d0, seqs, lits, more);
    ReachesBack(win, anchor + litLen, UpdateRep(d, offBase, litLen == 0).r0);
    ReplaysText(text, anchor + litLen, UpdateRep(d, offBase, litLen == 0).r0, len);
    StepsOn(win, text, anchor, d, lits, s);
    LastSeq(win, text[..start], d0, seqs, s, lits + more);
  }

  /** Replaying one more. */
  lemma LastSeq(win: Window, prefix: seq<Byte>, rep: Reps, seqs: seq<Stored>, s: Stored, lits: seq<Byte>)
    requires Rebuild(win, prefix, rep, seqs, lits).Some?
    ensures Rebuild(win, prefix, rep, seqs + [s], lits) == Step(win, Rebuild(win, prefix, rep, seqs, lits).value, s, lits)
  {
    assert (seqs + [s])[..|seqs|] == seqs;
  }

  lemma StepsOn(win: Window, text: Text, anchor: nat, d: Reps, lits: seq<Byte>, s: Stored)
    requires anchor + s.litLen <= |text| && 1 <= s.offBase && !(s.offBase == 3 && s.litLen == 0)
    requires Reaches(win, anchor + s.litLen, UpdateRep(d, s.offBase, s.litLen == 0).r0)
    ensures var rep, ip := UpdateRep(d, s.offBase, s.litLen == 0), anchor + s.litLen;
            && 1 <= rep.r0 <= ip
            && Step(win, St(text[..anchor], d, |lits|), s, lits + text[anchor..ip])
               == Some(St(Replay(text[..ip], rep.r0, s.matchLen), rep, |lits| + s.litLen))
  {
    hide UpdateRep, Replay, Reaches;
    var ip := anchor + s.litLen;
    var more := text[anchor..ip];
    ReachesBack(win, ip, UpdateRep(d, s.offBase, s.litLen == 0).r0);
    assert (lits + more)[|lits|..|lits| + s.litLen] == more;
    assert text[..anchor] + more == text[..ip];
  }

  lemma ReachesBack(win: Window, at: nat, off: nat)
    requires Reaches(win, at, off)
    ensures 1 <= off <= at
  {
  }

  // Repeat offsets

  /** How the finder's two offsets, 0 for disabled, stand to the decoder's
      history; `in1` came in second, `on1` and `on2` tell which of the two were usable. */
  ghost predicate Tracks(rep1: nat, rep2: nat, in1: nat, on1: bool, on2: bool, d0: Reps, d: Reps) {
    && (rep1 == 0 ==> d == d0 && !on1 && (rep2 == 0 || rep2 == in1))
    && (rep1 != 0 ==> d.r0 == rep1)
    && (rep2 != 0 ==> d.r1 == rep2)
    && (rep2 == 0 ==> d.r1 == if on1 || rep1 == 0 then d0.r1 else d0.r0)
    && (rep2 == 0 && (on1 || rep1 == 0) ==> !on2)
  }

  /** The sequences that bring an offset of their own. */
  function NewOffsets(seqs: seq<Stored>): nat {
    if seqs == [] then 0 else NewOffsets(seqs[..|seqs| - 1]) + if seqs[|seqs| - 1].offBase > ZSTD_REP_NUM then 1 else 0
  }

  lemma NoOffsets()
    ensures NewOffsets([]) == 0
  {
  }

  lemma NewOne(seqs: seq<Stored>, s: Stored)
    ensures NewOffsets(seqs + [s]) == NewOffsets(seqs) + if s.offBase > ZSTD_REP_NUM then 1 else 0
  {
    assert (seqs + [s])[..|seqs|] == seqs;
  }

  /** Starting without the first offset, one new offset enables it, and two the second. */
  predicate Counted(rep1: nat, rep2: nat, on1: bool, n: nat) {
    !on1 ==> (rep1 == 0 <==> n == 0) && (rep1 != 0 ==> (rep2 == 0 <==> n == 1))
  }

  /** Which of the first two offsets are known after the sequences. */
  function KnownTwo(seqs: seq<Stored>, on1: bool, on2: bool): (bool, bool) {
    if seqs == [] then (on1, on2)
    else
      var (a, b) := KnownTwo(seqs[..|seqs| - 1], on1, on2);
      var s := seqs[|seqs| - 1];
      if s.offBase > ZSTD_REP_NUM then (true, a) else if s.litLen == 0 then (b, a) else (a, b)
  }

  /** The only repeat code is the first, and the offset it names is known. */
  predicate CodesKnown(seqs: seq<Stored>, on1: bool, on2: bool) {
    seqs == []
    || (CodesKnown(seqs[..|seqs| - 1], on1, on2)
        && CodeKnown(seqs[|seqs| - 1], KnownTwo(seqs[..|seqs| - 1], on1, on2)))
  }

  predicate CodeKnown(s: Stored, known: (bool, bool)) {
    s.offBase > ZSTD_REP_NUM || (s.offBase == REPCODE1_TO_OFFBASE && if s.litLen == 0 then known.1 else known.0)
  }

  /** The offsets in use are known ones, and only those are named. */
  ghost predicate InUse(seqs: seq<Stored>, on1: bool, on2: bool, rep1: nat, rep2: nat) {
    CodesKnown(seqs, on1, on2) && (rep1 != 0 ==> KnownTwo(seqs, on1, on2).0) && (rep2 != 0 ==> KnownTwo(seqs, on1, on2).1)
  }

  lemma InUseOne(seqs: seq<Stored>, on1: bool, on2: bool, rep1: nat, rep2: nat, s: Stored)
    requires InUse(seqs, on1, on2, rep1, rep2)
    ensures s.offBase > ZSTD_REP_NUM ==> forall off: nat :: InUse(seqs + [s], on1, on2, off, rep1)
    ensures s.offBase == REPCODE1_TO_OFFBASE && s.litLen > 0 && rep1 != 0 ==> InUse(seqs + [s], on1, on2, rep1, rep2)
    ensures s.offBase == REPCODE1_TO_OFFBASE && s.litLen == 0 && rep2 != 0 ==> InUse(seqs + [s], on1, on2, rep2, rep1)
  {
    assert (seqs + [s])[..|seqs|] == seqs;
  }

  /** Knowing more at the start does no harm. */
  lemma {:induction false} KnownMore(seqs: seq<Stored>, on1: bool, on2: bool, in1: bool, in2: bool)
    requires CodesKnown(seqs, on1, on2) && (on1 ==> in1) && (on2 ==> in2)
    ensures CodesKnown(seqs, in1, in2)
    ensures (KnownTwo(seqs, on1, on2).0 ==> KnownTwo(seqs, in1, in2).0) && (KnownTwo(seqs, on1, on2).1 ==> KnownTwo(seqs, in1, in2).1)
  {
    if seqs != [] {
      KnownMore(seqs[..|seqs| - 1], on1, on2, in1, in2);
    }
  }

  /** An offset the caller gives, if it gives one, is the decoder's. */
  predicate Known(given: nat, held: nat) { given != 0 ==> held == given }

  /** What one block hands the next: the decoder's offsets, the second known
      only with the first. */
  predicate Carried(rep0: nat, rep1: nat, d: Reps) { Known(rep0, d.r0) && Known(rep1, d.r1) && (rep0 == 0 ==> rep1 == 0) }

  /** Where both offsets may be used from position `at` on. */
  predicate Usable(win: Window, at: nat, rep1: nat, rep2: nat) {
    (rep1 != 0 ==> Reaches(win, at, rep1)) && (rep2 != 0 ==> Reaches(win, at, rep2))
  }

  // The search

  datatype Found = Rep(match0: nat, mLength: nat) | Offset(matchIdx: nat) | Cleanup

  /** `candidate_valid`. */
  predicate CandidateValid(idx: nat, low: nat, cur: nat) { low <= idx < cur }

  /** `ZSTD_match4Found`: a flipped bit makes an invalid candidate differ. */
  predicate Match4Found(text: Text, cur: nat, matchIdx: nat, low: nat)
    requires cur + 4 <= |text|
  {
    CandidateValid(matchIdx, low, cur) && Word(text, matchIdx, 4) == Word(text, cur, 4)
  }

  lemma FoundShares(text: Text, cur: nat, matchIdx: nat, low: nat)
    requires cur + 4 <= |text| && Match4Found(text, cur, matchIdx, low)
    ensures low <= matchIdx < cur && Shared(text, matchIdx, cur, 4)
  {
    WordsDiffer(text, cur, matchIdx, 4, |text|);
  }

  /** What a search gives: a match of four bytes at least, at a position past
      the anchor that leaves literals for a repeat code. */
  ghost predicate GoodFound(text: Text, iend: nat, low: nat, anchor: nat, rep1: nat, found: Found, ip0: nat) {
    match found
    case Cleanup => true
    case Offset(m) => anchor <= ip0 && ip0 + 4 <= iend && low <= m < ip0 && Shared(text, m, ip0, 4)
    case Rep(m, len) =>
      anchor < ip0 && ip0 + len <= iend && rep1 != 0 && m + rep1 == ip0 && len >= 4 && Shared(text, m, ip0, len)
  }

  /** Where the search began, the offsets may be used. */
  predicate PastStart(start: nat, found: Found, ip0: nat) { !found.Cleanup? ==> start <= ip0 }


  method Search(text: Text, iend: nat, low: nat, anchor: nat, start: nat, stepSize: nat, rep1: nat, table: array<nat>, hash: nat -> nat)
    returns (found: Found, ip0: nat, current0: nat)
    requires iend <= |text| && iend >= HASH_READ_SIZE && anchor <= start && stepSize >= 2
    requires start + stepSize + 1 < iend - HASH_READ_SIZE && rep1 <= start && forall p :: hash(p) < table.Length
    modifies table
    ensures GoodFound(text, iend, low, anchor, rep1, found, ip0)
    ensures PastStart(start, found, ip0)
    ensures !found.Cleanup? ==> start <= current0 && current0 + 2 <= iend - HASH_READ_SIZE
    ensures rep1 == 0 && Match4Found(text, start, old(table[hash(start)]), low) ==>
              found == Offset(old(table[hash(start)])) && ip0 == start
  {
    hide Shared, Word;
    var ilimit := iend - HASH_READ_SIZE;
    var step, nextStep, ip2 := stepSize, start + K_STEP_INCR, start + stepSize;
    var hash0: nat, hash1: nat, matchIdx: nat := hash(start), hash(start + 1), table[hash(start)];
    ghost var atOnce := rep1 == 0 && Match4Found(text, start, matchIdx, low);
    ip0, current0 := start, start;
    while true
      invariant ip0 == start ==> matchIdx == old(table[hash(start)])
      invariant ip0 > start ==> !atOnce
      invariant start <= ip0 && ip0 + 2 <= ip2 && ip2 + 1 < ilimit && step >= 2
      invariant hash0 < table.Length && hash1 < table.Length
      decreases ilimit - ip2
    {
      current0 := ip0;
      table[hash0] := current0;
      if rep1 > 0 && Word(text, ip2, 4) == Word(text, ip2 - rep1, 4) {
        table[hash1] := ip0 + 1;
        found, ip0 := RepFound(text, iend, low, anchor, rep1, ip2);
        return;
      }
      if Match4Found(text, ip0, matchIdx, low) {
        FoundShares(text, ip0, matchIdx, low);
        table[hash1] := ip0 + 1;
        return Offset(matchIdx), ip0, current0;
      }
      matchIdx := table[hash1];
      hash0, hash1 := hash1, hash(ip2);
      ip0 := ip0 + 1;
      current0 := ip0;
      table[hash0] := current0;
      if Match4Found(text, ip0, matchIdx, low) {
        FoundShares(text, ip0, matchIdx, low);
        if step <= 4 {
          table[hash1] := ip2;
        }
        return Offset(matchIdx), ip0, current0;
      }
      matchIdx := table[hash1];
      hash0, hash1 := hash1, hash(ip2 + 1);
      ip0, ip2 := ip2, ip2 + step;
      if ip2 >= nextStep {
        step, nextStep := step + 1, nextStep + K_STEP_INCR;
      }
      if ip2 + 1 >= ilimit {
        return Cleanup, ip0, current0;
      }
    }
  }

  /** A repeat code at `ip2`, one byte back where that matches too. */
  method RepFound(text: Text, iend: nat, ghost low: nat, ghost anchor: nat, rep1: nat, ip2: nat) returns (found: Found, ip0: nat)
    requires anchor + 2 <= ip2 && ip2 + 4 <= iend <= |text| && 1 <= rep1 && rep1 + 2 <= ip2
    requires Word(text, ip2, 4) == Word(text, ip2 - rep1, 4)
    ensures found.Rep? && GoodFound(text, iend, low, anchor, rep1, found, ip0) && ip2 <= ip0 + 1
  {
    WordsDiffer(text, ip2, ip2 - rep1, 4, |text|);
    var match0 := ip2 - rep1;
    var mLength := if text[ip2 - 1] == text[match0 - 1] then 1 else 0;
    ip0, match0 := ip2 - mLength, match0 - mLength;
    found := Rep(match0, mLength + 4);
  }

  /** The match goes back while the bytes before it agree. */
  method CatchUp(text: Text, low: nat, anchor: nat, from: nat, matchIdx: nat, len: nat) returns (ip0: nat, match0: nat, mLength: nat)
    requires low <= matchIdx < from && anchor <= from && from + len <= |text| && Shared(text, matchIdx, from, len)
    ensures anchor <= ip0 <= from && low <= match0 && ip0 - match0 == from - matchIdx && ip0 + mLength == from + len
    ensures Shared(text, match0, ip0, mLength)
  {
    ip0, match0, mLength := from, matchIdx, len;
    while ip0 > anchor && match0 > low && text[ip0 - 1] == text[match0 - 1]
      invariant anchor <= ip0 <= from && low <= match0 && ip0 - match0 == from - matchIdx && ip0 + mLength == from + len
      invariant Shared(text, match0, ip0, mLength)
      decreases ip0
    {
      ip0, match0, mLength := ip0 - 1, match0 - 1, mLength + 1;
    }
  }

  /** One byte over and over. */
  predicate Constant(text: Text, from: nat, to: nat)
    requires to <= |text|
  {
    forall i :: from <= i < to ==> text[i] == text[from]
  }

  lemma {:induction false} ConstantLcp(text: Text, x: nat, y: nat, from: nat, limit: nat)
    requires from <= y < x <= limit <= |text| && Constant(text, from, limit)
    ensures Lcp(text, x, y, limit) == limit - x
    decreases limit - x
  {
    if x < limit {
      ConstantLcp(text, x + 1, y + 1, from, limit);
    }
  }

  /** The whole length of a match known to share `len` bytes. */
  method Extend(text: Text, iend: nat, ip0: nat, match0: nat, len: nat) returns (mLength: nat)
    requires match0 < ip0 && ip0 + len <= iend <= |text| && Shared(text, match0, ip0, len)
    ensures mLength >= len && ip0 + mLength <= iend && Shared(text, match0, ip0, mLength)
    ensures Constant(text, match0, iend) ==> ip0 + mLength == iend
  {
    var more := Count(text, ip0 + len, match0 + len, iend);
    if Constant(text, match0, iend) {
      ConstantLcp(text, ip0 + len, match0 + len, match0, iend);
    }
    LcpAfter(text, ip0, match0, iend, len);
    LcpShared(text, ip0, match0, iend);
    mLength := len + more;
  }

  // The block

  /** Everything the outer loop keeps: what is stored rebuilds up to `anchor`,
      and the two offsets are the decoder's. */
  ghost predicate Keeps(win: Window, text: Text, start: nat, d0: Reps, seqs: seq<Stored>, lits: seq<Byte>, anchor: nat, from: nat, d: Reps,
                        rep1: nat, rep2: nat, in1: nat, on1: bool, on2: bool) {
    && Rebuilds(win, text, start, d0, seqs, lits, anchor, d) && Tracks(rep1, rep2, in1, on1, on2, d0, d)
    && anchor <= from && Usable(win, from, rep1, rep2) && Counted(rep1, rep2, on1, NewOffsets(seqs))
    && InUse(seqs, on1, on2, rep1, rep2)
  }

  lemma KeepsShape(win: Window, text: Text, start: nat, d0: Reps, seqs: seq<Stored>, lits: seq<Byte>, anchor: nat, from: nat, d: Reps,
                   rep1: nat, rep2: nat, in1: nat, on1: bool, on2: bool)
    requires Keeps(win, text, start, d0, seqs, lits, anchor, from, d, rep1, rep2, in1, on1, on2)
    ensures start <= anchor <= |text|
  {
  }

  lemma ReachesOn(win: Window, at: nat, later: nat, off: nat)
    requires Reaches(win, at, off) && at <= later
    ensures Reaches(win, later, off)
  {
  }

  /** A candidate at or above the window's lowest index for the block's end. */
  lemma CandidateReaches(win: Window, at: nat, m: nat, iend: nat)
    requires m < at < iend && win.Lowest(iend - 1) <= m
    ensures Reaches(win, at, at - m)
  {
  }

  /** A new offset: both tracked offsets move down. */
  method StoreOffset(win: Window, text: Text, start: nat, ghost d0: Reps, store: SeqStore, anchor: nat, ip0: nat, match0: nat,
                     mLength: nat, ghost from: nat, rep1: nat, ghost rep2: nat, ghost d: Reps, ghost in1: nat, ghost on1: bool,
                     ghost on2: bool)
    returns (off: nat, ghost e: Reps)
    requires Keeps(win, text, start, d0, store.seqs, store.lits, anchor, from, d, rep1, rep2, in1, on1, on2) && from <= ip0 + mLength
    requires anchor <= ip0 && match0 < ip0 && Reaches(win, ip0, ip0 - match0) && ip0 <= |text| && Shared(text, match0, ip0, mLength)
    modifies store
    ensures off == ip0 - match0 && Keeps(win, text, start, d0, store.seqs, store.lits, ip0 + mLength, ip0 + mLength, e, off, rep1, in1, on1, on2)
    ensures NewOffsets(store.seqs) == NewOffsets(old(store.seqs)) + 1
  {
    hide Rebuilds, Shared, Reaches, NewOffsets, InUse;
    off := ip0 - match0;
    assert UpdateRep(d, off + ZSTD_REP_NUM, ip0 == anchor) == Reps(off, d.r0, d.r1);
    KeepsShape(win, text, start, d0, store.seqs, store.lits, anchor, from, d, rep1, rep2, in1, on1, on2);
    StoredRebuilds(win, text, start, d0, store.seqs, store.lits, anchor, d, ip0 - anchor, off + ZSTD_REP_NUM, mLength);
    NewOne(store.seqs, Stored(ip0 - anchor, off + ZSTD_REP_NUM, mLength));
    InUseOne(store.seqs, on1, on2, rep1, rep2, Stored(ip0 - anchor, off + ZSTD_REP_NUM, mLength));
    store.StoreSeq(text, anchor, ip0 - anchor, off + ZSTD_REP_NUM, mLength);
    e := UpdateRep(d, off + ZSTD_REP_NUM, ip0 == anchor);
    ReachesOn(win, ip0, ip0 + mLength, off);
    if rep1 != 0 {
      ReachesOn(win, from, ip0 + mLength, rep1);
    }
  }

  /** Repeat code 1 after literals: the first offset again. */
  method StoreRep(win: Window, text: Text, start: nat, ghost d0: Reps, store: SeqStore, anchor: nat, ip0: nat, ghost match0: nat,
                  mLength: nat, ghost from: nat, ghost rep1: nat, ghost rep2: nat, ghost d: Reps, ghost in1: nat, ghost on1: bool,
                  ghost on2: bool)
    requires Keeps(win, text, start, d0, store.seqs, store.lits, anchor, from, d, rep1, rep2, in1, on1, on2) && from <= ip0
    requires anchor < ip0 <= |text| && rep1 != 0 && match0 + rep1 == ip0 && Shared(text, match0, ip0, mLength)
    modifies store
    ensures Keeps(win, text, start, d0, store.seqs, store.lits, ip0 + mLength, ip0 + mLength, d, rep1, rep2, in1, on1, on2)
  {
    hide Rebuilds, Reaches, Shared, Replay, NewOffsets, InUse;
    ReachesOn(win, from, ip0, rep1);
    FirstRep(d0, d, rep1, rep2, in1, on1, on2);
    StoredRebuilds(win, text, start, d0, store.seqs, store.lits, anchor, d, ip0 - anchor, REPCODE1_TO_OFFBASE, mLength);
    NewOne(store.seqs, Stored(ip0 - anchor, REPCODE1_TO_OFFBASE, mLength));
    InUseOne(store.seqs, on1, on2, rep1, rep2, Stored(ip0 - anchor, REPCODE1_TO_OFFBASE, mLength));
    store.StoreSeq(text, anchor, ip0 - anchor, REPCODE1_TO_OFFBASE, mLength);
    ReachesOn(win, from, ip0 + mLength, rep1);
    if rep2 != 0 {
      ReachesOn(win, from, ip0 + mLength, rep2);
    }
  }

  /** Repeat code 1 without literals: the second offset, and the two swap. */
  method Immediate(win: Window, text: Text, start: nat, iend: nat, ghost d0: Reps, store: SeqStore, anchor0: nat, rep1_: nat, rep2_: nat,
                   ghost d: Reps, ghost in1: nat, ghost on1: bool, ghost on2: bool, table: array<nat>, hash: nat -> nat)
    returns (anchor: nat, rep1: nat, rep2: nat, ghost e: Reps)
    requires Keeps(win, text, start, d0, store.seqs, store.lits, anchor0, anchor0, d, rep1_, rep2_, in1, on1, on2) && rep1_ != 0
    requires HASH_READ_SIZE <= iend <= |text| && anchor0 <= iend && forall p :: hash(p) < table.Length
    modifies store, table
    ensures anchor0 <= anchor <= iend && rep1 != 0
    ensures Keeps(win, text, start, d0, store.seqs, store.lits, anchor, anchor, e, rep1, rep2, in1, on1, on2)
  {
    hide Keeps;
    anchor, rep1, rep2, e := anchor0, rep1_, rep2_, d;
    if rep2 > 0 {
      while anchor <= iend - HASH_READ_SIZE && MatchesBack(text, anchor, rep2)
        invariant anchor0 <= anchor <= iend && rep1 != 0 && rep2 != 0
        invariant Keeps(win, text, start, d0, store.seqs, store.lits, anchor, anchor, e, rep1, rep2, in1, on1, on2)
        decreases iend - anchor
      {
        BackShares(text, anchor, rep2);
        var rLength := Extend(text, iend, anchor, anchor - rep2, 4);
        e := StoreSecond(win, text, start, d0, store, anchor, rLength, rep1, rep2, e, in1, on1, on2);
        rep1, rep2 := rep2, rep1;
        table[hash(anchor)] := anchor;
        anchor := anchor + rLength;
      }
    }
  }

  /** The four bytes at `at` are those `off` before, where there are such. */
  predicate MatchesBack(text: Text, at: nat, off: nat)
    requires at + 4 <= |text|
  {
    1 <= off <= at && Word(text, at, 4) == Word(text, at - off, 4)
  }

  lemma BackShares(text: Text, at: nat, off: nat)
    requires at + 4 <= |text| && MatchesBack(text, at, off)
    ensures Shared(text, at - off, at, 4)
  {
    WordsDiffer(text, at, at - off, 4, |text|);
  }

  method StoreSecond(win: Window, text: Text, start: nat, ghost d0: Reps, store: SeqStore, anchor: nat, rLength: nat,
                     ghost rep1: nat, ghost rep2: nat, ghost d: Reps, ghost in1: nat, ghost on1: bool, ghost on2: bool)
    returns (ghost e: Reps)
    requires Keeps(win, text, start, d0, store.seqs, store.lits, anchor, anchor, d, rep1, rep2, in1, on1, on2)
    requires rep1 != 0 && rep2 != 0 && rep2 <= anchor && Shared(text, anchor - rep2, anchor, rLength)
    modifies store
    ensures Keeps(win, text, start, d0, store.seqs, store.lits, anchor + rLength, anchor + rLength, e, rep2, rep1, in1, on1, on2)
  {
    hide Keeps;
    e := UpdateRep(d, REPCODE1_TO_OFFBASE, true);
    SecondKeeps(win, text, start, d0, store.seqs, store.lits, anchor, rLength, rep1, rep2, d, in1, on1, on2);
    store.StoreSeq(text, anchor, 0, REPCODE1_TO_OFFBASE, rLength);
  }

  lemma SecondKeeps(win: Window, text: Text, start: nat, d0: Reps, seqs: seq<Stored>, lits: seq<Byte>, anchor: nat, rLength: nat,
                    rep1: nat, rep2: nat, d: Reps, in1: nat, on1: bool, on2: bool)
    requires Keeps(win, text, start, d0, seqs, lits, anchor, anchor, d, rep1, rep2, in1, on1, on2)
    requires rep1 != 0 && rep2 != 0 && rep2 <= anchor && Shared(text, anchor - rep2, anchor, rLength)
    ensures anchor <= |text|
    ensures Keeps(win, text, start, d0, seqs + [Stored(0, REPCODE1_TO_OFFBASE, rLength)], lits + text[anchor..anchor],
                  anchor + rLength, anchor + rLength, UpdateRep(d, REPCODE1_TO_OFFBASE, true), rep2, rep1, in1, on1, on2)
  {
    hide Rebuilds, Reaches, Shared, NewOffsets, InUse;
    KeepsShape(win, text, start, d0, seqs, lits, anchor, anchor, d, rep1, rep2, in1, on1, on2);
    SecondRep(d0, d, rep1, rep2, in1, on1, on2);
    ReachesOn(win, anchor, anchor + rLength, rep1);
    ReachesOn(win, anchor, anchor + rLength, rep2);
    StoredRebuilds(win, text, start, d0, seqs, lits, anchor, d, 0, REPCODE1_TO_OFFBASE, rLength);
    NewOne(seqs, Stored(0, REPCODE1_TO_OFFBASE, rLength));
    InUseOne(seqs, on1, on2, rep1, rep2, Stored(0, REPCODE1_TO_OFFBASE, rLength));
  }

  /** In use, the first one is the decoder's. */
  lemma FirstRep(d0: Reps, d: Reps, rep1: nat, rep2: nat, in1: nat, on1: bool, on2: bool)
    requires Tracks(rep1, rep2, in1, on1, on2, d0, d) && rep1 != 0
    ensures UpdateRep(d, REPCODE1_TO_OFFBASE, false) == d && d.r0 == rep1
  {
  }

  /** Both in use, they swap. */
  lemma SecondRep(d0: Reps, d: Reps, rep1: nat, rep2: nat, in1: nat, on1: bool, on2: bool)
    requires Tracks(rep1, rep2, in1, on1, on2, d0, d) && rep1 != 0 && rep2 != 0
    ensures UpdateRep(d, REPCODE1_TO_OFFBASE, true).r0 == rep2
    ensures Tracks(rep2, rep1, in1, on1, on2, d0, UpdateRep(d, REPCODE1_TO_OFFBASE, true))
  {
  }

  /** The match a search found: stored, and the search goes on behind it. */
  method TakeFound(win: Window, text: Text, start: nat, iend: nat, ghost d0: Reps, store: SeqStore, anchor: nat, ghost from: nat,
                   found: Found, at: nat, rep1_: nat, rep2_: nat, ghost d: Reps, ghost in1: nat, ghost on1: bool, ghost on2: bool)
    returns (next: nat, rep1: nat, rep2: nat, ghost e: Reps)
    requires Keeps(win, text, start, d0, store.seqs, store.lits, anchor, from, d, rep1_, rep2_, in1, on1, on2)
    requires iend <= |text| && iend >= 1 && !found.Cleanup? && PastStart(from, found, at)
    requires GoodFound(text, iend, win.Lowest(iend - 1), anchor, rep1_, found, at)
    modifies store
    ensures from + 4 <= next <= iend && rep1 != 0
    ensures Keeps(win, text, start, d0, store.seqs, store.lits, next, next, e, rep1, rep2, in1, on1, on2)
    ensures found.Offset? ==> NewOffsets(store.seqs) == NewOffsets(old(store.seqs)) + 1
    ensures found.Offset? && Constant(text, win.Lowest(iend - 1), iend) ==> next == iend
  {
    hide Keeps, Shared, Reaches, NewOffsets;
    match found {
      case Rep(m, len) =>
        var mLength := Extend(text, iend, at, m, len);
        StoreRep(win, text, start, d0, store, anchor, at, m, mLength, from, rep1_, rep2_, d, in1, on1, on2);
        next, rep1, rep2, e := at + mLength, rep1_, rep2_, d;
      case Offset(matchIdx) =>
        var ip0, match0, len := CatchUp(text, win.Lowest(iend - 1), anchor, at, matchIdx, 4);
        CandidateReaches(win, ip0, match0, iend);
        var mLength := Extend(text, iend, ip0, match0, len);
        rep2 := rep1_;
        rep1, e := StoreOffset(win, text, start, d0, store, anchor, ip0, match0, mLength, from, rep1_, rep2_, d, in1, on1, on2);
        next := ip0 + mLength;
    }
  }

  /** The table entries written behind a match. */
  method FillTable(table: array<nat>, hash: nat -> nat, current0: nat, ip0: nat)
    requires 2 <= ip0 && forall p :: hash(p) < table.Length
    modifies table
  {
    table[hash(current0 + 2)] := current0 + 2;
    table[hash(ip0 - 2)] := ip0 - 2;
  }

  /** Where the search of a block begins, and how far back a repeat offset may
      reach there. */
  function FirstIp(win: Window, istart: nat, iend: nat): nat
    requires iend >= 1
  {
    istart + if istart == win.Lowest(iend - 1) then 1 else 0
  }

  function MaxRep(win: Window, istart: nat, iend: nat): int
    requires iend >= 1
  {
    FirstIp(win, istart, iend) - win.Lowest(FirstIp(win, istart, iend))
  }

  /** A text of one byte whose first searched position has a candidate `m`, the
      first repeat offset not in use: one match to the end of the block. */
  predicate OneMatch(win: Window, text: Text, istart: nat, iend: nat, in0: nat, stepSize: nat, m: nat)
    requires 1 <= iend <= |text|
  {
    && (in0 == 0 || in0 > MaxRep(win, istart, iend)) && FirstIp(win, istart, iend) + stepSize + 1 + HASH_READ_SIZE < iend
    && Constant(text, win.Lowest(iend - 1), iend) && win.Lowest(iend - 1) <= m < FirstIp(win, istart, iend)
  }

  lemma OneMatchFound(win: Window, text: Text, istart: nat, iend: nat, in0: nat, stepSize: nat, m: nat)
    requires 1 <= iend <= |text| && OneMatch(win, text, istart, iend, in0, stepSize, m)
    ensures var ip := FirstIp(win, istart, iend); ip + 4 <= |text| && Match4Found(text, ip, m, win.Lowest(iend - 1))
  {
    WordsDiffer(text, FirstIp(win, istart, iend), m, 4, |text|);
  }

  function StepSize(targetLength: nat): nat { targetLength + (if targetLength == 0 then 1 else 0) + 1 }

  /** `ZSTD_compressBlock_fast_noDict_generic`: for any table contents and any
      incoming offsets that are the decoder's, 0 standing for one not known,
      replaying what is stored and appending the bytes from the returned
      anchor rebuilds the block, every offset inside the window, and the
      offsets returned are again the decoder's. The second one is not exactly
      when the first was unknown, the second out of reach and one new offset
      stored: then the second is given back though the decoder has the unknown
      one there (`SecondLost` is such a call). A caller need only check
      `Carried`: a second offset known only with the first never comes to that. */
  method CompressBlock(win: Window, text: Text, istart: nat, iend: nat, in0: nat, in1: nat, targetLength: nat, table: array<nat>,
                       hash: nat -> nat, store: SeqStore, ghost d0: Reps)
    returns (anchor: nat, out0: nat, out1: nat, ghost d: Reps)
    requires win.Valid() && win.size >= 1 && win.low <= istart < iend <= |text| && forall p :: hash(p) < table.Length
    requires store.seqs == [] && store.lits == [] && Known(in0, d0.r0) && Known(in1, d0.r1)
    modifies table, store
    ensures istart <= anchor <= iend
    ensures Rebuild(win, text[..istart], d0, store.seqs, store.lits) == Some(St(text[..anchor], d, |store.lits|))
    ensures Known(out0, d.r0)
    ensures Known(out1, d.r1) <==>
              (in0 == 0 && in1 > MaxRep(win, istart, iend) && NewOffsets(store.seqs) == 1 ==> in1 == d0.r0)
    ensures Carried(in0, in1, d0) ==> Carried(out0, out1, d)
    ensures in0 != 0 ==> out0 == d.r0
    ensures in0 != 0 && in1 != 0 ==> out1 == d.r1
    ensures CodesKnown(store.seqs, in0 != 0, in1 != 0)
    ensures out0 in {in0, in1} || out0 <= iend
    ensures out1 in {in0, in1} || out1 <= iend
    ensures OneMatch(win, text, istart, iend, in0, StepSize(targetLength), old(table[hash(FirstIp(win, istart, iend))])) ==>
              NewOffsets(store.seqs) == 1
  {
    hide Keeps, Rebuild, Match4Found, NewOffsets, CodesKnown, Constant, Carried;
    var ilimit := if iend < HASH_READ_SIZE then 0 else iend - HASH_READ_SIZE;
    var stepSize := StepSize(targetLength);
    var ip0 := FirstIp(win, istart, iend);
    ghost var first, m := ip0, table[hash(ip0)];
    ghost var one := OneMatch(win, text, istart, iend, in0, stepSize, m);
    if one {
      OneMatchFound(win, text, istart, iend, in0, stepSize, m);
    }
    NoOffsets();
    var maxRep := ip0 - win.Lowest(ip0);
    var saved2: nat, rep2: nat := if in1 > maxRep then in1 else 0, if in1 > maxRep then 0 else in1;
    var saved1: nat, rep1: nat := if in0 > maxRep then in0 else 0, if in0 > maxRep then 0 else in0;
    ghost var on1, on2 := in0 != 0 && in0 <= maxRep, in1 != 0 && in1 <= maxRep;
    anchor, d := istart, d0;
    StartKeeps(win, text, istart, ip0, d0, in0, in1, rep1, rep2);
    while ip0 + stepSize + 1 < ilimit
      invariant istart <= anchor <= ip0 <= iend
      invariant Keeps(win, text, istart, d0, store.seqs, store.lits, anchor, ip0, d, rep1, rep2, in1, on1, on2)
      invariant one ==> if ip0 == first then store.seqs == [] && rep1 == 0 && table[hash(first)] == m
                        else ip0 == iend && NewOffsets(store.seqs) == 1
      decreases iend - ip0
    {
      KeepsUsable(win, text, istart, d0, store.seqs, store.lits, anchor, ip0, d, rep1, rep2, in1, on1, on2);
      var found, at, current0 := Search(text, iend, win.Lowest(iend - 1), anchor, ip0, stepSize, rep1, table, hash);
      if found.Cleanup? {
        break;
      }
      anchor, rep1, rep2, d := TakeFound(win, text, istart, iend, d0, store, anchor, ip0, found, at, rep1, rep2, d, in1, on1, on2);
      ip0 := anchor;
      if anchor <= ilimit {
        FillTable(table, hash, current0, anchor);
        anchor, rep1, rep2, d := Immediate(win, text, istart, iend, d0, store, anchor, rep1, rep2, d, in1, on1, on2, table, hash);
        ip0 := anchor;
      }
    }
    if saved1 != 0 && rep1 != 0 {
      saved2 := saved1;
    }
    out0 := if rep1 != 0 then rep1 else saved1;
    out1 := if rep2 != 0 then rep2 else saved2;
    KeepsEnds(win, text, istart, d0, store.seqs, store.lits, anchor, ip0, d, rep1, rep2, in0, in1, maxRep, out0, out1);
  }

  lemma KeepsUsable(win: Window, text: Text, start: nat, d0: Reps, seqs: seq<Stored>, lits: seq<Byte>, anchor: nat, from: nat, d: Reps,
                    rep1: nat, rep2: nat, in1: nat, on1: bool, on2: bool)
    requires Keeps(win, text, start, d0, seqs, lits, anchor, from, d, rep1, rep2, in1, on1, on2)
    ensures rep1 <= from && rep2 <= from
  {
    hide Rebuilds, Tracks, InUse, Counted;
  }

  /** What the invariant says of the offsets given back. */
  lemma KeepsEnds(win: Window, text: Text, start: nat, d0: Reps, seqs: seq<Stored>, lits: seq<Byte>, anchor: nat, from: nat, d: Reps,
                  rep1: nat, rep2: nat, in0: nat, in1: nat, maxRep: nat, out0: nat, out1: nat)
    requires Keeps(win, text, start, d0, seqs, lits, anchor, from, d, rep1, rep2, in1, in0 != 0 && in0 <= maxRep, in1 != 0 && in1 <= maxRep)
    requires Known(in0, d0.r0) && Known(in1, d0.r1)
    requires out0 == if rep1 != 0 then rep1 else if in0 > maxRep then in0 else 0
    requires out1 == if rep2 != 0 then rep2 else if in0 > maxRep && rep1 != 0 then in0 else if in1 > maxRep then in1 else 0
    ensures anchor <= |text| && start <= |text| && Rebuild(win, text[..start], d0, seqs, lits) == Some(St(text[..anchor], d, |lits|))
    ensures Known(out0, d.r0)
    ensures Known(out1, d.r1) <==> (in0 == 0 && in1 > maxRep && NewOffsets(seqs) == 1 ==> in1 == d0.r0)
    ensures Carried(in0, in1, d0) ==> Carried(out0, out1, d)
    ensures in0 != 0 ==> out0 == d.r0
    ensures in0 != 0 && in1 != 0 ==> out1 == d.r1
    ensures CodesKnown(seqs, in0 != 0, in1 != 0)
    ensures (out0 in {in0, in1} || out0 <= from) && (out1 in {in0, in1} || out1 <= from)
  {
    hide Usable, Rebuild, CodesKnown, NewOffsets, KnownTwo;
    KeepsUsable(win, text, start, d0, seqs, lits, anchor, from, d, rep1, rep2, in1, in0 != 0 && in0 <= maxRep, in1 != 0 && in1 <= maxRep);
    KnownMore(seqs, in0 != 0 && in0 <= maxRep, in1 != 0 && in1 <= maxRep, in0 != 0, in1 != 0);
  }

  /** A call that gives back an offset the decoder does not hold: the first one
      not known, the second one out of reach, and one match. */
  method SecondLost() returns (seqs: seq<Stored>, lits: seq<Byte>, anchor: nat, out0: nat, out1: nat)
    ensures var win, text := BinaryTree.Window(2, 2, 0x10_0000, 0), Blank(40);
            && anchor <= 40 && Rebuild(win, text[..8], Reps(1, 1000, 8), seqs, lits).Some?
            && Rebuild(win, text[..8], Reps(1, 1000, 8), seqs, lits).value.out == text[..anchor]
            && !Known(out1, Rebuild(win, text[..8], Reps(1, 1000, 8), seqs, lits).value.rep.r1)
  {
    hide Rebuild;
    var win := BinaryTree.Window(2, 2, 0x10_0000, 0);
    var table := new nat[1](_ => 4);
    var store := new SeqStore();
    ghost var d;
    anchor, out0, out1, d := CompressBlock(win, Blank(40), 8, 40, 0, 1000, 0, table, _ => 0, store, Reps(1, 1000, 8));
    seqs, lits := store.seqs, store.lits;
  }

  function Blank(n: nat): (t: Text)
    ensures |t| == n
  {
    seq(n, _ => 0)
  }

  lemma StartKeeps(win: Window, text: Text, istart: nat, ip0: nat, d0: Reps, in0: nat, in1: nat, rep1: nat, rep2: nat)
    requires win.Valid() && win.size >= 1 && win.low <= istart <= ip0 && istart <= |text|
    requires Known(in0, d0.r0) && Known(in1, d0.r1) && win.Lowest(ip0) <= ip0
    requires var maxRep := ip0 - win.Lowest(ip0); rep2 == (if in1 > maxRep then 0 else in1) && rep1 == (if in0 > maxRep then 0 else in0)
    ensures Keeps(win, text, istart, d0, [], [], istart, ip0, d0, rep1, rep2, in1, in0 != 0 && in0 <= ip0 - win.Lowest(ip0),
                  in1 != 0 && in1 <= ip0 - win.Lowest(ip0))
  {
  }

  // A run of blocks

  /** A block as it is sent: its sequences, literals and last literals; or raw. */
  datatype Sent = Coded(seqs: seq<Stored>, lits: seq<Byte>, tail: seq<Byte>) | Raw(bytes: seq<Byte>)

  function DecodeOne(win: Window, out: seq<Byte>, rep: Reps, b: Sent): Option<(seq<Byte>, Reps)> {
    match b
    case Raw(bytes) => Some((out + bytes, rep))
    case Coded(seqs, lits, tail) =>
      match Rebuild(win, out, rep, seqs, lits)
      case None => None
      case Some(st) => if st.used == |lits| then Some((st.out + tail, st.rep)) else None
  }

  /** What a decoder makes of the first `n` blocks. */
  function DecodeRun(wins: seq<Window>, prefix: seq<Byte>, rep: Reps, sent: seq<Sent>, n: nat): Option<(seq<Byte>, Reps)>
    requires n <= |sent| && n <= |wins|
  {
    if n == 0 then Some((prefix, rep))
    else
      match DecodeRun(wins, prefix, rep, sent, n - 1)
      case None => None
      case Some((out, r)) => DecodeOne(wins[n - 1], out, r, sent[n - 1])
  }

  lemma {:induction false} DecodePrefix(wins: seq<Window>, prefix: seq<Byte>, rep: Reps, a: seq<Sent>, b: seq<Sent>, n: nat)
    requires n <= |a| <= |b| && n <= |wins| && b[..|a|] == a
    ensures DecodeRun(wins, prefix, rep, b, n) == DecodeRun(wins, prefix, rep, a, n)
  {
    if n > 0 {
      DecodePrefix(wins, prefix, rep, a, b, n - 1);
      assert b[n - 1] == b[..|a|][n - 1];
    }
  }

  /** Blocks cut at `cuts`, each in its own window. */
  ghost predicate Cuts(wins: seq<Window>, text: Text, cuts: seq<nat>) {
    && |cuts| == |wins| + 1 && cuts[|wins|] <= |text|
    && forall i :: 0 <= i < |wins| ==> wins[i].Valid() && wins[i].size >= 1 && wins[i].low <= cuts[i] && Ordered(cuts, i)
  }

  predicate Ordered(cuts: seq<nat>, i: nat)
    requires i + 1 < |cuts|
  {
    cuts[i] < cuts[i + 1]
  }

  lemma {:induction false} CutInText(wins: seq<Window>, text: Text, cuts: seq<nat>, i: nat)
    requires Cuts(wins, text, cuts) && i <= |wins|
    ensures |cuts| == |wins| + 1 && cuts[i] <= |text|
    decreases |wins| - i
  {
    if i < |wins| {
      assert Ordered(cuts, i);
      CutInText(wins, text, cuts, i + 1);
    }
  }

  /** One more block sent is one more decoded. */
  lemma SentOne(wins: seq<Window>, text: Text, start: nat, d0: Reps, sent: seq<Sent>, b: Sent, at: nat, end: nat, d: Reps, e: Reps)
    requires |sent| < |wins| && start <= |text| && at <= end <= |text|
    requires DecodeRun(wins, text[..start], d0, sent, |sent|) == Some((text[..at], d))
    requires DecodeOne(wins[|sent|], text[..at], d, b) == Some((text[..end], e))
    ensures DecodeRun(wins, text[..start], d0, sent + [b], |sent| + 1) == Some((text[..end], e))
  {
    assert (sent + [b])[..|sent|] == sent;
    DecodePrefix(wins, text[..start], d0, sent, sent + [b], |sent|);
  }

  /** A run of blocks, some of them sent raw and their offsets dropped: a
      decoder gets the text back, and the two offsets stay the decoder's. */
  method CompressRun(wins: seq<Window>, text: Text, cuts: seq<nat>, raw: seq<bool>, in0: nat, in1: nat, targetLength: nat,
                     table: array<nat>, hash: nat -> nat, ghost d0: Reps)
    returns (sent: seq<Sent>, out0: nat, out1: nat, ghost d: Reps)
    requires Cuts(wins, text, cuts) && |raw| == |wins| && Carried(in0, in1, d0) && forall p :: hash(p) < table.Length
    modifies table
    ensures cuts[0] <= |text| && |sent| == |wins|
    ensures DecodeRun(wins, text[..cuts[0]], d0, sent, |wins|) == Some((text[..cuts[|wins|]], d)) && Carried(out0, out1, d)
  {
    hide Rebuild, Carried;
    sent, out0, out1, d := [], in0, in1, d0;
    CutInText(wins, text, cuts, 0);
    var i := 0;
    while i < |wins|
      invariant 0 <= i == |sent| <= |wins| && cuts[i] <= |text| && Carried(out0, out1, d)
      invariant DecodeRun(wins, text[..cuts[0]], d0, sent, i) == Some((text[..cuts[i]], d))
    {
      assert Ordered(cuts, i);
      CutInText(wins, text, cuts, i + 1);
      var b;
      b, out0, out1, d := CompressOne(wins, text, cuts, raw[i], i, out0, out1, targetLength, table, hash, d0, sent, d);
      sent := sent + [b];
      i := i + 1;
    }
  }

  method CompressOne(wins: seq<Window>, text: Text, cuts: seq<nat>, raw: bool, i: nat, in0: nat, in1: nat, targetLength: nat,
                     table: array<nat>, hash: nat -> nat, ghost d0: Reps, ghost sent: seq<Sent>, ghost d: Reps)
    returns (b: Sent, out0: nat, out1: nat, ghost e: Reps)
    requires Cuts(wins, text, cuts) && i < |wins| && i == |sent| && Carried(in0, in1, d) && forall p :: hash(p) < table.Length
    requires cuts[i] < cuts[i + 1] <= |text| && cuts[0] <= |text|
    requires DecodeRun(wins, text[..cuts[0]], d0, sent, i) == Some((text[..cuts[i]], d))
    modifies table
    ensures DecodeRun(wins, text[..cuts[0]], d0, sent + [b], i + 1) == Some((text[..cuts[i + 1]], e)) && Carried(out0, out1, e)
  {
    hide Rebuild, DecodeRun, MaxRep, NewOffsets;
    var store := new SeqStore();
    var anchor;
    anchor, out0, out1, e := CompressBlock(wins[i], text, cuts[i], cuts[i + 1], in0, in1, targetLength, table, hash, store, d);
    if raw {
      b, out0, out1, e := Raw(text[cuts[i]..cuts[i + 1]]), in0, in1, d;
      assert text[..cuts[i]] + text[cuts[i]..cuts[i + 1]] == text[..cuts[i + 1]];
    } else {
      b := Coded(store.seqs, store.lits, text[anchor..cuts[i + 1]]);
      assert text[..anchor] + text[anchor..cuts[i + 1]] == text[..cuts[i + 1]];
    }
    SentOne(wins, text, cuts[0], d0, sent, b, cuts[i], cuts[i + 1], d, e);
  }
}
