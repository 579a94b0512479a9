/** Executing one sequence over a segment of output, the history before the
    segment, and the literals (RFC 8878, section 3.1.1.4). */
module SequenceExec {
  import opened BitSeq
  import opened MatchCopy

  const WILDCOPY_OVERLENGTH: nat := 32

  datatype SeqError = NotEnoughLiterals | BlockTooLarge | OffsetTooFar | OffsetPastWindow | OffsetBeforeDict

  datatype Outcome = Done(op: nat, lit: nat) | Failed(error: SeqError)

  /** History before the segment's first byte; `dict` if it is a dictionary's. */
  datatype ExtHistory = ExtHistory(bytes: seq<Byte>, dict: bool)

  /** The block's literals and how far they go, the output's limit, the window. */
  datatype Limits = Limits(lits: seq<Byte>, litLimit: nat, oendW: nat, window: nat, ext: ExtHistory)

  /** What a sequence is replayed over: the history, then the segment so far. */
  function History(lim: Limits, segment: seq<Byte>): seq<Byte> { lim.ext.bytes + segment }

  /** The sequence a byte at a time: its literals, then its match. */
  function Replayed(lim: Limits, segment: seq<Byte>, lit: nat, ll: nat, ml: nat, offset: nat): seq<Byte>
    requires lit + ll <= |lim.lits| && 1 <= offset <= |lim.ext.bytes| + |segment| + ll
  {
    Replay(History(lim, segment + lim.lits[lit..lit + ll]), offset, ml)[|lim.ext.bytes|..]
  }

  /** An offset may go back through the history there is, and past the window
      only into a dictionary, while the segment fits the window. */
  predicate OffsetAllowed(lim: Limits, useExt: bool, avail: nat, offset: nat) {
    && 1 <= offset <= avail + (if useExt then |lim.ext.bytes| else 0)
    && (offset <= lim.window || (useExt && lim.ext.dict && avail <= lim.window))
  }

  predicate Accepted(lim: Limits, useExt: bool, op: nat, lit: nat, ll: nat, ml: nat, offset: nat) {
    && lit + ll <= lim.litLimit && op + ll + ml <= lim.oendW
    && OffsetAllowed(lim, useExt, op + ll, offset)
  }

  /** `copy_literals`: 16 bytes, then `wildcopy`; 31 bytes of slack at most. */
  method CopyLiterals(buf: array<Byte>, op: nat, lits: seq<Byte>, lit: nat, ll: nat)
    requires lit + ll + 31 <= |lits| && op + ll + 31 <= buf.Length
    modifies buf
    ensures buf[..op + ll] == old(buf[..op]) + lits[lit..lit + ll] && Outside(old(buf[..]), buf[..], op, op + ll + 31)
  {
    ghost var start := buf[..];
    assert start[..op] + lits[lit..lit + 0] == start[..op + 0];
    assert LitsSoFar(start, buf[..], op, lits, lit, 0);
    hide LitsSoFar;
    PutLits(buf, start, op, lits, lit, 0);
    var n := 16;
    if ll > 16 {
      PutLits(buf, start, op, lits, lit, n);
      n := n + 16;
      while n < ll
        invariant 32 <= n <= ll + 31 && LitsSoFar(start, buf[..], op, lits, lit, n)
        decreases ll + 31 - n
      {
        PutLits(buf, start, op, lits, lit, n);
        PutLits(buf, start, op, lits, lit, n + 16);
        n := n + 32;
      }
    }
    LitsThere(start, buf[..], op, lits, lit, n, ll);
  }

  /** The first `n` literals are there. */
  ghost predicate LitsSoFar(start: seq<Byte>, now: seq<Byte>, op: nat, lits: seq<Byte>, lit: nat, n: nat) {
    && lit + n <= |lits| && op + n <= |now| && op <= |start|
    && now[..op + n] == start[..op] + lits[lit..lit + n] && Outside(start, now, op, op + n)
  }

  lemma LitsThere(start: seq<Byte>, now: seq<Byte>, op: nat, lits: seq<Byte>, lit: nat, n: nat, ll: nat)
    requires LitsSoFar(start, now, op, lits, lit, n) && ll <= n <= ll + 31 && op + ll + 31 <= |now|
    ensures now[..op + ll] == start[..op] + lits[lit..lit + ll] && Outside(start, now, op, op + ll + 31)
  {
    assert now[..op + ll] == now[..op + n][..op + ll];
    assert (start[..op] + lits[lit..lit + n])[..op + ll] == start[..op] + lits[lit..lit + ll];
    OutsideLonger(start, now, op, op + n, op + ll + 31);
  }

  /** 16 more literals. */
  method PutLits(buf: array<Byte>, ghost start: seq<Byte>, op: nat, lits: seq<Byte>, lit: nat, n: nat)
    requires LitsSoFar(start, buf[..], op, lits, lit, n) && lit + n + 16 <= |lits| && op + n + 16 <= buf.Length
    modifies buf
    ensures LitsSoFar(start, buf[..], op, lits, lit, n + 16)
  {
    ghost var before := buf[..];
    forall k | 0 <= k < 16 {
      buf[op + n + k] := lits[lit + n + k];
    }
    assert buf[..op + n + 16] == before[..op + n] + lits[lit + n..lit + n + 16];
    assert lits[lit..lit + n] + lits[lit + n..lit + n + 16] == lits[lit..lit + n + 16];
    assert start[op + n + 16..] == start[op + n..][16..] && before[op + n + 16..] == before[op + n..][16..];
  }

  /** `wildcopy` from another buffer. */
  method WildcopyFrom(buf: array<Byte>, at: nat, src: seq<Byte>, from: nat, len: nat)
    requires 1 <= len && from + len + 31 <= |src| && at + len + 31 <= buf.Length
    modifies buf
    ensures buf[..at + len] == old(buf[..at]) + src[from..from + len] && Outside(old(buf[..]), buf[..], at, at + len + 31)
  {
    ghost var start := buf[..];
    assert start[..at] + src[from..from + 0] == start[..at + 0];
    assert LitsSoFar(start, buf[..], at, src, from, 0);
    hide LitsSoFar;
    PutLits(buf, start, at, src, from, 0);
    var n := 16;
    if len > 16 {
      while n < len
        invariant 16 <= n <= len + 31 && LitsSoFar(start, buf[..], at, src, from, n)
        decreases len + 31 - n
      {
        PutLits(buf, start, at, src, from, n);
        PutLits(buf, start, at, src, from, n + 16);
        n := n + 32;
      }
    }
    LitsThere(start, buf[..], at, src, from, n, len);
  }

  // Matches

  /** A match inside the segment is the replay over all the history. */
  lemma ReplayInside(ext: seq<Byte>, s: seq<Byte>, o: nat, n: nat)
    requires 1 <= o <= |s|
    ensures Replay(ext + s, o, n)[|ext|..] == Replay(s, o, n)
  {
    var t := ext + Replay(s, o, n);
    ReplayRepeats(s, o, n);
    forall i | |ext + s| <= i < |t| ensures t[i] == t[i - o] {
      assert t[i] == Replay(s, o, n)[i - |ext|];
    }
    assert t[..|ext + s|] == ext + s;
    RepeatsIsReplay(t, |ext + s|, o, n);
    assert t[..|ext + s| + n] == t;
  }

  /** A match that starts before the segment: the history's last bytes, then
      the replay goes on at the segment's first byte. */
  lemma ReplayAcross(ext: seq<Byte>, s: seq<Byte>, o: nat, n: nat, head: nat)
    requires |s| < o <= |ext| + |s| && head == (if o - |s| < n then o - |s| else n)
    ensures var back := |ext| - (o - |s|);
            var t := s + ext[back..back + head];
            Replay(ext + s, o, n)[|ext|..] == if n == head then t else Replay(t, o, n - head)
  {
    hide Replay;
    var back := |ext| - (o - |s|);
    var t := s + ext[back..back + head];
    var q := if n == head then t else Replay(t, o, n - head);
    if n > head {
      ReplayRepeats(t, o, n - head);
    }
    var r := ext + q;
    forall i | |ext + s| <= i < |r| ensures r[i] == r[i - o] {
      AcrossAt(ext, s, t, q, o, head, i);
    }
    assert q[..|s|] == s;
    assert r[..|ext + s|] == ext + s;
    RepeatsIsReplay(r, |ext + s|, o, n);
    assert r[..|ext + s| + n] == r && r[|ext|..] == q;
  }

  lemma AcrossAt(ext: seq<Byte>, s: seq<Byte>, t: seq<Byte>, q: seq<Byte>, o: nat, head: nat, i: nat)
    requires |s| < o <= |ext| + |s| && head <= o - |s| && |ext| + |s| <= i < |ext| + |q| && |t| <= |q| && q[..|t|] == t
    requires t == s + ext[|ext| - (o - |s|)..|ext| - (o - |s|) + head]
    requires q == t || Repeats(q, |t|, o)
    ensures (ext + q)[i] == (ext + q)[i - o]
  {
    var j := i - |ext|;
    if j < |t| {
      assert q[j] == q[..|t|][j];
    } else {
      assert q[j] == q[j - o];
    }
  }

  /** A match over segment `s`, with the history before it: copied in chunks
      where it ends well before the history does. */
  method CopyFromHistory(buf: array<Byte>, at: nat, ext: seq<Byte>, ml: nat, offset: nat)
    requires 1 <= ml && at + ml + 31 <= buf.Length && at < offset <= |ext| + at
    modifies buf
    ensures buf[..at + ml] == Replay(ext + old(buf[..at]), offset, ml)[|ext|..]
    ensures Outside(old(buf[..]), buf[..], at, at + ml + 31)
  {
    hide Replay, Copied, Outside;
    ghost var start := buf[..];
    var back := offset - at;
    var head := if back < ml then back else ml;
    ReplayAcross(ext, start[..at], offset, ml, head);
    if back >= ml + WILDCOPY_OVERLENGTH {
      WildcopyFrom(buf, at, ext, |ext| - back, ml);
      return;
    }
    PutHead(buf, at, ext[|ext| - back..|ext| - back + head]);
    OutsideLonger(start, buf[..], at, at + head, at + ml + 31);
    assert buf[..at + head] == start[..at] + ext[|ext| - back..|ext| - back + head];
    if ml > head {
      ghost var before := buf[..];
      CopyMatch(buf, at + head, offset, ml - head);
      AfterHead(start, before, buf[..], at, head, offset, ml);
    }
  }

  method PutHead(buf: array<Byte>, at: nat, head: seq<Byte>)
    requires at + |head| <= buf.Length
    modifies buf
    ensures buf[..at + |head|] == old(buf[..at]) + head && Outside(old(buf[..]), buf[..], at, at + |head|)
  {
    ghost var start := buf[..];
    forall k | 0 <= k < |head| {
      buf[at + k] := head[k];
    }
    assert buf[..at + |head|] == start[..at] + head;
  }

  lemma AfterHead(start: seq<Byte>, before: seq<Byte>, now: seq<Byte>, at: nat, head: nat, o: nat, ml: nat)
    requires head < ml && Outside(start, before, at, at + ml + 31) && Copied(before, now, at + head, o, ml - head)
    ensures Outside(start, now, at, at + ml + 31) && now[..at + ml] == Replay(before[..at + head], o, ml - head)
  {
    assert now[..at] == now[..at + head][..at] && before[..at] == before[..at + head][..at];
  }

  /** `exec_sequence` with its two cold branches: it accepts exactly the
      sequences within the literals, the room and the history allowed, and
      appends exactly the replayed bytes, touching nothing else but slack. */
  method ExecSequence(buf: array<Byte>, lim: Limits, useExt: bool, op: nat, lit: nat, ll: nat, ml: nat, offset: nat)
    returns (r: Outcome)
    requires lim.litLimit + 32 <= |lim.lits| && op <= lim.oendW && lim.oendW + 32 <= buf.Length && lit <= lim.litLimit && 1 <= ml
    modifies buf
    ensures r.Done? <==> Accepted(lim, useExt, op, lit, ll, ml, offset)
    ensures r.Done? ==> r == Done(op + ll + ml, lit + ll)
                        && buf[..op + ll + ml] == Replayed(lim, old(buf[..op]), lit, ll, ml, offset)
    ensures r.Done? ==> Outside(old(buf[..]), buf[..], op, op + ll + ml + 31)
    ensures r.Failed? ==> buf[..] == old(buf[..])
  {
    var avail := op + ll;
    if offset > lim.window {
      if !useExt {
        return Failed(OffsetPastWindow);
      }
      if !lim.ext.dict || avail > lim.window {
        return Failed(OffsetPastWindow);
      }
    }
    if lit + ll > lim.litLimit {
      return Failed(NotEnoughLiterals);
    }
    if op + ll + ml > lim.oendW {
      return Failed(BlockTooLarge);
    }
    if offset == 0 || offset > avail {
      if !useExt || offset == 0 {
        return Failed(OffsetTooFar);
      }
      if offset - avail > |lim.ext.bytes| {
        return Failed(if lim.ext.dict then OffsetBeforeDict else OffsetTooFar);
      }
    }
    CopyBoth(buf, lim, op, lit, ll, ml, offset);
    r := Done(op + ll + ml, lit + ll);
  }

  /** The literals, then the match, from the segment or from before it. */
  method CopyBoth(buf: array<Byte>, lim: Limits, op: nat, lit: nat, ll: nat, ml: nat, offset: nat)
    requires lit + ll + 31 <= |lim.lits| && 1 <= ml && op + ll + ml + 31 <= buf.Length
    requires 1 <= offset <= |lim.ext.bytes| + op + ll
    modifies buf
    ensures buf[..op + ll + ml] == Replayed(lim, old(buf[..op]), lit, ll, ml, offset)
    ensures Outside(old(buf[..]), buf[..], op, op + ll + ml + 31)
  {
    hide Replay, Copied;
    ghost var start := buf[..];
    var avail := op + ll;
    CopyLiterals(buf, op, lim.lits, lit, ll);
    ghost var s := buf[..avail];
    ghost var before := buf[..];
    if offset <= avail {
      CopyMatch(buf, avail, offset, ml);
      ReplayInside(lim.ext.bytes, s, offset, ml);
      CopiedFacts(before, buf[..], avail, offset, ml);
    } else {
      CopyFromHistory(buf, avail, lim.ext.bytes, ml, offset);
    }
    BothOutside(start, before, buf[..], op, avail, ml);
  }

  lemma CopiedFacts(before: seq<Byte>, now: seq<Byte>, h: nat, o: nat, ml: nat)
    requires Copied(before, now, h, o, ml)
    ensures now[..h + ml] == Replay(before[..h], o, ml) && Outside(before, now, h, h + ml + 31)
  {
  }

  lemma BothOutside(a: seq<Byte>, b: seq<Byte>, c: seq<Byte>, op: nat, avail: nat, ml: nat)
    requires op <= avail && Outside(a, b, op, avail + 31) && Outside(b, c, avail, avail + ml + 31)
    ensures Outside(a, c, op, avail + ml + 31)
  {
    OutsideLonger(a, b, op, avail + 31, avail + ml + 31);
    assert b[..op] == b[..avail][..op] && c[..op] == c[..avail][..op];
  }
}
