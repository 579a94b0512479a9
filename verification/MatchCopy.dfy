/** Match copies of sequence execution: chunks that overlap and overshoot,
    against a copy of one byte at a time. */
module MatchCopy {
  import opened BitSeq
  import opened Nums

  const WILDCOPY_OVERLENGTH: nat := 32

  /** From position `h` on, each byte is the one `o` before it. */
  ghost predicate Repeats(s: seq<Byte>, h: nat, o: nat) {
    1 <= o <= h <= |s| && forall i :: h <= i < |s| ==> s[i] == s[i - o]
  }

  /** The copy a byte at a time. */
  function Replay(h: seq<Byte>, o: nat, n: nat): (s: seq<Byte>)
    requires 1 <= o <= |h|
    ensures |s| == |h| + n && s[..|h|] == h
  {
    if n == 0 then h else var r := Replay(h, o, n - 1); r + [r[|r| - o]]
  }

  /** A repeating string is that copy. */
  lemma {:induction false} RepeatsIsReplay(s: seq<Byte>, h: nat, o: nat, n: nat)
    requires Repeats(s, h, o) && h + n <= |s|
    ensures s[..h + n] == Replay(s[..h], o, n)
  {
    if n > 0 {
      RepeatsIsReplay(s, h, o, n - 1);
      assert s[..h + n] == s[..h + n - 1] + [s[h + n - 1]];
    }
  }

  lemma {:induction false} ReplayRepeats(h: seq<Byte>, o: nat, n: nat)
    requires 1 <= o <= |h|
    ensures Repeats(Replay(h, o, n), |h|, o)
  {
    if n > 0 {
      ReplayRepeats(h, o, n - 1);
    }
  }

  /** `d` is `o`, twice `o`, ... */
  predicate Multiple(d: nat, o: nat)
    requires o >= 1
    decreases d
  {
    d == o || (d > o && Multiple(d - o, o))
  }

  /** What repeats at `o` repeats at its multiples, that much later. */
  lemma {:induction false} RepeatsFarther(s: seq<Byte>, h: nat, o: nat, d: nat, i: nat)
    requires Repeats(s, h, o) && Multiple(d, o) && h + d - o <= i < |s|
    ensures d <= i && s[i] == s[i - d]
    decreases d
  {
    if d > o {
      RepeatsFarther(s, h, o, d - o, i);
    }
  }

  /** Only `lo..hi` may differ. */
  ghost predicate Outside(a: seq<Byte>, b: seq<Byte>, lo: nat, hi: nat) {
    |a| == |b| && lo <= hi <= |a| && a[..lo] == b[..lo] && a[hi..] == b[hi..]
  }

  lemma OutsideTrans(a: seq<Byte>, b: seq<Byte>, c: seq<Byte>, lo: nat, m: nat, hi: nat)
    requires Outside(a, b, lo, m) && Outside(b, c, lo, hi) && m <= hi
    ensures Outside(a, c, lo, hi)
  {
    assert a[hi..] == a[m..][hi - m..] && b[hi..] == b[m..][hi - m..];
  }

  lemma OutsideLonger(a: seq<Byte>, b: seq<Byte>, lo: nat, m: nat, hi: nat)
    requires Outside(a, b, lo, m) && m <= hi <= |a|
    ensures Outside(a, b, lo, hi)
  {
    assert a[hi..] == a[m..][hi - m..] && b[hi..] == b[m..][hi - m..];
  }

  /** One load of `w` bytes, then one store. */
  method CopyChunk(buf: array<Byte>, dst: nat, src: nat, w: nat)
    requires src + w <= buf.Length && dst + w <= buf.Length
    modifies buf
    ensures buf[..] == old(buf[..dst]) + old(buf[src..src + w]) + old(buf[dst + w..])
  {
    var word := buf[src..src + w];
    forall k | 0 <= k < w {
      buf[dst + k] := word[k];
    }
  }

  /** A chunk no wider than its distance continues the repetition. */
  lemma ChunkRepeats(s: seq<Byte>, h: nat, o: nat, n: nat, d: nat, w: nat)
    requires |s| == h + n && Repeats(s, h, o) && Multiple(d, o) && w <= d <= h + n && d - o <= n
    ensures Repeats(s + s[|s| - d..|s| - d + w], h, o)
  {
    var t := s + s[|s| - d..|s| - d + w];
    forall i | h <= i < |t| ensures t[i] == t[i - o] {
      if i >= |s| {
        var j := i - |s|;
        assert t[i] == s[|s| - d + j];
        if d == o {
        } else if j < o {
          RepeatsFarther(s, h, o, d - o, i - o);
        } else {
          assert t[i - o] == s[|s| - d + j - o];
          assert |s| - d + j >= h;
        }
      }
    }
  }

  lemma SliceOf(b: seq<Byte>, k: nat, i: nat, j: nat)
    requires i <= j <= k <= |b|
    ensures b[..k][i..j] == b[i..j]
  {
  }

  /** `w` more bytes of the match at distance `d`, `n` being there. */
  method Extend(buf: array<Byte>, h: nat, o: nat, n: nat, d: nat, w: nat)
    requires h + n + w <= buf.Length && Repeats(buf[..h + n], h, o)
    requires Multiple(d, o) && w <= d <= h + n && d - o <= n
    modifies buf
    ensures Repeats(buf[..h + n + w], h, o) && Outside(old(buf[..]), buf[..], h, h + n + w)
    ensures buf[..h + n] == old(buf[..h + n])
  {
    hide Repeats, Multiple;
    ghost var s := buf[..h + n];
    ChunkRepeats(s, h, o, n, d, w);
    SliceOf(buf[..], h + n, h + n - d, h + n - d + w);
    CopyChunk(buf, h + n, h + n - d, w);
    assert buf[..h + n + w] == s + s[|s| - d..|s| - d + w];
  }

  /** `wildcopy` at distance `d`, after the `n` bytes there: 16-byte chunks. */
  method Wildcopy(buf: array<Byte>, h: nat, o: nat, n: nat, d: nat, len: nat) returns (m: nat)
    requires len >= 1 && h + n + len + 31 <= buf.Length && Repeats(buf[..h + n], h, o)
    requires Multiple(d, o) && 16 <= d <= h + n && d - o <= n
    modifies buf
    ensures n + len <= m <= n + len + 31 && Repeats(buf[..h + m], h, o) && Outside(old(buf[..]), buf[..], h, h + m)
  {
    hide Repeats, Outside, Multiple;
    ghost var start := buf[..];
    Extend(buf, h, o, n, d, 16);
    m := n + 16;
    if len <= 16 {
      return;
    }
    while m < n + len
      invariant n + 16 <= m <= n + len + 31 && Repeats(buf[..h + m], h, o) && Outside(start, buf[..], h, h + m)
      decreases n + len + 31 - m
    {
      ghost var s0 := buf[..];
      Extend(buf, h, o, m, d, 16);
      ghost var s1 := buf[..];
      Extend(buf, h, o, m + 16, d, 16);
      OutsideTrans(start, s0, s1, h, h + m, h + m + 16);
      OutsideTrans(start, s1, buf[..], h, h + m + 16, h + m + 32);
      m := m + 32;
    }
  }

  /** Chunks of `w` bytes until `len` are there: `wildcopy_overlap8`, `wildcopy32`. */
  method ChunkLoop(buf: array<Byte>, h: nat, o: nat, n: nat, d: nat, len: nat, w: nat) returns (m: nat)
    requires 1 <= w <= 32 && len >= 1 && h + n + len + w - 1 <= buf.Length && Repeats(buf[..h + n], h, o)
    requires Multiple(d, o) && w <= d <= h + n && d - o <= n
    modifies buf
    ensures n + len <= m <= n + len + w - 1 && Repeats(buf[..h + m], h, o) && Outside(old(buf[..]), buf[..], h, h + m)
  {
    hide Repeats, Outside, Multiple;
    ghost var start := buf[..];
    Extend(buf, h, o, n, d, w);
    m := n + w;
    while m < n + len
      invariant n + w <= m <= n + len + w - 1 && Repeats(buf[..h + m], h, o) && Outside(start, buf[..], h, h + m)
      decreases n + len + w - 1 - m
    {
      ghost var s0 := buf[..];
      Extend(buf, h, o, m, d, w);
      OutsideTrans(start, s0, buf[..], h, h + m, h + m + w);
      m := m + w;
    }
  }

  /** `DEC32` and `DEC64` of `ZSTD_overlapCopy8`. */
  function Dec32(o: nat): nat {
    match o case 1 => 1 case 2 => 2 case 3 => 1 case 0 => 0 case _ => 4
  }

  function Dec64(o: nat): nat {
    match o case 3 => 7 case 5 => 9 case 6 => 10 case 7 => 11 case 8 => 4 case _ => 8
  }

  /** Row 8 of the tables stands for every longer offset. */
  function Row(o: nat): nat { if o < 8 then o else 8 }

  /** Where the two table steps read from keeps the period. */
  lemma SpreadMultiples(o: nat)
    requires 1 <= o
    ensures var d4 := 4 + o - Dec32(Row(o)); 4 <= d4 <= o + 4 && Multiple(d4, o)
    ensures var d8 := o - Dec32(Row(o)) + Dec64(Row(o)); 8 <= d8 <= o + 8 && Multiple(d8, o)
  {
    assert Multiple(o, o);
    assert o <= 7 ==> Multiple(2 * o, o);
    assert o <= 4 ==> Multiple(3 * o, o);
    assert o <= 2 ==> Multiple(4 * o, o);
    if o == 1 {
      assert Multiple(5, 1) && Multiple(6, 1) && Multiple(7, 1) && Multiple(8, 1);
    }
  }

  /** The first eight bytes: four single ones, then four at once. */
  method FirstEight(buf: array<Byte>, h: nat, o: nat)
    requires 1 <= o <= h && h + 8 <= buf.Length
    modifies buf
    ensures Repeats(buf[..h + 8], h, o) && Outside(old(buf[..]), buf[..], h, h + 8)
  {
    ghost var start := buf[..];
    assert Repeats(buf[..h + 0], h, o);
    assert Outside(start, start, h, h);
    hide Repeats, Outside;
    SpreadMultiples(o);
    var n := 0;
    while n < 4
      invariant 0 <= n <= 4 && Repeats(buf[..h + n], h, o) && Outside(start, buf[..], h, h + n)
    {
      ghost var before := buf[..];
      Extend(buf, h, o, n, o, 1);
      OutsideTrans(start, before, buf[..], h, h + n, h + n + 1);
      n := n + 1;
    }
    ghost var before := buf[..];
    Extend(buf, h, o, 4, 4 + o - Dec32(Row(o)), 4);
    OutsideTrans(start, before, buf[..], h, h + 4, h + 8);
  }

  /** `overlap_copy8`: eight bytes, and the distance from there on. */
  method OverlapCopy8(buf: array<Byte>, h: nat, o: nat) returns (d: nat)
    requires 1 <= o < 16 && o <= h && h + 8 <= buf.Length
    modifies buf
    ensures Repeats(buf[..h + 8], h, o) && Outside(old(buf[..]), buf[..], h, h + 8)
    ensures 8 <= d <= h + 8 && Multiple(d, o) && d - o <= 8
  {
    if o < 8 {
      SpreadMultiples(o);
      FirstEight(buf, h, o);
      d := o - Dec32(o) + Dec64(o);
    } else {
      assert Repeats(buf[..h + 0], h, o);
      Extend(buf, h, o, 0, o, 8);
      d := o;
    }
  }

  /** What a match copy does: the match a byte at a time, less than 32 bytes
      of slack, nothing else. */
  ghost predicate Copied(was: seq<Byte>, now: seq<Byte>, h: nat, o: nat, ml: nat) {
    && 1 <= o <= h && h + ml + 31 <= |was| == |now|
    && now[..h + ml] == Replay(was[..h], o, ml)
    && Outside(was, now, h, h + ml + 31)
  }

  lemma RepeatsCopied(was: seq<Byte>, now: seq<Byte>, h: nat, o: nat, ml: nat, m: nat)
    requires h + ml + 31 <= |was| && ml <= m <= ml + 31 && Outside(was, now, h, h + m) && Repeats(now[..h + m], h, o)
    ensures Copied(was, now, h, o, ml)
  {
    RepeatsIsReplay(now[..h + m], h, o, ml);
    assert now[..h + m][..h + ml] == now[..h + ml] && now[..h + m][..h] == was[..h];
    OutsideLonger(was, now, h, h + m, h + ml + 31);
  }

  /** `Fallback::copy_match`. */
  method CopyMatch(buf: array<Byte>, h: nat, o: nat, ml: nat)
    requires 1 <= o <= h && 1 <= ml && h + ml + 31 <= buf.Length
    modifies buf
    ensures Copied(old(buf[..]), buf[..], h, o, ml)
  {
    ghost var start := buf[..];
    if o >= 16 {
      CopyMatchFar(buf, h, o, ml);
    } else {
      hide Copied, Repeats, Outside, Multiple;
      var d := OverlapCopy8(buf, h, o);
      CopyMatchRest(buf, start, h, o, ml, d, 8);
    }
  }

  /** What is left after `n` bytes, in 8-byte chunks. */
  method CopyMatchRest(buf: array<Byte>, ghost start: seq<Byte>, h: nat, o: nat, ml: nat, d: nat, n: nat)
    requires 1 <= ml && h + ml + 31 <= buf.Length == |start| && Outside(start, buf[..], h, h + n) && n <= 16
    requires Repeats(buf[..h + n], h, o) && 8 <= d <= h + n && Multiple(d, o) && d - o <= n
    modifies buf
    ensures Copied(start, buf[..], h, o, ml)
  {
    hide Copied, Repeats, Outside, Multiple;
    var m := n;
    if ml > n {
      ghost var before := buf[..];
      m := ChunkLoop(buf, h, o, n, d, ml - n, 8);
      OutsideTrans(start, before, buf[..], h, h + n, h + m);
    }
    RepeatsCopied(start, buf[..], h, o, ml, m);
  }

  lemma NoneRepeat(s: seq<Byte>, h: nat, o: nat)
    requires 1 <= o <= h && |s| == h
    ensures Repeats(s, h, o) && Multiple(o, o)
  {
  }

  /** A chunk past the match only touches slack. */
  lemma SlackOver(start: seq<Byte>, first: seq<Byte>, last: seq<Byte>, h: nat, o: nat, ml: nat)
    requires Copied(start, first, h, o, ml) && |first| == |last| && 1 <= ml <= 16 && h + ml + 31 <= |first|
    requires last[..h + 16] == first[..h + 16] && last[h + 32..] == first[h + 32..]
    ensures Copied(start, last, h, o, ml)
  {
    assert last[..h + ml] == first[..h + ml];
    assert last[h + ml + 31..] == first[h + ml + 31..];
    assert last[..h] == first[..h];
  }

  /** Offsets of 16 and up: two 16-byte chunks, the second the first again
      when it is slack. */
  method CopyMatchFar(buf: array<Byte>, h: nat, o: nat, ml: nat)
    requires 16 <= o <= h && 1 <= ml && h + ml + 31 <= buf.Length
    modifies buf
    ensures Copied(old(buf[..]), buf[..], h, o, ml)
  {
    hide Copied, Repeats, Outside, Multiple;
    ghost var start := buf[..];
    NoneRepeat(buf[..h + 0], h, o);
    Extend(buf, h, o, 0, o, 16);
    ghost var first := buf[..];
    if ml <= 16 {
      RepeatsCopied(start, first, h, o, ml, 16);
      CopyChunk(buf, h + 16, h - o, 16);
      SlackOver(start, first, buf[..], h, o, ml);
    } else {
      Extend(buf, h, o, 16, o, 16);
      ghost var second := buf[..];
      OutsideTrans(start, first, second, h, h + 16, h + 32);
      var m := 32;
      if ml > 32 {
        m := Wildcopy(buf, h, o, 32, o, ml - 32);
        OutsideTrans(start, second, buf[..], h, h + 32, h + m);
      }
      RepeatsCopied(start, buf[..], h, o, ml, m);
    }
  }

  /** `FallbackShortOffsets::copy_match`: the same start at every offset. */
  method CopyMatchShort8(buf: array<Byte>, h: nat, o: nat, ml: nat)
    requires 1 <= o <= h && 1 <= ml && h + ml + 31 <= buf.Length
    modifies buf
    ensures Copied(old(buf[..]), buf[..], h, o, ml)
  {
    ghost var start := buf[..];
    SpreadMultiples(o);
    FirstEight(buf, h, o);
    var d := o - Dec32(Row(o)) + Dec64(Row(o));
    hide Copied, Repeats, Outside, Multiple;
    ghost var before := buf[..];
    Extend(buf, h, o, 8, d, 8);
    OutsideTrans(start, before, buf[..], h, h + 8, h + 16);
    CopyMatchRest(buf, start, h, o, ml, d, 16);
  }

  // 32-byte chunks

  /** `wide_chunks`: a choice between two chunk sizes. */
  predicate WideChunks(dist: nat) { dist > 128 && dist % 32 != 16 }

  /** `wildcopy_periodic`. */
  method WildcopyPeriodic(buf: array<Byte>, ghost start: seq<Byte>, h: nat, o: nat, ml: nat, d: nat, n: nat)
    requires n <= ml && 1 <= ml - n && h + ml + 31 <= buf.Length == |start| && Outside(start, buf[..], h, h + n)
    requires Repeats(buf[..h + n], h, o) && 16 <= d <= h + n && Multiple(d, o) && d - o <= n
    modifies buf
    ensures Copied(start, buf[..], h, o, ml)
  {
    hide Copied, Repeats, Outside, Multiple;
    ghost var before := buf[..];
    var m;
    if WideChunks(d) {
      m := ChunkLoop(buf, h, o, n, d, ml - n, 32);
    } else {
      m := Wildcopy(buf, h, o, n, d, ml - n);
    }
    OutsideTrans(start, before, buf[..], h, h + n, h + m);
    RepeatsCopied(start, buf[..], h, o, ml, m);
  }

  /** `Avx2::copy_match`. */
  method CopyMatchWide(buf: array<Byte>, h: nat, o: nat, ml: nat)
    requires 1 <= o <= h && 1 <= ml && h + ml + 31 <= buf.Length
    modifies buf
    ensures Copied(old(buf[..]), buf[..], h, o, ml)
  {
    ghost var start := buf[..];
    assert Repeats(buf[..h + 0], h, o) && Outside(start, start, h, h);
    if o >= 32 {
      Extend(buf, h, o, 0, o, 32);
      if ml > 32 {
        WildcopyPeriodic(buf, start, h, o, ml, o, 32);
      } else {
        RepeatsCopied(start, buf[..], h, o, ml, 32);
      }
    } else if o >= 16 {
      var m := Wildcopy(buf, h, o, 0, o, ml);
      RepeatsCopied(start, buf[..], h, o, ml, m);
    } else {
      hide Copied, Repeats, Outside, Multiple;
      var d := OverlapCopy8(buf, h, o);
      CopyMatchRest(buf, start, h, o, ml, d, 8);
    }
  }

  /** `PERIOD_SPREAD`: the least multiple of at least 16. */
  function Spread(o: nat, d: nat): nat
    requires o >= 1
    decreases if d < 16 then 16 - d else 0
  {
    if d >= 16 then d else Spread(o, d + o)
  }

  lemma {:induction false} SpreadIsMultiple(o: nat, d: nat)
    requires 1 <= o < 16 && Multiple(d, o) && d < 16 + o
    ensures 16 <= Spread(o, d) < 16 + o && Multiple(Spread(o, d), o)
    decreases if d < 16 then 16 - d else 0
  {
    if d < 16 {
      SpreadIsMultiple(o, d + o);
    }
  }

  /** The shuffle of `copy_match_short`: byte `i` of the match at `m = min(o, 32)`. */
  function Shuffled(load: seq<Byte>, m: nat): (s: seq<Byte>)
    requires 1 <= m <= 32 && |load| == 32
    ensures |s| == 32 && forall i :: 0 <= i < 32 ==> s[i] == load[32 - m + Wrapped(i, m)]
  {
    seq(32, i requires 0 <= i < 32 => load[32 - m + Wrapped(i, m)])
  }

  function Wrapped(i: nat, m: nat): (w: nat)
    requires 1 <= m
    ensures w < m
  {
    i % m
  }

  lemma WrappedStep(i: nat, m: nat)
    requires 1 <= m
    ensures if i < m then Wrapped(i, m) == i else Wrapped(i - m, m) == Wrapped(i, m)
  {
    if i >= m {
      var q := i / m;
      assert i == q * m + i % m;
      assert (q - 1) * m == q * m - m;
      DivModUnique(i - m, m, q - 1, i % m);
    }
  }

  lemma ShuffleRepeats(s: seq<Byte>, o: nat)
    requires 32 <= |s| && 1 <= o <= |s|
    ensures var far := if o < 32 then 32 else o;
            Repeats(s + Shuffled(s[|s| - far..|s| - far + 32], if o < 32 then o else 32), |s|, o)
  {
    var far, m := if o < 32 then 32 else o, if o < 32 then o else 32;
    hide Wrapped;
    var load := s[|s| - far..|s| - far + 32];
    var t := s + Shuffled(load, m);
    forall i | |s| <= i < |t| ensures t[i] == t[i - o] {
      var j := i - |s|;
      WrappedStep(j, m);
      assert t[i] == load[32 - m + Wrapped(j, m)];
    }
  }

  /** The first 32 bytes, one shuffled store at every offset. */
  method ShuffleHead(buf: array<Byte>, h: nat, o: nat)
    requires 1 <= o <= h && 32 <= h && h + 32 <= buf.Length
    modifies buf
    ensures Repeats(buf[..h + 32], h, o) && Outside(old(buf[..]), buf[..], h, h + 32)
  {
    ghost var start := buf[..];
    var far := if o < 32 then 32 else o;
    var head := Shuffled(buf[h - far..h - far + 32], if o < 32 then o else 32);
    ShuffleRepeats(buf[..h], o);
    SliceOf(start, h, h - far, h - far + 32);
    forall k | 0 <= k < 32 {
      buf[h + k] := head[k];
    }
    assert buf[..h + 32] == start[..h] + head;
  }

  /** `Avx2ShortOffsets::copy_match`. */
  method CopyMatchShort32(buf: array<Byte>, h: nat, o: nat, ml: nat, avail: nat)
    requires 1 <= o <= avail <= h && 1 <= ml && h + ml + 31 <= buf.Length
    modifies buf
    ensures Copied(old(buf[..]), buf[..], h, o, ml)
  {
    hide Copied, Repeats, Outside, Multiple, Spread;
    if avail < 32 {
      CopyMatchWide(buf, h, o, ml);
      return;
    }
    ghost var start := buf[..];
    ShuffleHead(buf, h, o);
    if ml > 32 {
      ItsOwnMultiple(o);
      if o < 16 {
        SpreadIsMultiple(o, o);
      }
      WildcopyPeriodic(buf, start, h, o, ml, if o >= 16 then o else Spread(o, o), 32);
    } else {
      RepeatsCopied(start, buf[..], h, o, ml, 32);
    }
  }

  lemma ItsOwnMultiple(o: nat)
    requires 1 <= o
    ensures Multiple(o, o)
  {
  }
}
