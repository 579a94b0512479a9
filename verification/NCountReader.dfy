/** `FSE_readNCount`: a 32-bit window over the description, clamped at the
    input's end, and the round trip. */
module NCountReader {
  import opened Nums
  import opened BitSeq
  import opened Words
  import opened FseDist
  import opened NCountBits
  import opened NCountWriter

  /** The little-endian word at `at`. */
  function Read32(src: seq<Byte>, at: nat): nat
    requires at + 4 <= |src|
  {
    ToNat(BytesBits(src[at..at + 4]))
  }

  /** Where the reader is: a window of four bytes, and the bits used of it. */
  datatype Cursor = Cursor(ip: nat, bitCount: nat) {
    function Pos(): nat { 8 * ip + bitCount }

    /** At least 25 bits to see, or all that are left. */
    predicate Safe(n: nat) { ip + 4 <= n && bitCount <= 31 && (bitCount <= 7 || ip + 4 == n) }

    /** What the window shows. */
    function Window(src: seq<Byte>): nat
      requires ip + 4 <= |src|
    {
      Shr(Read32(src, ip), bitCount)
    }

    function Used(n: nat): Cursor { Cursor(ip, bitCount + n) }

    /** Over the whole bytes used, the window clamped at the last four. */
    function Advance(n: nat): Cursor
      requires ip + 4 <= n
    {
      if ip + 7 <= n || ip + bitCount / 8 + 4 <= n then Cursor(ip + bitCount / 8, bitCount % 8)
      else Cursor(n - 4, (bitCount - 8 * (n - 4 - ip)) % 32)
    }

    /** Over 24 bits of a run, likewise. */
    function Skip24(n: nat): Cursor
      requires ip + 4 <= n
    {
      if ip + 7 <= n then Cursor(ip + 3, bitCount)
      else Cursor(n - 4, (bitCount + 8 * (7 + ip - n)) % 32)
    }
  }

  /** A move keeps the position, as long as there are bits behind it. */
  lemma AdvanceKeeps(c: Cursor, n: nat)
    requires c.ip + 4 <= n && c.bitCount <= 31 + 13 && (c.bitCount <= 31 || c.ip + 4 == n)
    ensures c.Advance(n).Safe(n)
    ensures c.Pos() < 8 * n ==> c.Advance(n).Pos() == c.Pos()
  {
  }

  lemma SkipKeeps(c: Cursor, n: nat)
    requires c.Safe(n)
    ensures c.Skip24(n).Safe(n)
    ensures c.Pos() + 24 < 8 * n ==> c.Skip24(n).Pos() == c.Pos() + 24
  {
  }

  /** The next `n` bits, if the window has them. */
  lemma Peek(src: seq<Byte>, c: Cursor, n: nat)
    requires c.ip + 4 <= |src| && c.bitCount + n <= 32
    ensures Low(c.Window(src), n) == ToNat(BytesBits(src)[c.Pos()..c.Pos() + n])
  {
    hide BytesBits, ToNat, Shr, Low, Pow2, Cursor.Window, Seen;
    WindowBits(src, c);
    SeenFirst(src, c, n);
    Split(Seen(src, c), n);
  }

  lemma SeenFirst(src: seq<Byte>, c: Cursor, n: nat)
    requires c.ip + 4 <= |src| && c.bitCount + n <= 32
    ensures Seen(src, c)[..n] == BytesBits(src)[c.Pos()..c.Pos() + n]
  {
    hide BytesBits, Seen, Cursor.Pos;
    SeenIs(src, c);
    SlicePrefix(BytesBits(src), c.Pos(), 8 * c.ip + 32, n);
  }

  lemma SeenIs(src: seq<Byte>, c: Cursor)
    requires c.ip + 4 <= |src| && c.bitCount <= 32
    ensures c.Pos() + (32 - c.bitCount) == 8 * c.ip + 32 <= |BytesBits(src)| && Seen(src, c) == BytesBits(src)[c.Pos()..8 * c.ip + 32]
  {
    hide BytesBits;
  }

  lemma SlicePrefix(p: Bits, i: nat, j: nat, n: nat)
    requires i + n <= j <= |p|
    ensures p[i..j][..n] == p[i..i + n]
  {
  }

  /** `bits` are what follows position `pos`. */
  ghost predicate Ahead(p: Bits, pos: nat, bits: Bits) { pos + |bits| <= |p| && p[pos..pos + |bits|] == bits }

  lemma AheadFirst(p: Bits, pos: nat, a: Bits, b: Bits)
    requires Ahead(p, pos, a + b)
    ensures Ahead(p, pos, a) && Ahead(p, pos + |a|, b)
  {
    assert p[pos..pos + |a|] == p[pos..pos + |a + b|][..|a|];
    assert p[pos + |a|..pos + |a| + |b|] == p[pos..pos + |a + b|][|a|..];
  }

  // Reading a count

  /** The window gives back a count told ahead. */
  lemma CountRead(src: seq<Byte>, c: Cursor, v: nat, rem: nat)
    requires c.Safe(|src|) && 2 <= rem <= 4097 && v <= rem && Ahead(BytesBits(src), c.Pos(), CountBits(v, rem))
    ensures var k := HighBit(rem);
            && Low(c.Window(src), k + 1) < 2 * Pow2(k)
            && Decoded(Low(c.Window(src), k), Low(c.Window(src), k + 1), rem) == (v, Width(v, rem))
  {
    hide ToBits, BytesBits, Low, Cursor.Window, ToNat, Pow2, Coded, Width, Decoded;
    CountFits(v, rem);
    WidthBound(v, rem);
    CountInside(|src|, c, Width(v, rem));
    FieldRead(src, c, Width(v, rem), Coded(v, rem));
    CountDecoded(c.Window(src), v, rem);
  }

  lemma CountDecoded(x: nat, v: nat, rem: nat)
    requires rem >= 1 && v <= rem && Low(x, Width(v, rem)) == Coded(v, rem)
    ensures var k := HighBit(rem);
            Low(x, k + 1) < 2 * Pow2(k) && Decoded(Low(x, k), Low(x, k + 1), rem) == (v, Width(v, rem))
  {
    hide Low, Pow2;
    CountFits(v, rem);
    LowNarrow(x, HighBit(rem), Width(v, rem));
    Pow2Next(HighBit(rem));
  }

  lemma CountInside(n: nat, c: Cursor, w: nat)
    requires c.Safe(n) && c.Pos() + w <= 8 * n && w <= 13
    ensures c.bitCount + w <= 32
  {
  }

  /** Fewer of the low bits. */
  lemma LowNarrow(x: nat, k: nat, n: nat)
    requires k <= n
    ensures Low(Low(x, n), k) == Low(x, k)
  {
    LowTwice(x, k, n - k);
  }

  lemma {:induction false} LowTwice(x: nat, m: nat, n: nat)
    ensures Low(Low(x, m + n), m) == Low(x, m)
    decreases m
  {
    if m > 0 {
      LowTwice(x / 2, m - 1, n);
    }
  }

  // Reading a run

  function TrailingOnes(x: nat): nat { if x % 2 == 1 then 1 + TrailingOnes(x / 2) else 0 }

  /** `(!bit_stream | 0x8000_0000).trailing_zeros() >> 1`. */
  function Repeats(x: nat): nat { (if TrailingOnes(x) < 31 then TrailingOnes(x) else 31) / 2 }

  /** Set bits, then a clear one if there is any more. */
  lemma {:induction false} OnesSeen(s: Bits, m: nat)
    requires m <= |s| && (forall i :: 0 <= i < m ==> s[i]) && (m < |s| ==> !s[m])
    ensures TrailingOnes(ToNat(s)) == m
    decreases m
  {
    if m > 0 {
      OnesSeen(s[1..], m - 1);
    }
  }

  lemma {:induction false} OnesAtLeast(s: Bits, m: nat)
    requires m <= |s| && forall i :: 0 <= i < m ==> s[i]
    ensures TrailingOnes(ToNat(s)) >= m
    decreases m
  {
    if m > 0 {
      OnesAtLeast(s[1..], m - 1);
    }
  }

  lemma {:induction false} OnesAtMost(x: nat, n: nat)
    requires x < Pow2(n)
    ensures TrailingOnes(x) <= n
    decreases n
  {
    if x % 2 == 1 {
      OnesAtMost(x / 2, n - 1);
    }
  }

  /** The bits in the window. */
  function Seen(src: seq<Byte>, c: Cursor): (s: Bits)
    requires c.ip + 4 <= |src| && c.bitCount <= 32
    ensures |s| == 32 - c.bitCount
  {
    BytesBits(src)[c.Pos()..8 * c.ip + 32]
  }

  lemma WindowBits(src: seq<Byte>, c: Cursor)
    requires c.ip + 4 <= |src| && c.bitCount <= 32
    ensures c.Window(src) == ToNat(Seen(src, c))
  {
    hide BytesBits, Shr, Low, Pow2, Read32, ToNat;
    WordBits(src, c.ip);
    Sliced(BytesBits(src), 8 * c.ip, 8 * c.ip + 32, c.bitCount);
  }

  /** No more of them than the width of the window. */
  lemma WindowBound(src: seq<Byte>, c: Cursor)
    requires c.ip + 4 <= |src| && c.bitCount <= 32
    ensures c.Window(src) < Pow2(32 - c.bitCount)
  {
    hide Seen, Cursor.Window, Pow2;
    WindowBits(src, c);
  }

  lemma WordBits(src: seq<Byte>, at: nat)
    requires at + 4 <= |src|
    ensures Read32(src, at) == ToNat(BytesBits(src)[8 * at..8 * at + 32])
  {
    hide BytesBits, ToNat;
    BytesBitsSlice(src, at, at + 4);
  }

  lemma Sliced(p: Bits, from: nat, to: nat, n: nat)
    requires from + n <= to <= |p|
    ensures Shr(ToNat(p[from..to]), n) == ToNat(p[from + n..to])
  {
    hide ToNat, Shr, Low, Pow2;
    Split(p[from..to], n);
    assert p[from..to][n..] == p[from + n..to];
  }

  /** What is left of a run after its threes. */
  lemma LastTwo(r: nat)
    requires r < 3
    ensures RunBits(r) == [r == 1, r == 2] && ToNat(RunBits(r)) == r
  {
    assert ToBits(r, 2) == [r % 2 == 1] + ToBits(r / 2, 1);
    assert ToBits(r / 2, 1) == [(r / 2) % 2 == 1] + ToBits(r / 4, 0);
    ToNatOfBits(r, 2);
    assert Pow2(2) == 4;
    LowSmall(r, 2);
  }

  /** The window tells a run's threes, or that there are twelve at least. */
  lemma RunSeen(src: seq<Byte>, c: Cursor, z: nat)
    requires c.Safe(|src|) && Ahead(BytesBits(src), c.Pos(), RunBits(z))
    ensures Repeats(c.Window(src)) >= 12 ==> z >= 36
    ensures Repeats(c.Window(src)) < 12 ==> Repeats(c.Window(src)) == z / 3 && c.bitCount + 2 * (z / 3) + 2 <= 32
  {
    hide BytesBits, Repeats, Cursor.Window, RunBits, Trues, ToNat, Pow2, Ahead;
    RunSeenAs(src, c, z, z / 3, z % 3);
  }

  lemma RunSeenAs(src: seq<Byte>, c: Cursor, z: nat, q: nat, r: nat)
    requires c.Safe(|src|) && Ahead(BytesBits(src), c.Pos(), RunBits(z)) && z == 3 * q + r && r < 3
    ensures Repeats(c.Window(src)) >= 12 ==> q >= 12
    ensures Repeats(c.Window(src)) < 12 ==> Repeats(c.Window(src)) == q && c.bitCount + 2 * q + 2 <= 32
  {
    hide BytesBits, Repeats, Cursor.Window, RunBits, Trues, ToNat, Pow2, Ahead;
    RunAhead(BytesBits(src), c.Pos(), z, q, r);
    WindowBits(src, c);
    RunInside(|src|, c, q);
    WindowRun(BytesBits(src), c.Pos(), 8 * c.ip + 32, q, r);
  }

  /** Its threes, then what is left of it. */
  lemma RunAhead(p: Bits, at: nat, z: nat, q: nat, r: nat)
    requires Ahead(p, at, RunBits(z)) && z == 3 * q + r && r < 3
    ensures Ahead(p, at, Trues(2 * q)) && Ahead(p, at + 2 * q, RunBits(r)) && at + 2 * q + 2 <= |p|
  {
    hide RunBits, Trues;
    RunPrefix(z, q);
    AheadFirst(p, at, Trues(2 * q), RunBits(r));
  }

  lemma WindowRun(p: Bits, from: nat, to: nat, q: nat, r: nat)
    requires from <= to <= |p| && to <= from + 32 && from + 2 * q + 2 <= |p| && r < 3
    requires Ahead(p, from, Trues(2 * q)) && Ahead(p, from + 2 * q, RunBits(r))
    ensures from + 2 * q + 2 <= to ==> Repeats(ToNat(p[from..to])) == q
    ensures q >= 12 && from + 24 <= to ==> Repeats(ToNat(p[from..to])) >= 12
  {
    hide Repeats, RunBits, ToNat, Trues;
    LastTwo(r);
    if from + 2 * q + 2 <= to {
      Inside(p, from, to, 2 * q);
      CoveredRun(p[from..to], Trues(2 * q), RunBits(r), q, r);
    }
    if q >= 12 && from + 24 <= to {
      FirstTrues(p[from..to], p, from, to, 2 * q);
      ManyRepeats(ToNat(p[from..to]));
    }
  }

  /** A run that leaves the window has twelve threes in it. */
  lemma RunInside(n: nat, c: Cursor, q: nat)
    requires c.Safe(n) && c.Pos() + 2 * q + 2 <= 8 * n
    ensures c.bitCount + 2 * q + 2 <= 32 || (q >= 12 && c.bitCount <= 7)
  {
  }

  lemma Inside(p: Bits, from: nat, to: nat, n: nat)
    requires from + n + 2 <= to <= |p|
    ensures p[from..to][..n] == p[from..from + n] && p[from..to][n..n + 2] == p[from + n..from + n + 2]
  {
    assert p[from..to][..n] == p[from..from + n];
    var s := p[from..to];
    assert s[n..n + 2] == [s[n], s[n + 1]] == p[from + n..from + n + 2];
  }

  lemma FirstTrues(s: Bits, p: Bits, from: nat, to: nat, n: nat)
    requires 24 <= n && from + 24 <= to <= |p| && from + n <= |p| && p[from..from + n] == Trues(n) && s == p[from..to]
    ensures TrailingOnes(ToNat(s)) >= 24
  {
    forall i | 0 <= i < 24
      ensures s[i]
    {
      assert s[i] == p[from..from + n][i];
    }
    OnesAtLeast(s, 24);
  }

  lemma ManyRepeats(x: nat)
    requires TrailingOnes(x) >= 24
    ensures Repeats(x) >= 12
  {
  }

  lemma CoveredRun(s: Bits, a: Bits, b: Bits, q: nat, r: nat)
    requires 2 * q + 2 <= |s| <= 32 && r < 3 && a == Trues(2 * q) && b == [r == 1, r == 2]
    requires s[..2 * q] == a && s[2 * q..2 * q + 2] == b
    ensures Repeats(ToNat(s)) == q
  {
    assert forall i :: 0 <= i < 2 * q ==> s[i] == a[i];
    assert s[2 * q] == b[0] && s[2 * q + 1] == b[1];
    OnesSeen(s, if r == 1 then 2 * q + 1 else 2 * q);
  }

  /** A run of zeros: how many symbols, and where it ends. */
  method ReadRun(src: seq<Byte>, c0: Cursor, charnum0: nat, ghost z: nat, ghost good: bool) returns (c: Cursor, charnum: nat)
    requires c0.Safe(|src|) && (good ==> Ahead(BytesBits(src), c0.Pos(), RunBits(z)))
    ensures c.ip + 4 <= |src| && c.bitCount <= 31 + 13 && (c.bitCount <= 31 || c.ip + 4 == |src|)
    ensures charnum0 <= charnum && (good ==> charnum == charnum0 + z && c.Pos() == c0.Pos() + |RunBits(z)|)
  {
    hide BytesBits, Repeats, Cursor.Window, RunBits, Low, Shr, Trues, ToNat, Ahead;
    c, charnum := c0, charnum0;
    ghost var left := z;
    while Repeats(c.Window(src)) >= 12
      invariant c.Safe(|src|) && charnum0 <= charnum
      invariant good ==> Ahead(BytesBits(src), c.Pos(), RunBits(left)) && charnum + left == charnum0 + z
      invariant good ==> c.Pos() + |RunBits(left)| == c0.Pos() + |RunBits(z)|
      decreases |src| - c.ip, if c.bitCount == 8 then 2 else if c.bitCount < 8 then 1 else 0
    {
      FewBits(src, c);
      if good {
        RunSeen(src, c, left);
        RunPrefix(left, 12);
        AheadFirst(BytesBits(src), c.Pos(), Trues(24), RunBits(left - 36));
        left := left - 36;
      }
      SkipKeeps(c, |src|);
      charnum := charnum + 3 * 12;
      c := c.Skip24(|src|);
    }
    var repeats := Repeats(c.Window(src));
    if good {
      RunEnds(src, c, left);
    }
    charnum := charnum + 3 * repeats + Low(Shr(c.Window(src), 2 * repeats), 2);
    FewBits(src, c);
    c := c.Used(2 * repeats + 2);
  }

  /** The last of a run: its threes, and two bits. */
  lemma RunEnds(src: seq<Byte>, c: Cursor, z: nat)
    requires c.Safe(|src|) && Ahead(BytesBits(src), c.Pos(), RunBits(z)) && Repeats(c.Window(src)) < 12
    ensures var n := Repeats(c.Window(src));
            z == 3 * n + Low(Shr(c.Window(src), 2 * n), 2) && |RunBits(z)| == 2 * n + 2
  {
    hide BytesBits, Repeats, Cursor.Window, RunBits, Low, Shr, Trues, ToNat, Ahead;
    RunSeenAs(src, c, z, z / 3, z % 3);
    RunEndsAs(src, c, z, z / 3, z % 3);
  }

  lemma RunEndsAs(src: seq<Byte>, c: Cursor, z: nat, n: nat, r: nat)
    requires c.Safe(|src|) && Ahead(BytesBits(src), c.Pos(), RunBits(z)) && z == 3 * n + r && r < 3 && c.bitCount + 2 * n + 2 <= 32
    ensures Low(Shr(c.Window(src), 2 * n), 2) == r
  {
    hide BytesBits, Repeats, Cursor.Window, RunBits, Low, Shr, Trues, ToNat;
    RunPrefix(z, n);
    AheadFirst(BytesBits(src), c.Pos(), Trues(2 * n), RunBits(r));
    LastTwo(r);
    Peek(src, c.Used(2 * n), 2);
    WindowMoves(src, c, 2 * n);
  }

  lemma WindowMoves(src: seq<Byte>, c: Cursor, n: nat)
    requires c.ip + 4 <= |src|
    ensures Shr(c.Window(src), n) == c.Used(n).Window(src)
  {
    ShrShr(Read32(src, c.ip), c.bitCount, n);
  }

  /** No more repeats than bits to see. */
  lemma FewBits(src: seq<Byte>, c: Cursor)
    requires c.ip + 4 <= |src| && c.bitCount <= 32
    ensures 2 * Repeats(c.Window(src)) <= 32 - c.bitCount
  {
    WindowBound(src, c);
    OnesAtMost(c.Window(src), 32 - c.bitCount);
  }

  // The loop

  /** What is read so far, and the bits that tell the rest, up to `end`. */
  ghost predicate Reading(p: Bits, norm: seq<int>, end: nat, at: nat, charnum: nat, remaining: int, counts: seq<int>, bits: Bits) {
    && charnum <= |norm| <= |counts| && (forall i :: 0 <= i < |norm| ==> norm[i] >= -1)
    && remaining == Rest(norm, charnum) + 1 && Told(norm, counts, charnum)
    && Ahead(p, at, bits) && at + |bits| == end
  }

  /** The counts below `charnum` are in, zeros from there on. */
  ghost predicate Told(norm: seq<int>, counts: seq<int>, charnum: nat) {
    && charnum <= |norm| <= |counts|
    && forall i :: 0 <= i < |counts| ==> counts[i] == if i < charnum then norm[i] else 0
  }

  lemma BeginReading(p: Bits, norm: seq<int>, log: nat, n: nat)
    requires Tiles(norm, log) && Ahead(p, 0, Header(norm, log)) && |norm| <= n
    ensures Reading(p, norm, |Header(norm, log)|, 4, 0, Pow2(log) + 1, seq(n, _ => 0), SymbolBits(norm, 0, false))
    ensures p[0..4] == ToBits(log - 5, 4)
  {
    AheadFirst(p, 0, ToBits(log - 5, 4), SymbolBits(norm, 0, false));
  }

  /** A run of zeros is read as its length. */
  lemma ReadingRun(p: Bits, norm: seq<int>, end: nat, at: nat, charnum: nat, remaining: int, counts: seq<int>)
    requires charnum <= |norm| && (forall i :: 0 <= i < |norm| ==> norm[i] >= -1) && remaining >= 2
    requires Reading(p, norm, end, at, charnum, remaining, counts, SymbolBits(norm, charnum, true))
    ensures var z := Zeros0(norm, charnum);
            && charnum + z < |norm| && Rest(norm, charnum + z) > 0 && Ahead(p, at, RunBits(z))
            && Reading(p, norm, end, at + |RunBits(z)|, charnum + z, remaining, counts, CountsFrom(norm, charnum + z))
  {
    hide Ahead, RunBits, CountsFrom, SymbolBits, Rest, Zeros0;
    var z := Zeros0(norm, charnum);
    ZerosKeepRest(norm, charnum, z);
    RunThen(norm, charnum);
    NoRun(norm, charnum + z);
    AheadFirst(p, at, RunBits(z), CountsFrom(norm, charnum + z));
  }

  /** What follows a zero count, and what a count begins with. */
  lemma RunThen(norm: seq<int>, s: nat)
    requires s <= |norm| && (forall i :: 0 <= i < |norm| ==> norm[i] >= -1) && Rest(norm, s) > 0
    ensures var z := Zeros0(norm, s);
            Rest(norm, s + z) > 0 && SymbolBits(norm, s, true) == RunBits(z) + CountsFrom(norm, s + z)
  {
    ZerosKeepRest(norm, s, Zeros0(norm, s));
  }

  lemma CountThen(norm: seq<int>, s: nat)
    requires s < |norm| && (forall i :: 0 <= i < |norm| ==> norm[i] >= -1) && Rest(norm, s) > 0 && Abs(norm[s]) <= Rest(norm, s)
    ensures CountsFrom(norm, s) == CountBits(norm[s] + 1, Rest(norm, s) + 1) + SymbolBits(norm, s + 1, norm[s] == 0)
    ensures Rest(norm, s + 1) == Rest(norm, s) - Abs(norm[s])
  {
  }

  lemma ReadingNoRun(p: Bits, norm: seq<int>, end: nat, at: nat, charnum: nat, remaining: int, counts: seq<int>)
    requires charnum <= |norm| && (forall i :: 0 <= i < |norm| ==> norm[i] >= -1) && remaining >= 2
    requires Reading(p, norm, end, at, charnum, remaining, counts, SymbolBits(norm, charnum, false))
    ensures Rest(norm, charnum) > 0 && Reading(p, norm, end, at, charnum, remaining, counts, CountsFrom(norm, charnum))
  {
    NoRun(norm, charnum);
  }

  /** Before a count, there are bits left. */
  lemma ReadingCount(p: Bits, norm: seq<int>, end: nat, at: nat, charnum: nat, remaining: nat, counts: seq<int>)
    requires charnum <= |norm| && (forall i :: 0 <= i < |norm| ==> norm[i] >= -1) && remaining >= 2 && Rest(norm, charnum) > 0
    requires Reading(p, norm, end, at, charnum, remaining, counts, CountsFrom(norm, charnum))
    ensures charnum < |norm| && at < |p| && Abs(norm[charnum]) < remaining
    ensures Ahead(p, at, CountBits(norm[charnum] + 1, remaining))
    ensures Reading(p, norm, end, at + Width(norm[charnum] + 1, remaining), charnum + 1, remaining - Abs(norm[charnum]),
                    counts[charnum := norm[charnum]], SymbolBits(norm, charnum + 1, norm[charnum] == 0))
  {
    hide Ahead, CountsFrom, SymbolBits, Rest, CountBits, Width;
    NoRun(norm, charnum);
    CountThen(norm, charnum);
    AheadFirst(p, at, CountBits(norm[charnum] + 1, remaining), SymbolBits(norm, charnum + 1, norm[charnum] == 0));
    SomeAhead(p, at, norm[charnum] + 1, remaining);
  }

  lemma SomeAhead(p: Bits, at: nat, v: nat, rem: nat)
    requires rem >= 2 && v <= rem && Ahead(p, at, CountBits(v, rem))
    ensures at < |p|
  {
    TwoOrMore(rem);
  }

  lemma TwoOrMore(n: nat)
    requires n >= 2
    ensures HighBit(n) >= 1
  {
  }

  /** Nothing remains: every bit of the description is read, and zeros are left. */
  lemma {:induction false} RestZero(norm: seq<int>, s: nat)
    requires s <= |norm| && Rest(norm, s) == 0
    ensures forall i :: s <= i < |norm| ==> norm[i] == 0
    decreases |norm| - s
  {
    if s < |norm| {
      RestZero(norm, s + 1);
    }
  }

  lemma ReadingDone(p: Bits, norm: seq<int>, end: nat, at: nat, charnum: nat, counts: seq<int>, after0: bool)
    requires charnum <= |norm| && (forall i :: 0 <= i < |norm| ==> norm[i] >= -1)
    requires Reading(p, norm, end, at, charnum, 1, counts, SymbolBits(norm, charnum, after0))
    ensures at == end <= |p| && UpToZeros(counts[..charnum], norm)
  {
    RestZero(norm, charnum);
  }

  /** The same counts, up to zeros at the end. */
  ghost predicate UpToZeros(counts: seq<int>, norm: seq<int>) {
    |counts| <= |norm| && forall i :: 0 <= i < |norm| ==> norm[i] == if i < |counts| then counts[i] else 0
  }

  /** The cells given out so far. */
  ghost predicate Dealt(counts: seq<int>, log: nat, charnum: nat, remaining: int) {
    && charnum <= |counts| && (forall i :: 0 <= i < |counts| ==> counts[i] >= -1)
    && (forall i :: charnum <= i < |counts| ==> counts[i] == 0)
    && Dist(counts, log).Start(charnum) + remaining == Pow2(log) + 1
  }

  lemma DealtRun(counts: seq<int>, log: nat, charnum: nat, z: nat, remaining: int)
    requires Dealt(counts, log, charnum, remaining) && charnum + z <= |counts|
    ensures Dealt(counts, log, charnum + z, remaining)
    decreases z
  {
    if z > 0 {
      DealtRun(counts, log, charnum, z - 1, remaining);
    }
  }

  lemma DealtOne(counts: seq<int>, log: nat, charnum: nat, count: int, remaining: int)
    requires Dealt(counts, log, charnum, remaining) && charnum < |counts| && count >= -1
    ensures Dealt(counts[charnum := count], log, charnum + 1, remaining - Abs(count))
  {
    SamePrefix(Dist(counts, log), Dist(counts[charnum := count], log), charnum);
  }

  lemma {:induction false} SamePrefix(d: Dist, e: Dist, s: nat)
    requires s <= |d.norm| && s <= |e.norm| && d.norm[..s] == e.norm[..s]
    ensures d.Start(s) == e.Start(s)
  {
    if s > 0 {
      assert d.norm[s - 1] == d.norm[..s][s - 1] == e.norm[s - 1];
      assert d.norm[..s - 1] == d.norm[..s][..s - 1] == e.norm[..s - 1];
      SamePrefix(d, e, s - 1);
    }
  }

  lemma DealtAll(counts: seq<int>, log: nat, charnum: nat)
    requires Dealt(counts, log, charnum, 1)
    ensures Dist(counts[..charnum], log).Start(charnum) == Pow2(log)
    ensures forall i :: 0 <= i < charnum ==> counts[..charnum][i] >= -1
  {
    SamePrefix(Dist(counts, log), Dist(counts[..charnum], log), charnum);
  }

  /** One count, in its width. */
  method ReadCount(src: seq<Byte>, c0: Cursor, nbBits: nat, remaining: nat, ghost v: nat, ghost good: bool) returns (c: Cursor, count: int)
    requires c0.Safe(|src|) && 2 <= remaining <= 4097 && nbBits == HighBit(remaining) + 1
    requires good ==> v <= remaining && Ahead(BytesBits(src), c0.Pos(), CountBits(v, remaining))
    ensures c.ip + 4 <= |src| && c.bitCount <= 31 + 13 && (c.bitCount <= 31 || c.ip + 4 == |src|)
    ensures -1 <= count < remaining
    ensures good ==> count == v - 1 && c.Pos() == c0.Pos() + Width(v, remaining)
  {
    hide BytesBits, Cursor.Window, CountBits, Width, Low, Pow2, HighBit;
    var threshold: nat := Pow2(nbBits - 1);
    var max: int := 2 * threshold - 1 - remaining;
    var stream := c0.Window(src);
    Pow2Next(nbBits - 1);
    AtMost13(remaining);
    LowNarrow(stream, nbBits - 1, nbBits);
    LowDrops(Low(stream, nbBits), nbBits - 1);
    if Low(stream, nbBits - 1) < max {
      count := Low(stream, nbBits - 1);
      c := c0.Used(nbBits - 1);
    } else {
      count := Low(stream, nbBits);
      if count >= threshold {
        count := count - max;
      }
      c := c0.Used(nbBits);
    }
    if good {
      CountRead(src, c0, v, remaining);
    }
    count := count - 1;
  }

  lemma AtMost13(rem: nat)
    requires 2 <= rem <= 4097
    ensures HighBit(rem) <= 12 && Pow2(HighBit(rem)) <= rem < 2 * Pow2(HighBit(rem))
  {
    if HighBit(rem) >= 13 {
      Pow2Mono(13, HighBit(rem));
      Pow2of13();
    }
  }

  /** A mask changes nothing below its bit. */
  lemma LowDrops(x: nat, k: nat)
    ensures x < Pow2(k) ==> Low(x, k) == x
  {
    if x < Pow2(k) {
      LowSmall(x, k);
    }
  }

  /** With `good`, the source begins with the description of `norm`. */
  ghost predicate Describing(src: seq<Byte>, maxSymbol: nat, maxLog: nat, norm: seq<int>, log: nat) {
    Tiles(norm, log) && |norm| <= maxSymbol + 1 && log <= maxLog && Ahead(BytesBits(src), 0, Header(norm, log))
  }

  /** A table that tiles its cells. */
  ghost predicate Accepted(counts: seq<int>, log: nat, maxSymbol: nat, maxLog: nat) {
    && 5 <= log <= maxLog && |counts| <= maxSymbol + 1 && (forall i :: 0 <= i < |counts| ==> counts[i] >= -1)
    && Dist(counts, log).Start(|counts|) == Pow2(log)
  }

  datatype Result = Ok(log: nat, counts: seq<int>, length: nat) | Err

  ghost predicate Going(p: Bits, norm: seq<int>, end: nat, at: nat, charnum: nat, remaining: int, counts: seq<int>, after0: bool) {
    && charnum <= |norm| && (forall i :: 0 <= i < |norm| ==> norm[i] >= -1)
    && Reading(p, norm, end, at, charnum, remaining, counts, SymbolBits(norm, charnum, after0))
  }

  ghost predicate AtCount(p: Bits, norm: seq<int>, end: nat, at: nat, charnum: nat, remaining: int, counts: seq<int>) {
    && charnum <= |norm| && (forall i :: 0 <= i < |norm| ==> norm[i] >= -1) && Rest(norm, charnum) > 0
    && Reading(p, norm, end, at, charnum, remaining, counts, CountsFrom(norm, charnum))
  }

  /** The run of zeros after a zero count, and on to the next count. */
  method ReadZeros(src: seq<Byte>, c0: Cursor, charnum0: nat, remaining: nat, counts: seq<int>,
                   ghost norm: seq<int>, ghost end: nat, ghost good: bool)
    returns (c: Cursor, charnum: nat)
    requires c0.Safe(|src|) && remaining >= 2
    requires good ==> Going(BytesBits(src), norm, end, c0.Pos(), charnum0, remaining, counts, true)
    ensures charnum0 <= charnum && c.ip + 4 <= |src| && (charnum < |counts| ==> c.Safe(|src|))
    ensures c.bitCount <= 31 || c.ip + 4 == |src|
    ensures good ==> charnum < |counts| && AtCount(BytesBits(src), norm, end, c.Pos(), charnum, remaining, counts)
  {
    hide BytesBits, CountsFrom, RunBits, SymbolBits, Zeros0, Rest;
    if good {
      ReadingRun(BytesBits(src), norm, end, c0.Pos(), charnum0, remaining, counts);
    }
    c, charnum := ReadRun(src, c0, charnum0, if good then Zeros0(norm, charnum0) else 0, good);
    if charnum >= |counts| {
      return;
    }
    if good {
      ReadingCount(BytesBits(src), norm, end, c.Pos(), charnum, remaining, counts);
    }
    AdvanceKeeps(c, |src|);
    c := c.Advance(|src|);
  }

  /** Where the loop stands. */
  datatype Progress = Progress(c: Cursor, counts: seq<int>, charnum: nat, remaining: nat, nbBits: nat, previous0: bool) {
    /** Ready for another symbol. */
    ghost predicate Ready(n: nat) {
      c.Safe(n) && charnum < |counts| && 2 <= remaining <= 4097 && nbBits == HighBit(remaining) + 1
    }

    ghost predicate Follows(p: Bits, norm: seq<int>, end: nat) {
      Going(p, norm, end, c.Pos(), charnum, remaining, counts, previous0)
    }

    /** Out of the loop. */
    ghost predicate Ended(n: nat) {
      c.ip + 4 <= n && 1 <= remaining && (c.bitCount <= 31 || c.ip + 4 == n)
    }
  }

  lemma AtCountLeft(p: Bits, norm: seq<int>, end: nat, at: nat, charnum: nat, remaining: nat, counts: seq<int>, after0: bool)
    requires Going(p, norm, end, at, charnum, remaining, counts, after0) && remaining >= 2
    ensures charnum < |norm| <= |counts| && at < |p|
  {
    if after0 {
      ReadingRun(p, norm, end, at, charnum, remaining, counts);
    } else {
      ReadingNoRun(p, norm, end, at, charnum, remaining, counts);
      ReadingCount(p, norm, end, at, charnum, remaining, counts);
    }
  }

  /** One turn of the loop; `more` if another is due. */
  method ReadSymbol(src: seq<Byte>, s0: Progress, ghost log: nat, ghost norm: seq<int>, ghost end: nat, ghost good: bool)
    returns (more: bool, s: Progress)
    requires s0.Ready(|src|) && Dealt(s0.counts, log, s0.charnum, s0.remaining)
    requires good ==> s0.Follows(BytesBits(src), norm, end)
    ensures |s.counts| == |s0.counts| && (more ==> s0.charnum < s.charnum && s.Ready(|src|)) && (!more ==> s.Ended(|src|))
    ensures more || s.remaining == 1 ==> Dealt(s.counts, log, s.charnum, s.remaining)
    ensures good ==> s.Follows(BytesBits(src), norm, end) && (more || s.remaining == 1)
  {
    hide BytesBits, HighBit, Dealt, Reading, SymbolBits, CountsFrom, Rest;
    var c, charnum := s0.c, s0.charnum;
    if s0.previous0 {
      c, charnum := ReadZeros(src, c, charnum, s0.remaining, s0.counts, norm, end, good);
      if charnum >= |s0.counts| {
        return false, s0.(c := c, charnum := charnum);
      }
      DealtRun(s0.counts, log, s0.charnum, charnum - s0.charnum, s0.remaining);
    } else if good {
      ReadingNoRun(BytesBits(src), norm, end, c.Pos(), charnum, s0.remaining, s0.counts);
    }
    more, s := ReadOne(src, s0.(c := c, charnum := charnum), log, norm, end, good);
  }

  /** The count of one symbol. */
  method ReadOne(src: seq<Byte>, s0: Progress, ghost log: nat, ghost norm: seq<int>, ghost end: nat, ghost good: bool)
    returns (more: bool, s: Progress)
    requires s0.Ready(|src|) && Dealt(s0.counts, log, s0.charnum, s0.remaining)
    requires good ==> AtCount(BytesBits(src), norm, end, s0.c.Pos(), s0.charnum, s0.remaining, s0.counts)
    ensures |s.counts| == |s0.counts| && (more ==> s0.charnum < s.charnum && s.Ready(|src|)) && (!more ==> s.Ended(|src|))
    ensures Dealt(s.counts, log, s.charnum, s.remaining)
    ensures good ==> s.Follows(BytesBits(src), norm, end) && (more || s.remaining == 1)
  {
    hide BytesBits, HighBit, Dealt, Reading, SymbolBits, CountsFrom, Rest, Pow2, Width, CountBits, Cursor.Advance;
    ghost var p := BytesBits(src);
    if good {
      ReadingCount(p, norm, end, s0.c.Pos(), s0.charnum, s0.remaining, s0.counts);
    }
    var c, count := ReadCount(src, s0.c, s0.nbBits, s0.remaining, if good then norm[s0.charnum] + 1 else 0, good);
    DealtOne(s0.counts, log, s0.charnum, count, s0.remaining);
    var remaining: nat := s0.remaining - Abs(count);
    var nbBits := s0.nbBits;
    s := Progress(c, s0.counts[s0.charnum := count], s0.charnum + 1, remaining, nbBits, count == 0);
    StillAsWide(s0.remaining, remaining);
    if remaining < Pow2(nbBits - 1) {
      if remaining <= 1 {
        return false, s;
      }
      s := s.(nbBits := HighBit(remaining) + 1);
    }
    if good {
      AtCountLeft(p, norm, end, c.Pos(), s.charnum, remaining, s.counts, s.previous0);
    }
    if s.charnum >= |s.counts| {
      return false, s;
    }
    AdvanceKeeps(c, |src|);
    s := s.(c := c.Advance(|src|));
    more := true;
  }

  /** As long as what remains is not below the highest power of two before. */
  lemma StillAsWide(was: nat, remaining: nat)
    requires 2 <= was <= 4097 && remaining <= was
    ensures Pow2(HighBit(was)) >= 2 && (remaining >= Pow2(HighBit(was)) ==> HighBit(remaining) == HighBit(was))
  {
    hide Pow2, HighBit;
    AtMost13(was);
    TwoOrMore(was);
    PowTwo(HighBit(was));
    if remaining >= Pow2(HighBit(was)) {
      Pow2Next(HighBit(was));
      HighBitUnique(remaining, HighBit(was));
    }
  }

  lemma PowTwo(n: nat)
    requires n >= 1
    ensures Pow2(n) >= 2
  {
  }

  /** `read_ncount_body`. */
  method ReadBody(src: seq<Byte>, maxSymbol: nat, maxLog: nat, ghost norm: seq<int>, ghost log: nat) returns (r: Result)
    requires |src| >= 8 && maxLog <= 12
    ensures r.Ok? ==> Accepted(r.counts, r.log, maxSymbol, maxLog) && r.length <= |src|
    ensures Describing(src, maxSymbol, maxLog, norm, log) ==>
      r.Ok? && r.log == log && UpToZeros(r.counts, norm) && r.length == (|Header(norm, log)| + 7) / 8
  {
    hide BytesBits, HighBit, Dealt, Reading, SymbolBits, CountsFrom, Rest, Pow2, Header, Tiles, Low, Cursor.Window;
    ghost var good := Describing(src, maxSymbol, maxLog, norm, log);
    ghost var p := BytesBits(src);
    ghost var end := EndOf(norm, log, good);
    var accuracyLog := Low(Cursor(0, 0).Window(src), 4) + 5;
    if good {
      TilesLog(norm, log);
      BeginReading(p, norm, log, maxSymbol + 1);
      LogRead(src, log);
    }
    if accuracyLog > maxLog {
      return Err;
    }
    StartSizes(accuracyLog);
    var s := Progress(Cursor(0, 4), seq(maxSymbol + 1, _ => 0), 0, Pow2(accuracyLog) + 1, accuracyLog + 1, false);
    BeginDealt(maxSymbol + 1, accuracyLog);
    var more := true;
    while more
      invariant |s.counts| == maxSymbol + 1 && (more ==> s.Ready(|src|)) && (!more ==> s.Ended(|src|))
      invariant more || s.remaining == 1 ==> Dealt(s.counts, accuracyLog, s.charnum, s.remaining)
      invariant good ==> s.Follows(p, norm, end) && (more || s.remaining == 1)
      decreases more, maxSymbol + 1 - s.charnum
    {
      more, s := ReadSymbol(src, s, accuracyLog, norm, end, good);
    }
    if s.remaining != 1 {
      return Err;
    }
    if good {
      ReadingDone(p, norm, end, s.c.Pos(), s.charnum, s.counts, s.previous0);
    }
    if s.charnum > maxSymbol + 1 || s.c.bitCount > 32 {
      return Err;
    }
    DealtAll(s.counts, accuracyLog, s.charnum);
    r := Ok(accuracyLog, s.counts[..s.charnum], s.c.ip + (s.c.bitCount + 7) / 8);
  }

  ghost function EndOf(norm: seq<int>, log: nat, good: bool): nat
    requires good ==> Tiles(norm, log)
  {
    if good then |Header(norm, log)| else 0
  }

  /** A field told ahead. */
  lemma FieldRead(src: seq<Byte>, c: Cursor, n: nat, v: nat)
    requires c.ip + 4 <= |src| && c.bitCount + n <= 32 && v < Pow2(n)
    requires BytesBits(src)[c.Pos()..c.Pos() + n] == ToBits(v, n)
    ensures Low(c.Window(src), n) == v
  {
    hide BytesBits, Cursor.Window, ToBits, ToNat, Low, Pow2;
    Peek(src, c, n);
    ToNatOfBits(v, n);
    LowSmall(v, n);
  }

  /** The field of the log. */
  lemma LogRead(src: seq<Byte>, log: nat)
    requires |src| >= 8 && 5 <= log <= 12 && BytesBits(src)[0..4] == ToBits(log - 5, 4)
    ensures Low(Cursor(0, 0).Window(src), 4) == log - 5
  {
    hide BytesBits, Cursor.Window, ToBits, ToNat, Low, Pow2, Cursor.Pos;
    FourBits();
    AtStart();
    FieldRead(src, Cursor(0, 0), 4, log - 5);
  }

  lemma AtStart()
    ensures Cursor(0, 0).Pos() == 0
  {
  }

  lemma FourBits()
    ensures Pow2(4) == 16
  {
  }

  lemma StartSizes(log: nat)
    requires 5 <= log <= 12
    ensures 2 <= Pow2(log) + 1 <= 4097 && HighBit(Pow2(log) + 1) == log
  {
    LogSizes(log);
    PowTwo(log);
    Pow2Next(log);
    HighBitUnique(Pow2(log) + 1, log);
  }

  lemma BeginDealt(n: nat, log: nat)
    ensures Dealt(seq(n, _ => 0), log, 0, Pow2(log) + 1)
  {
  }

  /** `read_probabilities`: a short source is read from a zeroed buffer. */
  method ReadNCount(src: seq<Byte>, maxSymbol: nat, maxLog: nat, ghost norm: seq<int>, ghost log: nat) returns (r: Result)
    requires maxLog <= 12
    ensures r.Ok? ==> Accepted(r.counts, r.log, maxSymbol, maxLog) && r.length <= |src|
    ensures Describing(src, maxSymbol, maxLog, norm, log) ==>
      r.Ok? && r.log == log && UpToZeros(r.counts, norm) && r.length == (|Header(norm, log)| + 7) / 8
  {
    hide BytesBits, Header, Tiles, UpToZeros, Accepted;
    if |src| < 8 {
      var buffer: seq<Byte> := src + seq(8 - |src|, _ => 0);
      if Describing(src, maxSymbol, maxLog, norm, log) {
        PaddedDescribes(src, seq(8 - |src|, _ => 0), maxSymbol, maxLog, norm, log);
      }
      r := ReadBody(buffer, maxSymbol, maxLog, norm, log);
      if r.Ok? && r.length > |src| {
        r := Err;
      }
      return;
    }
    r := ReadBody(src, maxSymbol, maxLog, norm, log);
  }

  /** More bytes behind a description leave it one. */
  lemma PaddedDescribes(src: seq<Byte>, more: seq<Byte>, maxSymbol: nat, maxLog: nat, norm: seq<int>, log: nat)
    requires Describing(src, maxSymbol, maxLog, norm, log)
    ensures Describing(src + more, maxSymbol, maxLog, norm, log) && (|Header(norm, log)| + 7) / 8 <= |src|
  {
    hide BytesBits, Header;
    TilesShape(norm, log);
    BytesBitsAppend(src, more);
    var h := |Header(norm, log)|;
    assert (BytesBits(src) + BytesBits(more))[0..h] == BytesBits(src)[0..h];
  }

  /** What the writer writes, with any bytes behind it, the reader reads. */
  method RoundTrip(norm: seq<int>, log: nat, rest: seq<Byte>, maxSymbol: nat, maxLog: nat) returns (out: seq<Byte>, r: Result)
    requires Tiles(norm, log) && |norm| <= maxSymbol + 1 && log <= maxLog <= 12
    ensures r.Ok? && r.log == log && UpToZeros(r.counts, norm) && r.length == |out|
  {
    hide Tiles, Header, BytesBits, UpToZeros;
    TilesShape(norm, log);
    var ok;
    ok, out := WriteNCount(norm, log);
    DescribesDescribing(out, norm, log, maxSymbol, maxLog);
    PaddedDescribes(out, rest, maxSymbol, maxLog, norm, log);
    r := ReadNCount(out + rest, maxSymbol, maxLog, norm, log);
  }

  lemma TilesShape(norm: seq<int>, log: nat)
    requires Tiles(norm, log)
    ensures 5 <= log && 1 <= |norm| <= 256 && forall s :: 0 <= s < |norm| ==> norm[s] >= -1
  {
  }

  lemma DescribesDescribing(out: seq<Byte>, norm: seq<int>, log: nat, maxSymbol: nat, maxLog: nat)
    requires Tiles(norm, log) && |norm| <= maxSymbol + 1 && log <= maxLog && Describes(out, norm, log)
    ensures Describing(out, maxSymbol, maxLog, norm, log)
  {
    hide Header, BytesBits;
    var h := Header(norm, log);
    assert (h + Zeros(8 * |out| - |h|))[0..|h|] == h;
  }
}
