/** `FSE_writeNCount`: the description, sixteen bits at a time. */
module NCountWriter {
  import opened Nums
  import opened BitSeq
  import opened Words
  import opened FseDist
  import opened NCountBits

  /** Bytes out, and `count` bits waiting in `stream`. */
  datatype Sink = Sink(out: seq<Byte>, stream: nat, count: nat) {
    ghost predicate Valid() { stream < Pow2(count) }

    ghost function All(): Bits { BytesBits(out) + ToBits(stream, count) }

    function Put(v: nat, n: nat): Sink { Sink(out, stream + Shl(v, count), count + n) }

    /** The low sixteen bits go out. */
    function Flush(): Sink {
      Sink(out + TwoBytes(stream), Shr(stream, 16), if count >= 16 then count - 16 else 0)
    }

    /** `bit_count > 16`. */
    function FlushFull(): Sink { if count > 16 then Flush() else this }
  }

  function TwoBytes(x: nat): (b: seq<Byte>)
    ensures |b| == 2
  {
    assert Pow2(8) == 256;
    [Low(x, 8) as Byte, Low(Shr(x, 8), 8) as Byte]
  }

  lemma TwoBytesBits(x: nat)
    ensures BytesBits(TwoBytes(x)) == ToBits(x, 16)
  {
    var b := TwoBytes(x);
    assert b == [b[0]] + [b[1]];
    BytesBitsAppend([b[0]], [b[1]]);
    OneByte(b[0]);
    OneByte(b[1]);
    ToBitsLow(x, 8);
    ToBitsLow(Shr(x, 8), 8);
    ToBitsAppend(x, 8, 8);
  }

  lemma PutAll(w: Sink, v: nat, n: nat)
    requires w.Valid() && v < Pow2(n)
    ensures w.Put(v, n).Valid() && w.Put(v, n).All() == w.All() + ToBits(v, n)
  {
    hide Shl, ToBits, BytesBits, Pow2;
    Above(v, n, w.count);
    Stacked(w.stream, w.count, v, n);
    Regroup(BytesBits(w.out), ToBits(w.stream, w.count), ToBits(v, n));
  }

  /** The bits of `n` more put above `k`. */
  lemma Stacked(x: nat, k: nat, v: nat, n: nat)
    requires x < Pow2(k)
    ensures ToBits(x + Shl(v, k), k + n) == ToBits(x, k) + ToBits(v, n)
  {
    hide Low, Shl, Shr, ToBits, Pow2;
    ShrLowUnique(v, x, k);
    ToBitsAppend(x + Shl(v, k), k, n);
    ToBitsLow(x + Shl(v, k), k);
  }

  /** `n` bits above `k` others. */
  lemma Above(v: nat, n: nat, k: nat)
    requires v < Pow2(n)
    ensures Shl(v, k) + Pow2(k) <= Pow2(k + n)
  {
    hide Shl, Pow2;
    ShlAdd(v, 1, k);
    ShlPow2(0, k);
    ShlMono(v + 1, Pow2(n), k);
    ShlPow2(n, k);
    Pow2Zero();
  }

  lemma FlushAll(w: Sink)
    requires w.Valid() && w.count >= 16
    ensures w.Flush().Valid() && w.Flush().All() == w.All()
  {
    hide Low, Shl, Shr, ToBits, BytesBits, TwoBytes;
    TwoBytesBits(w.stream);
    BytesBitsAppend(w.out, TwoBytes(w.stream));
    ToBitsAppend(w.stream, 16, w.count - 16);
    ShrBelow(w.stream, 16, Pow2(w.count - 16));
    ShlPow2(w.count - 16, 16);
  }

  lemma OnesBits()
    ensures ToBits(3, 2) == [true, true] && 3 < Pow2(2)
    ensures Low(0xFFFF, 16) == 0xFFFF && 0xFFFF < Pow2(16)
  {
    assert ToBits(1, 1)[1..] == [];
    assert ToBits(3, 2) == [true] + ToBits(1, 1);
    assert Pow2(8) == 256;
    assert Pow2(16) == 0x1_0000;
    LowSmall(0xFFFF, 16);
  }

  function Trues(n: nat): (b: Bits)
    ensures |b| == n
  {
    seq(n, _ => true)
  }

  lemma {:induction false} AllOnes(n: nat)
    ensures ToBits(Pow2(n) - 1, n) == Trues(n)
  {
    if n > 0 {
      AllOnes(n - 1);
      assert (Pow2(n) - 1) / 2 == Pow2(n - 1) - 1;
      assert Trues(n) == [true] + Trues(n - 1);
    }
  }

  /** Every three zeros take two set bits. */
  lemma {:induction false} RunPrefix(z: nat, q: nat)
    requires 3 * q <= z
    ensures RunBits(z) == Trues(2 * q) + RunBits(z - 3 * q)
    decreases q
  {
    if q > 0 {
      RunPrefix(z - 3, q - 1);
      assert Trues(2 * q) == [true, true] + Trues(2 * (q - 1));
      Regroup([true, true], Trues(2 * (q - 1)), RunBits(z - 3 * q));
    }
  }

  /** A run of zeros: sixteen set bits for 24, two for three, then what is left. */
  method PutRun(w0: Sink, zeros: nat) returns (w: Sink)
    requires w0.Valid() && w0.count <= 16
    ensures w.Valid() && w.count <= 16 && w.All() == w0.All() + RunBits(zeros)
  {
    hide ToBits, RunBits, Sink.All, Sink.Put, Sink.Flush, Pow2, Sink.Valid;
    w := w0;
    var left := zeros;
    while left >= 24
      invariant w.Valid() && w.count == w0.count && w.All() + RunBits(left) == w0.All() + RunBits(zeros)
    {
      ghost var before := w;
      w := PutLong(w);
      RunPrefix(left, 8);
      Regroup(before.All(), Trues(16), RunBits(left - 24));
      left := left - 24;
    }
    while left >= 3
      invariant left < 24 && w.Valid() && w.count + 2 * (left / 3) <= 30 && w.All() + RunBits(left) == w0.All() + RunBits(zeros)
    {
      ghost var before := w;
      w := PutThree(w);
      RunPrefix(left, 1);
      Regroup(before.All(), Trues(2), RunBits(left - 3));
      left := left - 3;
    }
    w := PutRest(w, left);
  }

  method PutLong(w0: Sink) returns (w: Sink)
    requires w0.Valid()
    ensures w.Valid() && w.count == w0.count && w.All() == w0.All() + Trues(16)
  {
    OnesBits();
    AllOnes(16);
    PutAll(w0, 0xFFFF, 16);
    FlushAll(w0.Put(0xFFFF, 16));
    w := w0.Put(0xFFFF, 16).Flush();
  }

  method PutThree(w0: Sink) returns (w: Sink)
    requires w0.Valid()
    ensures w.Valid() && w.count == w0.count + 2 && w.All() == w0.All() + Trues(2)
  {
    OnesBits();
    PutAll(w0, 3, 2);
    w := w0.Put(3, 2);
    assert Trues(2) == [true, true];
  }

  method PutRest(w0: Sink, left: nat) returns (w: Sink)
    requires w0.Valid() && left < 3 && w0.count <= 30
    ensures w.Valid() && w.count <= 16 && w.All() == w0.All() + RunBits(left)
  {
    OnesBits();
    PutAll(w0, left, 2);
    w := w0.Put(left, 2);
    if w.count > 16 {
      FlushAll(w);
    }
    w := w.FlushFull();
  }

  /** One count plus one, `v`: the small ones below `max` in a bit less, the
      ones from the threshold on moved past those. */
  method PutCount(w0: Sink, v: nat, rem: nat, threshold: nat, nbBits: nat) returns (w: Sink)
    requires w0.Valid() && w0.count <= 16 && 2 <= rem <= 4097 && v <= rem && Threshold(rem, threshold, nbBits)
    ensures w.Valid() && w.count <= 16 && w.All() == w0.All() + CountBits(v, rem)
  {
    hide Sink.All, Sink.Put, Sink.Flush, Sink.Valid, Coded, Width, Threshold, ToBits;
    CountFits(v, rem);
    WidthBound(v, rem);
    ThresholdCodes(v, rem, threshold, nbBits);
    var max: int := 2 * threshold - 1 - rem;
    var code: nat := if v >= threshold then v + max else v;
    var width: nat := nbBits - if code < max then 1 else 0;
    PutAll(w0, code, width);
    w := w0.Put(code, width);
    PutShape(w0, code, width);
    if w.count > 16 {
      FlushAll(w);
      FlushShape(w);
    }
    w := w.FlushFull();
  }

  /** `threshold` is the highest power of two in what remains, `nb_bits` its width. */
  ghost predicate Threshold(rem: nat, threshold: nat, nbBits: nat) {
    rem >= 1 && nbBits == HighBit(rem) + 1 && threshold == Pow2(HighBit(rem))
  }

  lemma ThresholdCodes(v: nat, rem: nat, threshold: nat, nbBits: nat)
    requires v <= rem && Threshold(rem, threshold, nbBits)
    ensures var max := 2 * threshold - 1 - rem;
            var code := if v >= threshold then v + max else v;
            max >= 0 && code == Coded(v, rem) && nbBits - (if code < max then 1 else 0) == Width(v, rem)
  {
  }

  /** `while remaining < threshold`: down to the highest power of two again. */
  method LowerThreshold(rem: nat, threshold0: nat, nbBits0: nat, ghost rem0: nat) returns (threshold: nat, nbBits: nat)
    requires 1 <= rem <= rem0 && Threshold(rem0, threshold0, nbBits0)
    ensures Threshold(rem, threshold, nbBits)
  {
    threshold, nbBits := threshold0, nbBits0;
    while rem < threshold
      invariant nbBits >= 1 && threshold == Pow2(nbBits - 1) && rem < 2 * threshold
    {
      nbBits := nbBits - 1;
      threshold := threshold / 2;
    }
    HighBitUnique(rem, nbBits - 1);
  }

  lemma PutShape(w: Sink, v: nat, n: nat)
    ensures w.Put(v, n).count == w.count + n
  {
  }

  lemma FlushShape(w: Sink)
    requires w.count >= 16
    ensures w.Flush().count == w.count - 16
  {
  }

  lemma WidthBound(v: nat, rem: nat)
    requires 1 <= rem <= 4097 && v <= rem
    ensures Width(v, rem) <= 13
  {
    if HighBit(rem) >= 13 {
      Pow2Mono(13, HighBit(rem));
      Pow2of13();
    }
  }

  lemma Pow2of13()
    ensures Pow2(12) == 4096 && Pow2(13) == 8192
  {
    assert Pow2(8) == 256;
    assert Pow2(12) == 4096;
  }

  lemma {:induction false} ZeroBits(n: nat)
    ensures ToBits(0, n) == Zeros(n)
  {
    if n > 0 {
      ZeroBits(n - 1);
      assert Zeros(n) == [false] + Zeros(n - 1);
    }
  }

  /** The last bytes hold what waits, and zeros above it. */
  lemma Tail(w: Sink, n: nat)
    requires w.Valid() && w.count <= 16 && n == (w.count + 7) / 8
    ensures BytesBits(w.out + TwoBytes(w.stream)[..n]) == w.All() + Zeros(8 * n - w.count)
  {
    hide BytesBits, ToBits, TwoBytes;
    var x, c := w.stream, w.count;
    TwoBytesBits(x);
    BytesBitsSlice(TwoBytes(x), 0, n);
    assert TwoBytes(x)[0..n] == TwoBytes(x)[..n];
    BytesBitsAppend(w.out, TwoBytes(x)[..n]);
    ToBitsAppend(x, c, 16 - c);
    LowSmall(x, c);
    ZeroBits(16 - c);
    assert (ToBits(x, c) + Zeros(16 - c))[8 * 0..8 * n] == ToBits(x, c) + Zeros(8 * n - c);
  }

  // The loop, as far as the distribution tiles the table

  lemma {:induction false} ZerosAre(norm: seq<int>, s: nat, z: nat)
    requires s + z <= |norm| && (forall i :: s <= i < s + z ==> norm[i] == 0) && (s + z < |norm| ==> norm[s + z] != 0)
    ensures Zeros0(norm, s) == z && Rest(norm, s + z) == Rest(norm, s)
    decreases z
  {
    if z > 0 {
      ZerosAre(norm, s + 1, z - 1);
    }
  }

  lemma SymbolBitsAfter(norm: seq<int>, s: nat, t: nat, done: Bits, more: Bits, whole: Bits)
    requires s <= t < |norm| && (forall i :: 0 <= i < |norm| ==> norm[i] >= -1) && Rest(norm, s) > 0
    requires Zeros0(norm, s) == t - s && Rest(norm, t) == Rest(norm, s)
    requires done + SymbolBits(norm, s, true) == whole && more == done + RunBits(t - s)
    ensures more + CountsFrom(norm, t) == whole
  {
    Regroup(done, RunBits(t - s), CountsFrom(norm, t));
  }

  lemma CountsAfter(norm: seq<int>, s: nat, done: Bits, more: Bits, whole: Bits)
    requires s < |norm| && (forall i :: 0 <= i < |norm| ==> norm[i] >= -1) && Rest(norm, s) > 0
    requires done + CountsFrom(norm, s) == whole && norm[s] + 1 <= Rest(norm, s) + 1
    requires more == done + CountBits(norm[s] + 1, Rest(norm, s) + 1)
    ensures more + SymbolBits(norm, s + 1, norm[s] == 0) == whole
    ensures Rest(norm, s + 1) == Rest(norm, s) - Abs(norm[s])
  {
    Regroup(done, CountBits(norm[s] + 1, Rest(norm, s) + 1), SymbolBits(norm, s + 1, norm[s] == 0));
  }

  lemma NoRun(norm: seq<int>, s: nat)
    requires s <= |norm| && (forall i :: 0 <= i < |norm| ==> norm[i] >= -1) && Rest(norm, s) > 0
    ensures s < |norm| && SymbolBits(norm, s, false) == CountsFrom(norm, s) && Abs(norm[s]) <= Rest(norm, s)
  {
  }

  lemma AllWritten(norm: seq<int>, s: nat, after0: bool)
    requires s <= |norm| && (forall i :: 0 <= i < |norm| ==> norm[i] >= -1)
    ensures Rest(norm, s) == 0 ==> SymbolBits(norm, s, after0) == []
    ensures s == |norm| ==> Rest(norm, s) == 0
  {
  }

  /** The log's four bits. */
  method StartSink(norm: seq<int>, log: nat) returns (w: Sink)
    requires 5 <= log <= 12 && forall s :: 0 <= s < |norm| ==> norm[s] >= -1
    ensures w.Valid() && w.count == 4 && w.All() + SymbolBits(norm, 0, false) == Header(norm, log)
  {
    w := Sink([], log - 5, 4);
    assert Pow2(4) == 16;
    assert [] + ToBits(log - 5, 4) == ToBits(log - 5, 4);
  }

  lemma LogSizes(log: nat)
    requires log <= 12
    ensures Pow2(log) <= 4096
  {
    Pow2Mono(log, 12);
    Pow2of13();
  }

  /** The header's bits, zeros to the end of the last byte. */
  ghost predicate Describes(out: seq<Byte>, norm: seq<int>, log: nat) {
    && 5 <= log && (forall s :: 0 <= s < |norm| ==> norm[s] >= -1)
    && HoldsBits(out, Header(norm, log))
  }

  ghost predicate HoldsBits(out: seq<Byte>, bits: Bits) {
    |out| == (|bits| + 7) / 8 && BytesBits(out) == bits + Zeros(8 * |out| - |bits|)
  }

  /** The whole description, where there is one to give. */
  ghost function Whole(norm: seq<int>, log: nat): Bits {
    if 5 <= log && (forall s :: 0 <= s < |norm| ==> norm[s] >= -1) then Header(norm, log) else []
  }

  /** The state of the loop, for a distribution that tiles its table. */
  ghost predicate OnTrack(norm: seq<int>, log: nat, symbol: nat, after0: bool, remaining: int, written: Bits) {
    && symbol <= |norm| && (forall s :: 0 <= s < |norm| ==> norm[s] >= -1)
    && remaining == Rest(norm, symbol) + 1 && written + SymbolBits(norm, symbol, after0) == Whole(norm, log)
  }

  /** The cells of the counts from `s` up to `k`. */
  function Cells(norm: seq<int>, s: nat, k: nat): int
    requires s <= k <= |norm|
  {
    Rest(norm, s) - Rest(norm, k)
  }

  /** Some counts from `s` on take exactly `n` cells. */
  ghost predicate Fills(norm: seq<int>, s: nat, n: int)
    requires s <= |norm|
  {
    exists k: nat :: s <= k <= |norm| && Cells(norm, s, k) == n
  }

  lemma {:induction false} RestFalls(norm: seq<int>, i: nat, j: nat)
    requires i <= j <= |norm|
    ensures Rest(norm, i) >= Rest(norm, j) && (i < j ==> Rest(norm, i) >= Abs(norm[i]) + Rest(norm, j))
    decreases j - i
  {
    if i < j {
      RestFalls(norm, i + 1, j);
    }
  }

  /** A count that takes too much, or none, and no count before it: they never fit. */
  lemma NeverFills(norm: seq<int>, from: nat, symbol: nat, n: nat)
    requires from <= symbol <= |norm| && Rest(norm, symbol) == Rest(norm, from) && n >= 1
    requires symbol < |norm| ==> Abs(norm[symbol]) > n
    ensures !Fills(norm, from, n)
  {
    hide Rest;
    forall k: nat | from <= k <= |norm| ensures Cells(norm, from, k) != n {
      RestFalls(norm, from, k);
      if k <= symbol {
        RestFalls(norm, k, symbol);
      } else {
        RestFalls(norm, symbol, k);
      }
    }
  }

  /** The counts before do not fill it either. */
  lemma FillsBefore(norm: seq<int>, s: nat, n: int, done: int)
    requires s <= |norm| && done == Cells(norm, 0, s) && n >= 1
    ensures Fills(norm, 0, done + n) <==> Fills(norm, s, n)
  {
    hide Rest;
    if k: nat :| k <= |norm| && Cells(norm, 0, k) == done + n {
      if k < s {
        RestFalls(norm, k, s);
      } else {
        assert Cells(norm, s, k) == n;
      }
    }
    if k: nat :| s <= k <= |norm| && Cells(norm, s, k) == n {
      assert Cells(norm, 0, k) == done + n;
    }
  }

  lemma FillsAtEnd(norm: seq<int>, s: nat, n: int)
    requires s <= |norm|
    ensures n == 0 ==> Fills(norm, s, 0)
    ensures s == |norm| && n >= 1 ==> !Fills(norm, s, n)
  {
    assert Cells(norm, s, s) == 0;
  }

  /** The description of a distribution that tiles its table; an error exactly
      if no counts from the first on fill the table. */
  method WriteNCount(norm: seq<int>, log: nat) returns (ok: bool, out: seq<Byte>)
    requires 1 <= |norm| <= 256 && forall s :: 0 <= s < |norm| ==> norm[s] >= -1
    ensures Tiles(norm, log) ==> ok && Describes(out, norm, log)
    ensures ok <==> 5 <= log <= 12 && Fills(norm, 0, Pow2(log))
  {
    hide Tiles, OnTrack, Describes, Sink.All, Sink.Valid, Pow2, Fills, Rest, Cells, Threshold, BytesBits;
    TilesLog(norm, log);
    if !(5 <= log <= 12) {
      return false, [];
    }
    ghost var good := Tiles(norm, log);
    var remaining: int := Pow2(log) + 1;
    var w := StartSink(norm, log);
    LogSizes(log);
    var symbol: nat, previousIs0 := 0, false;
    var threshold: nat, nbBits: nat := Pow2(log), log + 1;
    StartThreshold(log);
    BeginsOnTrack(norm, log, w);
    NoCells(norm);
    while symbol < |norm| && remaining > 1
      invariant 0 <= symbol <= |norm| && w.Valid() && w.count <= 16 && 1 <= remaining <= 4097 && Threshold(remaining, threshold, nbBits)
      invariant good ==> OnTrack(norm, log, symbol, previousIs0, remaining, w.All())
      invariant remaining == Pow2(log) + 1 - Cells(norm, 0, symbol)
      decreases |norm| - symbol
    {
      FillsBefore(norm, symbol, remaining - 1, Cells(norm, 0, symbol));
      var status;
      ghost var before, begin := remaining, symbol;
      status, symbol, previousIs0, remaining, w :=
        WriteSymbol(norm, log, symbol, previousIs0, remaining, threshold, nbBits, w, good);
      if !status {
        return false, [];
      }
      CellsOn(norm, begin, symbol);
      threshold, nbBits := LowerThreshold(remaining, threshold, nbBits, before);
    }
    FillsAtEnd(norm, symbol, remaining - 1);
    if remaining != 1 {
      FillsBefore(norm, symbol, remaining - 1, Cells(norm, 0, symbol));
      AtEndOnTrack(norm, log, symbol, previousIs0, remaining, w.All());
      return false, [];
    }
    var n := (w.count + 7) / 8;
    out := w.out + TwoBytes(w.stream)[..n];
    Tail(w, n);
    Sizes(w);
    FinishedOnTrack(norm, log, symbol, previousIs0, w, out);
    FilledTo(norm, symbol, Pow2(log));
    ok := true;
  }

  lemma NoCells(norm: seq<int>)
    ensures Cells(norm, 0, 0) == 0
  {
  }

  lemma CellsOn(norm: seq<int>, i: nat, j: nat)
    requires i <= j <= |norm|
    ensures Cells(norm, 0, j) == Cells(norm, 0, i) + Cells(norm, i, j)
  {
  }

  lemma FilledTo(norm: seq<int>, s: nat, n: int)
    requires s <= |norm| && Cells(norm, 0, s) == n
    ensures Fills(norm, 0, n)
  {
  }

  lemma StartThreshold(log: nat)
    requires 5 <= log
    ensures Threshold(Pow2(log) + 1, Pow2(log), log + 1)
  {
    hide Pow2, HighBit;
    Pow2Mono(1, log);
    Pow2One();
    Pow2Next(log);
    HighBitUnique(Pow2(log) + 1, log);
  }

  lemma TilesLog(norm: seq<int>, log: nat)
    ensures Tiles(norm, log) ==> 5 <= log <= 12
  {
  }

  lemma BeginsOnTrack(norm: seq<int>, log: nat, w: Sink)
    requires 5 <= log <= 12 && (forall s :: 0 <= s < |norm| ==> norm[s] >= -1)
    requires w.All() + SymbolBits(norm, 0, false) == Header(norm, log)
    ensures Tiles(norm, log) ==> OnTrack(norm, log, 0, false, Pow2(log) + 1, w.All())
  {
  }

  lemma AtEndOnTrack(norm: seq<int>, log: nat, symbol: nat, after0: bool, remaining: int, written: Bits)
    requires symbol == |norm| && remaining != 1
    ensures !OnTrack(norm, log, symbol, after0, remaining, written)
  {
  }

  lemma FinishedOnTrack(norm: seq<int>, log: nat, symbol: nat, after0: bool, w: Sink, out: seq<Byte>)
    requires 5 <= log && |w.All()| == 8 * |w.out| + w.count && w.count <= 16 && |out| == |w.out| + (w.count + 7) / 8
    requires BytesBits(out) == w.All() + Zeros(8 * ((w.count + 7) / 8) - w.count)
    ensures OnTrack(norm, log, symbol, after0, 1, w.All()) ==> Describes(out, norm, log)
  {
    hide BytesBits, ToBits, Zeros, Rest, SymbolBits, Sink.All, Header;
    if OnTrack(norm, log, symbol, after0, 1, w.All()) {
      AllWritten(norm, symbol, after0);
      assert w.All() + [] == w.All();
    }
  }

  /** One turn of the loop: a run of zeros if due, then a count. */
  method WriteSymbol(norm: seq<int>, log: nat, from: nat, after0: bool, remaining0: int, threshold: nat, nbBits: nat, w0: Sink,
                     ghost good: bool)
    returns (status: bool, symbol: nat, previousIs0: bool, remaining: int, w: Sink)
    requires from < |norm| && (forall i :: 0 <= i < |norm| ==> norm[i] >= -1) && w0.Valid() && w0.count <= 16
    requires 2 <= remaining0 <= 4097 && (good ==> OnTrack(norm, log, from, after0, remaining0, w0.All()))
    requires Threshold(remaining0, threshold, nbBits)
    ensures status ==> from < symbol <= |norm| && w.Valid() && w.count <= 16 && 1 <= remaining <= remaining0
    ensures good ==> status && OnTrack(norm, log, symbol, previousIs0, remaining, w.All())
    ensures status ==> remaining == remaining0 - Cells(norm, from, symbol)
    ensures !status ==> !Fills(norm, from, remaining0 - 1)
  {
    hide Fills, Sink.All, Sink.Valid, SymbolBits, CountsFrom, CountBits, Rest, Whole;
    remaining, previousIs0 := remaining0, after0;
    symbol, w := WriteZeros(norm, from, after0, w0, good, Whole(norm, log));
    if symbol == |norm| {
      NeverFills(norm, from, symbol, remaining0 - 1);
      return false, symbol, previousIs0, remaining, w;
    }
    var count := norm[symbol];
    if remaining - Abs(count) < 1 {
      NeverFills(norm, from, symbol, remaining0 - 1);
      return false, symbol, previousIs0, remaining, w;
    }
    w := WriteCount(norm, symbol, remaining, threshold, nbBits, w, good, Whole(norm, log));
    remaining := remaining - Abs(count);
    RestNext(norm, symbol);
    symbol := symbol + 1;
    previousIs0 := count == 0;
    status := true;
  }

  lemma RestNext(norm: seq<int>, s: nat)
    requires s < |norm|
    ensures Rest(norm, s + 1) == Rest(norm, s) - Abs(norm[s])
  {
  }

  /** After a zero count, the run of zeros that follows it. */
  method WriteZeros(norm: seq<int>, start: nat, previousIs0: bool, w0: Sink, ghost good: bool, ghost whole: Bits)
    returns (symbol: nat, w: Sink)
    requires start < |norm| && (forall i :: 0 <= i < |norm| ==> norm[i] >= -1) && w0.Valid() && w0.count <= 16
    requires good ==> Rest(norm, start) > 0 && w0.All() + SymbolBits(norm, start, previousIs0) == whole
    ensures start <= symbol <= |norm| && w.Valid() && w.count <= 16 && (symbol == |norm| ==> !good)
    ensures Rest(norm, symbol) == Rest(norm, start)
    ensures good ==> Rest(norm, symbol) == Rest(norm, start) && w.All() + CountsFrom(norm, symbol) == whole
    ensures good ==> Abs(norm[symbol]) <= Rest(norm, symbol)
  {
    hide Sink.All, Sink.Valid, SymbolBits, CountsFrom, RunBits, Rest, Zeros0;
    symbol, w := start, w0;
    if previousIs0 {
      while symbol < |norm| && norm[symbol] == 0
        invariant start <= symbol <= |norm| && forall i :: start <= i < symbol ==> norm[i] == 0
      {
        symbol := symbol + 1;
      }
      ZerosAre(norm, start, symbol - start);
      if symbol == |norm| {
        AllWritten(norm, symbol, true);
        return;
      }
      w := PutRun(w, symbol - start);
      if good {
        SymbolBitsAfter(norm, start, symbol, w0.All(), w.All(), whole);
      }
    }
    if good {
      NoRun(norm, symbol);
    }
  }

  method WriteCount(norm: seq<int>, symbol: nat, remaining: nat, threshold: nat, nbBits: nat, w0: Sink, ghost good: bool,
                    ghost whole: Bits)
    returns (w: Sink)
    requires Threshold(remaining, threshold, nbBits)
    requires symbol < |norm| && (forall i :: 0 <= i < |norm| ==> norm[i] >= -1) && w0.Valid() && w0.count <= 16
    requires 2 <= remaining <= 4097 && Abs(norm[symbol]) < remaining
    requires good ==> remaining == Rest(norm, symbol) + 1 && w0.All() + CountsFrom(norm, symbol) == whole
    ensures w.Valid() && w.count <= 16
    ensures good ==> w.All() + SymbolBits(norm, symbol + 1, norm[symbol] == 0) == whole
    ensures good ==> Rest(norm, symbol + 1) == Rest(norm, symbol) - Abs(norm[symbol])
  {
    hide Sink.All, Sink.Valid, SymbolBits, CountsFrom, CountBits, Rest;
    w := PutCount(w0, norm[symbol] + 1, remaining, threshold, nbBits);
    if good {
      CountsAfter(norm, symbol, w0.All(), w.All(), whole);
    }
  }

  lemma Sizes(w: Sink)
    ensures |w.All()| == 8 * |w.out| + w.count
  {
  }
}
