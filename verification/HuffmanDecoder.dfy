/** The single-symbol decoding table: from weights to cells. */
module HuffmanDecoder {
  import opened Nums
  import opened Kraft
  import opened FseDist
  import opened HuffmanCodes
  import opened HuffmanWeights
  import opened HuffmanDouble
  import opened CountingSort

  const HUF_FAST_TABLE_LOG: nat := TABLELOG_MAX

  datatype HuffmanEntry = HuffmanEntry(symbol: nat, numBits: nat)

  /** The cell of a window: the symbol whose code starts it. */
  ghost predicate Right(e: HuffmanEntry, l: seq<nat>, u: nat, x: nat)
    requires Full(l, u) && u <= HUF_FAST_TABLE_LOG
  {
    Matches(l, u, HUF_FAST_TABLE_LOG, e.symbol, x) && e.numBits == l[e.symbol]
  }

  class HuffmanTable {
    const weights: array<nat>
    const rankStats: array<nat>
    const sorted: array<nat>
    const decode: array<HuffmanEntry>
    const decodeX2: array<HufEntryX2>
    var nbSymbols: nat
    var maxNumBits: nat

    ghost predicate Valid()
      reads this
    {
      && weights.Length == 256 && rankStats.Length == TABLELOG_MAX + 1 && sorted.Length == 256
      && decode.Length == decodeX2.Length == Pow2(HUF_FAST_TABLE_LOG)
      && weights != rankStats && weights != sorted && rankStats != sorted
    }

    constructor ()
      ensures Valid() && fresh(weights) && fresh(rankStats) && fresh(sorted) && fresh(decode) && fresh(decodeX2)
    {
      weights := new nat[256](_ => 0);
      rankStats := new nat[TABLELOG_MAX + 1](_ => 0);
      sorted := new nat[256](_ => 0);
      decode := new HuffmanEntry[Pow2(HUF_FAST_TABLE_LOG)](_ => HuffmanEntry(0, 0));
      decodeX2 := new HufEntryX2[Pow2(HUF_FAST_TABLE_LOG)](_ => HufEntryX2(0, 0, 0, 0));
      nbSymbols, maxNumBits := 0, 0;
    }

    /** The table's own tree. */
    ghost predicate Knows(l: seq<nat>, u: nat)
      reads this, weights, rankStats
    {
      && Valid() && Tree(l, u) && |l| <= 256 && maxNumBits == u && nbSymbols == |l|
      && weights[..|l|] == Weights(u, l)
      && forall w :: 0 <= w <= TABLELOG_MAX ==> rankStats[w] == Count(Weights(u, l), w)
    }

    /** `weight_stats`: it accepts exactly the weights of a tree less its last
        one, and knows that tree. */
    method WeightStats(nbWeights: nat) returns (ok: bool)
      requires Valid() && nbWeights <= 255 && forall i :: 0 <= i < nbWeights ==> weights[i] <= 15
      modifies this, weights, rankStats
      ensures Valid() && (ok <==> StatsOf(old(weights[..nbWeights])).Accepted?)
      ensures ok ==> var Accepted(all, u) := StatsOf(old(weights[..nbWeights])); Knows(Weights(u, all), u)
    {
      hide Tree, Pow2, HighBit, Occ, Shares;
      ghost var ws := weights[..nbWeights];
      var counts := CountWeightsUsed(nbWeights);
      var w := TABLELOG_MAX + 1;
      while w < 16
        invariant TABLELOG_MAX + 1 <= w <= 16 && forall v :: TABLELOG_MAX < v < w ==> Count(ws, v) == 0
      {
        if counts[w] != 0 {
          SomeTooBig(ws, w);
          return false;
        }
        w := w + 1;
      }
      NoneTooBig(ws);
      var total := TotalOf(counts, ws);
      if total == 0 {
        return false;
      }
      var tableLog := HighBit(total) + 1;
      if tableLog > TABLELOG_MAX {
        return false;
      }
      LastFits(total);
      var rest := Pow2(tableLog) - total;
      if Pow2(HighBit(rest)) != rest {
        return false;
      }
      var last := HighBit(rest) + 1;
      weights[nbWeights] := last;
      assert weights[..nbWeights + 1] == ws + [last];
      CountLast(ws, last);
      forall v | 0 <= v <= TABLELOG_MAX {
        rankStats[v] := counts[v] + if v == last then 1 else 0;
      }
      assert rankStats[1] == Count(ws + [last], 1);
      if rankStats[1] < 2 || rankStats[1] % 2 == 1 {
        return false;
      }
      AcceptedIsTree(ws);
      ghost var all := ws + [last];
      assert StatsOf(ws) == Accepted(all, tableLog);
      SharesUpTo(ws, tableLog);
      WeightsInvolution(tableLog, all);
      nbSymbols, maxNumBits := nbWeights + 1, tableLog;
      ok := true;
    }

    /** `WeightLanes`: a count per weight. */
    method CountWeightsUsed(nbWeights: nat) returns (counts: array<nat>)
      requires Valid() && nbWeights <= 255 && forall i :: 0 <= i < nbWeights ==> weights[i] <= 15
      ensures fresh(counts) && counts.Length == 16
      ensures forall v :: 0 <= v < 16 ==> counts[v] == Count(weights[..nbWeights], v)
    {
      hide Occ;
      ghost var ws := weights[..nbWeights];
      counts := new nat[16](_ => 0);
      OccNone0(ws);
      var i := 0;
      while i < nbWeights
        invariant 0 <= i <= nbWeights && weights[..nbWeights] == ws
        invariant forall v :: 0 <= v < 16 ==> counts[v] == Occ(ws, v, i)
      {
        OccNext(ws, i);
        assert weights[i] == ws[i];
        counts[weights[i]] := counts[weights[i]] + 1;
        i := i + 1;
      }
    }

    /** `sort_symbols`. */
    method SortSymbols(ghost l: seq<nat>, ghost u: nat) returns (rankStart: array<nat>)
      requires Knows(l, u)
      modifies sorted
      ensures fresh(rankStart) && rankStart.Length == TABLELOG_MAX + 2
      ensures forall w :: 0 <= w < rankStart.Length ==> rankStart[w] == Below(Weights(u, l), w, |l|)
      ensures forall s :: 0 <= s < |l| ==> Slot(Weights(u, l), s) < 256 && sorted[Slot(Weights(u, l), s)] == s
    {
      hide Tree, Occ, Slot, Weights, RankVal, Below, Count;
      ghost var ws := Weights(u, l);
      WeightsFit(l, u);
      rankStart := new nat[TABLELOG_MAX + 2](_ => 0);
      var next := new nat[TABLELOG_MAX + 1](_ => 0);
      SumRanks(rankStart, next, ws);
      PlaceSymbols(next, ws);
    }

    /** Where the symbols of each weight start. */
    method SumRanks(rankStart: array<nat>, next: array<nat>, ghost ws: seq<nat>)
      requires rankStats.Length == TABLELOG_MAX + 1 && forall v :: 0 <= v <= TABLELOG_MAX ==> rankStats[v] == Count(ws, v)
      requires rankStart.Length == TABLELOG_MAX + 2 && next.Length == TABLELOG_MAX + 1
      requires rankStart != next && rankStart != rankStats && next != rankStats
      modifies rankStart, next
      ensures forall w :: 0 <= w < rankStart.Length ==> rankStart[w] == Below(ws, w, |ws|)
      ensures forall w :: 0 <= w < next.Length ==> next[w] == Below(ws, w, |ws|)
    {
      hide Below, Count;
      BelowStart(ws);
      var start, w := 0, 0;
      while w <= TABLELOG_MAX
        invariant 0 <= w <= TABLELOG_MAX + 1 && start == Below(ws, w, |ws|)
        invariant forall v :: 0 <= v < w ==> rankStart[v] == next[v] == Below(ws, v, |ws|)
      {
        rankStart[w] := start;
        next[w] := start;
        BelowUp(ws, w);
        start := start + rankStats[w];
        w := w + 1;
      }
      rankStart[TABLELOG_MAX + 1] := start;
    }

    method PlaceSymbols(next: array<nat>, ghost ws: seq<nat>)
      requires Valid() && next.Length == TABLELOG_MAX + 1 && next != sorted && next != weights && |ws| == nbSymbols <= 256
      requires weights[..|ws|] == ws && AtMost(ws, TABLELOG_MAX)
      requires forall v :: 0 <= v <= TABLELOG_MAX ==> next[v] == Below(ws, v, |ws|)
      modifies sorted, next
      ensures forall s :: 0 <= s < |ws| ==> Slot(ws, s) < 256 && sorted[Slot(ws, s)] == s
    {
      hide Occ, Below, Slot;
      var s := 0;
      OccNone0(ws);
      while s < nbSymbols
        invariant 0 <= s <= nbSymbols && weights[..|ws|] == ws
        invariant forall v :: 0 <= v <= TABLELOG_MAX ==> next[v] == Below(ws, v, |ws|) + Occ(ws, v, s)
        invariant forall r :: 0 <= r < s ==> Slot(ws, r) < 256 && sorted[Slot(ws, r)] == r
      {
        var w := weights[s];
        assert w == ws[s];
        OccNext(ws, s);
        SlotInside(ws, TABLELOG_MAX, s);
        forall r: nat | r < s ensures Slot(ws, r) != Slot(ws, s) {
          SlotDistinct(ws, TABLELOG_MAX, r, s);
        }
        sorted[next[w]] := s;
        next[w] := next[w] + 1;
        s := s + 1;
      }
    }

    /** `fill_x1`: each symbol's run of cells, longest codes first. */
    method FillX1(ghost l: seq<nat>, ghost u: nat)
      requires Knows(l, u)
      modifies sorted, decode
      ensures Knows(l, u) && forall x :: 0 <= x < decode.Length ==> Right(decode[x], l, u, x)
    {
      hide Tree, Weights, Full, Right, RankVal, Count, Below, Slot;
      WeightsFit(l, u);
      var rankStart := SortSymbols(l, u);
      RankValEnds(l, u);
      ShlZero(HUF_FAST_TABLE_LOG - u);
      ghost var ws := Weights(u, l);
      var pos, w := 0, 1;
      while w <= maxNumBits
        invariant Knows(l, u) && 1 <= w <= u + 1 && pos == Shl(RankVal(l, u, u + 1 - w), HUF_FAST_TABLE_LOG - (u + 1 - w))
        invariant forall v :: 0 <= v < rankStart.Length ==> rankStart[v] == Below(ws, v, |l|)
        invariant forall s :: 0 <= s < |l| ==> Slot(ws, s) < 256 && sorted[Slot(ws, s)] == s
        invariant forall x :: 0 <= x < pos && x < decode.Length ==> Right(decode[x], l, u, x)
      {
        pos := FillWeight(l, u, w, rankStart[w], pos);
        w := w + 1;
      }
      ShlPow2(0, HUF_FAST_TABLE_LOG);
    }

    /** The symbols of one weight. */
    method FillWeight(ghost l: seq<nat>, ghost u: nat, w: nat, start: nat, from: nat) returns (pos: nat)
      requires Knows(l, u) && Full(l, u) && 1 <= w <= u <= HUF_FAST_TABLE_LOG && start == Below(Weights(u, l), w, |l|)
      requires forall s :: 0 <= s < |l| ==> Slot(Weights(u, l), s) < 256 && sorted[Slot(Weights(u, l), s)] == s
      requires from == Shl(RankVal(l, u, u + 1 - w), HUF_FAST_TABLE_LOG - (u + 1 - w))
      requires forall x :: 0 <= x < from && x < decode.Length ==> Right(decode[x], l, u, x)
      modifies decode
      ensures pos == Shl(RankVal(l, u, u - w), HUF_FAST_TABLE_LOG - (u - w))
      ensures forall x :: 0 <= x < pos && x < decode.Length ==> Right(decode[x], l, u, x)
    {
      hide Tree, Weights, Full, Right, RankVal, Below, Slot, Occ;
      ghost var ws, n := Weights(u, l), u + 1 - w;
      var rescale := HUF_FAST_TABLE_LOG - maxNumBits;
      var count, length, numBits := rankStats[w], Pow2(w - 1 + rescale), maxNumBits + 1 - w;
      pos := from;
      var k := 0;
      while k < count
        invariant 0 <= k <= count == Count(ws, w) && pos == Shl(RankVal(l, u, n) + k, HUF_FAST_TABLE_LOG - n)
        invariant forall x :: 0 <= x < pos && x < decode.Length ==> Right(decode[x], l, u, x)
      {
        ghost var s := RunOf(l, u, w, k);
        FillRun(decode, pos, length, HuffmanEntry(sorted[start + k], numBits));
        pos := pos + length;
        k := k + 1;
      }
      NextRank(l, u, HUF_FAST_TABLE_LOG, n);
      CountWeightsAll(l, u, n);
    }

    ghost predicate Sorts(l: seq<nat>, u: nat)
      reads this, sorted
    {
      Valid() && forall s :: 0 <= s < |l| ==> Slot(Weights(u, l), s) < 256 && sorted[Slot(Weights(u, l), s)] == s
    }

    /** The symbols of weight `w`, in order. */
    method SymbolsOf(rankStart: array<nat>, w: nat, ghost l: seq<nat>, ghost u: nat) returns (symbols: seq<nat>)
      requires Sorts(l, u) && Full(l, u) && |l| <= 256 && 1 <= w <= u <= TABLELOG_MAX && RanksStart(rankStart, l, u)
      ensures |symbols| == Count(l, u + 1 - w) && forall k: nat :: k < |symbols| ==> OfRank(l, u, u + 1 - w, k, symbols[k])
    {
      hide Full, Below, Slot, Count, Weights, RankVal, Value;
      ghost var ws := Weights(u, l);
      BelowUp(ws, w);
      CountWeightsAll(l, u, u + 1 - w);
      AllBelow(l, u, w, Count(ws, w));
      symbols := sorted[rankStart[w]..rankStart[w + 1]];
      forall k: nat | k < |symbols| ensures OfRank(l, u, u + 1 - w, k, symbols[k]) {
        var s := RankedAt(l, u, w, k);
        assert sorted[Slot(ws, s)] == s;
      }
    }

    /** The highest weight in use. */
    method MaxWeight(ghost l: seq<nat>, ghost u: nat) returns (maxW: nat)
      requires Knows(l, u) && Full(l, u) && 1 <= u <= TABLELOG_MAX && Count(l, u) > 0
      ensures 1 <= maxW <= u && forall n :: 1 <= n <= u - maxW ==> Count(l, n) == 0
    {
      hide Tree, Full, Count, Weights;
      CountWeightsAll(l, u, u);
      maxW := maxNumBits;
      while rankStats[maxW] == 0
        invariant 1 <= maxW <= u && forall n :: 1 <= n <= u - maxW ==> Count(l, n) == 0
        decreases maxW
      {
        CountWeightsAll(l, u, u + 1 - maxW);
        maxW := maxW - 1;
      }
    }

    /** `rank_val`: where each weight's cells begin, and where they do once a
        first symbol has taken `consumed` bits. */
    method RankVals(maxW: nat, ghost l: seq<nat>, ghost u: nat) returns (rankVal: array2<nat>)
      requires Knows(l, u) && Full(l, u) && 1 <= maxW <= u <= TABLELOG_MAX
      ensures fresh(rankVal) && RankedBy(rankVal, l, u, maxW)
    {
      hide Tree, Full, RankVal, Count, Weights, Shl, Shr;
      rankVal := new nat[TABLELOG_MAX, TABLELOG_MAX + 1]((_, _) => 0);
      var nextVal, w := 0, 1;
      var rescale := HUF_FAST_TABLE_LOG - maxNumBits;
      FirstCellEnds(l, u, TABLELOG_MAX);
      while w <= maxW
        invariant 1 <= w <= maxW + 1 && nextVal == FirstCell(l, u, TABLELOG_MAX, w)
        invariant forall v: nat :: 1 <= v < w ==> rankVal[0, v] == FirstCell(l, u, TABLELOG_MAX, v)
        invariant Knows(l, u)
      {
        rankVal[0, w] := nextVal;
        CountWeightsAll(l, u, u + 1 - w);
        FirstCellNext(l, u, TABLELOG_MAX, w);
        nextVal := nextVal + Shl(rankStats[w], w - 1 + rescale);
        w := w + 1;
      }
      var minBits := maxNumBits + 1 - maxW;
      var consumed := minBits;
      while consumed <= HUF_FAST_TABLE_LOG - minBits
        invariant minBits <= consumed && forall v: nat :: 1 <= v <= maxW ==> rankVal[0, v] == FirstCell(l, u, TABLELOG_MAX, v)
        invariant forall c: nat, v: nat :: minBits <= c < consumed && c <= HUF_FAST_TABLE_LOG - minBits && 1 <= v <= maxW ==>
                    rankVal[c, v] == Shr(FirstCell(l, u, TABLELOG_MAX, v), c)
      {
        ConsumeRow(rankVal, consumed, maxW, minBits);
        consumed := consumed + 1;
      }
    }

    /** `fill_x2`: each symbol's run of cells, in it the runs of the second
        symbols that fit. */
    method FillX2(ghost l: seq<nat>, ghost u: nat)
      requires Knows(l, u)
      modifies sorted, decodeX2
      ensures Knows(l, u) && Full(l, u) && u <= HUF_FAST_TABLE_LOG
      ensures decodeX2[..] == CellsX2(l, u, HUF_FAST_TABLE_LOG)
    {
      hide Tree, Weights, Full, RankVal, Below, Slot, Count, CellX2, Pow2, FirstCell, RankedBy, RanksStart;
      KnownTree(l, u);
      var maxW := MaxWeight(l, u);
      var rankStart := SortSymbols(l, u);
      RanksStartAre(rankStart, l, u);
      var rankVal := RankVals(maxW, l, u);
      ghost var want := CellsX2(l, u, HUF_FAST_TABLE_LOG);
      FirstCellEnds(l, u, TABLELOG_MAX);
      var w: nat := 1;
      while w <= maxW
        invariant 1 <= w <= maxW + 1 && Knows(l, u) && RanksStart(rankStart, l, u) && Sorts(l, u) && RankedBy(rankVal, l, u, maxW)
        invariant forall x :: 0 <= x < FirstCell(l, u, TABLELOG_MAX, w) && x < decodeX2.Length ==> decodeX2[x] == want[x]
      {
        FillWeightX2(w, maxW, rankStart, rankVal, l, u);
        w := w + 1;
      }
      LastCell(l, u, TABLELOG_MAX, maxW);
    }

    method FillWeightX2(w: nat, maxW: nat, rankStart: array<nat>, rankVal: array2<nat>, ghost l: seq<nat>, ghost u: nat)
      requires Knows(l, u) && Full(l, u) && 1 <= w <= maxW <= u <= TABLELOG_MAX && RanksStart(rankStart, l, u) && Sorts(l, u)
      requires RankedBy(rankVal, l, u, maxW) && forall n :: 1 <= n <= u - maxW ==> Count(l, n) == 0
      requires forall x :: 0 <= x < FirstCell(l, u, TABLELOG_MAX, w) && x < decodeX2.Length ==> decodeX2[x] == CellsX2(l, u, TABLELOG_MAX)[x]
      modifies decodeX2
      ensures forall x :: 0 <= x < FirstCell(l, u, TABLELOG_MAX, w + 1) && x < decodeX2.Length ==> decodeX2[x] == CellsX2(l, u, TABLELOG_MAX)[x]
    {
      hide Tree, Weights, Full, RankVal, Count, CellX2, Pow2, RanksStart, Sorts, OfRank, Shl;
      CellBelow(l, u, TABLELOG_MAX, w + 1, maxW);
      var nbBits, minBits := maxNumBits + 1 - w, maxNumBits + 1 - maxW;
      var symbols := SymbolsOf(rankStart, w, l, u);
      FirstCellNext(l, u, TABLELOG_MAX, w);
      ghost var want, r := CellsX2(l, u, TABLELOG_MAX), TABLELOG_MAX - nbBits;
      var at := rankVal[0, w];
      if HUF_FAST_TABLE_LOG - nbBits >= minBits {
        FillFirsts(at, symbols, nbBits, w, maxW, rankStart, rankVal, l, u);
      } else {
        forall k: nat | k < |symbols|
          ensures Run(want, at + Shl(k, r), at + Shl(k + 1, r), BuildX2(symbols[k], nbBits, 0, 1))
        {
          LoneCells(l, u, TABLELOG_MAX, nbBits, k, symbols[k]);
        }
        FillForWeight(decodeX2, at, symbols, nbBits, 0, 1, want);
      }
    }

    /** The first symbols of one weight, each with the second ones that fit. */
    method FillFirsts(at: nat, symbols: seq<nat>, nbBits: nat, ghost w: nat, maxW: nat, rankStart: array<nat>,
                      rankVal: array2<nat>, ghost l: seq<nat>, ghost u: nat)
      requires Knows(l, u) && Full(l, u) && 1 <= w <= maxW <= u <= TABLELOG_MAX && RanksStart(rankStart, l, u) && Sorts(l, u)
      requires RankedBy(rankVal, l, u, maxW) && forall n :: 1 <= n <= u - maxW ==> Count(l, n) == 0
      requires nbBits == u + 1 - w && at == FirstCell(l, u, TABLELOG_MAX, w) && TABLELOG_MAX - nbBits >= u + 1 - maxW
      requires forall k: nat :: k < |symbols| ==> OfRank(l, u, nbBits, k, symbols[k])
      modifies decodeX2
      ensures forall x :: 0 <= x < decodeX2.Length ==>
                decodeX2[x] == if at <= x < at + Shl(|symbols|, TABLELOG_MAX - nbBits) then CellsX2(l, u, TABLELOG_MAX)[x]
                               else old(decodeX2[x])
    {
      hide Tree, Weights, Full, RankVal, Count, CellX2, Pow2, FirstCell, RanksStart, Sorts, Shl, RankedBy, StartOf;
      ghost var want, r := CellsX2(l, u, TABLELOG_MAX), TABLELOG_MAX - nbBits;
      var length := Pow2(HUF_FAST_TABLE_LOG - nbBits);
      var scaled: int := nbBits + (maxNumBits + 1 - HUF_FAST_TABLE_LOG);
      var minWeight: nat := if scaled >= 1 then scaled else 1;
      var start, k := at, 0;
      ShlZero(r);
      while k < |symbols|
        invariant 0 <= k <= |symbols| && start == at + Shl(k, r)
        invariant forall x :: 0 <= x < decodeX2.Length ==> decodeX2[x] == if at <= x < start then want[x] else old(decodeX2[x])
      {
        ShlNext(k, r);
        RankedStart(l, u, TABLELOG_MAX, w, k, symbols[k]);
        FillLevel2(start, nbBits, minWeight, maxW, rankStart, rankVal, symbols[k], l, u);
        start := start + length;
        k := k + 1;
      }
    }

    /** `huf_fill_x2_level2`: the cells of first symbol `baseSeq`. */
    method FillLevel2(start: nat, consumed: nat, minWeight: nat, maxW: nat, rankStart: array<nat>, rankVal: array2<nat>,
                      baseSeq: nat, ghost l: seq<nat>, ghost u: nat)
      requires Knows(l, u) && Full(l, u) && 1 <= maxW <= u <= TABLELOG_MAX && RanksStart(rankStart, l, u) && Sorts(l, u)
      requires RankedBy(rankVal, l, u, maxW) && forall n :: 1 <= n <= u - maxW ==> Count(l, n) == 0
      requires baseSeq < |l| && u + 1 - maxW <= consumed == l[baseSeq] <= TABLELOG_MAX - (u + 1 - maxW)
      requires start == StartOf(l, u, TABLELOG_MAX, baseSeq)
      requires minWeight == if consumed + u + 1 > TABLELOG_MAX + 1 then consumed + u + 1 - TABLELOG_MAX else 1
      modifies decodeX2
      ensures forall x :: 0 <= x < decodeX2.Length ==>
                decodeX2[x] == if start <= x < start + Pow2(TABLELOG_MAX - consumed) then CellsX2(l, u, TABLELOG_MAX)[x]
                               else old(decodeX2[x])
    {
      hide Tree, Weights, Full, RankVal, Count, CellX2, Pow2, FirstCell, RanksStart, Sorts, OfRank, Shl, StartOf;
      ghost var want, t := CellsX2(l, u, TABLELOG_MAX), TABLELOG_MAX - consumed;
      FirstRunFits(l, u, TABLELOG_MAX, baseSeq);
      if minWeight > 1 {
        FillSingles(start, consumed, minWeight, maxW, rankVal, baseSeq, l, u);
      } else {
        FirstCellEnds(l, u, t);
      }
      var w: nat := minWeight;
      while w <= maxW
        invariant minWeight <= w <= maxW + 1 && FirstCell(l, u, t, w) <= Pow2(t)
        invariant forall x :: 0 <= x < decodeX2.Length && start <= x < start + FirstCell(l, u, t, w) ==> decodeX2[x] == want[x]
        invariant forall x :: 0 <= x < decodeX2.Length && !(start <= x < start + Pow2(t)) ==> decodeX2[x] == old(decodeX2[x])
      {
        FillSeconds(start, consumed, w, maxW, rankStart, rankVal, baseSeq, l, u);
        w := w + 1;
      }
      LastCell(l, u, t, maxW);
    }

    /** The cells of `baseSeq` alone, and some that will be written over. */
    method FillSingles(start: nat, consumed: nat, minWeight: nat, maxW: nat, rankVal: array2<nat>, baseSeq: nat,
                       ghost l: seq<nat>, ghost u: nat)
      requires Valid() && Full(l, u) && 1 <= maxW <= u <= TABLELOG_MAX && RankedBy(rankVal, l, u, maxW)
      requires baseSeq < |l| && u + 1 - maxW <= consumed == l[baseSeq] <= TABLELOG_MAX - (u + 1 - maxW)
      requires start == StartOf(l, u, TABLELOG_MAX, baseSeq) && start + Pow2(TABLELOG_MAX - consumed) <= decodeX2.Length
      requires minWeight == consumed + u + 1 - TABLELOG_MAX > 1
      modifies decodeX2
      ensures FirstCell(l, u, TABLELOG_MAX - consumed, minWeight) <= Pow2(TABLELOG_MAX - consumed)
      ensures forall x :: start <= x < start + FirstCell(l, u, TABLELOG_MAX - consumed, minWeight) ==>
                0 <= x < decodeX2.Length && decodeX2[x] == CellsX2(l, u, TABLELOG_MAX)[x]
      ensures forall x :: 0 <= x < decodeX2.Length && !(start <= x < start + Pow2(TABLELOG_MAX - consumed)) ==>
                decodeX2[x] == old(decodeX2[x])
    {
      hide Full, RankVal, CellX2, Pow2, FirstCell, Shl, StartOf, Shr;
      ghost var t := TABLELOG_MAX - consumed;
      Consumed(l, u, TABLELOG_MAX, minWeight, consumed);
      CellOfBits(l, u, t, minWeight);
      SingleCells(l, u, TABLELOG_MAX, baseSeq);
      var skip, length := rankVal[consumed, minWeight], Pow2(HUF_FAST_TABLE_LOG - consumed);
      WholeRuns(HUF_FAST_TABLE_LOG - consumed, skip);
      var cells := if length == 2 || length == 4 then length else (skip + 7) / 8 * 8;
      FillRunX2(decodeX2, start, cells, BuildX2(baseSeq, consumed, 0, 1));
    }

    /** The second symbols of weight `w`. */
    method FillSeconds(start: nat, consumed: nat, w: nat, maxW: nat, rankStart: array<nat>, rankVal: array2<nat>,
                       baseSeq: nat, ghost l: seq<nat>, ghost u: nat)
      requires Knows(l, u) && Full(l, u) && 1 <= w <= maxW <= u <= TABLELOG_MAX && RanksStart(rankStart, l, u) && Sorts(l, u)
      requires RankedBy(rankVal, l, u, maxW) && forall n :: 1 <= n <= u - maxW ==> Count(l, n) == 0
      requires baseSeq < |l| && u + 1 - maxW <= consumed == l[baseSeq] <= TABLELOG_MAX - (u + 1 - maxW)
      requires consumed + (u + 1 - w) <= TABLELOG_MAX
      requires start == StartOf(l, u, TABLELOG_MAX, baseSeq) && start + Pow2(TABLELOG_MAX - consumed) <= decodeX2.Length
      modifies decodeX2
      ensures FirstCell(l, u, TABLELOG_MAX - consumed, w + 1) <= Pow2(TABLELOG_MAX - consumed)
      ensures var t := TABLELOG_MAX - consumed;
              forall x :: 0 <= x < decodeX2.Length ==>
                decodeX2[x] == if start + FirstCell(l, u, t, w) <= x < start + FirstCell(l, u, t, w + 1) then CellsX2(l, u, TABLELOG_MAX)[x]
                               else old(decodeX2[x])
    {
      hide Tree, Weights, Full, RankVal, Count, CellX2, Pow2, RanksStart, Sorts, OfRank, Shl, Shr, StartOf;
      ghost var want, t, n := CellsX2(l, u, TABLELOG_MAX), TABLELOG_MAX - consumed, u + 1 - w;
      Consumed(l, u, TABLELOG_MAX, w, consumed);
      FirstCellNext(l, u, t, w);
      CellBelow(l, u, t, w + 1, maxW);
      var symbols := SymbolsOf(rankStart, w, l, u);
      var nbBits := maxNumBits + 1 - w;
      ghost var at := start + FirstCell(l, u, t, w);
      forall k: nat | k < |symbols|
        ensures Run(want, at + Shl(k, t - n), at + Shl(k + 1, t - n), BuildX2(symbols[k], nbBits + consumed, baseSeq, 2))
      {
        SecondCells(l, u, TABLELOG_MAX, baseSeq, n, k, symbols[k]);
      }
      FillForWeight(decodeX2, start + rankVal[consumed, w], symbols, nbBits + consumed, baseSeq, 2, want);
    }
  }

  lemma RankedStart(l: seq<nat>, u: nat, t: nat, w: nat, k: nat, s: nat)
    requires Full(l, u) && 1 <= w <= u <= t && OfRank(l, u, u + 1 - w, k, s)
    ensures StartOf(l, u, t, s) == FirstCell(l, u, t, w) + Shl(k, t - (u + 1 - w))
  {
    ShlAdd(RankVal(l, u, u + 1 - w), k, t - (u + 1 - w));
  }

  lemma FirstRunFits(l: seq<nat>, u: nat, t: nat, s: nat)
    requires Full(l, u) && u <= t && s < |l| && 1 <= l[s]
    ensures l[s] <= t && StartOf(l, u, t, s) + Pow2(t - l[s]) <= Pow2(t)
  {
    hide Full, Pow2, StartOf;
    CodeBound(l, u, s);
    PowPositive(t - l[s]);
    FirstRun(l, u, t, s, 0);
  }

  /** Where the weight of `t` bits starts in a table of `t` bits. */
  lemma CellOfBits(l: seq<nat>, u: nat, t: nat, w: nat)
    requires Full(l, u) && 1 <= w <= u && u + 1 - w == t
    ensures FirstCell(l, u, t, w) == RankVal(l, u, t) <= Pow2(t)
  {
    CodedBound(l, u, t);
  }

  lemma CellBelow(l: seq<nat>, u: nat, t: nat, w: nat, maxW: nat)
    requires Full(l, u) && 1 <= maxW && 1 <= w <= maxW + 1 <= u + 1 && u + 1 - w <= t
    requires forall n :: 1 <= n <= u - maxW ==> Count(l, n) == 0
    ensures FirstCell(l, u, t, w) <= Pow2(t)
    decreases maxW + 1 - w
  {
    hide RankVal, Count, Full, FirstCell;
    if w == maxW + 1 {
      LastCell(l, u, t, maxW);
    } else {
      FirstCellNext(l, u, t, w);
      CellBelow(l, u, t, w + 1, maxW);
    }
  }

  /** Runs of 2, 4 or 8 cells stay among those of the first symbol. */
  lemma WholeRuns(r: nat, skip: nat)
    requires 1 <= r && skip <= Pow2(r)
    ensures Pow2(r) == 2 || Pow2(r) == 4 || skip <= (skip + 7) / 8 * 8 <= Pow2(r)
  {
    if r == 1 {
      assert Pow2(1) == 2;
    } else if r == 2 {
      assert Pow2(2) == 4;
    } else {
      assert Pow2(r) == 2 * Pow2(r - 1) && Pow2(r - 1) == 2 * Pow2(r - 2) && Pow2(r - 2) == 2 * Pow2(r - 3);
    }
  }

  /** Where each weight's symbols start. */
  ghost predicate RanksStart(rankStart: array<nat>, l: seq<nat>, u: nat)
    reads rankStart
  {
    rankStart.Length == TABLELOG_MAX + 2 && forall w :: 0 <= w < rankStart.Length ==> rankStart[w] == Below(Weights(u, l), w, |l|)
  }

  lemma RanksStartAre(rankStart: array<nat>, l: seq<nat>, u: nat)
    requires rankStart.Length == TABLELOG_MAX + 2 && forall w :: 0 <= w < rankStart.Length ==> rankStart[w] == Below(Weights(u, l), w, |l|)
    ensures RanksStart(rankStart, l, u)
  {
  }

  /** The first cell of weight `w` in a table of `t` bits. */
  ghost function FirstCell(l: seq<nat>, u: nat, t: nat, w: nat): nat
    requires Full(l, u) && 1 <= w <= u + 1 && u + 1 - w <= t
  {
    Shl(RankVal(l, u, u + 1 - w), t - (u + 1 - w))
  }

  ghost predicate RankedBy(rankVal: array2<nat>, l: seq<nat>, u: nat, maxW: nat)
    requires Full(l, u) && 1 <= maxW <= u <= TABLELOG_MAX
    reads rankVal
  {
    && rankVal.Length0 == TABLELOG_MAX && rankVal.Length1 == TABLELOG_MAX + 1
    && (forall w: nat :: 1 <= w <= maxW ==> rankVal[0, w] == FirstCell(l, u, TABLELOG_MAX, w))
    && forall c: nat, w: nat :: u + 1 - maxW <= c <= TABLELOG_MAX - (u + 1 - maxW) && 1 <= w <= maxW ==>
         rankVal[c, w] == Shr(FirstCell(l, u, TABLELOG_MAX, w), c)
  }

  lemma KnownTree(l: seq<nat>, u: nat)
    requires Tree(l, u)
    ensures Full(l, u) && 1 <= u <= TABLELOG_MAX && Count(l, u) > 0
  {
  }

  lemma FirstCellEnds(l: seq<nat>, u: nat, t: nat)
    requires Full(l, u) && 1 <= u <= t
    ensures FirstCell(l, u, t, 1) == 0
  {
    RankValEnds(l, u);
    ShlZero(t - u);
  }

  lemma FirstCellNext(l: seq<nat>, u: nat, t: nat, w: nat)
    requires Full(l, u) && 1 <= w <= u && u + 1 - w <= t
    ensures var n := u + 1 - w; FirstCell(l, u, t, w + 1) == FirstCell(l, u, t, w) + Shl(Count(l, n), t - n)
  {
    hide Shl, RankVal, Count, Full;
    NextRank(l, u, t, u + 1 - w);
    ShlAdd(RankVal(l, u, u + 1 - w), Count(l, u + 1 - w), t - (u + 1 - w));
  }

  /** Past the highest weight in use, the table is full. */
  lemma LastCell(l: seq<nat>, u: nat, t: nat, maxW: nat)
    requires Full(l, u) && 1 <= maxW <= u && u - maxW <= t && forall n :: 1 <= n <= u - maxW ==> Count(l, n) == 0
    ensures FirstCell(l, u, t, maxW + 1) == Pow2(t)
  {
    hide Shl, RankVal, Count, Full;
    RankValShort(l, u, u - maxW);
    ShlPow2(u - maxW, t - (u - maxW));
  }

  /** After `c` bits, a table of the bits left. */
  lemma Consumed(l: seq<nat>, u: nat, t: nat, w: nat, c: nat)
    requires Full(l, u) && 1 <= w <= u && c + (u + 1 - w) <= t
    ensures Shr(FirstCell(l, u, t, w), c) == FirstCell(l, u, t - c, w)
  {
    hide Shl, Shr, RankVal, Full, Pow2;
    var v := RankVal(l, u, u + 1 - w);
    PowPositive(c);
    ShlShl(v, t - c - (u + 1 - w), c);
    ShrLowUnique(Shl(v, t - c - (u + 1 - w)), 0, c);
  }

  /** One row of `rank_val`. */
  method ConsumeRow(rankVal: array2<nat>, consumed: nat, maxW: nat, minBits: nat)
    requires rankVal.Length0 == TABLELOG_MAX && rankVal.Length1 == TABLELOG_MAX + 1
    requires 1 <= minBits <= consumed < TABLELOG_MAX && maxW <= TABLELOG_MAX
    modifies rankVal
    ensures forall c: nat, v: nat :: c < TABLELOG_MAX && v <= TABLELOG_MAX ==>
              rankVal[c, v] == if c == consumed && 1 <= v <= maxW then Shr(old(rankVal[0, v]), consumed) else old(rankVal[c, v])
  {
    var w := 1;
    while w <= maxW
      invariant 1 <= w <= maxW + 1
      invariant forall c: nat, v: nat :: c < TABLELOG_MAX && v <= TABLELOG_MAX ==>
                  rankVal[c, v] == if c == consumed && 1 <= v < w then Shr(old(rankVal[0, v]), consumed) else old(rankVal[c, v])
    {
      rankVal[consumed, w] := Shr(rankVal[0, w], consumed);
      w := w + 1;
    }
  }

  /** `huf_fill_x2_for_weight`: a run for every symbol. */
  method FillForWeight(dt: array<HufEntryX2>, at: nat, symbols: seq<nat>, nbBits: nat, baseSeq: nat, level: nat, ghost want: seq<HufEntryX2>)
    requires nbBits <= HUF_FAST_TABLE_LOG && |want| == dt.Length && at + Shl(|symbols|, HUF_FAST_TABLE_LOG - nbBits) <= dt.Length
    requires var r := HUF_FAST_TABLE_LOG - nbBits;
             forall k: nat :: k < |symbols| ==>
               Run(want, at + Shl(k, r), at + Shl(k + 1, r), BuildX2(symbols[k], nbBits, baseSeq, level))
    modifies dt
    ensures forall x :: 0 <= x < dt.Length ==>
              dt[x] == if at <= x < at + Shl(|symbols|, HUF_FAST_TABLE_LOG - nbBits) then want[x] else old(dt[x])
  {
    hide Shl, Pow2, BuildX2;
    var r, k, pos := HUF_FAST_TABLE_LOG - nbBits, 0, at;
    ShlZero(r);
    while k < |symbols|
      invariant 0 <= k <= |symbols| && pos == at + Shl(k, r)
      invariant forall x :: 0 <= x < dt.Length ==> dt[x] == if at <= x < pos then want[x] else old(dt[x])
    {
      ShlNext(k, r);
      ShlMono(k + 1, |symbols|, r);
      assert Run(want, at + Shl(k, r), at + Shl(k + 1, r), BuildX2(symbols[k], nbBits, baseSeq, level));
      FillRunX2(dt, pos, Pow2(r), BuildX2(symbols[k], nbBits, baseSeq, level));
      pos := pos + Pow2(r);
      k := k + 1;
    }
  }

  method FillRunX2(dt: array<HufEntryX2>, pos: nat, length: nat, e: HufEntryX2)
    requires pos + length <= dt.Length
    modifies dt
    ensures forall x :: 0 <= x < dt.Length ==> dt[x] == if pos <= x < pos + length then e else old(dt[x])
  {
    var c := 0;
    while c < length
      invariant 0 <= c <= length
      invariant forall x :: 0 <= x < dt.Length ==> dt[x] == if pos <= x < pos + c then e else old(dt[x])
    {
      dt[pos + c] := e;
      c := c + 1;
    }
  }

  /** The symbol number `k` of weight `w`, and its place among the sorted ones. */
  lemma RankedAt(l: seq<nat>, u: nat, w: nat, k: nat) returns (s: nat)
    requires Full(l, u) && 1 <= w <= u <= HUF_FAST_TABLE_LOG && k < Count(Weights(u, l), w)
    ensures OfRank(l, u, u + 1 - w, k, s) && Slot(Weights(u, l), s) == Below(Weights(u, l), w, |l|) + k
  {
    hide RankVal, Pow2;
    var ws := Weights(u, l);
    s := Select(ws, w, k, |ws|);
    CountWeights(u, l, u + 1 - w, s);
  }

  lemma AllBelow(l: seq<nat>, u: nat, w: nat, count: nat)
    requires Full(l, u) && 1 <= w <= u <= HUF_FAST_TABLE_LOG && count == Count(Weights(u, l), w)
    ensures Below(Weights(u, l), w, |l|) + count <= |l|
  {
    hide RankVal, Below, Count;
    BelowMono(Weights(u, l), w, u + 1);
    BelowAll(Weights(u, l), u, |l|);
  }

  /** One run of equal cells. */
  method FillRun(decode: array<HuffmanEntry>, pos: nat, length: nat, e: HuffmanEntry)
    requires pos + length <= decode.Length
    modifies decode
    ensures forall x :: 0 <= x < decode.Length ==> decode[x] == if pos <= x < pos + length then e else old(decode[x])
  {
    var c := 0;
    while c < length
      invariant 0 <= c <= length
      invariant forall x :: 0 <= x < decode.Length ==> decode[x] == if pos <= x < pos + c then e else old(decode[x])
    {
      decode[pos + c] := e;
      c := c + 1;
    }
  }

  /** The `k`-th symbol of weight `w` owns the run the fill has reached. */
  lemma RunOf(l: seq<nat>, u: nat, w: nat, k: nat) returns (s: nat)
    requires Full(l, u) && 1 <= w <= u <= HUF_FAST_TABLE_LOG && k < Count(Weights(u, l), w)
    ensures var n := u + 1 - w; var p := Shl(RankVal(l, u, n) + k, HUF_FAST_TABLE_LOG - n);
            && Shl(RankVal(l, u, n) + k + 1, HUF_FAST_TABLE_LOG - n) == p + Pow2(HUF_FAST_TABLE_LOG - n) <= Pow2(HUF_FAST_TABLE_LOG)
            && s < |l| && Slot(Weights(u, l), s) == Below(Weights(u, l), w, |l|) + k
            && forall x :: p <= x < p + Pow2(HUF_FAST_TABLE_LOG - n) ==> Right(HuffmanEntry(s, n), l, u, x)
  {
    hide Right, RankVal, Shl, Pow2;
    var n, ws := u + 1 - w, Weights(u, l);
    s := Select(ws, w, k, |ws|);
    CountWeights(u, l, n, s);
    RunCells(l, u, s, k);
  }

  lemma RunCells(l: seq<nat>, u: nat, s: nat, k: nat)
    requires Full(l, u) && u <= HUF_FAST_TABLE_LOG && s < |l| && 1 <= l[s] && Occ(l, l[s], s) == k
    ensures var n := l[s]; var p := Shl(RankVal(l, u, n) + k, HUF_FAST_TABLE_LOG - n);
            && Shl(RankVal(l, u, n) + k + 1, HUF_FAST_TABLE_LOG - n) == p + Pow2(HUF_FAST_TABLE_LOG - n) <= Pow2(HUF_FAST_TABLE_LOG)
            && forall x :: p <= x < p + Pow2(HUF_FAST_TABLE_LOG - n) ==> Right(HuffmanEntry(s, n), l, u, x)
  {
    hide Full, Shl, Pow2, Occ, RankVal;
    var n := l[s];
    var v, r := Value(l, u, s), HUF_FAST_TABLE_LOG - n;
    CodeBound(l, u, s);
    ValueFits(l, u, s);
    RunWidth(v, n, r);
    forall x: nat | Shl(v, r) <= x < Shl(v, r) + Pow2(r) ensures Right(HuffmanEntry(s, n), l, u, x) {
      MatchRange(l, u, HUF_FAST_TABLE_LOG, s, x);
    }
  }

  lemma NextRank(l: seq<nat>, u: nat, t: nat, n: nat)
    requires Full(l, u) && 1 <= n <= u && n <= t
    ensures Shl(RankVal(l, u, n) + Count(l, n), t - n) == Shl(RankVal(l, u, n - 1), t - (n - 1))
  {
    RankValStep(l, u, n);
  }

  lemma CountWeightsAll(l: seq<nat>, u: nat, n: nat)
    requires Full(l, u) && 1 <= n <= u
    ensures Count(Weights(u, l), u + 1 - n) == Count(l, n)
  {
    CountWeights(u, l, n, |l|);
  }


  lemma SomeTooBig(ws: seq<nat>, w: nat)
    requires Count(ws, w) != 0 && w > TABLELOG_MAX
    ensures StatsOf(ws).Rejected?
  {
    if forall i :: 0 <= i < |ws| ==> ws[i] != w {
      OccNone(ws, w, |ws|);
    }
  }

  lemma NoneTooBig(ws: seq<nat>)
    requires forall v :: TABLELOG_MAX < v < 16 ==> Count(ws, v) == 0
    requires forall i :: 0 <= i < |ws| ==> ws[i] <= 15
    ensures AtMost(ws, TABLELOG_MAX)
  {
    forall i | 0 <= i < |ws| ensures ws[i] <= TABLELOG_MAX {
      assert TABLELOG_MAX < ws[i] ==> Count(ws, ws[i]) == 0;
      OccMono(ws, ws[i], i, |ws|);
    }
  }

  /** The total of the first `k` weights below `w`, a weight at a time. */
  function TotalBelow(ws: seq<nat>, w: nat, k: nat): nat
    requires k <= |ws|
  {
    if w == 0 then 0 else TotalBelow(ws, w - 1, k) + Occ(ws, w - 1, k) * Share(w - 1)
  }

  lemma {:induction false} TotalStep(ws: seq<nat>, w: nat, k: nat)
    requires k < |ws|
    ensures TotalBelow(ws, w, k + 1) == TotalBelow(ws, w, k) + if ws[k] < w then Share(ws[k]) else 0
    decreases w
  {
    if w > 0 {
      TotalStep(ws, w - 1, k);
      if ws[k] == w - 1 {
        assert (Occ(ws, w - 1, k) + 1) * Share(w - 1) == Occ(ws, w - 1, k) * Share(w - 1) + Share(w - 1);
      }
    }
  }

  lemma {:induction false} TotalNone(ws: seq<nat>, w: nat)
    ensures TotalBelow(ws, w, 0) == 0
    decreases w
  {
    if w > 0 {
      TotalNone(ws, w - 1);
    }
  }

  lemma {:induction false} TotalIsShares(ws: seq<nat>, u: nat, k: nat)
    requires AtMost(ws, u) && k <= |ws|
    ensures TotalBelow(ws, u + 1, k) == Shares(ws[..k])
  {
    if k == 0 {
      TotalNone(ws, u + 1);
    } else {
      TotalIsShares(ws, u, k - 1);
      TotalStep(ws, u + 1, k - 1);
      assert ws[..k][..k - 1] == ws[..k - 1];
    }
  }

  method TotalOf(counts: array<nat>, ghost ws: seq<nat>) returns (total: nat)
    requires AtMost(ws, TABLELOG_MAX) && counts.Length == 16 && forall v :: 0 <= v < 16 ==> counts[v] == Count(ws, v)
    ensures total == Shares(ws)
  {
    hide Occ, Share;
    total := 0;
    var w := 0;
    while w <= TABLELOG_MAX
      invariant 0 <= w <= TABLELOG_MAX + 1 && total == TotalBelow(ws, w, |ws|)
    {
      total := total + counts[w] * Share(w);
      w := w + 1;
    }
    TotalIsShares(ws, TABLELOG_MAX, |ws|);
    assert ws[..|ws|] == ws;
  }

  lemma LastFits(total: nat)
    requires total > 0
    ensures Pow2(HighBit(total) + 1) > total
    ensures HighBit(Pow2(HighBit(total) + 1) - total) < HighBit(total) + 1
  {
    var u := HighBit(total) + 1;
    var rest := Pow2(u) - total;
    if HighBit(rest) >= u {
      Pow2Mono(u, HighBit(rest));
    }
  }

  lemma CountLast(ws: seq<nat>, last: nat)
    ensures forall v :: Count(ws + [last], v) == Count(ws, v) + if v == last then 1 else 0
  {
    forall v: nat ensures Count(ws + [last], v) == Count(ws, v) + if v == last then 1 else 0 {
      OccPrefix(ws, ws + [last], v, |ws|);
    }
  }

  lemma WeightsFit(l: seq<nat>, u: nat)
    requires Tree(l, u)
    ensures AtMost(Weights(u, l), TABLELOG_MAX) && Full(l, u) && u <= TABLELOG_MAX && 1 <= u
  {
  }
}
