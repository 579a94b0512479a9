/** Two symbols a lookup: the cells of the double-symbol decoding table, and
    the runs of equal cells they come in. */
module HuffmanDouble {
  import opened Nums
  import opened Kraft
  import opened FseDist
  import opened HuffmanCodes

  /** `length` symbols, `first` and perhaps `second`, in `nbBits` bits. */
  datatype HufEntryX2 = HufEntryX2(first: nat, second: nat, nbBits: nat, length: nat)

  /** `huf_build_x2`. */
  function BuildX2(symbol: nat, nbBits: nat, baseSeq: nat, level: nat): HufEntryX2 {
    if level == 1 then HufEntryX2(symbol, 0, nbBits, level) else HufEntryX2(baseSeq, symbol, nbBits, level)
  }

  /** A window of `t` bits once `n` of them are consumed, zeros from below. */
  function After(x: nat, n: nat, t: nat): (y: nat)
    requires n <= t
    ensures y < Pow2(t)
  {
    AfterFits(Low(x, t - n), n, t);
    Shl(Low(x, t - n), n)
  }

  lemma AfterFits(z: nat, n: nat, t: nat)
    requires n <= t && z < Pow2(t - n)
    ensures Shl(z, n) < Pow2(t)
  {
    hide Shl, Pow2;
    RunWidth(z, t - n, n);
    PowPositive(n);
  }

  lemma PowPositive(n: nat)
    ensures Pow2(n) >= 1 && Pow2(0) == 1
  {
  }

  /** The windows that begin with a code of `n` bits. */
  lemma RunWidth(v: nat, n: nat, r: nat)
    requires v < Pow2(n)
    ensures Shl(v + 1, r) == Shl(v, r) + Pow2(r) <= Pow2(n + r)
  {
    hide Shl, Pow2;
    ShlNext(v, r);
    ShlMono(v + 1, Pow2(n), r);
    ShlPow2(n, r);
  }

  /** The single lookup of `x`, and the lookup after it when both codes fit. */
  ghost function CellX2(l: seq<nat>, u: nat, t: nat, x: nat): HufEntryX2
    requires Full(l, u) && u <= t && x < Pow2(t)
  {
    var r := Symbol(l, u, t, x);
    CodeBound(l, u, r);
    var s := Symbol(l, u, t, After(x, l[r], t));
    if l[r] + l[s] <= t then HufEntryX2(r, s, l[r] + l[s], 2) else HufEntryX2(r, 0, l[r], 1)
  }

  lemma CodeBound(l: seq<nat>, u: nat, s: nat)
    requires Full(l, u) && s < |l|
    ensures l[s] <= u
  {
  }

  /** The first window that begins with the code of `s`. */
  ghost function StartOf(l: seq<nat>, u: nat, t: nat, s: nat): nat
    requires Full(l, u) && u <= t && s < |l|
  {
    CodeBound(l, u, s);
    Shl(Value(l, u, s), t - l[s])
  }

  /** The windows of one first symbol, and what is left of each. */
  lemma FirstRun(l: seq<nat>, u: nat, t: nat, r: nat, z: nat)
    requires Full(l, u) && u <= t && r < |l| && 1 <= l[r] <= t && z < Pow2(t - l[r])
    ensures var x := StartOf(l, u, t, r) + z;
            x < Pow2(t) && Symbol(l, u, t, x) == r && After(x, l[r], t) == Shl(z, l[r])
    ensures StartOf(l, u, t, r) + Pow2(t - l[r]) <= Pow2(t)
  {
    hide Full, Value, Shl, Pow2, Low, Symbol;
    var n, x := l[r], StartOf(l, u, t, r) + z;
    ValueFits(l, u, r);
    RunWidth(Value(l, u, r), n, t - n);
    MatchRange(l, u, t, r, x);
    PrefixFree(l, u, t, r, Symbol(l, u, t, x), x);
    ShrLowUnique(Value(l, u, r), z, t - n);
  }

  /** A window whose rest begins with the code of `s`, which fits. */
  lemma SecondRun(l: seq<nat>, u: nat, t: nat, r: nat, s: nat, z: nat)
    requires Full(l, u) && u <= t && r < |l| && s < |l| && 1 <= l[r] && 1 <= l[s] && l[r] + l[s] <= t
    requires Shl(Value(l, u, s), t - l[r] - l[s]) <= z < Shl(Value(l, u, s) + 1, t - l[r] - l[s])
    ensures var x := StartOf(l, u, t, r) + z;
            x < Pow2(t) && CellX2(l, u, t, x) == HufEntryX2(r, s, l[r] + l[s], 2)
  {
    hide Full, Value, Shl, Pow2, Low, Symbol, StartOf, After;
    var n, k, v := l[r], t - l[r] - l[s], Value(l, u, s);
    ValueFits(l, u, s);
    RunWidth(v, l[s], k);
    FirstRun(l, u, t, r, z);
    var y := Shl(z, n);
    ShlMono(Shl(v, k), z, n);
    ShlShl(v, k, n);
    ShlMono(z + 1, Shl(v + 1, k), n);
    ShlShl(v + 1, k, n);
    ShlNext(z, n);
    PowPositive(n);
    MatchRange(l, u, t, s, y);
    PrefixFree(l, u, t, s, Symbol(l, u, t, y), y);
  }

  /** A window whose rest lies below all the codes that fit. */
  lemma NoSecond(l: seq<nat>, u: nat, t: nat, r: nat, z: nat)
    requires Full(l, u) && u <= t && r < |l| && 1 <= l[r] && l[r] <= t && t - l[r] <= u && z < RankVal(l, u, t - l[r])
    requires RankVal(l, u, t - l[r]) <= Pow2(t - l[r])
    ensures var x := StartOf(l, u, t, r) + z;
            x < Pow2(t) && CellX2(l, u, t, x) == HufEntryX2(r, 0, l[r], 1)
  {
    hide Full, Value, Shl, Pow2, Low, Symbol, StartOf, After, RankVal;
    FirstRun(l, u, t, r, z);
    var y := Shl(z, l[r]);
    AfterFits(z, l[r], t);
    TooLong(l, u, t, l[r], z, Symbol(l, u, t, y));
  }

  lemma TooLong(l: seq<nat>, u: nat, t: nat, n: nat, z: nat, s: nat)
    requires Full(l, u) && u <= t && n <= t && t - n <= u && z < RankVal(l, u, t - n)
    requires Matches(l, u, t, s, Shl(z, n))
    ensures n + l[s] > t
  {
    hide Full, Value, Shl, Pow2, RankVal;
    if n + l[s] <= t {
      var m := t - n - l[s];
      MatchRange(l, u, t, s, Shl(z, n));
      RankBelow(l, u, s, t - n);
      ShlMono(RankVal(l, u, t - n), Shl(Value(l, u, s), m), n);
      ShlShl(Value(l, u, s), m, n);
      ShlMono(z + 1, RankVal(l, u, t - n), n);
      ShlNext(z, n);
      PowPositive(n);
      assert false;
    }
  }

  lemma RankBelow(l: seq<nat>, u: nat, s: nat, n: nat)
    requires Full(l, u) && s < |l| && l[s] <= n <= u
    ensures RankVal(l, u, n) <= Shl(Value(l, u, s), n - l[s])
  {
    RankValShift(l, u, l[s], n);
    ShlMono(RankVal(l, u, l[s]), Value(l, u, s), n - l[s]);
  }

  /** Without codes of `m` bits or fewer, every number of `m` bits starts a longer one. */
  lemma {:induction false} RankValShort(l: seq<nat>, u: nat, m: nat)
    requires Full(l, u) && m <= u && forall n :: 1 <= n <= m ==> Count(l, n) == 0
    ensures RankVal(l, u, m) == Pow2(m)
    decreases m
  {
    RankValEnds(l, u);
    if m > 0 {
      RankValShort(l, u, m - 1);
      RankValStep(l, u, m);
    }
  }

  // The table in the order it is filled

  /** The whole table. */
  ghost function CellsX2(l: seq<nat>, u: nat, t: nat): (c: seq<HufEntryX2>)
    requires Full(l, u) && u <= t
    ensures |c| == Pow2(t) && forall x :: 0 <= x < |c| ==> c[x] == CellX2(l, u, t, x)
  {
    seq(Pow2(t), x requires 0 <= x < Pow2(t) => CellX2(l, u, t, x))
  }

  /** Cells `lo` up to `hi` are all `e`. */
  ghost predicate Run(c: seq<HufEntryX2>, lo: nat, hi: nat, e: HufEntryX2) {
    hi <= |c| && forall x :: lo <= x < hi ==> c[x] == e
  }

  /** `s` is the symbol number `k` of `n` bits. */
  ghost predicate OfRank(l: seq<nat>, u: nat, n: nat, k: nat, s: nat)
    requires Full(l, u)
  {
    1 <= n <= u && s < |l| && l[s] == n && Value(l, u, s) == RankVal(l, u, n) + k
  }

  /** A second symbol's run. */
  lemma SecondCells(l: seq<nat>, u: nat, t: nat, r: nat, n: nat, k: nat, s: nat)
    requires Full(l, u) && u <= t && r < |l| && 1 <= l[r] && l[r] + n <= t && OfRank(l, u, n, k, s)
    ensures var at, m := StartOf(l, u, t, r) + Shl(RankVal(l, u, n), t - l[r] - n), t - l[r] - n;
            Run(CellsX2(l, u, t), at + Shl(k, m), at + Shl(k + 1, m), BuildX2(s, n + l[r], r, 2))
  {
    hide Full, Value, Shl, Pow2, StartOf, CellX2, RankVal;
    var m := t - l[r] - n;
    ShlAdd(RankVal(l, u, n), k, m);
    ShlAdd(RankVal(l, u, n), k + 1, m);
    var a, c := StartOf(l, u, t, r), CellsX2(l, u, t);
    var hi := Shl(Value(l, u, s) + 1, m);
    ShlNext(Value(l, u, s), m);
    PowPositive(m);
    SecondRun(l, u, t, r, s, hi - 1);
    forall x | a + Shl(Value(l, u, s), m) <= x < a + hi
      ensures c[x] == BuildX2(s, n + l[r], r, 2)
    {
      SecondRun(l, u, t, r, s, x - a);
    }
  }

  /** The cells of a first symbol that no second one fits behind. */
  lemma SingleCells(l: seq<nat>, u: nat, t: nat, r: nat)
    requires Full(l, u) && u <= t && r < |l| && 1 <= l[r] <= t && t - l[r] <= u
    ensures Run(CellsX2(l, u, t), StartOf(l, u, t, r), StartOf(l, u, t, r) + RankVal(l, u, t - l[r]), BuildX2(r, l[r], 0, 1))
  {
    hide Full, Value, Shl, Pow2, StartOf, CellX2;
    var m := t - l[r];
    var a, c := StartOf(l, u, t, r), CellsX2(l, u, t);
    PowPositive(m);
    FirstRun(l, u, t, r, 0);
    forall x | a <= x < a + RankVal(l, u, m)
      ensures c[x] == BuildX2(r, l[r], 0, 1)
    {
      NoSecond(l, u, t, r, x - a);
    }
  }

  /** Cells of a first symbol with no code short enough to follow. */
  lemma LoneCells(l: seq<nat>, u: nat, t: nat, n: nat, k: nat, s: nat)
    requires Full(l, u) && u <= t && OfRank(l, u, n, k, s) && t - n <= u
    requires forall j :: 1 <= j <= t - n ==> Count(l, j) == 0
    ensures var at := Shl(RankVal(l, u, n), t - n);
            Run(CellsX2(l, u, t), at + Shl(k, t - n), at + Shl(k + 1, t - n), BuildX2(s, n, 0, 1))
  {
    hide Full, Shl, Pow2, CellX2, RankVal;
    RankValShort(l, u, t - n);
    SingleCells(l, u, t, s);
    ShlAdd(RankVal(l, u, n), k, t - n);
    ShlNext(k, t - n);
  }
}
