/** `FSE_normalizeCount`: counts scaled to a power of two, exactly. */
module Normalise {
  import opened Options
  import opened Nums
  import opened FseDist

  const FSE_MIN_TABLELOG: nat := 5
  const FSE_MAX_TABLELOG: nat := 12
  const FSE_DEFAULT_TABLELOG: nat := 11
  const NOT_YET_ASSIGNED: int := -2

  function AbsSum(q: seq<int>): nat {
    if q == [] then 0 else AbsSum(q[..|q| - 1]) + Abs(q[|q| - 1])
  }

  function Total(c: seq<nat>): nat {
    if c == [] then 0 else Total(c[..|c| - 1]) + c[|c| - 1]
  }

  /** What is assigned, and the counts of what is not. */
  function Given(q: seq<int>): nat {
    if q == [] then 0 else Given(q[..|q| - 1]) + (if q[|q| - 1] == NOT_YET_ASSIGNED then 0 else Abs(q[|q| - 1]))
  }

  function Waiting(q: seq<int>, c: seq<nat>): nat
    requires |q| == |c|
  {
    if q == [] then 0
    else Waiting(q[..|q| - 1], c[..|c| - 1]) + (if q[|q| - 1] == NOT_YET_ASSIGNED then c[|c| - 1] else 0)
  }

  /** The distribution tiles the table, and no symbol in use is lost. */
  ghost predicate Exact(q: seq<int>, c: seq<nat>, log: nat) {
    && |q| == |c| && AbsSum(q) == Pow2(log)
    && forall s :: 0 <= s < |q| ==> q[s] >= -1 && (q[s] == 0 <==> c[s] == 0)
  }

  /** Sums one entry longer, or with one entry changed. */
  lemma AbsSumOne(q: seq<int>, v: int)
    ensures AbsSum(q + [v]) == AbsSum(q) + Abs(v)
  {
    assert (q + [v])[..|q|] == q;
  }

  lemma TotalOne(c: seq<nat>, n: nat)
    requires n < |c|
    ensures Total(c[..n + 1]) == Total(c[..n]) + c[n]
  {
    assert c[..n + 1][..n] == c[..n];
  }

  lemma GivenOne(q: seq<int>, c: seq<nat>, n: nat, v: int)
    requires |q| == n < |c|
    ensures Given(q + [v]) == Given(q) + (if v == NOT_YET_ASSIGNED then 0 else Abs(v))
    ensures Waiting(q + [v], c[..n + 1]) == Waiting(q, c[..n]) + (if v == NOT_YET_ASSIGNED then c[n] else 0)
  {
    assert (q + [v])[..n] == q && c[..n + 1][..n] == c[..n];
  }

  lemma {:induction false} AbsSumSet(q: seq<int>, i: nat, v: int)
    requires i < |q|
    ensures AbsSum(q[i := v]) == AbsSum(q) - Abs(q[i]) + Abs(v)
    ensures AbsSum(q) >= Abs(q[i])
  {
    var n := |q| - 1;
    if i < n {
      AbsSumSet(q[..n], i, v);
      assert q[i := v][..n] == q[..n][i := v];
    } else {
      assert q[i := v][..n] == q[..n];
    }
  }

  /** A symbol not assigned yet gets 1. */
  lemma {:induction false} AssignOne(q: seq<int>, c: seq<nat>, i: nat)
    requires i < |q| == |c| && q[i] == NOT_YET_ASSIGNED
    ensures Given(q[i := 1]) == Given(q) + 1
    ensures Waiting(q[i := 1], c) == Waiting(q, c) - c[i] && Waiting(q, c) >= c[i]
  {
    var n := |q| - 1;
    if i < n {
      AssignOne(q[..n], c[..n], i);
      assert q[i := 1][..n] == q[..n][i := 1];
    } else {
      assert q[i := 1][..n] == q[..n];
    }
  }

  lemma {:induction false} AllGiven(q: seq<int>, c: seq<nat>)
    requires |q| == |c| && forall s :: 0 <= s < |q| ==> q[s] != NOT_YET_ASSIGNED
    ensures Given(q) == AbsSum(q) && Waiting(q, c) == 0
  {
    if q != [] {
      AllGiven(q[..|q| - 1], c[..|c| - 1]);
    }
  }

  lemma {:induction false} NoneWaiting(q: seq<int>, c: seq<nat>, s: nat)
    requires s < |q| == |c| && q[s] == NOT_YET_ASSIGNED
    ensures Waiting(q, c) >= c[s]
  {
    if s < |q| - 1 {
      NoneWaiting(q[..|q| - 1], c[..|c| - 1], s);
    }
  }

  // How many symbols there are

  function Used(c: seq<nat>): nat {
    if c == [] then 0 else Used(c[..|c| - 1]) + (if c[|c| - 1] > 0 then 1 else 0)
  }

  lemma {:induction false} UsedBound(c: seq<nat>)
    ensures Used(c) <= |c| && Used(c) <= Total(c)
  {
    if c != [] {
      UsedBound(c[..|c| - 1]);
    }
  }

  /** Assigned ones, one cell each, are at most the symbols in use. */
  lemma {:induction false} GivenBound(q: seq<int>, c: seq<nat>)
    requires |q| == |c| && forall s :: 0 <= s < |q| ==> -2 <= q[s] <= 1 && (c[s] == 0 ==> q[s] == 0)
    ensures Given(q) <= Used(c)
  {
    if q != [] {
      GivenBound(q[..|q| - 1], c[..|c| - 1]);
    }
  }

  lemma {:induction false} GivenAll(q: seq<int>, c: seq<nat>)
    requires |q| == |c| && Given(q) == |q| && forall s :: 0 <= s < |q| ==> -2 <= q[s] <= 1
    ensures forall s :: 0 <= s < |q| ==> q[s] == 1 || q[s] == -1
  {
    if q != [] {
      GivenAtMost(q[..|q| - 1]);
      GivenAll(q[..|q| - 1], c[..|c| - 1]);
    }
  }

  lemma {:induction false} GivenAtMost(q: seq<int>)
    requires forall s :: 0 <= s < |q| ==> -2 <= q[s] <= 1
    ensures Given(q) <= |q|
  {
    if q != [] {
      GivenAtMost(q[..|q| - 1]);
    }
  }

  /** `FSE_minTableLog`. */
  function MinTableLog(total: nat, maxSymbol: nat): nat
    requires total >= 1 && maxSymbol >= 1
  {
    var a, b := HighBit(total) + 1, HighBit(maxSymbol) + 2;
    if a < b then a else b
  }

  /** The counts to scale, and the table log they are given. */
  ghost predicate Fits(c: seq<nat>, total: nat, log: nat) {
    && 2 <= |c| <= 256 && Total(c) == total && 1 <= total <= 0x2_0000
    && FSE_MIN_TABLELOG <= log <= FSE_MAX_TABLELOG && log >= MinTableLog(total, |c| - 1)
  }

  /** More cells than symbols in use, and twice as many as symbols or more than all counts. */
  lemma RoomForAll(c: seq<nat>, total: nat, log: nat)
    requires Fits(c, total, log)
    ensures Used(c) < Pow2(log)
    ensures total < Pow2(log) || 2 * |c| <= Pow2(log)
  {
    UsedBound(c);
    if log >= HighBit(total) + 1 {
      Pow2Mono(HighBit(total) + 1, log);
    } else {
      Pow2Mono(HighBit(|c| - 1) + 2, log);
    }
  }

  lemma {:induction false} TotalBound(c: seq<nat>, low: nat)
    requires forall s :: 0 <= s < |c| ==> c[s] <= low
    ensures Total(c) <= |c| * low
  {
    if c != [] {
      TotalBound(c[..|c| - 1], low);
      assert |c| * low == (|c| - 1) * low + low;
    }
  }

  /** Not every count is below the threshold. */
  lemma SomeBig(c: seq<nat>, total: nat, log: nat)
    requires Fits(c, total, log)
    ensures exists s :: 0 <= s < |c| && c[s] > Threshold(total, log)
  {
    hide Pow2, HighBit;
    var low := Threshold(total, log);
    RoomForAll(c, total, log);
    if forall s :: 0 <= s < |c| ==> c[s] <= low {
      TotalBound(c, low);
      ThresholdIs(total, log);
      LowTotal(|c|, total, Pow2(log), low);
    }
  }

  lemma LowTotal(n: nat, total: nat, size: nat, low: nat)
    requires 1 <= total && low * size <= total && (total < size || 2 * n <= size)
    ensures n * low < total
  {
    if low == 0 {
      Zero(n);
    } else {
      MulLe(1, low, size);
      MulLe(2 * n, size, low);
      MulAssoc(2, n, low);
      SwapTwo(low, size);
    }
  }

  lemma Zero(n: int)
    ensures n * 0 == 0
  {
  }

  lemma SwapTwo(a: int, b: int)
    ensures a * b == b * a
  {
  }

  /** `total >> table_log`. */
  function Threshold(total: nat, log: nat): nat { Shr(total, log) }

  lemma ThresholdIs(total: nat, log: nat)
    ensures Threshold(total, log) * Pow2(log) <= total < (Threshold(total, log) + 1) * Pow2(log)
  {
    ShrLow(total, log);
    ShlIsMul(Shr(total, log), log);
    NextMultiple(Shr(total, log), Pow2(log));
  }

  lemma NextMultiple(a: int, m: int)
    ensures (a + 1) * m == a * m + m
  {
  }

  // The primary method

  lemma Pow2Add(a: nat, b: nat)
    ensures Pow2(a + b) == Pow2(a) * Pow2(b)
  {
    ShlPow2(a, b);
    ShlIsMul(Pow2(a), b);
  }

  /** 62-bit fixed point: the scale is wide enough for squares of totals. */
  lemma ScaleWide(total: nat, log: nat)
    requires total <= 0x2_0000 && log <= FSE_MAX_TABLELOG
    ensures Pow2(62) == Pow2(log) * Pow2(62 - log) && Pow2(62 - log) >= total * total
    ensures Pow2(62 - log) > total && Pow2(62 - log) >= 2 * total && Pow2(62 - log) >= 2 && Pow2(62 - log) % 2 == 0
  {
    hide Pow2;
    Pow2Add(log, 62 - log);
    Pow2Add(17, 17);
    EvenPow2(62 - log);
    SquareMono(total, 0x2_0000);
    Pow17();
    Pow2Mono(34, 62 - log);
    Pow2Mono(18, 62 - log);
  }

  lemma EvenPow2(n: nat)
    requires n >= 1
    ensures Pow2(n) % 2 == 0 && Pow2(n) >= 2
  {
  }

  lemma Pow17()
    ensures Pow2(17) == 0x2_0000 && Pow2(18) == 0x4_0000
  {
    assert Pow2(8) == 0x100;
    assert Pow2(13) == 0x2000;
    assert Pow2(17) == 0x2_0000;
  }

  lemma SquareMono(a: nat, b: nat)
    requires a <= b
    ensures a * a <= b * b
  {
    MulLe(a, b, a);
    MulLe(a, b, b);
  }

  /** A count over the threshold gets a cell. */
  lemma ProbaPositive(count: nat, total: nat, size: nat, v: nat)
    requires 1 <= count <= total && size >= 1 && v >= 1 && v >= total * total && count * size >= total + 1
    ensures count * (size * v / total) >= v
  {
    ProbaCovers(count, total, size, v);
  }

  lemma ProbaCovers(count: nat, total: nat, size: nat, v: nat)
    requires 1 <= count <= total && v >= 1 && v >= Mul(total, total) && Mul(count, size) >= total + 1
    ensures Mul(count, Quot(Mul(size, v), total)) >= v
  {
    hide Mul, Quot;
    StepsMost(count, total, Mul(size, v));
    CountCovers(count, total, size, v);
    RestSmall(count, total, v);
    EnoughCells(Mul(count, Quot(Mul(size, v), total)), total, v, Mul(count, Mul(size, v)), Mul(count, total - 1));
  }

  /** The shares, rounded down, lose less than a count each. */
  lemma StepsMost(count: nat, total: nat, p: nat)
    requires total >= 1
    ensures Mul(Mul(count, Quot(p, total)), total) >= Mul(count, p) - Mul(count, total - 1)
  {
    var step := p / total;
    DivLeast(p, total);
    SwapMul(count, step, total);
    MulLe(p - total + 1, step * total, count);
    Distribute(count, p, total - 1);
    SwapTwo(count, p - (total - 1));
  }

  lemma CountCovers(count: nat, total: nat, size: nat, v: nat)
    requires Mul(count, size) >= total + 1
    ensures Mul(count, Mul(size, v)) >= Mul(total, v) + v
  {
    MulAssoc(count, size, v);
    MulLe(total + 1, count * size, v);
    OneMore(total, v);
  }

  lemma RestSmall(count: nat, total: nat, v: nat)
    requires 1 <= count <= total && v >= Mul(total, total)
    ensures Mul(count, total - 1) <= v - total
  {
    MulLe(count, total, total - 1);
    Distribute(total, total, 1);
  }

  lemma EnoughCells(x: nat, total: nat, v: nat, all: nat, lost: nat)
    requires total >= 1 && v >= 1 && Mul(x, total) >= all - lost && all >= Mul(total, v) + v && lost <= v - total
    ensures x >= v
  {
    OneMore(total, v);
    CancelLess(v - 1, x, total);
  }

  lemma SwapMul(a: int, b: int, c: int)
    ensures (a * b) * c == (b * c) * a
  {
    MulAssoc(a, b, c);
  }

  lemma OneMore(t: int, v: int)
    ensures (t + 1) * v == t * v + v && (v - 1) * t == t * v - t
  {
  }

  lemma CancelLess(a: int, b: int, t: nat)
    requires a * t < b * t
    ensures a < b
  {
    if b <= a {
      MulLe(b, a, t);
    }
  }

  lemma OverThreshold(count: nat, total: nat, log: nat)
    requires count > Threshold(total, log)
    ensures count * Pow2(log) >= total + 1
  {
    ThresholdIs(total, log);
    MulLe(Threshold(total, log) + 1, count, Pow2(log));
  }

  lemma DivLeast(p: nat, total: nat)
    requires total >= 1
    ensures (p / total) * total >= p - total + 1
  {
  }

  lemma Distribute(a: int, b: int, c: int)
    ensures a * (b - c) == a * b - a * c
  {
  }

  /** `RTB_TABLE`. */
  function Rtb(p: nat): nat {
    match p
    case 1 => 473195 case 2 => 504333 case 3 => 520860 case 4 => 550000
    case 5 => 700000 case 6 => 750000 case 7 => 830000 case _ => 0
  }

  /** The rounded share of a count over the threshold, in units of `v`. */
  function Proba(scaled: nat, v: nat, vStep: nat): (p: nat)
    requires v >= 1
    ensures scaled >= v ==> p >= 1
  {
    AtLeastOne(scaled, v);
    var proba := scaled / v;
    if proba < 8 && scaled % v > vStep * Rtb(proba) then proba + 1 else proba
  }

  /** The distribution so far: what each symbol got, and what is left. */
  ghost predicate SoFar(q: seq<int>, c: seq<nat>, low: nat, log: nat, left: int) {
    && |q| <= |c| && left == Pow2(log) - AbsSum(q)
    && forall s :: 0 <= s < |q| ==> ShareOk(q[s], c[s], low)
  }

  predicate ShareOk(v: int, count: nat, low: nat) {
    && v >= -1 && (v == 0 <==> count == 0) && (count > low ==> v >= 1) && (0 < count <= low ==> v == -1 || v == 1)
  }

  /** The largest share among those over the threshold, if any. */
  ghost predicate Largest(q: seq<int>, c: seq<nat>, low: nat, largest: nat, p: nat) {
    && |q| <= |c|
    && if p == 0 then largest == 0 && forall s :: 0 <= s < |q| ==> c[s] <= low
       else largest < |q| && q[largest] == p && c[largest] > low
  }

  /** The table log asked for, 0 standing for the default one. */
  function Asked(tableLog: nat): nat { if tableLog == 0 then FSE_DEFAULT_TABLELOG else tableLog }

  /** The logs `FSE_normalizeCount` takes for counts up to `maxSymbol`. */
  predicate LogTaken(log: nat, total: nat, maxSymbol: nat)
    requires total >= 1 && maxSymbol >= 1
  {
    FSE_MIN_TABLELOG <= log <= FSE_MAX_TABLELOG && log >= MinTableLog(total, maxSymbol)
  }

  /** `FSE_normalizeCount`: an error exactly for a log it does not take; else 0
      for a single symbol, or the table log of a distribution that tiles the
      table exactly. */
  method NormalizeCount(norm: array<int>, tableLog: nat, counts: seq<nat>, total: nat, useLowProbCount: bool)
    returns (r: Option<nat>)
    requires 2 <= |counts| <= 256 && |counts| <= norm.Length && Total(counts) == total && 1 <= total <= 0x2_0000
    modifies norm
    ensures r.Some? <==> LogTaken(Asked(tableLog), total, |counts| - 1)
    ensures r.Some? && r.value > 0 ==> r.value == Asked(tableLog)
    ensures r.Some? && r.value > 0 ==> Exact(norm[..|counts|], counts, r.value)
    ensures r.Some? ==> (r.value == 0 <==> exists s :: 0 <= s < |counts| && counts[s] == total)
  {
    hide AbsSum, Total, Pow2, MinTableLog, Threshold;
    var log := Asked(tableLog);
    if !(FSE_MIN_TABLELOG <= log <= FSE_MAX_TABLELOG) || log < MinTableLog(total, |counts| - 1) {
      return None;
    }
    var lowProbCount := if useLowProbCount then -1 else 1;
    var single, largest, left := Primary(norm, log, counts, total, lowProbCount);
    if single {
      return Some(0);
    }
    SomeBig(counts, total, log);
    if -left >= norm[largest] / 2 {
      NormalizeM2(norm, log, counts, total, lowProbCount);
      return Some(log);
    }
    AbsSumSet(norm[..|counts|], largest, norm[largest] + left);
    ghost var q := norm[..|counts|];
    norm[largest] := norm[largest] + left;
    assert norm[..|counts|] == q[largest := q[largest] + left];
    r := Some(log);
  }

  /** The loop over the symbols. */
  method Primary(norm: array<int>, log: nat, counts: seq<nat>, total: nat, lowProbCount: int)
    returns (single: bool, largest: nat, left: int)
    requires |counts| <= norm.Length && Fits(counts, total, log) && (lowProbCount == -1 || lowProbCount == 1)
    modifies norm
    ensures single <==> exists s :: 0 <= s < |counts| && counts[s] == total
    ensures !single ==> SoFar(norm[..|counts|], counts, Threshold(total, log), log, left) && largest < |counts|
    ensures !single ==> exists p :: Largest(norm[..|counts|], counts, Threshold(total, log), largest, p)
  {
    hide AbsSum, Total, Pow2, MinTableLog;
    var low, scale, largestP: nat := Threshold(total, log), 62 - log, 0;
    var step := Pow2(62) / total;
    ScaleWide(total, log);
    single, largest, left := false, 0, Pow2(log);
    assert norm[..0] == [];
    Nothing(counts, low, log);
    var s := 0;
    while s < |counts|
      invariant 0 <= s <= |counts| && SoFar(norm[..s], counts, low, log, left) && (largest < s || largest == 0)
      invariant Largest(norm[..s], counts, low, largest, largestP)
      invariant forall t :: 0 <= t < s ==> counts[t] != total
    {
      var count := counts[s];
      if count == total {
        return true, largest, left;
      }
      var share := 0;
      if count > 0 && count <= low {
        share := lowProbCount;
      } else if count > 0 {
        OneCount(counts, s);
        OverThreshold(count, total, log);
        ProbaPositive(count, total, Pow2(log), Pow2(scale));
        var proba := Proba(count * step, Pow2(scale), Pow2(scale - 20));
        share := proba;
        if proba > largestP {
          largestP, largest := proba, s;
        }
      }
      AbsSumOne(norm[..s], share);
      norm[s] := share;
      assert norm[..s + 1] == norm[..s] + [share];
      left := left - Abs(share);
      s := s + 1;
    }
  }

  lemma Nothing(c: seq<nat>, low: nat, log: nat)
    ensures SoFar([], c, low, log, Pow2(log)) && Largest([], c, low, 0, 0)
  {
  }

  lemma AtLeastOne(x: nat, v: nat)
    requires v >= 1
    ensures x >= v ==> x / v >= 1
  {
  }

  lemma {:induction false} OneCount(c: seq<nat>, s: nat)
    requires s < |c|
    ensures c[s] <= Total(c)
  {
    if s < |c| - 1 {
      OneCount(c[..|c| - 1], s);
    }
  }

  // The secondary method

  /** Symbols with one cell, or not assigned yet: all of those are over the
      threshold, and so is a symbol with one cell that may have more. */
  ghost predicate Halfway(q: seq<int>, c: seq<nat>, low: nat) {
    && |q| == |c|
    && forall s :: 0 <= s < |q| ==> HalfOk(q[s], c[s], low)
  }

  predicate HalfOk(v: int, count: nat, low: nat) {
    && (v == 0 || v == 1 || v == -1 || v == NOT_YET_ASSIGNED) && (v == 0 <==> count == 0)
    && (count > low ==> v == 1 || v == NOT_YET_ASSIGNED) && (v == NOT_YET_ASSIGNED ==> count > low)
  }

  /** The bookkeeping of both passes. */
  ghost predicate Books(q: seq<int>, c: seq<nat>, low: nat, distributed: nat, left: nat) {
    Halfway(q, c, low) && distributed == Given(q) && left == Waiting(q, c)
  }

  /** `FSE_normalizeM2`. Its error for a share that rounds to zero cannot come:
      a symbol still waiting has a count for a whole cell, in both passes. */
  method NormalizeM2(norm: array<int>, log: nat, counts: seq<nat>, total: nat, lowProbCount: int)
    requires |counts| <= norm.Length && Fits(counts, total, log) && (lowProbCount == -1 || lowProbCount == 1)
    modifies norm
    ensures Exact(norm[..|counts|], counts, log)
  {
    hide AbsSum, Total, Pow2, MinTableLog, Given, Waiting, Used, Quot, Halfway, WaitAbove, WholeCells, Exact, Threshold;
    var low, lowOne := Threshold(total, log), Quot(total * 3, Pow2(log + 1));
    var distributed, left := AssignLows(norm, log, counts, total, lowOne, lowProbCount);
    RoomLeft(norm[..|counts|], counts, total, log, low);
    SomeBig(counts, total, log);
    var toDistribute := Pow2(log) - distributed;
    if Quot(left, toDistribute) > lowOne {
      ghost var room, was := toDistribute, left;
      lowOne := Quot(left * 3, toDistribute * 2);
      distributed, left := AssignMore(norm, counts, low, lowOne, distributed, left);
      RoomLeft(norm[..|counts|], counts, total, log, low);
      toDistribute := Pow2(log) - distributed;
      MoreShares(norm[..|counts|], counts, total, log, low, was, room, left, toDistribute);
    } else {
      FirstShares(norm[..|counts|], counts, lowOne, left, toDistribute);
    }
    if distributed == |counts| {
      GiveToLargest(norm, log, counts, low, toDistribute);
      return;
    }
    if left == 0 {
      GiveAway(norm, log, counts, low, toDistribute);
      return;
    }
    WaitingBound(norm[..|counts|], counts);
    Proportional(norm, log, counts, low, distributed, left, toDistribute);
  }

  function Quot(a: nat, b: nat): nat
    requires b >= 1
  {
    a / b
  }

  /** Whatever is not assigned yet has a count above `bound`. */
  ghost predicate WaitAbove(q: seq<int>, c: seq<nat>, bound: nat) {
    |q| == |c| && forall s :: 0 <= s < |q| ==> (q[s] == NOT_YET_ASSIGNED ==> c[s] > bound)
  }

  /** And has a whole cell, shared out in proportion. */
  ghost predicate WholeCells(q: seq<int>, c: seq<nat>, left: nat, toDistribute: nat) {
    |q| == |c| && forall s :: 0 <= s < |q| ==> (q[s] == NOT_YET_ASSIGNED ==> Mul(c[s], toDistribute) > left)
  }

  /** After the first pass alone: every waiting count is above the average. */
  lemma FirstShares(q: seq<int>, c: seq<nat>, lowOne: nat, left: nat, toDistribute: nat)
    requires WaitAbove(q, c, lowOne) && toDistribute >= 1 && Quot(left, toDistribute) <= lowOne
    ensures WholeCells(q, c, left, toDistribute)
  {
    forall s | 0 <= s < |q| && q[s] == NOT_YET_ASSIGNED ensures Mul(c[s], toDistribute) > left {
      DivLeast(left, toDistribute);
      MulLe(left / toDistribute + 1, c[s], toDistribute);
      NextMultiple(left / toDistribute, toDistribute);
    }
  }

  /** After both: the second pass comes only when a third of the cells is given
      away, and leaves half of all, so no more than a quarter of those were. */
  lemma MoreShares(q: seq<int>, c: seq<nat>, total: nat, log: nat, low: nat, left0: nat, room0: nat, left: nat, room: nat)
    requires Halfway(q, c, low) && Fits(c, total, log) && room0 >= 1 && WaitAbove(q, c, Quot(left0 * 3, room0 * 2))
    requires left <= left0 && Quot(left0, room0) > Quot(total * 3, Pow2(log + 1)) && Given(q) + room == Pow2(log)
    requires room0 <= Pow2(log) && left0 + (Pow2(log) - room0) <= total
    ensures WholeCells(q, c, left, room)
  {
    hide MinTableLog, Given, Pow2, HighBit, Quot;
    assert Pow2(log + 1) == 2 * Pow2(log) by { Pow2Add(1, log); assert Pow2(1) == 2 by { Pow2One(); } }
    SecondPass(total, Pow2(log), left0, room0);
    RoomForAll(c, total, log);
    GivenAtMost(q);
    forall s | 0 <= s < |q| && q[s] == NOT_YET_ASSIGNED ensures Mul(c[s], room) > left {
      CellAbove(c[s], left0, room0, room);
    }
  }

  lemma SecondPass(total: nat, size: nat, left0: nat, room0: nat)
    requires room0 >= 1 && size >= 1 && left0 <= total && Quot(left0, room0) > Quot(total * 3, 2 * size)
    ensures 3 * room0 < 2 * size && left0 >= room0
  {
    hide Quot, Mul;
    var o := Quot(total * 3, 2 * size);
    QuotAtLeast(left0, room0, o + 1);
    QuotNext(total * 3, 2 * size);
    MulScale(o + 1, room0);
    MulCancel(o + 1, 3 * room0, 2 * size);
  }

  lemma QuotAtLeast(a: nat, b: nat, q: nat)
    requires b >= 1 && Quot(a, b) >= q >= 1
    ensures Mul(q, b) <= a && b <= a
  {
    DivMost(a, b);
    MulLe(q, a / b, b);
    MulLe(1, q, b);
  }

  lemma QuotNext(a: nat, b: nat)
    requires b >= 1
    ensures Mul(Quot(a, b) + 1, b) > a
  {
    DivLeast(a, b);
    NextMultiple(a / b, b);
  }

  lemma MulScale(a: nat, b: nat)
    ensures Mul(a, 3 * b) == 3 * Mul(a, b)
  {
  }

  lemma MulCancel(t: nat, a: nat, b: nat)
    requires Mul(t, a) < Mul(t, b)
    ensures a < b
  {
    if b <= a {
      MulLe(b, a, t);
    }
  }

  lemma CellAbove(count: nat, left0: nat, room0: nat, room: nat)
    requires room0 >= 1 && count > Quot(left0 * 3, room0 * 2) && 4 * room > 3 * room0
    ensures Mul(count, room) > left0
  {
    var o := left0 * 3 / (room0 * 2);
    DivLeast(left0 * 3, room0 * 2);
    NextMultiple(o, room0 * 2);
    MulLe(o + 1, count, room0 * 2);
    assert count * (4 * room) >= count * (3 * room0) by {
      MulLe(3 * room0, 4 * room, count);
      SwapTwo(3 * room0, count);
      SwapTwo(4 * room, count);
    }
    Multiples(count, room0, room);
  }

  lemma Multiples(count: nat, room0: nat, room: nat)
    ensures count * (room0 * 2) == 2 * (count * room0) && count * (3 * room0) == 3 * (count * room0)
    ensures count * (4 * room) == 4 * (count * room)
  {
  }

  lemma {:induction false} WaitingBound(q: seq<int>, c: seq<nat>)
    requires |q| == |c|
    ensures Waiting(q, c) <= Total(c)
  {
    if q != [] {
      WaitingBound(q[..|q| - 1], c[..|c| - 1]);
    }
  }

  /** Fewer cells are given away than there are. */
  lemma RoomLeft(q: seq<int>, c: seq<nat>, total: nat, log: nat, low: nat)
    requires Halfway(q, c, low) && Fits(c, total, log)
    ensures Given(q) < Pow2(log)
  {
    GivenBound(q, c);
    RoomForAll(c, total, log);
  }

  /** One cell for each low count. */
  method AssignLows(norm: array<int>, log: nat, counts: seq<nat>, total: nat, lowOne: nat, lowProbCount: int)
    returns (distributed: nat, left: nat)
    requires |counts| <= norm.Length && Fits(counts, total, log) && (lowProbCount == -1 || lowProbCount == 1)
    modifies norm
    ensures Books(norm[..|counts|], counts, Threshold(total, log), distributed, left) && WaitAbove(norm[..|counts|], counts, lowOne)
    ensures left + distributed <= total
  {
    hide AbsSum, Pow2, MinTableLog, Given, Waiting, Total;
    var low := Threshold(total, log);
    distributed, left := 0, total;
    assert norm[..0] == [] && counts[..0] == [];
    NoBooks(counts);
    ghost var s0: nat := 0;
    var s := 0;
    while s < |counts|
      invariant 0 <= s <= |counts| && distributed == Given(norm[..s])
      invariant left + Total(counts[..s]) == total + Waiting(norm[..s], counts[..s]) && left + distributed <= total
      invariant forall t :: 0 <= t < s ==> HalfOk(norm[t], counts[t], low)
      invariant WaitAbove(norm[..s], counts[..s], lowOne)
    {
      var count := counts[s];
      var v := if count == 0 then 0 else if count <= low then lowProbCount else if count <= lowOne then 1 else NOT_YET_ASSIGNED;
      GivenOne(norm[..s], counts, s, v);
      TotalOne(counts, s);
      TotalPrefix(counts, s + 1, total);
      norm[s] := v;
      assert norm[..s + 1] == norm[..s] + [v];
      if v != 0 && v != NOT_YET_ASSIGNED {
        distributed := distributed + 1;
        left := left - count;
      }
      s := s + 1;
    }
    assert counts[..|counts|] == counts;
  }

  lemma NoBooks(c: seq<nat>)
    ensures Given([]) == 0 && Waiting([], c[..0]) == 0 && Total(c[..0]) == 0
  {
  }

  lemma {:induction false} TotalPrefix(c: seq<nat>, n: nat, total: nat)
    requires n <= |c| && Total(c) == total
    ensures Total(c[..n]) <= total
    decreases |c| - n
  {
    if n < |c| {
      TotalPrefix(c, n + 1, total);
      TotalOne(c, n);
    } else {
      assert c[..n] == c;
    }
  }

  /** The second pass, with a higher bound. */
  method AssignMore(norm: array<int>, counts: seq<nat>, low: nat, lowOne: nat, distributed0: nat, left0: nat)
    returns (distributed: nat, left: nat)
    requires |counts| <= norm.Length && Books(norm[..|counts|], counts, low, distributed0, left0)
    modifies norm
    ensures Books(norm[..|counts|], counts, low, distributed, left)
    ensures left <= left0 && WaitAbove(norm[..|counts|], counts, lowOne)
  {
    hide Given, Waiting;
    distributed, left := distributed0, left0;
    var s := 0;
    while s < |counts|
      invariant 0 <= s <= |counts| && Books(norm[..|counts|], counts, low, distributed, left) && left <= left0
      invariant forall t :: 0 <= t < s && norm[t] == NOT_YET_ASSIGNED ==> counts[t] > lowOne
    {
      if norm[s] == NOT_YET_ASSIGNED && counts[s] <= lowOne {
        ghost var q := norm[..|counts|];
        AssignOne(q, counts, s);
        norm[s] := 1;
        assert norm[..|counts|] == q[s := 1];
        distributed := distributed + 1;
        left := left - counts[s];
      }
      s := s + 1;
    }
  }

  /** All the rest to the largest count. */
  method GiveToLargest(norm: array<int>, log: nat, counts: seq<nat>, low: nat, toDistribute: nat)
    requires 1 <= |counts| <= norm.Length && Halfway(norm[..|counts|], counts, low)
    requires Given(norm[..|counts|]) == |counts| && Given(norm[..|counts|]) + toDistribute == Pow2(log)
    requires exists s :: 0 <= s < |counts| && counts[s] > low
    modifies norm
    ensures Exact(norm[..|counts|], counts, log)
  {
    hide Given, AbsSum, Pow2;
    ghost var q := norm[..|counts|];
    GivenAll(q, counts);
    AllGiven(q, counts);
    var maxV, maxC, s := 0, 0, 0;
    while s < |counts|
      invariant 0 <= s <= |counts| && maxV < |counts| && forall t :: 0 <= t < s ==> counts[t] <= maxC
      invariant maxC == 0 || counts[maxV] == maxC
    {
      if counts[s] > maxC {
        maxV, maxC := s, counts[s];
      }
      s := s + 1;
    }
    AbsSumSet(q, maxV, q[maxV] + toDistribute);
    norm[maxV] := norm[maxV] + toDistribute;
    assert norm[..|counts|] == q[maxV := q[maxV] + toDistribute];
  }

  /** A cell at a time, round and round, to those that may have more: some one may. */
  method GiveAway(norm: array<int>, log: nat, counts: seq<nat>, low: nat, toDistribute0: nat)
    requires 1 <= |counts| <= norm.Length && Halfway(norm[..|counts|], counts, low)
    requires Waiting(norm[..|counts|], counts) == 0 && Given(norm[..|counts|]) + toDistribute0 == Pow2(log)
    requires exists s :: 0 <= s < |counts| && counts[s] > low
    modifies norm
    ensures Exact(norm[..|counts|], counts, log)
  {
    hide Given, AbsSum, Pow2, Waiting;
    ghost var q0 := norm[..|counts|];
    ghost var p :| 0 <= p < |counts| && counts[p] > low;
    forall s | 0 <= s < |q0| ensures q0[s] != NOT_YET_ASSIGNED {
      if q0[s] == NOT_YET_ASSIGNED {
        NoneWaiting(q0, counts, s);
      }
    }
    AllGiven(q0, counts);
    var toDistribute, s := toDistribute0, 0;
    while toDistribute > 0
      invariant 0 <= s < |counts| && norm[p] > 0
      invariant AbsSum(norm[..|counts|]) + toDistribute == Pow2(log)
      invariant forall t :: 0 <= t < |counts| ==> norm[t] >= -1 && (norm[t] == 0 <==> counts[t] == 0)
      decreases toDistribute, if s <= p then p - s else |counts| - s + p
    {
      if norm[s] > 0 {
        ghost var q := norm[..|counts|];
        AbsSumSet(q, s, q[s] + 1);
        toDistribute := toDistribute - 1;
        norm[s] := norm[s] + 1;
        assert norm[..|counts|] == q[s := q[s] + 1];
      }
      s := if s + 1 == |counts| then 0 else s + 1;
    }
  }

  /** The rest in proportion, in fixed point: exactly what is left to give. */
  method Proportional(norm: array<int>, log: nat, counts: seq<nat>, low: nat, ghost distributed: nat, left: nat, toDistribute: nat)
    requires |counts| <= norm.Length && Books(norm[..|counts|], counts, low, distributed, left)
    requires WholeCells(norm[..|counts|], counts, left, toDistribute)
    requires distributed + toDistribute == Pow2(log) && 1 <= left <= 0x2_0000 && log <= FSE_MAX_TABLELOG
    modifies norm
    ensures Exact(norm[..|counts|], counts, log)
  {
    hide Given, AbsSum, Pow2, Waiting, Mul, Shr;
    ghost var q0 := norm[..|counts|];
    ScaleWide(left, log);
    var vStepLog := 62 - log;
    var mid := Pow2(vStepLog) / 2 - 1;
    var rStep := Rate(vStepLog, toDistribute, mid, left);
    var tmpTotal: nat := mid;
    MidIsZero(mid, vStepLog, rStep);
    assert norm[..0] == [] && q0[..0] == [] && counts[..0] == [];
    Empties(counts);
    var s := 0;
    while s < |counts|
      invariant 0 <= s <= |counts| && AbsSum(norm[..s]) == Given(q0[..s]) + Shr(tmpTotal, vStepLog)
      invariant tmpTotal == mid + Mul(rStep, Waiting(q0[..s], counts[..s]))
      invariant forall t :: s <= t < |counts| ==> norm[t] == q0[t]
      invariant forall t :: 0 <= t < s ==> norm[t] >= -1 && (norm[t] == 0 <==> counts[t] == 0)
    {
      var value := norm[s];
      GivenOne(q0[..s], counts, s, q0[s]);
      assert q0[..s + 1] == q0[..s] + [q0[s]];
      if norm[s] == NOT_YET_ASSIGNED {
        var end := tmpTotal + Mul(rStep, counts[s]);
        StepTotal(rStep, Waiting(q0[..s], counts[..s]), counts[s]);
        var weight := Shr(end, vStepLog) - Shr(tmpTotal, vStepLog);
        WholeCell(vStepLog, toDistribute, left, mid, counts[s], tmpTotal);
        if weight < 1 {
          assert false;
        }
        value := weight;
        tmpTotal := end;
      }
      AbsSumOne(norm[..s], value);
      norm[s] := value;
      assert norm[..s + 1] == norm[..s] + [value];
      s := s + 1;
    }
    assert q0[..|counts|] == q0 && counts[..|counts|] == counts;
    ExactShare(vStepLog, toDistribute, left, mid);
  }

  function Mul(a: nat, b: nat): nat { a * b }

  /** `rStep`: the cells left to give, in fixed point, for each count left. */
  function Rate(k: nat, d: nat, mid: nat, t: nat): nat
    requires t >= 1
  {
    (Pow2(k) * d + mid) / t
  }

  lemma Empties(c: seq<nat>)
    ensures AbsSum([]) == 0 && Given([]) == 0 && Waiting([], c[..0]) == 0
  {
  }

  lemma MidIsZero(mid: nat, k: nat, r: nat)
    requires mid < Pow2(k)
    ensures Shr(mid, k) == 0 && Mul(r, 0) == 0
  {
    LowSmall(mid, k);
  }

  lemma StepTotal(r: nat, w: nat, c: nat)
    ensures Mul(r, w + c) == Mul(r, w) + Mul(r, c)
  {
  }

  /** Rounding down leaves less than one share missing, and `mid` twice makes it up. */
  lemma ExactShare(k: nat, d: nat, t: nat, mid: nat)
    requires Pow2(k) >= 2 && Pow2(k) % 2 == 0 && mid == Pow2(k) / 2 - 1 && 1 <= t < Pow2(k)
    ensures Shr(mid + Mul(Rate(k, d, mid, t), t), k) == d
  {
    hide Pow2, Shr, Shl, Mul, Rate;
    var v := Pow2(k);
    ShareWithin(v, d, t, mid, Rate(k, d, mid, t), k);
    ShlOfMul(d, k);
    ShrLowUnique(d, mid + Mul(Rate(k, d, mid, t), t) - Mul(d, v), k);
  }

  lemma ShlOfMul(d: nat, k: nat)
    ensures Shl(d, k) == Mul(d, Pow2(k))
  {
    ShlIsMul(d, k);
  }

  lemma ShareWithin(v: nat, d: nat, t: nat, mid: nat, r: nat, k: nat)
    requires 1 <= t < v == Pow2(k) && r == Rate(k, d, mid, t) && v >= 2 && v % 2 == 0 && mid == v / 2 - 1
    ensures Mul(d, v) <= mid + Mul(r, t) < Mul(d, v) + v
  {
    hide Pow2;
    var x := v * d + mid;
    DivLeast(x, t);
    DivMost(x, t);
    SwapTwo(d, v);
  }

  /** A count with a whole cell moves the running total by one at least. */
  lemma WholeCell(k: nat, d: nat, t: nat, mid: nat, count: nat, total: nat)
    requires Pow2(k) >= 2 && mid == Pow2(k) / 2 - 1 && 1 <= t && Pow2(k) >= 2 * t && Mul(count, d) > t
    ensures Shr(total + Mul(Rate(k, d, mid, t), count), k) >= Shr(total, k) + 1
  {
    var v, r := Pow2(k), Rate(k, d, mid, t);
    CellRate(v, d, t, mid, count);
    ShrLow(total, k);
    ShrLow(total + Mul(r, count), k);
    ShlIsMul(Shr(total, k), k);
    ShlIsMul(Shr(total + Mul(r, count), k), k);
    NextMultiple(Shr(total, k), v);
    NextMultiple(Shr(total + Mul(r, count), k), v);
    CancelLess(Shr(total, k) + 1, Shr(total + Mul(r, count), k) + 1, v);
  }

  lemma CellRate(v: nat, d: nat, t: nat, mid: nat, count: nat)
    requires t >= 1 && v >= 2 * t && mid == v / 2 - 1 && Mul(count, d) > t
    ensures Mul((v * d + mid) / t, count) >= v
  {
    var x := v * d + mid;
    var r := x / t;
    DivLeast(x, t);
    MulLe(v * d, r * t, count);
    RateSwap(v, d, r, t, count);
    MulLe(t + 1, count * d, v);
    OneMore(t, v);
    MulLe(1, v, t);
    if r * count < v {
      MulLe(r * count, v, t);
    }
  }

  lemma RateSwap(v: int, d: int, r: int, t: int, count: int)
    ensures (v * d) * count == (count * d) * v && (r * t) * count == (r * count) * t
  {
    MulAssoc(v, d, count);
    MulAssoc(r, t, count);
  }

  lemma DivMost(p: nat, t: nat)
    requires t >= 1
    ensures p / t * t <= p
  {
  }

  // What the tables are built from

  lemma {:induction false} StartIsAbsSum(d: Dist, n: nat)
    requires n <= |d.norm|
    ensures d.Start(n) == AbsSum(d.norm[..n])
  {
    if n > 0 {
      StartIsAbsSum(d, n - 1);
      assert d.norm[..n][..n - 1] == d.norm[..n - 1];
    }
  }

  /** An exact distribution is one the table builders take. */
  lemma ExactIsDist(q: seq<int>, c: seq<nat>, log: nat)
    requires Exact(q, c, log) && FSE_MIN_TABLELOG <= log <= 9 && |q| <= 256
    ensures Dist(q, log).Valid()
  {
    StartIsAbsSum(Dist(q, log), |q|);
    assert q[..|q|] == q;
  }
}
