/** `HUF_setMaxHeight`: lengths above a limit are cut to it, and the code
    space that took too much is repaid by lengthening shorter codes. */
module HuffmanLimit {
  import opened Nums
  import opened Kraft
  import opened HuffmanNodes

  const HUF_TABLELOG_MAX: nat := 12
  const NO_SYMBOL: nat := 0xF0F0_F0F0

  /** Lengths of a complete prefix code, shortest first, `u` the longest. */
  ghost predicate Complete(s: seq<nat>, u: nat) {
    && s != [] && Ascending(s) && AtMost(s, u) && s[|s| - 1] == u
    && (forall i :: 0 <= i < |s| ==> s[i] >= 1)
    && Sum(s, Whole(u)) == Pow2(u)
  }

  /** Lengths within the limit that take `cost` too much of the code space:
      always fewer than the codes at the limit. */
  ghost predicate Debt(s: seq<nat>, limit: nat, cost: int) {
    && s != [] && Ascending(s) && AtMost(s, limit) && (forall i :: 0 <= i < |s| ==> s[i] >= 1)
    && |s| <= Pow2(limit) && 2 <= limit
    && Sum(s, Whole(limit)) == Pow2(limit) + cost
    && Sum(s, Exactly(limit)) > (if cost < 0 then -cost else cost)
    && (cost < 0 ==> exists i :: 0 <= i < |s| && s[i] < limit)
  }

  lemma DebtPaid(s: seq<nat>, limit: nat)
    requires Debt(s, limit, 0)
    ensures Complete(s, limit)
  {
    ExactlyBound(s, limit);
  }

  // Cutting

  /** What is cut to `u` keeps its share only if it was below `u`. */
  lemma {:induction false} CutShort(was: seq<nat>, s: seq<nat>, u: nat, k: nat)
    requires |was| == |s| && AtMost(was, u + k)
    requires forall i :: 0 <= i < |s| ==> if was[i] > u then s[i] == u else s[i] == was[i]
    ensures Shl(Sum(s, Short(u)), k) <= Sum(was, Whole(u + k))
    ensures s != [] && was[|s| - 1] >= u ==> Shl(Sum(s, Short(u)), k) < Sum(was, Whole(u + k))
  {
    if s == [] {
      ShlZero(k);
    } else {
      var n := |s| - 1;
      CutShort(was[..n], s[..n], u, k);
      if s[n] < u {
        ShlPow2(u - s[n], k);
        ShlAdd(Sum(s[..n], Short(u)), Pow2(u - s[n]), k);
      }
    }
  }

  /** After the cut: the debt in units of the limit, and what it cannot reach. */
  lemma CutDebt(was: seq<nat>, s: seq<nat>, limit: nat, largest: nat, raw: nat)
    requires Complete(was, largest) && limit < largest && |s| == |was| <= Pow2(limit) && raw > 0
    requires forall i :: 0 <= i < |s| ==> if was[i] > limit then s[i] == limit else s[i] == was[i]
    requires Sum(s, Whole(largest)) == Pow2(largest) + raw
    ensures var cost := Shr(raw, largest - limit);
            cost > 0 && Low(raw, largest - limit) == 0 && Debt(s, limit, cost)
  {
    hide Sum, Shl, Shr, Low, Pow2;
    var k := largest - limit;
    WholeFiner(s, limit, k);
    WholeSplits(s, limit);
    ShlPow2(limit, k);
    CutShort(was, s, limit, k);
    var whole, short := Sum(s, Whole(limit)), Sum(s, Short(limit));
    if short >= Pow2(limit) {
      ShlMono(Pow2(limit), short, k);
    }
    if whole <= Pow2(limit) {
      ShlMono(whole, Pow2(limit), k);
    }
    var cost := whole - Pow2(limit);
    ShlAdd(Pow2(limit), cost, k);
    ShrLowUnique(cost, 0, k);
    if limit < 2 {
      Pow2One();
      Pow2Zero();
      assert limit == 0 || limit == 1;
      TwoCodes(was, largest);
    }
  }

  /** At most two codes make a tree of depth 1, and are two. */
  lemma TwoCodes(s: seq<nat>, u: nat)
    requires Complete(s, u) && |s| <= 2 && u >= 1
    ensures u == 1 && |s| == 2
  {
    assert Pow2(0) == 1;
    SumOfFew(s, Whole(u));
    Pow2Mono(u - s[0], u - 1);
  }

  lemma SumOfFew(s: seq<nat>, m: Measure)
    ensures |s| == 1 ==> Sum(s, m) == m.Of(s[0])
    ensures |s| == 2 ==> Sum(s, m) == m.Of(s[0]) + m.Of(s[1])
  {
    SumNone(m);
    if s != [] {
      SumOne([], s[0], m);
      assert [] + [s[0]] == s[..1];
      if |s| == 2 {
        SumOne([s[0]], s[1], m);
        assert [s[0]] + [s[1]] == s;
      }
    }
  }

  // Repaying

  /** When every shorter code is at least `d` below the limit, the codes at
      the limit outnumber the debt by a whole share of that size. */
  lemma Spare(s: seq<nat>, limit: nat, cost: nat, d: nat)
    requires Debt(s, limit, cost) && 1 <= d <= limit
    requires forall i :: 0 <= i < |s| ==> s[i] <= limit - d || s[i] == limit
    ensures Sum(s, Exactly(limit)) >= cost + Pow2(d)
  {
    hide Sum, Shl;
    WholeSplits(s, limit);
    ShortFiner(s, limit - d, d);
    ShlPow2(limit - d, d);
    var x := Sum(s, Whole(limit - d));
    if x >= Pow2(limit - d) {
      ShlMono(Pow2(limit - d), x, d);
    } else {
      ShlNext(x, d);
      ShlMono(x + 1, Pow2(limit - d), d);
    }
  }

  /** One code of rank `d`, the last of its length, gets a bit longer. */
  lemma Lengthened(s: seq<nat>, limit: nat, cost: nat, d: nat, i: nat)
    requires Debt(s, limit, cost) && cost > 0 && 1 <= d < limit && i < |s| && s[i] == limit - d
    requires i + 1 < |s| ==> s[i + 1] > s[i]
    requires Pow2(d - 1) <= cost || forall j :: 0 <= j < |s| ==> s[j] <= limit - d || s[j] == limit
    ensures Debt(s[i := s[i] + 1], limit, cost - Pow2(d - 1))
  {
    hide Sum, Pow2;
    Pow2Next(d - 1);
    var t := s[i := s[i] + 1];
    SumUpdate(s, i, s[i] + 1, Whole(limit));
    SumUpdate(s, i, s[i] + 1, Exactly(limit));
    if Pow2(d - 1) > cost {
      Spare(s, limit, cost, d);
      Pow2Zero();
      assert t[i] < limit;
    }
  }

  /** A code at the limit, the first of them, gets a bit shorter. */
  lemma Shortened(s: seq<nat>, limit: nat, cost: int, i: nat)
    requires Debt(s, limit, cost) && cost < 0 && i < |s| && s[i] == limit && (i > 0 ==> s[i - 1] < limit)
    ensures Debt(s[i := limit - 1], limit, cost + 1)
  {
    var t := s[i := limit - 1];
    SumUpdate(s, i, limit - 1, Whole(limit));
    SumUpdate(s, i, limit - 1, Exactly(limit));
    assert Pow2(0) == 1 && Pow2(1) == 2;
    assert t[i] < limit;
  }

  // The debt while it is summed, in 32 bits

  const I32_LIMIT: nat := 0x8000_0000

  /** An `i32`. */
  function ToI32(x: int): int { (x + I32_LIMIT) % (2 * I32_LIMIT) - I32_LIMIT }

  /** What cutting a length to the limit costs, in units of the longest. */
  function CutCost(b: nat, limit: nat, largest: nat): (c: nat)
    requires b <= largest && limit <= largest
    ensures c <= Pow2(largest - limit)
  {
    if b > limit then
      Pow2Mono(largest - b, largest - limit);
      Pow2(largest - limit) - Pow2(largest - b)
    else 0
  }

  function RawDebt(s: seq<nat>, limit: nat, largest: nat): nat
    requires AtMost(s, largest) && limit <= largest
  {
    if s == [] then 0 else RawDebt(s[..|s| - 1], limit, largest) + CutCost(s[|s| - 1], limit, largest)
  }

  /** The sum of the costs, and one cost, fit in an `i32`. */
  predicate InI32(s: seq<nat>, limit: nat, largest: nat) {
    && AtMost(s, largest)
    && (limit < largest ==> largest - limit <= 30 && RawDebt(s, limit, largest) < I32_LIMIT)
  }

  lemma {:induction false} RawAtMost(s: seq<nat>, limit: nat, largest: nat)
    requires AtMost(s, largest) && limit <= largest
    ensures RawDebt(s, limit, largest) <= Shl(|s|, largest - limit) && (s != [] ==> RawDebt(s, limit, largest) < Shl(|s|, largest - limit))
  {
    var k := largest - limit;
    if s == [] {
      ShlZero(k);
    } else {
      RawAtMost(s[..|s| - 1], limit, largest);
      ShlNext(|s| - 1, k);
    }
  }

  lemma {:induction false} NothingCut(s: seq<nat>, limit: nat, largest: nat)
    requires AtMost(s, limit) && limit <= largest
    ensures RawDebt(s, limit, largest) == 0
  {
    if s != [] {
      NothingCut(s[..|s| - 1], limit, largest);
    }
  }

  /** No debt of a tree of depth 31 or less is too big. */
  lemma ShallowFits(s: seq<nat>, limit: nat, largest: nat)
    requires s != [] && AtMost(s, largest) && |s| <= Pow2(limit) && 1 <= limit && largest <= 31
    ensures InI32(s, limit, largest)
  {
    if limit < largest {
      RawAtMost(s, limit, largest);
      ShlMono(|s|, Pow2(limit), largest - limit);
      ShlPow2(limit, largest - limit);
      Pow2Mono(largest, 31);
      TwoTo30();
    }
  }

  lemma TwoTo30()
    ensures Pow2(30) == 0x4000_0000 && Pow2(31) == I32_LIMIT
  {
    assert Pow2(8) == 256;
    assert Pow2(16) == 0x1_0000;
    assert Pow2(24) == 0x100_0000;
    assert Pow2(30) == 0x4000_0000;
  }

  // The steps on the node table

  /** Cut every length above the limit, longest first. */
  method CutLong(nodes: array<NodeElt>, m: nat, limit: nat, largest: nat) returns (n: int, totalCost: nat)
    requires m + 1 < nodes.Length && nodes[0].nbBits == 0 && limit < largest
    requires Complete(Lens(nodes[..], m), largest) && m <= Pow2(limit) && InI32(Lens(nodes[..], m), limit, largest)
    modifies nodes
    ensures SameButLens(old(nodes[..]), nodes[..], m) && nodes[0].nbBits == 0
    ensures -1 <= n < m - 1 && forall i :: n < i < m ==> Lens(nodes[..], m)[i] == limit
    ensures var k := largest - limit;
            Low(totalCost, k) == 0 && Shr(totalCost, k) > 0 && Debt(Lens(nodes[..], m), limit, Shr(totalCost, k))
  {
    hide Sum, Debt, Pow2, Low, Shr, ToI32, RawDebt, CutCost;
    ghost var was := Lens(nodes[..], m);
    totalCost := 0;
    n := m - 1;
    assert was[..m] == was;
    while nodes[n + 1].nbBits > limit
      invariant -1 <= n < m && nodes[0].nbBits == 0 && SameButLens(old(nodes[..]), nodes[..], m)
      invariant CutTo(was, Lens(nodes[..], m), n, limit)
      invariant Sum(Lens(nodes[..], m), Whole(largest)) == Pow2(largest) + totalCost
      invariant n < m - 1 ==> totalCost > 0
      invariant totalCost + RawDebt(was[..n + 1], limit, largest) == RawDebt(was, limit, largest)
      decreases n
    {
      assert was[n] == Lens(nodes[..], m)[n];
      RawNext(was, n, limit, largest);
      totalCost := CutOne(nodes, m, limit, largest, n, totalCost);
      n := n - 1;
    }
    ghost var s := Lens(nodes[..], m);
    assert n < m - 1;
    CutAll(was, s, n, limit, largest);
    CutDebt(was, s, limit, largest, totalCost);
  }

  lemma RawNext(s: seq<nat>, n: nat, limit: nat, largest: nat)
    requires AtMost(s, largest) && limit <= largest && n < |s|
    ensures RawDebt(s[..n + 1], limit, largest) == RawDebt(s[..n], limit, largest) + CutCost(s[n], limit, largest)
  {
    assert s[..n + 1][..n] == s[..n];
  }

  /** The lengths behind `n`, all above the limit, are cut to it. */
  ghost predicate CutTo(was: seq<nat>, s: seq<nat>, n: int, limit: nat) {
    && |was| == |s|
    && forall i :: 0 <= i < |s| ==> if i <= n then s[i] == was[i] else was[i] > limit && s[i] == limit
  }

  lemma CutAll(was: seq<nat>, s: seq<nat>, n: int, limit: nat, largest: nat)
    requires Complete(was, largest) && CutTo(was, s, n, limit) && n < |s| && (0 <= n ==> was[n] <= limit)
    ensures forall i :: 0 <= i < |s| ==> if was[i] > limit then s[i] == limit else s[i] == was[i]
  {
  }

  method CutOne(nodes: array<NodeElt>, m: nat, limit: nat, largest: nat, n: nat, totalCost: nat) returns (cost: nat)
    requires n < m < nodes.Length && limit < nodes[n + 1].nbBits <= largest
    requires Sum(Lens(nodes[..], m), Whole(largest)) == Pow2(largest) + totalCost
    requires totalCost + CutCost(nodes[n + 1].nbBits, limit, largest) < I32_LIMIT
    modifies nodes
    ensures SameButLens(old(nodes[..]), nodes[..], m) && Lens(nodes[..], m) == Lens(old(nodes[..]), m)[n := limit]
    ensures Sum(Lens(nodes[..], m), Whole(largest)) == Pow2(largest) + cost && cost > totalCost
    ensures cost == totalCost + CutCost(old(nodes[n + 1].nbBits), limit, largest)
  {
    hide Sum;
    var bits := nodes[n + 1].nbBits;
    Pow2Mono(largest - bits, largest - limit);
    SumUpdate(Lens(nodes[..], m), n, limit, Whole(largest));
    cost := ToI32(totalCost + (Pow2(largest - limit) - Pow2(largest - bits)));
    SetLen(nodes, m, n, limit);
  }

  /** `rank_last[d]` is the last code of `limit - d` bits, for each `d` in use. */
  ghost predicate RankOk(rank: seq<nat>, s: seq<nat>, limit: nat) {
    && |rank| == HUF_TABLELOG_MAX + 2
    && forall d :: 1 <= d < |rank| ==> LastOf(rank[d], s, limit - d)
  }

  ghost predicate LastOf(r: nat, s: seq<nat>, b: int) {
    if r == NO_SYMBOL then forall i :: 0 <= i < |s| ==> s[i] != b
    else r < |s| && s[r] == b && forall i :: r < i < |s| ==> s[i] != b
  }

  /** Back over the codes at the limit; a shorter one is left. */
  method SkipFull(nodes: array<NodeElt>, m: nat, limit: nat, from: int) returns (n: nat)
    requires m < nodes.Length && -1 <= from < m && Ascending(Lens(nodes[..], m)) && AtMost(Lens(nodes[..], m), limit)
    requires forall i :: from < i < m ==> Lens(nodes[..], m)[i] == limit
    requires exists i :: 0 <= i < m && Lens(nodes[..], m)[i] < limit
    ensures n < m && Lens(nodes[..], m)[n] < limit && forall i :: n < i < m ==> Lens(nodes[..], m)[i] == limit
  {
    ghost var s := Lens(nodes[..], m);
    var k := from;
    while nodes[k + 1].nbBits == limit
      invariant 0 <= k < m && forall i :: k < i < m ==> s[i] == limit
      decreases k
    {
      k := k - 1;
    }
    n := k;
  }

  /** The last code of each shorter length. */
  method RankLast(nodes: array<NodeElt>, m: nat, limit: nat, n: nat) returns (rank: array<nat>)
    requires m < nodes.Length && n < m <= NO_SYMBOL && limit <= HUF_TABLELOG_MAX
    requires Ascending(Lens(nodes[..], m)) && AtMost(Lens(nodes[..], m), limit)
    requires forall i :: 0 <= i < m ==> Lens(nodes[..], m)[i] >= 1
    requires Lens(nodes[..], m)[n] < limit && forall i :: n < i < m ==> Lens(nodes[..], m)[i] == limit
    ensures fresh(rank) && RankOk(rank[..], Lens(nodes[..], m), limit)
  {
    ghost var s := Lens(nodes[..], m);
    rank := new nat[HUF_TABLELOG_MAX + 2](_ => NO_SYMBOL);
    var current := limit;
    var pos: int := n;
    while pos >= 0
      invariant -1 <= pos <= n && 1 <= current <= limit
      invariant forall i :: pos < i < m ==> s[i] >= current
      invariant current == limit ==> pos == n
      invariant current < limit ==> exists i :: pos < i < m && s[i] == current
      invariant forall d {:trigger rank[d]} :: 1 <= d < rank.Length ==>
                  if limit - d >= current then LastOf(rank[d], s, limit - d) else rank[d] == NO_SYMBOL
      decreases pos
    {
      if nodes[pos + 1].nbBits < current {
        current := nodes[pos + 1].nbBits;
        rank[limit - current] := pos;
        assert s[pos] == current;
      }
      pos := pos - 1;
    }
  }

  /** The rank to lengthen a code of: never one above the debt, unless no
      lower rank has any. */
  method ChooseRank(nodes: array<NodeElt>, m: nat, rank: array<nat>, limit: nat, cost: nat) returns (d: nat)
    requires m < nodes.Length && m <= NO_SYMBOL && RankOk(rank[..], Lens(nodes[..], m), limit)
    requires Debt(Lens(nodes[..], m), limit, cost) && cost > 0 && limit <= HUF_TABLELOG_MAX
    ensures 1 <= d < limit && d < rank.Length && rank[d] != NO_SYMBOL
    ensures Pow2(d - 1) <= cost || forall e :: 1 <= e < d ==> rank[e] == NO_SYMBOL
  {
    hide Sum, HighBit, Debt, RankOk, Pow2;
    SomeRank(Lens(nodes[..], m), rank[..], limit, cost);
    d := HighBit(cost) + 1;
    while d > 1
      invariant 1 <= d < rank.Length && Pow2(d - 1) <= cost
      invariant rank[d] == NO_SYMBOL ==> forall e {:trigger rank[e]} :: d <= e <= HighBit(cost) + 1 ==> rank[e] == NO_SYMBOL
      decreases d
    {
      Pow2Mono(d - 2, d - 1);
      var highPos, lowPos := rank[d], rank[d - 1];
      if highPos == NO_SYMBOL {
        d := d - 1;
        continue;
      }
      if lowPos == NO_SYMBOL {
        break;
      }
      if nodes[highPos + 1].count <= 2 * nodes[lowPos + 1].count {
        break;
      }
      d := d - 1;
    }
    d := NextRank(rank, d, limit);
  }

  /** The first rank in use from `d` on. */
  method NextRank(rank: array<nat>, from: nat, limit: nat) returns (d: nat)
    requires rank.Length == HUF_TABLELOG_MAX + 2 && 1 <= from < rank.Length && limit < rank.Length
    requires rank[from] != NO_SYMBOL || exists e {:trigger rank[e]} :: from <= e < limit && rank[e] != NO_SYMBOL
    ensures from <= d < rank.Length && rank[d] != NO_SYMBOL && forall e {:trigger rank[e]} :: from <= e < d ==> rank[e] == NO_SYMBOL
  {
    d := from;
    while d <= HUF_TABLELOG_MAX && rank[d] == NO_SYMBOL
      invariant from <= d < rank.Length && forall e {:trigger rank[e]} :: from <= e < d ==> rank[e] == NO_SYMBOL
    {
      d := d + 1;
    }
  }

  /** Some code is below the limit while there is debt. */
  lemma SomeRank(s: seq<nat>, rank: seq<nat>, limit: nat, cost: nat)
    requires RankOk(rank, s, limit) && Debt(s, limit, cost) && cost > 0 && limit <= HUF_TABLELOG_MAX
    ensures exists e {:trigger rank[e]} :: 1 <= e < limit && rank[e] != NO_SYMBOL
    ensures forall d {:trigger rank[d]} :: 1 <= d < |rank| && rank[d] != NO_SYMBOL ==> d < limit && rank[d] < |s|
    ensures HighBit(cost) + 1 < |rank| == HUF_TABLELOG_MAX + 2
  {
    hide Sum, Pow2, HighBit;
    if forall i :: 0 <= i < |s| ==> s[i] == limit {
      AllAt(s, limit);
    } else {
      var i :| 0 <= i < |s| && s[i] != limit;
      assert rank[limit - s[i]] != NO_SYMBOL;
    }
    ExactlyBound(s, limit);
    Pow2Mono(limit, HUF_TABLELOG_MAX);
    if HighBit(cost) >= HUF_TABLELOG_MAX {
      Pow2Mono(HUF_TABLELOG_MAX, HighBit(cost));
    }
  }

  /** The ranks after code `i`, the last of rank `d`, got a bit longer. */
  function Moved(rank: seq<nat>, s: seq<nat>, d: nat, i: nat): seq<nat>
    requires 1 <= d < |rank| && i < |s|
  {
    var lower := if rank[d - 1] == NO_SYMBOL then rank[d - 1 := i] else rank;
    lower[d := if i > 0 && s[i - 1] == s[i] then i - 1 else NO_SYMBOL]
  }

  lemma MovedOk(rank: seq<nat>, s: seq<nat>, limit: nat, d: nat)
    requires RankOk(rank, s, limit) && Ascending(s) && AtMost(s, limit) && 1 <= d < limit <= HUF_TABLELOG_MAX
    requires rank[d] != NO_SYMBOL && |s| <= NO_SYMBOL
    ensures var i := rank[d]; i < |s| && s[i] == limit - d && RankOk(Moved(rank, s, d, i), s[i := s[i] + 1], limit)
  {
    var i := rank[d];
    var t, moved := s[i := s[i] + 1], Moved(rank, s, d, i);
    forall e | 1 <= e < |moved| ensures LastOf(moved[e], t, limit - e) {
      assert LastOf(rank[e], s, limit - e);
      assert forall k :: 0 <= k < |s| && k != i ==> t[k] == s[k];
      if e == d - 1 {
        assert t[i] == limit - e;
      }
    }
  }

  /** One code of the chosen rank gets a bit longer. */
  method RepayOne(nodes: array<NodeElt>, m: nat, rank: array<nat>, limit: nat, totalCost: nat) returns (cost: int)
    requires m < nodes.Length && m <= NO_SYMBOL && RankOk(rank[..], Lens(nodes[..], m), limit)
    requires Debt(Lens(nodes[..], m), limit, totalCost) && totalCost > 0 && limit <= HUF_TABLELOG_MAX
    modifies nodes, rank
    ensures SameButLens(old(nodes[..]), nodes[..], m) && RankOk(rank[..], Lens(nodes[..], m), limit)
    ensures Debt(Lens(nodes[..], m), limit, cost) && cost < totalCost
    ensures forall i :: 0 <= i < m && Lens(old(nodes[..]), m)[i] == limit ==> Lens(nodes[..], m)[i] == limit
  {
    hide Sum, RankOk, Debt;
    var d := ChooseRank(nodes, m, rank, limit, totalCost);
    ghost var s, ranks := Lens(nodes[..], m), rank[..];
    var idx := rank[d];
    LastOfRank(s, ranks, limit, totalCost, d);
    cost := totalCost - Pow2(d - 1);
    SetLen(nodes, m, idx, nodes[idx + 1].nbBits + 1);
    if rank[d - 1] == NO_SYMBOL {
      rank[d - 1] := idx;
    }
    if idx == 0 {
      rank[d] := NO_SYMBOL;
    } else {
      var prev := idx - 1;
      rank[d] := prev;
      assert nodes[prev + 1].nbBits == Lens(nodes[..], m)[prev] == s[prev];
      if nodes[prev + 1].nbBits != limit - d {
        rank[d] := NO_SYMBOL;
      }
    }
    assert rank[..] == Moved(ranks, s, d, idx);
  }

  lemma LastOfRank(s: seq<nat>, rank: seq<nat>, limit: nat, cost: nat, d: nat)
    requires RankOk(rank, s, limit) && Debt(s, limit, cost) && cost > 0 && limit <= HUF_TABLELOG_MAX && |s| <= NO_SYMBOL
    requires 1 <= d < limit && |rank| > d && rank[d] != NO_SYMBOL
    requires Pow2(d - 1) <= cost || forall e :: 1 <= e < d ==> rank[e] == NO_SYMBOL
    ensures |rank| == HUF_TABLELOG_MAX + 2
    ensures var i := rank[d];
            && i < |s| && s[i] == limit - d
            && RankOk(Moved(rank, s, d, i), s[i := s[i] + 1], limit)
            && Debt(s[i := s[i] + 1], limit, cost - Pow2(d - 1))
  {
    hide Sum, Moved;
    MovedOk(rank, s, limit, d);
    var i := rank[d];
    assert LastOf(rank[d], s, limit - d);
    if Pow2(d - 1) > cost {
      forall j | 0 <= j < |s| && s[j] < limit ensures s[j] <= limit - d {
        var e := limit - s[j];
        assert e < |rank| ==> LastOf(rank[e], s, limit - e);
      }
    }
    Lengthened(s, limit, cost, d, i);
  }

  /** The codes at the limit are those behind `last`. */
  ghost predicate FullBehind(s: seq<nat>, last: nat, limit: nat) {
    last < |s| && s[last] < limit && forall i :: last < i < |s| ==> s[i] == limit
  }

  /** A debt below 0 leaves codes at the limit. */
  lemma MoreBehind(s: seq<nat>, limit: nat, cost: int, last: nat)
    requires Debt(s, limit, cost) && cost < 0 && FullBehind(s, last, limit)
    ensures last + 1 < |s|
  {
    hide Sum;
    ExactlyBound(s, limit);
  }

  method TakeOne(nodes: array<NodeElt>, m: nat, limit: nat, cost: int, first: nat) returns (last: nat)
    requires m < nodes.Length && Debt(Lens(nodes[..], m), limit, cost) && cost < 0
    requires FullBehind(Lens(nodes[..], m), first, limit)
    modifies nodes
    ensures SameButLens(old(nodes[..]), nodes[..], m) && Debt(Lens(nodes[..], m), limit, cost + 1)
    ensures last < m && FullBehind(Lens(nodes[..], m), last, limit)
  {
    hide Sum, Debt;
    ghost var s := Lens(nodes[..], m);
    DebtShape(s, limit, cost);
    MoreBehind(s, limit, cost, first);
    Shortened(s, limit, cost, first + 1);
    SetLen(nodes, m, first + 1, nodes[first + 2].nbBits - 1);
    last := first + 1;
  }

  /** Repaid too much: the first codes at the limit get a bit shorter. */
  method TakeBack(nodes: array<NodeElt>, m: nat, limit: nat, totalCost: int, n: nat, rank1: nat)
    requires m < nodes.Length && m <= NO_SYMBOL && Debt(Lens(nodes[..], m), limit, totalCost) && totalCost <= 0
    requires n < m && forall i :: n < i < m ==> Lens(nodes[..], m)[i] == limit
    requires LastOf(rank1, Lens(nodes[..], m), limit - 1)
    modifies nodes
    ensures SameButLens(old(nodes[..]), nodes[..], m) && Complete(Lens(nodes[..], m), limit)
  {
    hide Sum, Debt;
    DebtShape(Lens(nodes[..], m), limit, totalCost);
    var cost, last := totalCost, rank1;
    while cost < 0
      invariant cost <= 0 && Debt(Lens(nodes[..], m), limit, cost) && SameButLens(old(nodes[..]), nodes[..], m)
      invariant if last == NO_SYMBOL
                then (forall i :: 0 <= i < m ==> Lens(nodes[..], m)[i] != limit - 1)
                     && (forall i :: n < i < m ==> Lens(nodes[..], m)[i] == limit)
                else FullBehind(Lens(nodes[..], m), last, limit)
    {
      ghost var before := nodes[..];
      DebtShape(Lens(before, m), limit, cost);
      var first := last;
      if last == NO_SYMBOL {
        first := SkipFull(nodes, m, limit, n);
      }
      last := TakeOne(nodes, m, limit, cost, first);
      SameTrans(old(nodes[..]), before, nodes[..], m);
      cost := cost + 1;
    }
    DebtPaid(Lens(nodes[..], m), limit);
  }

  /** `HUF_setMaxHeight`, whose debt has to fit in an `i32`: a complete code no longer than the limit, the
      shortest lengths still first; nothing else of the nodes changes. */
  method SetMaxHeight(nodes: array<NodeElt>, lastNonNull: nat, limit: nat, ghost largest: nat) returns (maxBits: nat)
    requires lastNonNull + 2 < nodes.Length && lastNonNull < NO_SYMBOL && nodes[0].nbBits == 0
    requires lastNonNull + 1 <= Pow2(limit) && limit <= HUF_TABLELOG_MAX
    requires Complete(Lens(nodes[..], lastNonNull + 1), largest) && InI32(Lens(nodes[..], lastNonNull + 1), limit, largest)
    modifies nodes
    ensures SameButLens(old(nodes[..]), nodes[..], lastNonNull + 1)
    ensures maxBits == (if largest <= limit then largest else limit)
    ensures Complete(Lens(nodes[..], lastNonNull + 1), maxBits)
    ensures largest <= limit ==> nodes[..] == old(nodes[..])
  {
    hide Sum, Debt, Complete, RawDebt;
    var m := lastNonNull + 1;
    CompleteEnds(Lens(nodes[..], m), largest);
    var largestBits := nodes[lastNonNull + 1].nbBits;
    if largestBits <= limit {
      return largestBits;
    }
    var n, totalCost := CutLong(nodes, m, limit, largestBits);
    totalCost := Shr(totalCost, largestBits - limit);
    DebtShape(Lens(nodes[..], m), limit, totalCost);
    n := SkipFull(nodes, m, limit, n);
    var rank := RankLast(nodes, m, limit, n);
    var cost: int := totalCost;
    while cost > 0
      invariant SameButLens(old(nodes[..]), nodes[..], m) && RankOk(rank[..], Lens(nodes[..], m), limit)
      invariant Debt(Lens(nodes[..], m), limit, cost)
      invariant forall i :: n < i < m ==> Lens(nodes[..], m)[i] == limit
    {
      ghost var before := nodes[..];
      cost := RepayOne(nodes, m, rank, limit, cost);
      SameTrans(old(nodes[..]), before, nodes[..], m);
    }
    DebtShape(Lens(nodes[..], m), limit, cost);
    ghost var before := nodes[..];
    TakeBack(nodes, m, limit, cost, n, rank[1]);
    SameTrans(old(nodes[..]), before, nodes[..], m);
    maxBits := limit;
  }

  lemma CompleteEnds(s: seq<nat>, u: nat)
    requires Complete(s, u)
    ensures s != [] && s[|s| - 1] == u
  {
  }

  lemma DebtShape(s: seq<nat>, limit: nat, cost: int)
    requires Debt(s, limit, cost)
    ensures Ascending(s) && AtMost(s, limit) && (forall i :: 0 <= i < |s| ==> s[i] >= 1) && 2 <= limit
    ensures cost != 0 ==> exists i :: 0 <= i < |s| && s[i] < limit
  {
    if cost > 0 && forall i :: 0 <= i < |s| ==> s[i] == limit {
      AllAt(s, limit);
    }
  }
}
