/** `HUF_buildCTableFromTree`: codes from the lengths of the sorted leaves. */
module HuffmanTable {
  import opened Nums
  import opened Words
  import opened Kraft
  import opened FseDist
  import opened HuffmanNodes
  import opened HuffmanCodes
  import opened HuffmanLimit

  /** A code as the writer keeps it: the length, and the value at the top. */
  function Elt(nb: nat, v: nat): nat { if nb == 0 then 0 else nb + Shl(v, 64 - (if nb <= 64 then nb else 64)) }

  /** Sorting has put each symbol once among the first `m` leaves. */
  ghost predicate SymbolsOnce(nodes: seq<NodeElt>, m: nat)
    requires m < |nodes|
  {
    && (forall i :: 0 <= i < m ==> Leaf(nodes, i).symbol < m)
    && (forall i, j :: 0 <= i < j < m ==> Leaf(nodes, i).symbol != Leaf(nodes, j).symbol)
  }

  /** `l` has the leaves' lengths, by symbol. */
  ghost predicate BySymbol(nodes: seq<NodeElt>, l: seq<nat>, m: nat)
    requires m < |nodes|
  {
    && |l| == m
    && (forall i :: 0 <= i < m ==> Leaf(nodes, i).symbol < m && l[Leaf(nodes, i).symbol] == Leaf(nodes, i).nbBits)
  }

  lemma {:induction false} CountIsSum(l: seq<nat>, n: nat)
    ensures Count(l, n) == Sum(l, Exactly(n))
  {
    if l != [] {
      var r := l[..|l| - 1];
      CountIsSum(r, n);
      OccPrefix(r, l, n, |r|);
    }
  }

  lemma {:induction false} AllZero(l: seq<nat>, m: Measure)
    requires m.Of(0) == 0 && forall i :: 0 <= i < |l| ==> l[i] == 0
    ensures Sum(l, m) == 0
  {
    if l != [] {
      AllZero(l[..|l| - 1], m);
    }
  }

  /** Codes of one bit and more: the share of each length is the same by either measure. */
  lemma {:induction false} WholeIsCoded(s: seq<nat>, u: nat)
    requires AtMost(s, u) && forall i :: 0 <= i < |s| ==> s[i] >= 1
    ensures Sum(s, Whole(u)) == Sum(s, Coded(u))
  {
    if s != [] {
      WholeIsCoded(s[..|s| - 1], u);
    }
  }

  /** Two lists with the same sums, whatever is measured of the lengths in use. */
  ghost predicate SameSums(a: seq<nat>, b: seq<nat>) {
    forall m: Measure :: m.Of(0) == 0 ==> Sum(a, m) == Sum(b, m)
  }

  lemma PushSums(l: seq<nat>, lens: seq<nat>, s: nat, v: nat)
    requires SameSums(l, lens) && s < |l| && l[s] == 0
    ensures SameSums(l[s := v], lens + [v])
  {
    forall m: Measure | m.Of(0) == 0 ensures Sum(l[s := v], m) == Sum(lens + [v], m) {
      SumUpdate(l, s, v, m);
      SumOne(lens, v, m);
      assert Sum(l, m) == Sum(lens, m);
    }
  }

  /** Push the lengths, in symbol order. */
  method PushLengths(elts: array<nat>, nodes: array<NodeElt>, m: nat) returns (ghost l: seq<nat>)
    requires m < nodes.Length && m <= elts.Length == 256 && SymbolsOnce(nodes[..], m)
    modifies elts
    ensures BySymbol(nodes[..], l, m) && SameSums(l, Lens(nodes[..], m))
    ensures forall s :: 0 <= s < 256 ==> elts[s] == if s < m then l[s] else 0
  {
    ghost var t := nodes[..];
    assert SymbolsOnce(t, m);
    l := seq(m, _ => 0);
    forall s | 0 <= s < elts.Length {
      elts[s] := 0;
    }
    forall k: Measure | k.Of(0) == 0 ensures Sum(l, k) == Sum(Lens(t, 0), k) {
      AllZero(l, k);
      SumNone(k);
    }
    var i := 0;
    while i < m
      invariant 0 <= i <= m && |l| == m && nodes[..] == t && SameSums(l, Lens(t, i))
      invariant forall s :: 0 <= s < 256 ==> elts[s] == if s < m then l[s] else 0
      invariant forall j :: 0 <= j < m ==> Leaf(t, j).symbol < m
      invariant forall j :: 0 <= j < m ==> l[Leaf(t, j).symbol] == if j < i then Leaf(t, j).nbBits else 0
    {
      ghost var node := Leaf(t, i);
      PushSums(l, Lens(t, i), node.symbol, node.nbBits);
      assert Lens(t, i + 1) == Lens(t, i) + [node.nbBits];
      elts[nodes[i + 1].symbol] := nodes[i + 1].nbBits;
      l := l[node.symbol := node.nbBits];
      i := i + 1;
    }
  }

  /** The lengths by symbol fill the code space. */
  lemma PushedFull(nodes: seq<NodeElt>, l: seq<nat>, last: nat, m: nat, u: nat)
    requires last < m < |nodes| && BySymbol(nodes, l, m) && SameSums(l, Lens(nodes, m)) && SymbolsOnce(nodes, m)
    requires Complete(Lens(nodes, last + 1), u)
    requires forall i :: last < i < m ==> Leaf(nodes, i).nbBits == 0
    ensures SameSums(l, Lens(nodes, last + 1))
    ensures Sum(l, Coded(u)) == Pow2(u)
    ensures forall n :: n >= 1 ==> Count(l, n) == Sum(Lens(nodes, last + 1), Exactly(n))
  {
    var front, all := Lens(nodes, last + 1), Lens(nodes, m);
    assert all == front + all[last + 1..];
    forall k: Measure | k.Of(0) == 0 ensures Sum(l, k) == Sum(front, k) {
      SumAppend(front, all[last + 1..], k);
      var rest := all[last + 1..];
      forall i | 0 <= i < |rest| ensures rest[i] == 0 {
        assert Leaf(nodes, i + last + 1).nbBits == 0;
      }
      AllZero(rest, k);
      assert Sum(l, k) == Sum(all, k);
    }
    WholeIsCoded(front, u);
    assert Coded(u).Of(0) == 0;
    forall n: nat | n >= 1 ensures Count(l, n) == Sum(front, Exactly(n)) {
      CountIsSum(l, n);
      assert Exactly(n).Of(0) == 0;
    }
  }

  class HufTable {
    const elts: array<nat>
    var tableLog: nat
    var maxSymbol: nat

    constructor ()
      ensures fresh(elts) && elts.Length == 256
    {
      elts := new nat[256](_ => 0);
      tableLog, maxSymbol := 0, 0;
    }

    /** The table holds the canonical codes of `l`, and none for other symbols. */
    ghost predicate Holds(l: seq<nat>, u: nat)
      reads this, elts
    {
      && elts.Length == 256 && |l| <= 256 && Full(l, u) && u <= 12 && tableLog == u && maxSymbol == |l| - 1
      && forall s :: 0 <= s < 256 ==> elts[s] == if s < |l| then Elt(l[s], Value(l, u, s)) else 0
    }

    /** `HUF_buildCTableFromTree`. */
    method BuildFromTree(nodes: array<NodeElt>, nonNullRank: nat, maxSymbol: nat, maxNbBits: nat) returns (ghost l: seq<nat>)
      requires elts.Length == 256 && nodes.Length == HUFF_NODE_TABLE_SIZE && nonNullRank <= maxSymbol < 256
      requires 1 <= maxNbBits <= HUF_TABLELOG_MAX && SymbolsOnce(nodes[..], maxSymbol + 1)
      requires Complete(Lens(nodes[..], nonNullRank + 1), maxNbBits)
      requires forall i :: nonNullRank < i < maxSymbol + 1 ==> Leaf(nodes[..], i).nbBits == 0
      modifies this, elts
      ensures BySymbol(nodes[..], l, maxSymbol + 1) && Holds(l, maxNbBits)
      ensures forall n :: n >= 1 ==> Count(l, n) == Sum(Lens(nodes[..], nonNullRank + 1), Exactly(n))
    {
      hide Sum, Complete;
      var alphabetSize := maxSymbol + 1;
      ghost var t := nodes[..];
      CompleteBound(Lens(t, nonNullRank + 1), maxNbBits);
      var nbPerRank := CountRanks(nodes, nonNullRank, maxNbBits);
      l := PushLengths(elts, nodes, alphabetSize);
      PushedFull(t, l, nonNullRank, alphabetSize, maxNbBits);
      LengthsBounded(t, l, nonNullRank, alphabetSize, maxNbBits);
      var valPerRank := FirstValues(nbPerRank, l, maxNbBits);
      AssignValues(elts, valPerRank, l, maxNbBits, alphabetSize);
      tableLog, this.maxSymbol := maxNbBits, maxSymbol;
    }
  }

  lemma CompleteBound(s: seq<nat>, u: nat)
    requires Complete(s, u)
    ensures AtMost(s, u) && forall i :: 0 <= i < |s| ==> s[i] >= 1
  {
  }

  /** Every length is some leaf's. */
  lemma LengthsBounded(nodes: seq<NodeElt>, l: seq<nat>, last: nat, m: nat, u: nat)
    requires last < m < |nodes| && BySymbol(nodes, l, m) && SameSums(l, Lens(nodes, last + 1)) && Complete(Lens(nodes, last + 1), u)
    ensures AtMost(l, u)
  {
    forall s | 0 <= s < |l| ensures l[s] <= u {
      if l[s] > u {
        var k := Exactly(l[s]);
        assert k.Of(0) == 0;
        ExactlyBound(l, l[s]);
        ExactlyBound(Lens(nodes, last + 1), l[s]);
      }
    }
  }

  /** How many leaves have each length. */
  method CountRanks(nodes: array<NodeElt>, last: nat, u: nat) returns (nbPerRank: array<nat>)
    requires last + 1 < nodes.Length && AtMost(Lens(nodes[..], last + 1), u) && u <= HUF_TABLELOG_MAX
    ensures fresh(nbPerRank) && nbPerRank.Length == HUF_TABLELOG_MAX + 1
    ensures forall n :: 0 <= n <= HUF_TABLELOG_MAX ==> nbPerRank[n] == Sum(Lens(nodes[..], last + 1), Exactly(n))
  {
    nbPerRank := new nat[HUF_TABLELOG_MAX + 1](_ => 0);
    ghost var t := nodes[..];
    var i := 0;
    while i < last + 1
      invariant 0 <= i <= last + 1 && nodes[..] == t
      invariant forall n :: 0 <= n <= HUF_TABLELOG_MAX ==> nbPerRank[n] == Sum(Lens(t, i), Exactly(n))
    {
      assert Lens(t, last + 1)[i] <= u;
      var nb := nodes[i + 1].nbBits;
      forall n: nat | n <= HUF_TABLELOG_MAX
        ensures Sum(Lens(t, i + 1), Exactly(n)) == Sum(Lens(t, i), Exactly(n)) + if n == nb then 1 else 0
      {
        assert Lens(t, i + 1) == Lens(t, i) + [nb];
        SumOne(Lens(t, i), nb, Exactly(n));
      }
      nbPerRank[nb] := nbPerRank[nb] + 1;
      i := i + 1;
    }
  }

  /** The starting value of each rank, longest first. */
  method FirstValues(nbPerRank: array<nat>, ghost l: seq<nat>, u: nat) returns (valPerRank: array<nat>)
    requires Full(l, u) && u <= HUF_TABLELOG_MAX && nbPerRank.Length == HUF_TABLELOG_MAX + 1
    requires forall n :: 1 <= n <= u ==> nbPerRank[n] == Count(l, n)
    ensures fresh(valPerRank) && valPerRank.Length == HUF_TABLELOG_MAX + 1
    ensures valPerRank[0] == 0 && forall n :: 1 <= n <= u ==> valPerRank[n] == RankVal(l, u, n)
  {
    hide Full, RankVal, Count;
    valPerRank := new nat[HUF_TABLELOG_MAX + 1](_ => 0);
    RankValEnds(l, u);
    var min, n := 0, u;
    while n >= 1
      invariant 0 <= n <= u && min == RankVal(l, u, n) && valPerRank[0] == 0
      invariant forall k :: 1 <= k <= u ==> nbPerRank[k] == Count(l, k)
      invariant forall k :: n < k <= u ==> valPerRank[k] == RankVal(l, u, k)
    {
      valPerRank[n] := min;
      min := min + nbPerRank[n];
      RankValStep(l, u, n);
      min := min / 2;
      n := n - 1;
    }
  }

  /** Values within each rank, in symbol order. */
  method AssignValues(elts: array<nat>, valPerRank: array<nat>, ghost l: seq<nat>, ghost u: nat, m: nat)
    requires elts != valPerRank && elts.Length == 256 && valPerRank.Length == HUF_TABLELOG_MAX + 1
    requires Full(l, u) && u <= HUF_TABLELOG_MAX && |l| == m <= 256
    requires forall s :: 0 <= s < 256 ==> elts[s] == if s < m then l[s] else 0
    requires valPerRank[0] == 0 && forall n :: 1 <= n <= u ==> valPerRank[n] == RankVal(l, u, n)
    modifies elts, valPerRank
    ensures forall s :: 0 <= s < 256 ==> elts[s] == if s < m then Elt(l[s], Value(l, u, s)) else 0
  {
    hide Full, Sum, Elt, RankVal, Value, Occ, Low, Shl64, BitOr;
    FullBounds(l, u);
    OccStart(l);
    var s := 0;
    while s < m
      invariant 0 <= s <= m
      invariant forall r :: 0 <= r < 256 ==> elts[r] == if r < s then Elt(l[r], Value(l, u, r)) else if r < m then l[r] else 0
      invariant forall n :: 1 <= n <= u ==> valPerRank[n] == RankVal(l, u, n) + Occ(l, n, s)
    {
      var nbBits := Low(elts[s], 8);
      SmallElt(l, u, s);
      OccNext(l, u, s);
      var value := valPerRank[nbBits];
      valPerRank[nbBits] := valPerRank[nbBits] + 1;
      if nbBits > 0 {
        elts[s] := BitOr(elts[s], Shl64(value, 64 - nbBits));
      }
      s := s + 1;
    }
  }

  lemma OccStart(l: seq<nat>)
    ensures forall n :: Occ(l, n, 0) == 0
  {
  }

  lemma OccNext(l: seq<nat>, u: nat, s: nat)
    requires Full(l, u) && s < |l|
    ensures forall n :: Occ(l, n, s + 1) == Occ(l, n, s) + if l[s] == n then 1 else 0
    ensures Value(l, u, s) == RankVal(l, u, l[s]) + Occ(l, l[s], s)
  {
  }

  lemma FullBounds(l: seq<nat>, u: nat)
    requires Full(l, u)
    ensures AtMost(l, u)
  {
  }

  /** The length in the low byte and the value at the top do not meet. */
  lemma SmallElt(l: seq<nat>, u: nat, s: nat)
    requires Full(l, u) && u <= HUF_TABLELOG_MAX && s < |l|
    ensures Low(l[s], 8) == l[s]
    ensures l[s] == 0 ==> Elt(l[s], Value(l, u, s)) == 0
    ensures l[s] > 0 ==> BitOr(l[s], Shl64(Value(l, u, s), 64 - l[s])) == Elt(l[s], Value(l, u, s))
  {
    hide Full, Sum;
    FullBounds(l, u);
    assert Pow2(8) == 256;
    LowSmall(l[s], 8);
    if l[s] > 0 {
      ValueFits(l, u, s);
      PackedElt(l[s], Value(l, u, s));
    }
  }

  lemma PackedElt(nb: nat, v: nat)
    requires 1 <= nb <= 12 && v < Pow2(nb)
    ensures BitOr(nb, Shl64(v, 64 - nb)) == Elt(nb, v) < Pow2(64)
  {
    hide BitOr, Shl, Low, Pow2;
    TopBits(v, nb, 64 - nb);
    LowSmall(Shl(v, 64 - nb), 64);
    BitOrDisjoint(nb, v, 64 - nb);
  }

  /** A value of `nb` bits above `k >= 4` others, of which a small length takes few. */
  lemma TopBits(v: nat, nb: nat, k: nat)
    requires v < Pow2(nb) && nb <= 12 && k >= 4
    ensures Shl(v, k) + Pow2(k) <= Pow2(nb + k) && nb < Pow2(k)
  {
    hide Shl;
    ShlAdd(v, 1, k);
    ShlMono(v + 1, Pow2(nb), k);
    ShlPow2(nb, k);
    ShlPow2(0, k);
    assert Pow2(4) == 16;
    Pow2Mono(4, k);
  }
}
