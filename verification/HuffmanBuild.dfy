/** `HUF_buildCTable`: sort, merge, limit, and number the codes; and that the
    decoder takes the weights of the result. */
module HuffmanBuild {
  import opened Nums
  import opened Kraft
  import opened HuffmanNodes
  import opened HuffmanCodes
  import opened HuffmanTree
  import opened HuffmanShape
  import opened HuffmanDepth
  import opened HuffmanTable
  import opened HuffmanWeights
  import opened HuffmanSort
  import HuffmanLimit

  const HUF_TABLELOG_DEFAULT: nat := 11

  /** The symbols of the first `k` leaves. */
  ghost function Symbols(t: seq<NodeElt>, k: nat): set<nat>
    requires k < |t|
  {
    if k == 0 then {} else Symbols(t, k - 1) + {Leaf(t, k - 1).symbol}
  }

  ghost predicate Among(t: seq<NodeElt>, k: nat, s: nat)
    requires k < |t|
  {
    exists i :: 0 <= i < k && Leaf(t, i).symbol == s
  }

  lemma AmongNext(t: seq<NodeElt>, k: nat, s: nat)
    requires 1 <= k < |t|
    ensures Among(t, k, s) <==> Among(t, k - 1, s) || Leaf(t, k - 1).symbol == s
  {
  }

  lemma {:induction false} SymbolsAre(t: seq<NodeElt>, m: nat, k: nat)
    requires k <= m < |t| && SymbolsOnce(t, m)
    ensures |Symbols(t, k)| == k
    ensures forall s :: s in Symbols(t, k) ==> s < m && Among(t, k, s)
  {
    hide Among;
    if k > 0 {
      SymbolsAre(t, m, k - 1);
      NewSymbol(t, m, k);
      forall s | s in Symbols(t, k) ensures s < m && Among(t, k, s) {
        AmongNext(t, k, s);
      }
    }
  }

  lemma NewSymbol(t: seq<NodeElt>, m: nat, k: nat)
    requires 1 <= k <= m < |t| && SymbolsOnce(t, m)
    ensures Leaf(t, k - 1).symbol < m && !Among(t, k - 1, Leaf(t, k - 1).symbol)
  {
  }

  ghost function UpTo(m: nat): (r: set<nat>)
    ensures forall s: nat :: s in r <==> s < m
  {
    if m == 0 then {} else UpTo(m - 1) + {m - 1}
  }

  lemma {:induction false} UpToSize(m: nat)
    ensures |UpTo(m)| == m
  {
    if m > 0 {
      UpToSize(m - 1);
    }
  }

  lemma SubsetSize(a: set<nat>, b: set<nat>)
    requires a <= b
    ensures |a| <= |b| && (|a| == |b| ==> a == b)
    decreases a
  {
    if a != {} {
      var x :| x in a;
      SubsetSize(a - {x}, b - {x});
    }
  }

  /** Every symbol has its leaf. */
  lemma LeafOfSymbol(t: seq<NodeElt>, m: nat, s: nat) returns (i: nat)
    requires m < |t| && SymbolsOnce(t, m) && s < m
    ensures i < m && Leaf(t, i).symbol == s
  {
    SymbolsAre(t, m, m);
    UpToSize(m);
    SubsetSize(Symbols(t, m), UpTo(m));
    assert s in UpTo(m) && Among(t, m, s);
    i :| 0 <= i < m && Leaf(t, i).symbol == s;
  }

  // Sorting keeps every sum

  /** The counts whose leaves are among the first `k`. */
  ghost function Seen(t: seq<NodeElt>, counts: seq<nat>, k: nat): (c: seq<nat>)
    requires k < |t|
    ensures |c| == |counts| && forall s :: 0 <= s < |c| ==> c[s] == if s in Symbols(t, k) then counts[s] else 0
  {
    seq(|counts|, s requires 0 <= s < |counts| => if s in Symbols(t, k) then counts[s] else 0)
  }

  lemma {:induction false} SeenSums(t: seq<NodeElt>, counts: seq<nat>, k: nat, e: Measure)
    requires Placed(t, counts) && k <= |counts|
    ensures Sum(Seen(t, counts, k), e) == Sum(LeafCounts(t, k), e) + (|counts| - k) * e.Of(0)
  {
    hide Placed, Sum, Symbols;
    PlacedFits(t, counts);
    if k == 0 {
      SumNone(e);
      NoSymbols(t);
      AllZeros(Seen(t, counts, 0), e);
    } else {
      SeenSums(t, counts, k - 1, e);
      var node := Leaf(t, k - 1);
      SymbolNew(t, counts, k);
      SeenOne(t, counts, k);
      SumUpdate(Seen(t, counts, k - 1), node.symbol, node.count, e);
      assert LeafCounts(t, k) == LeafCounts(t, k - 1) + [node.count];
      SumOne(LeafCounts(t, k - 1), node.count, e);
      OneTime(|counts| - k, e.Of(0));
    }
  }

  lemma NoSymbols(t: seq<NodeElt>)
    requires t != []
    ensures Symbols(t, 0) == {}
  {
  }

  lemma OneTime(n: nat, x: nat)
    ensures (n + 1) * x == n * x + x
  {
  }

  lemma SeenOne(t: seq<NodeElt>, counts: seq<nat>, k: nat)
    requires 1 <= k < |t| && Leaf(t, k - 1).symbol < |counts| && Leaf(t, k - 1).count == counts[Leaf(t, k - 1).symbol]
    ensures Seen(t, counts, k) == Seen(t, counts, k - 1)[Leaf(t, k - 1).symbol := Leaf(t, k - 1).count]
  {
  }

  lemma {:induction false} AllZeros(s: seq<nat>, e: Measure)
    requires forall i :: 0 <= i < |s| ==> s[i] == 0
    ensures Sum(s, e) == |s| * e.Of(0)
  {
    if s != [] {
      AllZeros(s[..|s| - 1], e);
      assert |s| * e.Of(0) == (|s| - 1) * e.Of(0) + e.Of(0);
    }
  }

  lemma SymbolNew(t: seq<NodeElt>, counts: seq<nat>, k: nat)
    requires Placed(t, counts) && 1 <= k <= |counts|
    ensures Leaf(t, k - 1).symbol !in Symbols(t, k - 1) && Leaf(t, k - 1).symbol < |counts|
    ensures Leaf(t, k - 1).count == counts[Leaf(t, k - 1).symbol]
  {
    SymbolsAre(t, |counts|, k - 1);
    assert LeafOf(Leaf(t, k - 1), counts);
  }

  lemma SortedSums(t: seq<NodeElt>, counts: seq<nat>, e: Measure)
    requires Placed(t, counts)
    ensures |counts| < |t| && Sum(LeafCounts(t, |counts|), e) == Sum(counts, e)
  {
    hide Sum, Symbols, Placed, Seen, Measure.Of;
    PlacedFits(t, counts);
    SeenSums(t, counts, |counts|, e);
    AllSeen(t, counts);
    NoTimes(|counts|, e.Of(0));
  }

  lemma NoTimes(n: nat, x: nat)
    ensures (n - n) * x == 0
  {
  }

  lemma AllSeen(t: seq<NodeElt>, counts: seq<nat>)
    requires |counts| < |t| && Placed(t, counts)
    ensures Seen(t, counts, |counts|) == counts
  {
    hide Symbols, SymbolsOnce;
    var m := |counts|;
    SymbolsAre(t, m, m);
    UpToSize(m);
    SubsetSize(Symbols(t, m), UpTo(m));
    assert Symbols(t, m) == UpTo(m);
  }

  /** How many symbols occur. */
  function Used(counts: seq<nat>): int { |counts| - Sum(counts, Exactly(0)) }

  /** Two symbols occur: the second leaf does. */
  lemma SecondOccurs(t: seq<NodeElt>, counts: seq<nat>)
    requires Placed(t, counts) && Descending(LeafCounts(t, |counts|)) && Used(counts) >= 2
    ensures |counts| >= 2 && Leaf(t, 1).count > 0
  {
    hide Sum, Placed;
    PlacedFits(t, counts);
    var c := LeafCounts(t, |counts|);
    SortedSums(t, counts, Exactly(0));
    if c[1] == 0 {
      ZerosBehind(c, if c[0] == 0 then 0 else 1);
    }
  }

  lemma {:induction false} ZerosBehind(c: seq<nat>, n: nat)
    requires n <= |c| && (forall i :: 0 <= i < n ==> c[i] > 0) && forall i :: n <= i < |c| ==> c[i] == 0
    ensures Sum(c, Exactly(0)) == |c| - n
  {
    if c != [] {
      var r := c[..|c| - 1];
      ZerosBehind(r, if n < |c| then n else n - 1);
    }
  }

  /** As many leaves occur as symbols. */
  lemma LeavesUsed(t: seq<NodeElt>, counts: seq<nat>, last: nat)
    requires Placed(t, counts) && last < |counts| && Leaf(t, last).count > 0 && Descending(LeafCounts(t, |counts|))
    requires forall i :: last < i < |counts| ==> Leaf(t, i).count == 0
    ensures last + 1 == Used(counts)
  {
    hide Sum, Placed;
    PlacedFits(t, counts);
    var c := LeafCounts(t, |counts|);
    SortedSums(t, counts, Exactly(0));
    forall i | 0 <= i < last + 1 ensures c[i] > 0 {
      assert c[last] <= c[i];
    }
    ZerosBehind(c, last + 1);
  }

  // The whole build

  /** Each symbol once among the leaves, with its count. */
  ghost predicate Labelled(t: seq<NodeElt>, counts: seq<nat>) {
    && |counts| < |t| && SymbolsOnce(t, |counts|)
    && forall i :: 0 <= i < |counts| ==> Leaf(t, i).symbol < |counts| && Leaf(t, i).count == counts[Leaf(t, i).symbol]
  }

  lemma LabelledOnce(t: seq<NodeElt>, counts: seq<nat>)
    requires Labelled(t, counts)
    ensures |counts| < |t| && SymbolsOnce(t, |counts|)
  {
  }

  lemma LabelsKept(t: seq<NodeElt>, u: seq<NodeElt>, counts: seq<nat>)
    requires Labelled(t, counts) && |u| == |t|
    requires forall i :: 0 <= i < |counts| ==> Leaf(u, i).symbol == Leaf(t, i).symbol && Leaf(u, i).count == Leaf(t, i).count
    ensures Labelled(u, counts) && LeafCounts(u, |counts|) == LeafCounts(t, |counts|)
  {
  }

  /** Codes for the symbols that occur, none longer for a larger count. */
  ghost predicate Fair(l: seq<nat>, counts: seq<nat>) {
    && |l| == |counts|
    && (forall s :: 0 <= s < |l| ==> (l[s] >= 1 <==> counts[s] > 0))
    && forall a, b :: 0 <= a < |l| && 0 <= b < |l| && counts[a] > counts[b] > 0 ==> l[a] <= l[b]
  }

  lemma BuiltFair(t: seq<NodeElt>, counts: seq<nat>, l: seq<nat>, last: nat, u: nat)
    requires Labelled(t, counts) && BySymbol(t, l, |counts|) && Descending(LeafCounts(t, |counts|)) && last < |counts|
    requires HuffmanLimit.Complete(Lens(t, last + 1), u) && Leaf(t, last).count > 0
    requires forall i :: last < i < |counts| ==> Leaf(t, i).count == 0 && Leaf(t, i).nbBits == 0
    ensures Fair(l, counts)
  {
    var m := |counts|;
    var c, lens := LeafCounts(t, m), Lens(t, last + 1);
    forall s: nat | s < m ensures l[s] >= 1 <==> counts[s] > 0 {
      var i := LeafOfSymbol(t, m, s);
      if i <= last {
        assert c[last] <= c[i] && lens[i] >= 1;
      }
    }
    forall a: nat, b: nat | a < m && b < m && counts[a] > counts[b] > 0 ensures l[a] <= l[b] {
      var i := LeafOfSymbol(t, m, a);
      var j := LeafOfSymbol(t, m, b);
      assert c[i] > c[j];
      assert lens[i] <= lens[j];
    }
  }

  /** The lengths of a build are those of a tree the decoder knows. */
  lemma BuiltTree(t: seq<NodeElt>, counts: seq<nat>, l: seq<nat>, last: nat, u: nat)
    requires Fair(l, counts) && Full(l, u) && u <= TABLELOG_MAX && |counts| >= 2 && counts[|counts| - 1] > 0
    requires last + 1 < |t| && HuffmanLimit.Complete(Lens(t, last + 1), u)
    requires Count(l, u) == Sum(Lens(t, last + 1), Exactly(u))
    ensures Tree(l, u)
  {
    ExactlyBound(Lens(t, last + 1), u);
    assert Lens(t, last + 1)[last] == u;
  }

  lemma PlacedLabelled(t: seq<NodeElt>, counts: seq<nat>)
    requires Placed(t, counts)
    ensures Labelled(t, counts)
  {
    forall i | 0 <= i < |counts| ensures Leaf(t, i).symbol < |counts| && Leaf(t, i).count == counts[Leaf(t, i).symbol] {
      assert LeafOf(Leaf(t, i), counts);
    }
  }

  /** `HUF_buildCTable`: a table of at most `maxNbBits`, whose weights the
      decoder accepts; unless the debt of the tree overflows its `i32`, from
      where on nothing is said. The counts of a block are far from that. */
  method BuildCTable(table: HufTable, counts: seq<nat>, maxNbBits: nat) returns (ok: bool, ghost l: seq<nat>, ghost u: nat, ghost tree: seq<nat>)
    requires table.elts.Length == 256 && 2 <= Used(counts) <= Pow2(Limit(maxNbBits)) && |counts| <= 256
    requires maxNbBits <= HuffmanLimit.HUF_TABLELOG_MAX && Sum(counts, Amount) < EMPTY
    modifies table, table.elts
    ensures tree != [] && exists b: Build, node :: Finished(b, Sum(b.c, Amount), node, tree)
    ensures ok <==> HuffmanLimit.InI32(tree, Limit(maxNbBits), tree[|tree| - 1])
    ensures Sum(counts, Amount) < 5_702_887 ==> ok
    ensures ok ==> table.Holds(l, u) && 1 <= u <= Limit(maxNbBits) && Fair(l, counts)
    ensures ok && u <= TABLELOG_MAX && counts[|counts| - 1] > 0 ==>
      Tree(l, u) && StatsOf(Weights(u, l)[..|l| - 1]) == Accepted(Weights(u, l), u)
  {
    hide Sum, HuffmanLimit.Complete, HuffmanLimit.InI32, Descending, Tree, StatsOf, Weights, Pow2, HufTable.Holds, Fair, Finished;
    hide Labelled, SymbolsOnce, BySymbol;
    var maxSymbol: nat := |counts| - 1;
    var nodes := new NodeElt[HUFF_NODE_TABLE_SIZE](_ => NodeElt(0, 0, 0, 0));
    ghost var b;
    var nonNullRank;
    nonNullRank, b := TreeOf(nodes, counts);
    ghost var built := nodes[..];
    tree := Lens(built, nonNullRank + 1);
    if Sum(b.c, Amount) < 5_702_887 {
      ShallowBuild(b, Sum(b.c, Amount), InnerLens(built, nonNullRank), tree, Limit(maxNbBits));
    }
    ok := HuffmanLimit.InI32(Lens(nodes[..], nonNullRank + 1), Limit(maxNbBits), nodes[nonNullRank + 1].nbBits);
    l, u := [], 0;
    if !ok {
      return;
    }
    var maxBits := HuffmanLimit.SetMaxHeight(nodes, nonNullRank, if maxNbBits == 0 then HUF_TABLELOG_DEFAULT else maxNbBits,
                                             nodes[nonNullRank + 1].nbBits);
    u := maxBits;
    ghost var t := nodes[..];
    LimitKept(built, t, counts, nonNullRank);
    CompleteOne(Lens(t, nonNullRank + 1), u);
    LabelledOnce(t, counts);
    l := table.BuildFromTree(nodes, nonNullRank, maxSymbol, maxBits);
    BuiltFair(t, counts, l, nonNullRank, u);
    HoldsFull(table, l, u);
    if u <= TABLELOG_MAX && counts[|counts| - 1] > 0 {
      BuiltTree(t, counts, l, nonNullRank, u);
      TreeIsAccepted(l, u);
    }
  }

  /** The sorted leaves and the tree over them. */
  method TreeOf(nodes: array<NodeElt>, counts: seq<nat>) returns (last: nat, ghost b: Build)
    requires nodes.Length == HUFF_NODE_TABLE_SIZE && forall i :: 0 <= i < nodes.Length ==> nodes[i].nbBits == 0
    requires 2 <= Used(counts) && |counts| <= 256 && Sum(counts, Amount) < EMPTY
    modifies nodes
    ensures 1 <= last < |counts| && last + 1 == Used(counts) && nodes[0].nbBits == 0
    ensures Labelled(nodes[..], counts) && Descending(LeafCounts(nodes[..], |counts|)) && Leaf(nodes[..], last).count > 0
    ensures forall i :: last < i < |counts| ==> Leaf(nodes[..], i).nbBits == 0 && Leaf(nodes[..], i).count == 0
    ensures Finished(b, Sum(b.c, Amount), InnerLens(nodes[..], last), Lens(nodes[..], last + 1)) && Sum(b.c, Amount) <= Sum(counts, Amount)
    ensures HuffmanLimit.Complete(Lens(nodes[..], last + 1), nodes[last + 1].nbBits)
  {
    hide Sum, Placed, Depths, Build.Valid, HuffmanLimit.Complete, Descending, Pow2, Labelled, SymbolsOnce, Finished;
    CountsAreWords(counts);
    HufSort(nodes, counts);
    ghost var sorted := nodes[..];
    PlacedLabelled(sorted, counts);
    SecondOccurs(sorted, counts);
    SortedSums(sorted, counts, Amount);
    last, b := BuildTree(nodes, |counts| - 1);
    ghost var built := nodes[..];
    LabelsKept(sorted, built, counts);
    LeavesUsed(sorted, counts, last);
    BuildFinished(b, built, counts, last);
    RestUnused(sorted, built, counts, last);
  }

  lemma BuildFinished(b: Build, t: seq<NodeElt>, counts: seq<nat>, last: nat)
    requires |t| == HUFF_NODE_TABLE_SIZE && 1 <= last < |counts| <= 256 && Descending(LeafCounts(t, |counts|)) && Leaf(t, last).count > 0
    requires b.c == LeafCounts(t, last + 1) && |b.e| == last && b.Valid(Sum(b.c, Amount))
    requires Depths(b.p, last, InnerLens(t, last), Lens(t, last + 1))
    ensures Finished(b, Sum(b.c, Amount), InnerLens(t, last), Lens(t, last + 1))
    ensures Sum(b.c, Amount) <= Sum(LeafCounts(t, |counts|), Amount)
  {
    hide Sum, Depths, Build.Valid;
    CountsBelow(t, |counts|, last + 1);
    var c := LeafCounts(t, |counts|);
    forall i | 0 <= i < |b.c| ensures b.c[i] >= 1 {
      assert c[last] <= c[i] == b.c[i];
    }
  }

  lemma RestUnused(t: seq<NodeElt>, u: seq<NodeElt>, counts: seq<nat>, last: nat)
    requires Placed(t, counts) && |u| == |t| == HUFF_NODE_TABLE_SIZE && |counts| <= 256
    requires forall i :: last + 1 < i <= STARTNODE ==> u[i].nbBits == t[i].nbBits
    requires forall i :: last + 1 < i <= |counts| ==> u[i].count == 0
    ensures forall i :: last < i < |counts| ==> Leaf(u, i).nbBits == 0 && Leaf(u, i).count == 0
  {
    forall i | last < i < |counts| ensures Leaf(u, i).nbBits == 0 && Leaf(u, i).count == 0 {
      assert LeafOf(Leaf(t, i), counts);
    }
  }

  lemma CompleteOne(s: seq<nat>, u: nat)
    requires HuffmanLimit.Complete(s, u)
    ensures u >= 1
  {
  }

  lemma HoldsFull(table: HufTable, l: seq<nat>, u: nat)
    requires table.Holds(l, u)
    ensures Full(l, u)
  {
  }

  /** Only lengths change, and only of leaves that occur. */
  lemma LimitKept(t: seq<NodeElt>, u: seq<NodeElt>, counts: seq<nat>, last: nat)
    requires Labelled(t, counts) && SameButLens(t, u, last + 1) && last < |counts|
    requires forall i :: last < i < |counts| ==> Leaf(t, i).nbBits == 0 && Leaf(t, i).count == 0
    ensures Labelled(u, counts) && LeafCounts(u, |counts|) == LeafCounts(t, |counts|)
    ensures forall i :: last < i < |counts| ==> Leaf(u, i).nbBits == 0 && Leaf(u, i).count == 0
    ensures Leaf(u, last).count == Leaf(t, last).count
  {
    forall i | 0 <= i < |counts| ensures Leaf(u, i).symbol == Leaf(t, i).symbol && Leaf(u, i).count == Leaf(t, i).count {
      assert u[i + 1] == t[i + 1].(nbBits := u[i + 1].nbBits);
    }
    LabelsKept(t, u, counts);
  }

  /** A tree of few enough counts is shallow enough to be limited. */
  lemma ShallowBuild(b: Build, total: nat, node: seq<nat>, leaf: seq<nat>, limit: nat)
    requires Finished(b, total, node, leaf) && total < 5_702_887 && |leaf| <= Pow2(limit) && limit >= 1
    requires leaf != [] && HuffmanLimit.Complete(leaf, leaf[|leaf| - 1])
    ensures HuffmanLimit.InI32(leaf, limit, leaf[|leaf| - 1])
  {
    hide Finished, Sum;
    ShallowTree(b, total, node, leaf);
    HuffmanLimit.ShallowFits(leaf, limit, leaf[|leaf| - 1]);
  }

  function Limit(maxNbBits: nat): nat { if maxNbBits == 0 then HUF_TABLELOG_DEFAULT else maxNbBits }

  lemma CountsAreWords(counts: seq<nat>)
    requires Sum(counts, Amount) < WORD
    ensures AllU32(counts)
  {
    forall s: nat | s < |counts| ensures counts[s] < WORD {
      SumPositive(counts, Amount, s);
    }
  }
}
