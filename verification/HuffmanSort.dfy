/** `HUF_sort`: the symbols as leaves by descending count, in buckets of like
    counts, the wider buckets sorted in place. */
module HuffmanSort {
  import opened Nums
  import opened Kraft
  import opened FseDist
  import opened HuffmanCodes
  import opened CountingSort
  import opened HuffmanNodes
  import opened HuffmanTree
  import opened HuffmanTable

  const RANK_POSITION_TABLE_SIZE: nat := 192
  const LOG_BUCKETS_BEGIN: nat := 158
  const DISTINCT_COUNT_CUTOFF: nat := 166
  const WORD: nat := 0x1_0000_0000

  /** `HUF_getIndex`. */
  function GetIndex(count: nat): nat { if count < DISTINCT_COUNT_CUTOFF then count else HighBit(count) + LOG_BUCKETS_BEGIN }

  lemma IndexBound(count: nat)
    requires count < WORD
    ensures GetIndex(count) <= 189
  {
    if HighBit(if count == 0 then 1 else count) >= 32 {
      Pow2Mono(32, HighBit(count));
      TwoTo32();
    }
  }

  lemma TwoTo32()
    ensures Pow2(7) == 128 && Pow2(32) == WORD
  {
    assert Pow2(8) == 256;
    assert Pow2(16) == 0x1_0000;
    assert Pow2(24) == 0x100_0000;
    assert Pow2(32) == 0x1_0000_0000;
  }

  /** Buckets are in the order of the counts, the narrow ones of one count each. */
  lemma IndexMono(a: nat, b: nat)
    requires a <= b
    ensures GetIndex(a) <= GetIndex(b)
    ensures GetIndex(b) < 165 ==> b == GetIndex(b)
  {
    TwoTo32();
    if b >= DISTINCT_COUNT_CUTOFF {
      if HighBit(b) < 7 {
        Pow2Mono(HighBit(b) + 1, 7);
      }
      if a >= DISTINCT_COUNT_CUTOFF && HighBit(a) > HighBit(b) {
        Pow2Mono(HighBit(b) + 1, HighBit(a));
      }
    }
  }

  // Leaves in order

  ghost predicate Within(t: seq<NodeElt>, lo: nat, hi: nat, mn: nat, mx: nat)
    requires hi < |t|
  {
    forall i :: lo <= i < hi ==> mn <= Leaf(t, i).count <= mx
  }

  ghost predicate Falls(t: seq<NodeElt>, lo: nat, hi: nat)
    requires hi < |t|
  {
    forall i, j :: lo <= i < j < hi ==> Leaf(t, j).count <= Leaf(t, i).count
  }

  /** Only leaves `lo` up to `hi` differ. */
  ghost predicate Fixed(t: seq<NodeElt>, u: seq<NodeElt>, lo: nat, hi: nat) {
    |t| == |u| && forall k :: 0 <= k < |t| && (k <= lo || k > hi) ==> u[k] == t[k]
  }

  /** Each symbol is once among the leaves, with its count and no length yet. */
  ghost predicate Placed(t: seq<NodeElt>, counts: seq<nat>) {
    && |counts| < |t| && SymbolsOnce(t, |counts|)
    && forall i :: 0 <= i < |counts| ==> LeafOf(Leaf(t, i), counts)
  }

  ghost predicate LeafOf(e: NodeElt, counts: seq<nat>) {
    e.symbol < |counts| && e.count == counts[e.symbol] && e.nbBits == 0
  }

  lemma SwapPlaced(t: seq<NodeElt>, counts: seq<nat>, i: nat, j: nat)
    requires Placed(t, counts) && i < |counts| && j < |counts|
    ensures Placed(t[i + 1 := t[j + 1]][j + 1 := t[i + 1]], counts)
  {
    var u := t[i + 1 := t[j + 1]][j + 1 := t[i + 1]];
    forall k | 0 <= k < |counts| ensures Leaf(u, k) == Leaf(t, if k == i then j else if k == j then i else k) {
    }
  }

  method Swap(nodes: array<NodeElt>, i: nat, j: nat, ghost counts: seq<nat>)
    requires Placed(nodes[..], counts) && i < |counts| && j < |counts|
    modifies nodes
    ensures nodes[..] == old(nodes[..])[i + 1 := old(nodes[j + 1])][j + 1 := old(nodes[i + 1])]
    ensures Placed(nodes[..], counts)
  {
    SwapPlaced(nodes[..], counts, i, j);
    nodes[i + 1], nodes[j + 1] := nodes[j + 1], nodes[i + 1];
  }

  lemma SwapWithin(t: seq<NodeElt>, u: seq<NodeElt>, i: nat, j: nat, lo: nat, hi: nat, mn: nat, mx: nat)
    requires hi < |t| && lo <= i < hi && lo <= j < hi && u == t[i + 1 := t[j + 1]][j + 1 := t[i + 1]]
    requires Within(t, lo, hi, mn, mx)
    ensures Within(u, lo, hi, mn, mx) && Fixed(t, u, lo, hi)
  {
    forall k | lo <= k < hi ensures mn <= Leaf(u, k).count <= mx {
      assert Leaf(u, k) == Leaf(t, if k == i then j else if k == j then i else k);
    }
  }

  lemma FixedTrans(t: seq<NodeElt>, u: seq<NodeElt>, v: seq<NodeElt>, lo: nat, hi: nat, lo2: nat, hi2: nat)
    requires Fixed(t, u, lo, hi) && Fixed(u, v, lo2, hi2) && lo <= lo2 && hi2 <= hi
    ensures Fixed(t, v, lo, hi)
  {
  }

  lemma FallsJoin(t: seq<NodeElt>, lo: nat, m: nat, hi: nat, v: nat)
    requires hi < |t| && lo <= m <= hi && Falls(t, lo, m) && Falls(t, m, hi)
    requires forall i :: lo <= i < m ==> Leaf(t, i).count >= v
    requires forall i :: m <= i < hi ==> Leaf(t, i).count <= v
    ensures Falls(t, lo, hi)
  {
  }

  // Sorting one bucket

  /** `HUF_insertionSort`. */
  method InsertionSort(nodes: array<NodeElt>, lo: nat, hi: nat, ghost counts: seq<nat>, ghost mn: nat, ghost mx: nat)
    requires Placed(nodes[..], counts) && lo < hi <= |counts| && Within(nodes[..], lo, hi, mn, mx)
    modifies nodes
    ensures Placed(nodes[..], counts) && Within(nodes[..], lo, hi, mn, mx) && Falls(nodes[..], lo, hi)
    ensures Fixed(old(nodes[..]), nodes[..], lo, hi)
  {
    hide Placed;
    PlacedFits(nodes[..], counts);
    var i := lo + 1;
    while i < hi
      invariant lo < i <= hi && Placed(nodes[..], counts) && Within(nodes[..], lo, hi, mn, mx) && Falls(nodes[..], lo, i)
      invariant Fixed(old(nodes[..]), nodes[..], lo, hi)
    {
      Insert(nodes, lo, i, hi, counts, mn, mx);
      i := i + 1;
    }
  }

  lemma PlacedFits(t: seq<NodeElt>, counts: seq<nat>)
    requires Placed(t, counts)
    ensures |counts| < |t|
  {
  }

  /** Leaf `i` moves down over the lighter ones. */
  method Insert(nodes: array<NodeElt>, lo: nat, i: nat, ghost hi: nat, ghost counts: seq<nat>, ghost mn: nat, ghost mx: nat)
    requires Placed(nodes[..], counts) && lo < i < hi <= |counts| && Within(nodes[..], lo, hi, mn, mx) && Falls(nodes[..], lo, i)
    modifies nodes
    ensures Placed(nodes[..], counts) && Within(nodes[..], lo, hi, mn, mx) && Falls(nodes[..], lo, i + 1)
    ensures Fixed(old(nodes[..]), nodes[..], lo, hi)
  {
    hide Placed, Within, Falls, Fixed, Shifted, LighterFrom;
    PlacedFits(nodes[..], counts);
    var key := nodes[i + 1];
    ghost var t := nodes[..];
    var j: int := i - 1;
    assert t[i + 1 := key] == t;
    ShiftedNone(t, i);
    while j >= lo && nodes[j + 1].count < key.count
      invariant lo - 1 <= j < i && nodes[..] == Shifted(t, j + 1, i) && LighterFrom(t, j + 1, i)
      invariant Placed(nodes[..][j + 2 := key], counts)
    {
      ShiftedOn(t, j + 1, i, key, counts);
      nodes[j + 2] := nodes[j + 1];
      j := j - 1;
    }
    HoleBelow(t, j + 1, i);
    nodes[j + 2] := key;
    Inserted(t, lo, i, j + 1, hi, mn, mx);
  }

  /** The leaves from `h` up to `i` are all lighter than leaf `i`. */
  ghost predicate LighterFrom(t: seq<NodeElt>, h: nat, i: nat)
    requires h <= i && i + 1 < |t|
  {
    forall k :: h <= k < i ==> Leaf(t, k).count < Leaf(t, i).count
  }

  lemma ShiftedNone(t: seq<NodeElt>, i: nat)
    requires i + 1 < |t|
    ensures LighterFrom(t, i, i)
    ensures Shifted(t, i, i) == t
  {
  }

  lemma HoleBelow(t: seq<NodeElt>, h: nat, i: nat)
    requires h <= i && i + 1 < |t|
    ensures h >= 1 ==> Shifted(t, h, i)[h] == Leaf(t, h - 1)
  {
    if h >= 1 {
      ShiftedAt(t, h, i, h - 1);
    }
  }

  /** Leaves `h` up to `i - 1` one place on; `h` still has its own. */
  function Shifted(t: seq<NodeElt>, h: nat, i: nat): (u: seq<NodeElt>)
    requires h <= i && i + 1 < |t|
    ensures |u| == |t|
  {
    t[..h + 2] + t[h + 1..i + 1] + t[i + 2..]
  }

  lemma ShiftedAt(t: seq<NodeElt>, h: nat, i: nat, k: nat)
    requires h <= i && i + 1 < |t| && k < |t| - 1
    ensures Leaf(Shifted(t, h, i), k) == Leaf(t, if h < k <= i then k - 1 else k)
    ensures Shifted(t, h, i)[0] == t[0]
  {
  }

  lemma ShiftedOn(t: seq<NodeElt>, h: nat, i: nat, key: NodeElt, counts: seq<nat>)
    requires 1 <= h <= i < |counts| && i + 1 < |t| && Placed(Shifted(t, h, i)[h + 1 := key], counts)
    ensures Shifted(t, h, i)[h] == Leaf(t, h - 1)
    ensures LighterFrom(t, h, i) && Leaf(t, h - 1).count < Leaf(t, i).count ==> LighterFrom(t, h - 1, i)
    ensures Shifted(t, h, i)[h + 1 := Leaf(t, h - 1)] == Shifted(t, h - 1, i)
    ensures Placed(Shifted(t, h - 1, i)[h := key], counts)
  {
    hide Placed;
    var u, v := Shifted(t, h, i), Shifted(t, h - 1, i);
    HoleBelow(t, h, i);
    SwapPlaced(u[h + 1 := key], counts, h - 1, h);
    assert u[h + 1 := Leaf(t, h - 1)] == v;
    assert v[h := key] == u[h + 1 := key][h := key][h + 1 := u[h]];
  }

  lemma Inserted(t: seq<NodeElt>, lo: nat, i: nat, h: nat, hi: nat, mn: nat, mx: nat)
    requires lo <= h <= i < hi < |t| && Falls(t, lo, i) && Within(t, lo, hi, mn, mx)
    requires LighterFrom(t, h, i)
    requires h > lo ==> Leaf(t, h - 1).count >= Leaf(t, i).count
    ensures var u := Shifted(t, h, i)[h + 1 := Leaf(t, i)];
            Falls(u, lo, i + 1) && Within(u, lo, hi, mn, mx) && Fixed(t, u, lo, hi)
  {
    hide Shifted;
    var u := Shifted(t, h, i)[h + 1 := Leaf(t, i)];
    forall k | 0 <= k < |t| - 1 ensures Leaf(u, k) == Leaf(t, if k == h then i else if h < k <= i then k - 1 else k) {
      ShiftedAt(t, h, i, k);
      assert k != h ==> Leaf(u, k) == Leaf(Shifted(t, h, i), k);
    }
    forall a, b | lo <= a < b < i + 1 ensures Leaf(u, b).count <= Leaf(u, a).count {
      if a < h {
        assert Leaf(t, h - 1).count <= Leaf(t, a).count;
      }
    }
    forall k | 0 <= k < |t| && (k <= lo || k > hi) ensures u[k] == t[k] {
      if k > 0 {
        assert Leaf(u, k - 1) == Leaf(t, k - 1);
      } else {
        ShiftedAt(t, h, i, 0);
      }
    }
  }

  /** `HUF_quickSortPartition`. */
  method Partition(nodes: array<NodeElt>, lo: nat, hi: nat, ghost counts: seq<nat>, ghost mn: nat, ghost mx: nat)
    returns (idx: nat)
    requires Placed(nodes[..], counts) && lo < hi <= |counts| && Within(nodes[..], lo, hi, mn, mx)
    modifies nodes
    ensures Placed(nodes[..], counts) && lo <= idx < hi < nodes.Length && Fixed(old(nodes[..]), nodes[..], lo, hi)
    ensures var pivot := Leaf(nodes[..], idx).count;
            mn <= pivot <= mx && Within(nodes[..], lo, idx, pivot, mx) && Within(nodes[..], idx + 1, hi, mn, pivot)
  {
    hide Placed, Fixed;
    SameFixed(nodes[..], lo, hi);
    PlacedFits(nodes[..], counts);
    var pivot := nodes[hi].count;
    assert mn <= Leaf(nodes[..], hi - 1).count <= mx;
    idx := lo;
    var j := lo;
    while j < hi - 1
      invariant lo <= idx <= j < hi < nodes.Length && Placed(nodes[..], counts) && Within(nodes[..], lo, hi, mn, mx)
      invariant Fixed(old(nodes[..]), nodes[..], lo, hi) && Leaf(nodes[..], hi - 1).count == pivot
      invariant forall k :: lo <= k < idx ==> Leaf(nodes[..], k).count > pivot
      invariant forall k :: idx <= k < j ==> Leaf(nodes[..], k).count <= pivot
    {
      if nodes[j + 1].count > pivot {
        ghost var t := nodes[..];
        Swap(nodes, idx, j, counts);
        SwapWithin(t, nodes[..], idx, j, lo, hi, mn, mx);
        FixedTrans(old(nodes[..]), t, nodes[..], lo, hi, lo, hi);
        forall k | lo <= k < hi ensures Leaf(nodes[..], k) == Leaf(t, if k == idx then j else if k == j then idx else k) {
        }
        idx := idx + 1;
      }
      j := j + 1;
    }
    ghost var t := nodes[..];
    PlacePivot(nodes, lo, hi, idx, counts, mn, mx);
    FixedTrans(old(nodes[..]), t, nodes[..], lo, hi, lo, hi);
  }

  /** The pivot goes between the two. */
  method PlacePivot(nodes: array<NodeElt>, lo: nat, hi: nat, idx: nat, ghost counts: seq<nat>, ghost mn: nat, ghost mx: nat)
    requires Placed(nodes[..], counts) && lo <= idx < hi <= |counts| < nodes.Length && Within(nodes[..], lo, hi, mn, mx)
    requires var pivot := Leaf(nodes[..], hi - 1).count;
             && (forall k :: lo <= k < idx ==> Leaf(nodes[..], k).count > pivot)
             && forall k :: idx <= k < hi - 1 ==> Leaf(nodes[..], k).count <= pivot
    modifies nodes
    ensures Placed(nodes[..], counts) && Fixed(old(nodes[..]), nodes[..], lo, hi)
    ensures var pivot := Leaf(nodes[..], idx).count;
            mn <= pivot <= mx && Within(nodes[..], lo, idx, pivot, mx) && Within(nodes[..], idx + 1, hi, mn, pivot)
  {
    hide Placed, Fixed;
    ghost var t := nodes[..];
    assert mn <= Leaf(t, hi - 1).count <= mx;
    Swap(nodes, idx, hi - 1, counts);
    SwapWithin(t, nodes[..], idx, hi - 1, lo, hi, mn, mx);
    forall k | lo <= k < hi ensures Leaf(nodes[..], k) == Leaf(t, if k == idx then hi - 1 else if k == hi - 1 then idx else k) {
    }
  }

  /** `HUF_simpleQuickSort`. */
  method SimpleQuickSort(nodes: array<NodeElt>, low: nat, high: nat, ghost counts: seq<nat>, ghost mn: nat, ghost mx: nat)
    requires Placed(nodes[..], counts) && low <= high <= |counts| && Within(nodes[..], low, high, mn, mx)
    modifies nodes
    ensures Placed(nodes[..], counts) && Within(nodes[..], low, high, mn, mx) && Falls(nodes[..], low, high)
    ensures Fixed(old(nodes[..]), nodes[..], low, high)
    decreases high - low
  {
    hide Placed, Falls, Fixed;
    PlacedFits(nodes[..], counts);
    SameFixed(nodes[..], low, high);
    if high - low <= 8 {
      if high - low > 1 {
        InsertionSort(nodes, low, high, counts, mn, mx);
      } else {
        FallsShort(nodes[..], low, high);
      }
      return;
    }
    var lo, hi := low, high;
    ghost var a, b := mn, mx;
    StartSorted(nodes[..], counts, low, high, mn, mx);
    while lo + 1 < hi
      invariant SortedAround(nodes[..], counts, low, lo, hi, high, mn, a, b, mx) && Fixed(old(nodes[..]), nodes[..], low, high)
      decreases hi - lo
    {
      ghost var t := nodes[..];
      var idx := Partition(nodes, lo, hi, counts, a, b);
      ghost var u := nodes[..];
      ghost var pivot := Leaf(u, idx).count;
      FixedTrans(old(nodes[..]), t, u, low, high, lo, hi);
      if idx - lo < hi - 1 - idx {
        SimpleQuickSort(nodes, lo, idx, counts, pivot, b);
        LeftSorted(t, u, nodes[..], counts, low, lo, idx, hi, high, mn, a, b, mx);
        FixedTrans(old(nodes[..]), u, nodes[..], low, high, lo, idx);
        lo := idx + 1;
        b := pivot;
      } else {
        SimpleQuickSort(nodes, idx + 1, hi, counts, a, pivot);
        RightSorted(t, u, nodes[..], counts, low, lo, idx, hi, high, mn, a, b, mx);
        FixedTrans(old(nodes[..]), u, nodes[..], low, high, idx + 1, hi);
        hi := idx;
        a := pivot;
      }
    }
    AllSorted(nodes[..], counts, low, lo, hi, high, mn, a, b, mx);
  }

  lemma SameFixed(t: seq<NodeElt>, lo: nat, hi: nat)
    ensures Fixed(t, t, lo, hi)
  {
  }

  lemma FallsShort(t: seq<NodeElt>, lo: nat, hi: nat)
    requires hi < |t| && hi <= lo + 1
    ensures Falls(t, lo, hi)
  {
  }

  /** What is left of `lo` and right of `hi` is in its place. */
  ghost predicate SortedAround(t: seq<NodeElt>, counts: seq<nat>, low: nat, lo: nat, hi: nat, high: nat, mn: nat, a: nat, b: nat, mx: nat) {
    && Placed(t, counts) && low <= lo <= hi <= high <= |counts| < |t| && mn <= a <= b <= mx
    && Within(t, lo, hi, a, b) && Within(t, low, lo, b, mx) && Within(t, hi, high, mn, a) && Falls(t, low, lo) && Falls(t, hi, high)
  }

  lemma StartSorted(t: seq<NodeElt>, counts: seq<nat>, low: nat, high: nat, mn: nat, mx: nat)
    requires Placed(t, counts) && low < high <= |counts| < |t| && Within(t, low, high, mn, mx)
    ensures SortedAround(t, counts, low, low, high, high, mn, mn, mx, mx)
  {
    hide Placed;
    assert mn <= Leaf(t, low).count <= mx;
  }

  lemma KeepsWithin(t: seq<NodeElt>, u: seq<NodeElt>, lo: nat, hi: nat, a: nat, b: nat, mn: nat, mx: nat)
    requires Fixed(t, u, lo, hi) && b < |t| && (b <= lo || hi <= a)
    ensures |t| == |u| && (Within(t, a, b, mn, mx) ==> Within(u, a, b, mn, mx))
    ensures Falls(t, a, b) ==> Falls(u, a, b)
  {
    forall i | a <= i < b ensures Leaf(u, i) == Leaf(t, i) {
    }
  }

  lemma LeftSorted(t: seq<NodeElt>, u: seq<NodeElt>, v: seq<NodeElt>, counts: seq<nat>, low: nat, lo: nat, idx: nat, hi: nat,
                   high: nat, mn: nat, a: nat, b: nat, mx: nat)
    requires SortedAround(t, counts, low, lo, hi, high, mn, a, b, mx) && lo <= idx < hi && Fixed(t, u, lo, hi) && Fixed(u, v, lo, idx)
    requires Placed(v, counts) && a <= Leaf(u, idx).count <= b
    requires Within(u, idx + 1, hi, a, Leaf(u, idx).count) && Within(v, lo, idx, Leaf(u, idx).count, b) && Falls(v, lo, idx)
    ensures SortedAround(v, counts, low, idx + 1, hi, high, mn, a, Leaf(u, idx).count, mx)
  {
    hide Placed, Within, Falls, Fixed;
    KeepsWithin(t, u, lo, hi, low, lo, b, mx);
    var p := Leaf(u, idx).count;
    KeepsWithin(u, v, lo, idx, low, lo, b, mx);
    KeepsWithin(t, u, lo, hi, hi, high, mn, a);
    KeepsWithin(u, v, lo, idx, hi, high, mn, a);
    KeepsWithin(u, v, lo, idx, idx + 1, hi, a, p);
    OneLeaf(u, v, idx, lo, idx);
    LeftJoin(v, low, lo, idx, p, b, mx);
  }

  lemma OneLeaf(u: seq<NodeElt>, v: seq<NodeElt>, i: nat, lo: nat, hi: nat)
    requires Fixed(u, v, lo, hi) && i + 1 < |u| && (i < lo || hi <= i)
    ensures Within(v, i, i + 1, Leaf(u, i).count, Leaf(u, i).count) && Falls(v, i, i + 1)
  {
  }

  lemma LeftJoin(v: seq<NodeElt>, low: nat, lo: nat, idx: nat, p: nat, b: nat, mx: nat)
    requires low <= lo <= idx && idx + 1 < |v| && p <= b <= mx
    requires Within(v, low, lo, b, mx) && Within(v, lo, idx, p, b) && Within(v, idx, idx + 1, p, p)
    requires Falls(v, low, lo) && Falls(v, lo, idx) && Falls(v, idx, idx + 1)
    ensures Within(v, low, idx + 1, p, mx) && Falls(v, low, idx + 1)
  {
    FallsJoin(v, low, lo, idx, b);
    FallsJoin(v, low, idx, idx + 1, p);
  }

  lemma RightJoin(v: seq<NodeElt>, idx: nat, hi: nat, high: nat, p: nat, a: nat, mn: nat)
    requires idx < hi <= high < |v| && mn <= a <= p
    requires Within(v, idx, idx + 1, p, p) && Within(v, idx + 1, hi, a, p) && Within(v, hi, high, mn, a)
    requires Falls(v, idx, idx + 1) && Falls(v, idx + 1, hi) && Falls(v, hi, high)
    ensures Within(v, idx, high, mn, p) && Falls(v, idx, high)
  {
    FallsJoin(v, idx + 1, hi, high, a);
    FallsJoin(v, idx, idx + 1, high, p);
  }

  lemma RightSorted(t: seq<NodeElt>, u: seq<NodeElt>, v: seq<NodeElt>, counts: seq<nat>, low: nat, lo: nat, idx: nat, hi: nat,
                    high: nat, mn: nat, a: nat, b: nat, mx: nat)
    requires SortedAround(t, counts, low, lo, hi, high, mn, a, b, mx) && lo <= idx < hi && Fixed(t, u, lo, hi) && Fixed(u, v, idx + 1, hi)
    requires Placed(v, counts) && a <= Leaf(u, idx).count <= b
    requires Within(u, lo, idx, Leaf(u, idx).count, b) && Within(v, idx + 1, hi, a, Leaf(u, idx).count) && Falls(v, idx + 1, hi)
    ensures SortedAround(v, counts, low, lo, idx, high, mn, Leaf(u, idx).count, b, mx)
  {
    hide Placed, Within, Falls, Fixed;
    KeepsWithin(t, u, lo, hi, low, lo, b, mx);
    var p := Leaf(u, idx).count;
    KeepsWithin(u, v, idx + 1, hi, low, lo, b, mx);
    KeepsWithin(t, u, lo, hi, hi, high, mn, a);
    KeepsWithin(u, v, idx + 1, hi, hi, high, mn, a);
    KeepsWithin(u, v, idx + 1, hi, lo, idx, p, b);
    OneLeaf(u, v, idx, idx + 1, hi);
    RightJoin(v, idx, hi, high, p, a, mn);
  }

  lemma AllSorted(t: seq<NodeElt>, counts: seq<nat>, low: nat, lo: nat, hi: nat, high: nat, mn: nat, a: nat, b: nat, mx: nat)
    requires SortedAround(t, counts, low, lo, hi, high, mn, a, b, mx) && hi <= lo + 1
    ensures Falls(t, low, high) && Within(t, low, high, mn, mx)
  {
    hide Placed;
    FallsShort(t, lo, hi);
    FallsJoin(t, low, lo, hi, b);
    FallsJoin(t, low, hi, high, a);
  }

  // The buckets

  ghost predicate AllU32(counts: seq<nat>) { forall s :: 0 <= s < |counts| ==> counts[s] < WORD }

  /** Keys that put the largest counts first. */
  function Keys(counts: seq<nat>): (ks: seq<nat>)
    requires AllU32(counts)
    ensures |ks| == |counts| && AtMost(ks, 191)
    ensures forall s :: 0 <= s < |ks| ==> 2 <= ks[s] == 191 - GetIndex(counts[s])
  {
    assert forall s :: 0 <= s < |counts| ==> GetIndex(counts[s]) <= 189 by {
      forall s | 0 <= s < |counts| ensures GetIndex(counts[s]) <= 189 {
        IndexBound(counts[s]);
      }
    }
    seq(|counts|, s requires 0 <= s < |counts| => 191 - GetIndex(counts[s]))
  }

  /** Where the leaves of a key begin. */
  function StartOfKey(ks: seq<nat>, v: nat): nat { Below(ks, v, |ks|) }

  /** `base` of every bucket: how many symbols have a higher one. */
  method RankPositions(counts: seq<nat>) returns (base: array<nat>, curr: array<nat>)
    requires AllU32(counts)
    ensures fresh(base) && fresh(curr) && base != curr && base.Length == curr.Length == RANK_POSITION_TABLE_SIZE
    ensures forall r: nat :: 1 <= r <= 191 ==> base[r] == StartOfKey(Keys(counts), 192 - r)
    ensures forall r: nat :: 1 <= r <= 190 ==> curr[r] == StartOfKey(Keys(counts), 192 - r)
  {
    hide Below, Occ, Keys, GetIndex;
    ghost var ks := Keys(counts);
    base := CountIndices(counts);
    curr := new nat[RANK_POSITION_TABLE_SIZE](_ => 0);
    var n := RANK_POSITION_TABLE_SIZE - 1;
    BelowStart(ks);
    BelowUp(ks, 0);
    while n >= 1
      invariant 0 <= n <= 191 && base != curr
      invariant forall r: nat :: n <= r <= 191 ==> base[r] == StartOfKey(ks, 192 - r)
      invariant forall r: nat :: r < n ==> base[r] == Count(ks, 191 - r)
      invariant forall r: nat :: n <= r <= 190 ==> curr[r] == StartOfKey(ks, 192 - r)
    {
      BelowUp(ks, 192 - n);
      base[n - 1] := base[n - 1] + base[n];
      curr[n - 1] := base[n - 1];
      n := n - 1;
    }
  }

  method CountIndices(counts: seq<nat>) returns (base: array<nat>)
    requires AllU32(counts)
    ensures fresh(base) && base.Length == RANK_POSITION_TABLE_SIZE
    ensures forall r: nat :: r <= 191 ==> base[r] == Count(Keys(counts), 191 - r)
  {
    hide Below, Occ, GetIndex, Slot;
    ghost var ks := Keys(counts);
    base := new nat[RANK_POSITION_TABLE_SIZE](_ => 0);
    OccNone0(ks);
    var i := 0;
    while i < |counts|
      invariant 0 <= i <= |counts| && forall r: nat :: r <= 191 ==> base[r] == Occ(ks, 191 - r, i)
    {
      CountingSort.OccNext(ks, i);
      base[GetIndex(counts[i])] := base[GetIndex(counts[i])] + 1;
      i := i + 1;
    }
  }

  /** Each symbol into its bucket. */
  method PlaceLeaves(nodes: array<NodeElt>, counts: seq<nat>, curr: array<nat>)
    requires AllU32(counts) && |counts| < nodes.Length && curr.Length == RANK_POSITION_TABLE_SIZE
    requires forall k :: 0 <= k < nodes.Length ==> nodes[k].nbBits == 0
    requires forall r: nat :: 1 <= r <= 190 ==> curr[r] == StartOfKey(Keys(counts), 192 - r)
    modifies nodes, curr
    ensures nodes[0] == old(nodes[0]) && forall k :: 0 <= k < nodes.Length ==> nodes[k].nbBits == 0
    ensures forall r: nat :: 1 <= r <= 190 ==> curr[r] == StartOfKey(Keys(counts), 193 - r)
    ensures forall s :: 0 <= s < |counts| ==> InSlot(nodes[..], Keys(counts), counts, s)
  {
    hide Below, Occ, GetIndex, Slot, InSlot;
    ghost var ks := Keys(counts);
    OccNone0(ks);
    var s := 0;
    while s < |counts|
      invariant 0 <= s <= |counts| && nodes[0] == old(nodes[0]) && forall k :: 0 <= k < nodes.Length ==> nodes[k].nbBits == 0
      invariant forall r: nat :: 1 <= r <= 190 ==> curr[r] == StartOfKey(ks, 192 - r) + Occ(ks, 192 - r, s)
      invariant forall r :: 0 <= r < s ==> InSlot(nodes[..], ks, counts, r)
    {
      CountingSort.OccNext(ks, s);
      SlotInside(ks, 191, s);
      var r := GetIndex(counts[s]) + 1;
      assert curr[r] == Slot(ks, s);
      var pos := curr[r];
      curr[r] := pos + 1;
      ghost var t := nodes[..];
      nodes[pos + 1] := nodes[pos + 1].(count := counts[s], symbol := s);
      PlacedMore(t, nodes[..], ks, counts, s);
      s := s + 1;
    }
    forall r: nat | 1 <= r <= 190 ensures curr[r] == StartOfKey(ks, 193 - r) {
      BelowUp(ks, 192 - r);
    }
  }

  /** Symbol `s` is where its key puts it. */
  ghost predicate InSlot(t: seq<NodeElt>, ks: seq<nat>, counts: seq<nat>, s: nat) {
    && |ks| == |counts| < |t| && s < |ks| && Slot(ks, s) < |ks|
    && Leaf(t, Slot(ks, s)).symbol == s && Leaf(t, Slot(ks, s)).count == counts[s]
  }

  lemma PlacedMore(t: seq<NodeElt>, u: seq<NodeElt>, ks: seq<nat>, counts: seq<nat>, s: nat)
    requires |t| == |u| && |ks| == |counts| < |t| && s < |ks| && AtMost(ks, 191) && Slot(ks, s) < |ks|
    requires forall r :: 0 <= r < s ==> InSlot(t, ks, counts, r)
    requires u == t[Slot(ks, s) + 1 := t[Slot(ks, s) + 1].(count := counts[s], symbol := s)]
    ensures forall r :: 0 <= r < s + 1 ==> InSlot(u, ks, counts, r)
  {
    hide Slot;
    forall r: nat | r < s + 1 ensures InSlot(u, ks, counts, r) {
      if r < s {
        assert InSlot(t, ks, counts, r);
        SlotDistinct(ks, 191, r, s);
      }
    }
  }

  /** Every leaf is in the bucket of its count. */
  ghost predicate Bucketed(t: seq<NodeElt>, ks: seq<nat>, m: nat)
    requires m < |t| && |ks| == m
  {
    forall v: nat :: v <= 191 ==> InBucket(t, ks, v)
  }

  ghost predicate InBucket(t: seq<NodeElt>, ks: seq<nat>, v: nat)
    requires |ks| < |t|
  {
    forall i :: StartOfKey(ks, v) <= i < StartOfKey(ks, v + 1) && i < |ks| ==> GetIndex(Leaf(t, i).count) == 191 - v
  }

  lemma AllPlaced(t: seq<NodeElt>, counts: seq<nat>)
    requires AllU32(counts) && |counts| < |t| && (forall k :: 0 <= k < |t| ==> t[k].nbBits == 0)
    requires forall s :: 0 <= s < |counts| ==> InSlot(t, Keys(counts), counts, s)
    ensures Placed(t, counts) && Bucketed(t, Keys(counts), |counts|)
  {
    hide Slot, Below, Keys, GetIndex;
    var ks := Keys(counts);
    forall i: nat | i < |counts| ensures LeafOf(Leaf(t, i), counts) && Slot(ks, Leaf(t, i).symbol) == i {
      var s := SlotOnto(ks, 191, i);
      assert InSlot(t, ks, counts, s);
    }
    forall v: nat | v <= 191 ensures InBucket(t, ks, v) {
      forall i | StartOfKey(ks, v) <= i < StartOfKey(ks, v + 1) && i < |ks| ensures GetIndex(Leaf(t, i).count) == 191 - v {
        var s := SlotOnto(ks, 191, i);
        assert InSlot(t, ks, counts, s);
        KeyOfSlot(ks, s, v);
      }
    }
  }

  lemma KeyOfSlot(ks: seq<nat>, s: nat, v: nat)
    requires AtMost(ks, 191) && s < |ks| && v <= 191 && StartOfKey(ks, v) <= Slot(ks, s) < StartOfKey(ks, v + 1)
    ensures ks[s] == v
  {
    hide Below, Occ;
    SlotInside(ks, 191, s);
    assert Slot(ks, s) >= StartOfKey(ks, ks[s]);
    if ks[s] < v {
      BelowMono(ks, ks[s] + 1, v);
    } else if ks[s] > v {
      BelowMono(ks, v + 1, ks[s]);
    }
  }

  /** Buckets up to key `v`, of distinct counts or sorted, make one falling run. */
  ghost predicate SortedFrom(t: seq<NodeElt>, ks: seq<nat>, v: nat)
    requires |ks| < |t|
  {
    forall w: nat :: v <= w <= 191 && StartOfKey(ks, w + 1) <= |ks| ==> Falls(t, StartOfKey(ks, w), StartOfKey(ks, w + 1))
  }

  lemma MinMax(t: seq<NodeElt>, lo: nat, hi: nat) returns (mn: nat, mx: nat)
    requires lo < hi < |t|
    ensures Within(t, lo, hi, mn, mx)
    ensures exists i, j :: lo <= i < hi && lo <= j < hi && Leaf(t, i).count == mn && Leaf(t, j).count == mx
  {
    var c := Leaf(t, hi - 1).count;
    if hi == lo + 1 {
      mn, mx := c, c;
    } else {
      mn, mx := MinMax(t, lo, hi - 1);
      mn, mx := if c < mn then c else mn, if mx < c then c else mx;
    }
  }

  /** Sorting one bucket leaves every leaf in its bucket, and the others alone. */
  lemma BucketSorted(t: seq<NodeElt>, u: seq<NodeElt>, ks: seq<nat>, v: nat, mn: nat, mx: nat)
    requires |t| == |u| && |ks| < |t| && AtMost(ks, 191) && 2 <= v <= 191 && Bucketed(t, ks, |ks|) && SortedFrom(t, ks, v + 1)
    requires StartOfKey(ks, v) <= StartOfKey(ks, v + 1) <= |ks| && Fixed(t, u, StartOfKey(ks, v), StartOfKey(ks, v + 1))
    requires Within(u, StartOfKey(ks, v), StartOfKey(ks, v + 1), mn, mx) && GetIndex(mn) == GetIndex(mx) == 191 - v
    requires Falls(u, StartOfKey(ks, v), StartOfKey(ks, v + 1))
    ensures Bucketed(u, ks, |ks|) && SortedFrom(u, ks, v)
  {
    hide GetIndex, StartOfKey;
    forall w: nat | w <= 191 ensures InBucket(u, ks, w) {
      if w == v {
        forall i | StartOfKey(ks, v) <= i < StartOfKey(ks, v + 1) && i < |ks| ensures GetIndex(Leaf(u, i).count) == 191 - v {
          IndexMono(mn, Leaf(u, i).count);
          IndexMono(Leaf(u, i).count, mx);
        }
      } else {
        assert InBucket(t, ks, w);
        BucketApart(t, u, ks, v, w);
      }
    }
    forall w: nat | v <= w <= 191 && StartOfKey(ks, w + 1) <= |ks| ensures Falls(u, StartOfKey(ks, w), StartOfKey(ks, w + 1)) {
      if w != v {
        BucketApart(t, u, ks, v, w);
      }
    }
  }

  lemma BucketApart(t: seq<NodeElt>, u: seq<NodeElt>, ks: seq<nat>, v: nat, w: nat)
    requires |t| == |u| && |ks| < |t| && v <= 191 && w <= 191 && v != w
    requires Fixed(t, u, StartOfKey(ks, v), StartOfKey(ks, v + 1))
    ensures forall i :: StartOfKey(ks, w) <= i < StartOfKey(ks, w + 1) && i < |ks| ==> Leaf(u, i) == Leaf(t, i)
  {
    hide Below;
    if w < v {
      BelowMono(ks, w + 1, v);
    } else {
      BelowMono(ks, v + 1, w);
    }
  }

  lemma KeysFit(ks: seq<nat>, v: nat)
    requires AtMost(ks, 191) && v <= 191
    ensures StartOfKey(ks, v) <= StartOfKey(ks, v + 1) <= |ks|
  {
    hide Below;
    BelowMono(ks, v, v + 1);
    BelowMono(ks, v + 1, 192);
    BelowAll(ks, 191, |ks|);
  }

  /** The low buckets hold one count each. */
  lemma LowBucketsSorted(t: seq<NodeElt>, ks: seq<nat>)
    requires |ks| < |t| && Bucketed(t, ks, |ks|)
    ensures SortedFrom(t, ks, 27)
  {
    hide GetIndex, Below;
    forall w: nat | 27 <= w <= 191 && StartOfKey(ks, w + 1) <= |ks| ensures Falls(t, StartOfKey(ks, w), StartOfKey(ks, w + 1)) {
      assert InBucket(t, ks, w);
      forall i, j | StartOfKey(ks, w) <= i < j < StartOfKey(ks, w + 1) ensures Leaf(t, j).count <= Leaf(t, i).count {
        IndexMono(Leaf(t, i).count, Leaf(t, i).count);
        IndexMono(Leaf(t, j).count, Leaf(t, j).count);
      }
    }
  }

  /** Sorted buckets make sorted leaves. */
  lemma AllFall(t: seq<NodeElt>, ks: seq<nat>)
    requires |ks| < |t| && AtMost(ks, 191) && (forall s :: 0 <= s < |ks| ==> ks[s] >= 2)
    requires Bucketed(t, ks, |ks|) && SortedFrom(t, ks, 2)
    ensures Descending(LeafCounts(t, |ks|))
  {
    hide GetIndex, Below, Count, Occ;
    BelowAll(ks, 191, |ks|);
    forall i: nat, j: nat | i < j < |ks| ensures Leaf(t, j).count <= Leaf(t, i).count {
      var v := KeyOf(ks, i);
      var w := KeyOf(ks, j);
      KeysFit(ks, v);
      assert InBucket(t, ks, v) && InBucket(t, ks, w);
      if w < v {
        BelowMono(ks, w + 1, v);
      } else if v == w {
        assert Falls(t, StartOfKey(ks, v), StartOfKey(ks, v + 1));
      } else if Leaf(t, i).count < Leaf(t, j).count {
        IndexMono(Leaf(t, i).count, Leaf(t, j).count);
      }
    }
  }

  lemma KeyOf(ks: seq<nat>, i: nat) returns (v: nat)
    requires AtMost(ks, 191) && (forall s :: 0 <= s < |ks| ==> ks[s] >= 2) && i < |ks|
    ensures 2 <= v <= 191 && StartOfKey(ks, v) <= i < StartOfKey(ks, v + 1)
  {
    BelowAll(ks, 191, |ks|);
    v := KeyAt(ks, 192, i);
    BelowUp(ks, v);
    var s := Select(ks, v, 0, |ks|);
  }

  /** `HUF_sort`: every symbol once, by descending count. */
  method HufSort(nodes: array<NodeElt>, counts: seq<nat>)
    requires AllU32(counts) && |counts| < nodes.Length && forall k :: 0 <= k < nodes.Length ==> nodes[k].nbBits == 0
    modifies nodes
    ensures Placed(nodes[..], counts) && Descending(LeafCounts(nodes[..], |counts|)) && nodes[0] == old(nodes[0])
  {
    hide Below, Occ, GetIndex, Slot, InSlot, Keys, Placed, Bucketed, SortedFrom, Descending, StartOfKey;
    ghost var ks := Keys(counts);
    var base, curr := RankPositions(counts);
    PlaceLeaves(nodes, counts, curr);
    AllPlaced(nodes[..], counts);
    LowBucketsSorted(nodes[..], ks);
    var n := DISTINCT_COUNT_CUTOFF;
    while n < RANK_POSITION_TABLE_SIZE - 1
      invariant DISTINCT_COUNT_CUTOFF <= n <= 191 && nodes[0] == old(nodes[0])
      invariant forall r: nat :: 1 <= r <= 191 ==> base[r] == StartOfKey(ks, 192 - r)
      invariant forall r: nat :: 1 <= r <= 190 ==> curr[r] == StartOfKey(ks, 193 - r)
      invariant Placed(nodes[..], counts) && Bucketed(nodes[..], ks, |ks|) && SortedFrom(nodes[..], ks, 193 - n)
    {
      KeysFit(ks, 192 - n);
      SortBucket(nodes, base[n], curr[n], counts, 192 - n);
      n := n + 1;
    }
    AllFall(nodes[..], ks);
  }

  method SortBucket(nodes: array<NodeElt>, start: nat, end: nat, ghost counts: seq<nat>, ghost v: nat)
    requires AllU32(counts) && |counts| < nodes.Length && 2 <= v <= 191 && start <= end <= |counts|
    requires start == StartOfKey(Keys(counts), v) && end == StartOfKey(Keys(counts), v + 1)
    requires Placed(nodes[..], counts) && Bucketed(nodes[..], Keys(counts), |counts|) && SortedFrom(nodes[..], Keys(counts), v + 1)
    modifies nodes
    ensures Placed(nodes[..], counts) && Bucketed(nodes[..], Keys(counts), |counts|) && SortedFrom(nodes[..], Keys(counts), v)
    ensures nodes[0] == old(nodes[0])
  {
    hide GetIndex, StartOfKey, Placed, SortedFrom, Falls;
    ghost var ks, t := Keys(counts), nodes[..];
    if end - start > 1 {
      ghost var mn, mx := MinMax(t, start, end);
      assert InBucket(t, ks, v);
      SimpleQuickSort(nodes, start, end, counts, mn, mx);
      BucketSorted(t, nodes[..], ks, v, mn, mx);
    } else {
      ShortBucket(t, ks, v);
    }
  }

  lemma ShortBucket(t: seq<NodeElt>, ks: seq<nat>, v: nat)
    requires |ks| < |t| && v <= 191 && SortedFrom(t, ks, v + 1) && StartOfKey(ks, v + 1) <= StartOfKey(ks, v) + 1
    ensures SortedFrom(t, ks, v)
  {
    hide StartOfKey;
  }
}
