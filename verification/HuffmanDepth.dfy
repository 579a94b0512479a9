/** How deep a tree of given counts can be: a leaf at depth `k` needs as much
    as the Fibonacci number `k + 2`. */
module HuffmanDepth {
  import opened Nums
  import opened Kraft
  import opened HuffmanShape
  import opened HuffmanTree
  import HuffmanLimit

  function FibFrom(a: nat, b: nat, n: nat): nat
    decreases n
  {
    if n == 0 then a else FibFrom(b, a + b, n - 1)
  }

  function Fib(n: nat): nat { FibFrom(0, 1, n) }

  lemma {:induction false} FibStepFrom(a: nat, b: nat, n: nat)
    ensures FibFrom(a, b, n + 2) == FibFrom(a, b, n + 1) + FibFrom(a, b, n)
    decreases n
  {
    if n > 0 {
      FibStepFrom(b, a + b, n - 1);
    } else {
      assert FibFrom(a, b, 2) == FibFrom(b, a + b, 1) == a + b;
    }
  }

  lemma FibStep(n: nat)
    ensures Fib(n + 2) == Fib(n + 1) + Fib(n)
  {
    FibStepFrom(0, 1, n);
  }

  lemma {:induction false} FibMono(m: nat, n: nat)
    requires m <= n
    ensures Fib(m) <= Fib(n)
    decreases n
  {
    if m < n {
      FibMono(m, n - 1);
      if n >= 2 {
        FibStep(n - 2);
      } else {
        assert Fib(0) == 0;
      }
    }
  }

  lemma EightOn(a: nat, b: nat, n: nat)
    ensures FibFrom(a, b, n + 8) == FibFrom(13 * a + 21 * b, 21 * a + 34 * b, n)
  {
    var a4, b4 := 2 * a + 3 * b, 3 * a + 5 * b;
    assert FibFrom(a, b, n + 8) == FibFrom(a + b, a + 2 * b, n + 6) == FibFrom(a4, b4, n + 4);
    assert FibFrom(a4, b4, n + 4) == FibFrom(a4 + b4, a4 + 2 * b4, n + 2);
  }

  lemma FibValues()
    ensures Fib(27) == 196_418 && Fib(34) == 5_702_887 && Fib(36) == 14_930_352
  {
    EightOn(0, 1, 28);
    EightOn(21, 34, 20);
    EightOn(987, 1597, 12);
    EightOn(46_368, 75_025, 4);
    EightOn(0, 1, 26);
    EightOn(21, 34, 18);
    EightOn(987, 1597, 10);
    EightOn(46_368, 75_025, 2);
    EightOn(0, 1, 19);
    EightOn(21, 34, 11);
    EightOn(987, 1597, 3);
  }

  /** A finished build. */
  ghost predicate Finished(b: Build, total: nat, node: seq<nat>, leaf: seq<nat>) {
    && b.Valid(total) && |b.e| == b.Last() && Depths(b.p, b.Last(), node, leaf)
    && forall i :: 0 <= i < |b.c| ==> b.c[i] >= 1
  }

  /** A value was no more than anything left when node `q` was made. */
  ghost predicate LightAt(b: Build, q: nat, x: nat)
    requires |b.p.s| == |b.p.n| == |b.e| + 1 && q < |b.e|
  {
    Light(b.c, b.e[..q], b.p.s[q + 1], b.p.n[q + 1], x) && x <= b.e[q]
  }

  lemma FinishedShape(b: Build, total: nat, node: seq<nat>, leaf: seq<nat>)
    requires Finished(b, total, node, leaf)
    ensures |b.p.s| == |b.p.n| == |b.e| + 1 && |b.e| == b.Last() >= 1 && b.p.Done(b.Last())
    ensures |node| == b.Last() && |leaf| == b.Last() + 1
  {
  }

  lemma Slice2(t: seq<nat>, a: nat, z: nat)
    requires a <= z <= |t|
    ensures z == a ==> Sum(t[a..z], Amount) == 0
    ensures z == a + 1 ==> Sum(t[a..z], Amount) == t[a]
    ensures z == a + 2 ==> Sum(t[a..z], Amount) == t[a] + t[a + 1]
  {
    hide Sum;
    SumNone(Amount);
    if z == a {
      assert t[a..z] == [];
    } else if z == a + 1 {
      assert t[a..z] == [] + [t[a]];
      SumOne([], t[a], Amount);
    } else if z == a + 2 {
      assert t[a..z] == [] + [t[a]] + [t[a + 1]];
      SumOne([], t[a], Amount);
      SumOne([] + [t[a]], t[a + 1], Amount);
    }
  }

  /** The other child of `q`'s parent is no lighter than the children of `q`. */
  lemma SiblingAtLeast(b: Build, total: nat, node: seq<nat>, leaf: seq<nat>, q: nat, r: nat, x: nat)
    requires Finished(b, total, node, leaf) && q < r < |b.e| && |b.p.s| == |b.p.n| == |b.e| + 1
    requires b.p.n[r] <= q < b.p.n[r + 1] && LightAt(b, q, x)
    ensures b.e[r] >= b.e[q] + x
  {
    hide Sum, Depths, Rest, Greedy, Finished, Fib;
    FinishedShape(b, total, node, leaf);
    FinishedSorted(b, total, node, leaf, q + 1, r);
    TwoChildren(b, total, node, leaf, r);
    if b.p.n[r + 1] == b.p.n[r] + 1 {
      assert b.c[b.p.s[r]] >= b.c[b.p.s[q + 1]];
    } else {
      var k := if b.p.n[r] == q then q + 1 else b.p.n[r];
      if k < q {
        assert b.e[..q][b.p.n[q + 1]] <= b.e[k];
      }
    }
  }

  /** The sorted counts, and how the two cursors stand at two steps. */
  lemma FinishedSorted(b: Build, total: nat, node: seq<nat>, leaf: seq<nat>, i: nat, j: nat)
    requires Finished(b, total, node, leaf) && |b.p.s| == |b.p.n| == |b.e| + 1 && i <= j < |b.e|
    ensures Ascending(b.e) && Descending(b.c) && -1 <= b.p.s[j + 1] <= b.p.s[j] <= b.p.s[i] < |b.c|
    ensures b.p.n[i] <= b.p.n[j] <= b.p.n[j + 1] <= j && b.p.n[i] <= i
  {
    hide Sum, Depths, Rest, Greedy;
    FinishedShape(b, total, node, leaf);
    b.p.Order(b.Last(), 0, i);
    b.p.Order(b.Last(), i, j);
    b.p.Order(b.Last(), j + 1, b.Last());
    assert Adds(b.p, b.c, b.e, j);
    if i < |b.e| {
      assert Adds(b.p, b.c, b.e, i);
    }
  }

  /** A node weighs its two children: a leaf and a node, two nodes, or two leaves. */
  lemma TwoChildren(b: Build, total: nat, node: seq<nat>, leaf: seq<nat>, r: nat)
    requires Finished(b, total, node, leaf) && r < |b.e| && |b.p.s| == |b.p.n| == |b.e| + 1
    ensures 0 <= b.p.n[r] <= b.p.n[r + 1] <= r && -1 <= b.p.s[r + 1] <= b.p.s[r] < |b.c|
    ensures (b.p.s[r] - b.p.s[r + 1]) + (b.p.n[r + 1] - b.p.n[r]) == 2
    ensures b.p.n[r + 1] == b.p.n[r] + 1 ==> b.e[r] == b.c[b.p.s[r]] + b.e[b.p.n[r]]
    ensures b.p.n[r + 1] == b.p.n[r] + 2 ==> b.e[r] == b.e[b.p.n[r]] + b.e[b.p.n[r] + 1]
  {
    hide Sum, Depths, Rest, Greedy, Ascending, Descending;
    FinishedShape(b, total, node, leaf);
    assert Adds(b.p, b.c, b.e, r) && b.p.StepOk(r);
    Slice2(b.c, b.p.s[r + 1] + 1, b.p.s[r] + 1);
    Slice2(b.e, b.p.n[r], b.p.n[r + 1]);
  }

  /** Up from node `q`: every step adds at least the step before. */
  lemma {:induction false} Climb(b: Build, total: nat, node: seq<nat>, leaf: seq<nat>, q: nat, x: nat, i: nat)
    requires Finished(b, total, node, leaf) && |b.p.s| == |b.p.n| == |b.e| + 1 && q < |b.e| == |node|
    requires LightAt(b, q, x) && x >= Fib(i + 2) && b.e[q] >= Fib(i + 3)
    ensures total >= Fib(i + 3 + node[q])
    decreases |b.e| - q
  {
    hide Sum, Depths, Rest, Greedy, Light, Fib;
    FinishedShape(b, total, node, leaf);
    var last := b.Last();
    if q == last - 1 {
      RootWeighsAll(b, total, node, leaf);
    } else {
      var r := b.p.NodeParent(last, q, last);
      SiblingAtLeast(b, total, node, leaf, q, r, x);
      FibStep(i + 2);
      ParentOf(b, total, node, leaf, q, r);
      Climb(b, total, node, leaf, r, b.e[q], i + 1);
    }
  }

  lemma ParentOf(b: Build, total: nat, node: seq<nat>, leaf: seq<nat>, q: nat, r: nat)
    requires Finished(b, total, node, leaf) && |b.p.s| == |b.p.n| == |b.e| + 1 && q < r < |b.e| == |node|
    requires b.p.n[r] <= q < b.p.n[r + 1]
    ensures node[q] == node[r] + 1 && LightAt(b, r, b.e[q])
  {
    hide Sum, Rest;
    assert Below(b.p, node, leaf, r);
    assert Greedy(b.p, b.c, b.e, r);
    assert Ascending(b.e);
  }

  lemma RootWeighsAll(b: Build, total: nat, node: seq<nat>, leaf: seq<nat>)
    requires Finished(b, total, node, leaf) && |b.e| >= 1
    ensures |node| == |b.e| && node[|b.e| - 1] == 0 && b.e[|b.e| - 1] == total
  {
    hide Sum;
    FinishedShape(b, total, node, leaf);
    var n := |b.e| - 1;
    assert b.c[..0] == [] && b.e[n..] == [] + [b.e[n]];
    SumNone(Amount);
    SumOne([], b.e[n], Amount);
  }

  /** The deepest leaf is as deep as the counts allow. */
  lemma DepthBound(b: Build, total: nat, node: seq<nat>, leaf: seq<nat>)
    requires Finished(b, total, node, leaf)
    ensures |leaf| >= 1 && total >= Fib(leaf[|leaf| - 1] + 2)
  {
    hide Sum, Rest;
    FinishedShape(b, total, node, leaf);
    var last := b.Last();
    assert b.p.StepOk(0) && Below(b.p, node, leaf, 0) && Greedy(b.p, b.c, b.e, 0) && Adds(b.p, b.c, b.e, 0);
    Slice2(b.c, b.p.s[1] + 1, b.p.s[0] + 1);
    Slice2(b.e, b.p.n[0], b.p.n[1]);
    assert Fib(2) == 1 && Fib(3) == 2;
    Climb(b, total, node, leaf, 0, b.c[last], 0);
  }

  /** Counts that add up to less than the Fibonacci number 34 make no tree
      deeper than 31; those of a block, at most 2^17, none deeper than 24. */
  lemma ShallowTree(b: Build, total: nat, node: seq<nat>, leaf: seq<nat>)
    requires Finished(b, total, node, leaf)
    ensures |leaf| >= 1
    ensures total < 5_702_887 ==> leaf[|leaf| - 1] <= 31
    ensures total <= 0x2_0000 ==> leaf[|leaf| - 1] <= 24
  {
    hide Finished;
    DepthBound(b, total, node, leaf);
    var depth := leaf[|leaf| - 1];
    FibValues();
    if depth >= 32 {
      FibMono(34, depth + 2);
    }
    if depth >= 25 {
      FibMono(27, depth + 2);
    }
  }

  // Where the debt of the height limit does not fit

  /** Fibonacci numbers, largest first. */
  ghost predicate FibLeaves(c: seq<nat>) { 2 <= |c| && forall i: nat :: i < |c| ==> c[i] == Fib(|c| - i) }

  /** The lengths 1, 2, 3, ..., and the longest twice. */
  function Chain(last: nat): seq<nat> { seq(last + 1, i requires 0 <= i => if i < last then i + 1 else last) }

  ghost predicate ChainAt(b: Build, j: nat) {
    && |b.p.s| == |b.p.n| == |b.e| + 1 && 1 <= j <= |b.e|
    && b.p.s[j] == b.Last() - 1 - j && b.p.n[j] == j - 1 && b.e[j - 1] == Fib(j + 3) - 1
  }

  lemma ChainStarts(b: Build, total: nat, node: seq<nat>, leaf: seq<nat>)
    requires Finished(b, total, node, leaf) && FibLeaves(b.c)
    ensures ChainAt(b, 1)
  {
    hide Sum, Rest, Depths, Greedy;
    FinishedShape(b, total, node, leaf);
    assert b.p.StepOk(0) && Adds(b.p, b.c, b.e, 0);
    Slice2(b.c, b.p.s[1] + 1, b.p.s[0] + 1);
    Slice2(b.e, 0, 0);
    assert Fib(1) == 1 && Fib(2) == 1 && Fib(3) == 2 && Fib(4) == 3;
  }

  /** Every node takes the one before and the next leaf. */
  lemma ChainGoesOn(b: Build, total: nat, node: seq<nat>, leaf: seq<nat>, j: nat)
    requires Finished(b, total, node, leaf) && FibLeaves(b.c) && ChainAt(b, j) && j < |b.e|
    ensures ChainAt(b, j + 1)
  {
    hide Sum, Rest, Depths, Fib;
    FinishedShape(b, total, node, leaf);
    assert b.p.StepOk(j) && Adds(b.p, b.c, b.e, j) && Greedy(b.p, b.c, b.e, j);
    b.p.Order(b.Last(), j + 1, b.Last());
    Slice2(b.c, b.p.s[j + 1] + 1, b.p.s[j] + 1);
    Slice2(b.e, b.p.n[j], b.p.n[j + 1]);
    FibStep(j + 2);
  }

  lemma {:induction false} ChainBuilt(b: Build, total: nat, node: seq<nat>, leaf: seq<nat>, j: nat)
    requires Finished(b, total, node, leaf) && FibLeaves(b.c) && 1 <= j <= |b.e|
    ensures ChainAt(b, j)
    decreases j
  {
    if j == 1 {
      ChainStarts(b, total, node, leaf);
    } else {
      ChainBuilt(b, total, node, leaf, j - 1);
      ChainGoesOn(b, total, node, leaf, j - 1);
    }
  }

  lemma {:induction false} ChainNodes(b: Build, total: nat, node: seq<nat>, leaf: seq<nat>, k: nat)
    requires Finished(b, total, node, leaf) && FibLeaves(b.c) && k < |b.e|
    ensures |node| == |b.e| && node[k] == b.Last() - 1 - k
    decreases |b.e| - k
  {
    hide Sum, Rest, Greedy, Adds, Fib, Build.Valid;
    FinishedShape(b, total, node, leaf);
    if k < |b.e| - 1 {
      ChainBuilt(b, total, node, leaf, k + 1);
      ChainBuilt(b, total, node, leaf, k + 2);
      assert Below(b.p, node, leaf, k + 1);
      ChainNodes(b, total, node, leaf, k + 1);
    }
  }

  lemma ChainLeaf(b: Build, total: nat, node: seq<nat>, leaf: seq<nat>, i: nat)
    requires Finished(b, total, node, leaf) && FibLeaves(b.c) && i <= b.Last()
    ensures |leaf| == b.Last() + 1 && leaf[i] == if i < b.Last() then i + 1 else b.Last()
  {
    hide Sum, Rest, Greedy, Adds, Fib, Build.Valid;
    FinishedShape(b, total, node, leaf);
    var last := b.Last();
    var j := if i < last - 1 then last - 1 - i else 0;
    ChainNodes(b, total, node, leaf, j);
    ChainBuilt(b, total, node, leaf, j + 1);
    if j > 0 {
      ChainBuilt(b, total, node, leaf, j);
    }
    assert Below(b.p, node, leaf, j);
  }

  /** What cutting a chain costs. */
  lemma {:induction false} ChainDebt(last: nat, limit: nat, i: nat)
    requires 1 <= limit <= i <= last && AtMost(Chain(last), last)
    ensures HuffmanLimit.RawDebt(Chain(last)[..i], limit, last) + Pow2(last - limit) == Shl(i - limit, last - limit) + Pow2(last - i)
    decreases i
  {
    hide Pow2, Shl, HuffmanLimit.RawDebt;
    var s, k := Chain(last), last - limit;
    if i == limit {
      HuffmanLimit.NothingCut(s[..i], limit, last);
      ShlZero(k);
    } else {
      ChainDebt(last, limit, i - 1);
      HuffmanLimit.RawNext(s, i - 1, limit, last);
      ShlNext(i - 1 - limit, k);
      Pow2Next(last - i);
    }
  }

  lemma ChainTotal(last: nat, limit: nat)
    requires 1 <= limit < last && AtMost(Chain(last), last)
    ensures HuffmanLimit.RawDebt(Chain(last), limit, last) == Shl(last - limit, last - limit)
  {
    var s := Chain(last);
    ChainDebt(last, limit, last);
    HuffmanLimit.RawNext(s, last, limit, last);
    assert s[..last + 1] == s;
    assert Pow2(0) == 1;
  }

  /** 34 Fibonacci counts, well below the builder's 2^30, make a tree of depth
      33 whose debt at the limit 6 does not fit in an `i32`. */
  lemma DebtOverflows(b: Build, total: nat, node: seq<nat>, leaf: seq<nat>)
    requires Finished(b, total, node, leaf) && FibLeaves(b.c) && |b.c| == 34
    ensures total == 14_930_351 < EMPTY && |leaf| == 34 <= Pow2(6) && leaf == Chain(33)
    ensures !HuffmanLimit.InI32(leaf, 6, leaf[33])
  {
    hide Finished, Shl, HuffmanLimit.RawDebt;
    FinishedShape(b, total, node, leaf);
    forall i: nat | i <= 33 ensures leaf[i] == Chain(33)[i] {
      ChainLeaf(b, total, node, leaf, i);
    }
    ChainBuilt(b, total, node, leaf, 33);
    RootWeighsAll(b, total, node, leaf);
    FibValues();
    assert Pow2(6) == 64;
    ChainTotal(33, 6);
    ShlMono(16, 27, 27);
    assert Pow2(4) == 16;
    ShlPow2(4, 27);
    Pow2Mono(30, 31);
    HuffmanLimit.TwoTo30();
  }
}
