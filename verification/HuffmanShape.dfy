/** The shape of a tree built from two queues, whatever the counts: each new
    node takes the next two from the end of the leaves and the front of the
    nodes, so the children of a node are runs of both. */
module HuffmanShape {
  import opened Nums
  import opened Kraft
  import HuffmanLimit

  /** The queues before each node is made: leaves `0..=s[j]` and nodes
      `n[j]..j` have no parent yet. */
  datatype Plan = Plan(s: seq<int>, n: seq<nat>) {
    function Made(): int { |s| - 1 }

    predicate StepOk(j: nat)
      requires |s| == |n| && j + 1 < |s|
    {
      && s[j + 1] <= s[j] && n[j] <= n[j + 1] <= j
      && (s[j] - s[j + 1]) + (n[j + 1] - n[j]) == 2
    }

    ghost predicate Valid(last: nat) {
      && |s| == |n| && |s| >= 1 && s[0] == last && n[0] == 0
      && (forall j :: 0 <= j < Made() ==> StepOk(j))
      && -1 <= s[Made()]
    }

    /** A finished plan: only the root is left. */
    ghost predicate Done(last: nat) {
      Valid(last) && Made() == last && last >= 1 && s[last] == -1 && n[last] == last - 1
    }

    /** What is left to take. */
    lemma {:induction false} Left(last: nat, j: nat)
      requires Valid(last) && j <= Made()
      ensures s[j] + 1 + (j - n[j]) == last + 1 - j
    {
      if j > 0 {
        Left(last, j - 1);
        assert StepOk(j - 1);
      }
    }

    lemma {:induction false} Order(last: nat, a: nat, b: nat)
      requires Valid(last) && a <= b <= Made()
      ensures s[b] <= s[a] && n[a] <= n[b] && (b > 0 ==> n[b] < b)
      decreases b
    {
      if a < b {
        Order(last, a, b - 1);
      }
      if b > 0 {
        assert StepOk(b - 1);
      }
    }

    /** The parent of leaf `i`. */
    lemma {:induction false} LeafParent(last: nat, i: nat, j: nat) returns (q: nat)
      requires Valid(last) && j <= Made() && s[j] < i <= last
      ensures q < j && s[q + 1] < i <= s[q]
    {
      if s[j - 1] < i {
        q := LeafParent(last, i, j - 1);
      } else {
        q := j - 1;
      }
    }

    lemma {:induction false} NodeParent(last: nat, k: nat, j: nat) returns (q: nat)
      requires Valid(last) && j <= Made() && k < n[j]
      ensures q < j && n[q] <= k < n[q + 1] && k < q
    {
      if k < n[j - 1] {
        q := NodeParent(last, k, j - 1);
      } else {
        q := j - 1;
        assert StepOk(q);
      }
    }
  }

  /** Depths of the nodes and of the leaves, from their parents'. */
  ghost predicate Depths(p: Plan, last: nat, node: seq<nat>, leaf: seq<nat>) {
    && p.Done(last) && |node| == last && |leaf| == last + 1 && node[last - 1] == 0
    && forall q :: 0 <= q < last ==> Below(p, node, leaf, q)
  }

  /** One below `q`'s depth for each of its children. */
  ghost predicate Below(p: Plan, node: seq<nat>, leaf: seq<nat>, q: nat)
    requires |p.s| == |p.n| && q + 1 < |p.s| && q < |node|
  {
    && (forall k :: p.n[q] <= k < p.n[q + 1] && k < |node| ==> node[k] == node[q] + 1)
    && (forall i :: p.s[q + 1] < i <= p.s[q] && 0 <= i < |leaf| ==> leaf[i] == node[q] + 1)
  }

  /** Later nodes are not deeper. */
  lemma {:induction false} NodesRise(p: Plan, last: nat, node: seq<nat>, leaf: seq<nat>, a: nat, b: nat)
    requires Depths(p, last, node, leaf) && a <= b < last
    ensures node[b] <= node[a]
    decreases last - a
  {
    if a < b {
      var q := p.NodeParent(last, a, last);
      assert Below(p, node, leaf, q);
      if b < last - 1 {
        var r := p.NodeParent(last, b, last);
        assert Below(p, node, leaf, r);
        if r < q {
          p.Order(last, r + 1, q);
        }
        NodesRise(p, last, node, leaf, q, r);
      }
    }
  }

  /** Later leaves are not higher. */
  lemma LeavesFall(p: Plan, last: nat, node: seq<nat>, leaf: seq<nat>, a: nat, b: nat)
    requires Depths(p, last, node, leaf) && a <= b <= last
    ensures leaf[a] <= leaf[b]
  {
    var q := p.LeafParent(last, a, last);
    var r := p.LeafParent(last, b, last);
    assert Below(p, node, leaf, q) && Below(p, node, leaf, r);
    if q < r {
      p.Order(last, q + 1, r);
    }
    NodesRise(p, last, node, leaf, r, q);
  }

  /** Expanding the nodes from the root down to `j` leaves a whole. */
  ghost function Frontier(p: Plan, node: seq<nat>, leaf: seq<nat>, j: nat, m: Measure): nat
    requires |p.s| == |p.n| && j < |p.s| && -1 <= p.s[j] < |leaf| && p.n[j] <= j <= |node|
  {
    Sum(leaf[..p.s[j] + 1], m) + Sum(node[p.n[j]..j], m)
  }

  /** A slice grows by up to two of the same. */
  lemma GrowsBack(t: seq<nat>, a: nat, b: nat, v: nat, m: Measure)
    requires a <= b <= |t| && b <= a + 2 && forall i :: a <= i < b ==> t[i] == v
    ensures Sum(t[a..b], m) == if b == a then 0 else if b == a + 1 then m.Of(v) else m.Of(v) + m.Of(v)
  {
    hide Sum, Measure.Of;
    SumNone(m);
    SumOne([], v, m);
    SumOne([] + [v], v, m);
    if b == a {
      assert t[a..b] == [];
    } else if b == a + 1 {
      assert t[a..b] == [] + [v];
    } else {
      assert t[a..b] == [] + [v] + [v];
    }
  }

  lemma Joined(t: seq<nat>, a: nat, b: nat, c: nat, m: Measure)
    requires a <= b <= c <= |t|
    ensures Sum(t[a..c], m) == Sum(t[a..b], m) + Sum(t[b..c], m)
  {
    assert t[a..c] == t[a..b] + t[b..c];
    SumAppend(t[a..b], t[b..c], m);
  }

  lemma FrontierStep(p: Plan, last: nat, node: seq<nat>, leaf: seq<nat>, j: nat, u: nat)
    requires Depths(p, last, node, leaf) && j < last && node[j] < u
    ensures -1 <= p.s[j + 1] <= p.s[j] <= last && p.n[j] <= p.n[j + 1] <= j
    ensures Frontier(p, node, leaf, j, Whole(u)) == Frontier(p, node, leaf, j + 1, Whole(u))
  {
    hide Sum;
    var m := Whole(u);
    var v := node[j] + 1;
    p.Order(last, 0, j);
    p.Order(last, j + 1, last);
    assert p.StepOk(j) && Below(p, node, leaf, j);
    var s0, s1, n0, n1 := p.s[j] + 1, p.s[j + 1] + 1, p.n[j], p.n[j + 1];
    Joined(leaf, 0, s1, s0, m);
    assert leaf[0..s1] == leaf[..s1] && leaf[0..s0] == leaf[..s0];
    Joined(node, n0, n1, j, m);
    Joined(node, n1, j, j + 1, m);
    GrowsBack(leaf, s1, s0, v, m);
    GrowsBack(node, n0, n1, v, m);
    GrowsBack(node, j, j + 1, node[j], m);
  }

  lemma {:induction false} FrontierWhole(p: Plan, last: nat, node: seq<nat>, leaf: seq<nat>, j: nat, u: nat)
    requires Depths(p, last, node, leaf) && j <= last && node[0] < u
    ensures -1 <= p.s[j] <= last && p.n[j] <= j
    ensures Frontier(p, node, leaf, j, Whole(u)) == Pow2(u)
    decreases last - j
  {
    p.Order(last, 0, j);
    p.Order(last, j, last);
    if j == last {
      assert node[last - 1..last] == [] + [0];
      SumOne([], 0, Whole(u));
    } else {
      NodesRise(p, last, node, leaf, 0, j);
      FrontierWhole(p, last, node, leaf, j + 1, u);
      FrontierStep(p, last, node, leaf, j, u);
    }
  }

  /** The leaves' depths are the lengths of a complete prefix code. */
  lemma TreeComplete(p: Plan, last: nat, node: seq<nat>, leaf: seq<nat>)
    requires Depths(p, last, node, leaf)
    ensures HuffmanLimit.Complete(leaf, leaf[last])
  {
    assert Below(p, node, leaf, 0) && p.StepOk(0);
    var u := leaf[last];
    p.Order(last, 0, last);
    FrontierWhole(p, last, node, leaf, 0, u);
    assert leaf[..last + 1] == leaf && node[0..0] == [];
    forall a, b | 0 <= a < b < |leaf| ensures leaf[a] <= leaf[b] {
      LeavesFall(p, last, node, leaf, a, b);
    }
    forall a | 0 <= a < |leaf| ensures 1 <= leaf[a] <= u {
      LeavesFall(p, last, node, leaf, a, last);
      var q := p.LeafParent(last, a, last);
      assert Below(p, node, leaf, q);
    }
  }
}
