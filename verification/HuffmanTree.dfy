/** `HUF_buildTree`: leaves by descending count and the nodes made so far are
    two queues, merged least first. */
module HuffmanTree {
  import opened Nums
  import opened Kraft
  import opened HuffmanNodes
  import opened HuffmanShape
  import HuffmanLimit

  const EMPTY: nat := 0x4000_0000
  const BARRIER: nat := 0x8000_0000

  ghost predicate Descending(s: seq<nat>) { forall i, j :: 0 <= i < j < |s| ==> s[j] <= s[i] }

  /** What is left in the queues. */
  function Rest(c: seq<nat>, e: seq<nat>, lowS: int, lowN: nat): nat
    requires -1 <= lowS < |c| && lowN <= |e|
  {
    Sum(c[..lowS + 1], Amount) + Sum(e[lowN..], Amount)
  }

  /** `x` is at most the heads of both queues. */
  predicate Light(c: seq<nat>, e: seq<nat>, lowS: int, lowN: nat, x: nat) {
    (0 <= lowS < |c| ==> x <= c[lowS]) && (lowN < |e| ==> x <= e[lowN])
  }

  /** Node `j` merged the two least: its children's counts are at most what
      was left in the queues. */
  ghost predicate Greedy(p: Plan, c: seq<nat>, e: seq<nat>, j: nat)
    requires |p.s| == |p.n| && j + 1 < |p.s| && j < |e|
  {
    && (forall i :: p.s[j + 1] < i <= p.s[j] && 0 <= i < |c| ==> Light(c, e[..j], p.s[j + 1], p.n[j + 1], c[i]))
    && (forall k :: p.n[j] <= k < p.n[j + 1] && k < |e| ==> Light(c, e[..j], p.s[j + 1], p.n[j + 1], e[k]))
  }

  /** Node `j` weighs what its children do. */
  ghost predicate Adds(p: Plan, c: seq<nat>, e: seq<nat>, j: nat)
    requires |p.s| == |p.n| && j + 1 < |p.s| && j < |e|
  {
    && -1 <= p.s[j + 1] <= p.s[j] < |c| && p.n[j] <= p.n[j + 1] <= j
    && e[j] == Sum(c[p.s[j + 1] + 1..p.s[j] + 1], Amount) + Sum(e[p.n[j]..p.n[j + 1]], Amount)
  }

  /** Leaf counts `c`, the counts `e` of the nodes made, and the plan. */
  datatype Build = Build(c: seq<nat>, e: seq<nat>, p: Plan) {
    function Last(): int { |c| - 1 }
    function S(): int requires p.s != [] { p.s[|p.s| - 1] }
    function N(): nat requires p.n != [] { p.n[|p.n| - 1] }

    ghost predicate Valid(total: nat) {
      && 2 <= |c| && Descending(c) && Ascending(e) && p.Valid(|c| - 1) && p.Made() == |e| <= Last()
      && S() < |c| && N() <= |e| && Rest(c, e, S(), N()) == total
      && (forall j :: 0 <= j < |e| ==> Greedy(p, c, e, j))
      && forall j :: 0 <= j < |e| ==> Adds(p, c, e, j)
    }

    /** The newest node's parts were at most the heads then. */
    ghost predicate Heads(a: nat, b: nat) {
      && e != [] && p.s != [] && p.n != [] && e[|e| - 1] == a + b && a <= b
      && Light(c, e[..|e| - 1], S(), N(), b)
    }

    ghost function Add(lowS: int, lowN: nat, count: nat): Build {
      Build(c, e + [count], Plan(p.s + [lowS], p.n + [lowN]))
    }
  }

  /** One taken from the head of a queue. */
  ghost predicate Taken(c: seq<nat>, e: seq<nat>, s: int, n: nat, s1: int, n1: nat, count: nat) {
    || (s1 == s - 1 && n1 == n && 0 <= s < |c| && count == c[s])
    || (s1 == s && n1 == n + 1 && n < |e| && count == e[n])
  }

  lemma TakenRest(c: seq<nat>, e: seq<nat>, s: int, n: nat, s1: int, n1: nat, count: nat)
    requires -1 <= s < |c| && n <= |e| && Taken(c, e, s, n, s1, n1, count)
    ensures Rest(c, e, s, n) == count + Rest(c, e, s1, n1)
  {
    if s1 < s {
      assert c[..s + 1] == c[..s] + [c[s]];
      SumOne(c[..s], c[s], Amount);
    } else {
      assert e[n..] == [e[n]] + e[n + 1..];
      SumAppend([e[n]], e[n + 1..], Amount);
      assert [e[n]] == [] + [e[n]];
      SumOne([], e[n], Amount);
    }
  }

  /** The two taken are the children of a new node. */
  lemma AddValid(b: Build, total: nat, x: nat, y: nat, s1: int, n1: nat, c1: nat, s2: int, n2: nat, c2: nat)
    requires b.Valid(total) && |b.e| < b.Last() && (b.e != [] ==> b.Heads(x, y))
    requires Taken(b.c, b.e, b.S(), b.N(), s1, n1, c1) && Light(b.c, b.e, s1, n1, c1)
    requires Taken(b.c, b.e, s1, n1, s2, n2, c2) && Light(b.c, b.e, s2, n2, c2)
    ensures c1 + c2 <= total && b.Add(s2, n2, c1 + c2).Valid(total) && b.Add(s2, n2, c1 + c2).Heads(c1, c2)
  {
    hide Sum, Greedy, Adds, Plan.Valid, Rest;
    var d := b.Add(s2, n2, c1 + c2);
    BuildShape(b, total);
    AddRest(b, s1, n1, c1, s2, n2, c2);
    assert d.e[..|b.e|] == b.e;
    AddRises(b, total, x, y, c1, c2, s1, n1, s2, n2);
    AddPlan(b, total, s2, n2);
    AddSteps(b, total, s1, n1, c1, s2, n2, c2);
  }

  /** Every step of the longer build is greedy, and adds up. */
  lemma AddSteps(b: Build, total: nat, s1: int, n1: nat, c1: nat, s2: int, n2: nat, c2: nat)
    requires b.Valid(total) && |b.e| < b.Last()
    requires Taken(b.c, b.e, b.S(), b.N(), s1, n1, c1) && Light(b.c, b.e, s1, n1, c1)
    requires Taken(b.c, b.e, s1, n1, s2, n2, c2) && Light(b.c, b.e, s2, n2, c2)
    ensures var d := b.Add(s2, n2, c1 + c2);
            && |d.p.s| == |d.p.n| == |d.e| + 1
            && forall j :: 0 <= j < |d.e| ==> Greedy(d.p, d.c, d.e, j) && Adds(d.p, d.c, d.e, j)
  {
    hide Sum, Greedy, Adds, Plan.Valid, Rest, Taken, Light, Ascending, Descending;
    var d := b.Add(s2, n2, c1 + c2);
    BuildShape(b, total);
    assert d.e[..|b.e|] == b.e;
    forall j | 0 <= j < |d.e| ensures Greedy(d.p, d.c, d.e, j) && Adds(d.p, d.c, d.e, j) {
      if j < |b.e| {
        GreedyStays(b, d, total, j);
        AddsStays(b, d, total, j);
      } else {
        GreedyNew(b, total, s1, n1, c1, s2, n2, c2);
        AddsNew(b, total, s1, n1, c1, s2, n2, c2);
      }
    }
  }

  lemma AddsStays(b: Build, d: Build, total: nat, j: nat)
    requires b.Valid(total) && j < |b.e| && d.c == b.c && |d.e| == |b.e| + 1 && d.e[..|b.e|] == b.e
    requires |d.p.s| == |d.p.n| == |b.p.s| + 1 && d.p.s[..|b.p.s|] == b.p.s && d.p.n[..|b.p.n|] == b.p.n
    ensures Adds(d.p, d.c, d.e, j)
  {
    hide Sum, Greedy, Rest, Descending, Ascending;
    assert Adds(b.p, b.c, b.e, j);
    SameSlice(b.e, d.e, b.p.n[j], b.p.n[j + 1]);
    assert d.p.s[j] == d.p.s[..|b.p.s|][j] && d.p.s[j + 1] == d.p.s[..|b.p.s|][j + 1];
    assert d.p.n[j] == d.p.n[..|b.p.n|][j] && d.p.n[j + 1] == d.p.n[..|b.p.n|][j + 1];
    assert d.e[j] == d.e[..|b.e|][j];
  }

  lemma SameSlice(a: seq<nat>, b: seq<nat>, i: nat, j: nat)
    requires i <= j <= |a| <= |b| && b[..|a|] == a
    ensures a[i..j] == b[i..j]
  {
    assert a[i..j] == b[..|a|][i..j];
  }

  /** Taking moves one of the two cursors by one. */
  lemma TakenBack(c: seq<nat>, e: seq<nat>, s: int, n: nat, s1: int, n1: nat, count: nat)
    requires Taken(c, e, s, n, s1, n1, count) && -1 <= s < |c| && n <= |e|
    ensures -1 <= s1 <= s && n <= n1 <= |e|
  {
  }

  lemma AddsNew(b: Build, total: nat, s1: int, n1: nat, c1: nat, s2: int, n2: nat, c2: nat)
    requires b.Valid(total) && |b.e| < b.Last()
    requires Taken(b.c, b.e, b.S(), b.N(), s1, n1, c1) && Taken(b.c, b.e, s1, n1, s2, n2, c2)
    ensures var d := b.Add(s2, n2, c1 + c2); Adds(d.p, d.c, d.e, |b.e|)
  {
    hide Sum, Greedy, Plan.Valid, Adds, Taken, Rest, Build.Valid, Build.Add;
    BuildShape(b, total);
    TakenBack(b.c, b.e, b.S(), b.N(), s1, n1, c1);
    TakenBack(b.c, b.e, s1, n1, s2, n2, c2);
    TakenRest(b.c, b.e, b.S(), b.N(), s1, n1, c1);
    TakenRest(b.c, b.e, s1, n1, s2, n2, c2);
    AddsRest(b.c, b.e, b.S(), b.N(), s2, n2);
    NewAdds(b, s2, n2, c1 + c2);
  }

  lemma NewAdds(b: Build, s2: int, n2: nat, count: nat)
    requires |b.p.s| == |b.p.n| == |b.e| + 1 && -1 <= s2 <= b.S() < |b.c| && b.N() <= n2 <= |b.e|
    requires count == Sum(b.c[s2 + 1..b.S() + 1], Amount) + Sum(b.e[b.N()..n2], Amount)
    ensures var d := b.Add(s2, n2, count); Adds(d.p, d.c, d.e, |b.e|)
  {
    hide Sum;
    var d := b.Add(s2, n2, count);
    assert d.e[b.N()..n2] == b.e[b.N()..n2];
  }

  /** What two cursors have between them. */
  lemma AddsRest(c: seq<nat>, e: seq<nat>, s: int, n: nat, s2: int, n2: nat)
    requires -1 <= s2 <= s < |c| && n <= n2 <= |e|
    ensures Rest(c, e, s, n) == Sum(c[s2 + 1..s + 1], Amount) + Sum(e[n..n2], Amount) + Rest(c, e, s2, n2)
  {
    hide Sum;
    assert c[..s + 1] == c[..s2 + 1] + c[s2 + 1..s + 1];
    assert e[n..] == e[n..n2] + e[n2..];
    SumAppend(c[..s2 + 1], c[s2 + 1..s + 1], Amount);
    SumAppend(e[n..n2], e[n2..], Amount);
  }

  lemma BuildShape(b: Build, total: nat)
    requires b.Valid(total)
    ensures |b.p.s| == |b.p.n| == |b.e| + 1 && -1 <= b.S() < |b.c| && b.N() <= |b.e|
  {
  }

  lemma AddRest(b: Build, s1: int, n1: nat, c1: nat, s2: int, n2: nat, c2: nat)
    requires b.p.s != [] && b.p.n != [] && -1 <= b.S() < |b.c| && b.N() <= |b.e|
    requires Taken(b.c, b.e, b.S(), b.N(), s1, n1, c1) && Taken(b.c, b.e, s1, n1, s2, n2, c2)
    ensures Rest(b.c, b.e, b.S(), b.N()) == Rest(b.c, b.e + [c1 + c2], s2, n2) == c1 + c2 + Rest(b.c, b.e, s2, n2)
  {
    hide Sum;
    TakenRest(b.c, b.e, b.S(), b.N(), s1, n1, c1);
    TakenRest(b.c, b.e, s1, n1, s2, n2, c2);
    assert (b.e + [c1 + c2])[n2..] == b.e[n2..] + [c1 + c2];
    SumOne(b.e[n2..], c1 + c2, Amount);
  }

  lemma GreedyStays(b: Build, d: Build, total: nat, j: nat)
    requires b.Valid(total) && j < |b.e| && d.c == b.c && |d.e| == |b.e| + 1 && d.e[..|b.e|] == b.e
    requires |d.p.s| == |d.p.n| == |b.p.s| + 1 && d.p.s[..|b.p.s|] == b.p.s && d.p.n[..|b.p.n|] == b.p.n
    ensures Greedy(d.p, d.c, d.e, j)
  {
    hide Light;
    assert Greedy(b.p, b.c, b.e, j) && b.p.StepOk(j);
    assert d.e[..j] == d.e[..|b.e|][..j];
    assert d.p.s[j] == d.p.s[..|b.p.s|][j] && d.p.s[j + 1] == d.p.s[..|b.p.s|][j + 1];
    assert d.p.n[j] == d.p.n[..|b.p.n|][j] && d.p.n[j + 1] == d.p.n[..|b.p.n|][j + 1];
    forall k | d.p.n[j] <= k < d.p.n[j + 1] && k < |d.e|
      ensures Light(d.c, d.e[..j], d.p.s[j + 1], d.p.n[j + 1], d.e[k])
    {
      assert d.e[k] == d.e[..|b.e|][k];
    }
  }

  lemma GreedyNew(b: Build, total: nat, s1: int, n1: nat, c1: nat, s2: int, n2: nat, c2: nat)
    requires b.Valid(total) && |b.e| < b.Last()
    requires Taken(b.c, b.e, b.S(), b.N(), s1, n1, c1) && Light(b.c, b.e, s1, n1, c1)
    requires Taken(b.c, b.e, s1, n1, s2, n2, c2) && Light(b.c, b.e, s2, n2, c2)
    ensures var d := b.Add(s2, n2, c1 + c2); Greedy(d.p, d.c, d.e, |b.e|)
  {
    hide Sum, Rest;
    var d := b.Add(s2, n2, c1 + c2);
    assert d.e[..|b.e|] == b.e;
    assert Light(b.c, b.e, s2, n2, c1);
  }

  lemma AddPlan(b: Build, total: nat, s2: int, n2: nat)
    requires b.Valid(total) && -1 <= s2 <= b.S() && b.N() <= n2 <= |b.e| && (b.S() - s2) + (n2 - b.N()) == 2
    ensures Plan(b.p.s + [s2], b.p.n + [n2]).Valid(b.Last())
  {
    var p := Plan(b.p.s + [s2], b.p.n + [n2]);
    forall j | 0 <= j < p.Made() ensures p.StepOk(j) {
      if j < b.p.Made() {
        assert b.p.StepOk(j);
      }
    }
  }

  lemma AddRises(b: Build, total: nat, x: nat, y: nat, c1: nat, c2: nat, s1: int, n1: nat, s2: int, n2: nat)
    requires b.Valid(total) && (b.e != [] ==> b.Heads(x, y))
    requires Taken(b.c, b.e, b.S(), b.N(), s1, n1, c1)
    requires Taken(b.c, b.e, s1, n1, s2, n2, c2)
    ensures Ascending(b.e + [c1 + c2])
  {
    if b.e != [] {
      var k := |b.e| - 1;
      assert b.e[k] <= c1 + c2;
    }
  }

  // The node table

  /** The counts the table holds: nodes not made yet weigh more than any leaf. */
  ghost predicate Counts(nodes: seq<NodeElt>, c: seq<nat>, e: seq<nat>) {
    && |nodes| == HUFF_NODE_TABLE_SIZE && 2 <= |c| <= HUF_SYMBOLVALUE_MAX + 1 && |e| < |c|
    && nodes[0].count == BARRIER
    && (forall i :: 0 <= i < |c| ==> Leaf(nodes, i).count == c[i])
    && (forall k :: 0 <= k < |c| - 1 ==> Inner(nodes, k).count == if k < |e| then e[k] else EMPTY)
  }

  /** The children of node `j` name it as their parent. */
  ghost predicate WiredAt(nodes: seq<NodeElt>, p: Plan, j: nat)
    requires |p.s| == |p.n| && j + 1 < |p.s| && |nodes| == HUFF_NODE_TABLE_SIZE
  {
    && (forall i :: p.s[j + 1] < i <= p.s[j] && 0 <= i < STARTNODE ==> Leaf(nodes, i).parent == STARTNODE + j)
    && (forall k :: p.n[j] <= k < p.n[j + 1] && k < STARTNODE - 1 ==> Inner(nodes, k).parent == STARTNODE + j)
  }

  ghost predicate Wired(nodes: seq<NodeElt>, p: Plan) {
    && |nodes| == HUFF_NODE_TABLE_SIZE && |p.s| == |p.n|
    && forall j :: 0 <= j < |p.s| - 1 ==> WiredAt(nodes, p, j)
  }

  /** The entry of what is taken. */
  function TakenAt(s: int, s1: int, n: nat): int { if s1 < s then s + 1 else STARTNODE + 1 + n }

  /** Take the lighter head; the barrier and the nodes not made yet are never taken. */
  method Pick(nodes: array<NodeElt>, ghost b: Build, nodeNb: nat, s: int, n: nat, ghost total: nat)
    returns (count: nat, s1: int, n1: nat)
    requires Counts(nodes[..], b.c, b.e) && Descending(b.c) && Ascending(b.e)
    requires -1 <= s < |b.c| && n <= |b.e| < b.Last() && s + 1 + |b.e| - n >= 1 && Rest(b.c, b.e, s, n) <= total < EMPTY
    modifies nodes
    ensures Taken(b.c, b.e, s, n, s1, n1, count) && Light(b.c, b.e, s1, n1, count)
    ensures 0 <= TakenAt(s, s1, n) < HUFF_NODE_TABLE_SIZE
    ensures nodes[..] == old(nodes[..])[TakenAt(s, s1, n) := old(nodes[..])[TakenAt(s, s1, n)].(parent := nodeNb)]
  {
    hide Rest;
    RestBounds(b.c, b.e, s, n, total);
    assert s >= 0 ==> Leaf(nodes[..], s).count == b.c[s];
    assert Inner(nodes[..], n).count == if n < |b.e| then b.e[n] else EMPTY;
    if nodes[s + 1].count < nodes[STARTNODE + 1 + n].count {
      nodes[s + 1] := nodes[s + 1].(parent := nodeNb);
      s1, n1 := s - 1, n;
      count := nodes[s + 1].count;
    } else {
      nodes[STARTNODE + 1 + n] := nodes[STARTNODE + 1 + n].(parent := nodeNb);
      s1, n1 := s, n + 1;
      count := nodes[STARTNODE + 1 + n].count;
    }
  }

  lemma RestBounds(c: seq<nat>, e: seq<nat>, s: int, n: nat, total: nat)
    requires -1 <= s < |c| && n <= |e| && Rest(c, e, s, n) <= total
    ensures (s >= 0 ==> c[s] <= total) && (n < |e| ==> e[n] <= total)
  {
    if s >= 0 {
      SumPositive(c[..s + 1], Amount, s);
    }
    if n < |e| {
      SumPositive(e[n..], Amount, 0);
    }
  }

  /** One more node: the two taken, and its count. */
  method MakeNode(nodes: array<NodeElt>, ghost b: Build, ghost total: nat, nodeNb: nat, lowS: int, lowN: nat)
    returns (ghost d: Build, s2: int, n2: nat)
    requires b.Valid(total) && total < EMPTY && |b.e| < b.Last() && Counts(nodes[..], b.c, b.e) && Wired(nodes[..], b.p)
    requires nodeNb == STARTNODE + |b.e| && lowS == b.S() && lowN == b.N()
    requires nodes.Length == HUFF_NODE_TABLE_SIZE && |b.c| <= STARTNODE
    requires b.e != [] ==> exists x: nat, y: nat :: b.Heads(x, y)
    modifies nodes
    ensures d.Valid(total) && d.c == b.c && |d.e| == |b.e| + 1 && Counts(nodes[..], d.c, d.e) && Wired(nodes[..], d.p)
    ensures d.p.s != [] && d.p.n != [] && s2 == d.S() && n2 == d.N() && exists x: nat, y: nat :: d.Heads(x, y)
    ensures SameButTree(old(nodes[..]), nodes[..])
  {
    hide Sum, Rest, Build.Heads, Build.Valid, Light, Greedy, Counts, Wired, SameButTree, Taken, TakenAt;
    NextToMake(b, total);
    ghost var t0 := nodes[..];
    var c1, s1, n1 := Pick(nodes, b, nodeNb, lowS, lowN, total);
    FirstTaken(t0, b, total, lowS, lowN, s1, n1, c1, nodeNb);
    ghost var t1 := nodes[..];
    var c2;
    c2, s2, n2 := Pick(nodes, b, nodeNb, s1, n1, total);
    d := b.Add(s2, n2, c1 + c2);
    ghost var t2 := nodes[..];
    nodes[nodeNb + 1] := nodes[nodeNb + 1].(count := c1 + c2);
    NodeMade(t0, t1, t2, b, total, s1, n1, c1, s2, n2, c2);
  }

  lemma NextToMake(b: Build, total: nat)
    requires b.Valid(total) && |b.e| < b.Last()
    ensures Descending(b.c) && Ascending(b.e) && |b.p.s| == |b.p.n| == |b.e| + 1
    ensures -1 <= b.S() < |b.c| && b.N() <= |b.e| && b.S() + 1 + |b.e| - b.N() >= 2 && Rest(b.c, b.e, b.S(), b.N()) == total
  {
    hide Sum;
    b.p.Left(b.Last(), |b.e|);
  }

  lemma FirstTaken(t: seq<NodeElt>, b: Build, total: nat, s: int, n: nat, s1: int, n1: nat, c1: nat, nodeNb: nat)
    requires Counts(t, b.c, b.e) && -1 <= s < |b.c| && n <= |b.e| && Rest(b.c, b.e, s, n) <= total
    requires Taken(b.c, b.e, s, n, s1, n1, c1) && 0 <= TakenAt(s, s1, n) < |t| && s + 1 + |b.e| - n >= 2
    ensures Counts(t[TakenAt(s, s1, n) := t[TakenAt(s, s1, n)].(parent := nodeNb)], b.c, b.e)
    ensures -1 <= s1 < |b.c| && n1 <= |b.e| && s1 + 1 + |b.e| - n1 >= 1 && Rest(b.c, b.e, s1, n1) <= total
  {
    hide Sum, Rest;
    CountsParent(t, b.c, b.e, TakenAt(s, s1, n), nodeNb);
    TakenRest(b.c, b.e, s, n, s1, n1, c1);
  }

  lemma NodeMade(t0: seq<NodeElt>, t1: seq<NodeElt>, t2: seq<NodeElt>, b: Build, total: nat, s1: int, n1: nat, c1: nat,
                 s2: int, n2: nat, c2: nat)
    requires b.Valid(total) && |b.e| < b.Last() && (b.e != [] ==> exists x: nat, y: nat :: b.Heads(x, y))
    requires Counts(t0, b.c, b.e) && Wired(t0, b.p)
    requires Taken(b.c, b.e, b.S(), b.N(), s1, n1, c1) && Light(b.c, b.e, s1, n1, c1)
    requires Taken(b.c, b.e, s1, n1, s2, n2, c2) && Light(b.c, b.e, s2, n2, c2)
    requires |t1| == |t2| == |t0| && 0 <= TakenAt(b.S(), s1, b.N()) < |t0| && 0 <= TakenAt(s1, s2, n1) < |t0|
    requires t1 == t0[TakenAt(b.S(), s1, b.N()) := t0[TakenAt(b.S(), s1, b.N())].(parent := STARTNODE + |b.e|)]
    requires t2 == t1[TakenAt(s1, s2, n1) := t1[TakenAt(s1, s2, n1)].(parent := STARTNODE + |b.e|)]
    ensures var d, at := b.Add(s2, n2, c1 + c2), STARTNODE + |b.e| + 1;
            && at < |t2| && d.Valid(total) && Counts(t2[at := t2[at].(count := c1 + c2)], d.c, d.e)
            && Wired(t2[at := t2[at].(count := c1 + c2)], d.p) && d.Heads(c1, c2)
            && SameButTree(t0, t2[at := t2[at].(count := c1 + c2)])
  {
    hide Sum, Rest, Build.Heads, Light, Greedy, Ascending, Descending, Wired, Rewired, SameButTree;
    var x: nat, y: nat := 0, 0;
    if b.e != [] {
      x, y :| b.Heads(x, y);
    }
    var nodeNb, s, n := STARTNODE + |b.e|, b.S(), b.N();
    AddValid(b, total, x, y, s1, n1, c1, s2, n2, c2);
    CountsParent(t0, b.c, b.e, TakenAt(s, s1, n), nodeNb);
    CountsParent(t1, b.c, b.e, TakenAt(s1, s2, n1), nodeNb);
    CountsMade(t2, b.c, b.e, nodeNb + 1, c1 + c2);
    var t3 := t2[nodeNb + 1 := t2[nodeNb + 1].(count := c1 + c2)];
    TakenRewired(t0, t1, s, s1, n, n1, |b.e|);
    TakenRewired(t1, t2, s1, s2, n1, n2, |b.e|);
    TwiceRewired(t0, t1, t2, t3, s, s1, s2, n, n1, n2, |b.e|);
    RewiredWired(t0, t3, b, total, s2, n2);
    ParentsOnly(t0, t1, t2, TakenAt(s, s1, n), TakenAt(s1, s2, n1), nodeNb, c1 + c2);
  }

  lemma ParentsOnly(t0: seq<NodeElt>, t1: seq<NodeElt>, t2: seq<NodeElt>, at1: nat, at2: nat, nodeNb: nat, count: nat)
    requires at1 < |t0| && at2 < |t0| && STARTNODE <= nodeNb && nodeNb + 1 < |t0|
    requires t1 == t0[at1 := t0[at1].(parent := nodeNb)] && t2 == t1[at2 := t1[at2].(parent := nodeNb)]
    ensures SameButTree(t0, t2[nodeNb + 1 := t2[nodeNb + 1].(count := count)])
  {
  }

  /** Building changes only counts of the nodes and parents. */
  ghost predicate SameButTree(a: seq<NodeElt>, b: seq<NodeElt>) {
    && |a| == |b|
    && forall i :: 0 <= i < |a| ==>
         b[i] == a[i].(parent := b[i].parent, count := b[i].count) && (i <= STARTNODE ==> b[i].count == a[i].count)
  }

  lemma CountsParent(t: seq<NodeElt>, c: seq<nat>, e: seq<nat>, at: nat, v: nat)
    requires Counts(t, c, e) && at < |t|
    ensures Counts(t[at := t[at].(parent := v)], c, e)
  {
    var u := t[at := t[at].(parent := v)];
    forall i | 0 <= i < |c| ensures Leaf(u, i).count == c[i] {
      assert Leaf(t, i).count == c[i];
    }
    forall k | 0 <= k < |c| - 1 ensures Inner(u, k).count == if k < |e| then e[k] else EMPTY {
      assert Inner(t, k).count == if k < |e| then e[k] else EMPTY;
    }
  }

  lemma CountsMade(t: seq<NodeElt>, c: seq<nat>, e: seq<nat>, at: nat, v: nat)
    requires Counts(t, c, e) && |e| < |c| - 1 && at == STARTNODE + 1 + |e|
    ensures Counts(t[at := t[at].(count := v)], c, e + [v])
  {
    var u := t[at := t[at].(count := v)];
    forall i | 0 <= i < |c| ensures Leaf(u, i).count == c[i] {
      assert Leaf(t, i).count == c[i];
    }
    forall k | 0 <= k < |c| - 1 ensures Inner(u, k).count == if k < |e + [v]| then (e + [v])[k] else EMPTY {
      assert Inner(t, k).count == if k < |e| then e[k] else EMPTY;
    }
  }

  /** The leaves `s2 + 1 ..= s` and the nodes `n .. n2` now name node `j`. */
  ghost predicate Rewired(t: seq<NodeElt>, u: seq<NodeElt>, s: int, s2: int, n: nat, n2: nat, j: nat) {
    && |t| == |u| == HUFF_NODE_TABLE_SIZE
    && (forall i :: 0 <= i < STARTNODE ==> Leaf(u, i).parent == if s2 < i <= s then STARTNODE + j else Leaf(t, i).parent)
    && (forall k :: 0 <= k < STARTNODE - 1 ==> Inner(u, k).parent == if n <= k < n2 then STARTNODE + j else Inner(t, k).parent)
  }

  lemma TakenRewired(t: seq<NodeElt>, u: seq<NodeElt>, s: int, s1: int, n: nat, n1: nat, j: nat)
    requires |t| == HUFF_NODE_TABLE_SIZE && -1 <= s1 <= s < STARTNODE && n <= n1 < STARTNODE && (s - s1) + (n1 - n) == 1
    requires u == t[TakenAt(s, s1, n) := t[TakenAt(s, s1, n)].(parent := STARTNODE + j)]
    ensures Rewired(t, u, s, s1, n, n1, j)
  {
  }

  lemma RewiredWired(t: seq<NodeElt>, u: seq<NodeElt>, b: Build, total: nat, s2: int, n2: nat)
    requires b.Valid(total) && |b.c| <= STARTNODE && Wired(t, b.p)
    requires -1 <= s2 <= b.S() && b.N() <= n2 && Rewired(t, u, b.S(), s2, b.N(), n2, |b.e|)
    ensures Wired(u, Plan(b.p.s + [s2], b.p.n + [n2]))
  {
    hide Sum, Rest, Greedy, Descending, Ascending;
    var p := Plan(b.p.s + [s2], b.p.n + [n2]);
    var j := |b.e|;
    forall q | 0 <= q < |p.s| - 1 ensures WiredAt(u, p, q) {
      if q < j {
        assert WiredAt(t, b.p, q);
        b.p.Order(b.Last(), q + 1, j);
      }
    }
  }

  lemma TwiceRewired(t0: seq<NodeElt>, t1: seq<NodeElt>, t2: seq<NodeElt>, t3: seq<NodeElt>, s: int, s1: int, s2: int,
                     n: nat, n1: nat, n2: nat, j: nat)
    requires s2 <= s1 <= s && n <= n1 <= n2 && Rewired(t0, t1, s, s1, n, n1, j) && Rewired(t1, t2, s1, s2, n1, n2, j)
    requires |t3| == |t2| && j < STARTNODE - 1
    requires t3 == t2[STARTNODE + j + 1 := t2[STARTNODE + j + 1].(count := t3[STARTNODE + j + 1].count)]
    ensures Rewired(t0, t3, s, s2, n, n2, j)
  {
    forall i | 0 <= i < STARTNODE
      ensures Leaf(t3, i).parent == if s2 < i <= s then STARTNODE + j else Leaf(t0, i).parent
    {
      assert Leaf(t3, i).parent == Leaf(t2, i).parent;
      assert Leaf(t2, i).parent == if s2 < i <= s1 then STARTNODE + j else Leaf(t1, i).parent;
    }
    forall k | 0 <= k < STARTNODE - 1
      ensures Inner(t3, k).parent == if n <= k < n2 then STARTNODE + j else Inner(t0, k).parent
    {
      assert Inner(t3, k).parent == Inner(t2, k).parent;
      assert Inner(t2, k).parent == if n1 <= k < n2 then STARTNODE + j else Inner(t1, k).parent;
    }
  }

  function LeafCounts(nodes: seq<NodeElt>, m: nat): (c: seq<nat>)
    requires m < |nodes|
    ensures |c| == m && forall i :: 0 <= i < m ==> c[i] == Leaf(nodes, i).count
  {
    seq(m, i requires 0 <= i < m => Leaf(nodes, i).count)
  }

  ghost function FirstBuild(c: seq<nat>): Build
    requires 2 <= |c|
  {
    Build(c, [c[|c| - 1] + c[|c| - 2]], Plan([|c| - 1, |c| - 3], [0, 0]))
  }

  lemma FirstValid(c: seq<nat>)
    requires 2 <= |c| && Descending(c)
    ensures FirstBuild(c).Valid(Sum(c, Amount)) && FirstBuild(c).Heads(c[|c| - 1], c[|c| - 2])
  {
    hide Sum, Build.Valid, Build.Heads, Build.Add;
    var last := |c| - 1;
    var b := Build(c, [], Plan([last], [0]));
    EmptyValid(b, c);
    FirstIs(b, c);
    AddValid(b, Sum(c, Amount), 0, 0, last - 1, 0, c[last], last - 2, 0, c[last - 1]);
  }

  lemma EmptyValid(b: Build, c: seq<nat>)
    requires 2 <= |c| && Descending(c) && b == Build(c, [], Plan([|c| - 1], [0]))
    ensures b.Valid(Sum(c, Amount))
  {
    hide Sum;
    assert c[..|c|] == c && b.e[0..] == [];
    SumNone(Amount);
  }

  lemma FirstIs(b: Build, c: seq<nat>)
    requires 2 <= |c| && b == Build(c, [], Plan([|c| - 1], [0]))
    ensures b.Add(|c| - 3, 0, c[|c| - 1] + c[|c| - 2]) == FirstBuild(c)
  {
  }

  /** The first node joins the two lightest leaves; the rest are marked. */
  method StartTree(nodes: array<NodeElt>, last: nat) returns (ghost b: Build)
    requires nodes.Length == HUFF_NODE_TABLE_SIZE && 1 <= last < STARTNODE && Descending(LeafCounts(nodes[..], last + 1))
    modifies nodes
    ensures b == FirstBuild(LeafCounts(old(nodes[..]), last + 1))
    ensures Counts(nodes[..], b.c, b.e) && Wired(nodes[..], b.p) && SameButTree(old(nodes[..])[0 := nodes[0]], nodes[..])
    ensures nodes[0] == old(nodes[0]).(count := BARRIER)
  {
    ghost var t := nodes[..];
    b := FirstBuild(LeafCounts(t, last + 1));
    nodes[STARTNODE + 1] := nodes[STARTNODE + 1].(count := nodes[last + 1].count + nodes[last].count);
    nodes[last + 1] := nodes[last + 1].(parent := STARTNODE);
    nodes[last] := nodes[last].(parent := STARTNODE);
    var n := STARTNODE + 1;
    while n <= STARTNODE + last - 1
      invariant STARTNODE + 1 <= n <= STARTNODE + last
      invariant forall i :: 0 <= i < nodes.Length ==>
                  nodes[i] == if STARTNODE + 2 <= i <= n then t[i].(count := EMPTY)
                              else if i == STARTNODE + 1 then t[i].(count := b.e[0])
                              else if i == last + 1 || i == last then t[i].(parent := STARTNODE)
                              else t[i]
    {
      nodes[n + 1] := nodes[n + 1].(count := EMPTY);
      n := n + 1;
    }
    nodes[0] := nodes[0].(count := BARRIER);
    StartCounts(t, nodes[..], b, last);
  }

  lemma StartCounts(t: seq<NodeElt>, u: seq<NodeElt>, b: Build, last: nat)
    requires |t| == |u| == HUFF_NODE_TABLE_SIZE && 1 <= last < STARTNODE && b == FirstBuild(LeafCounts(t, last + 1))
    requires u[0].count == BARRIER
    requires forall i :: 0 < i < |u| ==>
               u[i] == if STARTNODE + 2 <= i <= STARTNODE + last then t[i].(count := EMPTY)
                       else if i == STARTNODE + 1 then t[i].(count := b.e[0])
                       else if i == last + 1 || i == last then t[i].(parent := STARTNODE)
                       else t[i]
    ensures Counts(u, b.c, b.e) && Wired(u, b.p)
  {
    forall k | 0 <= k < |b.c| - 1 ensures Inner(u, k).count == if k < |b.e| then b.e[k] else EMPTY {
    }
    assert WiredAt(u, b.p, 0);
  }

  method SetDepth(nodes: array<NodeElt>, n: nat, ghost t: seq<NodeElt>)
    requires |t| == nodes.Length && n + 1 < nodes.Length && nodes[n + 1] == t[n + 1]
    requires n < t[n + 1].parent && STARTNODE <= t[n + 1].parent < nodes.Length - 1
    modifies nodes
    ensures nodes[..] == old(nodes[..])[n + 1 := t[n + 1].(nbBits := nodes[n + 1].nbBits)] && DeeperBy(nodes[..], t, n)
    ensures forall k {:trigger DeeperBy(nodes[..], t, k)} ::
              k != n && DeeperBy(old(nodes[..]), t, k) && t[k + 1].parent != n ==> DeeperBy(nodes[..], t, k)
  {
    nodes[n + 1] := nodes[n + 1].(nbBits := nodes[nodes[n + 1].parent + 1].nbBits + 1);
  }

  /** Depths of the nodes, from the root down. */
  method SetInner(nodes: array<NodeElt>, last: nat, ghost p: Plan)
    requires nodes.Length == HUFF_NODE_TABLE_SIZE && 1 <= last < STARTNODE && p.Done(last) && Wired(nodes[..], p)
    modifies nodes
    ensures SameButDepths(old(nodes[..]), nodes[..], last) && Inner(nodes[..], last - 1).nbBits == 0
    ensures forall k :: 0 <= k <= STARTNODE ==> nodes[k] == old(nodes[k])
    ensures forall k: nat :: STARTNODE <= k < STARTNODE + last - 1 ==> DeeperBy(nodes[..], old(nodes[..]), k)
  {
    ghost var t := nodes[..];
    ParentsInside(t, last, p);
    nodes[STARTNODE + last] := nodes[STARTNODE + last].(nbBits := 0);
    var n := STARTNODE + last - 1;
    while n > STARTNODE
      invariant STARTNODE <= n <= STARTNODE + last - 1 && SameButDepths(t, nodes[..], last)
      invariant forall i :: 0 <= i < n + 1 ==> nodes[i] == t[i]
      invariant Inner(nodes[..], last - 1).nbBits == 0
      invariant forall k: nat :: n <= k < STARTNODE + last - 1 ==> DeeperBy(nodes[..], t, k)
    {
      n := n - 1;
      assert n < Inner(t, n - STARTNODE).parent < STARTNODE + last;
      ghost var before := nodes[..];
      SetDepth(nodes, n, t);
      forall k: nat | n < k < STARTNODE + last - 1 ensures DeeperBy(nodes[..], t, k) {
        assert DeeperBy(before, t, k);
      }
    }
  }

  /** Depths of the leaves. */
  method SetLeaves(nodes: array<NodeElt>, last: nat, ghost p: Plan, ghost t: seq<NodeElt>)
    requires nodes.Length == HUFF_NODE_TABLE_SIZE && 1 <= last < STARTNODE && p.Done(last) && Wired(t, p)
    requires SameButDepths(t, nodes[..], last) && forall k :: 0 <= k <= STARTNODE ==> nodes[k] == t[k]
    modifies nodes
    ensures SameButDepths(t, nodes[..], last)
    ensures forall k :: STARTNODE < k < nodes.Length ==> nodes[k] == old(nodes[k])
    ensures forall k: nat :: k <= last ==> DeeperBy(nodes[..], t, k)
    ensures forall k {:trigger DeeperBy(nodes[..], t, k)} ::
              STARTNODE <= k && DeeperBy(old(nodes[..]), t, k) ==> DeeperBy(nodes[..], t, k)
  {
    ParentsInside(t, last, p);
    var i := 0;
    while i < last + 1
      invariant 0 <= i <= last + 1 && SameButDepths(t, nodes[..], last)
      invariant forall k :: STARTNODE < k < nodes.Length ==> nodes[k] == old(nodes[k])
      invariant forall k :: i < k <= STARTNODE || k == 0 ==> nodes[k] == t[k]
      invariant forall k: nat :: k < i ==> DeeperBy(nodes[..], t, k)
    {
      assert STARTNODE <= Leaf(t, i).parent < STARTNODE + last;
      ghost var before := nodes[..];
      SetDepth(nodes, i, t);
      forall k: nat | k < i ensures DeeperBy(nodes[..], t, k) {
        assert DeeperBy(before, t, k);
      }
      i := i + 1;
    }
  }

  /** The depths `HUF_buildTree` leaves as lengths. */
  method SetDepths(nodes: array<NodeElt>, last: nat, ghost p: Plan)
    requires nodes.Length == HUFF_NODE_TABLE_SIZE && 1 <= last < STARTNODE && p.Done(last) && Wired(nodes[..], p)
    modifies nodes
    ensures Depths(p, last, InnerLens(nodes[..], last), Lens(nodes[..], last + 1))
    ensures SameButDepths(old(nodes[..]), nodes[..], last)
  {
    ghost var t := nodes[..];
    SetInner(nodes, last, p);
    ghost var inner := nodes[..];
    SetLeaves(nodes, last, p, t);
    forall k: nat | STARTNODE <= k < STARTNODE + last - 1 ensures DeeperBy(nodes[..], t, k) {
      assert DeeperBy(inner, t, k);
    }
    DepthsSet(t, nodes[..], last, p);
  }

  function InnerLens(nodes: seq<NodeElt>, last: nat): (s: seq<nat>)
    requires STARTNODE + last < |nodes|
    ensures |s| == last && forall k :: 0 <= k < last ==> s[k] == Inner(nodes, k).nbBits
  {
    seq(last, k requires 0 <= k < last => Inner(nodes, k).nbBits)
  }

  ghost predicate SameButDepths(a: seq<NodeElt>, b: seq<NodeElt>, last: nat) {
    && |a| == |b|
    && forall i :: 0 <= i < |a| ==>
         b[i] == a[i].(nbBits := b[i].nbBits) && (i == 0 || last + 1 < i <= STARTNODE ==> b[i] == a[i])
  }

  /** Node `n` is one deeper than the parent it had. */
  ghost predicate DeeperBy(u: seq<NodeElt>, t: seq<NodeElt>, n: nat) {
    n + 1 < |u| == |t| && STARTNODE <= t[n + 1].parent < |u| - 1 && n < t[n + 1].parent && u[n + 1].nbBits == u[t[n + 1].parent + 1].nbBits + 1
  }

  lemma ParentsInside(t: seq<NodeElt>, last: nat, p: Plan)
    requires |t| == HUFF_NODE_TABLE_SIZE && 1 <= last < STARTNODE && p.Done(last) && Wired(t, p)
    ensures forall k :: 0 <= k < last - 1 ==> STARTNODE + k < Inner(t, k).parent < STARTNODE + last
    ensures forall i :: 0 <= i <= last ==> STARTNODE <= Leaf(t, i).parent < STARTNODE + last
  {
    forall k | 0 <= k < last - 1 ensures STARTNODE + k < Inner(t, k).parent < STARTNODE + last {
      var q := p.NodeParent(last, k, last);
      assert WiredAt(t, p, q);
    }
    forall i | 0 <= i <= last ensures STARTNODE <= Leaf(t, i).parent < STARTNODE + last {
      var q := p.LeafParent(last, i, last);
      assert WiredAt(t, p, q);
    }
  }

  lemma DepthsSet(t: seq<NodeElt>, u: seq<NodeElt>, last: nat, p: Plan)
    requires |t| == |u| == HUFF_NODE_TABLE_SIZE && 1 <= last < STARTNODE && p.Done(last) && Wired(t, p)
    requires Inner(u, last - 1).nbBits == 0
    requires forall k: nat :: STARTNODE <= k < STARTNODE + last - 1 ==> DeeperBy(u, t, k)
    requires forall i :: 0 <= i <= last ==> DeeperBy(u, t, i)
    ensures Depths(p, last, InnerLens(u, last), Lens(u, last + 1))
  {
    var node, leaf := InnerLens(u, last), Lens(u, last + 1);
    forall q | 0 <= q < last ensures Below(p, node, leaf, q) {
      assert WiredAt(t, p, q);
      p.Order(last, q + 1, last);
      assert Inner(u, q).nbBits == node[q];
      forall k | p.n[q] <= k < p.n[q + 1] && k < |node| ensures node[k] == node[q] + 1 {
        assert Inner(t, k).parent == STARTNODE + q && DeeperBy(u, t, STARTNODE + k);
      }
      forall i | p.s[q + 1] < i <= p.s[q] && 0 <= i < |leaf| ensures leaf[i] == node[q] + 1 {
        assert Leaf(t, i).parent == STARTNODE + q && DeeperBy(u, t, i);
      }
    }
  }

  /** The last leaf with a count. */
  method LastUsed(nodes: array<NodeElt>, maxSymbol: nat) returns (last: nat)
    requires 1 <= maxSymbol && maxSymbol + 1 < nodes.Length && nodes[2].count > 0
    ensures 1 <= last <= maxSymbol && nodes[last + 1].count > 0 && forall i :: last + 1 < i <= maxSymbol + 1 ==> nodes[i].count == 0
  {
    last := maxSymbol;
    while nodes[last + 1].count == 0
      invariant 1 <= last <= maxSymbol && forall i :: last + 1 < i <= maxSymbol + 1 ==> nodes[i].count == 0
      decreases last
    {
      last := last - 1;
    }
  }

  /** `HUF_buildTree`: the greedy merges as `b`, and the depths they give. */
  method BuildTree(nodes: array<NodeElt>, maxSymbol: nat) returns (last: nat, ghost b: Build)
    requires nodes.Length == HUFF_NODE_TABLE_SIZE && 1 <= maxSymbol <= HUF_SYMBOLVALUE_MAX
    requires Descending(LeafCounts(nodes[..], maxSymbol + 1)) && nodes[2].count > 0
    requires Sum(LeafCounts(nodes[..], maxSymbol + 1), Amount) < EMPTY
    modifies nodes
    ensures 1 <= last <= maxSymbol && nodes[last + 1].count > 0 && forall i :: last + 1 < i <= maxSymbol + 1 ==> nodes[i].count == 0
    ensures b.c == LeafCounts(nodes[..], last + 1) && |b.e| == last && b.Valid(Sum(b.c, Amount))
    ensures Depths(b.p, last, InnerLens(nodes[..], last), Lens(nodes[..], last + 1))
    ensures HuffmanLimit.Complete(Lens(nodes[..], last + 1), nodes[last + 1].nbBits)
    ensures forall i :: 1 <= i <= STARTNODE ==> nodes[i].count == old(nodes[i].count) && nodes[i].symbol == old(nodes[i].symbol)
    ensures nodes[0].nbBits == old(nodes[0].nbBits)
    ensures forall i :: last + 1 < i <= STARTNODE ==> nodes[i].nbBits == old(nodes[i].nbBits)
  {
    hide Sum, Greedy, Light, Rest, Build.Valid, Counts, Wired, Depths, Plan.Valid, HuffmanLimit.Complete;
    last := LastUsed(nodes, maxSymbol);
    ghost var t := nodes[..];
    ghost var c := LeafCounts(t, last + 1);
    CountsBelow(t, maxSymbol + 1, last + 1);
    b := StartTree(nodes, last);
    FirstValid(c);
    b := MergeAll(nodes, last, b, Sum(c, Amount));
    ghost var u := nodes[..];
    BuildDone(b, Sum(c, Amount));
    SetDepths(nodes, last, b.p);
    TreeComplete(b.p, last, InnerLens(nodes[..], last), Lens(nodes[..], last + 1));
    assert b.c == LeafCounts(nodes[..], last + 1);
  }

  lemma CountsBelow(t: seq<NodeElt>, m: nat, n: nat)
    requires n <= m < |t| && Descending(LeafCounts(t, m))
    ensures Descending(LeafCounts(t, n)) && Sum(LeafCounts(t, n), Amount) <= Sum(LeafCounts(t, m), Amount)
  {
    var c := LeafCounts(t, m);
    assert c == LeafCounts(t, n) + c[n..];
    SumAppend(LeafCounts(t, n), c[n..], Amount);
  }

  /** One node left: the plan is finished. */
  lemma BuildDone(b: Build, total: nat)
    requires b.Valid(total) && |b.e| == b.Last()
    ensures b.p.Done(b.Last())
  {
    hide Sum, Rest, Greedy;
    b.p.Left(b.Last(), b.Last());
    b.p.Order(b.Last(), 0, b.Last());
  }

  method MergeAll(nodes: array<NodeElt>, last: nat, ghost first: Build, ghost total: nat) returns (ghost b: Build)
    requires nodes.Length == HUFF_NODE_TABLE_SIZE && 1 <= last < STARTNODE && first.Last() == last && total < EMPTY
    requires first.Valid(total) && first == FirstBuild(first.c) && Counts(nodes[..], first.c, first.e) && Wired(nodes[..], first.p)
    modifies nodes
    ensures b.Valid(total) && b.c == first.c && |b.e| == last && Wired(nodes[..], b.p)
    ensures SameButTree(old(nodes[..]), nodes[..])
  {
    hide Sum, Greedy, Light, Rest, Build.Valid, Build.Heads, Counts, Wired;
    b := first;
    var nodeNb, lowS, lowN: nat := STARTNODE + 1, last - 2, 0;
    assert b.Heads(b.c[last], b.c[last - 1]) by {
      BuildAscends(b, total);
      FirstValid(b.c);
    }
    while nodeNb <= STARTNODE + last - 1
      invariant STARTNODE + 1 <= nodeNb <= STARTNODE + last && nodeNb == STARTNODE + |b.e|
      invariant b.Valid(total) && b.c == first.c && Counts(nodes[..], b.c, b.e) && Wired(nodes[..], b.p)
      invariant b.p.s != [] && b.p.n != [] && lowS == b.S() && lowN == b.N() && exists x: nat, y: nat :: b.Heads(x, y)
      invariant SameButTree(old(nodes[..]), nodes[..])
    {
      b, lowS, lowN := MakeNode(nodes, b, total, nodeNb, lowS, lowN);
      nodeNb := nodeNb + 1;
    }
  }

  lemma BuildAscends(b: Build, total: nat)
    requires b.Valid(total)
    ensures Descending(b.c) && 2 <= |b.c|
  {
  }
}
