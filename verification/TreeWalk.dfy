/** One insertion into a tree: the search down from the bucket's old root,
    which splits the old tree around the new position. */
module TreeWalk {
  import opened BitSeq
  import opened Suffixes
  import opened SuffixTree

  /** A link still to be written, or none after a dead node. */
  datatype Hole = Closed | Open(node: nat, side: Side)

  /** The old tree, the tree so far, and the node looked at. Each side has
      the hole the next node of that side goes into, and the bytes the last
      one shares with the new position. */
  datatype Walk = Walk(text: Text, was: Tree, now: Tree, curr: nat, low: nat, at: nat,
                       smaller: Hole, larger: Hole, commonSmaller: nat, commonLarger: nat) {
    function HoleOf(s: Side): Hole { if s.Smaller? then smaller else larger }
    function Common(s: Side): nat { if s.Smaller? then commonSmaller else commonLarger }

    ghost predicate Trees() {
      && Linked(was) && Linked(now) && Ordered(text, was, low) && low <= curr
      && curr in now && curr !in was && now.Keys == was.Keys + {curr}
      && (at == 0 || at in was)
      && forall x :: x in was ==> x < curr
    }

    ghost predicate Shape() {
      && Trees()
      && Part(was, now, low)
      && (forall x :: x in was && x <= at ==> now[x] == was[x])
      && (forall s: Side :: AllSorted(text, s, Reach(now, low, now[curr].Kid(s)), curr))
    }

    /** An open hole takes whatever the search may still reach. */
    ghost predicate HoleFits(s: Side)
      requires Trees()
    {
      match HoleOf(s)
      case Closed => true
      case Open(p, q) =>
        && p in now && now[p].Kid(q) == 0 && at < p
        && if p == curr then q == s && Common(s) == 0
           else
             && q == s.Other() && p > low && Sorted(text, s, p, curr) && Shared(text, p, curr, Common(s))
             && (at == 0 || at in Reach(was, low, was[p].Kid(q)))
    }

    ghost predicate Valid() { Shape() && HoleFits(Smaller) && HoleFits(Larger) }

    ghost predicate BothOpen() { smaller.Open? && larger.Open? }

    /** `at` goes into the hole of side `s`; the search goes on to its child
        on the other side, unless its children are gone. */
    ghost function Take(s: Side, len: nat): Walk
      requires Trees() && HoleOf(s).Open? && HoleFits(s) && at != 0
    {
      var Open(p, q) := HoleOf(s);
      var cut := if at > low then Relink(now, at, s.Other(), 0) else now;
      var w := this.(now := Relink(cut, p, q, at), at := if at > low then was[at].Kid(s.Other()) else at);
      var hole := if at > low then Open(at, s.Other()) else Closed;
      if s.Smaller? then w.(smaller := hole, commonSmaller := len) else w.(larger := hole, commonLarger := len)
    }
  }

  ghost function Start(text: Text, t: Tree, curr: nat, low: nat, root: nat): Walk {
    Walk(text, t, t[curr := Node(0, 0)], curr, low, root, Open(curr, Smaller), Open(curr, Larger), 0, 0)
  }

  lemma StartValid(text: Text, t: Tree, curr: nat, low: nat, root: nat)
    requires Linked(t) && Ordered(text, t, low) && (root == 0 || root in t) && low <= curr && curr > 0
    requires forall x :: x in t ==> x < curr
    ensures Start(text, t, curr, low, root).Valid()
  {
    var w := Start(text, t, curr, low, root);
    forall x, s: Side | x in w.now ensures IsLink(w.now, x, w.now[x].Kid(s)) {
      if x in t {
        assert IsLink(t, x, t[x].Kid(s));
      }
    }
    forall x, s: Side | x in t ensures Within(t, low, w.now[x].Kid(s), t[x].Kid(s)) {
      assert IsLink(t, x, t[x].Kid(s));
    }
  }

  /** Everything still to be reached shares what both sides' last nodes do. */
  lemma GuaranteedMinimum(w: Walk)
    requires w.Valid() && w.BothOpen() && w.at != 0
    ensures Shared(w.text, w.at, w.curr, if w.commonSmaller < w.commonLarger then w.commonSmaller else w.commonLarger)
  {
    var k := if w.commonSmaller < w.commonLarger then w.commonSmaller else w.commonLarger;
    var a, b := w.smaller.node, w.larger.node;
    if a != w.curr && b != w.curr {
      assert AllSorted(w.text, Larger, Reach(w.was, w.low, w.was[a].Kid(Larger)), a);
      assert AllSorted(w.text, Smaller, Reach(w.was, w.low, w.was[b].Kid(Smaller)), b);
      SharedFewer(w.text, a, w.curr, k, w.commonSmaller);
      SharedFewer(w.text, b, w.curr, k, w.commonLarger);
      Sandwich(w.text, a, w.at, b, w.curr, k);
    }
  }

  /** Cutting `at` from its other child. */
  lemma CutShape(w: Walk, s: Side)
    requires w.Valid() && w.at != 0 && w.at > w.low
    ensures Linked(Relink(w.now, w.at, s, 0))
    ensures Part(w.was, Relink(w.now, w.at, s, 0), w.low)
    ensures forall x :: x in w.now ==> Reach(Relink(w.now, w.at, s, 0), w.low, x) <= Reach(w.now, w.low, x)
  {
    var cut := Relink(w.now, w.at, s, 0);
    RelinkLinked(w.now, w.at, s, 0);
    forall x | x in w.now ensures Reach(cut, w.low, x) <= Reach(w.now, w.low, x) {
      RelinkGains(w.now, w.low, w.at, s, 0, x);
    }
    forall x, q: Side | x in w.was ensures Within(w.was, w.low, cut[x].Kid(q), w.was[x].Kid(q)) {
      assert IsLink(w.was, x, w.was[x].Kid(q));
      assert Within(w.was, w.low, w.now[x].Kid(q), w.was[x].Kid(q));
    }
  }

  lemma SortedTransitive(text: Text, s: Side, x: nat, y: nat, z: nat)
    requires Sorted(text, s, x, y) && Sorted(text, s, y, z)
    ensures Sorted(text, s, x, z)
  {
    if s.Smaller? {
      LessTransitive(text, x, y, z);
    } else {
      LessTransitive(text, z, y, x);
    }
  }

  lemma SortedOneSide(text: Text, s: Side, x: nat, y: nat)
    requires Sorted(text, s, x, y)
    ensures !Sorted(text, s.Other(), x, y)
  {
    if s.Smaller? {
      LessAsymmetric(text, x, y);
    } else {
      LessAsymmetric(text, y, x);
    }
  }

  /** The part of the walk's invariant that writing a hole has to keep. */
  ghost predicate Splits(text: Text, was: Tree, now: Tree, curr: nat, low: nat) {
    && Linked(was) && Linked(now) && curr in now && curr !in was && now.Keys == was.Keys + {curr}
    && Part(was, now, low)
    && forall s: Side :: AllSorted(text, s, Reach(now, low, now[curr].Kid(s)), curr)
  }

  /** Writing `at` into an empty hole of side `s`, when all it leads to is on that side. */
  lemma FillSplits(text: Text, was: Tree, now: Tree, curr: nat, low: nat, at: nat, s: Side, p: nat, q: Side)
    requires Splits(text, was, now, curr, low) && at in was && at < p && p in now && now[p].Kid(q) == 0
    requires AllSorted(text, s, Reach(now, low, at), curr)
    requires if p == curr then q == s else Sorted(text, s, p, curr) && at in Reach(was, low, was[p].Kid(q))
    ensures Splits(text, was, Relink(now, p, q, at), curr, low)
  {
    var fill := Relink(now, p, q, at);
    RelinkLinked(now, p, q, at);
    forall x, r: Side | x in was ensures Within(was, low, fill[x].Kid(r), was[x].Kid(r)) {
      assert Within(was, low, now[x].Kid(r), was[x].Kid(r));
    }
    forall r: Side ensures AllSorted(text, r, Reach(fill, low, fill[curr].Kid(r)), curr) {
      FillSorted(text, was, now, curr, low, at, s, p, q, r);
    }
  }

  lemma FillSorted(text: Text, was: Tree, now: Tree, curr: nat, low: nat, at: nat, s: Side, p: nat, q: Side, r: Side)
    requires Splits(text, was, now, curr, low) && at in was && at < p && p in now && now[p].Kid(q) == 0
    requires AllSorted(text, s, Reach(now, low, at), curr)
    requires if p == curr then q == s else Sorted(text, s, p, curr)
    ensures Linked(Relink(now, p, q, at))
    ensures AllSorted(text, r, Reach(Relink(now, p, q, at), low, Relink(now, p, q, at)[curr].Kid(r)), curr)
  {
    hide Sorted;
    var fill := Relink(now, p, q, at);
    var link := now[curr].Kid(r);
    RelinkLinked(now, p, q, at);
    assert IsLink(now, curr, link) && AllSorted(text, r, Reach(now, low, link), curr);
    BelowNotReached(now, low, p, at);
    if p == curr {
      BelowNotReached(now, low, p, link);
      RelinkOlder(now, low, p, q, at, if r == s then at else link);
    } else if r == s {
      RelinkGains(now, low, p, q, at, link);
    } else {
      SortedOneSide(text, s, p, curr);
      RelinkOlder(now, low, p, q, at, link);
    }
  }

  lemma OneKid(t: Tree, low: nat, x: nat, s: Side)
    requires Linked(t) && x in t && x > low && t[x].Kid(s.Other()) == 0
    ensures Reach(t, low, x) == {x} + Reach(t, low, t[x].Kid(s))
  {
    assert IsLink(t, x, t[x].Kid(s));
  }

  /** All that `at` leads to once cut from its other child is on its side. */
  lemma CutSorted(w: Walk, s: Side)
    requires w.Valid() && w.at != 0 && w.at > w.low && Sorted(w.text, s, w.at, w.curr)
    ensures Linked(Relink(w.now, w.at, s.Other(), 0))
    ensures AllSorted(w.text, s, Reach(Relink(w.now, w.at, s.Other(), 0), w.low, w.at), w.curr)
  {
    hide Sorted, Walk.HoleFits;
    var cut := Relink(w.now, w.at, s.Other(), 0);
    CutShape(w, s.Other());
    var kid := w.was[w.at].Kid(s);
    assert IsLink(w.was, w.at, kid) && cut[w.at].Kid(s) == kid && cut[w.at].Kid(s.Other()) == 0;
    PartReach(w.was, cut, w.low, kid);
    OneKid(cut, w.low, w.at, s);
    assert AllSorted(w.text, s, Reach(w.was, w.low, kid), w.at);
    forall z | z in Reach(cut, w.low, w.at) ensures Sorted(w.text, s, z, w.curr) {
      if z != w.at {
        SortedTransitive(w.text, s, z, w.at, w.curr);
      }
    }
  }

  lemma CutSplits(w: Walk, s: Side)
    requires w.Valid() && w.at != 0 && w.at > w.low
    ensures Splits(w.text, w.was, Relink(w.now, w.at, s, 0), w.curr, w.low)
  {
    hide Sorted, Walk.HoleFits, AllSorted, Reach, Part;
    CutShape(w, s);
    forall r: Side ensures AllSorted(w.text, r, Reach(Relink(w.now, w.at, s, 0), w.low, w.now[w.curr].Kid(r)), w.curr) {
      CutSide(w, s, r);
    }
  }

  lemma CutSide(w: Walk, s: Side, r: Side)
    requires w.Valid() && w.at != 0 && w.at > w.low
    ensures var now, kid := Relink(w.now, w.at, s, 0), w.now[w.curr].Kid(r);
            Linked(now) && (kid == 0 || kid in now) && AllSorted(w.text, r, Reach(now, w.low, kid), w.curr)
  {
    hide Sorted, Walk.HoleFits;
    CutShape(w, s);
    assert IsLink(w.now, w.curr, w.now[w.curr].Kid(r));
    assert AllSorted(w.text, r, Reach(w.now, w.low, w.now[w.curr].Kid(r)), w.curr);
  }

  lemma TakeSplits(w: Walk, s: Side, len: nat)
    requires w.Valid() && w.BothOpen() && w.at != 0 && Sorted(w.text, s, w.at, w.curr)
    ensures Splits(w.text, w.was, w.Take(s, len).now, w.curr, w.low)
  {
    hide Sorted;
    assert w.HoleFits(s) && w.HoleOf(s).Open?;
    var Open(p, q) := w.HoleOf(s);
    if w.at > w.low {
      CutSorted(w, s);
      CutSplits(w, s.Other());
      FillSplits(w.text, w.was, Relink(w.now, w.at, s.Other(), 0), w.curr, w.low, w.at, s, p, q);
    } else {
      FillSplits(w.text, w.was, w.now, w.curr, w.low, w.at, s, p, q);
    }
  }

  /** The new hole is the taken node's cut link. */
  lemma TakeFits(w: Walk, s: Side, len: nat)
    requires w.Valid() && w.BothOpen() && w.at != 0 && w.HoleFits(s)
    requires Sorted(w.text, s, w.at, w.curr) && Shared(w.text, w.at, w.curr, len)
    requires w.Take(s, len).Trees()
    ensures w.Take(s, len).HoleFits(s)
  {
    var v := w.Take(s, len);
    if w.at > w.low {
      var link := w.was[w.at].Kid(s.Other());
      assert IsLink(w.was, w.at, link);
    }
  }

  /** The other hole still takes what is left. */
  lemma TakeKeeps(w: Walk, s: Side, len: nat)
    requires w.Valid() && w.BothOpen() && w.at != 0 && w.HoleFits(s) && w.HoleFits(s.Other())
    requires Sorted(w.text, s, w.at, w.curr)
    requires w.Take(s, len).Trees()
    ensures w.Take(s, len).HoleFits(s.Other())
  {
    hide Sorted, AllSorted, Ordered, Splits;
    var p, b := w.HoleOf(s).node, w.HoleOf(s.Other()).node;
    if p != w.curr {
      SortedOneSide(w.text, s, p, w.curr);
    }
    if w.at > w.low {
      var link := w.was[w.at].Kid(s.Other());
      assert IsLink(w.was, w.at, link);
      if b != w.curr {
        ReachTrans(w.was, w.low, w.was[b].Kid(w.HoleOf(s.Other()).side), w.at);
      }
    }
  }

  /** The invariant of the search. */
  lemma TakeValid(w: Walk, s: Side, len: nat)
    requires w.Valid() && w.BothOpen() && w.at != 0
    requires Sorted(w.text, s, w.at, w.curr) && Shared(w.text, w.at, w.curr, len)
    ensures w.HoleFits(s) && w.Take(s, len).Valid()
  {
    hide Sorted, AllSorted, Reach, Ordered, Part;
    assert w.HoleFits(s) && w.HoleFits(s.Other());
    TakeShape(w, s, len);
    TakeFits(w, s, len);
    TakeKeeps(w, s, len);
    var v := w.Take(s, len);
    assert v.HoleFits(s) && v.HoleFits(s.Other());
  }

  lemma TakeShape(w: Walk, s: Side, len: nat)
    requires w.Valid() && w.BothOpen() && w.at != 0 && Sorted(w.text, s, w.at, w.curr)
    ensures w.HoleFits(s) && w.Take(s, len).Shape()
  {
    hide Sorted, AllSorted, Reach, Part;
    TakeSplits(w, s, len);
    assert w.HoleFits(s);
    var v := w.Take(s, len);
    assert IsLink(w.was, w.at, w.was[w.at].Kid(s.Other()));
  }

  /** The split tree is a search tree again, the new position its root. */
  lemma SplitOrdered(w: Walk)
    requires w.Valid()
    ensures Ordered(w.text, w.now, w.low)
  {
    hide Sorted;
    forall x, s: Side | x in w.now && x > w.low
      ensures AllSorted(w.text, s, Reach(w.now, w.low, w.now[x].Kid(s)), x)
    {
      if x != w.curr {
        PartLink(w.was, w.now, w.low, x, s);
        assert AllSorted(w.text, s, Reach(w.was, w.low, w.was[x].Kid(s)), x);
      }
    }
  }

  // What a search that was not cut short has seen

  /** Whatever is not ahead of the search shares no more than `best` bytes. */
  ghost predicate Seen(w: Walk, root: nat, best: nat, limit: nat)
    requires w.Trees() && w.curr <= limit <= |w.text| && (root == 0 || root in w.was)
  {
    forall z :: z in Reach(w.was, w.low, root) ==> z in Reach(w.was, w.low, w.at) || Shares(w, z, limit) <= best
  }

  ghost function Shares(w: Walk, z: nat, limit: nat): nat
    requires w.curr <= limit <= |w.text|
  {
    if z <= w.curr then Lcp(w.text, w.curr, z, limit) else 0
  }

  /** All of `at`'s subtree on the far side shares no more than `at`. */
  lemma FarSide(w: Walk, s: Side, z: nat, limit: nat)
    requires w.Valid() && w.at != 0 && w.at > w.low && Sorted(w.text, s, w.at, w.curr) && w.curr <= limit <= |w.text|
    requires z in Reach(w.was, w.low, w.was[w.at].Kid(s))
    ensures Shares(w, z, limit) <= Shares(w, w.at, limit)
  {
    assert AllSorted(w.text, s, Reach(w.was, w.low, w.was[w.at].Kid(s)), w.at);
    ReachOlder(w.was, w.low, w.was[w.at].Kid(s), z);
    FartherShares(w.text, z, w.at, w.curr, limit);
  }

  lemma TakeSeen(w: Walk, s: Side, len: nat, root: nat, best: nat, limit: nat)
    requires w.Valid() && w.at != 0 && w.HoleOf(s).Open? && Sorted(w.text, s, w.at, w.curr) && w.HoleFits(s)
    requires w.curr <= limit <= |w.text| && (root == 0 || root in w.was) && w.Take(s, len).Trees()
    requires Seen(w, root, best, limit) && Shares(w, w.at, limit) <= best
    ensures w.at > w.low ==> Seen(w.Take(s, len), root, best, limit)
    ensures w.at <= w.low ==> forall z :: z in Reach(w.was, w.low, root) ==> Shares(w, z, limit) <= best
  {
    if w.at > w.low {
      forall z | z in Reach(w.was, w.low, root) && z !in Reach(w.was, w.low, w.was[w.at].Kid(s.Other()))
        ensures Shares(w, z, limit) <= best
      {
        if z in Reach(w.was, w.low, w.was[w.at].Kid(s)) {
          FarSide(w, s, z, limit);
        }
      }
    }
  }
}
