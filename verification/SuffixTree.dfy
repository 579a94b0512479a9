/** The binary tree of a match finder as a value: positions linked to older
    ones, below its suffix and above it. */
module SuffixTree {
  import opened BitSeq
  import opened Suffixes

  datatype Side = Smaller | Larger {
    function Other(): Side { if Smaller? then Larger else Smaller }
  }

  /** The two children, 0 for none. */
  datatype Node = Node(smaller: nat, larger: nat) {
    function Kid(s: Side): nat { if s.Smaller? then smaller else larger }
    function With(s: Side, v: nat): Node { if s.Smaller? then Node(v, larger) else Node(smaller, v) }
  }

  type Tree = map<nat, Node>

  /** `x` may have child `v`. */
  predicate IsLink(t: Tree, x: nat, v: nat) { x > 0 && (v == 0 || (v in t && v < x)) }

  ghost predicate Linked(t: Tree) {
    forall x, s: Side {:trigger t[x].Kid(s)} :: x in t ==> IsLink(t, x, t[x].Kid(s))
  }

  /** What a search from `x` may reach; it does not follow the children of
      nodes at or below `low`, whose entries newer ones have overwritten. */
  ghost function Reach(t: Tree, low: nat, x: nat): set<nat>
    requires Linked(t) && (x == 0 || x in t)
  {
    if x == 0 then {}
    else if x <= low then {x}
    else
      assert t[x].Kid(Smaller) < x && t[x].Kid(Larger) < x;
      {x} + Reach(t, low, t[x].Kid(Smaller)) + Reach(t, low, t[x].Kid(Larger))
  }

  /** On `s`'s side of `y` in the order. */
  predicate Sorted(t: Text, s: Side, x: nat, y: nat) {
    if s.Smaller? then Less(t, x, y) else Less(t, y, x)
  }

  ghost predicate AllSorted(t: Text, s: Side, xs: set<nat>, y: nat) {
    forall x :: x in xs ==> Sorted(t, s, x, y)
  }

  /** A search tree: from every live node, each link leads only to its side. */
  ghost predicate Ordered(text: Text, t: Tree, low: nat)
    requires Linked(t)
  {
    forall x, s: Side {:trigger t[x].Kid(s)} :: x in t && x > low ==> AllSorted(text, s, Reach(t, low, t[x].Kid(s)), x)
  }

  lemma {:induction false} ReachOlder(t: Tree, low: nat, x: nat, z: nat)
    requires Linked(t) && (x == 0 || x in t) && z in Reach(t, low, x)
    ensures z in t && z <= x
  {
    if z != x {
      var s :| z in Reach(t, low, t[x].Kid(s));
      ReachOlder(t, low, t[x].Kid(s), z);
    }
  }

  lemma {:induction false} ReachTrans(t: Tree, low: nat, x: nat, y: nat)
    requires Linked(t) && (x == 0 || x in t) && y in Reach(t, low, x)
    ensures y in t && Reach(t, low, y) <= Reach(t, low, x)
  {
    if y != x {
      var s :| y in Reach(t, low, t[x].Kid(s));
      ReachTrans(t, low, t[x].Kid(s), y);
    }
  }

  /** Ageing only cuts. */
  lemma {:induction false} ReachAged(t: Tree, low: nat, later: nat, x: nat)
    requires Linked(t) && (x == 0 || x in t) && low <= later
    ensures Reach(t, later, x) <= Reach(t, low, x)
  {
    if x > later {
      assert t[x].Kid(Smaller) < x && t[x].Kid(Larger) < x;
      ReachAged(t, low, later, t[x].Kid(Smaller));
      ReachAged(t, low, later, t[x].Kid(Larger));
    }
  }

  lemma OrderedAged(text: Text, t: Tree, low: nat, later: nat)
    requires Linked(t) && Ordered(text, t, low) && low <= later
    ensures Ordered(text, t, later)
  {
    forall x, s: Side | x in t && x > later
      ensures AllSorted(text, s, Reach(t, later, t[x].Kid(s)), x)
    {
      ReachAged(t, low, later, t[x].Kid(s));
      assert AllSorted(text, s, Reach(t, low, t[x].Kid(s)), x);
    }
  }

  // Changing one link

  ghost function Relink(t: Tree, p: nat, s: Side, v: nat): Tree
    requires p in t
  {
    t[p := t[p].With(s, v)]
  }

  lemma RelinkLinked(t: Tree, p: nat, s: Side, v: nat)
    requires Linked(t) && p in t && IsLink(t, p, v)
    ensures Linked(Relink(t, p, s, v))
  {
    var r := Relink(t, p, s, v);
    forall x, q: Side | x in r
      ensures IsLink(r, x, r[x].Kid(q))
    {
      assert IsLink(t, x, t[x].Kid(q));
    }
  }

  /** Older nodes do not see it. */
  lemma {:induction false} RelinkOlder(t: Tree, low: nat, p: nat, s: Side, v: nat, x: nat)
    requires Linked(t) && p in t && IsLink(t, p, v) && (x == 0 || x in t) && p !in Reach(t, low, x)
    ensures Linked(Relink(t, p, s, v)) && Reach(Relink(t, p, s, v), low, x) == Reach(t, low, x)
  {
    RelinkLinked(t, p, s, v);
    if x > low {
      assert t[x].Kid(Smaller) < x && t[x].Kid(Larger) < x;
      RelinkOlder(t, low, p, s, v, t[x].Kid(Smaller));
      RelinkOlder(t, low, p, s, v, t[x].Kid(Larger));
    }
  }

  lemma BelowNotReached(t: Tree, low: nat, p: nat, x: nat)
    requires Linked(t) && (x == 0 || x in t) && x < p
    ensures p !in Reach(t, low, x)
  {
    if p in Reach(t, low, x) {
      ReachOlder(t, low, x, p);
    }
  }

  /** The others gain at most what the new link leads to. */
  lemma {:induction false} RelinkGains(t: Tree, low: nat, p: nat, s: Side, v: nat, x: nat)
    requires Linked(t) && p in t && IsLink(t, p, v) && (x == 0 || x in t)
    ensures Linked(Relink(t, p, s, v)) && Reach(Relink(t, p, s, v), low, x) <= Reach(t, low, x) + Reach(t, low, v)
  {
    RelinkLinked(t, p, s, v);
    if x > low {
      assert t[x].Kid(Smaller) < x && t[x].Kid(Larger) < x;
      RelinkGains(t, low, p, s, v, t[x].Kid(Smaller));
      RelinkGains(t, low, p, s, v, t[x].Kid(Larger));
      if x == p {
        BelowNotReached(t, low, p, v);
        RelinkOlder(t, low, p, s, v, v);
      }
    }
  }

  // Trees whose links lead only where another's did

  ghost predicate Within(t: Tree, low: nat, link: nat, from: nat)
    requires Linked(t) && (from == 0 || from in t)
  {
    link == 0 || link in Reach(t, low, from)
  }

  ghost predicate Part(was: Tree, now: Tree, low: nat)
    requires Linked(was)
  {
    forall x, s: Side {:trigger now[x].Kid(s)} {:trigger was[x].Kid(s)} ::
      x in was ==> x in now && Within(was, low, now[x].Kid(s), was[x].Kid(s))
  }

  lemma {:induction false} PartReach(was: Tree, now: Tree, low: nat, x: nat)
    requires Linked(was) && Linked(now) && Part(was, now, low) && (x == 0 || x in was)
    ensures x == 0 || x in now
    ensures Reach(now, low, x) <= Reach(was, low, x)
    decreases x, 1
  {
    if x > 0 {
      assert was[x].Kid(Smaller) < x;
      if x > low {
        PartLink(was, now, low, x, Smaller);
        PartLink(was, now, low, x, Larger);
      }
    }
  }

  lemma {:induction false} PartLink(was: Tree, now: Tree, low: nat, x: nat, s: Side)
    requires Linked(was) && Linked(now) && Part(was, now, low) && x in was && x in now
    ensures Reach(now, low, now[x].Kid(s)) <= Reach(was, low, was[x].Kid(s))
    decreases x, 0
  {
    var link, from := now[x].Kid(s), was[x].Kid(s);
    assert Within(was, low, link, from);
    if link != 0 {
      assert from != 0 && from < x;
      ReachTrans(was, low, from, link);
      PartReach(was, now, low, link);
    }
  }
}
