/** The binary-tree match finder over its two tables: the child table is a
    rolling buffer, a node's entries at its position modulo the buffer's size. */
module BinaryTree {
  import opened Nums
  import opened BitSeq
  import opened Suffixes
  import opened SuffixTree
  import opened TreeWalk
  import opened Counting
  import opened RepCodes

  const HASH_READ_SIZE: nat := 8

  const WINDOW_START_INDEX: nat := 2

  /** The bounds of the window the finder may reach into. */
  datatype Window = Window(low: nat, dictLimit: nat, size: nat, loadedDictEnd: nat) {
    predicate Valid() { low >= WINDOW_START_INDEX }

    /** `ZSTD_getLowestMatchIndex`. */
    function Lowest(cur: nat): (r: nat)
      ensures low <= r
    {
      if loadedDictEnd != 0 then low
      else
        var reach := if cur + 1 < size then 0 else cur + 1 - size;
        if low < reach then reach else low
    }
  }

  /** `bt_low`: the nodes at or below it have lost their entries. */
  function Floor(curr: nat, log: nat): (low: nat)
    ensures low <= curr
  {
    if curr < Pow2(log) - 1 then 0 else curr - (Pow2(log) - 1)
  }

  /** The entry of `x`'s child. */
  function Index(log: nat, x: nat, s: Side): (i: nat)
    ensures i < 2 * Pow2(log)
  {
    2 * Low(x, log) + if s.Smaller? then 0 else 1
  }

  lemma LowDistinct(x: nat, y: nat, n: nat)
    requires x < y < x + Pow2(n)
    ensures Low(x, n) != Low(y, n)
  {
    ShrLow(x, n);
    ShrLow(y, n);
    var p, q := Shr(x, n), Shr(y, n);
    if p < q {
      ShlAdd(p, 1, n);
      ShlPow2(0, n);
      ShlMono(p + 1, q, n);
    } else {
      ShlMono(q, p, n);
    }
  }

  /** Nodes of one window have entries of their own. */
  lemma IndexDistinct(log: nat, curr: nat, x: nat, s: Side, y: nat, q: Side)
    requires x <= curr && y <= curr && (x, s) != (y, q)
    requires x == curr || x > Floor(curr, log)
    requires y == curr || y > Floor(curr, log)
    ensures Index(log, x, s) != Index(log, y, q)
  {
    if x < y {
      LowDistinct(x, y, log);
    } else if y < x {
      LowDistinct(y, x, log);
    }
  }

  /** The table holds the links of every live node, the holes aside. */
  ghost predicate Shown(links: seq<nat>, log: nat, t: Tree, low: nat, a: Hole, b: Hole) {
    && |links| == 2 * Pow2(log)
    && forall x, s: Side {:trigger t[x].Kid(s)} ::
         x in t && x > low && Open(x, s) != a && Open(x, s) != b ==> links[Index(log, x, s)] == t[x].Kid(s)
  }

  ghost predicate ShownBy(links: seq<nat>, log: nat, w: Walk) {
    w.low == Floor(w.curr, log) && Shown(links, log, w.now, w.low, w.smaller, w.larger)
  }

  lemma TakeLinks(w: Walk, s: Side, len: nat, x: nat, r: Side)
    requires w.Trees() && w.at != 0 && w.BothOpen() && w.HoleFits(s)
    requires var v := w.Take(s, len); x in v.now && Open(x, r) != v.smaller && Open(x, r) != v.larger
    ensures if Open(x, r) == w.HoleOf(s) then w.Take(s, len).now[x].Kid(r) == w.at
            else
              && x in w.now && w.Take(s, len).now[x].Kid(r) == w.now[x].Kid(r)
              && Open(x, r) != w.smaller && Open(x, r) != w.larger
  {
  }

  /** The store through a hole's pointer, seen in the table. */
  lemma TakeShown(links: seq<nat>, log: nat, w: Walk, s: Side, len: nat)
    requires w.Valid() && w.BothOpen() && w.at != 0 && ShownBy(links, log, w)
    requires w.HoleFits(s) && w.Take(s, len).Trees()
    ensures w.HoleOf(s).node in w.now
    ensures var i := Index(log, w.HoleOf(s).node, w.HoleOf(s).side);
            ShownBy(links[i := w.at], log, w.Take(s, len))
  {
    hide Floor, Index, Walk.Take;
    var v := w.Take(s, len);
    TakeSame(w, s, len);
    var p, q := w.HoleOf(s).node, w.HoleOf(s).side;
    var now := links[Index(log, p, q) := w.at];
    forall x, r: Side | x in v.now && x > v.low && Open(x, r) != v.smaller && Open(x, r) != v.larger
      ensures now[Index(log, x, r)] == v.now[x].Kid(r)
    {
      TakeLinks(w, s, len, x, r);
      if (x, r) != (p, q) {
        IndexDistinct(log, w.curr, x, r, p, q);
      }
    }
  }

  lemma TakeSame(w: Walk, s: Side, len: nat)
    requires w.Valid() && w.BothOpen() && w.at != 0
    requires w.HoleFits(s) && w.Take(s, len).Trees()
    ensures w.Trees() && w.Take(s, len).low == w.low && w.Take(s, len).curr == w.curr
    ensures forall x :: x in w.Take(s, len).now <==> x in w.now
    ensures forall x :: x in w.now ==> x <= w.curr
    ensures w.HoleOf(s).node in w.now
    ensures w.HoleOf(s).node == w.curr || w.HoleOf(s).node > w.low
  {
  }

  /** The child read through the node's own pointer. */
  lemma TakenNext(links: seq<nat>, log: nat, w: Walk, s: Side)
    requires w.Valid() && w.BothOpen() && w.at != 0 && w.at > w.low && ShownBy(links, log, w)
    ensures w.HoleOf(s).node in w.now
    ensures var i := Index(log, w.HoleOf(s).node, w.HoleOf(s).side);
            links[i := w.at][Index(log, w.at, s.Other())] == w.was[w.at].Kid(s.Other())
  {
    hide Index, Floor;
    assert w.HoleFits(s) && w.HoleFits(s.Other());
    IndexDistinct(log, w.curr, w.at, s.Other(), w.HoleOf(s).node, w.HoleOf(s).side);
    assert w.now[w.at] == w.was[w.at];
    assert links[Index(log, w.at, s.Other())] == w.now[w.at].Kid(s.Other());
  }

  /** `smaller_ptr` and `larger_ptr`, -1 for the dummy entry, and the shared
      bytes of the last nodes they left. */
  datatype Cursors = Cursors(smallerPtr: int, largerPtr: int, commonSmaller: nat, commonLarger: nat) {
    ghost predicate Tracks(w: Walk, log: nat) {
      && PointsTo(smallerPtr, w.smaller, log) && PointsTo(largerPtr, w.larger, log)
      && commonSmaller == w.commonSmaller && commonLarger == w.commonLarger
    }
  }

  ghost predicate PointsTo(ptr: int, hole: Hole, log: nat) {
    if hole.Closed? then ptr == -1 else ptr == Index(log, hole.node, hole.side)
  }

  method Put(links: array<nat>, ptr: int, v: nat)
    requires -1 <= ptr < links.Length
    modifies links
    ensures links[..] == if ptr == -1 then old(links[..]) else old(links[..])[ptr := v]
  {
    if ptr >= 0 {
      links[ptr] := v;
    }
  }

  function SideOf(below: bool): Side { if below then Smaller else Larger }

  /** What taking a node does to the walk and to the table. */
  lemma Descended(links: seq<nat>, log: nat, w: Walk, s: Side, len: nat)
    requires w.Valid() && w.BothOpen() && w.at != 0 && ShownBy(links, log, w)
    requires Sorted(w.text, s, w.at, w.curr) && Shared(w.text, w.at, w.curr, len)
    ensures w.Trees() && w.HoleFits(s) && w.Take(s, len).Valid()
    ensures var h := w.HoleOf(s); ShownBy(links[Index(log, h.node, h.side) := w.at], log, w.Take(s, len))
    ensures |links| == 2 * Pow2(log) && (w.at <= w.low ==> w.Take(s, len).at == w.at)
    ensures var h := w.HoleOf(s);
            w.at > w.low ==>
              && w.Take(s, len).BothOpen()
              && w.Take(s, len).at == links[Index(log, h.node, h.side) := w.at][Index(log, w.at, s.Other())]
  {
    TakeValid(w, s, len);
    TakeShown(links, log, w, s, len);
    if w.at > w.low {
      TakenNext(links, log, w, s);
    }
  }

  /** One node of the search goes to its side of the new position, and the
      search to the child in between. */
  method Descend(links: array<nat>, log: nat, btLow: nat, ghost w: Walk, c: Cursors, at: nat, len: nat, below: bool)
    returns (ghost v: Walk, d: Cursors, next: nat, dead: bool)
    requires w.Valid() && w.BothOpen() && c.Tracks(w, log) && ShownBy(links[..], log, w)
    requires at == w.at != 0 && btLow == w.low
    requires Sorted(w.text, SideOf(below), at, w.curr) && Shared(w.text, at, w.curr, len)
    modifies links
    ensures w.HoleFits(SideOf(below)) && v == w.Take(SideOf(below), len)
    ensures v.Valid() && d.Tracks(v, log) && ShownBy(links[..], log, v)
    ensures dead == (at <= btLow) && next == v.at
    ensures !dead ==> v.BothOpen()
  {
    hide Index, Floor, Walk.Valid, Walk.HoleFits, Walk.Trees, Sorted, ShownBy, Shared;
    ghost var s := SideOf(below);
    Descended(links[..], log, w, s, len);
    v := w.Take(s, len);
    dead := at <= btLow;
    next := at;
    if below {
      Put(links, c.smallerPtr, at);
      d := c.(commonSmaller := len, smallerPtr := if dead then -1 else Index(log, at, Larger));
      if !dead {
        next := links[Index(log, at, Larger)];
      }
    } else {
      Put(links, c.largerPtr, at);
      d := c.(commonLarger := len, largerPtr := if dead then -1 else Index(log, at, Smaller));
      if !dead {
        next := links[Index(log, at, Smaller)];
      }
    }
  }

  /** The finder's tables between insertions: `t` is what they hold, and
      positions from `next` on are still to come. */
  ghost predicate Holds(text: Text, log: nat, hashes: seq<nat>, links: seq<nat>, t: Tree, next: nat) {
    && Linked(t) && Ordered(text, t, Floor(next, log))
    && Shown(links, log, t, Floor(next, log), Closed, Closed)
    && (forall x :: x in t ==> x < next)
    && InTree(hashes, t)
  }

  ghost predicate InTree(hashes: seq<nat>, t: Tree) {
    forall i :: 0 <= i < |hashes| ==> hashes[i] == 0 || hashes[i] in t
  }

  /** Skipping positions only ages the tree. */
  lemma HoldsLater(text: Text, log: nat, hashes: seq<nat>, links: seq<nat>, t: Tree, next: nat, later: nat)
    requires Holds(text, log, hashes, links, t, next) && next <= later
    ensures Holds(text, log, hashes, links, t, later)
  {
    OrderedAged(text, t, Floor(next, log), Floor(later, log));
  }

  /** The tables as a search for `curr` starts. */
  lemma WalkStarts(text: Text, log: nat, hashes: seq<nat>, links: seq<nat>, t: Tree, next: nat, curr: nat, h: nat)
    requires Holds(text, log, hashes, links, t, next) && next <= curr && 0 < curr && h < |hashes|
    ensures var w := Start(text, t, curr, Floor(curr, log), hashes[h]);
            w.Valid() && ShownBy(links, log, w) && hashes[h] < curr
    ensures InTree(hashes, t) && |links| == 2 * Pow2(log) && Linked(t) && (hashes[h] == 0 || hashes[h] in t)
  {
    hide Floor, Index;
    HoldsLater(text, log, hashes, links, t, next, curr);
    StartValid(text, t, curr, Floor(curr, log), hashes[h]);
    var w := Start(text, t, curr, Floor(curr, log), hashes[h]);
    forall x, s: Side | x in w.now && x > w.low && Open(x, s) != w.smaller && Open(x, s) != w.larger
      ensures links[Index(log, x, s)] == w.now[x].Kid(s)
    {
      assert t[x].Kid(s) == w.now[x].Kid(s);
    }
  }

  /** A hole emptied: its link was 0 in the walk's tree all along. */
  function Emptied(links: seq<nat>, hole: Hole, log: nat): seq<nat> {
    if hole.Open? && Index(log, hole.node, hole.side) < |links| then links[Index(log, hole.node, hole.side) := 0] else links
  }

  lemma EmptiedShown(links: seq<nat>, log: nat, w: Walk, a: Hole, b: Hole)
    requires w.Trees() && w.low == Floor(w.curr, log) && Shown(links, log, w.now, w.low, a, b)
    requires a.Open? ==> a.node in w.now && w.now[a.node].Kid(a.side) == 0 && (a.node == w.curr || a.node > w.low)
    ensures Shown(Emptied(links, a, log), log, w.now, w.low, Closed, b)
  {
    hide Floor, Index;
    if a.Open? {
      forall x, s: Side | x in w.now && x > w.low && Open(x, s) != b
        ensures Emptied(links, a, log)[Index(log, x, s)] == w.now[x].Kid(s)
      {
        if Open(x, s) != a {
          IndexDistinct(log, w.curr, x, s, a.node, a.side);
        }
      }
    }
  }

  lemma ShownSwap(links: seq<nat>, log: nat, t: Tree, low: nat, a: Hole, b: Hole)
    requires Shown(links, log, t, low, a, b)
    ensures Shown(links, log, t, low, b, a)
  {
  }

  lemma ClosedShown(links: seq<nat>, log: nat, w: Walk)
    requires w.Valid() && ShownBy(links, log, w)
    ensures Shown(Emptied(Emptied(links, w.smaller, log), w.larger, log), log, w.now, w.low, Closed, Closed)
  {
    hide Shown;
    assert w.HoleFits(Smaller) && w.HoleFits(Larger);
    EmptiedShown(links, log, w, w.smaller, w.larger);
    ShownSwap(Emptied(links, w.smaller, log), log, w.now, w.low, Closed, w.larger);
    EmptiedShown(Emptied(links, w.smaller, log), log, w, w.larger, Closed);
  }

  lemma WalkKeys(w: Walk)
    requires w.Valid()
    ensures w.curr in w.now && (forall x :: x in w.now <==> x == w.curr || x in w.was)
    ensures forall x :: x in w.now ==> x <= w.curr
  {
  }

  /** The tables once the two last holes hold 0. */
  lemma WalkEnds(links: seq<nat>, log: nat, w: Walk, hashes: seq<nat>, h: nat)
    requires w.Valid() && ShownBy(links, log, w) && h < |hashes|
    requires InTree(hashes, w.was)
    ensures Holds(w.text, log, hashes[h := w.curr], Emptied(Emptied(links, w.smaller, log), w.larger, log), w.now, w.curr + 1)
    ensures w.now.Keys == w.was.Keys + {w.curr}
  {
    hide Index;
    ClosedShown(links, log, w);
    SplitOrdered(w);
    WalkKeys(w);
    OrderedAged(w.text, w.now, w.low, Floor(w.curr + 1, log));
  }

  /** `*smaller_ptr = *larger_ptr = 0`. */
  method CloseHoles(links: array<nat>, log: nat, ghost w: Walk, c: Cursors)
    requires c.Tracks(w, log) && links.Length == 2 * Pow2(log)
    modifies links
    ensures links[..] == Emptied(Emptied(old(links[..]), w.smaller, log), w.larger, log)
  {
    hide Index;
    Put(links, c.smallerPtr, 0);
    Put(links, c.largerPtr, 0);
  }

  /** The bytes `at` and the new position share, counted from the guaranteed minimum. */
  method CommonLength(text: Text, ghost w: Walk, c: Cursors, log: nat, at: nat, ip: nat, iend: nat) returns (len: nat)
    requires w.Valid() && w.BothOpen() && c.Tracks(w, log)
    requires text == w.text && at == w.at && 0 < at < ip == w.curr <= iend <= |text|
    requires ip + c.commonSmaller <= iend && ip + c.commonLarger <= iend
    ensures len == Lcp(text, ip, at, iend)
  {
    hide Walk.Valid;
    len := if c.commonSmaller < c.commonLarger then c.commonSmaller else c.commonLarger;
    GuaranteedMinimum(w);
    LcpAfter(text, ip, at, iend, len);
    var more := Count(text, ip + len, at + len, iend);
    len := len + more;
  }

  /** The state of a search that may go on. */
  ghost predicate Searching(text: Text, log: nat, links: seq<nat>, w: Walk, c: Cursors, at: nat, ip: nat, iend: nat) {
    && w.Valid() && c.Tracks(w, log) && ShownBy(links, log, w)
    && w.text == text && w.curr == ip && w.at == at && at < ip
    && ip + c.commonSmaller <= iend && ip + c.commonLarger <= iend
  }

  /** One compare that found a differing byte. */
  method Advance(text: Text, links: array<nat>, log: nat, btLow: nat, ghost w: Walk, c: Cursors, at: nat, ip: nat, iend: nat,
                 len: nat)
    returns (ghost v: Walk, d: Cursors, next: nat, dead: bool)
    requires iend <= |text| && Searching(text, log, links[..], w, c, at, ip, iend) && w.BothOpen()
    requires at != 0 && btLow == w.low && len == Lcp(text, ip, at, iend) && ip + len < iend
    modifies links
    ensures Searching(text, log, links[..], v, d, next, ip, iend) && v.was == w.was && v.low == w.low
    ensures dead == (at <= btLow)
    ensures !dead ==> v.BothOpen() && at in w.was && exists s: Side :: next == w.was[at].Kid(s)
    ensures forall root, best ::
      Watched(w, root, best, iend) && len <= best ==> if dead then AllSeen(w, root, best, iend) else Watched(v, root, best, iend)
  {
    hide Walk.Valid, ShownBy, Sorted;
    LcpShared(text, ip, at, iend);
    LcpDecides(text, ip, at, iend);
    var below := text[at + len] < text[ip + len];
    SideDecided(text, at, ip, len, below);
    v, d, next, dead := Descend(links, log, btLow, w, c, at, len, below);
    TakeBounds(w, SideOf(below), len);
    forall root, best | Watched(w, root, best, iend) && len <= best
      ensures if dead then AllSeen(w, root, best, iend) else Watched(v, root, best, iend)
    {
      TakeWatched(w, SideOf(below), len, root, best, iend);
    }
  }

  lemma SideDecided(text: Text, at: nat, ip: nat, len: nat, below: bool)
    requires if below then Less(text, at, ip) else Less(text, ip, at)
    ensures Sorted(text, SideOf(below), at, ip)
  {
  }

  lemma TakeBounds(w: Walk, s: Side, len: nat)
    requires w.Valid() && w.BothOpen() && w.at != 0 && w.HoleFits(s)
    ensures var v := w.Take(s, len);
            && v.was == w.was && v.low == w.low && v.curr == w.curr && v.text == w.text && v.at < w.curr
            && (w.at > w.low ==> w.at in w.was && v.at == w.was[w.at].Kid(s.Other()))
            && v.commonSmaller == (if s.Smaller? then len else w.commonSmaller)
            && v.commonLarger == (if s.Larger? then len else w.commonLarger)
  {
    assert IsLink(w.was, w.at, w.was[w.at].Kid(s.Other()));
  }

  ghost predicate Watched(w: Walk, root: nat, best: nat, limit: nat) {
    w.Trees() && w.curr <= limit <= |w.text| && (root == 0 || root in w.was) && Seen(w, root, best, limit)
  }

  /** No position the search could have reached shares more than `best` bytes. */
  ghost predicate AllSeen(w: Walk, root: nat, best: nat, limit: nat) {
    && w.Trees() && w.curr <= limit <= |w.text| && (root == 0 || root in w.was)
    && forall z :: z in Reach(w.was, w.low, root) ==> Shares(w, z, limit) <= best
  }

  lemma TakeWatched(w: Walk, s: Side, len: nat, root: nat, best: nat, limit: nat)
    requires w.Valid() && w.BothOpen() && w.at != 0 && w.HoleFits(s) && Sorted(w.text, s, w.at, w.curr)
    requires Watched(w, root, best, limit) && len == Lcp(w.text, w.curr, w.at, limit) <= best
    requires w.Take(s, len).Valid()
    ensures if w.at <= w.low then AllSeen(w, root, best, limit) else Watched(w.Take(s, len), root, best, limit)
  {
    TakeSeen(w, s, len, root, best, limit);
  }

  // The search of the tree

  /** The longest common prefix among the reachable positions the window allows. */
  ghost predicate Longest(q: Query, t: Tree, low: nat, root: nat, best: nat) {
    && Linked(t) && (root == 0 || root in t) && q.ip <= q.limit <= |q.text|
    && forall z :: z in Reach(t, low, root) && q.lowest <= z <= q.ip ==> Lcp(q.text, q.ip, z, q.limit) <= best
  }

  /** The part of the search's invariant that says what was passed over. */
  ghost predicate Passed(q: Query, w: Walk, root: nat, best: nat, left: nat, compares: nat) {
    && Watched(w, root, best, q.limit)
    && (|Reach(w.was, w.low, root)| <= compares ==> |Reach(w.was, w.low, w.at)| <= left)
  }

  lemma LongestAt(q: Query, w: Walk, root: nat, best: nat)
    requires Watched(w, root, best, q.limit) && w.text == q.text && w.curr == q.ip && (w.at == 0 || w.at < q.lowest)
    ensures Longest(q, w.was, w.low, root, best)
  {
    forall z | z in Reach(w.was, w.low, root) && q.lowest <= z <= q.ip
      ensures Lcp(q.text, q.ip, z, q.limit) <= best
    {
      if z in Reach(w.was, w.low, w.at) {
        ReachOlder(w.was, w.low, w.at, z);
      }
      assert Shares(w, z, q.limit) <= best;
    }
  }

  lemma LongestSeen(q: Query, w: Walk, root: nat, best: nat)
    requires AllSeen(w, root, best, q.limit) && w.text == q.text && w.curr == q.ip
    ensures Longest(q, w.was, w.low, root, best)
  {
    forall z | z in Reach(w.was, w.low, root) && q.lowest <= z <= q.ip
      ensures Lcp(q.text, q.ip, z, q.limit) <= best
    {
      assert Shares(w, z, q.limit) <= best;
    }
  }

  /** A child leads to fewer nodes. */
  lemma FewerAhead(t: Tree, low: nat, x: nat, s: Side)
    requires Linked(t) && x in t && x > low
    ensures IsLink(t, x, t[x].Kid(s))
    ensures |Reach(t, low, t[x].Kid(s))| < |Reach(t, low, x)|
  {
    assert IsLink(t, x, t[x].Kid(s));
    var kid := Reach(t, low, t[x].Kid(s));
    BelowNotReached(t, low, x, t[x].Kid(s));
    assert kid < Reach(t, low, x);
    Smaller2(kid, Reach(t, low, x));
  }

  lemma Smaller2(a: set<nat>, b: set<nat>)
    requires a < b
    ensures |a| < |b|
  {
    assert b == a + (b - a);
    var z :| z in b && z !in a;
    assert |b - a| > 0;
  }

  lemma PassedMore(q: Query, w: Walk, root: nat, best: nat, more: nat, left: nat, compares: nat)
    requires Passed(q, w, root, best, left, compares) && best <= more
    ensures Passed(q, w, root, more, left, compares)
  {
    forall z | z in Reach(w.was, w.low, root)
      ensures z in Reach(w.was, w.low, w.at) || Shares(w, z, q.limit) <= more
    {
      assert z in Reach(w.was, w.low, w.at) || Shares(w, z, q.limit) <= best;
    }
  }

  /** With compares enough for every node it could reach, a search finds the
      longest match among them, or one as long as it wants. */
  ghost predicate Exhausted(q: Query, t: Tree, low: nat, root: nat, compares: nat, best: nat, sufficient: nat) {
    && Linked(t) && (root == 0 || root in t)
    && (|Reach(t, low, root)| <= compares ==> best > sufficient || Longest(q, t, low, root, best))
  }

  /** The last of the positions `from..end` that hashes to `slot`. */
  function Latest(hash: nat -> nat, from: nat, end: nat, slot: nat, before: nat): nat {
    if end <= from then before
    else if hash(end - 1) == slot then end - 1
    else Latest(hash, from, end - 1, slot, before)
  }

  lemma StartSearching(q: Query, log: nat, links: seq<nat>, w: Walk, c: Cursors, root: nat, best: nat, compares: nat)
    requires w.Valid() && ShownBy(links, log, w) && q.Valid() && root < q.ip && q.ip <= q.limit <= |q.text|
    requires w == Start(q.text, w.was, q.ip, w.low, root)
    requires c == Cursors(Index(log, q.ip, Smaller), Index(log, q.ip, Larger), 0, 0)
    ensures Searching(q.text, log, links, w, c, root, q.ip, q.limit) && w.BothOpen()
    ensures Passed(q, w, root, best, compares, compares)
  {
  }

  class BtFinder {
    const text: Text
    const log: nat
    const searchLog: nat
    const targetLength: nat
    /** Any hash of the bytes at a position. */
    const hash: nat -> nat
    const hash3: nat -> nat
    const minMatch: nat
    const hashTable: array<nat>
    const links: array<nat>
    const hashTable3: array<nat>
    var window: Window
    var nextToUpdate: nat
    var nextToUpdate3: nat
    /** The tree the tables hold. */
    ghost var tree: Tree

    ghost predicate Ready(next: nat)
      reads this, hashTable, links
    {
      && hashTable != links && hashTable3 != links && hashTable3 != hashTable && window.Valid()
      && (forall p :: hash(p) < hashTable.Length) && (forall p :: hash3(p) < hashTable3.Length)
      && (minMatch == 3 || minMatch == 4)
      && Holds(text, log, hashTable[..], links[..], tree, next)
    }

    ghost predicate Valid()
      reads this, hashTable, links
    {
      Ready(nextToUpdate)
    }

    /** The 3-byte table holds positions before the next one to go in. */
    ghost predicate Ready3()
      reads this, hashTable3
    {
      forall i :: 0 <= i < hashTable3.Length ==> hashTable3[i] == 0 || hashTable3[i] < nextToUpdate3
    }

    /** The finder with empty tables. */
    constructor (text: Text, log: nat, hashLog: nat, hashLog3: nat, searchLog: nat, targetLength: nat, minMatch: nat,
                 hash: nat -> nat, hash3: nat -> nat, window: Window)
      requires window.Valid() && (minMatch == 3 || minMatch == 4)
      requires (forall p :: hash(p) < Pow2(hashLog)) && (forall p :: hash3(p) < Pow2(hashLog3))
      ensures Valid() && Ready3() && this.text == text && this.log == log && tree == map[]
      ensures nextToUpdate == nextToUpdate3 == window.low && fresh(hashTable) && fresh(links) && fresh(hashTable3)
    {
      this.text, this.log, this.searchLog, this.targetLength := text, log, searchLog, targetLength;
      this.hash, this.hash3, this.window, this.minMatch := hash, hash3, window, minMatch;
      hashTable := new nat[Pow2(hashLog)](_ => 0);
      links := new nat[2 * Pow2(log)](_ => 0);
      hashTable3 := new nat[Pow2(hashLog3)](_ => 0);
      nextToUpdate, nextToUpdate3, tree := window.low, window.low, map[];
    }

    /** `ZSTD_insertBt1`: `ip` goes into the tree; how far the caller may move on. */
    method InsertBt1(ip: nat, iend: nat, target: nat) returns (forward: nat)
      requires Ready(ip) && 0 < ip <= target && ip + HASH_READ_SIZE <= iend <= |text|
      modifies this`tree, hashTable, links
      ensures Ready(ip + 1) && forward >= 1
      ensures tree.Keys == old(tree.Keys) + {ip} && hashTable[..] == old(hashTable[..])[hash(ip) := ip]
    {
      hide Walk.Valid, ShownBy, Floor, Index, Holds, Linked, InTree;
      var btLow, windowLow, h := Floor(ip, log), window.Lowest(target), hash(ip);
      var at: nat := hashTable[h];
      WalkStarts(text, log, hashTable[..], links[..], tree, ip, ip, h);
      ghost var w := Start(text, tree, ip, btLow, at);
      var c := Cursors(Index(log, ip, Smaller), Index(log, ip, Larger), 0, 0);
      var matchEndIdx, bestLength, nbCompares := ip + 8 + 1, 8, Pow2(searchLog);
      hashTable[h] := ip;
      while nbCompares > 0 && at >= windowLow
        invariant Searching(text, log, links[..], w, c, at, ip, iend) && w.BothOpen()
        invariant w.was == old(tree) && w.low == btLow && matchEndIdx >= ip + 9 && hashTable[..] == old(hashTable[..])[h := ip]
        decreases nbCompares
      {
        var len := CommonLength(text, w, c, log, at, ip, iend);
        if len > bestLength {
          bestLength := len;
          if len > matchEndIdx - at {
            matchEndIdx := at + len;
          }
        }
        if ip + len == iend {
          break;
        }
        var dead;
        w, c, at, dead := Advance(text, links, log, btLow, w, c, at, ip, iend, len);
        if dead {
          break;
        }
        nbCompares := nbCompares - 1;
      }
      WalkEnds(links[..], log, w, old(hashTable[..]), h);
      CloseHoles(links, log, w, c);
      tree := w.now;
      var positions := if bestLength > 384 then (if bestLength - 384 < 192 then bestLength - 384 else 192) else 0;
      forward := if positions > matchEndIdx - (ip + 8) then positions else matchEndIdx - (ip + 8);
    }

    /** `ZSTD_updateTree_internal`: what was not skipped below `ip` goes in. */
    method UpdateTree(ip: nat, iend: nat)
      requires Valid() && 0 < nextToUpdate <= ip && ip + HASH_READ_SIZE <= iend <= |text|
      modifies this`tree, this`nextToUpdate, hashTable, links
      ensures Valid() && nextToUpdate == ip
      ensures old(tree.Keys) <= tree.Keys
      ensures forall x :: x in tree && x !in old(tree) ==> old(nextToUpdate) <= x < ip
      ensures old(nextToUpdate) < ip ==> old(nextToUpdate) in tree
    {
      hide Holds;
      var idx := nextToUpdate;
      while idx < ip
        invariant nextToUpdate == old(nextToUpdate) <= idx && Ready(if idx < ip then idx else ip)
        invariant old(tree.Keys) <= tree.Keys
        invariant forall x :: x in tree && x !in old(tree) ==> old(nextToUpdate) <= x < ip
        invariant old(nextToUpdate) < idx ==> old(nextToUpdate) in tree
      {
        var forward := InsertBt1(idx, iend, ip);
        var later := if idx + forward < ip then idx + forward else ip;
        HoldsLater(text, log, hashTable[..], links[..], tree, idx + 1, later);
        idx := idx + forward;
      }
      nextToUpdate := ip;
    }

    /** `ZSTD_insertAndFindFirstIndexHash3`. */
    method InsertHash3(ip: nat) returns (index: nat)
      requires Ready3() && nextToUpdate3 <= ip && (forall p :: hash3(p) < hashTable3.Length)
      modifies this`nextToUpdate3, hashTable3
      ensures Ready3() && nextToUpdate3 == ip
      ensures forall i :: 0 <= i < hashTable3.Length ==>
                hashTable3[i] == Latest(hash3, old(nextToUpdate3), ip, i, old(hashTable3[i]))
      ensures index == hashTable3[hash3(ip)]
    {
      var idx := nextToUpdate3;
      while idx < ip
        invariant old(nextToUpdate3) <= idx <= ip && nextToUpdate3 == old(nextToUpdate3)
        invariant forall i :: 0 <= i < hashTable3.Length ==>
                    hashTable3[i] == Latest(hash3, nextToUpdate3, idx, i, old(hashTable3[i]))
        invariant forall i :: 0 <= i < hashTable3.Length ==> hashTable3[i] == 0 || hashTable3[i] < idx
      {
        hashTable3[hash3(idx)] := idx;
        idx := idx + 1;
      }
      nextToUpdate3 := ip;
      index := hashTable3[hash3(ip)];
    }

    ghost function QueryAt(ip: nat, limit: nat, rep: Reps, ll0: bool, ext: bool): Query
      reads this
    {
      Query(text, ip, limit, rep, ll0, window.low, window.Lowest(ip), window.dictLimit, ext, minMatch)
    }

    function SufficientLen(): nat { if targetLength < ZSTD_OPT_NUM - 1 then targetLength else ZSTD_OPT_NUM - 1 }

    /** The 3-byte hash's candidate, tried when no repeat code matched. */
    method TryHash3(q: Query, matches: array<Match>, beat: nat, mnum0: nat, best0: nat)
      returns (mnum: nat, best: nat, done: bool)
      requires q.Valid() && q.lowest > 0 && q.text == text && Ready3() && nextToUpdate3 <= q.ip
      requires (forall p :: hash3(p) < hashTable3.Length) && matches.Length == ZSTD_OPT_SIZE && q.minMatch == 3
      requires Listed(q, matches[..], mnum0, beat, best0) && q.ip + best0 < q.limit && (mnum0 > 0 ==> best0 >= 3)
      modifies this`nextToUpdate3, hashTable3, matches
      ensures Ready3() && nextToUpdate3 <= q.ip
      ensures mnum <= matches.Length && Collected(q, matches[..mnum], beat, best)
      ensures done ==> best > SufficientLen() || q.ip + best == q.limit
      ensures !done ==> Listed(q, matches[..], mnum, beat, best) && q.ip + best < q.limit
    {
      mnum, best, done := mnum0, best0, false;
      if best < 3 {
        var index := InsertHash3(q.ip);
        if index >= q.lowest && q.ip - index < 0x4_0000 {
          var mlen := Count(q.text, q.ip, index, q.limit);
          if mlen >= 3 {
            Record(q, matches, mnum, beat, best, Match(q.ip - index + ZSTD_REP_NUM, mlen));
            mnum, best := mnum + 1, mlen;
            done := mlen > SufficientLen() || q.ip + mlen == q.limit;
          }
        }
      }
    }

    /** The tree part: `ip` becomes its bucket's root. */
    method CollectFromTree(q: Query, matches: array<Match>, beat: nat, mnum0: nat, best0: nat)
      returns (mnum: nat, ghost best: nat)
      requires q.Valid() && q.lowest > 0 && q.text == text && Ready(q.ip)
      requires matches.Length == ZSTD_OPT_SIZE && Listed(q, matches[..], mnum0, beat, best0) && q.ip + best0 < q.limit
      modifies this`tree, this`nextToUpdate, hashTable, links, matches
      ensures Valid() && nextToUpdate > q.ip && tree.Keys == old(tree.Keys) + {q.ip}
      ensures hashTable[..] == old(hashTable[..])[hash(q.ip) := q.ip]
      ensures mnum <= matches.Length && Collected(q, matches[..mnum], beat, best)
      ensures Exhausted(q, old(tree), Floor(q.ip, log), old(hashTable[hash(q.ip)]), Pow2(searchLog), best, SufficientLen())
    {
      hide Floor, Index, Holds, Linked, Collected, Listed, Exhausted;
      var h := hash(q.ip);
      var root: nat := hashTable[h];
      ghost var now;
      var matchEndIdx;
      now, mnum, best, matchEndIdx :=
        SplitTree(q, links, log, Pow2(searchLog), tree, hashTable[..], h, root, matches, mnum0, best0, beat, SufficientLen());
      hashTable[h] := q.ip;
      tree := now;
      HoldsLater(text, log, hashTable[..], links[..], tree, q.ip + 1, matchEndIdx - 8);
      nextToUpdate := matchEndIdx - 8;
    }

    /** `ZSTD_insertBtAndGetAllMatches`. */
    method InsertBtAndGetAllMatches(ip: nat, limit: nat, rep: Reps, ll0: bool, ext: bool, beat: nat, matches: array<Match>)
      returns (mnum: nat, ghost best: nat)
      requires Valid() && Ready3() && nextToUpdate == ip && nextToUpdate3 <= ip && window.low <= ip
      requires QueryAt(ip, limit, rep, ll0, ext).Valid() && 1 <= beat <= HASH_READ_SIZE && matches.Length == ZSTD_OPT_SIZE
      modifies this`tree, this`nextToUpdate, this`nextToUpdate3, hashTable, links, hashTable3, matches
      ensures Valid() && Ready3() && nextToUpdate3 <= ip <= nextToUpdate && old(tree.Keys) <= tree.Keys <= old(tree.Keys) + {ip}
      ensures mnum <= matches.Length && Collected(QueryAt(ip, limit, rep, ll0, ext), matches[..mnum], beat, best)
      ensures Exhausted(QueryAt(ip, limit, rep, ll0, ext), old(tree), Floor(ip, log), old(hashTable[hash(ip)]),
                        Pow2(searchLog), best, SufficientLen())
    {
      hide Floor, Holds, Linked, Collected, Listed, Reach;
      var q := Query(text, ip, limit, rep, ll0, window.low, window.Lowest(ip), window.dictLimit, ext, minMatch);
      LimitIsLongest(q, log, hashTable[..], links[..], tree, hash(ip), Floor(ip, log));
      var longest, done;
      mnum, longest, done := CollectReps(q, matches, beat, SufficientLen());
      best := longest;
      if done {
        return;
      }
      if minMatch == 3 {
        mnum, longest, done := TryHash3(q, matches, beat, mnum, longest);
        best := longest;
        if done {
          HoldsLater(text, log, hashTable[..], links[..], tree, ip, ip + 1);
          nextToUpdate := ip + 1;
          return;
        }
      }
      mnum, best := CollectFromTree(q, matches, beat, mnum, longest);
    }

    /** `ZSTD_btGetAllMatches_internal`: nothing where a long match let the tree skip. */
    method BtGetAllMatches(ip: nat, limit: nat, rep: Reps, ll0: bool, ext: bool, beat: nat, matches: array<Match>)
      returns (mnum: nat, ghost best: nat)
      requires Valid() && Ready3() && 0 < nextToUpdate && nextToUpdate3 <= ip && window.low <= ip
      requires QueryAt(ip, limit, rep, ll0, ext).Valid() && 1 <= beat <= HASH_READ_SIZE && matches.Length == ZSTD_OPT_SIZE
      modifies this`tree, this`nextToUpdate, this`nextToUpdate3, hashTable, links, hashTable3, matches
      ensures Valid() && Ready3() && nextToUpdate >= ip && nextToUpdate3 <= ip
      ensures old(nextToUpdate) > ip ==> mnum == 0 && tree == old(tree) && nextToUpdate == old(nextToUpdate)
      ensures old(tree.Keys) <= tree.Keys && forall x :: x in tree && x !in old(tree) ==> old(nextToUpdate) <= x <= ip
      ensures mnum <= ZSTD_OPT_SIZE && Collected(QueryAt(ip, limit, rep, ll0, ext), matches[..mnum], beat, best)
    {
      hide Floor, Holds, Linked, Listed, Reach, Exhausted;
      mnum, best := 0, beat - 1;
      if ip >= nextToUpdate {
        UpdateTree(ip, limit);
        mnum, best := InsertBtAndGetAllMatches(ip, limit, rep, ll0, ext, beat, matches);
      }
    }
  }


  // Collecting matches

  const ZSTD_OPT_NUM: nat := 4096
  const ZSTD_OPT_SIZE: nat := ZSTD_OPT_NUM + 3
  const ZSTD_REP_NUM: nat := 3
  const WORD: nat := 0x1_0000_0000

  /** `off` is a repeat code or an offset plus 3. */
  datatype Match = Match(off: nat, len: nat)

  /** What a search is for: the position, its limit and its history. */
  datatype Query = Query(text: Text, ip: nat, limit: nat, rep: Reps, ll0: bool, low: nat, lowest: nat, dictLimit: nat, ext: bool,
                         minMatch: nat) {
    predicate Valid() {
      && 0 < ip && ip + HASH_READ_SIZE <= limit <= |text| && |text| < WORD && low <= ip && low <= lowest
      && (minMatch == 3 || minMatch == 4) && rep.r0 < WORD && rep.r1 < WORD && rep.r2 < WORD
    }

    /** The repeat offsets tried, in order: after no literals the first is not
        among them, but its predecessor is, 0 wrapping around. */
    function RepOffset(repCode: nat): nat {
      match repCode
      case 0 => rep.r0
      case 1 => rep.r1
      case 2 => rep.r2
      case _ => (rep.r0 + WORD - 1) % WORD
    }

    function First(): nat { if ll0 then 1 else 0 }

    /** The distance a match's `off` stands for. */
    function Distance(off: nat): nat
    {
      if off > ZSTD_REP_NUM then off - ZSTD_REP_NUM else if off == 0 then 0 else RepOffset(off - 1 + First())
    }

    /** A common prefix of exactly this length, at a position the window allows. */
    predicate Real(m: Match) {
      && 1 <= Distance(m.off) <= ip && ip <= limit <= |text| && ip - Distance(m.off) >= lowest
      && m.len == Lcp(text, ip, ip - Distance(m.off), limit)
    }

    /** Usable repeat offsets. */
    predicate RepUsable(o: nat) {
      && 1 <= o <= ip && ip - o >= lowest && ip <= limit <= |text|
      && (ext ==> IndexOverlapCheck(dictLimit, ip - o))
      && Lcp(text, ip, ip - o, limit) >= minMatch
    }
  }

  /** `ZSTD_index_overlap_check`, in 32 bits. */
  predicate IndexOverlapCheck(prefixLowest: nat, repIndex: nat) {
    (prefixLowest - 1 - repIndex) % WORD >= 3
  }

  /** A repeat code is the decoder's for the same history. */
  lemma DistanceIsRepeat(q: Query, off: nat)
    requires q.Valid() && 1 <= off <= 3 && q.rep.r0 >= 1
    ensures q.Distance(off) == UpdateRep(q.rep, off, q.ll0).r0
  {
  }

  /** The matches collected: each real, each longer than the one before. */
  ghost predicate Collected(q: Query, ms: seq<Match>, beat: nat, best: nat) {
    && (forall i :: 0 <= i < |ms| ==> q.Real(ms[i]) && beat <= ms[i].len)
    && (forall i :: 0 < i < |ms| ==> ms[i - 1].len < ms[i].len)
    && best == if ms == [] then beat - 1 else ms[|ms| - 1].len
  }

  lemma CollectOne(q: Query, ms: seq<Match>, beat: nat, best: nat, m: Match)
    requires Collected(q, ms, beat, best) && q.Real(m) && m.len > best && beat >= 1
    ensures Collected(q, ms + [m], beat, m.len)
  {
  }

  /** No more matches than lengths. */
  lemma {:induction false} CollectedCount(q: Query, ms: seq<Match>, beat: nat, best: nat)
    requires Collected(q, ms, beat, best) && beat >= 1
    ensures |ms| + beat - 1 <= best
  {
    if ms != [] {
      var before := ms[..|ms| - 1];
      CollectedCount(q, before, beat, if before == [] then beat - 1 else before[|before| - 1].len);
    }
  }

  /** Room for one more match. */
  ghost predicate Listed(q: Query, matches: seq<Match>, mnum: nat, beat: nat, best: nat) {
    && |matches| == ZSTD_OPT_SIZE && mnum <= |matches| && 1 <= beat
    && Collected(q, matches[..mnum], beat, best)
    && (mnum > 0 ==> best <= ZSTD_OPT_NUM)
  }

  lemma ListedFits(q: Query, matches: seq<Match>, mnum: nat, beat: nat, best: nat)
    requires Listed(q, matches, mnum, beat, best)
    ensures mnum <= ZSTD_OPT_NUM
  {
    CollectedCount(q, matches[..mnum], beat, best);
  }

  method Record(q: Query, matches: array<Match>, mnum: nat, ghost beat: nat, ghost best: nat, m: Match)
    requires Listed(q, matches[..], mnum, beat, best) && q.Real(m) && m.len > best
    modifies matches
    ensures mnum < ZSTD_OPT_NUM + 1 && Collected(q, matches[..mnum + 1], beat, m.len)
    ensures m.len <= ZSTD_OPT_NUM ==> Listed(q, matches[..], mnum + 1, beat, m.len)
  {
    ListedFits(q, matches[..], mnum, beat, best);
    ghost var before := matches[..mnum];
    matches[mnum] := m;
    assert matches[..mnum + 1] == before + [m];
    CollectOne(q, before, beat, best, m);
  }

  /** One repeat offset: the length of its match, 0 for none. */
  method TryRep(q: Query, repOffset: nat) returns (repLen: nat)
    requires q.Valid() && repOffset < WORD
    ensures repLen == if q.RepUsable(repOffset) then Lcp(q.text, q.ip, q.ip - repOffset, q.limit) else 0
  {
    hide Lcp, Word;
    repLen := 0;
    if (repOffset + WORD - 1) % WORD < q.ip - q.low {
      var repIndex := q.ip - repOffset;
      MinMatchShared(q.text, q.ip, repIndex, q.minMatch, q.limit);
      if repIndex >= q.lowest && (!q.ext || IndexOverlapCheck(q.dictLimit, repIndex))
         && ReadMinMatch(q.text, q.ip, q.minMatch) == ReadMinMatch(q.text, repIndex, q.minMatch)
      {
        LcpAfter(q.text, q.ip, repIndex, q.limit, q.minMatch);
        repLen := Count(q.text, q.ip + q.minMatch, repIndex + q.minMatch, q.limit);
        repLen := repLen + q.minMatch;
      } else if repIndex >= q.lowest && Lcp(q.text, q.ip, repIndex, q.limit) >= q.minMatch {
        LcpShared(q.text, q.ip, repIndex, q.limit);
        SharedFewer(q.text, repIndex, q.ip, q.minMatch, Lcp(q.text, q.ip, repIndex, q.limit));
      }
    }
  }

  /** No usable repeat offset before code `to` has a match longer than `best`. */
  ghost predicate RepsBeaten(q: Query, to: nat, best: nat) {
    q.Valid()
    && forall c: nat :: q.First() <= c < to && c < q.First() + 3 && q.RepUsable(q.RepOffset(c)) ==>
         Lcp(q.text, q.ip, q.ip - q.RepOffset(c), q.limit) <= best
  }

  lemma NoneListed(q: Query, matches: seq<Match>, beat: nat)
    requires q.Valid() && |matches| == ZSTD_OPT_SIZE && 1 <= beat <= HASH_READ_SIZE
    ensures Listed(q, matches, 0, beat, beat - 1) && q.ip + beat - 1 < q.limit && RepsBeaten(q, q.First(), beat - 1)
    ensures Collected(q, matches[..0], beat, beat - 1)
  {
  }

  lemma RepInWord(q: Query, c: nat)
    requires q.Valid() && q.First() <= c < q.First() + 3
    ensures q.RepOffset(c) < WORD
  {
  }

  lemma OneMoreBeaten(q: Query, c: nat, best: nat, len: nat)
    requires RepsBeaten(q, c, best) && q.First() <= c < q.First() + 3 && q.RepOffset(c) < WORD
    requires len == if q.RepUsable(q.RepOffset(c)) then Lcp(q.text, q.ip, q.ip - q.RepOffset(c), q.limit) else 0
    ensures RepsBeaten(q, c + 1, if len > best then len else best)
  {
    hide Query.Valid, Query.RepUsable, Query.RepOffset;
  }

  lemma RepReal(q: Query, c: nat, len: nat)
    requires q.Valid() && q.First() <= c < q.First() + 3 && len > 0
    requires len == if q.RepUsable(q.RepOffset(c)) then Lcp(q.text, q.ip, q.ip - q.RepOffset(c), q.limit) else 0
    ensures q.Real(Match(c - q.First() + 1, len)) && len >= q.minMatch && q.ip + len <= q.limit
  {
    assert q.Distance(c - q.First() + 1) == q.RepOffset(c);
  }

  /** The repeat codes. */
  method CollectReps(q: Query, matches: array<Match>, beat: nat, sufficientLen: nat)
    returns (mnum: nat, best: nat, done: bool)
    requires q.Valid() && matches.Length == ZSTD_OPT_SIZE && 1 <= beat <= HASH_READ_SIZE && sufficientLen < ZSTD_OPT_NUM
    modifies matches
    ensures mnum <= matches.Length && Collected(q, matches[..mnum], beat, best)
    ensures done ==> best > sufficientLen || q.ip + best == q.limit
    ensures !done ==> Listed(q, matches[..], mnum, beat, best) && q.ip + best < q.limit
    ensures mnum > 0 ==> best >= q.minMatch
    ensures !done ==> RepsBeaten(q, q.First() + 3, best)
  {
    hide Collected, Query.Valid, Query.RepUsable, Query.RepOffset, Query.Real, RepsBeaten;
    NoneListed(q, matches[..], beat);
    mnum, best, done := 0, beat - 1, false;
    var repCode := q.First();
    while repCode < ZSTD_REP_NUM + q.First()
      invariant q.First() <= repCode <= ZSTD_REP_NUM + q.First()
      invariant Listed(q, matches[..], mnum, beat, best) && q.ip + best < q.limit
      invariant mnum > 0 ==> best >= q.minMatch
      invariant RepsBeaten(q, repCode, best)
    {
      RepInWord(q, repCode);
      var repLen := TryRep(q, q.RepOffset(repCode));
      OneMoreBeaten(q, repCode, best, repLen);
      if repLen > best {
        var m := Match(repCode - q.First() + 1, repLen);
        RepReal(q, repCode, repLen);
        Record(q, matches, mnum, beat, best, m);
        best, mnum := repLen, mnum + 1;
        if repLen > sufficientLen || q.ip + repLen == q.limit {
          return mnum, best, true;
        }
      }
      repCode := repCode + 1;
    }
  }

  /** A compare that gave a longer match than all before. */
  method KeepBest(q: Query, matches: array<Match>, mnum: nat, beat: nat, best: nat, at: nat, len: nat, matchEndIdx: nat)
    returns (n: nat, longer: nat, end: nat)
    requires q.Valid() && q.lowest <= at < q.ip && len == Lcp(q.text, q.ip, at, q.limit)
    requires Listed(q, matches[..], mnum, beat, best) && q.ip + 9 <= matchEndIdx
    modifies matches
    ensures n <= mnum + 1 <= matches.Length && Collected(q, matches[..n], beat, longer)
    ensures longer == (if len > best then len else best) && q.ip + 9 <= end
    ensures longer <= ZSTD_OPT_NUM || longer == best ==> Listed(q, matches[..], n, beat, longer)
  {
    ListedFits(q, matches[..], mnum, beat, best);
    n, longer, end := mnum, best, matchEndIdx;
    if len > best {
      if len > matchEndIdx - at {
        end := at + len;
      }
      Record(q, matches, mnum, beat, best, Match(q.ip - at + ZSTD_REP_NUM, len));
      n, longer := mnum + 1, len;
    }
  }

  /** The walk of `ZSTD_insertBtAndGetAllMatches`: it splits the tree, and
      unless the compares run out, nothing longer than its best is there. */
  method SearchTree(q: Query, links: array<nat>, log: nat, btLow: nat, compares: nat, ghost w0: Walk, c0: Cursors, root: nat,
                    matches: array<Match>, mnum0: nat, best0: nat, beat: nat)
    returns (ghost w: Walk, c: Cursors, mnum: nat, best: nat, matchEndIdx: nat)
    requires q.Valid() && Searching(q.text, log, links[..], w0, c0, root, q.ip, q.limit) && w0.BothOpen()
    requires btLow == w0.low && q.lowest > 0 && Passed(q, w0, root, best0, compares, compares)
    requires Listed(q, matches[..], mnum0, beat, best0) && q.ip + best0 < q.limit
    modifies links, matches
    ensures w.Valid() && c.Tracks(w, log) && ShownBy(links[..], log, w)
    ensures w.was == w0.was && w.text == q.text && w.curr == q.ip && w.low == btLow
    ensures mnum <= matches.Length && Collected(q, matches[..mnum], beat, best)
    ensures q.ip + 9 <= matchEndIdx
    ensures |Reach(w.was, btLow, root)| <= compares ==> best > ZSTD_OPT_NUM || Longest(q, w.was, btLow, root, best)
  {
    hide Walk.Valid, ShownBy, Lcp, Seen, Reach;
    w, c, mnum, best, matchEndIdx := w0, c0, mnum0, best0, q.ip + 8 + 1;
    var at: nat, nbCompares: nat := root, compares;
    while nbCompares > 0 && at >= q.lowest
      invariant Searching(q.text, log, links[..], w, c, at, q.ip, q.limit) && w.BothOpen()
      invariant w.was == w0.was && w.low == btLow
      invariant Listed(q, matches[..], mnum, beat, best) && q.ip + best < q.limit && q.ip + 9 <= matchEndIdx
      invariant Passed(q, w, root, best, nbCompares, compares)
      decreases nbCompares
    {
      var len := CommonLength(q.text, w, c, log, at, q.ip, q.limit);
      var shorter := best;
      mnum, best, matchEndIdx := KeepBest(q, matches, mnum, beat, best, at, len, matchEndIdx);
      PassedMore(q, w, root, shorter, best, nbCompares, compares);
      if len > shorter && (len > ZSTD_OPT_NUM || q.ip + len == q.limit) {
        WholeLength(q, w, root, best);
        return;
      }
      ghost var v := w;
      var dead;
      w, c, at, dead := Advance(q.text, links, log, btLow, w, c, at, q.ip, q.limit, len);
      if dead {
        LongestSeen(q, v, root, best);
        return;
      }
      PassedOn(q, v, w, root, best, nbCompares, compares);
      nbCompares := nbCompares - 1;
    }
    LongestEnd(q, w, root, best, nbCompares, compares);
  }

  lemma PassedOn(q: Query, v: Walk, w: Walk, root: nat, best: nat, left: nat, compares: nat)
    requires Passed(q, v, root, best, left, compares) && Watched(w, root, best, q.limit) && left > 0
    requires w.was == v.was && w.low == v.low && v.at in v.was && v.at > v.low
    requires exists s: Side :: w.at == v.was[v.at].Kid(s)
    ensures Passed(q, w, root, best, left - 1, compares)
  {
    var s: Side :| w.at == v.was[v.at].Kid(s);
    FewerAhead(v.was, v.low, v.at, s);
  }

  lemma LongestEnd(q: Query, w: Walk, root: nat, best: nat, left: nat, compares: nat)
    requires Passed(q, w, root, best, left, compares) && w.text == q.text && w.curr == q.ip
    requires left == 0 || w.at < q.lowest
    ensures |Reach(w.was, w.low, root)| <= compares ==> Longest(q, w.was, w.low, root, best)
  {
    if w.at != 0 && |Reach(w.was, w.low, root)| <= compares {
      assert w.at in Reach(w.was, w.low, w.at);
    }
    if |Reach(w.was, w.low, root)| <= compares {
      LongestAt(q, w, root, best);
    }
  }

  /** A match up to the limit is the longest. */
  lemma WholeLength(q: Query, w: Walk, root: nat, best: nat)
    requires Watched(w, root, best, q.limit) && w.curr == q.ip && w.text == q.text
    ensures q.ip + best == q.limit ==> Longest(q, w.was, w.low, root, best)
  {
  }

  /** The search with its start and its end: the tree before, the tree after. */
  method SplitTree(q: Query, links: array<nat>, log: nat, compares: nat, ghost t: Tree, ghost hashes: seq<nat>, ghost h: nat,
                   root: nat, matches: array<Match>, mnum0: nat, best0: nat, beat: nat, ghost sufficient: nat)
    returns (ghost now: Tree, mnum: nat, ghost best: nat, matchEndIdx: nat)
    requires q.Valid() && q.lowest > 0 && Holds(q.text, log, hashes, links[..], t, q.ip) && sufficient <= ZSTD_OPT_NUM
    requires h < |hashes| && hashes[h] == root && Listed(q, matches[..], mnum0, beat, best0) && q.ip + best0 < q.limit
    modifies links, matches
    ensures Holds(q.text, log, hashes[h := q.ip], links[..], now, q.ip + 1) && now.Keys == t.Keys + {q.ip}
    ensures q.ip + 9 <= matchEndIdx && mnum <= matches.Length && Collected(q, matches[..mnum], beat, best)
    ensures Exhausted(q, t, Floor(q.ip, log), root, compares, best, sufficient)
  {
    hide Walk.Valid, ShownBy, Floor, Index, Holds, InTree, Searching, Collected, Listed;
    hide Passed, Longest;
    var btLow := Floor(q.ip, log);
    WalkStarts(q.text, log, hashes, links[..], t, q.ip, q.ip, h);
    ghost var w := Start(q.text, t, q.ip, btLow, root);
    var c := Cursors(Index(log, q.ip, Smaller), Index(log, q.ip, Larger), 0, 0);
    StartSearching(q, log, links[..], w, c, root, best0, compares);
    w, c, mnum, best, matchEndIdx := SearchTree(q, links, log, btLow, compares, w, c, root, matches, mnum0, best0, beat);
    WalkEnds(links[..], log, w, hashes, h);
    CloseHoles(links, log, w, c);
    now := w.now;
  }

  /** Before the search: a match that reaches the limit is as long as can be. */
  lemma LimitIsLongest(q: Query, log: nat, hashes: seq<nat>, links: seq<nat>, t: Tree, h: nat, low: nat)
    requires q.Valid() && Holds(q.text, log, hashes, links, t, q.ip) && h < |hashes|
    ensures forall best, compares, sufficient ::
              best > sufficient || q.ip + best == q.limit ==> Exhausted(q, t, low, hashes[h], compares, best, sufficient)
  {
  }
}
