/** Normalized counts of an FSE table (RFC 8878, section 4.1.1): `-1` marks a
    low-probability symbol, which owns one cell at the top of the table. */
module FseDist {
  import opened Nums

  function Abs(n: int): nat { if n < 0 then -n else n }

  function Pos(n: int): nat { if n < 0 then 0 else n }

  datatype Dist = Dist(norm: seq<int>, log: nat) {
    function Size(): nat { Pow2(log) }

    /** Cells of symbol `s`. */
    function Prob(s: nat): nat { if s < |norm| then Abs(norm[s]) else 0 }

    /** Cells of the symbols below `s`. */
    function Start(s: nat): nat
      requires s <= |norm|
    {
      if s == 0 then 0 else Start(s - 1) + Abs(norm[s - 1])
    }

    /** Low-probability symbols below `s`. */
    function Lows(s: nat): nat
      requires s <= |norm|
    {
      if s == 0 then 0 else Lows(s - 1) + (if norm[s - 1] == -1 then 1 else 0)
    }

    /** The spread cells of the symbols below `s`. */
    function Spreads(s: nat): nat
      requires s <= |norm|
    {
      if s == 0 then 0 else Spreads(s - 1) + Pos(norm[s - 1])
    }

    /** Cells below the low-probability ones. */
    function High(): int { Size() - Lows(|norm|) }

    /** The symbols below `s` in order, each once per spread cell. */
    function Expand(s: nat): (e: seq<int>)
      requires s <= |norm|
      ensures |e| == Spreads(s)
    {
      if s == 0 then [] else Expand(s - 1) + seq(Pos(norm[s - 1]), _ => s - 1)
    }

    /** The counts tile the table. */
    ghost predicate Valid() {
      && 5 <= log <= 9
      && |norm| <= 256
      && (forall s :: 0 <= s < |norm| ==> norm[s] >= -1)
      && Start(|norm|) == Size()
    }
  }

  /** `Start` of every symbol, and of the end. */
  ghost function Starts(d: Dist): (t: seq<nat>)
    ensures |t| == |d.norm| + 1
    ensures forall s {:trigger t[s]} :: 0 <= s <= |d.norm| ==> t[s] == d.Start(s)
  {
    seq(|d.norm| + 1, s requires 0 <= s <= |d.norm| => d.Start(s))
  }

  lemma StartsStep(d: Dist, s: nat)
    requires s < |d.norm|
    ensures Starts(d)[0] == 0 && Starts(d)[s + 1] == Starts(d)[s] + Abs(d.norm[s])
  {
  }

  lemma {:induction false} StartSplits(d: Dist, s: nat)
    requires s <= |d.norm| && forall i :: 0 <= i < |d.norm| ==> d.norm[i] >= -1
    ensures d.Start(s) == d.Lows(s) + d.Spreads(s)
  {
    if s > 0 {
      StartSplits(d, s - 1);
    }
  }

  lemma {:induction false} StartMono(d: Dist, r: nat, s: nat)
    requires r <= s <= |d.norm|
    ensures d.Start(r) <= d.Start(s) && d.Lows(r) <= d.Lows(s) && d.Spreads(r) <= d.Spreads(s)
    ensures r < s ==> d.Start(r) + d.Prob(r) <= d.Start(s)
    decreases s
  {
    if r < s {
      StartMono(d, r, s - 1);
    }
  }

  lemma HighIsSpreads(d: Dist)
    requires d.Valid()
    ensures d.High() == d.Spreads(|d.norm|) && 0 <= d.High() <= d.Size()
  {
    StartSplits(d, |d.norm|);
  }

  lemma {:induction false} ExpandPrefix(d: Dist, s: nat, n: nat)
    requires s <= n <= |d.norm|
    ensures d.Spreads(s) <= d.Spreads(n) && d.Expand(n)[..d.Spreads(s)] == d.Expand(s)
    decreases n
  {
    if s < n {
      ExpandPrefix(d, s, n - 1);
      assert d.Expand(n)[..d.Spreads(s)] == d.Expand(n - 1)[..d.Spreads(s)];
    }
  }

  /** Position `Spreads(s) + c` of the expansion holds `s`. */
  lemma ExpandAt(d: Dist, s: nat, c: nat)
    requires s < |d.norm| && c < Pos(d.norm[s])
    ensures d.Spreads(s) + c < d.Spreads(|d.norm|)
    ensures d.Expand(|d.norm|)[d.Spreads(s) + c] == s
  {
    ExpandPrefix(d, s + 1, |d.norm|);
    var e := d.Expand(|d.norm|);
    assert e[d.Spreads(s) + c] == e[..d.Spreads(s + 1)][d.Spreads(s) + c];
  }

  // Counting

  /** How many of the first `n` entries are `x`. */
  function Occ(t: seq<int>, x: int, n: nat): (c: nat)
    requires n <= |t|
    ensures c <= n
  {
    if n == 0 then 0 else Occ(t, x, n - 1) + (if t[n - 1] == x then 1 else 0)
  }

  lemma {:induction false} OccUpdate(t: seq<int>, u: nat, v: int, x: int, n: nat)
    requires u < |t| && n <= |t|
    ensures Occ(t[u := v], x, n) ==
            Occ(t, x, n) - (if u < n && t[u] == x then 1 else 0) + (if u < n && v == x then 1 else 0)
  {
    if n > 0 {
      OccUpdate(t, u, v, x, n - 1);
    }
  }

  lemma {:induction false} OccMono(t: seq<int>, x: int, m: nat, n: nat)
    requires m <= n <= |t|
    ensures Occ(t, x, m) <= Occ(t, x, n)
    ensures m < n && t[m] == x ==> Occ(t, x, m) < Occ(t, x, n)
    decreases n
  {
    if m < n {
      OccMono(t, x, m, n - 1);
    }
  }

  lemma {:induction false} OccPrefix(a: seq<int>, b: seq<int>, x: int, n: nat)
    requires n <= |a| && n <= |b| && a[..n] == b[..n]
    ensures Occ(a, x, n) == Occ(b, x, n)
  {
    if n > 0 {
      assert a[..n - 1] == a[..n][..n - 1] && b[..n - 1] == b[..n][..n - 1];
      assert a[n - 1] == a[..n][n - 1] && b[n - 1] == b[..n][n - 1];
      OccPrefix(a, b, x, n - 1);
    }
  }

  lemma {:induction false} OccNone(t: seq<int>, x: int, n: nat)
    requires n <= |t| && forall u :: 0 <= u < n ==> t[u] != x
    ensures Occ(t, x, n) == 0
  {
    if n > 0 {
      OccNone(t, x, n - 1);
    }
  }

  lemma {:induction false} OccAll(t: seq<int>, x: int, n: nat)
    requires n <= |t| && forall u :: 0 <= u < n ==> t[u] == x
    ensures Occ(t, x, n) == n
  {
    if n > 0 {
      OccAll(t, x, n - 1);
    }
  }

  lemma {:induction false} OccExpand(d: Dist, n: nat, x: nat)
    requires n <= |d.norm|
    ensures Occ(d.Expand(n), x, |d.Expand(n)|) == if x < n then Pos(d.norm[x]) else 0
  {
    if n > 0 {
      OccExpand(d, n - 1, x);
      var a, b := d.Expand(n - 1), d.Expand(n);
      OccPrefix(a, b, x, |a|);
      OccTail(b, x, |a|, n - 1);
    }
  }

  lemma {:induction false} OccTail(t: seq<int>, x: int, m: nat, v: int)
    requires m <= |t| && forall u :: m <= u < |t| ==> t[u] == v
    ensures Occ(t, x, |t|) == Occ(t, x, m) + (if x == v then |t| - m else 0)
    decreases |t| - m
  {
    if m < |t| {
      OccTail(t, x, m + 1, v);
    }
  }

  /** The position of the `k`-th entry `x`. */
  function Select(t: seq<int>, x: int, k: nat, n: nat): (u: nat)
    requires n <= |t| && k < Occ(t, x, n)
    ensures u < n && t[u] == x && Occ(t, x, u) == k
  {
    if t[n - 1] == x && Occ(t, x, n - 1) == k then n - 1 else Select(t, x, k, n - 1)
  }

  lemma SelectUnique(t: seq<int>, u: nat, n: nat)
    requires u < n <= |t|
    ensures Occ(t, t[u], u) < Occ(t, t[u], n)
    ensures Select(t, t[u], Occ(t, t[u], u), n) == u
  {
    OccMono(t, t[u], u, n);
    var v := Select(t, t[u], Occ(t, t[u], u), n);
    OccMono(t, t[u], if v < u then v else u, if v < u then u else v);
  }
}
