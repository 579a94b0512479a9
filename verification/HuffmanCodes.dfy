/** Canonical prefix codes (RFC 8878, section 4.2.1.3): the codes of a list of
    lengths, and that every window of bits starts with exactly one of them. */
module HuffmanCodes {
  import opened Nums
  import opened Kraft
  import opened FseDist

  /** Code lengths by symbol, 0 for none, that fill the code space. */
  ghost predicate Full(l: seq<nat>, u: nat) {
    AtMost(l, u) && 1 <= u && Sum(l, Coded(u)) == Pow2(u)
  }

  function Count(l: seq<nat>, n: nat): nat { Occ(l, n, |l|) }

  /** One more bit halves every share. */
  lemma {:induction false} CodedFiner(l: seq<nat>, n: nat)
    ensures Sum(l, Coded(n + 1)) == 2 * Sum(l, Coded(n)) + Count(l, n + 1)
  {
    if l != [] {
      var r := l[..|l| - 1];
      CodedFiner(r, n);
      OccPrefix(r, l, n + 1, |r|);
      assert Pow2(0) == 1;
    }
  }

  lemma {:induction false} CodedNone(l: seq<nat>)
    ensures Sum(l, Coded(0)) == 0
  {
    if l != [] {
      CodedNone(l[..|l| - 1]);
    }
  }

  /** The shorter codes leave room for the longer. */
  lemma {:induction false} CodedBound(l: seq<nat>, u: nat, n: nat)
    requires Full(l, u) && n <= u
    ensures Sum(l, Coded(n)) <= Pow2(n)
    decreases u - n
  {
    if n < u {
      CodedBound(l, u, n + 1);
      CodedFiner(l, n);
    }
  }

  /** The first code of `n` bits: what the shorter codes leave. */
  function RankVal(l: seq<nat>, u: nat, n: nat): (v: nat)
    requires Full(l, u) && n <= u
  {
    CodedBound(l, u, n);
    Pow2(n) - Sum(l, Coded(n))
  }

  lemma RankValStep(l: seq<nat>, u: nat, n: nat)
    requires Full(l, u) && 1 <= n <= u
    ensures RankVal(l, u, n) + Count(l, n) == 2 * RankVal(l, u, n - 1)
  {
    CodedFiner(l, n - 1);
  }

  lemma RankValEnds(l: seq<nat>, u: nat)
    requires Full(l, u)
    ensures RankVal(l, u, u) == 0 && RankVal(l, u, 0) == 1
  {
    CodedNone(l);
  }

  /** Shorter codes come after all longer ones. */
  lemma {:induction false} RankValShift(l: seq<nat>, u: nat, m: nat, n: nat)
    requires Full(l, u) && m <= n <= u
    ensures RankVal(l, u, n) <= Shl(RankVal(l, u, m), n - m)
    ensures m < n ==> RankVal(l, u, n) + Count(l, n) <= Shl(RankVal(l, u, m), n - m)
    decreases n - m
  {
    if m < n {
      RankValStep(l, u, n);
      RankValShift(l, u, m, n - 1);
      ShlTwice(RankVal(l, u, m), n - 1 - m);
    }
  }

  /** The code of `s`: within its length, symbols in order. */
  function Value(l: seq<nat>, u: nat, s: nat): (v: nat)
    requires Full(l, u) && s < |l|
  {
    RankVal(l, u, l[s]) + Occ(l, l[s], s)
  }

  lemma ValueFits(l: seq<nat>, u: nat, s: nat)
    requires Full(l, u) && s < |l| && l[s] >= 1
    ensures Value(l, u, s) < RankVal(l, u, l[s]) + Count(l, l[s]) <= Pow2(l[s])
    ensures Value(l, u, s) < Pow2(l[s])
  {
    OccMono(l, l[s], s, |l|);
    RankValShift(l, u, 0, l[s]);
    RankValEnds(l, u);
    ShlPow2(0, l[s]);
  }

  /** A window of `t` bits starts with the code of `s`. */
  ghost predicate Matches(l: seq<nat>, u: nat, t: nat, s: nat, x: nat)
    requires Full(l, u) && u <= t
  {
    s < |l| && l[s] >= 1 && Shr(x, t - l[s]) == Value(l, u, s)
  }

  /** No code is the start of another. */
  lemma PrefixFree(l: seq<nat>, u: nat, t: nat, r: nat, s: nat, x: nat)
    requires Full(l, u) && u <= t && Matches(l, u, t, r, x) && Matches(l, u, t, s, x)
    ensures r == s
  {
    if l[r] <= l[s] {
      OneMatch(l, u, t, r, s, x);
    } else {
      OneMatch(l, u, t, s, r, x);
    }
  }

  lemma OneMatch(l: seq<nat>, u: nat, t: nat, r: nat, s: nat, x: nat)
    requires Full(l, u) && u <= t && Matches(l, u, t, r, x) && Matches(l, u, t, s, x) && l[r] <= l[s]
    ensures r == s
  {
    var m, n := l[r], l[s];
    if m == n {
      SelectUnique(l, r, |l|);
      SelectUnique(l, s, |l|);
    } else {
      ShrShr(x, t - n, n - m);
      ValueFits(l, u, s);
      RankValShift(l, u, m, n);
      ShrBelow(Value(l, u, s), n - m, RankVal(l, u, m));
      assert false;
    }
  }

  /** Some code starts every window. */
  function Symbol(l: seq<nat>, u: nat, t: nat, x: nat): (s: nat)
    requires Full(l, u) && u <= t && x < Pow2(t)
    ensures Matches(l, u, t, s, x)
  {
    RankValEnds(l, u);
    SymbolFrom(l, u, t, x, u)
  }

  lemma SomeCodeLeft(l: seq<nat>, u: nat, t: nat, x: nat, n: nat)
    requires Full(l, u) && 1 <= n <= u <= t && x < Pow2(t) && Shr(x, t - n) >= RankVal(l, u, n) + Count(l, n)
    ensures n >= 2
  {
    RankValStep(l, u, n);
    RankValEnds(l, u);
    ShrBelow(x, t - 1, 2);
    ShlPow2(1, t - 1);
    assert Pow2(1) == 2;
  }

  function SymbolFrom(l: seq<nat>, u: nat, t: nat, x: nat, n: nat): (s: nat)
    requires Full(l, u) && 1 <= n <= u <= t && x < Pow2(t) && RankVal(l, u, n) <= Shr(x, t - n)
    ensures Matches(l, u, t, s, x)
    decreases n
  {
    var v := Shr(x, t - n);
    if v < RankVal(l, u, n) + Count(l, n) then Select(l, n, v - RankVal(l, u, n), |l|)
    else
      RankValStep(l, u, n);
      ShrShr(x, t - n, 1);
      SomeCodeLeft(l, u, t, x, n);
      SymbolFrom(l, u, t, x, n - 1)
  }

  /** The windows that start with a code are a run of cells. */
  lemma MatchRange(l: seq<nat>, u: nat, t: nat, s: nat, x: nat)
    requires Full(l, u) && u <= t && s < |l| && l[s] >= 1
    ensures Matches(l, u, t, s, x) <==>
            Shl(Value(l, u, s), t - l[s]) <= x < Shl(Value(l, u, s) + 1, t - l[s])
  {
    var v, k := Value(l, u, s), t - l[s];
    ShrBelow(x, k, v);
    ShrBelow(x, k, v + 1);
  }
}
