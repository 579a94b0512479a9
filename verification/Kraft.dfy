/** Sums over lists of code lengths: what a set of codes takes of the code
    space, in units of the smallest. */
module Kraft {
  import opened Nums

  /** What one length adds: its share of 2^u units, the same when below `u`
      or when not 0, or 1 when it is `u`; or a count itself. */
  datatype Measure = Whole(u: nat) | Short(u: nat) | Coded(u: nat) | Exactly(u: nat) | Amount {
    function Of(b: nat): nat {
      match this
      case Whole(u) => if b <= u then Pow2(u - b) else 0
      case Short(u) => if b < u then Pow2(u - b) else 0
      case Coded(u) => if 1 <= b <= u then Pow2(u - b) else 0
      case Exactly(u) => if b == u then 1 else 0
      case Amount => b
    }
  }

  function Sum(s: seq<nat>, m: Measure): nat {
    if s == [] then 0 else Sum(s[..|s| - 1], m) + m.Of(s[|s| - 1])
  }

  lemma SumNone(m: Measure)
    ensures Sum([], m) == 0
  {
  }

  lemma SumOne(s: seq<nat>, b: nat, m: Measure)
    ensures Sum(s + [b], m) == Sum(s, m) + m.Of(b)
  {
    assert (s + [b])[..|s|] == s;
  }

  lemma {:induction false} SumAppend(s: seq<nat>, t: seq<nat>, m: Measure)
    ensures Sum(s + t, m) == Sum(s, m) + Sum(t, m)
  {
    if t == [] {
      assert s + t == s;
    } else {
      SumAppend(s, t[..|t| - 1], m);
      assert (s + t)[..|s + t| - 1] == s + t[..|t| - 1];
    }
  }

  lemma SumUpdate(s: seq<nat>, i: nat, v: nat, m: Measure)
    requires i < |s|
    ensures Sum(s[i := v], m) == Sum(s, m) - m.Of(s[i]) + m.Of(v)
    ensures Sum(s, m) >= m.Of(s[i])
  {
    assert s == s[..i] + ([s[i]] + s[i + 1..]);
    assert s[i := v] == s[..i] + ([v] + s[i + 1..]);
    SumAppend(s[..i], [s[i]] + s[i + 1..], m);
    SumAppend(s[..i], [v] + s[i + 1..], m);
    SumAppend([s[i]], s[i + 1..], m);
    SumAppend([v], s[i + 1..], m);
    SumOne([], s[i], m);
    SumOne([], v, m);
  }

  predicate AtMost(s: seq<nat>, u: nat) { forall i :: 0 <= i < |s| ==> s[i] <= u }

  ghost predicate Ascending(s: seq<nat>) { forall i, j :: 0 <= i < j < |s| ==> s[i] <= s[j] }

  /** The shares below `u` and those at `u`. */
  lemma {:induction false} WholeSplits(s: seq<nat>, u: nat)
    requires AtMost(s, u)
    ensures Sum(s, Whole(u)) == Sum(s, Short(u)) + Sum(s, Exactly(u))
  {
    if s != [] {
      WholeSplits(s[..|s| - 1], u);
      assert Pow2(0) == 1;
    }
  }

  /** In finer units. */
  lemma {:induction false} WholeFiner(s: seq<nat>, u: nat, k: nat)
    requires AtMost(s, u)
    ensures Sum(s, Whole(u + k)) == Shl(Sum(s, Whole(u)), k)
  {
    if s == [] {
      ShlZero(k);
    } else {
      WholeFiner(s[..|s| - 1], u, k);
      ShlPow2(u - s[|s| - 1], k);
      ShlAdd(Sum(s[..|s| - 1], Whole(u)), Pow2(u - s[|s| - 1]), k);
    }
  }

  /** With no length in `(u, u + k)`, the shares below `u + k` are those up to `u`. */
  lemma {:induction false} ShortFiner(s: seq<nat>, u: nat, k: nat)
    requires forall i :: 0 <= i < |s| ==> s[i] <= u || s[i] == u + k
    requires k > 0
    ensures Sum(s, Short(u + k)) == Shl(Sum(s, Whole(u)), k)
  {
    if s == [] {
      ShlZero(k);
    } else {
      ShortFiner(s[..|s| - 1], u, k);
      if s[|s| - 1] <= u {
        ShlPow2(u - s[|s| - 1], k);
        ShlAdd(Sum(s[..|s| - 1], Whole(u)), Pow2(u - s[|s| - 1]), k);
      }
    }
  }

  lemma {:induction false} AllAt(s: seq<nat>, u: nat)
    requires forall i :: 0 <= i < |s| ==> s[i] == u
    ensures Sum(s, Whole(u)) == |s| && Sum(s, Exactly(u)) == |s| && Sum(s, Short(u)) == 0
  {
    if s != [] {
      AllAt(s[..|s| - 1], u);
      assert Pow2(0) == 1;
    }
  }

  lemma {:induction false} ExactlyBound(s: seq<nat>, u: nat)
    ensures Sum(s, Exactly(u)) <= |s|
    ensures Sum(s, Exactly(u)) > 0 <==> exists i :: 0 <= i < |s| && s[i] == u
  {
    if s != [] {
      var r, n := s[..|s| - 1], |s| - 1;
      ExactlyBound(r, u);
      if s[n] == u {
      } else if Sum(r, Exactly(u)) > 0 {
        var i :| 0 <= i < |r| && r[i] == u;
        assert s[i] == u;
      }
    }
  }

  lemma {:induction false} SumPositive(s: seq<nat>, m: Measure, i: nat)
    requires i < |s|
    ensures Sum(s, m) >= m.Of(s[i])
  {
    SumUpdate(s, i, s[i], m);
  }
}
