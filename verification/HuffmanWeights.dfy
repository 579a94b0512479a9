/** `HUF_readStats` after the weights are read: the implied last weight, and
    when the weights make a tree (RFC 8878, section 4.2.1.1). */
module HuffmanWeights {
  import opened Nums
  import opened Kraft
  import opened FseDist
  import opened HuffmanCodes
  import opened HuffmanTable

  /** The decoder's limit. */
  const TABLELOG_MAX: nat := 11

  /** The weight of a code of `b` bits under a table of `u`, and back: the map
      is its own inverse. */
  function Weight(u: nat, b: nat): nat { if 1 <= b <= u then u + 1 - b else 0 }

  function Weights(u: nat, l: seq<nat>): (w: seq<nat>)
    ensures |w| == |l| && forall s :: 0 <= s < |l| ==> w[s] == Weight(u, l[s])
  {
    seq(|l|, s requires 0 <= s < |l| => Weight(u, l[s]))
  }

  /** `(1 << w) >> 1`. */
  function Share(w: nat): nat { if w == 0 then 0 else Pow2(w - 1) }

  function Shares(ws: seq<nat>): nat {
    if ws == [] then 0 else Shares(ws[..|ws| - 1]) + Share(ws[|ws| - 1])
  }

  /** Shares of weights are shares of lengths. */
  lemma {:induction false} SharesAreCoded(u: nat, l: seq<nat>)
    ensures Shares(Weights(u, l)) == Sum(l, Coded(u))
  {
    if l != [] {
      var r := l[..|l| - 1];
      SharesAreCoded(u, r);
      assert Weights(u, l)[..|l| - 1] == Weights(u, r);
    }
  }

  lemma WeightsInvolution(u: nat, ws: seq<nat>)
    requires AtMost(ws, u)
    ensures Weights(u, Weights(u, ws)) == ws && AtMost(Weights(u, ws), u)
  {
  }

  /** The tree of a table of `u` bits whose last symbol has a code. */
  ghost predicate Tree(l: seq<nat>, u: nat) {
    Full(l, u) && u <= TABLELOG_MAX && |l| >= 2 && l[|l| - 1] >= 1 && Count(l, u) > 0
  }

  datatype Stats = Rejected | Accepted(ws: seq<nat>, u: nat)

  /** What the checks accept, as a function. */
  function StatsOf(ws: seq<nat>): Stats {
    if exists i :: 0 <= i < |ws| && ws[i] > TABLELOG_MAX then Rejected
    else if Shares(ws) == 0 then Rejected
    else
      var u := HighBit(Shares(ws)) + 1;
      var rest := Pow2(u) - Shares(ws);
      if u > TABLELOG_MAX || rest < 1 || Pow2(HighBit(rest)) != rest then Rejected
      else
        var all := ws + [HighBit(rest) + 1];
        if Count(all, 1) < 2 || Count(all, 1) % 2 == 1 then Rejected else Accepted(all, u)
  }

  lemma {:induction false} SharesUpTo(ws: seq<nat>, u: nat)
    requires Shares(ws) < Pow2(u)
    ensures AtMost(ws, u)
  {
    if ws != [] {
      var n := |ws| - 1;
      SharesUpTo(ws[..n], u);
      if ws[n] > u {
        Pow2Mono(u, ws[n] - 1);
      }
      forall i | 0 <= i < |ws| ensures ws[i] <= u {
        assert i < n ==> ws[..n][i] <= u;
      }
    }
  }

  lemma SharesOne(ws: seq<nat>, w: nat)
    ensures Shares(ws + [w]) == Shares(ws) + Share(w)
  {
    assert (ws + [w])[..|ws|] == ws;
  }

  lemma {:induction false} CountWeights(u: nat, l: seq<nat>, n: nat, k: nat)
    requires 1 <= n <= u && AtMost(l, u) && k <= |l|
    ensures Occ(Weights(u, l), u + 1 - n, k) == Occ(l, n, k)
  {
    if k > 0 {
      CountWeights(u, l, n, k - 1);
    }
  }

  /** Whatever is accepted is a tree. */
  lemma AcceptedIsTree(ws: seq<nat>)
    requires StatsOf(ws).Accepted?
    ensures var Accepted(all, u) := StatsOf(ws);
            |all| == |ws| + 1 && all[..|ws|] == ws && Tree(Weights(u, all), u)
  {
    hide Occ, Pow2, Shares, Weights, AtMost;
    var Accepted(all, u) := StatsOf(ws);
    var rest := Pow2(u) - Shares(ws);
    SharesUpTo(ws, u);
    RestBelow(Shares(ws), u);
    SharesOne(ws, HighBit(rest) + 1);
    AllIsTree(ws, HighBit(rest) + 1, u);
  }

  /** The part left of `2^u` is below it when it was the next power of two. */
  lemma RestBelow(shares: nat, u: nat)
    requires shares >= 1 && u == HighBit(shares) + 1
    ensures 1 <= Pow2(u) - shares && HighBit(Pow2(u) - shares) < u
  {
    var rest := Pow2(u) - shares;
    if HighBit(rest) >= u {
      Pow2Mono(u, HighBit(rest));
    }
  }

  lemma AllIsTree(ws: seq<nat>, w: nat, u: nat)
    requires AtMost(ws, u) && 1 <= w <= u <= TABLELOG_MAX && ws != [] && Shares(ws + [w]) == Pow2(u) && Count(ws + [w], 1) > 0
    ensures Tree(Weights(u, ws + [w]), u)
  {
    hide Occ, Shares;
    var all := ws + [w];
    assert AtMost(all, u);
    var l := Weights(u, all);
    WeightsInvolution(u, all);
    SharesAreCoded(u, l);
    CountWeights(u, l, u, |l|);
  }

  /** The last share makes a whole. */
  lemma LastShare(l: seq<nat>, u: nat)
    requires Tree(l, u)
    ensures var all := Weights(u, l); var n := |l| - 1;
            && all == all[..n] + [all[n]] && 1 <= all[n] <= u
            && Shares(all[..n]) == Pow2(u) - Pow2(all[n] - 1) >= 1 && HighBit(Shares(all[..n])) == u - 1
            && HighBit(Pow2(all[n] - 1)) == all[n] - 1
  {
    hide Pow2, HighBit, Shares;
    var all := Weights(u, l);
    var n := |l| - 1;
    var last := all[n];
    assert all == all[..n] + [last];
    Pow2Next(u - 1);
    Pow2Next(last - 1);
    SharesOne(all[..n], last);
    SharesAreCoded(u, l);
    Pow2Mono(last - 1, u - 1);
    HighBitUnique(Shares(all[..n]), u - 1);
    HighBitUnique(Pow2(last - 1), last - 1);
  }

  lemma TreeFull(l: seq<nat>, u: nat)
    requires Tree(l, u)
    ensures Full(l, u) && AtMost(l, u) && 1 <= u
  {
  }

  /** The longest codes come in pairs. */
  lemma PairedLeaves(l: seq<nat>, u: nat)
    requires Tree(l, u)
    ensures Count(Weights(u, l), 1) >= 2 && Count(Weights(u, l), 1) % 2 == 0
  {
    hide Full, Occ, RankVal;
    TreeFull(l, u);
    CountWeights(u, l, u, |l|);
    RankValEnds(l, u);
    RankValStep(l, u, u);
  }

  /** Every tree is accepted, its last weight recovered. */
  lemma TreeIsAccepted(l: seq<nat>, u: nat)
    requires Tree(l, u)
    ensures StatsOf(Weights(u, l)[..|l| - 1]) == Accepted(Weights(u, l), u)
  {
    hide Tree, Shares, Pow2, HighBit, Occ;
    LastShare(l, u);
    PairedLeaves(l, u);
    TreeBounds(l, u);
  }

  lemma TreeBounds(l: seq<nat>, u: nat)
    requires Tree(l, u)
    ensures 1 <= u <= TABLELOG_MAX && forall i :: 0 <= i < |l| ==> Weight(u, l[i]) <= TABLELOG_MAX
    ensures Shares(Weights(u, l)[..|l| - 1]) > 0
  {
    LastShare(l, u);
  }
}
