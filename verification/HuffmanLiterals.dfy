/** Literals all the way: counted, coded, the tree described, written as one
    stream, and decoded again from the two. */
module HuffmanLiterals {
  import opened Nums
  import opened BitSeq
  import opened Words
  import opened Kraft
  import opened FseDist
  import opened Normalise
  import opened HuffmanCodes
  import opened HuffmanTable
  import opened HuffmanWeights
  import opened HuffmanBuild
  import opened HuffmanDescription
  import opened HuffmanStream
  import opened HuffmanStreamX2
  import opened HuffmanDouble
  import HuffmanDecoder
  import HuffmanWriter

  const ZSTD_BLOCKSIZE_MAX: nat := 0x2_0000

  /** Bytes, at most a block of them, not all the same. */
  ghost predicate Mixed(src: seq<nat>) {
    && 2 <= |src| <= ZSTD_BLOCKSIZE_MAX && (forall i :: 0 <= i < |src| ==> src[i] < 256)
    && exists i :: 0 <= i < |src| && src[i] != src[0]
  }

  /** `hist_count`: the counts up to the highest byte that occurs. */
  method HistCount(src: seq<nat>) returns (counts: seq<nat>)
    requires src != [] && forall i :: 0 <= i < |src| ==> src[i] < 256
    ensures 1 <= |counts| <= 256 && counts == Counts(src, |counts|, |src|) && counts[|counts| - 1] > 0
    ensures forall i :: 0 <= i < |src| ==> src[i] < |counts|
    ensures exists i :: 0 <= i < |src| && src[i] == |counts| - 1
  {
    var c := new nat[256](_ => 0);
    var i := 0;
    while i < |src|
      invariant 0 <= i <= |src| && forall s :: 0 <= s < 256 ==> c[s] == Occ(src, s, i)
    {
      c[src[i]] := c[src[i]] + 1;
      i := i + 1;
    }
    Occurs(src, 0);
    var maxSymbol: nat := 255;
    while c[maxSymbol] == 0
      invariant src[0] <= maxSymbol <= 255 && forall s :: maxSymbol < s < 256 ==> c[s] == 0
      decreases maxSymbol
    {
      maxSymbol := maxSymbol - 1;
    }
    counts := c[..maxSymbol + 1];
    OccTwice(src, maxSymbol, |src|);
    forall j | 0 <= j < |src| ensures src[j] < |counts| {
      Occurs(src, j);
    }
  }

  lemma {:induction false} SumIsTotal(c: seq<nat>)
    ensures Sum(c, Amount) == Total(c)
  {
    if c != [] {
      SumIsTotal(c[..|c| - 1]);
    }
  }

  /** Two counts that are not 0. */
  lemma TwoUsed(c: seq<nat>, i: nat, j: nat)
    requires i < |c| && j < |c| && i != j && c[i] > 0 && c[j] > 0
    ensures 2 <= HuffmanBuild.Used(c) <= |c|
  {
    var one := c[i := 0];
    SumUpdate(c, i, 0, Exactly(0));
    SumUpdate(one, j, 0, Exactly(0));
    ExactlyBound(one[j := 0], 0);
  }

  lemma CountsFit(src: seq<nat>, counts: seq<nat>)
    requires Mixed(src) && |counts| <= 256 && counts == Counts(src, |counts|, |src|)
    requires forall i :: 0 <= i < |src| ==> src[i] < |counts|
    ensures 2 <= HuffmanBuild.Used(counts) <= Pow2(11) && Sum(counts, Amount) <= ZSTD_BLOCKSIZE_MAX
    ensures forall i :: 0 <= i < |src| ==> counts[src[i]] > 0
  {
    var j :| 0 <= j < |src| && src[j] != src[0];
    forall i | 0 <= i < |src| ensures counts[src[i]] > 0 {
      Occurs(src, i);
    }
    assert counts[src[0]] > 0 && counts[src[j]] > 0;
    TwoUsed(counts, src[0], src[j]);
    TotalCounts(src, |counts|, |src|);
    SumIsTotal(counts);
    assert Pow2(8) == 256;
    Pow2Mono(8, 11);
  }

  /** The encoder's half: the tree's description and the stream; nothing where
      the description cannot be written. */
  method CompressLiterals(src: seq<nat>) returns (ok: bool, described: seq<Byte>, stream: seq<Byte>, ghost l: seq<nat>, ghost u: nat,
                                                 ghost d: Dist, ghost k: nat)
    requires Mixed(src)
    ensures Tree(l, u) && |l| <= 256 && HuffmanStream.Coded(l, src) && Full(l, u) && u <= LOG
    ensures Marked(stream, LitBits(l, u, src, 0))
    ensures ok ==> TreeForm(described, |described|, Weights(u, l)[..|l| - 1], d, k)
    ensures (forall i :: 0 <= i < |src| ==> src[i] <= 128) ==> ok
  {
    hide Mixed, Tree, Full, Weights, TreeForm, StatsOf, Marked, LitBits;
    MixedBytes(src);
    var counts := HistCount(src);
    CountsFit(src, counts);
    var table := new HufTable();
    var fits;
    ghost var tree;
    fits, l, u, tree := BuildCTable(table, counts, 11);
    assert fits;
    TreeLong(l, u);
    HoldsFull(table, l, u);
    ok, described, d, k := WriteCTable(table, l, u);
    stream := HuffmanWriter.Compress1X(src, table, l);
  }

  lemma MixedBytes(src: seq<nat>)
    requires Mixed(src)
    ensures src != [] && forall i :: 0 <= i < |src| ==> src[i] < 256
  {
  }

  /** The decoder's half: the tree from its description, the table by either
      fill, the literals. */
  method DecompressLiterals(described: seq<Byte>, stream: seq<Byte>, out: array<nat>, x2: bool, ghost src: seq<nat>, ghost size: nat,
                            ghost l: seq<nat>, ghost u: nat, ghost d: Dist, ghost k: nat)
    returns (ok: bool)
    requires Tree(l, u) && |l| <= 256 && HuffmanStream.Coded(l, src) && Full(l, u) && u <= LOG && out.Length == |src|
    requires Marked(stream, LitBits(l, u, src, 0)) && TreeForm(described, size, Weights(u, l)[..|l| - 1], d, k)
    modifies out
    ensures ok && out[..] == src
  {
    hide Tree, Full, Weights, TreeForm, StatsOf, Marked, LitBits, DecodeX1, Payload, HuffmanDecoder.Right, CellX2, ReadAs;
    var table := new HuffmanDecoder.HuffmanTable();
    var used, nbWeights;
    TreeLong(l, u);
    ghost var head;
    ok, used, nbWeights, head := ReadWeights(table.weights, described, size, Weights(u, l)[..|l| - 1], d, k);
    TreeIsAccepted(l, u);
    SmallWeights(l, u);
    forall i | 0 <= i < nbWeights ensures table.weights[i] <= 15 {
      assert table.weights[i] == table.weights[..nbWeights][i];
    }
    var known := table.WeightStats(nbWeights);
    WeightsInvolution(u, l);
    LiteralsRoundTrip(l, u, src, stream);
    if x2 {
      table.FillX2(l, u);
      ok := Decompress1X2(out, stream, table.decodeX2[..], table.weights[..], table.maxNumBits, l, u);
    } else {
      table.FillX1(l, u);
      ok := Decompress1X1(out, stream, table.decode[..], l, u);
    }
  }

  /** What is written of the literals of any block gives them back, by the
      single- and by the double-symbol decoder, whatever follows the description. */
  method LiteralsEndToEnd(src: seq<nat>, rest: seq<Byte>, x2: bool) returns (written: bool, read: bool, out: array<nat>)
    requires Mixed(src)
    ensures written ==> read && out[..] == src
    ensures (forall i :: 0 <= i < |src| ==> src[i] <= 128) ==> written
  {
    hide Mixed, Tree, Full, Weights, TreeForm, Marked, LitBits;
    ghost var l, u, d, k;
    var described, stream;
    out := new nat[|src|](_ => 0);
    read := false;
    written, described, stream, l, u, d, k := CompressLiterals(src);
    if written {
      TreeLong(l, u);
      FormPadded(described, rest, |described|, Weights(u, l)[..|l| - 1], d, k);
      read := DecompressLiterals(described + rest, stream, out, x2, src, |described|, l, u, d, k);
    }
  }
}
