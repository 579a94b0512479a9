/** The description of a Huffman tree (RFC 8878, section 4.2.1): the weights of
    all symbols but the last, FSE-compressed or four bits each, and back. */
module HuffmanDescription {
  import opened Options
  import opened Nums
  import opened BitSeq
  import opened Words
  import opened Kraft
  import opened FseDist
  import opened FseEncoder
  import FseDecoder
  import opened SeqDecoder
  import opened Normalise
  import opened NCountBits
  import opened NCountWriter
  import opened NCountReader
  import opened WeightStream
  import opened HuffmanCodes
  import opened HuffmanTable
  import opened HuffmanWeights
  import HuffmanDecoder
  import HuffmanLimit
  import HuffmanWriter

  const MAX_FSE_TABLELOG_FOR_HUFF_HEADER: nat := 6

  // Counting the weights

  /** How often each weight below `m` occurs among the first `k`. */
  ghost function Counts(w: seq<nat>, m: nat, k: nat): (c: seq<nat>)
    requires k <= |w|
    ensures |c| == m && forall s :: 0 <= s < m ==> c[s] == Occ(w, s, k)
  {
    seq(m, s requires 0 <= s => Occ(w, s, k))
  }

  lemma {:induction false} TotalSet(c: seq<nat>, i: nat, v: nat)
    requires i < |c|
    ensures Total(c[i := v]) == Total(c) - c[i] + v
  {
    var n := |c| - 1;
    if i == n {
      assert c[i := v][..n] == c[..n];
    } else {
      TotalSet(c[..n], i, v);
      assert c[i := v][..n] == c[..n][i := v];
    }
  }

  lemma {:induction false} TotalZero(c: seq<nat>)
    requires forall i :: 0 <= i < |c| ==> c[i] == 0
    ensures Total(c) == 0
  {
    if c != [] {
      TotalZero(c[..|c| - 1]);
    }
  }

  lemma {:induction false} TotalCounts(w: seq<nat>, m: nat, k: nat)
    requires k <= |w| && forall i :: 0 <= i < |w| ==> w[i] < m
    ensures Total(Counts(w, m, k)) == k
  {
    if k == 0 {
      TotalZero(Counts(w, m, 0));
    } else {
      TotalCounts(w, m, k - 1);
      var c, s := Counts(w, m, k - 1), w[k - 1];
      assert Counts(w, m, k) == c[s := c[s] + 1];
      TotalSet(c, s, c[s] + 1);
    }
  }

  lemma {:induction false} AllSame(w: seq<nat>, s: nat, k: nat)
    requires k <= |w| && forall i :: 0 <= i < k ==> w[i] == s
    ensures Occ(w, s, k) == k
  {
    if k > 0 {
      AllSame(w, s, k - 1);
    }
  }

  /** A weight that occurs is counted. */
  lemma Occurs(w: seq<nat>, i: nat)
    requires i < |w|
    ensures Occ(w, w[i], |w|) >= 1
  {
    OccMono(w, w[i], i, |w|);
  }

  /** The counts up to the highest weight. */
  method CountWeights(w: seq<nat>) returns (counts: seq<nat>)
    requires 1 <= |w| <= 255 && forall i :: 0 <= i < |w| ==> w[i] <= HuffmanLimit.HUF_TABLELOG_MAX
    ensures 1 <= |counts| <= HuffmanLimit.HUF_TABLELOG_MAX + 1 && counts == Counts(w, |counts|, |w|) && counts[|counts| - 1] > 0
    ensures forall i :: 0 <= i < |w| ==> w[i] < |counts|
    ensures exists i :: 0 <= i < |w| && w[i] == |counts| - 1
  {
    var count := new nat[HuffmanLimit.HUF_TABLELOG_MAX + 1](_ => 0);
    var maxSymbol, i := 0, 0;
    ghost var at: nat := 0;
    while i < |w|
      invariant 0 <= i <= |w| && maxSymbol <= HuffmanLimit.HUF_TABLELOG_MAX
      invariant forall s :: 0 <= s < count.Length ==> count[s] == Occ(w, s, i)
      invariant (forall j :: 0 <= j < i ==> w[j] <= maxSymbol) && (if i > 0 then at < i && w[at] == maxSymbol else maxSymbol == 0)
    {
      count[w[i]] := count[w[i]] + 1;
      if w[i] > maxSymbol || i == 0 {
        at := i;
      }
      maxSymbol := if w[i] > maxSymbol then w[i] else maxSymbol;
      i := i + 1;
    }
    counts := count[..maxSymbol + 1];
    Occurs(w, at);
  }

  method MaxCount(counts: seq<nat>) returns (maxCount: nat)
    requires counts != []
    ensures (forall s :: 0 <= s < |counts| ==> counts[s] <= maxCount) && exists s :: 0 <= s < |counts| && counts[s] == maxCount
  {
    maxCount := counts[0];
    var s := 1;
    while s < |counts|
      invariant 1 <= s <= |counts| && (forall r :: 0 <= r < s ==> counts[r] <= maxCount)
      invariant exists r :: 0 <= r < s && counts[r] == maxCount
    {
      maxCount := if counts[s] > maxCount then counts[s] else maxCount;
      s := s + 1;
    }
  }

  /** `FSE_optimalTableLog` for the weights' table. */
  function TableLog(n: nat, maxSymbol: nat): nat
    requires n >= 2 && maxSymbol >= 1
  {
    var fromSrc := if HighBit(n - 1) >= 2 then HighBit(n - 1) - 2 else MAX_FSE_TABLELOG_FOR_HUFF_HEADER;
    var log := if fromSrc < MAX_FSE_TABLELOG_FOR_HUFF_HEADER then fromSrc else MAX_FSE_TABLELOG_FOR_HUFF_HEADER;
    var atLeast := if MinTableLog(n, maxSymbol) > log then MinTableLog(n, maxSymbol) else log;
    if atLeast < FSE_MIN_TABLELOG then FSE_MIN_TABLELOG else if atLeast > FSE_MAX_TABLELOG then FSE_MAX_TABLELOG else atLeast
  }

  lemma TableLogSmall(n: nat, maxSymbol: nat)
    requires n >= 2 && 1 <= maxSymbol <= HuffmanLimit.HUF_TABLELOG_MAX
    ensures 5 <= TableLog(n, maxSymbol) <= 6 && LogTaken(TableLog(n, maxSymbol), n, maxSymbol)
  {
    assert Pow2(4) == 16;
    if HighBit(maxSymbol) >= 4 {
      Pow2Mono(4, HighBit(maxSymbol));
    }
  }

  // FSE-compressed weights

  /** A table description of `k` bytes, then the two-state stream of `w`. */
  ghost predicate FseForm(bytes: seq<Byte>, w: seq<nat>, d: Dist, k: nat) {
    && k <= |bytes| && Encodable(d, w) && (exists j :: 0 <= j < |w| && w[j] != w[0]) && 2 <= |d.norm| <= TABLELOG_MAX + 1
    && d.norm[|d.norm| - 1] != 0
    && Describes(bytes[..k], d.norm, d.log) && Marked(bytes[k..], Stream(d, w))
  }

  datatype Packed = Incompressible | SingleWeight | Fse(bytes: seq<Byte>, ghost d: Dist, ghost k: nat)

  /** The normalized counts are a distribution that codes every weight. */
  lemma NormIsDist(q: seq<int>, w: seq<nat>, counts: seq<nat>, log: nat)
    requires 3 <= |w| <= 255 && |counts| <= 12 && counts == Counts(w, |counts|, |w|) && counts != [] && counts[|counts| - 1] > 0
    requires (forall i :: 0 <= i < |w| ==> w[i] < |counts|) && Exact(q, counts, log) && 5 <= log <= 6
    ensures Dist(q, log).Valid() && Encodable(Dist(q, log), w) && Tiles(q, log) && q[|q| - 1] != 0
  {
    var d := Dist(q, log);
    ExactIsDist(q, counts, log);
    forall i | 0 <= i < |w| ensures Built(d).Codes(w[i]) {
      Occurs(w, i);
      assert counts[w[i]] > 0;
    }
    RestIsStart(d, 0);
  }

  lemma {:induction false} RestIsStart(d: Dist, s: nat)
    requires s <= |d.norm|
    ensures d.Start(s) + Rest(d.norm, s) == d.Start(|d.norm|)
    decreases |d.norm| - s
  {
    if s < |d.norm| {
      RestIsStart(d, s + 1);
    }
  }

  /** Not all the same. */
  predicate Differ(w: seq<nat>) { exists i :: 0 <= i < |w| && w[i] != w[0] }

  /** Some weight twice. */
  predicate Again(w: seq<nat>) { exists i, j :: 0 <= i < j < |w| && w[i] == w[j] }

  /** `HUF_compressWeights`: compressed exactly if there are three weights at
      least, two that differ and two the same. None of its errors can come: the
      table log is always one the counts can be scaled to. */
  method CompressWeights(w: seq<nat>) returns (r: Packed)
    requires |w| <= 255 && forall i :: 0 <= i < |w| ==> w[i] <= TABLELOG_MAX
    ensures r.Fse? ==> FseForm(r.bytes, w, r.d, r.k)
    ensures r.Fse? <==> |w| >= 3 && Differ(w) && Again(w)
    ensures r.SingleWeight? <==> |w| >= 2 && !Differ(w)
  {
    hide FseForm, Tiles, Describes, Encodable, Exact, Total, Dist.Valid, Marked, CTable.Implements, Stream, Differ, Again, Counts;
    hide MinTableLog, TableLog, LogTaken, HighBit;
    if |w| <= 1 {
      return Incompressible;
    }
    var counts := CountWeights(w);
    var maxCount := MaxCount(counts);
    MostIsAll(w, counts, maxCount);
    if maxCount == |w| {
      return SingleWeight;
    }
    MostIsOne(w, counts, maxCount);
    if maxCount == 1 {
      return Incompressible;
    }
    ghost var j := SomeOther(w, counts, maxCount);
    TableLogSmall(|w|, |counts| - 1);
    TotalCounts(w, |counts|, |w|);
    var norm := new int[HuffmanLimit.HUF_TABLELOG_MAX + 1](_ => 0);
    var log := NormalizeCount(norm, TableLog(|w|, |counts| - 1), counts, |w|, false);
    var q := norm[..|counts|];
    if |w| <= 2 {
      return Incompressible;
    }
    NotSingle(w, counts);
    NormIsDist(q, w, counts, log.value);
    r := WriteWeights(w, q, log.value, j);
  }

  /** The highest count is the length exactly if all weights are the same. */
  lemma MostIsAll(w: seq<nat>, counts: seq<nat>, maxCount: nat)
    requires 2 <= |w| && counts == Counts(w, |counts|, |w|) && forall i :: 0 <= i < |w| ==> w[i] < |counts|
    requires (forall s :: 0 <= s < |counts| ==> counts[s] <= maxCount) && exists s :: 0 <= s < |counts| && counts[s] == maxCount
    ensures maxCount == |w| <==> !Differ(w)
    ensures maxCount <= |w|
  {
    var s :| 0 <= s < |counts| && counts[s] == maxCount;
    OccMost(w, s, |w|);
    if !Differ(w) {
      AllSame(w, w[0], |w|);
      assert counts[w[0]] == |w|;
    }
    if maxCount == |w| {
      assert forall i :: 0 <= i < |w| ==> w[i] == s;
    }
  }

  /** A weight occurs as often as there are ones, at most, and then all are it. */
  lemma {:induction false} OccMost(w: seq<nat>, s: nat, k: nat)
    requires k <= |w|
    ensures Occ(w, s, k) <= k && (Occ(w, s, k) == k ==> forall i :: 0 <= i < k ==> w[i] == s)
  {
    if k > 0 {
      OccMost(w, s, k - 1);
    }
  }

  /** It is 1 exactly if no weight occurs twice. */
  lemma MostIsOne(w: seq<nat>, counts: seq<nat>, maxCount: nat)
    requires 2 <= |w| && counts == Counts(w, |counts|, |w|) && forall i :: 0 <= i < |w| ==> w[i] < |counts|
    requires (forall s :: 0 <= s < |counts| ==> counts[s] <= maxCount) && exists s :: 0 <= s < |counts| && counts[s] == maxCount
    ensures maxCount == 1 <==> !Again(w)
  {
    Occurs(w, 0);
    assert counts[w[0]] >= 1;
    var s :| 0 <= s < |counts| && counts[s] == maxCount;
    OccTwice(w, s, |w|);
    if i, j :| 0 <= i < j < |w| && w[i] == w[j] {
      OccMono(w, w[i], 0, i);
      OccMono(w, w[i], i + 1, j);
      OccMono(w, w[i], j + 1, |w|);
      assert counts[w[i]] >= 2;
    }
  }

  lemma {:induction false} OccTwice(w: seq<nat>, s: nat, k: nat)
    requires k <= |w|
    ensures Occ(w, s, k) >= 2 ==> exists i, j :: 0 <= i < j < k && w[i] == w[j]
    ensures Occ(w, s, k) >= 1 ==> exists i :: 0 <= i < k && w[i] == s
  {
    if k > 0 {
      OccTwice(w, s, k - 1);
      if w[k - 1] == s && Occ(w, s, k) >= 2 {
        var i :| 0 <= i < k - 1 && w[i] == s;
        assert w[i] == w[k - 1];
      }
    }
  }

  lemma NotSingle(w: seq<nat>, counts: seq<nat>)
    requires counts == Counts(w, |counts|, |w|) && (forall s :: 0 <= s < |counts| ==> counts[s] < |w|)
    ensures !exists s :: 0 <= s < |counts| && counts[s] == |w|
  {
  }

  lemma SomeOther(w: seq<nat>, counts: seq<nat>, maxCount: nat) returns (j: nat)
    requires 2 <= |w| && counts == Counts(w, |counts|, |w|) && maxCount < |w| && forall s :: 0 <= s < |counts| ==> counts[s] <= maxCount
    requires forall i :: 0 <= i < |w| ==> w[i] < |counts|
    requires counts != [] && maxCount <= |w|
    ensures j < |w| && w[j] != w[0] && |counts| >= 2
  {
    assert counts[w[0]] < |w|;
    if forall i :: 0 <= i < |w| ==> w[i] == w[0] {
      AllSame(w, w[0], |w|);
    }
    j :| 0 <= j < |w| && w[j] != w[0];
  }

  /** The table description, then the stream. */
  method WriteWeights(w: seq<nat>, q: seq<int>, log: nat, ghost j: nat) returns (r: Packed)
    requires Encodable(Dist(q, log), w) && Tiles(q, log) && 2 <= |q| <= 12 && q[|q| - 1] != 0 && j < |w| && w[j] != w[0]
    ensures r.Fse? && FseForm(r.bytes, w, r.d, r.k)
  {
    hide Describes, Exact, Marked, CTable.Implements, Stream;
    ghost var d := Dist(q, log);
    TilesShape(q, log);
    var ok, header := WriteNCount(q, log);
    var ct := new FseCTable();
    ct.Build(Dist(q, log));
    var stream := CompressUsingCTable(ct.Table(), d, w);
    assert (header + stream)[..|header|] == header && (header + stream)[|header|..] == stream;
    r := Fse(header + stream, d, |header|);
  }

  // Reading them

  ghost predicate TwoNonZero(counts: seq<int>) { exists i, j :: 0 <= i < j < |counts| && counts[i] != 0 && counts[j] != 0 }

  /** What the table's description was read as, of bytes that go on behind it. */
  ghost predicate HeadOf(head: NCountReader.Result, src: seq<Byte>) {
    head.Ok? ==> NCountReader.Accepted(head.counts, head.log, TABLELOG_MAX, MAX_FSE_TABLELOG_FOR_HUFF_HEADER) && head.length <= |src|
  }

  /** The weights behind a table's description, if it is accepted, has two
      weights at least, and the stream ends. */
  ghost function FseWeights(src: seq<Byte>, head: NCountReader.Result): Option<seq<nat>>
    requires HeadOf(head, src)
  {
    if head.Err? || !TwoNonZero(head.counts) then None
    else
      AcceptedIsDist(head.counts, head.log);
      DecodeWeights(TableOf(Dist(head.counts, head.log)), src[head.length..])
  }

  /** The FSE branch of `read_weights`, for any bytes: exactly the weights of
      the stream behind the table described; `w` for a description of `w`. */
  method ReadFse(src: seq<Byte>, out: array<nat>, ghost w: seq<nat>, ghost d: Dist, ghost k: nat)
    returns (ok: bool, n: nat, ghost head: NCountReader.Result)
    requires out.Length == OMAX
    modifies out
    ensures n <= OMAX && HeadOf(head, src) && FseWeights(src, head) == if ok then Some(out[..n]) else None
    ensures FseForm(src, w, d, k) ==> ok && out[..n] == w
  {
    hide FseForm, Describes, Marked, Stream, DecodeWeights, Encodable, UpToZeros, Dist.Valid;
    ghost var good := FseForm(src, w, d, k);
    ok, n := false, 0;
    if good {
      FormDescribes(src, w, d, k);
    }
    var r := ReadNCount(src, TABLELOG_MAX, MAX_FSE_TABLELOG_FOR_HUFF_HEADER, d.norm, d.log);
    head := r;
    if r.Err? {
      return;
    }
    AcceptedIsDist(r.counts, r.log);
    var nonzero := NonZero(r.counts);
    if good {
      FormCounts(src, w, d, k, r.counts);
    }
    if nonzero < 2 {
      return;
    }
    var table := new FseDecoder.FSETable();
    table.Build(Dist(r.counts, r.log), FseDecoder.NoCodes);
    ghost var e := Dist(r.counts, r.log);
    assert DTable(table.Table(), r.log) == TableOf(e);
    ok, n := FseDecompressWeights(DTable(table.Table(), r.log), src[r.length..], out);
    if good {
      FormDecodes(src, w, d, k);
    }
  }

  /** How many counts are not 0. */
  method NonZero(counts: seq<int>) returns (n: nat)
    ensures n >= 2 <==> TwoNonZero(counts)
  {
    n := 0;
    var i := 0;
    ghost var first: nat := 0;
    while i < |counts|
      invariant 0 <= i <= |counts|
      invariant n == 0 <==> forall k :: 0 <= k < i ==> counts[k] == 0
      invariant n == 1 ==> first < i && counts[first] != 0 && forall k :: 0 <= k < i && k != first ==> counts[k] == 0
      invariant n >= 2 ==> exists a, b :: 0 <= a < b < i && counts[a] != 0 && counts[b] != 0
    {
      if counts[i] != 0 {
        if n == 0 {
          first := i;
        }
        n := n + 1;
      }
      i := i + 1;
    }
  }

  lemma FormDescribes(src: seq<Byte>, w: seq<nat>, d: Dist, k: nat)
    requires FseForm(src, w, d, k)
    ensures Describing(src, TABLELOG_MAX, MAX_FSE_TABLELOG_FOR_HUFF_HEADER, d.norm, d.log)
    ensures 5 <= d.log && (forall s :: 0 <= s < |d.norm| ==> d.norm[s] >= -1) && k == (|Header(d.norm, d.log)| + 7) / 8
  {
    hide Header, Marked, Stream, BytesBits;
    RestIsStart(d, 0);
    DescribesDescribing(src[..k], d.norm, d.log, TABLELOG_MAX, MAX_FSE_TABLELOG_FOR_HUFF_HEADER);
    PaddedDescribes(src[..k], src[k..], TABLELOG_MAX, MAX_FSE_TABLELOG_FOR_HUFF_HEADER, d.norm, d.log);
    assert src[..k] + src[k..] == src;
  }

  lemma FormCounts(src: seq<Byte>, w: seq<nat>, d: Dist, k: nat, counts: seq<int>)
    requires FseForm(src, w, d, k) && UpToZeros(counts, d.norm)
    ensures counts == d.norm && exists i, j :: 0 <= i < j < |counts| && counts[i] != 0 && counts[j] != 0
  {
    hide Header, Marked, Stream, BytesBits, Describes;
    assert counts == d.norm;
    var j :| 0 <= j < |w| && w[j] != w[0];
    CodesBound(d, w);
    var a, b := if w[0] < w[j] then w[0] else w[j], if w[0] < w[j] then w[j] else w[0];
    assert d.Prob(a) > 0 && d.Prob(b) > 0;
    assert counts[a] != 0 && counts[b] != 0;
  }

  lemma FormDecodes(src: seq<Byte>, w: seq<nat>, d: Dist, k: nat)
    requires FseForm(src, w, d, k)
    ensures d.Valid() && DecodeWeights(TableOf(d), src[k..]) == Some(w)
  {
    hide Header, Stream, BytesBits, Describes, DecodeWeights, Marked;
    var j :| 0 <= j < |w| && w[j] != w[0];
    TwoValues(d, w, 0, j);
    WeightStream.RoundTrip(d, w, src[k..]);
  }

  lemma AcceptedIsDist(counts: seq<int>, log: nat)
    requires NCountReader.Accepted(counts, log, TABLELOG_MAX, MAX_FSE_TABLELOG_FOR_HUFF_HEADER)
    ensures Dist(counts, log).Valid()
  {
  }

  // The whole description

  /** Weight `i` of a description of four bits each. */
  function Nibble(bytes: seq<Byte>, i: nat): nat
    requires 1 + i / 2 < |bytes|
  {
    if i % 2 == 0 then bytes[1 + i / 2] / 16 else bytes[1 + i / 2] % 16
  }

  /** `bytes` begins with a description of `w` of `size` bytes, its header byte
      telling which of the two forms it has. */
  ghost predicate TreeForm(bytes: seq<Byte>, size: nat, w: seq<nat>, d: Dist, k: nat) {
    && 1 <= size <= |bytes| && |w| <= 255
    && if bytes[0] < 128 then size == 1 + bytes[0] && FseForm(bytes[1..size], w, d, k)
       else
         && bytes[0] == 127 + |w| && size == 1 + (|w| + 1) / 2
         && forall i :: 0 <= i < |w| ==> w[i] == Nibble(bytes, i)
  }

  lemma FormPadded(bytes: seq<Byte>, rest: seq<Byte>, size: nat, w: seq<nat>, d: Dist, k: nat)
    requires TreeForm(bytes, size, w, d, k)
    ensures TreeForm(bytes + rest, size, w, d, k)
  {
    hide FseForm;
    assert (bytes + rest)[1..size] == bytes[1..size];
  }

  /** The weights of all symbols but the last, from the table. */
  method TableWeights(table: HufTable, ghost l: seq<nat>, ghost u: nat) returns (w: seq<nat>)
    requires table.Holds(l, u) && |l| >= 2 && u <= TABLELOG_MAX
    ensures w == Weights(u, l)[..|l| - 1] && forall i :: 0 <= i < |w| ==> w[i] <= TABLELOG_MAX
  {
    hide Elt, Low, Full, Value, Weights, Pow2;
    w := [];
    var n := 0;
    while n < table.maxSymbol
      invariant 0 <= n == |w| <= |l| - 1 && w == Weights(u, l)[..n] && forall i :: 0 <= i < |w| ==> w[i] <= TABLELOG_MAX
    {
      var nb := Low(table.elts[n], 8);
      LengthOfElt(l, u, n);
      WeightAt(l, u, n);
      w := w + [if nb == 0 then 0 else table.tableLog + 1 - nb];
      n := n + 1;
    }
  }

  lemma WeightAt(l: seq<nat>, u: nat, n: nat)
    requires n < |l| && l[n] <= u <= TABLELOG_MAX
    ensures Weights(u, l)[..n + 1] == Weights(u, l)[..n] + [if l[n] == 0 then 0 else u + 1 - l[n]]
  {
  }

  lemma LengthOfElt(l: seq<nat>, u: nat, s: nat)
    requires Full(l, u) && u <= 12 && s < |l|
    ensures Low(Elt(l[s], Value(l, u, s)), 8) == l[s] <= u
  {
    hide Low, Shl;
    FullBounds(l, u);
    if l[s] == 0 {
      assert Pow2(8) == 256;
      LowSmall(0, 8);
    } else {
      ValueFits(l, u, s);
      HuffmanWriter.EltParts(l[s], Value(l, u, s));
    }
  }

  /** `HUF_writeCTable`: for 128 weights or fewer there always is a
      description; for more, unless the compressed form does not pay. */
  method WriteCTable(table: HufTable, ghost l: seq<nat>, ghost u: nat) returns (ok: bool, out: seq<Byte>, ghost d: Dist, ghost k: nat)
    requires table.Holds(l, u) && |l| >= 2 && u <= TABLELOG_MAX
    ensures ok ==> TreeForm(out, |out|, Weights(u, l)[..|l| - 1], d, k)
    ensures |l| - 1 <= 128 ==> ok
    ensures ok && |l| - 1 > 128 ==> out[0] < 128
  {
    hide FseForm, Weights, Full, TreeForm, Nibble, Differ, Again;
    var w := TableWeights(table, l, u);
    ok, out, d, k := true, [], Dist([], 0), 0;
    var packed := CompressWeights(w);
    if packed.Fse? && |packed.bytes| > 1 && |packed.bytes| < |w| / 2 {
      out := [|packed.bytes| as Byte] + packed.bytes;
      d, k := packed.d, packed.k;
      PackedTree(packed.bytes, w, d, k);
      return;
    }
    if |w| > 256 - 128 {
      return false, [], d, k;
    }
    out := WriteNibbles(w);
    NibbleTree(out, w, d, k);
  }

  lemma PackedTree(bytes: seq<Byte>, w: seq<nat>, d: Dist, k: nat)
    requires |bytes| < 128 && |w| <= 255 && FseForm(bytes, w, d, k)
    ensures var out := [|bytes| as Byte] + bytes; TreeForm(out, |out|, w, d, k)
  {
    hide FseForm;
    var out := [|bytes| as Byte] + bytes;
    assert out[1..|out|] == bytes;
  }

  lemma NibbleTree(out: seq<Byte>, w: seq<nat>, d: Dist, k: nat)
    requires 1 <= |w| <= 128 && |out| == 1 + (|w| + 1) / 2 && out[0] == 127 + |w| && forall i :: 0 <= i < |w| ==> w[i] == Nibble(out, i)
    ensures TreeForm(out, |out|, w, d, k)
  {
    hide FseForm;
  }

  /** Four bits each, the count in the header byte. */
  method WriteNibbles(w: seq<nat>) returns (out: seq<Byte>)
    requires 1 <= |w| <= 128 && forall i :: 0 <= i < |w| ==> w[i] <= 15
    ensures |out| == 1 + (|w| + 1) / 2 && out[0] == 127 + |w| && forall i :: 0 <= i < |w| ==> w[i] == Nibble(out, i)
  {
    out := [(128 + (|w| - 1)) as Byte];
    var n := 0;
    while n < |w|
      invariant 0 <= n <= |w| + 1 && n % 2 == 0 && |out| == 1 + n / 2 && out[0] == 127 + |w|
      invariant forall i :: 0 <= i < |w| && i < n ==> w[i] == Nibble(out, i)
    {
      var low := if n + 1 < |w| then w[n + 1] else 0;
      ghost var before := out;
      out := out + [(w[n] * 16 + low) as Byte];
      forall i | 0 <= i < |w| && i < n + 2 ensures w[i] == Nibble(out, i) {
        if i < n {
          assert w[i] == Nibble(before, i);
        }
      }
      n := n + 2;
    }
  }

  /** `read_weights`, for any bytes: four-bit weights as far as the header byte
      says, or the weights of the FSE form; of a description of `w`, `w`. */
  method ReadWeights(weights: array<nat>, source: seq<Byte>, ghost size: nat, ghost w: seq<nat>, ghost d: Dist, ghost k: nat)
    returns (ok: bool, used: nat, nbWeights: nat, ghost head: NCountReader.Result)
    requires weights.Length == 256
    modifies weights
    ensures nbWeights <= 255 && ReadAs(source, head, ok, used, weights[..nbWeights])
    ensures TreeForm(source, size, w, d, k) ==> ok && used == size && weights[..nbWeights] == w
  {
    hide FseForm, FseWeights;
    ok, used, nbWeights, head := false, 0, 0, NCountReader.Err;
    if source == [] {
      return;
    }
    var header := source[0];
    if header >= 128 {
      var n := header - 127;
      var packed := (n + 1) / 2;
      if 1 + packed > |source| {
        return;
      }
      ReadNibbles(weights, source, n);
      ok, used, nbWeights := true, 1 + packed, n;
    } else {
      if 1 + header > |source| {
        return;
      }
      var out := new nat[OMAX](_ => 0);
      ok, nbWeights, head := ReadFse(source[1..1 + header], out, w, d, k);
      ghost var read := out[..nbWeights];
      forall i | 0 <= i < OMAX {
        weights[i] := out[i];
      }
      assert weights[..nbWeights] == read;
      used := 1 + header;
    }
  }

  /** What the bytes are read as, `head` the table's description. */
  ghost predicate ReadAs(source: seq<Byte>, head: NCountReader.Result, ok: bool, used: nat, w: seq<nat>) {
    if Packs(source) then
      var packed := source[1..1 + source[0]];
      && HeadOf(head, packed) && (ok <==> FseWeights(packed, head).Some?)
      && (ok ==> used == 1 + source[0] && FseWeights(packed, head) == Some(w))
    else
      && (ok <==> source != [] && source[0] >= 128 && 1 + (source[0] - 126) / 2 <= |source|)
      && (ok ==>
        && used == 1 + (source[0] - 126) / 2 && |w| == source[0] - 127
        && forall i :: 0 <= i < |w| ==> w[i] == Nibble(source, i))
  }

  /** The FSE form, all of it there. */
  predicate Packs(source: seq<Byte>) { source != [] && source[0] < 128 && 1 + source[0] <= |source| }

  method ReadNibbles(weights: array<nat>, source: seq<Byte>, n: nat)
    requires weights.Length == 256 && 1 <= n <= 128 && 1 + (n + 1) / 2 <= |source|
    modifies weights
    ensures forall i :: 0 <= i < n ==> weights[i] == Nibble(source, i)
  {
    var k := 0;
    while k < (n + 1) / 2
      invariant 0 <= k <= (n + 1) / 2 && forall i :: 0 <= i < 2 * k ==> weights[i] == Nibble(source, i)
    {
      var b := source[1 + k];
      weights[2 * k], weights[2 * k + 1] := b / 16, b % 16;
      k := k + 1;
    }
  }

  /** The encoder's table, described, read, and checked: the decoder knows the
      same code lengths, whatever follows the description. */
  method DescribeTree(table: HufTable, decoder: HuffmanDecoder.HuffmanTable, rest: seq<Byte>, ghost l: seq<nat>, ghost u: nat)
    returns (ok: bool, out: seq<Byte>, used: nat, known: bool)
    requires table.Holds(l, u) && Tree(l, u) && decoder.Valid()
    modifies decoder, decoder.weights, decoder.rankStats
    ensures ok ==> known && used == |out| && decoder.Knows(l, u)
    ensures |l| - 1 <= 128 ==> ok
  {
    hide FseForm, Weights, Full, StatsOf, TreeForm, Tree, HuffmanDecoder.HuffmanTable.Knows, ReadAs;
    TreeBounds(l, u);
    TreeLong(l, u);
    ghost var d, k;
    ok, out, d, k := WriteCTable(table, l, u);
    used, known := 0, false;
    if ok {
      ghost var w := Weights(u, l)[..|l| - 1];
      FormPadded(out, rest, |out|, w, d, k);
      var read, nbWeights;
      ghost var head;
      read, used, nbWeights, head := ReadWeights(decoder.weights, out + rest, |out|, w, d, k);
      TreeIsAccepted(l, u);
      SmallWeights(l, u);
      forall i | 0 <= i < nbWeights ensures decoder.weights[i] <= 15 {
        assert decoder.weights[i] == decoder.weights[..nbWeights][i];
      }
      known := decoder.WeightStats(nbWeights);
      WeightsInvolution(u, l);
    }
  }

  lemma TreeLong(l: seq<nat>, u: nat)
    requires Tree(l, u)
    ensures |l| >= 2 && u <= TABLELOG_MAX && AtMost(l, u)
  {
  }

  lemma SmallWeights(l: seq<nat>, u: nat)
    requires u <= TABLELOG_MAX
    ensures forall i :: 0 <= i < |l| ==> Weights(u, l)[i] <= 15
  {
  }
}
