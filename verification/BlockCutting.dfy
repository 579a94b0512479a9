/** A job's input cut into blocks: at once, or as it arrives, and ahead of the
    sizes the blocks before were written as. */
module BlockCutting {
  import opened Nums
  import BitSeq

  const SPLIT_BLOCK_SIZE: nat := 0x2_0000
  const ZSTD_BLOCKHEADERSIZE: nat := 3
  const USIZE: nat := 0x1_0000_0000_0000_0000

  datatype Sizing = Sizing(blockSizeMax: nat, splits: bool, chunkSize: nat, headerLen: nat) {
    predicate Valid() { 1 <= blockSizeMax && 1 <= chunkSize < USIZE }
  }

  datatype InputEnd = Open(end: nat) | Chunk(end: nat) | JobEnd(end: nat)

  datatype Cut = Cut(start: nat, end: nat, first: bool, last: bool)

  /** What is not modelled: how a full block at an offset is pre-split, and how
      many bytes the last of the blocks so far is written as. */
  datatype World = World(split: nat -> nat, written: seq<Cut> -> nat) {
    ghost predicate Valid() { forall o :: 1 <= split(o) <= SPLIT_BLOCK_SIZE }
  }

  // In offsets from the job's start

  /** The chunk of `offset` ends here, saturating. */
  function ChunkEnd(z: Sizing, offset: nat): (e: nat)
    requires z.Valid() && offset < USIZE - 1
    ensures e > offset
  {
    var e := (offset / z.chunkSize + 1) * z.chunkSize;
    assert e > offset by {
      assert offset == (offset / z.chunkSize) * z.chunkSize + offset % z.chunkSize;
      assert e == (offset / z.chunkSize) * z.chunkSize + z.chunkSize;
    }
    if e < USIZE then e else USIZE - 1
  }

  function Min(a: nat, b: nat): nat { if a < b then a else b }

  /** A block's size unless pre-split, the input's end known or not. */
  function Unsplit(z: Sizing, offset: nat, end: nat, known: bool): (n: nat)
    requires z.Valid() && offset < USIZE - 1 && (known ==> offset < end)
    ensures 1 <= n <= z.blockSizeMax && (known ==> offset + n <= end)
  {
    Min((if known then Min(ChunkEnd(z, offset), end) else ChunkEnd(z, offset)) - offset, z.blockSizeMax)
  }

  function Savings(z: Sizing, firstJob: bool, firstChunkEnd: nat, offset: nat, gained: int): int {
    gained - if firstJob && offset >= firstChunkEnd then z.headerLen else 0
  }

  function SizeAt(z: Sizing, w: World, offset: nat, unsplit: nat, savings: int): (n: nat)
    requires w.Valid() && 1 <= unsplit
    ensures 1 <= n <= unsplit
  {
    if z.splits && unsplit == SPLIT_BLOCK_SIZE && savings >= 3 then w.split(offset) else unsplit
  }

  /** The job: its sizing, whether it is the frame's first and last, its length. */
  datatype Job = Job(z: Sizing, w: World, firstJob: bool, lastJob: bool, n: nat) {
    ghost predicate Valid() { z.Valid() && w.Valid() && n < USIZE - 1 }

    /** The next block after `done` bytes with so much gained. */
    function Next(done: nat, gained: int): (c: Cut)
      requires Valid() && done < n
      ensures c.start == done < c.end <= n
    {
      var size := SizeAt(z, w, done, Unsplit(z, done, n, true), Savings(z, firstJob, z.chunkSize, done, gained));
      Cut(done, done + size, done == 0, lastJob && done + size == n)
    }

    /** The whole job cut at once, after the blocks `before`: the rest of its
        blocks, and all that is gained. */
    function OneShot(before: seq<Cut>, done: nat, gained: int): (seq<Cut>, int)
      requires Valid() && done <= n
      decreases n - done
    {
      if done == n then ([], gained)
      else
        var c := Next(done, gained);
        var (rest, all) := OneShot(before + [c], c.end, gained + (c.end - done) - w.written(before + [c]));
        ([c] + rest, all)
    }

    /** What is done so far and the rest of it are the whole job. */
    ghost predicate Continues(out: seq<Cut>, done: nat, gained: int)
      requires Valid()
    {
      done <= n && (out + OneShot(out, done, gained).0, OneShot(out, done, gained).1) == OneShot([], 0, 0)
    }

    /** Where an input may end: a chunk only where the whole job's end too. */
    predicate EndsAt(input: InputEnd, e: nat)
      requires z.Valid()
    {
      e <= n && (input.JobEnd? ==> e == n) && (input.Chunk? ==> 0 < e < n && e % z.chunkSize == 0)
    }
  }

  /** Enough open input decides a block as the whole input does. */
  lemma OpenDecides(j: Job, done: nat, end: nat)
    requires j.Valid() && done < end <= j.n && end - done > j.z.blockSizeMax
    ensures Unsplit(j.z, done, 0, false) == Unsplit(j.z, done, j.n, true) && done + Unsplit(j.z, done, j.n, true) < j.n
  {
  }

  /** So does the end of a chunk. */
  lemma ChunkDecides(j: Job, done: nat, end: nat)
    requires j.Valid() && done < end < j.n && end % j.z.chunkSize == 0
    ensures Unsplit(j.z, done, end, true) == Unsplit(j.z, done, j.n, true)
  {
    hide ChunkEnd;
    ChunkEndsBy(j.z, done, end);
  }

  lemma ChunkEndsBy(z: Sizing, offset: nat, end: nat)
    requires z.Valid() && offset < end < USIZE - 1 && end % z.chunkSize == 0
    ensures ChunkEnd(z, offset) <= end
  {
    var c, q, k := z.chunkSize, offset / z.chunkSize, end / z.chunkSize;
    assert end == k * c && offset == q * c + offset % c;
    if k <= q {
      MulLe(k, q, c);
    }
    MulLe(q + 1, k, c);
  }

  /** The chunk's end at a multiple is no earlier than the first one's. */
  lemma FirstChunk(z: Sizing, end: nat)
    requires z.Valid() && 0 < end && end % z.chunkSize == 0
    ensures z.chunkSize <= end
  {
  }

  /** Once another block is cut, the rest still continues. */
  lemma ContinuesOn(j: Job, out: seq<Cut>, done: nat, gained: int)
    requires j.Valid() && done < j.n && j.Continues(out, done, gained)
    ensures var c := j.Next(done, gained);
            j.Continues(out + [c], c.end, gained + (c.end - done) - j.w.written(out + [c]))
  {
    hide Job.Next, Job.Valid;
    var c := j.Next(done, gained);
    var after := gained + (c.end - done) - j.w.written(out + [c]);
    BitSeq.Regroup(out, [c], j.OneShot(out + [c], c.end, after).0);
  }

  // The resumable cutter

  /** Differences of positions in the address space. */
  function WrapSub(a: nat, b: nat): nat { (a + USIZE - b % USIZE) % USIZE }

  class JobBlocks {
    const sizing: Sizing
    var jobStart: nat
    const firstJob: bool
    const lastJob: bool
    var done: nat
    var firstChunkEnd: nat
    var gained: int

    constructor (sizing: Sizing, jobStart: nat, firstJob: bool, lastJob: bool)
      requires jobStart < USIZE
      ensures this.sizing == sizing && this.jobStart == jobStart && this.firstJob == firstJob && this.lastJob == lastJob
      ensures done == 0 && gained == 0 && firstChunkEnd == sizing.chunkSize
    {
      this.sizing, this.jobStart, this.firstJob, this.lastJob := sizing, jobStart, firstJob, lastJob;
      done, gained, firstChunkEnd := 0, 0, sizing.chunkSize;
    }

    function NextStart(): nat
      reads this
    {
      (jobStart + done) % USIZE
    }

    method Rebase(shift: nat)
      requires jobStart < USIZE && shift <= NextStart()
      modifies this`jobStart
      ensures jobStart < USIZE && NextStart() == old(NextStart()) - shift
    {
      jobStart := WrapSub(jobStart, shift);
    }

    function Ready(start: nat, input: InputEnd): bool
      reads this
    {
      match input
      case Open(end) => end > start && end - start > sizing.blockSizeMax
      case Chunk(end) => start < end
      case JobEnd(end) => start < end
    }

    function UnsplitSize(start: nat, input: InputEnd): nat
      requires sizing.Valid() && jobStart < USIZE && WrapSub(start, jobStart) < USIZE - 1
      requires !input.Open? ==> WrapSub(start, jobStart) < WrapSub(input.end, jobStart)
      reads this
    {
      Unsplit(sizing, WrapSub(start, jobStart), WrapSub(input.end, jobStart), !input.Open?)
    }

    /** `JobBlocks::next`: the size of the next block. */
    method NextSize(w: World, input: InputEnd) returns (size: nat)
      requires sizing.Valid() && w.Valid() && jobStart < USIZE && done < USIZE - 1
      requires !input.Open? ==> done < WrapSub(input.end, jobStart)
      ensures size == SizeAt(sizing, w, done, Unsplit(sizing, done, WrapSub(input.end, jobStart), !input.Open?),
                             Savings(sizing, firstJob, firstChunkEnd, done, gained))
    {
      Offset(jobStart, done);
      var start := NextStart();
      var offset := WrapSub(start, jobStart);
      var unsplit := UnsplitSize(start, input);
      size := SizeAt(sizing, w, offset, unsplit, Savings(sizing, firstJob, firstChunkEnd, offset, gained));
    }

    /** `wrote`: the next block, of `size` bytes, written as `written`. */
    method Wrote(size: nat, written: nat)
      modifies this`done, this`gained
      ensures done == old(done) + size && gained == old(gained) + size - written
    {
      done := done + size;
      gained := gained + size - written;
    }

    /** `input_ended`: a chunk's end is where the header debit starts, if no earlier one is. */
    method InputEnded(input: InputEnd)
      modifies this`firstChunkEnd
      ensures firstChunkEnd == if input.Chunk? then Min(old(firstChunkEnd), WrapSub(input.end, jobStart)) else old(firstChunkEnd)
    {
      if input.Chunk? {
        firstChunkEnd := Min(firstChunkEnd, WrapSub(input.end, jobStart));
      }
    }

    /** The loop of `compress_blocks`: the blocks `input` makes ready, cut as
        the whole job would be. `e` is where the input ends in the job. */
    method CompressBlocks(w: World, input: InputEnd, ghost j: Job, ghost e: nat, before: seq<Cut>) returns (out: seq<Cut>)
      requires j == Job(sizing, w, firstJob, lastJob, j.n) && j.Valid() && jobStart < USIZE && firstChunkEnd == sizing.chunkSize
      requires done <= e && j.EndsAt(input, e) && input.end == NextStart() + (e - done) < USIZE
      requires j.Continues(before, done, gained)
      modifies this`done, this`gained, this`firstChunkEnd
      ensures firstChunkEnd == sizing.chunkSize
      ensures done <= e && j.Continues(out, done, gained)
      ensures NextStart() == input.end - (e - done) && (input.JobEnd? ==> done == j.n)
    {
      hide Job.Continues, Job.Next, WrapSub, Job.Valid, ChunkEnd, Job.EndsAt;
      out := before;
      JobShape(j, input, e);
      while Ready(NextStart(), input)
        invariant done <= e && input.end == NextStart() + (e - done) && firstChunkEnd == sizing.chunkSize
        invariant j.Continues(out, done, gained)
        decreases e - done
      {
        var block := NextCut(w, input, j, e);
        ContinuesOn(j, out, done, gained);
        Advanced(jobStart, done, block.end - block.start);
        out := out + [block];
        Wrote(block.end - block.start, w.written(out));
      }
      if input.Chunk? {
        EndOffset(jobStart, done, e, input.end);
        FirstChunk(sizing, e);
      }
      InputEnded(input);
    }

    /** One block: the whole job's next one, its flags included. */
    method NextCut(w: World, input: InputEnd, ghost j: Job, ghost e: nat) returns (block: Cut)
      requires j == Job(sizing, w, firstJob, lastJob, j.n) && j.Valid() && jobStart < USIZE && firstChunkEnd == sizing.chunkSize
      requires done <= e && j.EndsAt(input, e) && input.end == NextStart() + (e - done) < USIZE
      requires Ready(NextStart(), input)
      ensures done < j.n && block == j.Next(done, gained) && block.end <= e
    {
      hide ChunkEnd, WrapSub, Savings, Unsplit, SizeAt;
      Offset(jobStart, done);
      EndOffset(jobStart, done, e, input.end);
      InputDecides(j, input, done, e);
      var size := NextSize(w, input);
      var start := NextStart();
      block := Cut(done, done + size, start == jobStart, lastJob && input == JobEnd(start + size));
      FirstOnly(jobStart, done);
    }

    /** The pipelined loop's early choice of the block after one not written yet. */
    method NextUnwritten(w: World, start: nat, input: InputEnd, leastGained: int) returns (size: nat, fixed: bool)
      requires sizing.Valid() && w.Valid() && jobStart < USIZE && WrapSub(start, jobStart) < USIZE - 1
      requires !input.Open? ==> WrapSub(start, jobStart) < WrapSub(input.end, jobStart)
      ensures fixed ==> forall actual :: actual >= leastGained ==>
                size == SizeAt(sizing, w, WrapSub(start, jobStart), UnsplitSize(start, input),
                               Savings(sizing, firstJob, firstChunkEnd, WrapSub(start, jobStart), actual))
      ensures !fixed ==> sizing.splits && UnsplitSize(start, input) == SPLIT_BLOCK_SIZE
                         && Savings(sizing, firstJob, firstChunkEnd, WrapSub(start, jobStart), leastGained) < 3
    {
      var offset, unsplit := WrapSub(start, jobStart), UnsplitSize(start, input);
      var least := Savings(sizing, firstJob, firstChunkEnd, offset, leastGained);
      if sizing.splits && unsplit == SPLIT_BLOCK_SIZE && least < 3 {
        return 0, false;
      }
      size, fixed := SizeAt(sizing, w, offset, unsplit, least), true;
    }
  }

  /** Offsets from the job's start are what positions say, wrapped or not. */
  lemma Offset(jobStart: nat, done: nat)
    requires jobStart < USIZE && done < USIZE
    ensures WrapSub((jobStart + done) % USIZE, jobStart) == done
  {
  }

  lemma EndOffset(jobStart: nat, done: nat, e: nat, end: nat)
    requires jobStart < USIZE && done <= e < USIZE && end == (jobStart + done) % USIZE + (e - done) < USIZE
    ensures WrapSub(end, jobStart) == e
  {
  }

  lemma Advanced(jobStart: nat, done: nat, size: nat)
    requires jobStart < USIZE && (jobStart + done) % USIZE + size < USIZE
    ensures (jobStart + (done + size)) % USIZE == (jobStart + done) % USIZE + size
  {
  }

  lemma FirstOnly(jobStart: nat, done: nat)
    requires jobStart < USIZE && done < USIZE
    ensures (jobStart + done) % USIZE == jobStart <==> done == 0
  {
  }

  lemma JobShape(j: Job, input: InputEnd, e: nat)
    requires j.Valid() && j.EndsAt(input, e)
    ensures e <= j.n < USIZE - 1 && (input.JobEnd? ==> e == j.n) && j.z.Valid()
    ensures input.Chunk? ==> 0 < e && e % j.z.chunkSize == 0
  {
  }

  /** Whatever the input, the block's size is the whole job's, within the input. */
  lemma InputDecides(j: Job, input: InputEnd, done: nat, e: nat)
    requires j.Valid() && done < e && j.EndsAt(input, e) && (input.Open? ==> e - done > j.z.blockSizeMax)
    ensures Unsplit(j.z, done, if input.Open? then 0 else e, !input.Open?) == Unsplit(j.z, done, j.n, true) <= e - done
    ensures input.Open? ==> Unsplit(j.z, done, e, false) == Unsplit(j.z, done, 0, false)
    ensures !input.JobEnd? ==> done + Unsplit(j.z, done, j.n, true) < j.n
  {
    hide ChunkEnd;
    match input {
      case Open(_) => OpenDecides(j, done, e);
      case Chunk(_) => ChunkDecides(j, done, e);
      case JobEnd(_) =>
    }
  }

  // Feeding a job piece by piece

  /** An arrival: how far the job's input reaches, whether a chunk ends there,
      and how far it moved down before. */
  datatype Arrival = Arrival(e: nat, chunk: bool, shift: nat)

  predicate Arrives(j: Job, a: Arrival)
    requires j.z.Valid()
  {
    j.EndsAt(if a.chunk then Chunk(0) else Open(0), a.e)
  }

  /** Any number of arrivals, open or ending a chunk that the whole job has too,
      with moves between them, then the end: the blocks, flags and savings of
      the whole job at once. */
  method Feed(b: JobBlocks, w: World, j: Job, arrivals: seq<Arrival>) returns (out: seq<Cut>)
    requires j == Job(b.sizing, w, b.firstJob, b.lastJob, j.n) && j.Valid() && b.jobStart < USIZE && b.jobStart + j.n < USIZE
    requires b.done == 0 && b.gained == 0 && b.firstChunkEnd == b.sizing.chunkSize
    requires forall i :: 0 <= i < |arrivals| ==> Arrives(j, arrivals[i])
    modifies b
    ensures (out, b.gained) == j.OneShot([], 0, 0) && b.done == j.n
  {
    hide Job.OneShot, Job.EndsAt;
    out := [];
    Begins(j);
    var i := 0;
    while i < |arrivals|
      invariant 0 <= i <= |arrivals| && b.done <= j.n && b.jobStart < USIZE && b.firstChunkEnd == b.sizing.chunkSize
      invariant b.NextStart() + (j.n - b.done) < USIZE
      invariant j.Continues(out, b.done, b.gained)
    {
      if arrivals[i].shift <= b.NextStart() {
        b.Rebase(arrivals[i].shift);
      }
      var e := arrivals[i].e;
      if b.done <= e {
        var input := if arrivals[i].chunk then Chunk(b.NextStart() + (e - b.done)) else Open(b.NextStart() + (e - b.done));
        Arrived(j, arrivals[i], input);
        out := b.CompressBlocks(w, input, j, e, out);
      }
      i := i + 1;
    }
    Arrived(j, Arrival(j.n, false, 0), JobEnd(b.NextStart() + (j.n - b.done)));
    out := b.CompressBlocks(w, JobEnd(b.NextStart() + (j.n - b.done)), j, j.n, out);
    Finished(j, out, b.gained);
  }

  lemma Begins(j: Job)
    requires j.Valid()
    ensures j.Continues([], 0, 0)
  {
    hide Job.OneShot;
    assert [] + j.OneShot([], 0, 0).0 == j.OneShot([], 0, 0).0;
  }

  lemma Finished(j: Job, out: seq<Cut>, gained: int)
    requires j.Valid() && j.Continues(out, j.n, gained)
    ensures (out, gained) == j.OneShot([], 0, 0)
  {
    assert out + [] == out;
  }

  lemma Arrived(j: Job, a: Arrival, input: InputEnd)
    requires j.z.Valid() && (if input.JobEnd? then a.e == j.n else Arrives(j, a) && input.Chunk? == a.chunk)
    ensures j.EndsAt(input, a.e) && a.e <= j.n
  {
  }

  // Choosing the next block early

  /** `compressed_gain_bound` of one block. */
  function GainBound(minGain: nat): int { minGain + 1 - ZSTD_BLOCKHEADERSIZE }

  /** Parts of a block, each its length, its least gain and its payload:
      COMPRESSED is written only for a payload below the length less the gain. */
  datatype Part = Part(len: nat, minGain: nat, payload: nat)

  function BoundAll(ps: seq<Part>): int {
    if ps == [] then 0 else BoundAll(ps[..|ps| - 1]) + GainBound(ps[|ps| - 1].minGain)
  }

  function LenAll(ps: seq<Part>): nat { if ps == [] then 0 else LenAll(ps[..|ps| - 1]) + ps[|ps| - 1].len }

  function WrittenAll(ps: seq<Part>): nat {
    if ps == [] then 0 else WrittenAll(ps[..|ps| - 1]) + ps[|ps| - 1].payload + ZSTD_BLOCKHEADERSIZE
  }

  predicate Compressed(p: Part) { p.minGain <= p.len && p.payload < p.len - p.minGain }

  /** However its parts come out, a block gains the bound. */
  lemma {:induction false} PartsGain(ps: seq<Part>)
    requires forall i :: 0 <= i < |ps| ==> Compressed(ps[i])
    ensures LenAll(ps) - WrittenAll(ps) >= BoundAll(ps)
  {
    if ps != [] {
      PartsGain(ps[..|ps| - 1]);
    }
  }

  /** The pipelined loop: the block after one still to be written, all its
      parts COMPRESSED, chosen early, is the one chosen once it is written. */
  method PipelinedChoice(b: JobBlocks, w: World, input: InputEnd, parts: seq<Part>) returns (early: nat, fixed: bool, late: nat)
    requires b.sizing.Valid() && w.Valid() && b.jobStart < USIZE && b.done + LenAll(parts) < USIZE - 1
    requires !input.Open? ==> b.done + LenAll(parts) < WrapSub(input.end, b.jobStart)
    requires forall i :: 0 <= i < |parts| ==> Compressed(parts[i])
    modifies b`done, b`gained
    ensures b.done == old(b.done) + LenAll(parts) && b.gained == old(b.gained) + LenAll(parts) - WrittenAll(parts)
    ensures fixed ==> early == late
    ensures late == SizeAt(b.sizing, w, b.done, Unsplit(b.sizing, b.done, WrapSub(input.end, b.jobStart), !input.Open?),
                           Savings(b.sizing, b.firstJob, b.firstChunkEnd, b.done, b.gained))
  {
    hide WrapSub, Unsplit;
    PartsGain(parts);
    Offset(b.jobStart, b.done + LenAll(parts));
    early, fixed := b.NextUnwritten(w, (b.jobStart + (b.done + LenAll(parts))) % USIZE, input, b.gained + BoundAll(parts));
    b.Wrote(LenAll(parts), WrittenAll(parts));
    late := b.NextSize(w, input);
  }
}
