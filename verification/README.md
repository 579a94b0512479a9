# Verified model of a Zstandard codec

A Dafny model of the two halves of a Zstandard codec (RFC 8878) and of what they
owe each other. The encoder and the decoder are separate imperative programs;
the project models each in its own form, with arrays, cursors and loops, proves
every loop against a specification function, and then proves that the functions
of the two sides fit.

* **FSE coding.** The spread and both table builds (`FseSpread`, `FseEncoder`,
  `FseDecoder`), normalisation (`Normalise`), the table description
  (`NCountBits`, `NCountWriter`, `NCountReader`), the backward bit streams
  (`BackwardWriter`, `BackwardReader`), the sequences section (`SeqCodes`,
  `RepCodes`, `SeqSection`, `SeqDecoder`, `SeqRoundTrip`) and the two-state weight
  stream (`WeightStream`).
* **Huffman coding.** Sorting, the two-queue tree, its depth, the height limit and
  the canonical codes (`HuffmanSort`, `HuffmanTree`, `HuffmanShape`,
  `HuffmanDepth`, `HuffmanLimit`, `HuffmanCodes`, `HuffmanTable`, `HuffmanBuild`),
  the tree description (`HuffmanWeights`, `HuffmanDescription`), both decoding
  tables (`HuffmanDecoder`, `HuffmanDouble`), the noisy two-container writer
  (`HuffmanWriter`), both stream decoders (`HuffmanStream`, `HuffmanStreamX2`) and
  the way through all of it (`HuffmanLiterals`).
* **The parallel decoder.** The ticketed cell protocol as a transition system
  (`CellProtocol`), the planning of tables (`TablePlan`), relative repeat offsets
  (`RelOffsets`).
* **Sequence execution.** Overlapping chunked copies (`MatchCopy`) and a segment
  with external history (`SequenceExec`).
* **Match finders.** The binary tree in a ring (`Suffixes`, `SuffixTree`,
  `TreeWalk`, `BinaryTree`), the fast and double-fast finders (`Counting`,
  `FastFinder`, `DoubleFastFinder`).
* **Across blocks.** The decoder's execution of sequences (`BlockExec`), the repeat
  codes of split blocks (`SplitOffsets`), double-buffered tables and offsets in
  lockstep with the decoder (`EntropyLockstep`), a whole text through a finder and
  the entropy stage (`FinderLockstep`), and the resumable block cutter
  (`BlockCutting`).

`dafny verify dfyconfig.toml` checks the whole project.

Three findings about the code came out of the proofs:

* `huf_set_max_height` sums its debt in an `i32`. Counts summing to less than 2^30
  can make that overflow: 34 Fibonacci counts do (`HuffmanDepth.DebtOverflows`).
  Counts summing to less than 5702887, which a block's always do, cannot
  (`HuffmanDepth.ShallowTree`, `HuffmanLimit.ShallowFits`). `SetMaxHeight` is proved
  for exactly the lengths whose debt fits (`HuffmanLimit.InI32`).
* The second repeat offset a fast finder returns may differ from the decoder's:
  `FastFinder.SecondLost` is such a call. It differs exactly when the first came in
  unknown, the second was known but out of reach, and one new offset was stored (the
  contract of `FastFinder.CompressBlock`). What a caller can check is `Carried`, that
  the second is known only with the first; every block keeps it, so no run that
  starts from it comes to that (`FastFinder.CompressRun`).
* The error of `normalize_m2` for a share that rounds to zero cannot come, so
  `normalize_count` fails exactly for a table log it does not take
  (`Normalise.NormalizeCount`), and `compress_weights` never does
  (`HuffmanDescription.CompressWeights`).

How the code is rendered: a bit stream is the sequence of its bits, first written
first; a mask of low bits is `Low`, shifts are `Shl` and `Shr`, 64-bit containers are
naturals cut by `Shl64`. Widths are written out where a value can wrap: the 32-bit
symbol transforms, the `i32` debt, relative offsets, the tickets' positions. Tables
that coding loops borrow are values; what builds them are classes and arrays. The
constant code tables are written as the runs they are made of. The AVX2 shuffles are
chunk copies through an index function. Some methods take ghost parameters that name
what the input describes; their contracts hold for every value of them.

## Model

| member | source | states |
|---|---|---|
| `FseSpread.VisitTime` | src/fse.rs:84-110 | the step is odd in every table of log 5 to 9, so stepping visits every cell exactly once; the inverse is given |
| `FseSpread.SpreadCount` | src/fse.rs:84-110 | the spread gives every symbol exactly as many cells as its count says |
| `FseSpread.LayLows` | src/decode.rs:505-520 | low-probability symbols go to the top cells, from the last one down, in symbol order |
| `FseSpread.SpreadSymbols` | src/fse.rs:84-110 | the in-place loop of both builds, skipping the high cells, leaves exactly the spread the inverse arguments are about |
| `FseDecoder.FastSpread` | src/decode.rs:520-560 | the decoder's other spread (symbols laid eight at a time, then two cells a turn) leaves the same table as the plain loop |
| `FseDecoder.FSETable.Build` | src/decode.rs:497-586 | either way of spreading, the decoding table is the one function of the distribution: per cell the next number of its symbol, cut to bits and base |
| `FseDecoder.FSETable.BuildRle` | src/decode.rs:429-439 | one cell that takes no state bits |
| `FseEncoder.FseCTable.Build` | src/fse.rs:61-142 | the state table and the symbol transforms implement the coder: for every state and codable symbol the wrapped 32-bit arithmetic gives the same bit count and an in-range next state |
| `FseEncoder.FseCTable.BuildRle` | src/fse.rs:145-155 | the one-symbol table implements the coder without state bits |
| `FseEncoder.CTable.InitState` | src/fse.rs:158-166 | the first state is a valid state of the symbol, read in range |
| `FseEncoder.CTable.NextState` | src/fse.rs:169-186 | the next state is a valid state again, read in range |
| `FseEncoder.EncodeThenDecode` | src/fse.rs:207-214 | for every state and symbol of nonzero probability, the cell of the state after coding reads back the symbol, the bit count, and with the emitted bits the state before |
| `BackwardWriter.BitCStream.AddBits` | src/bitstream.rs:97-102 | appends the low bits of the value to what was written; the container stays the pending bits |
| `BackwardWriter.BitCStream.FlushBits` | src/bitstream.rs:117-133 | the complete pending bytes are in the buffer, nothing written changes |
| `BackwardWriter.BitCStream.Close` | src/bitstream.rs:137-144 | returns 0 exactly when the stream does not fit its region, else the bytes are the bits, one mark, and zeros |
| `BackwardReader.BitDStream.constructor` | src/decode.rs:1450-1475 | opening loads the end of the stream: the unread bits are all those below the mark |
| `BackwardReader.BitDStream.ReadBits` | src/decode.rs:1496-1500 | consumes the next bits from the top of the unread ones and returns their value whenever they are there |
| `BackwardReader.BitDStream.ReadBitsFast` | src/decode.rs:1504-1508 | the same for one bit and more, by the shorter shift |
| `BackwardReader.BitDStream.Reload` | src/decode.rs:1535-1560 | every branch keeps the unread count; the status says overflow exactly below zero, completed exactly at zero, and unfinished only with 57 bits at hand |
| `BackwardReader.BitDStream.IsFinished` | src/decode.rs:1563-1565 | true exactly when every bit was consumed |
| `SeqCodes.LlSplits` | src/constants.rs:126-133 | a literal length below 2^17 is the base of its code plus that many low bits |
| `SeqCodes.MlSplits` | src/constants.rs:137-144 | likewise every match length |
| `SeqCodes.OffSplits` | src/constants.rs:147-149 | likewise every offset |
| `SeqCodes.LlZero` | src/decode.rs:3540-3541 | with the real tables a literal length is 0 exactly when its base value is |
| `RepCodes.SidesAgree` | src/decode.rs:3537-3571 | decoding an offset code updates the repeat history as the encoder does, for every code that does not resolve to 0 |
| `SeqSection.StreamBound` | src/fse.rs:335-337 | the region sized from the extra bits holds every stream |
| `SeqSection.EncodeSequences` | src/fse.rs:311-382 | the loop with its conditional flushes never has 64 pending bits and writes exactly the stream of states and extra bits, closed without overflow |
| `SeqDecoder.DecodeSequences` | src/decode.rs:3512-3593 | for any bytes: accepts exactly the streams whose bits the sequences use up, and returns their lengths, resolved offsets and history |
| `SeqRoundTrip.StreamDecodes` | src/decode.rs:3512-3593 | the bits written for any nonempty list, with any three tables built or RLE that cover it, decode to the same lengths and offset codes, every bit consumed |
| `SeqRoundTrip.SectionRoundTrip` | src/fse.rs:311-382 | so do the bytes; and unless an offset resolves to 0, the resolved offsets and final history are the encoder's |
| `WeightStream.FseDecompressWeights` | src/decode.rs:747-801 | for any bytes and table: the fast and slow loops give exactly the weights up to the one whose state runs out of bits and its partner's, or fail past 255 |
| `WeightStream.CompressUsingCTable` | src/fse.rs:389-436 | for every length and parity, the two-state loop writes exactly the interleaved stream, within its region; nothing for two symbols or fewer |
| `WeightStream.RoundTrip` | src/fse.rs:389-436 | decoding what was written gives the weights back if no weight has the whole table, and never ends otherwise: an exact condition |
| `WeightStream.TwoValues` | src/huf.rs:545-550 | two distinct weights meet that condition |
| `NCountWriter.WriteNCount` | src/fse.rs:677-763 | every distribution that tiles its table is written as its description: log, counts in one of two widths, zero runs, zero padding; the error comes exactly for a log out of range or if no counts from the first on fill the table |
| `NCountReader.ReadNCount` | src/decode.rs:591-722 | what is accepted tiles its table; what begins with a description is accepted with its log, its counts up to trailing zeros and its exact length, short inputs included |
| `NCountReader.ReadRun` | src/decode.rs:642-668 | a run of zeros is read as its length over any number of window moves, clamped or not |
| `NCountReader.AdvanceKeeps` | src/decode.rs:630-640 | moving the window keeps the bit position, clamped to the last four bytes, as long as bits are left |
| `NCountReader.RoundTrip` | src/fse.rs:677-763 | written, followed by any bytes, and read: the same log and counts, and exactly the written length |
| `Normalise.NormalizeCount` | src/fse.rs:506-570 | fails exactly for a table log out of range or below the least one; else a nonzero log means the counts sum to exactly 2^log and are zero exactly where the input is, and log 0 exactly a single symbol |
| `Normalise.NormalizeM2` | src/fse.rs:574-672 | the fallback always succeeds and is exact too; every loop of it ends |
| `Normalise.GiveAway` | src/fse.rs:640-651 | the give-away loop always finds a symbol to give to, so it ends, exactly at 2^log |
| `Normalise.ExactIsDist` | src/fse.rs:506-570 | an exact distribution is one the table builders take |
| `HuffmanSort.SimpleQuickSort` | src/huf.rs:194-212 | sorts its range by descending count in place, insertion sort below nine entries, touching nothing else |
| `HuffmanSort.HufSort` | src/huf.rs:216-250 | bucketing and sorting the wide buckets leaves every symbol once, with its count, in descending order |
| `HuffmanTree.BuildTree` | src/huf.rs:253-317 | two queues merged least first, never past the barrier: every node weighs its children, the two taken are at most all that is left, and the depths are a complete prefix code, longer towards the smaller counts |
| `HuffmanShape.TreeComplete` | src/huf.rs:307-316 | the leaf depths of any such merge plan have Kraft sum exactly 1 and never decrease |
| `HuffmanDepth.DepthBound` | src/huf.rs:253-317 | a tree with its deepest leaf at depth k weighs at least the Fibonacci number k + 2 |
| `HuffmanDepth.ShallowTree` | src/huf.rs:253-317 | so counts of a block (2^17) give depth at most 24, and counts below 5702887 at most 31 |
| `HuffmanLimit.SetMaxHeight` | src/huf.rs:321-430 | where the debt fits in 32 bits: ends in range with a complete code no longer than the limit, shortest lengths still first, nothing else changed |
| `HuffmanLimit.ShallowFits` | src/huf.rs:335-341 | a tree of depth 31 or less never has a debt over 31 bits |
| `HuffmanDepth.DebtOverflows` | src/huf.rs:335-341 | 34 Fibonacci counts summing to 14930351, below 2^30, force a chain of depth 33 whose debt at limit 6 does not fit in an i32 |
| `HuffmanTable.HufTable.BuildFromTree` | src/huf.rs:434-474 | the elements are the canonical codes of the lengths by symbol, packed, and zero for other symbols |
| `HuffmanCodes.PrefixFree` | src/huf.rs:448-470 | no canonical code is the start of another |
| `HuffmanBuild.BuildCTable` | src/huf.rs:480-501 | from any counts below 2^30 whose tree's debt fits in an `i32`, and so from all below 5702887: codes for exactly the symbols that occur, at most the limit, none longer for a larger count, complete and canonical, whose weights the decoder accepts with the implied last one |
| `HuffmanWeights.AcceptedIsTree` | src/decode.rs:1090-1133 | whatever weights the checks accept are those of a full tree |
| `HuffmanWeights.TreeIsAccepted` | src/decode.rs:1090-1133 | the weights of every full tree of at most 11 bits are accepted and the last one recovered |
| `HuffmanDecoder.HuffmanTable.WeightStats` | src/decode.rs:1090-1133 | the method accepts exactly those weights, and then knows the tree |
| `HuffmanDecoder.HuffmanTable.SortSymbols` | src/decode.rs:1138-1156 | counting sort: each symbol at its weight's start plus its place among that weight |
| `HuffmanDecoder.HuffmanTable.FillX1` | src/decode.rs:1164-1216 | every cell holds the symbol whose code its index begins with, and that code's length |
| `HuffmanDecoder.HuffmanTable.FillX2` | src/decode.rs:1223-1295 | every cell is the single lookup, plus the lookup after it exactly when both codes fit in 11 bits |
| `HuffmanDecoder.FillForWeight` | src/decode.rs:1315-1354 | a run of equal cells per symbol, exactly over the given range |
| `HuffmanDecoder.HuffmanTable.FillLevel2` | src/decode.rs:1360-1406 | the cells of one first symbol, the overshoot of the single-symbol runs written over |
| `HuffmanDouble.SecondRun` | src/decode.rs:1386-1405 | a window whose rest begins with a code that fits holds both symbols |
| `HuffmanDouble.NoSecond` | src/decode.rs:1372-1385 | a window whose rest is below all codes that fit holds the first symbol alone |
| `HuffmanDescription.CompressWeights` | src/huf.rs:534-565 | compressed exactly for three weights at least, two of them different and two the same, and then the bytes are the table description and the two-state stream; one repeated weight is told exactly when all are the same; it never fails |
| `HuffmanDescription.WriteCTable` | src/huf.rs:570-611 | the description is in one of the two forms, told by its header byte; there always is one for 128 weights or fewer, and only the compressed one for more |
| `HuffmanDescription.ReadWeights` | src/decode.rs:1053-1085 | any bytes: accepted with four-bit weights exactly if they are all there, with FSE weights exactly if the table read has two weights and its stream ends, and then those weights; what begins with a description, in either form, gives its weights and its length |
| `HuffmanDescription.DescribeTree` | src/decode.rs:1017-1028 | the encoder's table described, read, checked: the decoder knows the same code lengths, whatever follows the description; always, up to 129 symbols |
| `HuffmanWriter.Combine` | src/huf.rs:636-640 | an or-ed element lands above the held bits, its noise below them |
| `HuffmanWriter.AddPacked` | src/huf.rs:636-640 | fast or exact, adding a code keeps the top bits exact and the noise bounded |
| `HuffmanWriter.MergePacked` | src/huf.rs:651-656 | merging the second container does too |
| `HuffmanWriter.FlushPacked` | src/huf.rs:662-682 | the emitted word has the bits and none of the noise |
| `HuffmanWriter.Compress1X` | src/huf.rs:759-781 | for every table log to 11, unroll factor and input whose symbols all have codes, the fast writer emits exactly the plain concatenation of the codes, within the tight bound |
| `HuffmanStream.LiteralsRoundTrip` | src/decode.rs:1649-1657 | codes written last symbol first decode to the symbols, every bit consumed |
| `HuffmanStream.Decompress1X1` | src/decode.rs:1622-1657 | for any bytes and length: accepts exactly the streams the symbols use up, and gives those symbols |
| `HuffmanStreamX2.SecondSymbol` | src/decode.rs:2030-2044 | a second symbol that fits in the window is what the next window begins with |
| `HuffmanStreamX2.StepX2` | src/decode.rs:2030-2044 | a cell is one or two single-symbol steps, the end of the stream included |
| `HuffmanStreamX2.StoreLast` | src/decode.rs:2054-2064 | the last symbol takes its own code length, as a single-symbol step does |
| `HuffmanStreamX2.Decompress1X2` | src/decode.rs:2068-2117 | for any bytes and length, the same verdict and output as the single-symbol specification |
| `HuffmanStreamX2.SameDecoders` | src/decode.rs:2109-2117 | both tables filled from the same weights: same verdict, same bytes |
| `HuffmanLiterals.LiteralsEndToEnd` | src/huf.rs:910-1023 | counted, coded, described and written, any mixed literals of a block come back from the description and the stream by either decoder; they always are written if no byte is above 128 |
| `CellProtocol.StepInv` | src/decode.rs:5318-5452 | every atomic step of every thread keeps the protocol invariant |
| `CellProtocol.RunInv` | src/decode.rs:5318-5452 | so it holds along every interleaving |
| `CellProtocol.ClaimedOnce` | src/decode.rs:5335-5364 | each ticket's decode and its literals are each claimed at most once |
| `CellProtocol.StaleNeverClaims` | src/decode.rs:5335-5364 | a task claims only for the ticket the cell was last handed |
| `CellProtocol.ReadsWritten` | src/decode.rs:5474-5516 | the executing thread reads only sequences this ticket's decode wrote, literals done |
| `CellProtocol.PublishedStays` | src/decode.rs:5474-5516 | what is published is not rewritten before the cell is handed on |
| `CellProtocol.DoneMeansEnded` | src/decode.rs:5403-5420 | a done mark means that decode has ended and no other is under way |
| `CellProtocol.WaitFailsAtEnd` | src/decode.rs:6652-6681 | waiting fails only after the decode ended without publishing more |
| `CellProtocol.AwaitedLitsTaken` | src/decode.rs:5381-5387 | literals that are waited for were taken by some thread |
| `TablePlan.PlanIsSerial` | src/decode.rs:5071-5140 | after any blocks the plan's names stand for exactly the tables the serial decoder holds |
| `TablePlan.UnplannedRejected` | src/decode.rs:5109-5140 | a block that cannot be planned is one the serial decoder rejects |
| `TablePlan.BuildSkips` | src/decode.rs:6342-6363 | rebuilding a table from its block skips exactly what the serial build read before it |
| `TablePlan.LitCell.DecodeLiterals` | src/decode.rs:6227-6254 | whatever table a cell holds from this run or an earlier one, literals are decoded with the named one; the tag stays true |
| `TablePlan.SeqCell.BuildTables` | src/decode.rs:6258-6298 | the same for the three sequence tables |
| `TablePlan.LitCell.Survives` | src/decode.rs:6227-6254 | a cell's tag stays true when a new run begins |
| `TablePlan.SeqCell.Survives` | src/decode.rs:6258-6298 | so do its three table tags |
| `TablePlan.PlannedTables` | src/decode.rs:5071-5140 | each block gets the tables the serial decoder carries into it |
| `TablePlan.SyncIsSerial` | src/decode.rs:7137-7155 | handing back to the serial decoder leaves the tables it would hold |
| `RelOffsets.RelReps.Code0` | src/decode.rs:5206-5212 | the in-place update is the one of the specification |
| `RelOffsets.RelReps.Code1` | src/decode.rs:5219-5228 | likewise, with its wrapping decrement |
| `RelOffsets.RelReps.NewOffset` | src/decode.rs:5196-5201 | likewise for a new offset |
| `RelOffsets.StepStands` | src/decode.rs:5190-5228 | a decrement never borrows into the origin tag; the entry is worth the serial offset |
| `RelOffsets.ResolvesSerial` | src/decode.rs:5234-5261 | for fewer than 2^31 sequences, offsets up to the first corrupt one, and the history without one, resolve to the serial decoder's |
| `RelOffsets.PublishedReads` | src/decode.rs:5508-5526 | the three entries survive being packed as words and two-bit tags |
| `MatchCopy.CopyMatch` | src/decode.rs:3843-3865 | for every offset and length, the chunked copy is the byte-at-a-time one, within 31 bytes of slack |
| `MatchCopy.CopyMatchShort8` | src/decode.rs:3886-3906 | the four-byte head variant too |
| `MatchCopy.CopyMatchWide` | src/decode.rs:3920-3941 | the 32-byte variant too, periodic copies included |
| `MatchCopy.CopyMatchShort32` | src/decode.rs:3977-4061 | the shuffled-load variant too |
| `MatchCopy.OverlapCopy8` | src/decode.rs:4164-4180 | eight bytes, after which the distance is a multiple of the offset of at least eight |
| `SequenceExec.CopyLiterals` | src/decode.rs:3717-3723 | the literals, and at most 31 bytes of slack |
| `SequenceExec.WildcopyFrom` | src/decode.rs:3789-3806 | likewise from any other buffer |
| `SequenceExec.ReplayAcross` | src/decode.rs:3738-3771 | a match that begins in the external history continues at the segment's first byte |
| `SequenceExec.CopyFromHistory` | src/decode.rs:3636-3660 | a match from before the segment, by either of its branches, is the replay |
| `SequenceExec.ExecSequence` | src/decode.rs:3601-3709 | accepts exactly the offsets that history, window and dictionary exception allow, and appends exactly the replayed bytes; rejects without writing |
| `Counting.Count` | src/compress/common.rs:281-316 | the word-at-a-time count is the length of the common prefix |
| `TreeWalk.GuaranteedMinimum` | src/compress/bt.rs:132-137 | the smaller of the two common lengths is shared with every node still to be met |
| `TreeWalk.TakeValid` | src/compress/bt.rs:159-184 | taking a node keeps the split of the tree |
| `TreeWalk.SplitOrdered` | src/compress/bt.rs:96-199 | a finished walk leaves a search tree ordered by suffix, the new position its root |
| `BinaryTree.BtFinder.InsertBt1` | src/compress/bt.rs:96-199 | for any tables, window, compare limit and ring size, the position becomes its bucket's root and every live link leads only to older positions sorted to its side |
| `BinaryTree.BtFinder.UpdateTree` | src/compress/bt.rs:208-223 | so after any run with any skips |
| `BinaryTree.BtFinder.InsertHash3` | src/compress/bt.rs:233-249 | the three-byte table holds the latest position of each hash |
| `BinaryTree.BtFinder.InsertBtAndGetAllMatches` | src/compress/bt.rs:267-449 | every match is a common prefix of exactly its length, lengths strictly increase, the count fits; nothing longer was missed among what the search may reach |
| `BinaryTree.BtFinder.BtGetAllMatches` | src/compress/bt.rs:461-489 | the same with the catch-up before it, nothing where the tree skipped |
| `BinaryTree.DistanceIsRepeat` | src/compress/bt.rs:290-330 | a repeat code stands for the decoder's offset |
| `FastFinder.CompressBlock` | src/compress/fast.rs:111-417 | for any table contents and hash, replaying what is stored rebuilds the block; the first offset is the decoder's; the second is exactly unless the first was unknown, the second out of reach and one new offset stored; repeat codes only name offsets that are known |
| `FastFinder.SecondLost` | src/compress/fast.rs:111-417 | one such call: the first offset unknown, the second out of reach, one match in a text of one byte; what is stored leaves the decoder another second offset than the one given back |
| `FastFinder.CompressRun` | src/compress/fast.rs:111-417 | over any run of blocks, raw ones between, from offsets known in order, a decoder gets the text and both offsets stay its own |
| `FastFinder.ReplaysText` | src/compress/common.rs:669-706 | copying a common prefix from behind gives the text |
| `DoubleFastFinder.CompressBlock` | src/compress/dfast.rs:56-327 | the two-table finder, with the next position's long match: the same, and the same exact condition |
| `DoubleFastFinder.CompressRun` | src/compress/dfast.rs:56-327 | the same over a run of blocks |
| `EntropyLockstep.Slots.Commit` | src/compress/entropy.rs:147-156 | committing shows the spare, the held or no table |
| `EntropyLockstep.Slots.DemoteValid` | src/compress/entropy.rs:159-163 | only the mode is lowered |
| `EntropyLockstep.Slots.Load` | src/compress/entropy.rs:171-179 | copies what is held and its mode |
| `EntropyLockstep.SelectType` | src/fse.rs:893-960 | a repeat is chosen only while a table is held |
| `EntropyLockstep.SectionKeepsStep` | src/decode.rs:3055-3092 | the decoder takes every section the coders write, and is in step after the commit |
| `EntropyLockstep.BlockState.EndBlock` | src/compress/block.rs:123-130 | a candidate becomes visible only if the block was written compressed; a dictionary's offset table is demoted |
| `SplitOffsets.ResolveOffCodes` | src/compress/split.rs:204-220 | the in-place walk leaves exactly the rewritten codes of the specification, and both histories after them |
| `SplitOffsets.RewrittenSame` | src/compress/split.rs:204-220 | whatever of the finder's history the decoder holds, a rewritten code gives it the offset the finder meant, and both stay known as far as they were |
| `SplitOffsets.PartDecodes` | src/compress/block.rs:612-637 | whichever parts before were RAW or RLE, a part's rewritten sequences and its literals give the decoder exactly the part's bytes |
| `BlockExec.FinderExec` | src/decode.rs:3537-3571 | what rebuilds the text from a finder's offsets, a decoder executes by its own history |
| `EntropyLockstep.BlockState.EntropyAndEmit` | src/compress/block.rs:521-563 | whatever the tests choose, the decoder takes the block, has its bytes and holds the counterpart of every table and offset held; a block not COMPRESSED changes nothing held |
| `EntropyLockstep.BlockState.EmitBlock` | src/compress/block.rs:577-646 | the same for a block not tried, whole, or split anywhere, whichever parts are RAW, RLE or COMPRESSED |
| `FinderLockstep.FindSequences` | src/compress/fast.rs:111-417 | what either fast finder stores, with the last literals, is a block the decoder executes, whose repeat codes are known |
| `FinderLockstep.CompressText` | src/compress/block.rs:653-693 | a whole text, block by block: for any tables, hashes, splits and outcomes of the tests, the decoder takes every block, has the text, and holds what the encoder may repeat |
| `BlockCutting.JobBlocks.Rebase` | src/compress/block.rs:781-783 | moving the input down moves the next start and nothing else, wrapping |
| `BlockCutting.JobBlocks.InputEnded` | src/compress/block.rs:837-841 | only a chunk end moves the first chunk end, and only down |
| `BlockCutting.JobBlocks.NextCut` | src/compress/block.rs:888-897 | the next block, its first and last flags included, is the whole job's |
| `BlockCutting.JobBlocks.CompressBlocks` | src/compress/block.rs:965-983 | the blocks an input makes ready continue the one-shot cutting |
| `BlockCutting.Feed` | src/compress/block.rs:737-744 | any series of inputs, open or ending a chunk where the whole job's end, with moves, then the end: the one-shot blocks, flags and final savings, however the blocks written so far decide the size of the next |
| `BlockCutting.JobBlocks.NextUnwritten` | src/compress/block.rs:905-920 | a size is given early exactly when no larger savings could change it |
| `BlockCutting.PartsGain` | src/compress/block.rs:1002-1009 | a block whose parts are all COMPRESSED gains at least the bound |
| `BlockCutting.PipelinedChoice` | src/compress/block.rs:1058-1076 | the early choice with that bound is the choice made after the block is written |

## Left out

- SeqDecoder.DecodeSequences: decodes the sequences without executing them between; execution is `SequenceExec.ExecSequence`, and the two meet in the offsets and lengths.
- SeqRoundTrip.SectionRoundTrip: for a list with an offset that resolves to 0, only the lengths, the offset codes and the bits come back, as in the code.
- NCountWriter.WriteNCount: of counts that fill the table before the last symbol it says only that they are accepted; the output vector is a sequence.
- NCountReader.ReadNCount: the accuracy log bound is at most 12, as every caller gives; it does not say which malformed headers are rejected.
- Normalise.NormalizeCount: not that the shares are close to the counts.
- HuffmanTree.BuildTree: proves the greedy merges and the complete code, not that its cost is the least possible.
- HuffmanBuild.BuildCTable: nothing once the debt has overflowed, which no block's does; which of several symbols of the same count gets the shorter code is what the sort gives, not stated.
- HuffmanLimit.SetMaxHeight: asks that the debt fit in an `i32`; which lengths are chosen, beyond complete, limited and in order, is not stated.
- HuffmanDescription.WriteCTable: for more than 128 weights, not how long the compressed form gets, which decides whether there is a description; the encoder then sends the literals raw.
- HuffmanStreamX2.Decompress1X2: the single stream; four interleaved streams, their jump table and their fast loops are not modelled, nor is the choice between the tables.
- CellProtocol.StepInv: mutexes, hardware memory ordering, panics and the pool's scheduling are not modelled; steps are atomic and sequentially consistent, tickets are never used again, and a cell that was given up is reused when no task holds it.
- TablePlan.PlannedTables: the table builders are one opaque function that gives a table and the length of its description; which kind of Huffman table is built is not told apart; raw and RLE blocks, which touch no table, are not listed.
- SequenceExec.ExecSequence: the external history is a sequence of its own; that it may share a buffer with the segment is not modelled.
- BinaryTree.BtFinder.BtGetAllMatches: the text and the window are fixed while it runs; lowering the tables when indices grow and the dictionary variants are not modelled.
- FinderLockstep.CompressText: the fast and double-fast finders; the history is the text's own, as no dictionary comes before it.
- FastFinder.CompressBlock: the text is one piece; the variants with an external or an attached dictionary repeat the argument and are left out; the third repeat offset, which it does not touch, is not tracked.
- EntropyLockstep.BlockState.EmitBlock: what the cost tests choose and where a block is split are arbitrary; repeat codes are assumed to name known offsets, which is proved of the fast finders.
- Which tables are cheapest, and every other heuristic that picks among valid encodings.
- Frame and block headers, literals headers, checksums, dictionaries' parsing, the streaming interfaces, the lazy, optimal and long-distance finders, how the splitter finds its splits.
- Literals of one repeated byte, which are sent as RLE and never reach the Huffman coder.
