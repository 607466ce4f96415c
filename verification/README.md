# Compression, checksum and random number code: a verified model

This project models the compression and number code that the repository ships with: the bzip2
block compressor and decompressor (`dep/bzip2`), the deflate matcher, the inflate tables and the
inflate decoder of zlib, its two checksums (`dep/zlib`), and the exact random integers of the
SFMT generator (`dep/SFMT`). It proves, for all inputs, what this code is for:

- **bzip2, forwards and back.** Both block sorters, each with its stacks, its header bits or its
  quadrants and its budget, list all rotations of any block in order (`FallbackSort.FallbackSort`,
  `MainSort.MainSort`, `BlockEncode.BlockSort`). Both inverse transforms, the one of four bytes an
  entry and the one packed into twenty bits with its pointer reversal, walk back to the block
  whatever the order of equal rotations (`InverseTransform`, `DecodeTables`, `BlockOutput`).
  Move-to-front with its zero runs, the segmented list of the decoder, the length-limited Huffman
  construction (which is optimal, and ends), the choice of tables and the bit streams are each
  proved against a specification, and together they give the round trip of a block
  (`BlockRoundTrip.BlockReadBack`) and of a whole stream (`StreamFormat.StreamReadBack`).
- **Calls in pieces.** The decoder stops wherever its input or its room ends and carries on as if
  it had not (`StreamReader.Decompressor.BzDecompress`, `StreamReader.InPieces`). The compressor
  accounts for every byte it takes in and hands out over any sequence of actions
  (`Compressor.BzCompressor.BzCompress`).
- **deflate.** For every level from 1 to 9, every strategy, window size, memory level, flush and
  cutting of the input, the tokens expand to the input, and each of them is the choice that level
  and strategy make there: greedy, lazy, runs or none (`Deflate.Run`). The hash chains leave out no
  position within reach, through insertion, sliding and refilling of the window, so that a search
  misses no match it should find; and all they hold is of one hash, which is why the third byte of
  a candidate need not be compared.
- **inflate.** The two-level tables decode canonical codes for all bits that may follow
  (`InflateTables.InflateTable`), and the fast loop, with its budget of six bytes in and 258 bytes
  out, is a number of single steps (`InflateFast.InflateFast`, `InflateFast.DecodeBlock`).
- **From deflate to inflate.** The symbols and extra bits that deflate sends for tokens are read
  as these tokens: a block written for any tokens is expanded to what they stand for
  (`TreeCodes.CompressBlock`, `BlockCodes.InflateBlock`).
- **Checksums.** CRC-32 by table, by four tables at once, and combined by powers of a matrix; the
  block checksum of bzip2 is the same with all bits reversed (`CrcMirror.SameChecksum`); neither
  overlooks a change within four neighbouring bytes. Adler-32 with its deferred and its
  division-free reductions, and combined.
- **Random integers.** Multiplication with rejection is exactly uniform.

## How it is laid out

One module is one file. Code that changes things in place is a method on arrays or a class, held
to a function of the old state; what that function is good for is stated by lemmas.

| files | what they model |
|---|---|
| `RunLength`, `BlockCrc`, `BlockFill`, `BlockOutput` | the run-length layer on both sides and the block checksum |
| `Rotations`, `Counting`, `PrefixOrder` | rotations of a block, counting, ordering by beginnings |
| `FallbackQSort`, `FallbackSort` | the sorter for repetitive blocks |
| `MainOrder` to `MainSort`, `SortAgreement` | the main sorter, and when the two must give the same stream |
| `InverseTransform`, `DecodeTables` | the inverse transform, fast and small |
| `Mtf`, `MtfEncode`, `MtfSegments` | move-to-front and zero runs |
| `Bits`, `BitStream` | bit strings and the bit buffers |
| `HuffmanCodes`, `HuffmanTables`, `CodeTree`, `CodeOptimal`, `WeightHeap`, `HuffmanLengths` | canonical codes and code lengths |
| `BlockFormat`, `BlockRoundTrip`, `SelectTables`, `SendMtf`, `BlockEncode`, `OutputFits` | a block as bits, written and read back |
| `SymbolReader`, `TableReader`, `SelectorBounds`, `StreamFormat`, `StreamReader`, `Compressor` | whole streams, in pieces |
| `Crc32`, `CrcMirror`, `Adler32`, `RandomInteger` | checksums and random integers |
| `DeflateHash` to `Deflate` | the matcher; `DeflateChoice` says what its strategies choose |
| `LsbBits`, `InflateCodes` to `InflateFast` | inflate |
| `TreeCodes`, `BlockCodes` | a block of tokens as bits, written and read back |

`dafny verify dfyconfig.toml` checks the whole project.

## Model

| member | source | states |
|---|---|---|
| RunLength.ExpandUndoesEncode | dep/bzip2/bzlib.c:216-247 | the bytes add_pair_to_block writes for any runs of 1 to 255 that are kept apart expand to exactly the bytes gathered |
| RunLength.SpeltIsExpansion | dep/bzip2/bzlib.c:608-661 | what is put out for a block that stands for something is that; for one that breaks off before a count, what it would stand for with the symbol after it added |
| RunLength.ExpandOneRun | dep/bzip2/bzlib.c:216-247 | one encoded run followed by data that cannot be mistaken for its continuation expands to that run, then the expansion of the rest |
| BlockFill.EState.constructor | dep/bzip2/bzlib.c:148-211 | a new encoder state: nothing gathered, nblockMAX 19 short of the block size, room behind the block for the overshoot |
| BlockFill.EState.AddPairToBlock | dep/bzip2/bzlib.c:216-247 | the open run joins the runs of the block; the block's bytes are the encoding of all runs, inUse marks exactly the bytes among them, the checksum is that of the raw bytes; at most five bytes are added |
| BlockFill.EState.FlushRL | dep/bzip2/bzlib.c:252-256 | afterwards no run is open and the runs are those before with the open one |
| BlockFill.EState.AddChar | dep/bzip2/bzlib.c:260-284 | one byte more has been gathered, by the fast track or not, and at most five bytes were written |
| BlockFill.EState.StartBlock | dep/bzip2/bzlib.c:117-126 | the block is empty again and described as such, an open run being carried over |
| BlockCrc.FoldConcat | dep/bzip2/bzlib_private.h:157-172 | the running checksum of a concatenation is that of the second part started from that of the first |
| CrcMirror.SamePolynomial | dep/zlib/crc32.c:95-106 | the exponents of crc32.c and 0x04c11db7, from which the table of bzip2 is made, are one polynomial |
| CrcMirror.SameUpdate | dep/bzip2/bzlib_private.h:167-172 | entering a byte most significant bit first is the step of crc32.c on the byte reversed |
| CrcMirror.SameChecksum | dep/bzip2/bzlib_private.h:157-172 | for every string, the checksum of a block, read from the other end, is the CRC-32 of the bytes with their bits reversed |
| CrcMirror.BlockBurst | dep/bzip2/bzlib_private.h:167-172 | blocks that differ within four neighbouring bytes, and so in one, have different checksums |
| FallbackQSort.FallbackSimpleSort | dep/bzip2/blocksort.c:30-60 | the stretch is rearranged into non-decreasing order of class numbers |
| FallbackQSort.FallbackQSort3 | dep/bzip2/blocksort.c:92-180 | the stretch is rearranged into non-decreasing order of class numbers; no access leaves the stack of 100 (assertion 1004) |
| FallbackQSort.Partition | dep/bzip2/blocksort.c:132-170 | smaller, equal and larger classes around the pivot are separated, nothing being lost |
| FallbackQSort.StackIsShallow | dep/bzip2/blocksort.c:109-178 | because the larger part is pushed first, a stretch long enough to be partitioned is never more than thirty entries up the stack |
| FallbackSort.InitialRanked | dep/bzip2/blocksort.c:231-245 | after the radix pass, entries between header bits agree in one byte and later buckets are greater |
| FallbackSort.RadixPass | dep/bzip2/blocksort.c:231-257 | fmap is ranked by first bytes, the header bits and sentinels are in place, and the byte counts are kept |
| FallbackSort.AssignClasses | dep/bzip2/blocksort.c:266-271 | eclass of the rotation h bytes before an entry is the bucket that entry lies in |
| FallbackSort.RefineAll | dep/bzip2/blocksort.c:273-306 | one round takes a ranking by h bytes to one by 2h bytes; nothing left to do means every entry has a bucket of its own |
| FallbackSort.RoundDone | dep/bzip2/blocksort.c:273-306 | once all buckets are refined, entries of one bucket are equal on 2h bytes and buckets are in order on 2h bytes |
| FallbackSort.RankedSorted | dep/bzip2/blocksort.c:311-312 | stopping is right: when h reaches the block size, or all buckets are single, the rotations are sorted |
| FallbackSort.RebuildBlock | dep/bzip2/blocksort.c:322-328 | from the sorted order and the kept byte counts alone, the overwritten block is rebuilt |
| FallbackSort.FallbackSort | dep/bzip2/blocksort.c:212-329 | fmap lists every rotation once, in non-decreasing order, and the block is unchanged, for every non-empty block |
| MainCompare.MainGtU | dep/bzip2/blocksort.c:347-469 | the answer agrees with the cyclic order of the two rotations (either answer being right for equal ones), all reads staying within the block and its overshoot of 34, whenever the quadrant values are sound; it takes from the budget at most one for eight bytes on which the two agree |
| MainOrder.LeByShift | dep/bzip2/blocksort.c:407-466 | rotations that agree on d bytes are in the order of the rotations d bytes on, which is what justifies consulting a quadrant value |
| MainSimpleSort.SimpleSort | dep/bzip2/blocksort.c:484-555 | rotations that agree on d bytes are rearranged, and are in order unless the budget has run out; at most fourteen passes are paid for |
| MainPartition.Med3 | dep/bzip2/blocksort.c:581-592 | one of the three values, with at most one below and at most one above it |
| MainPartition.Partition | dep/bzip2/blocksort.c:661-700 | the stretch is divided by the byte d places into each rotation, nothing being lost |
| MainQSort.StackIsShallow | dep/bzip2/blocksort.c:702-715 | with three parts pushed largest first, sizes bound the stack: no stretch that is split lies high enough for assertion 1001 to fail |
| MainQSort.MainQSort3 | dep/bzip2/blocksort.c:620-717 | a stretch of rotations with a common beginning is rearranged, and is in order unless the budget has run out; each entry is paid for once |
| MainRadix.CountPairs | dep/bzip2/blocksort.c:769-792 | ftab counts the pairs of neighbouring bytes, cyclically, and the quadrants are cleared |
| MainRadix.PlacePairs | dep/bzip2/blocksort.c:805-830 | every rotation is at its stable rank by its first two bytes |
| MainRadix.PlacedBucketed | dep/bzip2/blocksort.c:803-833 | that makes ptr a permutation in which each rotation lies between the starts of its small bucket and the next |
| MainBuckets.BucketedShaped | dep/bzip2/blocksort.c:803-833 | every small bucket then lists exactly the rotations with its two bytes |
| MainBuckets.ListingComplete | dep/bzip2/blocksort.c:886-907 | a small bucket of the right size without repetitions leaves no rotation out |
| MainBuckets.AllOrdered | dep/bzip2/blocksort.c:868-1006 | if each small bucket lists its rotations in order, ptr is a sorted permutation of all rotations |
| MainRunning.RunningOrder | dep/bzip2/blocksort.c:837-860 | a permutation of the 256 bytes by rising size of their big buckets |
| MainRuns.DownBeforeUp | dep/bzip2/blocksort.c:923-934 | after a run of ss, rotations that go on with a smaller byte come before those that go on with a greater one |
| MainRuns.LePred | dep/bzip2/blocksort.c:923-934 | rotations that begin with the same byte are in the order of the rotations one step on |
| MainForward.ForwardCopy | dep/bzip2/blocksort.c:923-928 | one step of the forward scan: the rotation one step back fits, extends the left part of its small bucket in order, and what is still to be scanned stays sorted and free of repetitions |
| MainForward.ForwardSkip | dep/bzip2/blocksort.c:923-928 | one step past a finished bucket leaves everything as it is |
| MainBackward.BackwardCopy | dep/bzip2/blocksort.c:929-934 | one step of the backward scan writes into a free place of the right part and disturbs no left part |
| MainBackward.RoomBoth | dep/bzip2/blocksort.c:923-934 | what both scans copy into one small bucket is distinct and no more than the bucket holds |
| MainScan.MemberCopied | dep/bzip2/blocksort.c:923-934 | unless all bytes are ss, every rotation of a small bucket that ends in ss is met by one scan or the other, that of ss followed by ss included |
| MainScan.BucketComplete | dep/bzip2/blocksort.c:918-944 | both parts of a small bucket meet, and together they list all its rotations in order |
| MainScan.OnlyStarts | dep/bzip2/blocksort.c:937-944 | a block of one byte is the other case assertion 1007 allows for |
| MainSweep.ScanForward | dep/bzip2/blocksort.c:923-928 | the whole forward scan keeps the invariant of its steps and ends where copying ended |
| MainSweep.ScanBackward | dep/bzip2/blocksort.c:929-934 | the same for the backward scan |
| MainSweep.Sweep | dep/bzip2/blocksort.c:918-944 | every small bucket that ends in ss and is not yet done is now a complete ordered listing, all others are untouched, and assertion 1007 holds |
| MainQuadrants.UpdateQuadrants | dep/bzip2/blocksort.c:987-1004 | quadrant values written from the places of a finished big bucket never contradict the order of rotations; sixteen bits are enough (assertion 1002) |
| MainQuadrants.Filled | dep/bzip2/blocksort.c:996-1002 | shifted places are monotone, so that a smaller quadrant value means a rotation that is no later |
| MainQuadrants.Shifts | dep/bzip2/blocksort.c:992-994 | the least shift that brings the size down to sixteen bits |
| MainSort.SortRow | dep/bzip2/blocksort.c:886-907 | step 1: all small buckets of ss but ss followed by ss are in order and flagged, unless the budget has run out |
| MainSort.SweepColumn | dep/bzip2/blocksort.c:909-946 | step 2 with its flags: every flagged small bucket is in order, and so is the whole big bucket of ss |
| MainSort.CompleteBig | dep/bzip2/blocksort.c:876-1004 | all three steps keep the invariant: shape, flags, order of flagged buckets, soundness of the quadrants |
| MainSort.MainSort | dep/bzip2/blocksort.c:750-1011 | if the budget is not negative in the end, ptr lists every rotation once, in non-decreasing order; the block is unchanged; assertion 1006 holds; the budget used is bounded, so that one that covers all comparisons never runs out, and a block in which no two rotations agree on twenty bytes uses none |
| SortAgreement.SameColumn | dep/bzip2/blocksort.c:1056-1078 | the last column does not depend on which sorter ran |
| SortAgreement.OriginSettled | dep/bzip2/blocksort.c:1083-1088 | all sorted orders have the same origin if and only if the block does not repeat itself, which is when the comment that the streams are the same is sure to hold |
| BlockEncode.FindOrigin | dep/bzip2/blocksort.c:1083-1088 | the place of rotation 0 in ptr; there is one (assertion 1003) |
| BlockEncode.BlockSort | dep/bzip2/blocksort.c:1031-1089 | whatever the work factor, ptr is a sorted listing of all rotations, origPtr is where rotation 0 stands, the block is unchanged |
| InverseTransform.InverseUndoesSort | dep/bzip2/decompress.c:524-576 | walking the stable ranks of the last column from origPtr spells the block, for every sorted order of the rotations, ties in any order, periodic blocks included |
| InverseTransform.LinkAdvances | dep/bzip2/bzlib_private.h:444-456 | one link yields the byte of the block at the current place and moves the row on by one place |
| InverseTransform.PrependedRowsAgree | dep/bzip2/decompress.c:559-564 | prepending the last column to the sorted rows and sorting stably gives the same rows |
| DecodeTables.BuildCftab | dep/bzip2/decompress.c:494-516 | cftab is the cumulative count of every byte |
| DecodeTables.BuildFast | dep/bzip2/decompress.c:559-564 | each entry of tt holds its column byte and the link of the inverse transform |
| DecodeTables.PrepareFast | dep/bzip2/decompress.c:494-564 | from the column and its counts, tt holds byte and link for every row |
| DecodeTables.SetLL | dep/bzip2/bzlib_private.h:458-473 | the 20-bit entry is stored and read back, neighbours sharing its byte keeping their nibble |
| DecodeTables.BuildRanks | dep/bzip2/decompress.c:526-534 | the packed table holds the stable rank of every row |
| DecodeTables.ReverseLinks | dep/bzip2/decompress.c:536-545 | pointer reversal ends, and every row on the cycle of origPtr then holds the link of the fast decoder |
| DecodeTables.PrepareSmall | dep/bzip2/decompress.c:494-545 | tables of the small decoder: cumulative counts, and true links on a cycle that contains origPtr |
| DecodeTables.IndexIntoF | dep/bzip2/bzlib.c:687-698 | binary search ends at the byte whose ranks include the index |
| DecodeTables.IndexIsLinkedSymbol | dep/bzip2/bzlib_private.h:475-479 | that byte is the one the fast decoder reads from tt |
| BlockOutput.DState.StartFast | dep/bzip2/decompress.c:494-574 | what is to be emitted is the expansion of the walk from origPtr, and if that breaks off before a count, the run whose count is the symbol after it |
| BlockOutput.DState.StartSmall | dep/bzip2/decompress.c:494-555 | the same for the small decoder |
| BlockOutput.DState.GetFast | dep/bzip2/bzlib_private.h:444-456 | the next byte and row of the inverse transform; tPos is never out of range |
| BlockOutput.DState.GetSmall | dep/bzip2/bzlib_private.h:475-479 | the same from the packed table |
| BlockOutput.DState.UnRleFast | dep/bzip2/bzlib.c:536-661 | the bytes written are the next bytes of the block, as many as there is room for; the checksum runs over them; a block that breaks off before a count is reported, and the bytes of that call are not |
| BlockOutput.DState.UnRleSmall | dep/bzip2/bzlib.c:706-803 | the same contract, met by different control flow; what was written of a block that breaks off is reported |
| BlockOutput.SplitInvisible | dep/bzip2/bzlib.c:589-680 | output space of a bytes and then b bytes gives what a + b bytes at once gives, and leaves the same to come |
| Mtf.RanksRoundTrip | dep/bzip2/compress.c:161-210 | following the move-to-front ranks of any string spells the string |
| Mtf.ShortRuns | dep/bzip2/compress.c:178-193 | how runs of one to seven zeros are written |
| Mtf.DigitsRead | dep/bzip2/decompress.c:381-398 | reading the digits written for a run adds exactly its length |
| Mtf.TokensRoundTrip | dep/bzip2/compress.c:163-228 | zero runs written in RUNA and RUNB are accumulated again by the decoder, the last one included |
| MtfEncode.MakeMapsE | dep/bzip2/compress.c:106-115 | bytes in use are numbered in ascending order |
| MtfEncode.MapsInverse | dep/bzip2/decompress.c:27-36 | the decoder's map takes every number back to its byte |
| MtfEncode.GenerateMtfValues | dep/bzip2/compress.c:120-231 | in the memory in which the sorted order is read word by word, the tokens of the last column come to stand, half a word each, with the end-of-block token last; mtfFreq counts them |
| MtfEncode.TokensFit | dep/bzip2/compress.c:128-165 | tokens written and zeros pending never outnumber the symbols read |
| MtfEncode.WordsKept | dep/bzip2/compress.c:136-142 | tokens take the place of a word of the sorted order no sooner than it has been read |
| MtfEncode.ColumnRanks | dep/bzip2/compress.c:154-210 | ranks of sequence numbers are ranks of the bytes themselves |
| MtfSegments.MtfList.constructor | dep/bzip2/decompress.c:358-369 | sixteen segments that hold the identity |
| MtfSegments.MtfList.Fetch | dep/bzip2/decompress.c:423-474 | entry nn of the plain list is returned and moved to the front; the segments stay in order and apart |
| MtfSegments.MtfList.FetchFar | dep/bzip2/decompress.c:445-473 | the general case: one segment closes up and every earlier one moves down by one place |
| MtfSegments.MtfList.Rebuild | dep/bzip2/decompress.c:463-472 | packing in place from the top overwrites nothing unread: the list is the same |
| MtfSegments.MtfList.Front | dep/bzip2/decompress.c:398-399 | the byte a run repeats is the first of the list |
| HuffmanCodes.FitsIffKraft | dep/bzip2/huffman.c:152-165 | the codes of every length fit into that many bits if and only if the Kraft sum is at most one |
| HuffmanCodes.PrefixFree | dep/bzip2/huffman.c:152-165 | no code is the beginning of another |
| HuffmanCodes.SymbolReadBack | dep/bzip2/decompress.c:74-102 | reading bits that begin with the code of a symbol gives the symbol and exactly its bits, whatever follows |
| HuffmanCodes.SearchIsSymbol | dep/bzip2/decompress.c:74-102 | for any tables that describe the lengths, the limit/base/perm loop gives the canonical symbol, or fails exactly when there is none |
| HuffmanCodes.TablesDecode | dep/bzip2/decompress.c:74-102 | lengths with a Kraft sum of at most one: limit, base and perm return the original symbol |
| HuffmanTables.HbAssignCodes | dep/bzip2/huffman.c:152-165 | every symbol gets its canonical code |
| HuffmanTables.HbCreateDecodeTables | dep/bzip2/huffman.c:170-200 | limit, base and perm describe the canonical code of any lengths |
| CodeTree.KraftSumJoin | dep/bzip2/huffman.c:100-110 | joining two trees makes the Kraft sum of the new tree half of the two together and leaves all others as they are |
| HuffmanLengths.GrownNew | dep/bzip2/huffman.c:100-110 | the two lightest trees, joined, weigh at least what the Fibonacci-like bound asks for the new height |
| WeightHeap.UpHeap | dep/bzip2/huffman.c:33-42 | the heap is ordered again with the new node in it |
| WeightHeap.DownHeap | dep/bzip2/huffman.c:44-59 | the heap is ordered again, with the same nodes |
| WeightHeap.Pop | dep/bzip2/huffman.c:101-102 | a lightest node leaves the heap, the others stay |
| CodeOptimal.MergeCode | dep/bzip2/huffman.c:100-110 | any code for the roots can be changed, at no cost, so that the two lightest have the two longest codes, of equal length, and can be joined |
| CodeOptimal.PromiseKept | dep/bzip2/huffman.c:100-121 | the depths in the finished tree cost no more than any lengths with a Kraft sum of at most one |
| HuffmanLengths.TreeAfter | dep/bzip2/huffman.c:100-110 | joining the two lightest roots keeps: a full binary forest, summed weights, the height in the low byte, heights bounded by weights |
| HuffmanLengths.FlatteningHelps | dep/bzip2/huffman.c:142-146 | a code longer than 17 bits can only come from weights whose sum flattening lowers: the retry loop ends |
| HuffmanLengths.FlatterBounds | dep/bzip2/huffman.c:142-146 | a weight x becomes at least x / 2 and at most x / 2 + 1, and no two weights change places |
| HuffmanLengths.ReadLengths | dep/bzip2/huffman.c:114-121 | every length is the depth of its leaf, and tooLong says whether one is above the limit |
| HuffmanLengths.HbMakeCodeLengths | dep/bzip2/huffman.c:63-148 | lengths in 1..maxLen with Kraft sum exactly one, no dearer than any other code for the weights they were made from; weights are flattened only after a best code that was too long |
| BitStream.BitWriter.BsW | dep/bzip2/compress.c:58-79 | exactly the n bits of v are appended to what was written |
| BitStream.BitWriter.FinishWrite | dep/bzip2/compress.c:45-53 | all bits are in bytes, fewer than eight having been added |
| BitStream.BitReader.GetBits | dep/bzip2/decompress.c:43-65 | the next n bits, or nothing taken because the input ran out first |
| SelectTables.PackedCosts | dep/bzip2/compress.c:358-385 | six costs added up two to a word are the true costs |
| SelectTables.BestTable | dep/bzip2/compress.c:399-405 | the first of the cheapest tables |
| SelectTables.SelectPass | dep/bzip2/compress.c:342-435 | each group of fifty selects a table that is cheapest for it, and rfreq counts the symbols coded with each table |
| SelectTables.InitialTables | dep/bzip2/compress.c:279-317 | the alphabet is cut into ranges: each symbol is cheap in exactly one table |
| SelectTables.LengthsFor | dep/bzip2/compress.c:444-451 | a complete code of at most 17 bits for counts a block can have, best for the counts after those rounds of flattening that a best code too long has forced |
| SelectTables.RebuildTables | dep/bzip2/compress.c:444-451 | table t is made for the symbols of the groups that have selected t |
| SelectTables.ChooseTables | dep/bzip2/compress.c:271-452 | two to six complete tables and a valid selector for every group: those after four rounds, in each of which every group selects a table that is cheapest for it under the tables of the round before, and every table is then made for the symbols it has just coded |
| SendMtf.RankSelectors | dep/bzip2/compress.c:461-478 | selectors are written as their move-to-front ranks |
| SendMtf.CodesFor | dep/bzip2/compress.c:480-492 | the canonical codes of the lengths |
| SendMtf.SendMtfValues | dep/bzip2/compress.c:239-598 | what is written is mapping table, selectors, lengths and codes of a header the decoder accepts, for exactly the given tokens; selectors and lengths are those of the four rounds |
| BlockEncode.TokensOf | dep/bzip2/compress.c:120-231 | the tokens of the last column of a sorted block, over the bytes marked in inUse |
| BlockEncode.EncodeBlock | dep/bzip2/compress.c:602-655 | a non-empty block is written so that it can be read back as the raw bytes its runs stand for, in at most twenty bits for each of its bytes and a fixed number more |
| OutputFits.StreamSize | dep/bzip2/compress.c:461-594 | a coded block takes at most twenty bits for each token and a fixed number more |
| BlockRoundTrip.BlockReadBack | dep/bzip2/decompress.c:266-486 | for any writable header and any column, the decoder reads the encoder's bits back as that column and leaves the rest, whatever bits follow |
| BlockRoundTrip.MapBack | dep/bzip2/decompress.c:266-284 | the two-level mapping table is read back as the same bytes in use |
| BlockRoundTrip.SelectorsOnBack | dep/bzip2/decompress.c:286-329 | number of tables, selectors and code lengths are read back |
| BlockRoundTrip.DataBack | dep/bzip2/decompress.c:372-486 | from any point of the data on, the decoder follows the tokens to the end of the block |
| BlockRoundTrip.FiftyToATable | dep/bzip2/bzlib_private.h:122-122 | symbol k is written and read with the table of selector k / 50 |
| BlockFormat.BlockShrinks | dep/bzip2/decompress.c:266-486 | reading a block uses bits up from the front only |
| SymbolReader.MtfReader.Feed | dep/bzip2/decompress.c:74-102 | the suspended reader, given the bits it waits for, makes of the rest what it made of the whole before |
| SymbolReader.MtfReader.Starved | dep/bzip2/decompress.c:43-65 | with fewer bits than it waits for, nothing can be said yet |
| SymbolReader.MtfReader.Finished | dep/bzip2/decompress.c:372-486 | at the end the column is complete and unzftab counts its bytes |
| SymbolReader.MtfReader.EndRun | dep/bzip2/decompress.c:398-415 | a run fills as many places as its digits say, or overflows the block exactly when that is too many |
| TableReader.HeaderReader.Feed | dep/bzip2/decompress.c:266-347 | each point of suspension in the tables carries on with what the whole would have been read as, a write beyond the arrays of selectors included |
| SelectorBounds.CountBeyond | dep/bzip2/decompress.c:289-300 | the decoder writes beyond its arrays of 18002 selectors if and only if the number sent is greater and the bits go on with one rank more than there is room for |
| SelectorBounds.WritesInside | dep/bzip2/decompress.c:289-300 | for a header with all its selectors, all writes stay inside if and only if there are at most 18002 |
| SelectorBounds.OneSelectorTooMany | dep/bzip2/decompress.c:289-300 | a header with 18003 selectors for which they do not |
| SelectorBounds.LongStreamOverruns | dep/bzip2/decompress.c:198-300 | any stream that begins with such a block, whatever its checksum, origin and bytes in use, makes the decoder write beyond its arrays |
| TableReader.UndoSelectors | dep/bzip2/decompress.c:302-314 | selectors from their move-to-front ranks |
| TableReader.BuildTable | dep/bzip2/decompress.c:331-347 | the decoding tables of one list of lengths |
| StreamFormat.StreamReadBack | dep/bzip2/compress.c:602-667 | a stream written for any blocks is decoded to their raw bytes, one after the other, and ends there |
| StreamFormat.CombinedIsRotated | dep/bzip2/compress.c:606-609 | the combined checksum is the exclusive or of the checksums of the blocks, that of block k of n rotated left n - 1 - k times |
| StreamFormat.EmptyStream | dep/bzip2/compress.c:621-664 | the fourteen bytes of a stream without blocks, and that they decode to nothing |
| StreamFormat.BlockOpens | dep/bzip2/compress.c:632-634 | the six bytes a block begins with |
| StreamFormat.BodyBack | dep/bzip2/decompress.c:220-576 | one block with its header, checksum and origin is decoded to its raw bytes |
| StreamReader.Decompressor.Advance | dep/bzip2/decompress.c:106-640 | one unit of input and what follows from it; without enough input the state is unchanged and the verdict is to wait |
| StreamReader.Decompressor.BzDecompress | dep/bzip2/bzlib.c:808-858 | for all input that may still come: what the stream means before a call is the bytes the call writes followed by what the rest means after it; the return code says why it stopped, and Ok that the input is used up and it waits for more, or that the room is used up and there is more to come; bytes are lost only where the fast decoder finds a block cut short, and then just those of that block written in this call |
| StreamReader.InPieces | dep/bzip2/bzlib.c:808-858 | for any cutting of input and output, fast or small: verdict and bytes are those of decoding the whole input, whatever follows it, for accepted and rejected streams; each call answered Ok has written all that the input so far gives, or has no room left while there is more to come; only of a block that breaks off before a count can the fast decoder lose bytes, those it writes of this block in the last call |
| Compressor.BzCompressor.constructor | dep/bzip2/bzlib.c:148-211 | a new compressor, nothing taken in and nothing handed out |
| Compressor.BzCompressor.CompressBlock | dep/bzip2/compress.c:602-667 | header, block and trailer are written as they should be, every byte taken in is accounted for, and what is written fits behind the block in its array |
| Compressor.BzCompressor.CopyInput | dep/bzip2/bzlib.c:288-328 | bytes are taken from the front of the input until the block is full or the input is used up, nblock never being more than nblockMAX + 4 |
| Compressor.BzCompressor.CopyOutput | dep/bzip2/bzlib.c:333-356 | bytes written are handed out in order until the room or the bytes are used up |
| Compressor.BzCompressor.HandleCompress | dep/bzip2/bzlib.c:360-402 | input taken and output handed out are accounted for; with room left it stops, running, only when the input is used up and nothing waits to be handed out and, flushing or finishing, only when everything asked for is done |
| Compressor.BzCompressor.BzCompress | dep/bzip2/bzlib.c:407-463 | any sequence of actions, input and output in any pieces: each answer is settled by what has been done; the end of the stream is reported when what was handed out decodes to what was taken in, and a flush as complete when all that was taken in is in blocks that have been handed out; both are answered so unless the room is used up, and a finish is refused for want of progress only if there is no room at all; an action out of turn is refused and takes in nothing |
| Compressor.BzCompressor.Delivered | dep/bzip2/bzlib.c:452-461 | once the end has been written and handed out, the output is a stream that decodes to the whole input |
| Crc32.ConcatFormula | dep/zlib/crc32.c:372-425 | the checksum of a concatenation is that of the first part run through as many zero bits as the second has, combined with that of the second |
| Crc32.MatrixTimes | dep/zlib/crc32.c:344-358 | the sum of the columns selected by the bits of the vector |
| Crc32.MatrixSquare | dep/zlib/crc32.c:361-369 | the square of the operator for k zero bits is the operator for 2k |
| Crc32.Combine | dep/zlib/crc32.c:372-425 | for every length, positive or not, the value the formula asks for, though even and odd hold only successive squarings |
| Crc32.CombineStrings | dep/zlib/crc32.c:372-425 | combining the checksums of two strings gives the checksum of their concatenation |
| Crc32.MakePoly | dep/zlib/crc32.c:103-106 | the polynomial from its list of exponents; it is the one SamePolynomial ties to 0x04c11db7 |
| Crc32.MakeCrcTable | dep/zlib/crc32.c:108-127 | table k holds, for each byte, what it becomes after k zero bytes |
| Crc32.TakeFour | dep/zlib/crc32.c:260-262 | four bytes by four tables give what four single steps give |
| Crc32.Crc32Little | dep/zlib/crc32.c:266-297 | the byte-at-a-time checksum for every buffer, length and alignment |
| Crc32.Burst | dep/zlib/crc32.c:266-297 | strings of equal length that differ within four neighbouring bytes have different checksums |
| Crc32.CheckValue | dep/zlib/crc32.c:204-227 | the checksum of the one byte 0x7f is 0x12b88320 |
| Adler32.Mod28Exact | dep/zlib/adler32.c:27-37 | the reduction without division is exact if and only if one folding brings the number below twice the base, and so for all numbers below 2^28 |
| Adler32.Mod28FirstWrong | dep/zlib/adler32.c:27-37 | 4368 * 65536 + 65522 is the first number for which it is wrong |
| Adler32.ModIsRemainder | dep/zlib/adler32.c:38-42 | two foldings are exact for every 32-bit number |
| Adler32.Mod63IsRemainder | dep/zlib/adler32.c:43-55 | the longer reduction is exact on the range adler32_combine_ uses |
| Adler32.NoOverflow | dep/zlib/adler32.c:13-14 | within 5552 bytes neither sum exceeds 32 bits, whatever the halves it starts from |
| Adler32.Adler32 | dep/zlib/adler32.c:63-131 | for every starting value and every buffer: both sums modulo 65521, unless a single byte makes the second sum, started unreduced, reach twice the base; then exactly one base too much |
| Adler32.OvershootAt | dep/zlib/adler32.c:74-82 | a starting value and a byte for which the second sum is left unreduced |
| Adler32.Combine | dep/zlib/adler32.c:143-169 | the arithmetic of combining, in reduced sums, with the error value for a negative length |
| Adler32.CombineStrings | dep/zlib/adler32.c:143-169 | combining the checksums of two strings gives the checksum of their concatenation |
| RandomInteger.Uniform | dep/SFMT/SFMT.h:526-560 | each result of an interval of n is reached by exactly floor(2^32 / n) accepted words |
| RandomInteger.Stretch | dep/SFMT/SFMT.h:553-557 | acceptance singles out, for every result, a run of consecutive words of that length |
| RandomInteger.CRandomSFMT.SetLimit | dep/SFMT/SFMT.h:546-551 | the cached limit is the one for this interval, wrapping around for powers of two |
| RandomInteger.CRandomSFMT.IRandomX | dep/SFMT/SFMT.h:526-560 | the first accepted word decides, the result lies within the limits, the cache stays consistent; the error values for empty and single intervals |
| DeflateHash.HashRolls | dep/zlib/deflate.c:163-163 | after three updates the oldest byte has left the running hash |
| DeflateHash.ThirdByte | dep/zlib/deflate.c:1335-1342 | equal hashes and two equal bytes make the third byte equal, as the hash has at least eight bits |
| DeflateChains.InsertKeeps | dep/zlib/deflate.c:182-185 | inserting a string overwrites only a link that is out of reach: every head is the latest inserted position of its slot, every link within reach leads to the next earlier one, and none is left out but window index 0 |
| DeflateChains.SlideKeeps | dep/zlib/deflate.c:201-225 | sliding the tables keeps that: every link within reach is found at its new place, and what left the window is dropped |
| DeflateChains.ChainStep | dep/zlib/deflate.c:1372-1373 | one step along a chain goes to the next earlier position of the slot, no position of it lying between, as long as it stays above the limit |
| DeflateChains.ThirdByteAgrees | dep/zlib/deflate.c:1335-1342 | on one chain the byte that is not compared agrees |
| DeflateState.State.constructor | dep/zlib/deflate.c:240-341 | deflateInit2 and lm_init: sizes, configuration of the level, empty chains, no tokens |
| DeflateState.ConfigFor | dep/zlib/deflate.c:134-149 | in every configuration the chain, lazy and nice values are large enough for the code that relies on them |
| DeflateState.State.InsertString | dep/zlib/deflate.c:182-185 | the string joins its chain, the running hash moves on, and what is returned is the latest position of the slot inserted before, or 0 if there is none after window index 0 |
| DeflateState.State.SlideWindow | dep/zlib/deflate.c:1510-1518 | positions, tables and window move down together and still describe the same input |
| DeflateState.State.ReadInput | dep/zlib/deflate.c:1164-1189 | as much input as there is and room for, appended in order |
| DeflateState.State.RestartHash | dep/zlib/deflate.c:1537-1556 | strings that were too short to be inserted at a flush are inserted now |
| DeflateState.State.FillWindow | dep/zlib/deflate.c:1482-1599 | window, chains and input agree afterwards; there is enough lookahead or the input is used up; nothing is lost |
| DeflateState.State.TallyLit | dep/zlib/deflate.h:326-332 | one literal token, and whether the buffer is full |
| DeflateState.State.TallyDist | dep/zlib/deflate.h:333-342 | one match token, and whether the buffer is full |
| DeflateState.State.FlushBlock | dep/zlib/deflate.c:1605-1620 | the tokens in the buffer are those of all bytes since the last block |
| DeflateMatch.Compare | dep/zlib/deflate.c:1341-1357 | the length of the common beginning up to 258, compared eight at a time, without reading beyond the window |
| DeflateMatch.TryCandidate | dep/zlib/deflate.c:1330-1365 | a longer match is a true match as far as the input reaches; otherwise there is none longer at this candidate |
| DeflateMatch.ChainFinds | dep/zlib/deflate.c:1326-1373 | following links from a position meets every inserted position of its slot above the limit, as long as the number of those between is below the chain length |
| DeflateMatch.HeadFinds | dep/zlib/deflate.c:1236-1377 | from the head of the chain, all positions within reach and among the latest of the slot are candidates |
| DeflateMatch.Thorough | dep/zlib/deflate.c:1236-1377 | a search that has found nothing longer has missed none of these positions |
| DeflateMatch.LongestMatch | dep/zlib/deflate.c:1236-1377 | a true match no longer than the lookahead, and no candidate within reach has a longer one unless this one is good enough |
| DeflateChoice.NearbyFound | dep/zlib/deflate.c:1843-1863 | what that means apart from hashes: no inserted position among the places just before, as many as the chain is long, agrees in more bytes |
| DeflateChoice.ThreeBytesFarBack | dep/zlib/deflate.c:110-113 | three bytes are worth a match up to 4096 bytes back |
| DeflateFast.FastStep | dep/zlib/deflate.c:1843-1908 | one token goes out: a literal, with three bytes to come, only if none of the positions to be looked at agrees in three bytes; a match only if none agrees in more bytes, or it is long enough; which strings are inserted |
| DeflateFast.DeflateFast | dep/zlib/deflate.c:1824-1918 | however it is called, the tokens spell the input up to strstart; when it says it is done, all input; with room for its output it stops early only for want of input; every token is a choice as in FastStep, searched with more than the longest match in sight, or all input, and nothing lost that is within reach |
| DeflateSlow.SlowTurn | dep/zlib/deflate.c:1926-2034 | a match put off goes out if and only if the next place has none longer that counts, which there is no search for if it reaches maxLazyMatch; a match counts unless it is filtered out or has three bytes from beyond TOO_FAR; otherwise the byte goes out as a literal and the new match, if any, is put off; all strings passed are inserted |
| DeflateSlow.DeflateSlow | dep/zlib/deflate.c:1926-2049 | the same for lazy matching, the byte put off not being spelt yet: every literal had nothing worth a match or a longer match at the next place, every match was worth it and had none longer at the next place |
| DeflateRuns.FindRun | dep/zlib/deflate.c:2078-2096 | the longest run of the byte before, at most 258 and no longer than the lookahead |
| DeflateRuns.DeflateRle | dep/zlib/deflate.c:2057-2124 | the tokens spell the input, each being the run of the byte before if it has three bytes or more, and else a literal; with room it stops early only for want of input |
| DeflateRuns.DeflateHuff | dep/zlib/deflate.c:2130-2163 | the tokens spell the input, all being literals; with room it stops early only for want of input |
| DeflateTokens.MatchSpells | dep/zlib/deflate.h:333-342 | a true match, overlapping itself or not, expands to the bytes it covers |
| Deflate.TokensExpand | dep/zlib/deflate.c:1824-2163 | between any two calls the tokens expand to the input read less the lookahead and the byte put off, and every match has length 3..258 and distance 1..MAX_DIST |
| Deflate.Dispatch | dep/zlib/deflate.c:1001-1004 | whichever strategy runs, its contract is the same |
| Deflate.Forget | dep/zlib/deflate.c:1029-1036 | a full flush forgets the history without touching the tokens |
| Deflate.Deflate | dep/zlib/deflate.c:763-1050 | one call: the tokens grow, input only moves from unread to read, done means the tokens expand to all of it; with room it makes no other stop than for want of input |
| Deflate.Run | dep/zlib/deflate.c:763-1050 | any run of calls, sizes, level, strategy, flushes and cutting of the input: the tokens expand to the beginning of the input, and to all of it once a flush is complete; every call with room takes in all input it has been given, and the last completes its flush; a call is refused only after the end has been asked for; every token is a choice that level and strategy make, searched with all the input in sight that can matter, back to the start, the last full flush or the end of the window |
| InflateCodes.FitsIffSum | dep/zlib/inftrees.c:130-138 | no length is over-subscribed if and only if the Kraft sum is at most one |
| InflateCodes.NextCode | dep/zlib/inftrees.c:239-255 | the code after the current one is one more, extended by zeros if it is longer |
| InflateCodes.CodeOrder | dep/zlib/inftrees.c:239-255 | codes of later symbols lie above all extensions of earlier ones |
| InflateEntries.InPlaceFound | dep/zlib/infback.c:492-508 | a code in its place is found by one lookup or two, whatever bits follow |
| InflateSettled.EnterSymbol | dep/zlib/inftrees.c:214-237 | entering one more code leaves all earlier ones in place |
| InflateSettled.StartTable | dep/zlib/inftrees.c:257-287 | starting a sub-table leaves all earlier codes in place |
| InflateCounts.SpaceLeft | dep/zlib/inftrees.c:130-138 | negative exactly if over-subscribed; otherwise the code space left |
| InflateCounts.SortSymbols | dep/zlib/inftrees.c:140-147 | symbols by length, and by symbol within each length |
| InflateSteps.Replicate | dep/zlib/inftrees.c:230-237 | every index of the table with the given low bits gets the entry, no other changes |
| InflateSteps.CountUp | dep/zlib/inftrees.c:239-248 | a code stored in reverse is counted up by one, or becomes zero after the last |
| InflateSteps.TableBits | dep/zlib/inftrees.c:266-274 | the size of a sub-table: large enough for every code with its prefix |
| InflateSteps.TableCovers | dep/zlib/inftrees.c:266-274 | all codes with the prefix fit in a table of that size |
| InflateTables.EnterAll | dep/zlib/inftrees.c:197-288 | when the loop ends, every code is in its place |
| InflateTables.CompleteDecodes | dep/zlib/infback.c:492-508 | with a complete code any bits lead to the symbol whose code they begin with |
| InflateTables.SingleDecodes | dep/zlib/inftrees.c:290-298 | a single code of one bit: the other bit is marked invalid |
| InflateTables.EmptyDecodes | dep/zlib/inftrees.c:117-125 | no code at all: both entries are marked invalid |
| InflateTables.InflateTable | dep/zlib/inftrees.c:32-304 | -1 exactly if the lengths are over-subscribed, or incomplete and not a single bit of a length or distance code; 1 exactly if a usable length or distance code needs more entries than there are; 0 means lookup gives, for all bits, the entry and total length of canonical decoding, within the table |
| InflateStream.AnswerStable | dep/zlib/infback.c:493-507 | once enough bits have been seen, more do not change what is decoded |
| InflateStream.AnswerSeen | dep/zlib/infback.c:493-507 | a symbol is known as soon as its bits have been seen |
| InflateCopy.CopyRun | dep/zlib/infback.c:600-602 | bytes copied one by one from where they may just have been written |
| InflateCopy.CopyByThrees | dep/zlib/inffast.c:239-263 | the same copied by threes |
| InflateCopy.CopyMatch | dep/zlib/inffast.c:169-264 | all cases of the window, wrapped around or not, and of overlapping output equal the byte-by-byte copy |
| InflateBack.Inflater.PullByte | dep/zlib/infback.c:158-178 | one byte enters the bit buffer, the bits to come being the same; it fails only at the end of the input |
| InflateBack.Inflater.NeedBits | dep/zlib/infback.c:183-187 | enough bits are in hand, at most seven more than needed, or there are not enough to come |
| InflateBack.Inflater.GetSymbol | dep/zlib/infback.c:492-508 | the canonical symbol of the bits to come and exactly its bits, or the input ends within its code |
| InflateBack.Inflater.Room | dep/zlib/infback.c:210-221 | there is room afterwards; only a full window is handed out, and only a caller who may refuse can end it there |
| InflateBack.Inflater.CopyBack | dep/zlib/infback.c:585-603 | a match copied part by part round the window is the byte-by-byte copy; the caller can refuse only a full window |
| InflateBack.Inflater.LenStep | dep/zlib/infback.c:492-604 | one turn of the state LEN is one step of the specification on bits; it reports the end of the input exactly when the bits end within the step, nothing of which is put out then, and refused output only if the caller may refuse |
| InflateFast.FastSymbol | dep/zlib/inffast.c:104-115 | with fifteen bits in hand the symbol is found, and its bits dropped |
| InflateFast.FastRead | dep/zlib/inffast.c:104-168 | one step takes in at most six bytes and never runs short |
| InflateFast.Apply | dep/zlib/inffast.c:116-289 | one step writes at most 258 bytes and does to the output what the specification says |
| InflateFast.GiveBack | dep/zlib/inffast.c:292-296 | unused whole bytes go back to the input without changing the bits to come |
| InflateFast.InflateFast | dep/zlib/inffast.c:50-307 | output, position and mode are those after some number, at least one, of single steps in the state LEN, none of them beyond the end of the block or an error |
| InflateFast.LenState | dep/zlib/infback.c:481-604 | whichever of the two ways is taken, the state is that after some number, at least one, of single steps in the state LEN, and bits have been used; refused output only if the caller may refuse |
| InflateFast.DecodeBlock | dep/zlib/infback.c:481-604 | a whole block: however fast and single steps take turns, the result is that of single steps up to the first that leaves the state LEN; unless the caller refuses output it ends there, with the block or an error in it, or where the bits end within a step, with the output of the steps before |
| TreeCodes.LengthsCovered | dep/zlib/trees.c:62-63 | the stretches of the length symbols make up the lengths from 3 to 258 |
| TreeCodes.DistancesCovered | dep/zlib/trees.c:65-66 | the stretches of the distance symbols make up the distances up to 32768 |
| TreeCodes.StretchesApart | dep/zlib/trees.c:257-287 | later symbols stand for greater values, so that no value has two |
| TreeCodes.LengthTables | dep/zlib/trees.c:256-269 | base and symbol of every length, that of 258 being without extra bits |
| TreeCodes.DistanceTables | dep/zlib/trees.c:271-288 | base and symbol of every distance, one entry for 128 of them from 257 on |
| TreeCodes.StaticInit | dep/zlib/trees.c:232-288 | both pairs of tables, which CompressBlock goes by |
| TreeCodes.DCode | dep/zlib/deflate.h:308-313 | the symbol of every distance up to 32768 |
| TreeCodes.CompressBlock | dep/zlib/trees.c:1064-1109 | the bits of a block: for each token the code of its symbol and its extra bits, then the end of the block |
| BlockCodes.LengthsFollow | dep/zlib/inftrees.c:60-65 | the lengths of inflate begin at 3, follow on one another and end at 258, which has a symbol of its own |
| BlockCodes.DistancesFollow | dep/zlib/inftrees.c:66-73 | the distances begin at 1, follow on one another and end at 32768 |
| BlockCodes.LengthBase | dep/zlib/inftrees.c:60-65 | the lengths of inflate are those of deflate |
| BlockCodes.DistanceBase | dep/zlib/inftrees.c:66-73 | the distances of inflate are those of deflate |
| BlockCodes.MatchRead | dep/zlib/infback.c:509-571 | for every length from 3 to 258 and every distance from 1 to 32768 whose symbols have codes, the symbols and extra bits sent are read as this length and distance |
| BlockCodes.TokenRead | dep/zlib/infback.c:492-571 | the bits of a token are read as that token, whatever follows |
| BlockCodes.BlockRead | dep/zlib/infback.c:481-604 | the bits of a block take the decoder through its tokens to the end of the block, and no further |
| BlockCodes.InflateBlock | dep/zlib/infback.c:481-604 | for a caller who does not refuse output, the block that deflate writes for any tokens is expanded to what these stand for, by fast and single steps taking turns |

## Findings

- **More selectors than there is room for.** The decoder reads the number of selectors as fifteen
  bits and checks only that it is not zero (`dep/bzip2/decompress.c:289-290`), but writes them to
  arrays of 18002 (`dep/bzip2/bzlib_private.h:125`). It stays inside its arrays if and only if the
  number is at most 18002 or the bits end or go wrong before the 18003rd
  (`SelectorBounds.CountBeyond`, `SelectorBounds.WritesInside`); `SelectorBounds.OneSelectorTooMany`
  is a header for which it does not, and `SelectorBounds.LongStreamOverruns` whole streams. The
  model stops there with the verdict `Overrun`, and the decoder's contracts say so.
- **A byte at a time from an unreduced start.** For a buffer of one byte `adler32_z` subtracts the
  base at most once (`dep/zlib/adler32.c:74-82`). The result is the checksum if and only if the
  second half plus the reduced first sum is below twice the base; a second half below the base is
  enough (`Adler32.Adler32`). With the halves 65520 and 65535 and the byte 0 it is not
  (`Adler32.OvershootAt`).
- **MOD28** is exact up to 4368 * 65536 + 65521 and not for the next number
  (`Adler32.Mod28FirstWrong`, `Adler32.Mod28Exact`); its one use stays below 2^28.
- **Bytes that are written and not reported.** When a block breaks off before a count, the fast
  decoder returns without saving its position (`dep/bzip2/bzlib.c:612-614`): what it has written
  in that call is not reported, while the small decoder reports it. What both have written ends
  with a run whose count is the symbol that follows the block (`RunLength.SpeltIsExpansion`,
  `BlockOutput.DState.UnRleFast`, `BlockOutput.DState.UnRleSmall`).
- **The same stream from both sorters.** A comment has it that the choice of sorter does not change
  the stream (`dep/bzip2/blocksort.c:1056-1061`). The last column is always the same
  (`SortAgreement.SameColumn`); `origPtr` is sure to be the same if and only if the block does not
  repeat itself (`SortAgreement.OriginSettled`). Either value decodes to the block.
- **The rejection limit for powers of two.** A comment says that the limit is then zero
  (`dep/SFMT/SFMT.h:546-551`); what is computed wraps
  around to 2^32 - 1, which is why no word is rejected (`RandomInteger.CRandomSFMT.SetLimit`).

## Left out

Contracts that state less than could be asked for:

- StreamReader.Decompressor.BzDecompress: a randomised block ends what is modelled, with a verdict of its own; the encoder never writes one
- MainSort.MainSort: the bound on the budget used is that of the worst case of the passes of its simple sort; budgets in use can run out earlier, and then the caller sorts again with the other sorter
- MainCompare.MainGtU: equal rotations may be answered either way, as the quadrants decide
- DeflateFast.DeflateFast: of several matches of the greatest length, or of several long enough, any may be chosen
- DeflateSlow.DeflateSlow: as for DeflateFast; over a whole run the searches are taken to have been cut to a quarter, which SlowTurn tells apart
- Deflate.Deflate: that the output is full is the caller's choice unless there is room; how many bytes a token takes is not modelled, nor the refusal of a second flush of the same kind
- DeflateState.State.FillWindow: match_start may be negative after a slide, as an integer; the source's wraps around and is not used
- InflateTables.InflateTable: the seven bits that a code for code lengths may have are required of the caller; that 852 and 592 entries are enough for all codes is not proved, the result 1 says when they are not
- InflateFast.InflateFast: distances that reach back beyond the output are excluded, because what becomes of them depends on a field that inflateBack does not set
- InflateBack.Inflater.LenStep: the state LEN of inflateBack only; the other states, stored blocks and the reading of the tables are not modelled
- Adler32.Combine: takes checksums whose halves are reduced, as those returned by adler32_z from a reduced start are
- RandomInteger.CRandomSFMT.IRandomX: the words of the generator are arbitrary; IRandom, Random and the initialisation are not modelled

What the repository does that the model does not:

- the server's own sources, its tools, and the generated and glue code of the other dependencies
- bzip2: allocation and its failure, the layers on files (`BZ_FILE`, `BZ2_bzBuffToBuff*`), verbosity and version strings
- bzip2: memory that is used twice is two arrays, but for the sorted order and the tokens, which are one, and the block that `eclass8` overwrites, which is rebuilt; quadrants and block are two arrays, and each block has tables of its own
- bzip2: state saved in local copies (`c_tPos` and the like) for speed; jumps are loops and calls; two-dimensional arrays are sequences of rows; header bits are truth values, not bits of words
- words of `crc32.c` and of the block checksum of bzip2, the running hash of deflate and the bit buffers of inflate are strings of bits; an or of numbers without common bits is written as a sum, a mask as a remainder
- literal tables of checksums are given by what generates them
- crc32 for big-endian machines; the variants for `FASTEST`, `UNALIGNED_OK`, `ASMV` and `INFLATE_STRICT`; `buf == NULL`
- deflate: `pending_buf`, `d_buf` and `l_buf` share memory (`dep/zlib/deflate.c:317-330`); here the tokens have arrays of their own, and that compressed output never runs over tokens not yet coded is not modelled
- deflate: of the block output of `trees.c`, the choice and building of the trees, their transmission and the bit buffer (codes are canonical, for any lengths); header, trailer, `deflate_stored` and level 0, changes of level or strategy on the way, preset dictionaries, zeroing above the high-water mark
- inflate: `inflate()` itself, which has a state machine of its own; the callbacks of inflateBack are input in pieces of any length and a caller that takes or refuses a full window
- SFMT: the recursion, its constants and its statistical quality
