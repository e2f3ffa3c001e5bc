# Compression and random numbers in the bundled libraries

The server bundles three libraries whose algorithms can be stated exactly: bzip2 1.0.6, parts of zlib 1.2.8, and the
SFMT random number generator. This project models their working parts in Dafny and proves what they are for.

- **bzip2.** A block is gathered from the input in runs, its rotations are sorted, the last column is turned into
  move-to-front symbols with zero runs in bijective base two, coding tables are chosen, and everything is written as
  bits. Both block sorters, the in-place symbol generation, Huffman code lengths, canonical codes and the bit stream are
  proved stage by stage, then joined: `StreamRoundTrip.RoundTrip` says that decompressing what was compressed gives it
  back, for any calls on both sides. The decompressor is a machine that may stop at any label for lack of input; that
  the cutting of the input makes no difference to it is a theorem of its own.
- **zlib.** The decoding-table builder with the exact size of its tables, `inflate_fast`, the output window of
  `inflateBack`, the four match strategies of `deflate` over a sliding window with hash chains (what they choose decodes
  to the input, and they pass over no match they should have found), CRC-32 with its four-byte loops and combine
  operation, Adler-32 likewise.
- **SFMT.** The recurrence on 128-bit numbers, the refill in place, and the bulk fill, which continue one stream.

## How it is put together

Words are natural numbers with their width as a bound; shifts, masks and exclusive-or are defined in `Bits` and wrap
where the C does. What the C changes in place is an array or the field of a class here, and each such method is proved
against a specification on values:

| Part | Modules |
|---|---|
| Words, sequences, counting | Bits, Reversal, Sequences, Radix, Permutations, Segments, Partitioning |
| Rotations and their order | Rotations, RotationRank, BwtTheory |
| Fallback sorter | FallbackQuickSort, BucketBits, FallbackSort |
| Main sorter | MainCompare, MainShellSort, MainQuickSort, MainRadix, RunningOrder, ScanOrder, MainScan, MainScanLoops, MainSynthesis, MainSort, BlockSort |
| Symbols | MoveToFront, MtfEncode, MtfTable, MtfDecode, MtfRoundTrip |
| Huffman | HuffmanHeap, HuffmanForest, HuffmanOptimal, HuffmanLengths, HuffmanCodes, TableChoice |
| Stream form and compressor | BitStream, BlockFormat, BlockParts, BlockWriter, RunLength, BlockCrc, BlockCompress, StreamFormat, StreamWriter, StreamSize, BlockBuilder |
| Decompressor | DecompressMachine, DecompressSteps, DecompressRun, DecompressHeader, DecompressTables, DecompressSymbols, DecompressData, DecompressBlock, DecompressFrame, Decompress, SmallPointers, BwtInverse, BwtSmall, BlockOutput, DecompressStream, StreamRoundTrip |
| inflate | InflateCodes, InflateTable, InflateRanges, InflateBuild, InflateSize, InflateFill, InflateItems, InflateSource, InflateFast, InflateBack |
| deflate | LzTokens, RollingHash, HashChains, DeflateWindow, DeflateMatch, DeflateFill, DeflateChoice, DeflateSearch, DeflateTrace, Deflate, DeflateStream |
| Checksums | Crc32, Crc32Loops, Crc32Combine, CrcMirror, Adler32 |
| Generator | Sfmt |

The decompressor is described twice. `DecompressSteps.Step` is a function on a value that holds every local the C
saves; the theorems about runs are about it. `Decompress.Decompressor` is the same machine on its own arrays, and its
methods are proved equal to that function. The parts of the state that belong to the compressed form (which blocks were
sent, what the bytes so far stand for) are ghost.

## Model

| member | source | states |
|---|---|---|
| FallbackQuickSort.FallbackSimpleSort | dep/bzip2/blocksort.c:32-59 | The segment is a rearrangement of itself, in order of its keys, and nothing outside it has changed; both the stride-four pass and the final insertion pass are followed. |
| FallbackQuickSort.FallbackQSort3 | dep/bzip2/blocksort.c:93-180 | The same for the three-way quicksort on its explicit stack of 100 entries: that the stack never fills, because the smaller part is popped first, is an obligation of the method and not an assumption. |
| BucketBits.NextClear | dep/bzip2/blocksort.c:205-209 | Skipping whole words of set bits finds exactly the first clear mark, as a scan bit by bit would. |
| BucketBits.NextMarked | dep/bzip2/blocksort.c:205-209 | Skipping whole words of clear bits finds exactly the first set mark. |
| FallbackSort.RefinePass | dep/bzip2/blocksort.c:256-315 | One doubling pass: pointers in order of the first H bytes with marks on exactly the groups equal on H bytes become so for 2H; when nothing is left unsorted, all rotations are in order. |
| FallbackSort.FallbackSort | dep/bzip2/blocksort.c:212-329 | For every block the pointers end as the sorted rotations, and the block, overwritten meanwhile, is back in place. |
| MainCompare.MainGtU | dep/bzip2/blocksort.c:347-469 | The answer is the rotations' true order, ties included, with every index inside block plus overshoot, given that quadrants only order what is already known to be ordered; the budget is touched only for rotations that agree in their first 20 bytes. |
| MainShellSort.MainSimpleSort | dep/bzip2/blocksort.c:485-555 | The bucket is rearranged only, and sorted by rotation whenever the budget is not used up. |
| MainQuickSort.MainQSort3 | dep/bzip2/blocksort.c:621-717 | The same for the multikey quicksort, which goes a byte deeper on equal parts; the stack of 100 entries suffices. |
| MainRadix.InitialSort | dep/bzip2/blocksort.c:771-832 | The pointers are a permutation, in buckets by their first two bytes; each table entry is where its bucket starts; the overshoot repeats the block and all quadrants are zero. |
| RunningOrder.ComputeRunningOrder | dep/bzip2/blocksort.c:834-864 | A permutation of the 256 big buckets by increasing size. |
| MainScanLoops.ScanUpwards | dep/bzip2/blocksort.c:919-927 | Walking a bucket while it is still growing from its low end puts the predecessors in order from the start of each small bucket, and takes up what it has itself just placed. |
| MainScanLoops.ScanDownwards | dep/bzip2/blocksort.c:928-935 | The same from the high end. |
| MainScanLoops.ScansMeet | dep/bzip2/blocksort.c:937-943 | The two scans meet exactly, or the one bucket is the whole block: the assertion in the code never fails. |
| MainSort.SynthesiseColumn | dep/bzip2/blocksort.c:912-947 | After both scans every small bucket ending in this byte is sorted, though only this byte's own big bucket was. |
| MainSort.UpdateQuadrants | dep/bzip2/blocksort.c:949-1002 | Renumbering a finished big bucket, shifted to fit 16 bits, keeps quadrants from ever contradicting the rotations' order. |
| MainSort.MainSort | dep/bzip2/blocksort.c:751-1011 | With budget left over, the pointers are the sorted rotations; the block is unchanged in any case. The budget never grows, and stays whole where no two rotations agree in their first 20 bytes. |
| BlockSort.BlockSort | dep/bzip2/blocksort.c:1031-1089 | For every block, any work factor, and wherever the budget runs out, the rotations end up sorted, the block intact, and origPtr at the unrotated one. |
| BwtTheory.LastToFirst | dep/bzip2/decompress.c:494-576 | For rotations sorted up to ties, the slot a last-column byte is counted to holds the rotation one byte earlier, or one equal to it as a string; so periodic blocks are covered. |
| BwtInverse.InvertFast | dep/bzip2/decompress.c:551-576 | The pointers written into the upper 24 bits of tt start a walk over the block from its first byte. |
| BwtInverse.GetFast | dep/bzip2/bzlib_private.h:444-449 | Each fetch gives the block's next byte and stays on the walk. |
| SmallPointers.SetLL | dep/bzip2/bzlib_private.h:458-470 | Writes one 20-bit pointer in its 16 and 4 bits and leaves every other pointer as it was. |
| SmallPointers.GetLL | dep/bzip2/bzlib_private.h:464-473 | Reads the pointer that was written. |
| BwtSmall.InvertSmall | dep/bzip2/decompress.c:523-549 | T is built and reversed in place along the cycle of origPtr only; the pointers left behind start a walk over the block. |
| BwtSmall.IndexIntoF | dep/bzip2/bzlib.c:687-698 | Halving finds the one byte whose first-column range holds the index, also where ranges are empty. |
| BwtSmall.GetSmall | dep/bzip2/bzlib_private.h:475-479 | Each fetch gives the block's next byte and stays on the walk. |
| MoveToFront.SymbolsShort | dep/bzip2/compress.c:120-231 | At most one symbol more than there are bytes, and at no point more symbols written than bytes read: the symbols may lie in the memory of the pointers. |
| MoveToFront.SymbolsRoundTrip | dep/bzip2/compress.c:120-231 | Undoing the symbols gives the bytes back; only the last symbol is the end mark. |
| MtfEncode.GenerateMTFValues | dep/bzip2/compress.c:120-231 | Written over the pointers it is still reading, the symbols are those of the last column, with their exact frequencies. |
| MtfTable.Table.Take | dep/bzip2/decompress.c:423-476 | In the 16 drifting segments inside 4096 bytes, taking position nn is move-to-front on one plain list of 256 bytes. |
| MtfTable.Table.Rebuild | dep/bzip2/decompress.c:462-474 | When the lowest segment has reached the bottom, all segments go back to the top without overwriting one that is still to be copied. |
| MtfDecode.StoreRun | dep/bzip2/decompress.c:401-419 | A run is refused exactly when it does not fit the block; otherwise its bytes are stored and counted. |
| MtfRoundTrip.SymbolsDecoded | dep/bzip2/decompress.c:372-486 | Every symbol sequence the compressor makes is one the decoder accepts, none of its runs trips the 2 MB guard, and it stands for the same bytes. |
| HuffmanHeap.UpHeap | dep/bzip2/huffman.c:33-42 | The heap is in order again and holds the same nodes. |
| HuffmanHeap.DownHeap | dep/bzip2/huffman.c:44-59 | The same from the root down. |
| HuffmanForest.MergeHeavy | dep/bzip2/huffman.c:84-114 | Merging the two lightest nodes keeps every tree at least as heavy as a Fibonacci number of its height. |
| HuffmanForest.TreeKraft | dep/bzip2/huffman.c:116-127 | In the finished tree the leaves' depths fill the code space exactly. |
| HuffmanLengths.MakeCodeLengths | dep/bzip2/huffman.c:63-148 | For all frequencies of fewer than 2^23 symbols (a block has at most 900001), with scaling and retries that end: every length lies in 1..maxLen, the Kraft sum is exactly one, and the lengths cost least, among all a prefix code can have, for the frequencies flattened as often as the tree came out too deep, and no oftener. |
| HuffmanOptimal.TreeOptimal | dep/bzip2/huffman.c:84-127 | Merging the two lightest again and again: no lengths that satisfy the Kraft inequality have a smaller sum of weight times length than the depths of the leaves. |
| HuffmanOptimal.FrequentShort | dep/bzip2/huffman.c:84-127 | Under lengths of least cost a heavier symbol never has the longer code. |
| HuffmanLengths.FrequentFirst | dep/bzip2/huffman.c:63-148 | If the first tree is shallow enough, this holds of the frequencies themselves. |
| HuffmanCodes.AssignCodes | dep/bzip2/huffman.c:152-166 | Each symbol gets its canonical code, defined by counting shorter codes and earlier symbols of its length. |
| HuffmanCodes.CodeFits | dep/bzip2/huffman.c:152-166 | With a Kraft sum of at most one, each code fits its length. |
| HuffmanCodes.PrefixFree | dep/bzip2/huffman.c:152-166 | And no code is a prefix of another. |
| HuffmanCodes.CreateDecodeTables | dep/bzip2/huffman.c:170-200 | For lengths whatever, full or not, every entry of limit, base and perm is its closed form, and entries beyond the alphabet keep what they held. |
| DecompressSymbols.CodeRun | dep/bzip2/decompress.c:74-102 | From any state about to decode, a symbol's code bits and no others take the limit loop to that symbol, whatever bits follow, with both suspension points. |
| DecompressSymbols.NoneRun | dep/bzip2/decompress.c:74-102 | Bits that start no code are never taken for a symbol: the decoder waits for more, or reports bad data. |
| BitStream.Writer.Put | dep/bzip2/compress.c:58-79 | The bits written so far, bytes and buffer together, grow by exactly the n bits of v, high bit first. |
| BitStream.Writer.Finish | dep/bzip2/compress.c:46-54 | The bytes hold all bits written, and fewer than eight bits of filling. |
| TableChoice.PackedCosts | dep/bzip2/compress.c:334-364 | The two 16-bit sums kept in one word never meet: they are the two tables' costs for the group, as the slow loop has them. |
| TableChoice.PickTables | dep/bzip2/compress.c:314-417 | Each group of fifty gets the first table of least cost, and the frequencies are those of the symbols the table was picked for. |
| TableChoice.ChooseTables | dep/bzip2/compress.c:263-443 | Two to six tables by the number of symbols; exactly four rounds from the first tables, each giving every group its first cheapest table and every table the lengths for what it got; all complete codes of lengths 1..17, every selector in range, at most 18002 of them. |
| TableChoice.EachInOneRun | dep/bzip2/compress.c:279-312 | In the first tables every symbol that occurs is cheap in exactly one: the cheap runs, cut by shares of the block, cover the alphabet without overlap. |
| BlockWriter.SendBody | dep/bzip2/compress.c:447-596 | The bits appended are the body's: pointer, used-bytes map, selectors in unary positions, lengths in differences, then the codes. |
| BlockCrc.TableIsBitwise | dep/bzip2/bzlib_private.h:157-171 | One table step is eight steps of division by the polynomial. |
| RunLength.ExpandIsRead | dep/bzip2/bzlib.c:589-680 | Reading a whole block byte by byte, with a counter of equal bytes that takes the byte after four as a count, gives its expansion by runs. |
| BlockBuilder.EState.AddChar | dep/bzip2/bzlib.c:260-284 | The bytes taken in grow by c; block, pending run, used-bytes flags and checksum stay the ones of those bytes. |
| BlockBuilder.EState.CopyInput | dep/bzip2/bzlib.c:289-329 | Takes a prefix of the input, all of it unless the block is full, and nothing is lost on the way; the block stays within 100000 * level - 15, so with the last run flushed the decoder's limit is not reached. |
| BlockBuilder.EState.HandleCompress | dep/bzip2/bzlib.c:361-403 | Conservation over one call: input goes into the block or is left, output comes out in order within its room, and progress is reported exactly if a byte moved. |
| BlockBuilder.EState.BzCompress | dep/bzip2/bzlib.c:407-464 | In every state and for every action, exactly when a call is refused as out of sequence or for its parameter, and that it then changes nothing; a run stops only for want of input or room; a flush has handed out all blocks of the bytes so far; at the end of the stream the bytes handed out are a compressed form of all bytes taken in. Finishing or flushing is unfinished only if the room was filled. |
| BlockCompress.CompressBlock | dep/bzip2/compress.c:602-665 | The bits appended are a block with this checksum whose body describes the block: its rotations sorted, its last column in symbols. |
| StreamWriter.BackEnd.CompressBlock | dep/bzip2/compress.c:602-667 | Header before the first block, combined checksum turned once per block, trailer after the last, also when the last block is empty. |
| StreamSize.StreamSize | dep/bzip2/compress.c:447-667 | The whole compressed form is at most 14 bytes and 7613 for each byte given, so a caller can know how much room is enough. |
| CrcMirror.BlockSumMirrored | dep/bzip2/bzlib_private.h:153-171 | The block checksum, its bits mirrored, is the other CRC-32 of the bytes mirrored: both registers divide by one polynomial, given by its terms. |
| CrcMirror.ChainBit | dep/bzip2/compress.c:606-608 | Bit by bit: the combined checksum is turned left by one, the top bit coming in below, and each bit flipped where the block checksum has one. |
| DecompressRun.PiecesDoNotMatter | dep/bzip2/decompress.c:43-65 | However the input is cut, calls on the pieces leave the same saved state, bit buffer and unread input as one call on all of it. |
| DecompressRun.RunBytesIsRun | dep/bzip2/decompress.c:43-65 | Shifting bytes into a 32-bit buffer and taking bits from it is reading bits one after another. |
| DecompressSteps.StepSane | dep/bzip2/decompress.c:106-191 | Every step at every label, whatever the value read, leads to a state that may be saved and entered again. |
| DecompressFrame.HeaderRun | dep/bzip2/decompress.c:195-217 | The header's bits lead to the first block's label with the level stored. |
| DecompressFrame.TrailerRun | dep/bzip2/decompress.c:582-606 | The trailer's bits end the stream with the combined checksum stored, and no bit beyond them is taken. |
| DecompressData.DataRun | dep/bzip2/decompress.c:349-519 | From any symbol on, the symbols' bits lead to a complete block: the bytes the symbols stand for, counted into cftab. |
| DecompressData.DataRefused | dep/bzip2/decompress.c:349-492 | A symbol that overflows the block, a run past the guard, or a pointer outside the block ends in bad data, wherever it comes. |
| DecompressData.AllFit | dep/bzip2/decompress.c:381-486 | A body is acceptable exactly if each of its symbols fits where it stands. |
| DecompressBlock.BlockRun | dep/bzip2/decompress.c:222-521 | A whole block's bits, as BlockWriter writes them, are read back as the same map, pointer, selectors, tables and bytes. |
| DecompressBlock.BlockRefused | dep/bzip2/decompress.c:222-521 | With BlockRun: a well-formed block is accepted if and only if its bytes fit and its pointer lies inside it. |
| Decompress.Decompressor.Advance | dep/bzip2/decompress.c:106-640 | One step on the arrays themselves is the step of the machine, tables and two-level list included. |
| Decompress.Decompressor.Decompress | dep/bzip2/decompress.c:106-641 | A call on any input from any saved state leaves the state, the bit buffer and the unread input of the machine's run. |
| Decompress.Decompressor.Feed | dep/bzip2/decompress.c:139-191 | Calls on the pieces of an input, unread bytes handed over again, end where the machine's run on all of it ends. |
| BlockOutput.DState.OutputFast | dep/bzip2/bzlib.c:536-682 | What is put out and what is still to come make up what was to come; short output only at the end of the block; the checksum is that of the bytes put out; no good block is called corrupt. |
| BlockOutput.DState.OutputSmall | dep/bzip2/bzlib.c:706-804 | The same for the small decoder. |
| BlockOutput.OutputPieces | dep/bzip2/bzlib.c:536-804 | However the room is cut, the pieces joined are the block's expansion up to there. |
| DecompressStream.Inflow.BzDecompress | dep/bzip2/bzlib.c:808-858 | On any stored stream, its checksums right or wrong: what is put out is always the next part of the original; a data error only if a block checksum or the combined one is wrong, the end only if all are right and all is out; otherwise the room was filled or the stream not yet all handed over; out of sequence exactly after the end. |
| StreamRoundTrip.RoundTrip | dep/bzip2/bzlib.c:407-858 | decompress(compress(x)) == x over any number of blocks, for any calls, flushes, rooms and cuts on both sides, any block size and work factor, both memory modes, and with bytes following the stream. Calls in a permitted order that finish with room for a bound on the stream do end it, all input taken, and decompressing finishes once a call has all the stream and room to spare. |
| StreamRoundTrip.CompressAll | dep/bzip2/bzlib.c:407-464 | Calls in a permitted order of which one finishes with room beyond what there is to write reach the end of the stream; with room in each, everything given up to there has been taken. |
| StreamRoundTrip.DecompressAll | dep/bzip2/bzlib.c:808-858 | With enough calls the end or a data error is reached, and it is the end, with everything out, if and only if all stored checksums are right. |
| InflateFill.Build | dep/zlib/inftrees.c:32-305 | Refuses exactly the over-subscribed and the not-allowed incomplete sets of lengths, and exactly those whose tables need more room than the ENOUGH limits; else every slot of root and sub-tables is written, each bit string that starts with a code reaches that code's symbol and drops its length, nothing before the table changes, and the room used is what the lengths need. |
| InflateSize.SizeIs | dep/zlib/inftrees.c:262-282 | The sub-table opened for a root prefix has the least size that holds all codes with that prefix, and its first long code decides it. |
| InflateSize.SomeLong | dep/zlib/inftrees.c:267-274 | While codes of the lengths so far leave space under the prefix, a longer code lies under it: the loop that widens a sub-table widens it no further than needed. |
| InflateRanges.LengthHasCode | dep/zlib/inftrees.c:60-65 | Every length from 3 to 258 has a code and extra bits. |
| InflateRanges.LengthHasOne | dep/zlib/inftrees.c:60-65 | And only one, except 258, which has its own code besides the last of the code before. |
| InflateRanges.DistanceHasCode | dep/zlib/inftrees.c:66-73 | Every distance from 1 to 32768 has a code and extra bits. |
| InflateRanges.DistanceHasOne | dep/zlib/inftrees.c:66-73 | And only one. |
| InflateFast.InflateFast | dep/zlib/inffast.c:67-322 | Under its entry conditions at least one item is decoded, and the output is that of decoding one item at a time on an unbounded history, matches from the window, around its end or from the output alike; it stops only for want of input or room, at the end of the block, or where an item is bad; no byte outside the room is written; unused whole bytes are given back. |
| InflateBack.OutputWindow.CopyMatch | dep/zlib/infback.c:585-603 | The circular copy in stretches appends what a byte-by-byte copy from so far back in the whole history would, flushing the window as it fills; it fails exactly if the caller refuses one of the full windows it has to hand on, and has then copied a part. |
| DeflateFill.FillWindow | dep/zlib/deflate.c:1390-1532 | Sliding window, hash heads and links by wsize, reading more and inserting strings that waited keeps all chains sound and every byte of input accounted for; what lies ahead is never uninitialised. |
| HashChains.ChainsSlide | dep/zlib/deflate.c:1424-1456 | After a slide every head and link leads to the same string, wsize lower, or to none, and still passes over no inserted string with its key. |
| DeflateMatch.LongestMatch | dep/zlib/deflate.c:1148-1289 | A longer match found is a real one within the distance limit and the lookahead, though its third byte is never compared; no string on the chain, as far as it is followed, agrees in more bytes, unless the search ended with one that is long enough; and the match is the nearest of its length. |
| DeflateMatch.ChainComplete | dep/zlib/deflate.c:167-190 | Every inserted string with the key, back to the distance limit, is on the chain, unless the chain is longer than it may be followed. |
| DeflateMatch.NoneMissed | dep/zlib/deflate.c:1148-1289 | So no inserted string that agrees in more bytes is missed, unless the chain is too long or the match long enough. |
| DeflateSearch.SearchIs | dep/zlib/deflate.c:1652-1669 | The same said of the data instead of the window: any earlier repetition on offer is no longer than the match found, or more strings with its key lie between than are compared. |
| Deflate.DeflateFast | dep/zlib/deflate.c:1628-1722 | Tokens tallied so far decode to the input consumed so far, and each is well chosen: no string that began a token within reach repeats for longer, except where the input was cut, the chain crowded, or the match long enough. A call asks for more only with its input used up or blocks handed on, and ends otherwise with all of it tallied. |
| Deflate.DeflateSlow | dep/zlib/deflate.c:1730-1853 | The same with lazy matching over all strings, also when the window slides between finding a match and emitting it: a byte goes by itself only if nothing worth having repeats there or something longer begins at the next byte; a match is taken only if nothing longer does. |
| Deflate.DeflateRle | dep/zlib/deflate.c:1861-1928 | The same with matches at distance one: every run of three or more is taken whole, up to 258 bytes. |
| Deflate.DeflateHuff | dep/zlib/deflate.c:1934-1966 | The same with literals only: no match is ever chosen. |
| DeflateChoice.ChosenLater | dep/zlib/deflate.c:1640-1649 | A token well chosen stays so whatever input comes later, because a call that may leave bytes waiting keeps enough of them ahead. |
| DeflateChoice.NearFound | dep/zlib/deflate.c:1628-1722 | Greedy matching never codes a byte by itself where a string that began a token, no further back than the chain is long, repeats for three bytes. |
| DeflateChoice.NearTaken | dep/zlib/deflate.c:1730-1853 | Lazy matching passes over a repetition so near only for a longer match at the next byte. |
| DeflateStream.Compress | dep/zlib/deflate.c:665-975 | For all chunks, flushes and rooms at a fixed strategy: decoding all tokens gives the input; 3 <= length <= 258 and distance at most wsize less the lookahead guard; each block's stored bytes agree with its tokens; the last block is marked; and every token of the stream is one its strategy should choose, given where the flushes cut the input and the history. |
| Crc32.PatternIsPoly | dep/zlib/crc32.c:90-129 | The reflected polynomial constant is what the list of its terms makes. |
| Crc32Loops.MakeTables | dep/zlib/crc32.c:90-148 | All eight tables: a byte followed by zero bytes through the register, and the same with bytes reversed. |
| Crc32Loops.Crc32Little | dep/zlib/crc32.c:247-278 | For every buffer, start address and crc, the four-at-a-time loop is the bitwise register. |
| Crc32Loops.Crc32Big | dep/zlib/crc32.c:287-320 | The same in the other byte order. |
| Crc32Combine.CombineCrcs | dep/zlib/crc32.c:355-408 | Two checksums and the second length give the checksum of the concatenation, by repeated squaring of the zero operator. |
| Crc32Combine.CrcContinues | dep/zlib/crc32.c:204-236 | Going on from a checksum is the checksum of the whole. |
| Adler32.NmaxIsLargest | dep/zlib/adler32.c:14-16 | 5552 is the largest number of bytes after which sums from a reduced start still fit 32 bits, as its comment says. |
| Adler32.Adler32 | dep/zlib/adler32.c:65-133 | For every length, one byte, short and long alike, with reduction put off: the sums reduced at each byte. |
| Adler32.AddIsSum | dep/zlib/adler32.c:65-133 | Those sums are the byte total and the position-weighted total modulo 65521. |
| Adler32.CombineAdlers | dep/zlib/adler32.c:136-162 | Two checksums and the second length give the checksum of the concatenation. |
| Sfmt.RShiftIs | dep/SFMT/SFMT-common.h:60-74 | The shift put together from two 64-bit halves is the shift of the 128-bit value. |
| Sfmt.LShiftIs | dep/SFMT/SFMT-common.h:100-114 | The same to the left, bits beyond 128 lost. |
| Sfmt.RecurIs | dep/SFMT/SFMT-common.h:142-160 | On 128-bit numbers, the next word is the exclusive-or of five: a, a shifted left by bytes, b with each lane shifted right and masked, c shifted right by bytes, d with each lane shifted left. |
| Sfmt.GenRandAll | dep/SFMT/SFMT.c:245-263 | In place, each word overwritten while later ones still read it: the next N terms of the recurrence, which is the one on 128-bit numbers. |
| Sfmt.GenRandArray | dep/SFMT/SFMT.c:95-128 | For every size of at least N, twice N or less included: exactly size terms, and the state holds the last N of them. |
| Sfmt.Generator.GenrandUint32 | dep/SFMT/SFMT.h:139-149 | The next 32-bit output of the stream, with a refill when the state is used up. |
| Sfmt.Generator.FillArray | dep/SFMT/SFMT.c:293-300 | The next 4 * size outputs of the stream, after which single draws go on where it ended. |
| Sfmt.DrawBothWays | dep/SFMT/SFMT.c:293-300 | A bulk fill followed by single draws gives number for number what single draws alone give. |

## Where code and comment differ

- `longest_match` (dep/zlib/deflate.c:1134-1147) is said to return `prev_length` when it finds nothing longer. It returns
  the smaller of that and the lookahead, so near the end of the input the result can be less; no match is emitted from
  it then. `DeflateMatch.LongestMatch` states what the code does.

## Left out

bzip2

- Randomised blocks (`BZ_RAND_*`): the flag is read and stored, and blocks that set it are not followed into output; the
  compressor never sets it.
- Malformed streams beyond the decoder's own refusals: more selectors than the array holds, table memory never written,
  and list positions past the list, where the C reads or writes outside its arrays; the model refuses there or takes the
  memory as kept.
- Shared memory of the sorters: `ftab` and `bhtab`, `quadrant` and the block's tail, `ptr` and `eclass8` are arrays of
  their own. The one overlay that needs an argument, symbols over pointers, is kept.
- Rows of code lengths and the selectors are sequences replaced as wholes while coding tables are chosen; the C updates
  them in place.
- `ll4` is made anew for each block.
- The work factor's default and its bounds in `BZ2_bzCompressInit`; any value is allowed instead.
- DecompressStream.Inflow.BzDecompress: the state after a data error, which a caller can only discard, is not described.
- `total_in` and `total_out`, verbosity, and the handling of failed allocation.
- The stdio wrappers (`BZ2_bzRead`, `BZ2_bzWrite`, `bzopen` and the rest) and the one-shot buffer functions.

zlib

- `deflate_stored`, `deflateParams`, `deflateSetDictionary`, `deflateCopy`, `deflatePrime`, and the zlib and gzip headers.
- Writing blocks as bits: trees.c is not part of this model; a block is its tokens and the bytes it covers.
- `match_start` may fall below zero when the window slides; the model keeps it as an integer where the C wraps.
- `inflate()` itself, and the mode machine of `inflateBack` around its window: only the window's filling and copying.
- InflateFast.InflateFast: the window and the output are separate arrays; output written straight into the window, as
  `inflateBack` calls it, is not covered.
- Deflate.DeflateSlow: where `nice_length` is no more than the matches lazy matching may drop (three bytes, or five in a
  filtered stream), a byte coded by itself is not explained; the configuration table has no such values.
- Which string a match refers to, among those of its length, and `FASTEST` builds.
- Calls of `crc32` and `adler32` with a null buffer, which only return the initial value.

SFMT

- Seeding and `period_certification`; the stream starts from any state.
- The SIMD variants, conversions to floating point, and the byte order of the 64-bit fill.

The rest

- The game server itself and its other libraries.
