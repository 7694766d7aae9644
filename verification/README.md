# Verification of ESE algorithms

These modules model five parts of the Extensible Storage Engine and prove what they are for. Sequences of bits, bytes
and words are mathematical values; machine widths are written out where they matter (32-bit flag registers, 64-bit shift
registers, the 13-bit size field, 32-bit counts, unsigned record fields). The loops of the modelled code are loops here.

* **Xpress9 Huffman coding** (`ReverseMask`, `CodeLists`, `DecodeTables`, `FillTables`, `Histogram`, `DecodeHuffman`,
  `HuffmanTree`, `CreateTree`, `BitLengths`, `TruncateTree`, `SortSymbols`, `Canonize`, `OptimalCode`, `Codewords`,
  `HuffmanCodes`). A code is a list of symbols in the decoder's order, laid from right to left over the interval [0, 2^63); it is complete
  when it fills the interval. The decoder's tables are shown to decode this list, and the encoder's tree, depth limit and
  codewords are shown to produce it. Optimality is stated against every prefix code for the same counts.
* **Xpress9 tables and blocks** (`BitIo`, `SymbolIo`, `TableTokens`, `EncodeTable`, `ParseLengths`, `DecodeLengthTable`,
  `TableRoundTrip`, `StoredCode`, `CreateAndEncode`, `TableSize`, `BlockState`, `BlockDecoder`, `BlockItems`, `EndToEnd`).
  The bit streams, the compressed form of a length table and its parser, the block header, and a whole block from the
  encoder's counts to the decoder's symbols.
* **Plain Xpress** (`XpressDecode`, `XpressReader`, `XpressTokens`, `XpressRoundTrip`, `XpressWriter`). The decoder as a
  function, the loop that refines it, the call around it, and the token writer that patches flag words and half bytes back
  into its output.
* **Page checksums and repair** (`XorWords`, `ParityMask`, `Ecc`, `EccRows`, `EccColumns`, `OldChecksum`, `BitFlips`,
  `BlockRepair`, `PageRepair`, `FixPage`, `PageDamage`, `CheckPage`, `PageNumber`, `OldPages`). The code is the XOR over
  the indices of the set bits; each loop is shown to compute it, the repair of a page is shown to undo single flips, and a
  page to be valid under no number but its own.
* **Streaming backup** (`BackupPages`, `GenerationSum`, `BackupSpec`, `BackupRuns`, `BackupSafety`, `BackupRanges`,
  `BackupCompletes`, `BackupFailures`, `BackupContext`) and **task manager** (`TaskMgr`, `TaskProgress`). State machines:
  the steps are functions from state to state, an invariant holds over every run, what is promised can be reached from
  every state, and the class `BackupContext` makes these steps. The fields of `BACKUP_CONTEXT` are grouped in records,
  which its methods replace. The log is an environment: its current generation, checkpoint and position never go back,
  and files may vanish from its directory at any time.

`Powers`, `BitStrings`, `LengthLists`, `DepthCost` and `SumsOver` hold the arithmetic and the lists these share. `Formats`
fixes the compressed formats in plain bytes, bits and numbers, which round trips alone would leave open.

## Model

| member | source | states |
|---|---|---|
| ReverseMask.HuffmanReverseMask | dev/ese/src/_xpress9/Xpress9Misc.c:125-149 | the six bits at a time table lookup reverses all bits of a mask of any length |
| BitIo.BitWriter.Write | dev/ese/src/_xpress9/Xpress9Internal.h:314-329 | BIOWR appends exactly the low bits of the value to the stream, across any word boundary, and the 64-bit register never overflows |
| BitIo.BitReader.Skip | dev/ese/src/_xpress9/Xpress9Internal.h:419-431 | BIORD_SKIP keeps the register equal to the bits that come next in memory, and advances the consumed count by the width |
| BitIo.WriteThenRead | dev/ese/src/_xpress9/Xpress9Internal.h:314-472 | any list of values of at most 32 bits, written, flushed, preloaded and read with the same widths, comes back, whatever follows in memory, and the consumed bits are the sum of the widths |
| DecodeHuffman.HuffmanDecodeSortSymbols | dev/ese/src/_xpress9/Xpress9DecHuffman.c:12-98 | the chained lists give the used symbols from the longest codeword and the largest symbol down, with the histogram of lengths; it fails exactly on a length of 64 or more or on no symbol |
| Histogram.HuffmanDecodeVerifyTree | dev/ese/src/_xpress9/Xpress9DecHuffman.c:108-143 | the halving loop accepts a histogram exactly when its Kraft sum is one |
| LengthLists.FullTreeIsComplete | dev/ese/src/_xpress9/Xpress9DecHuffman.c:108-143 | the Kraft sum of the lengths is one if and only if their canonical code fills the interval |
| DecodeHuffman.NextExists | dev/ese/src/_xpress9/Xpress9DecHuffman.c:108-143 | a complete code has a codeword in front of every bit stream, so decoding by the code itself never fails |
| CodeLists.OwnerUnique | dev/ese/src/_xpress9/Xpress9EncHuffman.c:624-665 | no point of the interval lies under two codewords: the canonical assignment is prefix free |
| Formats.CodesAscend | dev/ese/src/_xpress9/Xpress9EncHuffman.c:624-665 | codewords ascend from zero with the length and, within a length, with the symbol |
| FillTables.HuffmanDecodeFillTables | dev/ese/src/_xpress9/Xpress9DecHuffman.c:154-321 | for every complete list of at most 2^root symbols, tables built bottom-up in place satisfy the invariant from which lookup is proved; it fails only for lack of table space, or outside the widths, sizes and symbols that its assertions allow |
| DecodeTables.WalkLands | dev/ese/src/_xpress9/Xpress9Internal.h:581-601 | from any table so built, relative jumps end at the symbol that owns the stream's position, after exactly its length, however many tables are visited |
| DecodeHuffman.BuiltDecodes | dev/ese/src/_xpress9/Xpress9DecHuffman.c:154-321 | on every stream and position, the tables give the symbol and the position that the canonical code gives |
| DecodeHuffman.OneSymbolDecodes | dev/ese/src/_xpress9/Xpress9DecHuffman.c:354-375 | the table for a single symbol decodes it everywhere |
| DecodeHuffman.HuffmanCreateDecodeTables | dev/ese/src/_xpress9/Xpress9DecHuffman.c:331-397 | from any lengths it leaves tables that decode their canonical code, or fails because the lengths form no complete code or the space does not suffice |
| SymbolIo.SymbolShown | dev/ese/src/_xpress9/Xpress9EncHuffman.c:634-659 | a stream that starts with what the encoder writes for a symbol starts with its canonical codeword, and decodes to it |
| SymbolIo.DecodeSymbol | dev/ese/src/_xpress9/Xpress9Internal.h:581-601 | HUFFMAN_DECODE_SYMBOL on the shift register is the table walk on the stream |
| SortSymbols.HuffmanMergeSort | dev/ese/src/_xpress9/Xpress9EncHuffman.c:64-222 | the run-collapsing merge sort gives a permutation ordered by count and then by symbol |
| SortSymbols.HuffmanRadixSort | dev/ese/src/_xpress9/Xpress9EncHuffman.c:239-289 | the four radix passes give a permutation ordered by count and then by symbol |
| SortSymbols.OrderIsUnique | dev/ese/src/_xpress9/Xpress9EncHuffman.c:716-729 | there is only one such permutation, so both sorts give the same list |
| HuffmanTree.GreedyIsOptimal | dev/ese/src/_xpress9/Xpress9EncHuffman.c:296-390 | a tree merged from two lightest subtrees each time has exactly the given leaves and costs at most what any prefix code for these counts costs |
| HuffmanTree.GreedyIsShallow | dev/ese/src/_xpress9/Xpress9Internal.h:479-493 | if the counts are positive and sum below 2^32 its height is at most 45 |
| HuffmanTree.FiveOnesAreTall | dev/ese/src/_xpress9/Xpress9Internal.h:479-481 | five counts of 1 have a tree of height 3 |
| HuffmanTree.TallNeedsFive | dev/ese/src/_xpress9/Xpress9Internal.h:479-481 | no positive counts with a sum below 5 do |
| CreateTree.HuffmanCreateTree | dev/ese/src/_xpress9/Xpress9EncHuffman.c:296-390 | for two or more leaves sorted by count and summing below 2^32, the two-queue loop takes two lightest subtrees at every step; its root holds exactly the leaves, no prefix code is cheaper, and its height is at most 45 if no count is zero |
| BitLengths.HuffmanComputeBitLength | dev/ese/src/_xpress9/Xpress9EncHuffman.c:399-450 | the traversal with an explicit stack counts the leaves at each depth, and neither its stack nor its depth assertion fails for a tree of that height |
| TruncateTree.HuffmanTruncateTree | dev/ese/src/_xpress9/Xpress9EncHuffman.c:460-508 | from a complete histogram of at most 2^max leaves it ends with no assertion failing, still complete, with the same number of leaves and none deeper than max; nothing changes if none was deeper; otherwise no level above the last one that lost a leaf changes, and between that and max each level has at most one leaf, or two where none are deeper |
| TruncateTree.ShortenedIsUnique | dev/ese/src/_xpress9/Xpress9EncHuffman.c:460-508 | there is only one such histogram, so the deepest leaves above the limit are taken and no others |
| Canonize.AssignedHistogram | dev/ese/src/_xpress9/Xpress9EncHuffman.c:531-559 | the lengths handed out in order of count have exactly the truncated histogram |
| Canonize.SuffixCost | dev/ese/src/_xpress9/Xpress9EncHuffman.c:598-611 | the double running sum is the sum of count times length, which a comment there doubts |
| Canonize.LinkChains | dev/ese/src/_xpress9/Xpress9EncHuffman.c:561-596 | the chains by length link to the reverse of the decoder's order |
| OptimalCode.AssignedIsCheapest | dev/ese/src/_xpress9/Xpress9EncHuffman.c:515-559 | lengths handed out by the histogram of a minimal tree, the longest to the rarest symbols, cost no more than any prefix code |
| Codewords.HuffmanCreateCodewords | dev/ese/src/_xpress9/Xpress9EncHuffman.c:624-665 | for every ordered list, its assertions hold, and it ends at 2^bits, if and only if the code is complete; then each symbol has its reversed canonical codeword and no other entry changes |
| HuffmanCodes.Xpress9HuffmanCreateTree | dev/ese/src/_xpress9/Xpress9EncHuffman.c:675-797 | from counts to packed codewords: a complete prefix code within the limit in which exactly the counted symbols have codewords, and its exact cost; its lengths are those of a minimal tree, shortened as the truncation promises, the longest to the rarest symbols; if the counts of two or more symbols sum below the Fibonacci number max + 3, where the limit cannot bind, no prefix code is cheaper; all-zero counts leave the codewords untouched |
| EncodeTable.Xpress9HuffmanEncodeTable | dev/ese/src/_xpress9/Xpress9EncHuffman.c:811-1072 | the two passes emit the small table and then exactly the coded description of the lengths, by the code that the tree builder makes for its symbols, with no assertion failing |
| Formats.SampleTable | dev/ese/src/_xpress9/Xpress9EncHuffman.c:848-923 | the symbols, by number, that describe a table of sixteen lengths with every kind of repeat |
| Formats.SmallEntry | dev/ese/src/_xpress9/Xpress9EncHuffman.c:955-979 | the bits of every entry of the small table: one for a repeat, four otherwise, with the repeated length left out |
| Formats.ZeroRun | dev/ese/src/_xpress9/Xpress9EncHuffman.c:1044-1060 | the bits behind the symbol of a zero run of any length |
| DecodeLengthTable.HuffmanDecodeLengthTable | dev/ese/src/_xpress9/Xpress9DecHuffman.c:405-622 | on every stream, valid or not, it succeeds, fails, fills the lengths and consumes bits as the parser function says |
| ParseLengths.ParsedIsBounded | dev/ese/src/_xpress9/Xpress9DecHuffman.c:500-608 | whatever the stream, a described table that is accepted has the right size and no length over the limit, or over eight when the limit is lower |
| ParseLengths.RunStaysInRow | dev/ese/src/_xpress9/Xpress9DecHuffman.c:541-566 | no run of zeros that would cross the end of its row is accepted |
| TableRoundTrip.TableReads | dev/ese/src/_xpress9/Xpress9EncHuffman.c:811-1072 | a stream that shows the description of a table parses to its lengths and ends at the description's end, through previous and row repeats, fills and zero runs |
| CreateAndEncode.WrittenTableReads | dev/ese/src/_xpress9/Xpress9EncHuffman.c:1103-1220 | the same for both forms that the encoder chooses from, stored and described |
| StoredCode.StoredIsComplete | dev/ese/src/_xpress9/Xpress9EncHuffman.c:1124-1160 | the lengths of the stored form are a complete code for every alphabet of two or more symbols |
| StoredCode.StoredCodes | dev/ese/src/_xpress9/Xpress9EncHuffman.c:1149-1160 | the codewords computed directly for the stored form are its canonical codewords |
| CreateAndEncode.Xpress9HuffmanCreateAndEncodeTable | dev/ese/src/_xpress9/Xpress9EncHuffman.c:1080-1222 | for every counts with a sum below 2^32 the result is a usable code for all counted symbols, what is emitted is its table, and the cost returned is exactly the table bits plus count times length, and no more than that of either candidate, the stored form or the described code from the shortened minimal tree; for all-zero counts it is the stored form at cost 3 |
| TableSize.TableBitsSize | dev/ese/src/_xpress9/Xpress9EncHuffman.c:941-1065 | a table takes at most 135 bits and eight bits a symbol |
| BlockState.StateFits | dev/ese/src/_xpress9/Xpress9EncLz77.c:1390-1472 | recent offsets and both tables take less than 8192 bits, whatever the counts and the window |
| BlockState.FlagsCarry | dev/ese/src/_xpress9/Xpress9EncLz77.c:1471-1483 | the flag word gives every parameter back, and the table size exactly if it is below 8192 |
| Formats.FlagWord | dev/ese/src/_xpress9/Xpress9EncLz77.c:1471-1483 | the place and the width of every field of the flag word |
| Formats.SampleOffsets | dev/ese/src/_xpress9/Xpress9EncLz77.c:1393-1410 | the bits of two recent offsets with their flag |
| BlockState.Lz77Encoder.StartFlushing | dev/ese/src/_xpress9/Xpress9EncLz77.c:1368-1483 | it emits the offsets and both tables, each in the cheaper form, packs their true size, and predicts the size of the block from the same codes |
| BlockDecoder.Lz77Decoder.DecodeState | dev/ese/src/_xpress9/Xpress9DecLz77.c:342-443 | it never leaves unusable tables behind, and from a stream that starts with an encoder's state it takes exactly that state |
| EndToEnd.ReadHeader | dev/ese/src/_xpress9/Xpress9DecLz77.c:655-802 | on a stream that starts with an encoder's state, under any flag word with its parameters, the decoder takes that state, and the check of the table size passes if and only if the flag word is the one that the encoder packs |
| BlockState.FlagsAreUnpacked | dev/ese/src/_xpress9/Xpress9DecLz77.c:655-668 | no other flag word without reserved bits unpacks to the same valid parameters and size |
| BlockDecoder.TablesFit | dev/ese/src/_xpress9/Xpress9DecLz77.c:386-437 | the table arrays have room for every code of either alphabet |
| BlockItems.ReceiveItems | dev/ese/src/_xpress9/Xpress9Internal.h:400-601 | short symbols, long lengths and plain bits, in any order, come back in that order |
| EndToEnd.BlockRoundTrip | dev/ese/src/_xpress9/Xpress9EncLz77.c:1368-1483 | for all counts, offsets, parameters and items that were counted, header, tables and items written by the encoder are accepted and given back by the decoder |
| XpressReader.BmaskNext | dev/ese/src/_xpress/xdecode.i:699-970 | shifting the flag register takes one flag, and the 1 behind the flags tells when they are used up |
| XpressReader.DoDecode | dev/ese/src/_xpress/xdecode.i:699-970 | the loop over one shift register, with copies in place, is the decoder function, on every input, for every buffer and every part of it asked for; the end mark is reported only where the part is the whole buffer, and nothing behind the part is written |
| XpressReader.DecodeBuffer | dev/ese/src/_xpress/xdecode.c:306-401 | sizes outside the limits, 8 bytes or fewer of data, fewer than 8 of stream, more data than 65536 bytes or a stream longer than the data, are refused, and data of equal size are taken for stored; otherwise it succeeds if and only if the stream gives the bytes asked for and, if those are all, ends with them; then exactly these bytes are in the buffer |
| XpressWriter.TagMaskNext | dev/ese/src/_xpress/xencode.c:195-205 | the sign bit of the tag register tells that 31 flags are in it, and the 32nd pushes out the leading 1 |
| XpressWriter.TokenWriter.WriteLit | dev/ese/src/_xpress/xencode.c:329-332 | a literal extends the output and its flag goes to the open word, which is patched back when it is full |
| XpressWriter.TokenWriter.WritePtr | dev/ese/src/_xpress/xencode.c:335-473 | a copy extends the output in each of its four length forms, with the half byte shared with an earlier copy |
| XpressWriter.TokenWriter.Finish | dev/ese/src/_xpress/xencode.c:207-215 | the last word is completed with ones and patched back; the word reserved behind it is not output |
| XpressRoundTrip.StepDecodes | dev/ese/src/_xpress/xencode.c:195-378 | whatever the open flags and the free half byte become later, the decoder takes the token that was written and then stands where the writer stood |
| XpressRoundTrip.TokensRoundTrip | dev/ese/src/_xpress/xencode.c:180-378 | the finished stream of every valid token list decodes to its expansion |
| XpressRoundTrip.ShortBufferIsFilled | dev/ese/src/_xpress/xdecode.i:699-970 | a shorter buffer receives the beginning of the expansion, whatever its size, and the end is reported there if and only if a copy begins where the buffer ends |
| XpressRoundTrip.LongBufferIsRefused | dev/ese/src/_xpress/xdecode.i:699-970 | no longer buffer is ever filled |
| XpressRoundTrip.AcceptedSizes | dev/ese/src/_xpress/xdecode.c:395-400 | for every token list and every size: a part is given if and only if the data are as long, and a size is accepted as that of the whole data if and only if it is theirs or a copy begins there |
| XpressWriter.WriteTokens | dev/ese/src/_xpress/xencode.c:1525-1567 | start, as many tokens as there is room for, and finish leave bytes that decode to the expansion of these tokens, all of them if the buffer is long enough |
| XpressWriter.WriteAndDecode | dev/ese/src/_xpress/xdecode.c:306-401 | for every valid token list whose data have at most 65536 bytes and whose stream is shorter and has at least 8, the call on what was written returns the size of the part asked for, with the beginning of the expansion; a stream of equal size is taken for stored data, and the call refuses in all other cases |
| Formats.SampleStream | dev/ese/src/_xpress/xencode.c:180-378 | the stream, byte by byte, of a literal and six copies with every form of a length at both of its ends |
| ParityMask.MaskIsParity | dev/ese/src/checksum/checksum_amd64.cxx:362-400 | folding and the byte table give minus one for an odd word and zero for an even one |
| EccRows.ChecksumNewFormat64Bit | dev/ese/src/checksum/checksum_amd64.cxx:1331-1435 | row and column parities assemble to the XOR over the indices of the set bits, with its complement, and to the XOR of the words and the page number; OldPages.OneBitBlock and PageNumber.PageHasOneNumber fix these in numbers |
| EccColumns.ChecksumNewFormatSlowly | dev/ese/src/checksum/checksum_amd64.cxx:612-788 | the four-column loop with double indices computes the same two values |
| OldChecksum.OldFormatsAgree | dev/ese/src/checksum/checksum_amd64.cxx:118-170 | the loops over 32, 64 and 128 bits give the same old-format checksum on multiples of 128 bytes |
| OldPages.EmptyBlock | dev/ese/src/checksum/checksum_amd64.cxx:349-357 | a block without bits has the code 0 and the page number as its exclusive or; its old checksum is the seed |
| OldPages.OneBitBlock | dev/ese/src/checksum/checksum_amd64.cxx:349-357 | a block with one bit has its position below the complement of that as its code, and the bit and the page number as its exclusive or |
| OldPages.OldPageIsChecked | dev/ese/src/_esefile/xsum.cxx:273-307 | a page of the old format passes if and only if its header holds its number and its checksum, and is never repaired |
| OldPages.ChangedWordIsDetected | dev/ese/src/checksum/checksum.cxx:165-241 | any change inside one word of such a page is reported |
| BlockRepair.OneFlip | dev/ese/src/checksum/checksum.cxx:347-420 | one flipped bit is recognised and located, unless it is the reserved one |
| BlockRepair.TwoFlips | dev/ese/src/checksum/checksum.cxx:347-420 | two flipped bits are never taken for one |
| FixPage.TryFixPage | dev/ese/src/_esefile/xsum.cxx:201-269 | in place, exactly the located bits of exactly the damaged blocks are flipped, or nothing if any block is beyond repair |
| PageRepair.ComputePageChecksum | dev/ese/src/_esefile/xsum.cxx:105-156 | the checksums of the one or four blocks, each stored in its place in the header when a page is stamped |
| PageNumber.HeaderLayout | dev/ese/src/_esefile/xsum.cxx:50-156 | the words of the header that hold the format flag and the checksums of the one or four blocks |
| PageNumber.SetPageChecksum | dev/ese/src/ese/_osu/checksumu.cxx:666-676 | it sets the flag, stores the checksums of the other blocks and then that of the first |
| PageNumber.SealedIsValid | dev/ese/src/ese/_osu/checksumu.cxx:136-240 | whatever a page holds, it is then valid under its number, and only the flag and the checksums have changed |
| CheckPage.ChecksumAndPossiblyFixPage | dev/ese/src/_esefile/xsum.cxx:273-307 | reading, computing and repairing a page, including the recomputation when a repair hits a stored checksum |
| CheckPage.SingleFlipsAreRepaired | dev/ese/src/_esefile/xsum.cxx:172-307 | a valid page with at most one flip in each block, outside its first eight bytes and the format flag, is restored bit for bit, even when the flip hits another block's checksum |
| CheckPage.DoubleFlipsAreDetected | dev/ese/src/_esefile/xsum.cxx:172-307 | two flips in a block, outside the stored checksums, are reported as not correctable and the page is left alone |
| CheckPage.FirstFlipIsReported | dev/ese/src/_esefile/xsum.cxx:201-269 | the position reported for a page with single flips is that of the first one, counted from the beginning of the page |
| PageNumber.PageHasOneNumber | dev/ese/src/checksum/checksum_amd64.cxx:349-357 | a page is valid under one number only |
| PageNumber.WrongNumberIsRefused | dev/ese/src/_esefile/xsum.cxx:273-307 | a valid page that is read under another number is refused, never called correctable, and left alone; the difference of the checksums is that of the numbers |
| PageNumber.FlipsDoNotHelp | dev/ese/src/_esefile/xsum.cxx:273-307 | nor do any single flips and their repair make it pass under another number |
| TaskMgr.NextKeeps | dev/ese/src/ese/taskmgr.cxx:101-232 | every atomic step of any poster, of the controlling thread or of the inner manager keeps the invariant |
| TaskMgr.NoLatePost | dev/ese/src/ese/taskmgr.cxx:146-199 | in no interleaving is a task handed to the inner manager once its termination has begun |
| TaskMgr.FreedAtMostOnce | dev/ese/src/ese/taskmgr.cxx:101-232 | a task context is freed at most once, by Dispatch or by the failing poster, and not while it is queued |
| TaskMgr.FreedExactlyOnce | dev/ese/src/ese/taskmgr.cxx:101-232 | when all is quiet each context has been freed exactly once, by Dispatch if the post succeeded and by the poster if it failed, and no session is left open |
| TaskMgr.SessionsOutliveTasks | dev/ese/src/ese/taskmgr.cxx:33-141 | the session that a running task uses is open |
| TaskProgress.FailsOnlyWhenOff | dev/ese/src/ese/taskmgr.cxx:146-199 | in every run a call fails if and only if it checked while the manager was off or the inner post failed |
| TaskProgress.PostCanSucceed | dev/ese/src/ese/taskmgr.cxx:101-199 | in every reachable state in which a call has entered and the manager is up, the run can go on so that its task is posted and then run by Dispatch |
| TaskProgress.RestCanBeReached | dev/ese/src/ese/taskmgr.cxx:101-232 | no call, task or termination is ever stuck: every run can go on until all is quiet |
| TaskProgress.InitCanSucceed | dev/ese/src/ese/taskmgr.cxx:33-99 | whenever the manager is down it can be brought up with a session for each thread |
| BackupPages.DatabaseFile.ReadPages | dev/ese/src/ese/backup.cxx:232-484 | a read gives the next pieces of headers, pages and trailer, as many as fit and are left; a failure puts the counter back |
| BackupPages.DatabaseFile.Read | dev/ese/src/ese/backup.cxx:2804-2948 | what successful reads have handed out is a contiguous part of the file from the first piece asked for; an error closes the file, and a suspended read loses what it took |
| BackupPages.DatabaseFile.CountersTellCompleteness | dev/ese/src/ese/backup.cxx:3055-3075 | the byte counters agree if and only if the whole stream has been handed out |
| BackupPages.CopyDatabase | dev/ese/src/ese/backup.cxx:2125-3149 | open, reads and close: if the close counts the database, the client has both headers, every page and the trailer, in order; it does so unless a read failed or was suspended |
| BackupPages.FileInOrder | dev/ese/src/ese/backup.cxx:232-285 | the stream is the header twice, every page from 1 to the last in its place, and the trailer |
| BackupPages.RefusedOffsets | dev/ese/src/ese/backup.cxx:2166-2187 | a copy may begin at any offset of a page but those of the second header and of page 1 |
| GenerationSum.TestIsExact | dev/ese/src/ese/backup.cxx:3535-3556 | if no generation was counted twice, the sum test passes if and only if every generation of the range was copied |
| GenerationSum.TestIsFooled | dev/ese/src/ese/backup.cxx:3546-3556 | if generations may be counted twice, the test is sound if and only if the range has a single generation |
| BackupContext.BackupContext.Begin | dev/ese/src/ese/backup.cxx:1628-1913 | it makes the begin step: refusals for disabled, failed, circular or exhausted logging, flags of the databases, the check for an incremental backup, the first generation to copy |
| BackupContext.BackupContext.OpenDatabase | dev/ese/src/ese/backup.cxx:2125-2672 | it makes the open step: bad offsets, a second open file, a wrong phase, which ends the backup, and a failure, which drops the database |
| BackupContext.BackupContext.ReadDatabase | dev/ese/src/ese/backup.cxx:2683-2948 | it makes the read step, with the patch header at the trailer; an error drops the database |
| BackupContext.BackupContext.CloseFile | dev/ese/src/ese/backup.cxx:2959-3149 | it makes the close step: a database counts as copied if and only if all of it was handed out, a log of the range if it was read to its end |
| BackupContext.BackupContext.PrepareLogFiles | dev/ese/src/ese/backup.cxx:597-745 | it makes the preparation step, with what each early error leaves behind |
| BackupContext.BackupContext.GetLogInfo | dev/ese/src/ese/backup.cxx:3155-3471 | it makes the step to the log phase, stays behind when the log path is refused, and ends the backup when there is no memory for the list |
| BackupContext.BackupContext.TruncateLog | dev/ese/src/ese/backup.cxx:3502-3561 | it makes the truncation step: the sum test and the deletion in increasing order up to the first failure |
| BackupContext.BackupContext.CleanUp | dev/ese/src/ese/backup.cxx:4130-4436 | it makes the end step: which outcomes update which headers with which ranges, and what is reset |
| BackupContext.UpdateHeader | dev/ese/src/ese/backup.cxx:3999-4128 | one of the four records is replaced unless it is younger, and a truncating full backup clears the incremental and differential ones |
| BackupSafety.StepKeeps | dev/ese/src/ese/backup.cxx:597-4436 | every step keeps the invariant of ranges, counts, files and records |
| BackupSafety.RunsKeep | dev/ese/src/ese/backup.cxx:597-4436 | so does every run |
| BackupSafety.TruncationIsSafe | dev/ese/src/ese/backup.cxx:637-745 | in every reachable state, a log that truncation deletes is below the last copied generation and the checkpoint, has been copied in an incremental backup, and is below the last full backup of every database that the range spared; passing the test after a clean copy means the whole range was copied |
| BackupSafety.LeftOutAreSpared | dev/ese/src/ese/backup.cxx:695-734 | the logs of the databases left out when a full backup truncates survive if, and when the range is deleted to its end only if, every database opened after the range was set was read to its end or has its last full backup above the range |
| BackupRanges.PreparedRanges | dev/ese/src/ese/backup.cxx:637-745 | after a successful preparation the range of deletion begins at or below every log, and ends at the largest generation that is not above the checkpoint, the range of the copy, or the last full backup of a database left out |
| BackupRanges.PreparationSucceeds | dev/ese/src/ese/backup.cxx:597-745 | preparation succeeds if and only if no call of the environment fails, there is a log, and an incremental backup misses none behind the records |
| BackupRanges.TruncationIsComplete | dev/ese/src/ese/backup.cxx:3502-3561 | in every run, a truncation that succeeds deletes every log there is from the lowest one found by preparation up to that generation, in a full and in an incremental backup |
| BackupRanges.TruncatedExactly | dev/ese/src/ese/backup.cxx:3502-3561 | which files it deletes, and that it succeeds if and only if it may truncate and none of the range stays |
| BackupRanges.KeptExactly | dev/ese/src/ese/_log/logstream.cxx:4144-4229 | deletion removes the range up to the first file that cannot be deleted; that one stays with all behind it |
| BackupRanges.StopIsFinal | dev/ese/src/inc/daedef.hxx:4300-4303 | from a stop on, whatever is called until the next backup begins, nothing is opened, read, listed or deleted, and no record changes |
| BackupSafety.RecordedLogsHaveNoGap | dev/ese/src/ese/backup.cxx:844-895 | in every run each database has, in the ranges of its truncating backups, every generation from its last full backup to the highest recorded one, and in their copies too if each was truncated after a clean copy |
| BackupSafety.CompletionIsRecorded | dev/ese/src/ese/backup.cxx:4060-4289 | a completed truncating backup is recorded with its whole range, above every earlier record |
| BackupSafety.OthersDoNotCount | dev/ese/src/ese/backup.cxx:4054-4098 | a backup that does not truncate leaves the records and what they stand for unchanged |
| BackupRanges.OneRecordChanges | dev/ese/src/ese/backup.cxx:3999-4128 | for each kind of backup, which of the four records it replaces, with what, which it clears, and that the others stay |
| BackupRanges.RecordsStay | dev/ese/src/ese/backup.cxx:4130-4436 | all records stay if the backup was stopped, ended early or abnormally or without header updates, or the database took no part |
| BackupRanges.RefusedExactly | dev/ese/src/ese/backup.cxx:1628-1913 | which refusal a begin gives for which condition, in their order, and when it succeeds |
| BackupCompletes.FullBackupCanComplete | dev/ese/src/ese/backup.cxx:1628-4436 | from every state at rest with the logs from the checkpoint on there is a run of a full backup after which every attached, logged database has a record of the whole range and copies of its logs, and exactly the logs from the checkpoint on are left |
| BackupCompletes.IncrementalBackupCanComplete | dev/ese/src/ese/backup.cxx:1628-4436 | the same for an incremental backup wherever one is allowed |
| BackupSafety.TruncateDoneNeedsLogList | dev/ese/src/ese/backup.cxx:4264-4289 | an incremental backup ended with the caller's word that logs were truncated leaves a gapless record if and only if log preparation had set its range |
| BackupSafety.CountedFromItsOffset | dev/ese/src/ese/backup.cxx:3085-3088 | a log opened at any offset and read with any buffers counts as copied if and only if the reads gave all bytes behind the offset; one that counts was handed out whole if and only if it was opened at 0 |
| BackupFailures.ReopenedDatabaseLosesItsLogs | dev/ese/src/ese/backup.cxx:3155-3471 | a run from a new instance after which truncation deletes a log of a database that has no backup |
| BackupFailures.UnreadLogIsDeleted | dev/ese/src/ese/backup.cxx:3535-3556 | a run from a new instance in which no log is read, and after which truncation deletes the log to be copied |
| BackupFailures.TwiceCopiedStandsIn | dev/ese/src/ese/backup.cxx:3535-3556 | a run from a new instance after which truncation deletes a log to be copied that was never closed, because another was closed twice |
| BackupFailures.GapIsRecorded | dev/ese/src/ese/backup.cxx:637-668 | a run from a new instance after which a header records logs that neither exist nor were ever in a backup's range |

## Findings

What the proofs say about the code where it does less, or more, than its comments.

* The test of log truncation compares sums of generations (backup.cxx:3546-3556). It is exact if no log is closed twice
  (`GenerationSum.TestIsExact`). With repetitions it can be fooled as soon as two generations are needed: the highest,
  closed twice, stands in for the lowest (`GenerationSum.TestIsFooled`, an equivalence). `BackupFailures.TwiceCopiedStandsIn`
  is such a run from a new instance: the lowest log is deleted unread.
* A log that is opened at an offset and read from there counts as copied (backup.cxx:2166-2187, 3085-3088), whole or not
  (`BackupSafety.CountedFromItsOffset`). Opened at its size, it counts without having been read, and is deleted
  (`BackupFailures.UnreadLogIsDeleted`). A copy is called clean if every counted log was opened at offset 0 and counted once.
* If the log path is refused after the ranges were set (backup.cxx:3217-3225), the backup stays in its database phase, and a database
  may be opened again. If it then fails, it is left out of the backup, but the range of deletion no longer spares its logs
  (`BackupFailures.ReopenedDatabaseLosesItsLogs`). `BackupSafety.LeftOutAreSpared` has the exact condition.
* Ending an incremental backup with JET_bitBackupTruncateDone records its range even if log preparation failed or was
  never asked for; only an Assert guards it. The record is then wrong, and in no other case
  (`BackupSafety.TruncateDoneNeedsLogList`, `BackupFailures.GapIsRecorded`).
* A read that is suspended during recovery has already moved the copy counter (backup.cxx:2858-2864): the pages it took
  are never handed out. The byte counter stays behind for good, so the file is not counted as backed up
  (`BackupPages.DatabaseFile.Read`, `CountersTellCompleteness`).
* The comment at Xpress9Internal.h:479-491 takes the counts 1, 1, 1, 3, 4, 7 and so on for the ones of the tallest trees.
  Five counts of 1 already give depth 3 with a total of 5 (`HuffmanTree.FiveOnesAreTall`), where that sequence needs 6. The
  bound that matters, a height of at most 45 for totals below 2^32, holds (`HuffmanTree.GreedyIsShallow`).
* Plain Xpress marks the end of a stream like the beginning of a copy (xdecode.i:802, 956-958). A buffer that is too short
  for the data is therefore accepted as the whole of them when a copy begins where it ends, and in no other case
  (`XpressRoundTrip.AcceptedSizes`).
* The doubt in the comment at Xpress9EncHuffman.c:606 is unfounded (`Canonize.SuffixCost`).
* The comment at xsum.cxx:39-40 names bit 0x1000; the code uses bit 13, 0x2000, as cpage.hxx:703 does. The model follows
  the code.

## Left out

- LZ77 match finding, the second pass and the inner decode loops of both Xpress versions, which decide what is sent.
- Streaming between user and scratch buffers, the CRC of the block header and the check of the block size in it.
- ChecksumNewFormatSSE2, the AVX form and ChecksumNewFormatBasic; i386 assembly; prefetching.
- The fast mode of the plain Xpress decoder, which differs from the careful one in its bounds checks only; the CODING_HUFF and CODING_BY_BIT variants.
- Read retries, range locks and scrubbing inside ErrBKIReadPages: each read succeeds or fails as a whole, as a parameter says.
- Snapshot, surrogate and internal copy backups, backup to a directory, patch files, event reports, invalid grbits, backups during recovery, and the failures of allocation and of log records that only make a call fail early.
- CMeteredSection itself: Partition is taken to return only after everyone who was inside has left.
- SortSymbols.HuffmanMergeSort: lists are sequences, so relinking nodes in place and reuse of node memory are not modelled; the same holds for HuffmanRadixSort, HuffmanDecodeSortSymbols, AssignLengths and LinkChains.
- CreateTree.HuffmanCreateTree: nodes are values; the array that the source appends them to is not.
- CreateAndEncode.Xpress9HuffmanCreateAndEncodeTable: the candidate tables are written through copies of the bit state; that both share output memory in the source, where the chosen one is written again, is not modelled. For all-zero counts, where the mask array is tried as it came, its lengths are demanded to be in range, as the assertions of the table encoder do.
- HuffmanCodes.Xpress9HuffmanCreateTree: costs are unbounded numbers, which stands for the 64-bit type of the source.
- XpressWriter.WriteTokens: it stops before a token when fewer than ten bytes are left; the source sets the limit for a whole stretch of input at a time, by a guess of what the stretch may take (xencode.c:1525-1546).
- BackupContext.BackupContext.OpenDatabase: a name that belongs to no database is opened as a log in the log phase; that is the step of OpenLog here.
- BackupContext.BackupContext.ReadDatabase: outside of recovery only, so that no read is suspended; BackupPages.DatabaseFile.Read covers suspension.
- BackupSafety.TruncationIsSafe: sums of generations are unbounded numbers, which stands for a 64-bit SIZE_T.
