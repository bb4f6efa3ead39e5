# Compression, factoring, sorting, packages and expressions: a verified model of BusyBox and CoreMark code

The project models six programs of the repository and proves what they are for:

- **gzip** (`busybox/archival/gzip.c`): the deflate compressor from the bit writer to the gzip member. Main result:
  `Gzip.Zip`. For every input, every way a reader may cut it into chunks and every configuration, a decoder written
  after RFC 1951 reads the input back from what is put out, and the trailer fits the input.
- **lzop** (`busybox/archival/lzop.c`): the Adler-32 checksum with delayed reductions.
- **factor** (`busybox/coreutils/factor.c`): 64-bit factorization over a packed wheel.
- **CoreMark** (`coremark/core_list_join.c`): the linked-list merge sort and the list edits.
- **dpkg** (`busybox/archival/dpkg.c`): version order, hash tables, dependency parsing and the dependency loop.
- **expr** (`busybox/coreutils/expr.c`): the recursive-descent evaluator.

## How the modules fit together

Code that works in place is modelled in place. The bit writer, the tree builder, the token buffer, the block encoder,
the deflate window and its hash chains, the hash tables, the list nodes and the expr values are classes and arrays
whose methods follow the branches of the source. Each method is proved against a function or predicate on values, and
the properties are proved there.

The gzip part is layered as the source is:

| layer | modules |
|---|---|
| bits and bytes | `Bits`, `BitWriter` |
| reference decoder | `Canonical`, `RunLength`, `Inflater`, `Blocks`, `SampleStream` |
| code trees | `Heap`, `Merging`, `Optimal`, `PrefixCodes`, `Depths`, `BitLengths`, `LengthPasses`, `Symbols`, `TreeBuilder` |
| blocks | `EncoderTables`, `CodeTables`, `TreeCoding`, `StaticTrees`, `Costs`, `TokenBuffer`, `DynamicTrees`, `BlockEncoder` |
| matching | `Hashing`, `HashChains`, `Matching`, `Input`, `Deflate` |
| the gzip member | `Gzip` |

`Inflater` is a decoder that knows nothing of the encoder. It reads block types, rebuilds canonical codes from lengths,
expands the run-length header and copies matches, and it refuses incomplete codes. So the round trip is stated against
an independent definition. That the definition is RFC 1951 is fixed by closed forms of its tables (`EncoderTables`,
`StaticTrees.FixedLitCode`) and by one stream, given byte by byte, that it reads to a given text
(`SampleStream.StreamDecodes`).

The other parts are `Adler`; `Wheel`, `Factor`; `ListSort`, `ListEdits`; `CStrings`, `Versions`, `Probing`,
`NameTable`, `PackageTables`, `DependencyCheck`, `DependencyLines`, `PackageFields`; `ExprValues`, `Expr`,
`ExprParser`, `ExprMeaning`.

## What the proofs found

- **Optimal trees.** The comments on `build_tree` promise an optimal tree. That holds unless a leaf of the merged tree
  lies deeper than `max_length` (`Depths.OverflowIsDeep` says that this is exactly when `gen_bitlen` overflows), and
  frequencies that add up to less than Fib(`max_length` + 3) rule it out beforehand (`TreeBuilder.LightIsShallow`).
  With an overflow the code is still complete and decodes, with `max_length` in use.
- **Blank dependency fields.** `add_split_dependencies` uses a null pointer at a field without a token, as in
  "a, ,b" (`DependencyLines.BlankFieldIsNull`). `DependencyLines.NullTokenWhen` and `AddedWhen` say for every line
  when that happens and when the edges are added.
- **Records without a name.** `fill_package_struct` looks a package without a name up under name number 0. That is a
  null text exactly if no name has been stored in slot 0 (`PackageFields.FillPackageStruct`).
- **A single `<` or `>`.** The prefix comparison of the source reads them as `<<` and `>>`, and refuses
  everything but seven runs of these characters (`DependencyLines.OperatorRuns`).
- **The complaint about corrupt dependencies** cannot come for edges that `add_split_dependencies` made
  (`DependencyCheck.CheckEdges`).
- **NMAX in lzop** is what its comment says, the largest bound (`Adler.NmaxIsLargest`), and 5552 bytes are safe from
  any 16-bit start values, not only from reduced ones (`Adler.NoOverflow`).
- **Sorting the empty list.** A comment in `core_list_mergesort` allows for it, but the pass ends with a store through a
  null tail. `ListSort.Mergesort` dies exactly on the empty list.
- **Sorting in CoreMark** changes the keys while it compares. The result is sorted and stable by the final keys
  (`ListSort.Mergesort`).
- **Division in expr.** Every quotient of 64-bit numbers fits but one (`ExprValues.QuotientFits`).

## Model

| member | source | states |
|---|---|---|
| Gzip.Zip | busybox/archival/gzip.c:2064-2103 | However the reader cuts the input into chunks, what is flushed is the ten header bytes, listed one by one, bits from which an RFC 1951 decoder gets exactly the input read back, ending in the last byte before the trailer, and as two numbers of four bytes, low byte first, ~crc and length (modulo 2^32) of that input; without a read error that is the whole input. Holds for every configuration of window, hash and buffers, every level of effort |
| Gzip.MemberIs | busybox/archival/gzip.c:2094-2102 | Bytes whose body decodes to the input from bit 80 still decode to it, and to the same bit, with the eight trailer bytes behind them: the decoder stops within the last byte before the trailer |
| Deflate.Deflater.Deflate | busybox/archival/gzip.c:1810-1912 | Started on an empty block, the LZ77 loop sends bits behind the ones before from which a decoder gets back all the input that was read, and ends with the input at its end unless a read failed |
| Deflate.Deflater.Step | busybox/archival/gzip.c:1819-1907 | One round keeps the invariant of the run (bits sent so far and pending tokens decode to the input up to the last decided byte, pending match included, hash chains and rolling hash intact), gets ahead in the input, and adds just the token that lazy matching asks for: the pending match, with its length and distance, if it has length 3 or more and the longest match found along the chain now is not longer, and otherwise the byte before as a literal, the match found being pending; a match of length 3 may be dropped |
| Deflate.Deflater.FindMatch | busybox/archival/gzip.c:1831-1850 | The search is made exactly if there is a chain head in reach and the pending match is shorter than max_lazy; its result is cut at the lookahead, and a match of length 3 is dropped exactly if it is farther than TOO_FAR |
| Deflate.Deflater.OutputMatch | busybox/archival/gzip.c:1854-1878 | A match of the step before becomes one token; the pending tokens then account for exactly its length more of the input, its strings enter the chains, and a block that is full is flushed |
| Deflate.Deflater.OutputLiteral | busybox/archival/gzip.c:1879-1890 | The byte before strstart becomes a literal token; the tokens then account for one more byte of the input |
| Deflate.Deflater.LongestMatch | busybox/archival/gzip.c:710-784 | The unrolled search along the hash chain returns the length of the best match among the positions it looks at (see LongestIsLongest); if it beats prev_length, match_start is a place at a legal distance where that many bytes agree, and otherwise match_start stays |
| Matching.LongestIsLongest | busybox/archival/gzip.c:710-784 | The result of the search is the length of a real match of one of the positions looked at, or the given bound, and none of them is longer unless the result is already nice enough to stop |
| Matching.CopiesInput | busybox/archival/gzip.c:1854-1856 | Bytes that repeat at a distance, even overlapping ones, are exactly what the decoder copies |
| Hashing.HashForgets | busybox/archival/gzip.c:364-370 | After MIN_MATCH updates the rolling hash depends on the last three bytes only, whatever the number of hash bits |
| Hashing.HashTellsThird | busybox/archival/gzip.c:752-758 | Why the search may skip the third byte: with 8 hash bits or more, equal hashes and two equal bytes force it to be equal |
| Deflate.Deflater.InsertString | busybox/archival/gzip.c:1797-1807 | Keeps the chains for one more position and the hash rolled; the head returned is that of the chain of the string, which is 0 or an earlier position with the same hash, and nothing else in head and prev changes |
| HashChains.InsertKeeps | busybox/archival/gzip.c:1797-1807 | Storing the new position over the oldest entry of the circular prev array keeps every chain: each head, and each link not yet overwritten, leads to an earlier position with the same hash, or ends |
| HashChains.SlideKeeps | busybox/archival/gzip.c:655-678 | Sliding the window by WSIZE and rebasing all heads and links, those that fall off to 0, leaves correct chains for the moved window |
| HashChains.ReadKeeps | busybox/archival/gzip.c:680-688 | Reading new bytes behind the hashed ones leaves the chains correct |
| Deflate.Deflater.Slide | busybox/archival/gzip.c:655-678 | The window moves by WSIZE with every position in it; what it holds of the input, and the chains, stay consistent |
| Deflate.Deflater.FillWindow | busybox/archival/gzip.c:641-689 | Makes room and reads: the window still holds the input up to the read position, and either at least one byte more was read or the input has ended or failed |
| Deflate.Deflater.FillWindowIfNeeded | busybox/archival/gzip.c:691-695 | Afterwards there is enough lookahead for a longest match and a hash, or the input is over; at the end of the input nothing changes |
| Deflate.Deflater.LmInit | busybox/archival/gzip.c:1927-1961 | The first reads and the hash of the first two bytes establish the start of the invariant of the loop |
| Input.Source.FileRead | busybox/archival/gzip.c:512-535 | A read delivers the next bytes of the input into the buffer and nowhere else; checksum and size cover exactly the bytes delivered so far |
| Input.CrcConcat | busybox/archival/gzip.c:512-515 | Checksumming chunk by chunk is checksumming the whole, for any per-byte step |
| BlockEncoder.Encoder.FlushBlock | busybox/archival/gzip.c:1680-1766 | The block sent is the one of stored, fixed and dynamic that the exact bit lengths of the tokens select by the byte comparison of the code; whichever it is, it is a well-formed block for the tokens, at the end padded to a byte, and the next block starts empty |
| BlockEncoder.PickMeans | busybox/archival/gzip.c:1702-1753 | The block is stored exactly if the data are at hand and take, with four bytes more, no more bytes than either block with codes; otherwise it is the one with codes that takes fewer bytes, the fixed one if they take the same |
| BlockEncoder.Encoder.SendStored | busybox/archival/gzip.c:1730-1741 | A stored block: type bits, padding to a byte, length, its complement and the window bytes unchanged |
| BlockEncoder.Encoder.CtTally | busybox/archival/gzip.c:1573-1625 | One more token is held and counted; the buffers keep room for the next token unless the result says to flush, which it does exactly if a buffer is full or, every 4096 tokens, if fewer than half of them are matches and the bound of 8 bits a token and 5 with the extra bits a distance is below half the input |
| BlockEncoder.Encoder.BuildTrees | busybox/archival/gzip.c:1687-1695 | From the counts of the tokens to literal and distance trees whose codes cover all the tokens, with opt_len and static_len the exact numbers of bits the tokens take with dynamic and with fixed trees |
| BlockEncoder.Encoder.BuildBlTree | busybox/archival/gzip.c:1511-1538 | The bit-length tree covers the run-length form of both trees, trailing unused codes of bl_order are cut, and opt_len is the exact width of the block without its three type bits |
| BlockEncoder.Encoder.SendAllTrees | busybox/archival/gzip.c:1545-1567 | Sends exactly the dynamic header of RFC 1951: the three counts, the bit-length code lengths in bl_order, and both trees in run-length form |
| BlockEncoder.CtInit | busybox/archival/gzip.c:1969-2058 | Builds tables, static trees and an empty block that satisfy the invariant of the encoder |
| Blocks.ReadsBlock | busybox/archival/gzip.c:1630-1766 | A reference decoder (block types, canonical codes, run-length header, copies) reads every well-formed block, stored, fixed or dynamic and at any bit position, back to its output and goes on right behind it |
| Blocks.DecodesFinal | busybox/archival/gzip.c:1680-1766 | Behind any blocks that decode, the final one ends the decoding with the whole output |
| SampleStream.StreamDecodes | busybox/archival/gzip.c:1680-1766 | The reference decoder on a whole stream given byte by byte (a stored block, a fixed one with a literal above 143 and a match, a dynamic one with all kinds of run-length symbols and two matches with extra bits) gives the text listed: the decoder reads RFC 1951 and not only what this encoder writes |
| StaticTrees.FixedLitCode | busybox/archival/gzip.c:2016-2048 | The fixed codes of the 288 literal and length symbols, in the four ranges that section 3.2.6 of RFC 1951 lists |
| EncoderTables.OrderIs | busybox/archival/gzip.c:898-900 | The order of the code-length code lengths in closed form: 16, 17, 18, 0, and then alternately up from 8 and down from 7 |
| EncoderTables.OrderAgrees | busybox/archival/gzip.c:898-900 | bl_order is the order of the decoder |
| EncoderTables.LengthExtraIs | busybox/archival/gzip.c:881-885 | The extra bits of every length code by formula |
| EncoderTables.DistExtraIs | busybox/archival/gzip.c:887-891 | The extra bits of every distance code by formula |
| EncoderTables.LengthBaseIs | busybox/archival/gzip.c:1983-1996 | The first length of every length code by formula, 258 apart |
| EncoderTables.DistBaseIs | busybox/archival/gzip.c:1998-2014 | The first distance of every distance code by formula |
| EncoderTables.ExtraBitsAgree | busybox/archival/gzip.c:881-895 | extra_lbits, extra_dbits and extra_blbits are the widths that the decoder reads |
| EncoderTables.FixedLitIs | busybox/archival/gzip.c:2020-2039 | The code lengths of the fixed block by ranges |
| EncoderTables.ApplyIs | busybox/archival/gzip.c:941-946 | What the symbols 16, 17 and 18 with their extra bits stand for: 3 to 6 copies of the last length, 3 to 10 zeros, 11 to 138 zeros |
| DynamicTrees.TokenTrees | busybox/archival/gzip.c:1687-1751 | Trees built from the counts of tokens are complete, code every one of these tokens, and the tokens take as many bits as counts times code lengths say |
| DynamicTrees.TokensExact | busybox/archival/gzip.c:1687-1706 | The number of bits of the tokens under any code lengths is the sum over the counted frequencies: the estimate that chooses the block type is exact |
| DynamicTrees.BlTree | busybox/archival/gzip.c:1511-1538 | The bit-length tree built from the run-length symbols codes all of them, in as many bits as their counts say, and some bit-length code is in use |
| Costs.CostFromTally | busybox/archival/gzip.c:1195-1202 | A sum over frequencies is the sum over the symbols counted |
| TokenBuffer.TokenBuf.Add | busybox/archival/gzip.c:1573-1601 | Literals, lengths, distances and flag bits are laid out so that the buffer holds one token more, in order |
| TokenBuffer.CompressBlock | busybox/archival/gzip.c:1630-1673 | Reading flags, lengths and distances back from the buffers, it sends exactly the codes and extra bits of the tokens tallied, then end-of-block |
| CodeTables.LengthTables | busybox/archival/gzip.c:1983-1996 | The table maps every length to its RFC 1951 code; the last length, 258, gets the code of its own |
| CodeTables.DistTables | busybox/archival/gzip.c:1998-2014 | The two halves of the table map every distance up to 32768 to its RFC 1951 code |
| StaticTrees.StaticLitTree | busybox/archival/gzip.c:2016-2048 | The static tree carries the code lengths and codes of the fixed blocks of RFC 1951 |
| StaticTrees.StaticDistTree | busybox/archival/gzip.c:2050-2054 | The static distance codes are those of the fixed blocks |
| TreeCoding.ScanTree | busybox/archival/gzip.c:1402-1448 | Counts exactly the symbols of the run-length form of the code lengths, leaving only the guard behind |
| TreeCoding.SendTree | busybox/archival/gzip.c:1454-1505 | Sends the codes and repeat counts of that same run-length form |
| RunLength.ItemsSpell | busybox/archival/gzip.c:1402-1505 | Whatever the lengths are, a decoder that expands the run-length items gets back just these lengths |
| TreeBuilder.Builder.BuildTree | busybox/archival/gzip.c:1290-1394 | From frequencies to lengths and bit strings: the lengths make a complete code within max_length, the bit strings are those a decoder rebuilds from the lengths, opt_len and static_len grow by exactly what the symbols take; and unless a leaf of the merged tree lies deeper than max_length the lengths are the depths of the leaves and as cheap as any lengths that satisfy the Kraft inequality; frequencies below Fib(max_length + 3) in sum never overflow |
| Optimal.MergingIsOptimal | busybox/archival/gzip.c:1360-1383 | Merging the two least weights again and again costs no more than any lengths, of any width, that satisfy the Kraft inequality |
| PrefixCodes.KraftInequality | busybox/archival/gzip.c:1312-1394 | The code words of any prefix code satisfy the Kraft inequality |
| PrefixCodes.NoPrefixCodeCheaper | busybox/archival/gzip.c:1312-1394 | No prefix code whatever, canonical or not, beats lengths that are cheapest in the sense of BuildTree |
| Depths.OverflowIsDeep | busybox/archival/gzip.c:1178-1191 | The first pass of gen_bitlen cuts a length off exactly when a leaf of the tree lies deeper than max_length |
| Depths.LensAreDepths | busybox/archival/gzip.c:1178-1191 | The length of every node is its depth in the tree, or max_length where that is less |
| TreeBuilder.LightIsShallow | busybox/archival/gzip.c:1312-1394 | A bound on the input that rules overflow out: frequencies that add up to less than Fib(max_length + 3) give no leaf deeper than max_length |
| Depths.DeepIsHeavy | busybox/archival/gzip.c:1360-1385 | A tree made by merging lightest nodes with a leaf deeper than max weighs Fib(max + 3) at least |
| Depths.MergeKeepsLightest | busybox/archival/gzip.c:1364-1382 | Every round of merging takes the two lightest nodes: all that are left weigh at least as much as those taken |
| TreeBuilder.Builder.FillHeap | busybox/archival/gzip.c:1325-1335 | The heap gets exactly the symbols in use, the others length 0 |
| TreeBuilder.Builder.ForceTwo | busybox/archival/gzip.c:1337-1352 | At least two symbols are in use afterwards, and what the forced ones will add to the block lengths is taken off in advance, wrap-around included |
| TreeBuilder.Builder.Heapify | busybox/archival/gzip.c:1354-1358 | The siftings from the middle down make the whole array a heap with the same members |
| TreeBuilder.Builder.PqDownHeap | busybox/archival/gzip.c:1127-1149 | The loop in place gives the heap that PqDown gives on values, which Heap.PqDownOrders shows to be ordered one father further |
| Heap.PqDownOrders | busybox/archival/gzip.c:1127-1149 | Sifting one father extends the ordered part of the heap by it and keeps the members |
| Heap.RootSmallest | busybox/archival/gzip.c:1116-1149 | In an ordered heap no node is less frequent than the root, and none that is as frequent has less depth |
| TreeBuilder.Builder.MergeStep | busybox/archival/gzip.c:1364-1382 | The two siftings, the new node and the two stores of fathers in place give the state that Merge gives on values, which keeps the invariants of MergeKeepsInv, MergeKeepsAccounts and MergeKeepsLightest |
| TreeBuilder.Builder.MergeAll | busybox/archival/gzip.c:1360-1385 | The loop ends with one node, the invariant and the accounts kept, frequencies of the leaves untouched |
| Merging.MergeKeepsInv | busybox/archival/gzip.c:1364-1382 | One round keeps the forest: heap nodes, nodes taken out and their fathers make trees over exactly the leaves, in the array shared with the heap |
| Merging.MergeKeepsAccounts | busybox/archival/gzip.c:1364-1382 | Cost paid plus cost to come stays the cost of optimal merging, and no 16-bit frequency overflows |
| TreeBuilder.Builder.FirstPass | busybox/archival/gzip.c:1171-1205 | Lengths, counts per length and both costs of the tree, with overflow the number of nodes cut off |
| TreeBuilder.Builder.RepairCounts | busybox/archival/gzip.c:1210-1222 | The overflow loop always finds a shorter code to split and ends with counts of a complete code for the same number of leaves |
| BitLengths.LeafKraft | busybox/archival/gzip.c:1178-1203 | After the cut the Kraft sum exceeds 1 by one unit for each father that was cut, and more leaves than that have max_length |
| BitLengths.ShorterExists | busybox/archival/gzip.c:1212-1214 | While units are in excess some code is shorter than max_length: the search in the overflow loop never runs below 1 |
| BitLengths.MoveDownRepairs | busybox/archival/gzip.c:1212-1221 | One step of the overflow loop takes one unit off the Kraft sum and keeps the number of codes |
| BitLengths.LeafCost | busybox/archival/gzip.c:1178-1203 | Without a cut, weights times lengths sum up to the sum of all internal nodes |
| TreeBuilder.Builder.GenBitlen | busybox/archival/gzip.c:1161-1244 | Lengths within max_length for every leaf, whose counts make a complete code; costs updated for the final lengths; if no leaf lies deeper than max_length the lengths are the depths, and if one does the greatest length is in use |
| TreeBuilder.Builder.GenCodes | busybox/archival/gzip.c:1254-1288 | Every symbol gets the canonical code that its length and the lengths before it determine, bits reversed |
| TreeBuilder.Builder.BiReverse | busybox/archival/gzip.c:581-591 | The bits of the code in reverse order |
| Canonical.PrefixFree | busybox/archival/gzip.c:1254-1288 | No canonical code is a prefix of another |
| Canonical.DecodesSymbol | busybox/archival/gzip.c:1254-1288 | A decoder that knows only the lengths reads the code of every symbol back, whatever bits follow |
| BitWriter.Writer.SendBits | busybox/archival/gzip.c:541-574 | With the 32-bit accumulator and the flushes of the output buffer, the bits sent so far are extended by exactly the low n bits of the value, least first |
| BitWriter.Writer.BiWindup | busybox/archival/gzip.c:596-609 | Pads with zero bits to a byte; then bits sent and bytes put out are the same |
| BitWriter.Writer.CopyBlock | busybox/archival/gzip.c:615-631 | Alignment, length, its complement, and the bytes unchanged |
| BitWriter.Writer.Put16bit | busybox/archival/gzip.c:445-481 | Two bytes, the low one first, across a flush as well |
| BitWriter.Writer.Put32bit | busybox/archival/gzip.c:484-499 | Four bytes, the low one first, across a flush as well |
| Adler.Adler32 | busybox/archival/lzop.c:510-537 | The checksum with its reductions put off over chunks of NMAX bytes in 32-bit arithmetic is the checksum that reduces after every byte, and in closed form: the low half is the start value plus the sum of the bytes, the high half plus n times the low start value plus the weighted sum, both modulo 65521; without data the value itself, and 1 for a null buffer |
| Adler.NoOverflow | busybox/archival/lzop.c:515-535 | From any 16-bit halves, NMAX bytes never overflow the unreduced sums |
| Adler.NmaxIsLargest | busybox/archival/lzop.c:515-518 | The bound of the comment holds for n if and only if n <= 5552 |
| Adler.RawReduces | busybox/archival/lzop.c:527-535 | Reducing once at the end equals reducing at every byte |
| Adler.RawIs | busybox/archival/lzop.c:527-531 | The unreduced sums in closed form: the sum of the bytes, and the sum in which the first of n bytes counts n times and the last once |
| Adler.AdlerConcat | busybox/archival/lzop.c:510-537 | The checksum of a concatenation is that of its parts in turn, from any start value |
| Factor.Factorizer.Factorize | busybox/coreutils/factor.c:161-217 | What is printed is the ascending list of primes with product n, each as often as square_count says: for square_count 1 exactly that list |
| Factor.Factorizer.IsqrtOdd | busybox/coreutils/factor.c:137-159 | 0 if and only if n is a square, which then has been printed as its root twice over; otherwise the odd bound of trial division and nothing printed |
| Factor.Factorizer.TakeOut | busybox/coreutils/factor.c:195-201 | Divides the factor out completely: either what is left no longer has it as a divisor and has a new bound, or a square was met and the factorization is finished |
| Factor.Factorizer.NextFactor | busybox/coreutils/factor.c:204-211 | The next divisor is larger, no divisor of what is left was passed over, and if it does not fit 32 bits what is left is prime |
| Factor.PastTheRoot | busybox/coreutils/factor.c:202-203 | The bound is sound: what is left with no divisor up to it is 1 or prime, rounding of even roots included |
| Factor.NoRoomLeft | busybox/coreutils/factor.c:204-206 | When the next divisor would overflow 32 bits, what is left is already 1 or prime |
| Factor.PrimeBySquare | busybox/coreutils/factor.c:137-159 | A number at least 2 with no divisor up to its root is prime |
| Factor.CountSmall | busybox/coreutils/factor.c:147-152 | square_count never overflows its byte: a number whose k-th power fits 64 bits has k at most 63 |
| Wheel.UnpackWheel | busybox/coreutils/factor.c:101-120 | The packed 64-bit words unpack to the whole table of 485 steps |
| Wheel.WordIsPacked | busybox/coreutils/factor.c:51-59 | The words that the macros P and R build from shifts and ors hold the halved steps three bits apart above a zero bit |
| Wheel.GapAt | busybox/coreutils/factor.c:60-89 | At every place of the table the step leads from the divisor of that place to the one of the next, and the numbers passed over are even or multiples of 3, 5, 7 or 11 |
| Wheel.FullTurn | busybox/coreutils/factor.c:60-89 | From WHEEL_START round the table is 2310 |
| Wheel.PassedOver | busybox/coreutils/factor.c:204-211 | In every turn of the endless walk, each number passed over has a smaller divisor not above the current factor: no divisor is missed |
| ListSort.Mergesort | coremark/core_list_join.c:500-595 | Dies exactly on the empty list; otherwise the list returned has the same nodes, in the order of their seven-bit values, or of idx itself, with equal ones in the order they came in; on two or more nodes every value is cached, or every low byte regenerated; values that were cached or ask for no benchmark are the low seven bits they were on entry, and no upper byte changes |
| ListSort.Pass | coremark/core_list_join.c:512-591 | One pass turns sorted runs of insize nodes into stable sorted runs of twice that, and halves their number; it dies exactly when there is no run |
| ListSort.MergeRuns | coremark/core_list_join.c:523-588 | Two runs become one sorted stable run of the same nodes, linked behind the list so far |
| ListSort.Compare | coremark/core_list_join.c:121-142 | The result is the difference of the two cached values, or of the two idx, and a second call sees the same; only a benchmark changes a value |
| ListSort.CalcFunc | coremark/core_list_join.c:70-114 | The seven-bit value is cached so that later calls return the same; data that are cached already, or that ask for no benchmark, are their own value; the upper byte is kept |
| ListEdits.Remove | coremark/core_list_join.c:377-389 | The data of the item leaves the list and the others keep their order; the node returned carries it |
| ListEdits.UndoRemove | coremark/core_list_join.c:408-419 | The removed node and its data come back in the list at the place of the item |
| ListEdits.RemoveAndUndo | coremark/core_list_join.c:377-419 | A removal that is undone restores the link and the data of every node |
| ListEdits.Find | coremark/core_list_join.c:435-449 | The first node that fits, or null when none does |
| ListEdits.Reverse | coremark/core_list_join.c:465-476 | The same nodes with the same data, linked in reverse order |
| Versions.VersionCompare | busybox/archival/dpkg.c:283-334 | The sign is that of the order on epoch, upstream version and Debian revision as they are cut from the texts |
| Versions.VersionComparePart | busybox/archival/dpkg.c:240-277 | The sign of the interleaved loop is the lexicographic order of keys in which letters, other characters, the end and tildes have ranks and digit runs count as numbers |
| Versions.VersionsOrdered | busybox/archival/dpkg.c:283-334 | That order is a total preorder on all versions: reflexive, antisymmetric in sign, transitive on both strict and weak side |
| Versions.PartsOfWhole | busybox/archival/dpkg.c:289-321 | Epoch, upstream version and revision are read back from a version put together from them |
| Versions.WholeDecides | busybox/archival/dpkg.c:283-334 | Of two whole versions the epochs decide, then the upstream versions, then the Debian revisions |
| Versions.PartsMissing | busybox/archival/dpkg.c:294-322 | Without a colon the epoch is 0, and without a dash the revision is empty |
| Versions.TildeFirst | busybox/archival/dpkg.c:229-277 | Behind what two texts share, a tilde sorts before everything that is no digit, even the end of the text |
| Versions.CharactersOrdered | busybox/archival/dpkg.c:229-277 | Behind what two texts share, the end sorts before letters and other characters, every letter before every character that is no letter, digit or tilde, and letters, and the others, by their codes |
| Versions.ComparesNumbers | busybox/archival/dpkg.c:257-275 | Digit runs compare as numbers of any length, leading zeros without effect, before what follows them |
| Versions.TestVersion | busybox/archival/dpkg.c:336-354 | True exactly if the two versions stand in the relation the operator names |
| Versions.OperatorsMean | busybox/archival/dpkg.c:336-354 | What each of the operators 1 to 6 asks of the sign of the order, and that no other number asks for anything possible |
| Probing.Reaches | busybox/archival/dpkg.c:169-206 | With a prime table size the double-hashing walk meets every slot within one round |
| Probing.SizesArePrime | busybox/archival/dpkg.c:82-115 | The three table sizes are prime, as their comment demands |
| Probing.OneStep | busybox/archival/dpkg.c:199-202 | The 32-bit subtract-and-correct step is the step of that walk modulo the size |
| Probing.MakeHash | busybox/archival/dpkg.c:169-186 | Start and decrement are those of Home, a function of key and size whose start lies in the table and whose decrement lies between 1 and the size less 1 |
| Probing.HashOfTwo | busybox/archival/dpkg.c:169-186 | The walks of two keys as numbers, which fix the shift and the order of the characters |
| Probing.MixedFits | busybox/archival/dpkg.c:177-183 | The shifted sums of a character fit a 32-bit int |
| NameTable.Names.Search | busybox/archival/dpkg.c:189-206 | The slot of the name: the one that holds it, or else the first free one of its walk, where it is stored; nothing else changes |
| NameTable.Interning | busybox/archival/dpkg.c:189-206 | Over any run of calls a name keeps its number, and two numbers are equal if and only if the names are |
| NameTable.RoomMeansFree | busybox/archival/dpkg.c:189-206 | While no more distinct names are in use than the table has slots, every search ends |
| PackageTables.Dpkg.SearchPackage | busybox/archival/dpkg.c:356-377 | Some package that matches name and version relation if there is one, otherwise a free slot |
| PackageTables.Dpkg.SearchStatus | busybox/archival/dpkg.c:211-227 | The slot of the state of that package name if there is one, otherwise a free slot |
| PackageTables.Dpkg.StorePackage | busybox/archival/dpkg.c:685-688 | The package replaces one with its name and an equal version if there is one, otherwise it is added; searches still find all others |
| PackageTables.Dpkg.StoreStatus | busybox/archival/dpkg.c:788-790 | The state replaces that of the same package name, or is added; searches still find all others |
| DependencyLines.AddSplitDependencies | busybox/archival/dpkg.c:429-519 | For every line the outcome is the one the text decides (added, illegal operator, null token); if added, the new edges spell the clauses of the line in order, a group with its leading count for each set of alternatives |
| DependencyLines.LineReads | busybox/archival/dpkg.c:429-519 | Round trip: from any list of clauses written out as a line, exactly these clauses are read back |
| DependencyLines.AddedWhen | busybox/archival/dpkg.c:429-519 | Edges are added if and only if every field has a token and every operator is known |
| DependencyLines.NullTokenWhen | busybox/archival/dpkg.c:442-464 | A null pointer is used exactly at a field without a token behind fields that are all fine |
| DependencyLines.BlankFieldIsNull | busybox/archival/dpkg.c:442-464 | A line on which that happens: "a, ,b" |
| DependencyLines.EdgeFor | busybox/archival/dpkg.c:459-511 | One alternative becomes an edge that shows its name, operator and version, unless the operator is illegal |
| DependencyLines.OperatorReads | busybox/archival/dpkg.c:474-492 | Each of the five operators is read back from its text |
| DependencyLines.OperatorRuns | busybox/archival/dpkg.c:478-491 | Every run of the characters <, = and >: = is 1, << and a single < are 2, <= is 3, >> and a single > are 4, >= is 5, and every other run is illegal |
| DependencyLines.SpacedReads | busybox/archival/dpkg.c:463-505 | A dependency with a version reads the same with any spaces, or none, before the name, around the parenthesis and behind the operator |
| PackageFields.FillFields | busybox/archival/dpkg.c:630-679 | Name, version and edges are those of the texts of the control fields, later ones replacing earlier names and versions, dependency fields accumulating |
| PackageFields.FieldMeans | busybox/archival/dpkg.c:620-677 | Which name of a control field sets the name, the version or the edges of which type; all other names are ignored |
| PackageFields.FillPackageStruct | busybox/archival/dpkg.c:618-689 | Stores the package and keeps every package of the table filled from its texts, except in exactly these cases: no version (or the version unknown), a field that ends the program, or no name while name number 0 is not taken |
| PackageFields.CheckDeps | busybox/archival/dpkg.c:1065-1177 | The dependency loop ends without dying if and only if every clause, as written in the control texts of every package wanted for install, is met |
| DependencyCheck.CheckDependencies | busybox/archival/dpkg.c:1065-1177 | The same in terms of edges: if and only if in every group of every package wanted for install some alternative is satisfied, by a matching package or by one that provides its name |
| DependencyCheck.CheckEdges | busybox/archival/dpkg.c:1094-1175 | For one package: the counter of alternatives, the skip over the rest of a group and the final test amount to "each group has a satisfied alternative"; the complaint about corrupt dependencies never comes |
| PackageFields.MetIsClauseMet | busybox/archival/dpkg.c:1094-1175 | What the loop asks of a group of edges is what the clause says in texts |
| PackageFields.DepMetMeans | busybox/archival/dpkg.c:963-978 | A dependency is met exactly if some package has its name and a version in the relation asked for, or provides its name, and has a state whose third word is "installed", for a pre-dependency, or whose first word is "install" |
| PackageFields.WantedMeans | busybox/archival/dpkg.c:1076-1090 | A package is checked exactly if the first word of its state is "install" |
| DependencyCheck.SatisfiedBy | busybox/archival/dpkg.c:1112-1147 | Satisfied if and only if the package found, or some package that provides the name, is in the right state |
| DependencyCheck.PackageSatisfies | busybox/archival/dpkg.c:963-978 | By type of dependency: wanted for install or, for pre-depends, already installed |
| DependencyCheck.SearchForProvides | busybox/archival/dpkg.c:395-408 | The next package that provides the name; none was passed over |
| DependencyCheck.GetStatus | busybox/archival/dpkg.c:692-712 | The number of the asked word of the status text |
| PackageTables.StateOfThree | busybox/archival/dpkg.c:692-712 | On the text of a state of three words: it satisfies a pre-dependency exactly if the third word is "installed", and a dependency exactly if the first is "install" |
| ExprParser.Evaluator.ExprMain | busybox/coreutils/expr.c:539-559 | Ends with the value if the tokens parse as a whole, with a syntax error if tokens are left, and dies as the evaluation does |
| Expr.PrintedTreeEvaluates | busybox/coreutils/expr.c:317-537 | Every expression tree, printed with the parentheses its levels need, is read as a whole and gives the value of the tree, or dies as its evaluation does |
| Expr.Reads | busybox/coreutils/expr.c:317-537 | The same at every level and in front of any tokens that do not continue the expression: precedence and left associativity |
| Expr.Fused | busybox/coreutils/expr.c:317-537 | On all token lists, well-formed or not, evaluating while reading gives what building the tree and evaluating it afterwards gives |
| ExprParser.Evaluator.Eval | busybox/coreutils/expr.c:522-537 | Handles \|: on every token list it consumes, yields, or dies of, exactly what the parser on values says that Expr.Reads shows to read printed trees back |
| ExprParser.Evaluator.Eval1 | busybox/coreutils/expr.c:502-518 | The same for & |
| ExprParser.Evaluator.Eval2 | busybox/coreutils/expr.c:472-498 | The same for the comparisons |
| ExprParser.Evaluator.Eval3 | busybox/coreutils/expr.c:448-468 | The same for + and - |
| ExprParser.Evaluator.Eval4 | busybox/coreutils/expr.c:424-444 | The same for *, / and % |
| ExprParser.Evaluator.Eval5 | busybox/coreutils/expr.c:406-420 | The same for : |
| ExprParser.Evaluator.Eval6 | busybox/coreutils/expr.c:341-401 | The same for quote, match, length, index and substr |
| ExprParser.Evaluator.Eval7 | busybox/coreutils/expr.c:317-337 | The same for parentheses and single tokens, with the syntax error at an unexpected end |
| ExprParser.Evaluator.NextArg | busybox/coreutils/expr.c:208-213 | Nonzero exactly if the next argument is the operator |
| ExprValues.CmpCommon | busybox/coreutils/expr.c:217-243 | Compares as numbers when both sides are, otherwise as texts, with the operator told by its code |
| ExprValues.ArithmeticCommon | busybox/coreutils/expr.c:247-266 | The 64-bit result of the operator, or the error for a non-number or a zero divisor |
| ExprValues.DivisionTruncates | busybox/coreutils/expr.c:257-264 | Quotient and remainder truncate toward zero: the remainder has the sign of the number and is smaller than the divisor |
| ExprValues.QuotientFits | busybox/coreutils/expr.c:257-264 | The only quotient of 64-bit numbers that does not fit is the least number by -1 |
| ExprValues.DecimalReads | busybox/coreutils/expr.c:177-203 | Every 64-bit number survives becoming a text and being read again |
| ExprMeaning.SumsAndProducts | busybox/coreutils/expr.c:247-266 | expr x + y, x - y and x * y end with the exact sum, difference and product where 64 bits hold it, and with a number congruent to it modulo 2^64 otherwise |
| ExprMeaning.Quotients | busybox/coreutils/expr.c:247-266 | expr x / y and x % y end with q and r such that x = y * q + r, with r smaller than y and of the sign of x; a zero divisor is an error and the least number by -1 traps |
| ExprMeaning.NoNumbers | busybox/coreutils/expr.c:251-253 | Arithmetic on what is no number is an error |
| ExprMeaning.NumbersCompare | busybox/coreutils/expr.c:217-243 | The seven comparisons of two numbers end with 1 exactly if the relation holds |
| ExprMeaning.TextsCompare | busybox/coreutils/expr.c:217-243 | Texts, and a text and a number in canonical form, compare by their first difference |
| ExprMeaning.NullsDecide | busybox/coreutils/expr.c:167-173 | What "or" and "and" make of any two values: null are the number 0, the empty text and the text "0" |
| ExprMeaning.OrAndRead | busybox/coreutils/expr.c:502-537 | The same on the tokens of a command line |
| ExprMeaning.LengthReads | busybox/coreutils/expr.c:359-363 | length ends with the number of characters |
| ExprMeaning.IndexReads | busybox/coreutils/expr.c:373-382 | index ends with the place of the first character that stands in the second text, counted from 1, or 0 if there is none |
| ExprMeaning.SubstrReads | busybox/coreutils/expr.c:383-399 | substr gives the characters from the place on, at most so many, and nothing for places outside, counts below 1 and what is no number |
| ExprMeaning.QuoteAndMatchRead | busybox/coreutils/expr.c:354-372 | quote takes any token for a text; match and : ask the matcher and die of a malformed pattern |
| ExprMeaning.LevelsAre | busybox/coreutils/expr.c:404-537 | How tightly each operator binds, by its characters |
| ExprMeaning.TwoOperators | busybox/coreutils/expr.c:404-537 | Of two operators in a row the tighter one takes its operands first, and of two that bind alike the left one |
| ExprMeaning.DigitsReadAs | busybox/coreutils/expr.c:187-203 | Decimal digits read as ten times what stands before plus the last one |
| ExprMeaning.SignsReadAs | busybox/coreutils/expr.c:187-203 | A sign before the digits counts, and a space before them does not |

## Left out

gzip:

- The CRC-32 table: the checksum is a fold of an arbitrary per-byte function over the input.
- The operating system: a read delivers any number of bytes, says that the input is over, or fails; writes succeed.
- The end of the window: towards the end of the input `longest_match` compares bytes behind the lookahead, and near the
  upper end of the window bytes behind its 2 * WSIZE bytes. The model window has MAX_MATCH more bytes that stand for
  whatever lies there; no contract of `Deflater` says what they hold, so no theorem depends on it. Whether C defines
  such a read is not part of the model.
- `head` and `prev` share one allocation in the source; here they are two arrays. `& WMASK` is `% WSIZE`.
- Bit accumulators of 16 bits and `int` of 16 bits, big-endian variants of the byte stores, DEBUG code.
- Option parsing, level table, file handling and names; `Zip` holds for any level parameters.
- Sizes outside the ones the configuration offers: windows up to 32768, 8 to 15 hash bits, token buffers up to 32768.
- BuildTree: requires frequencies that add up to less than 65533, which the token buffer guarantees.

lzop:

- The compressor and decompressor, the file format, CRC-32 of lzop.

factor:

- `isqrt` is the floor of the square root; reading the number and printing are left out, the output is the list of
  factors without spaces.

CoreMark:

- CalcFunc: what the two benchmarks inside `calc_func` compute (low bits 0 and 1) is any value; only its cached use in
  the list matters here. All other data are their own value.
- The checksum updates, matrix and state machine, list initialization and the driver `core_bench_list`.
- Mergesort: asks for fewer than 2^31 nodes, so that `insize` does not overflow.
- Remove: an item with a node behind it, as the source's own note demands.

dpkg:

- Splitting a control record into fields (`read_package_field`), finding the Status line, reading and writing status
  files: a package is made from a list of field names and values.
- `atoi` is any function from texts to numbers, taken modulo 2^32 as the assignment to unsigned does.
- Keys of the hash are ASCII texts: shifts of negative characters are undefined in C.
- Names.Search: requires the name or a free slot; in a full table the source searches forever. `NameTable.RoomMeansFree`
  says when that cannot happen.
- StorePackage, StoreStatus, FillPackageStruct: require two free slots for the same reason, one of which stays free.
- An operator in parentheses that is missing, as in "a (1.0)", leaves the field of the edge unset in the source; here it
  is an arbitrary value. The theorems in terms of texts ask for fields without that case (`PackageFields.KnownFields`).
- AddSplitDependencies: the number of alternatives wraps at 2^16 as in the source, and groups are well-formed for lines
  with fewer (`Countable`); the 16-bit number of edges of a package does not wrap.
- Edges and packages are values, not shared pointers; memory does not run out.
- The conflicts loop of `check_deps`, its messages and `describe_status`; `set_status`, unpacking, configuring and
  removing packages, package scripts.

expr:

- The regular expressions of `:` and `match` are any function of the two texts.
- Signed overflow wraps around, and the least number by -1 is reported as a trap; both are undefined in C.
- Printing the result and the exit code.
