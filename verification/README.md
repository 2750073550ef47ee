# Verified models of gzip, factor, expr and dpkg

This project models the most intricate programs of the guest's BusyBox tree, and a few smaller
components around them, and proves what they are for.

**gzip** (`guest/busybox/upstream/archival/gzip.c`). The whole path from input bytes to the
compressed file: the sliding window with its hash chains, lazy matching, the packed token
buffers, Huffman trees built on a heap, length limiting, canonical codes, the run-length form
of the trees, the choice between stored, static and dynamic blocks, the bit writer, and the
container with its checksum. Opposite stands a reader written from RFC 1951 and RFC 1952 and
not from the program (`Inflate.dfy`, `Gzip.Gunzip`); it is strict, so a dynamic block whose
code is not complete is rejected. The main theorem is the contract of `Gzip.Zip`: whatever the
input and however the reads split it, the file is read back as the input; and it holds exactly
the tokens that the lazy rule chooses, in blocks that end where `ct_tally` asks for it and that
have the form that `flush_block` chooses. `LazyRule` says what the choices mean: what the search
finds at every position, and when it is put off.

Each file of the chain holds one component. From the bottom:

- `Sums`, `BitWriter`, `Inflate`, `Canonical`: numbers as bits, the writer, the reader, codes.
- `MergeOrder`, `Huffman`, `PrefixCodes`: merge orders, their Kraft sums and their optimality.
- `Heap`, `Merging`, `TreeBuilder`, `LengthCounts`, `BitLengths`, `Reassign`,
  `LengthAssignment`, `CodeAssignment`, `CounterWidth`, `ClipBound`, `HuffmanTree`: `build_tree`.
- `RunLength`, `TreeCoding`, `SymbolTables`, `TokenCoding`, `Accounting`, `Tally`, `CtInit`,
  `CompressBlock`, `BlockFormat`, `BlockTables`, `BlockChoice`, `FlushBlock`: blocks.
- `Hashing`, `HashChains`, `MatchSearch`, `OverRead`, `Crc32`, `CrcPolynomial`, `Window`,
  `Stream`, `LazyRule`, `Deflate`, `Gzip`: the main loop and the file.

**factor** (`guest/busybox/upstream/coreutils/factor.c`). Trial division along the packed wheel
with recursive square detection (`Wheel`, `Factor`), against sorted prime factorizations and
their uniqueness (`Primes`).

**expr** (`guest/busybox/upstream/coreutils/expr.c`). The recursive descent that evaluates while
it parses (`Expr`): every syntax tree, printed with the parentheses its precedence needs, is
evaluated to what the tree means, errors included. `ExprLaws` says what the operators compute
and how they bind. `eval` and `eval1` to `eval5` are one method
with the level as parameter.

**dpkg** (`guest/busybox/upstream/archival/dpkg.c`). The order of version strings, a total
preorder with a description of when two versions are equal (`VersionOrder`) and the rules of the
policy manual in terms of characters (`VersionLaws`); the table that
interns names, whose probing reaches every slot because 16381 is a prime (`NameTable`); and the
dependency pass over flat lists of edges with counted alternatives, which decides exactly
whether every field has a satisfied alternative (`Dependencies`).

**Smaller components.** The key events of the doom port (`Keys`): presses and releases alternate
for each key and no press is lost. The Adler-32 checksum of `lzop` with its deferred reductions
(`Adler32`). The geometry of the cards of `tools/pack_rom.py` (`CardLayout`). `Ascii` holds the
strings of `expr` and `dpkg`.

The model keeps the form of the source: arrays are updated in place by loops, the unions of
`ct_data` are kept (one array holds frequencies and later codes, another fathers and later
lengths), and the globals are fields of a few objects. Bitwise operators are functions on
numbers (`BitOr`, `Xor`, division and remainder by powers of two).

The configuration is the default one: `CONFIG_GZIP_FAST` 0 (`SMALL_MEM`: 13 hash bits, 8192
tokens per block, 8192 output bytes), no compression levels (chains of 128, lazy limit 16, good
match 8, nice match 128), a 32-bit accumulator, and the portable branch of `put_16bit`.

Where the code and its comments differ, the model follows the code:

- the comment in `build_tree` that a forced code is 0 or 1 is not right. With only symbol 1 in
  use the symbol forced is 2, which does no harm; this happens then and only then
  (`TreeBuilder.ThirdIsForced`, `TreeBuilder.ThirdForcedInstance`);
- the assertion in `longest_match` that `strstart` is at most `WINDOW_SIZE - MIN_LOOKAHEAD` (line
  736) fails once the end of the input is known, and the function can then read behind the 64 KB
  window. The model gives the window `MAX_MATCH` more bytes of arbitrary content, proves that
  they never matter, and states how far the reads go: up to `strstart` plus the length returned,
  inside the window as long as the end of the input is not known, and afterwards for all
  contents exactly when the data end at least `MAX_MATCH` bytes before the window does
  (`OverRead.InsideExactly`; `OverRead.OverReadState` is an instance). `INSERT_STRING` always
  stays inside;
- `match_start` becomes -1, as an unsigned number, when a match at the very end of its reach
  is kept across a slide. Only its distance is used, and that is right (`Deflate.TopUp`);
- `search_name_hashtable` has no test for a full table: it stops if and only if a slot is free or
  holds the key (`NameTable.StopsExactly`).

## Model

| member | source | states |
|---|---|---|
| Gzip.Zip | guest/busybox/upstream/archival/gzip.c:2064-2103 | the file written for any input, whatever sizes the reads return, is read back as exactly that input by a reader of RFC 1952 and RFC 1951; it is determined completely: its tokens are the choices of the lazy rule, each block ends at the first token at which ct_tally asks for it and has the form that flush_block chooses |
| Gzip.GunzipReads | guest/busybox/upstream/archival/gzip.c:2071-2102 | a finished stream followed by the complemented checksum and the size is accepted by the reader and gives the input |
| Deflate.Deflate | guest/busybox/upstream/archival/gzip.c:1810-1912 | for every input and every splitting of the reads the bits sent are the blocks of one closed stream whose data are the input and whose tokens are those of a log of lazy choices from the first byte to the last; the checksum and size are those of the input |
| Deflate.TakeTurn | guest/busybox/upstream/archival/gzip.c:1819-1900 | every turn of the loop keeps: the tokens cover the input up to strstart (one byte less while a choice is pending), together with the blocks sent they are exactly the choices logged, and the match kept is the result of the last search; the log grows by the choice made, and the search made is the next one pending |
| LazyRule.LazyChoice | guest/busybox/upstream/archival/gzip.c:1827-1890 | in the whole stream each match at p has the length (3 or more) and distance that the search at p gives, and the search at p + 1 gave nothing longer; each literal at p has no match of length 3 or more at p, or a longer one at p + 1 |
| LazyRule.FindsLongest | guest/busybox/upstream/archival/gzip.c:1818-1850 | if n bytes at p occurred at a smaller distance than MAX_DIST, the search keeps a match at least as long, up to NICE_MATCH, unless the chain of strings with the same key is cut off before, or 3 bytes are too far away |
| LazyRule.LastIsShort | guest/busybox/upstream/archival/gzip.c:1908-1909 | the byte pending at the end of the input never starts a match, so sending it as a literal is right |
| LazyRule.Settings | guest/busybox/upstream/archival/gzip.c:169-291 | the sizes of the format and the tuning of the search, in numbers |
| Deflate.FindMatch | guest/busybox/upstream/archival/gzip.c:1823-1850 | the match kept is the result of the search at strstart in the current window, clamped to the lookahead and given up by the TOO_FAR rule; longer than the previous one, it is a repetition inside the input read so far; every read lies inside the window unless the end of the input is known and closer than MAX_MATCH bytes |
| Deflate.EmitMatch | guest/busybox/upstream/archival/gzip.c:1854-1878 | the token of the match enters the history, its strings are inserted, the covered input advances by exactly its length, and the block is flushed exactly if this token fills it |
| Deflate.EmitLiteral | guest/busybox/upstream/archival/gzip.c:1879-1890 | the token of the pending byte enters the history, the covered input advances by one, and a flush, exactly if this token fills the block, ends before the byte at strstart |
| Deflate.FlushIf | guest/busybox/upstream/archival/gzip.c:1875-1878 | a block is sent exactly if ct_tally asked for it; the tokens sent and kept together do not change |
| Deflate.Flush | guest/busybox/upstream/archival/gzip.c:1786-1794 | the block sent stands for exactly the bytes from block_start to strstart, also when the window has slid past block_start and a stored block is not possible |
| Deflate.TopUp | guest/busybox/upstream/archival/gzip.c:1893-1899 | filling and sliding the window changes nothing of what is kept between turns: the distance of the kept match survives the 32-bit wrap-around of match_start |
| Stream.CoverMatch | guest/busybox/upstream/archival/gzip.c:1854-1867 | a token whose bytes repeat the input expands to the next bytes of the input, also when source and copy overlap |
| Stream.CoverBound | guest/busybox/upstream/archival/gzip.c:1788-1794 | a block never stands for more than 258 bytes per token |
| Deflate.StartFits | guest/busybox/upstream/archival/gzip.c:360-363 | block_start stays inside 32 signed bits in every turn |
| Stream.BlockContinues | guest/busybox/upstream/archival/gzip.c:1680-1766 | after one more block, whatever follows, the reader stands behind it with the data appended |
| Stream.BlockEnds | guest/busybox/upstream/archival/gzip.c:1680-1766 | after the last block and its padding the reader has finished with exactly the data |
| Stream.StreamReads | guest/busybox/upstream/archival/gzip.c:1680-1766 | a closed sequence of blocks is read as the data of its blocks, whatever follows |
| Window.Window.FillWindow | guest/busybox/upstream/archival/gzip.c:641-689 | at least one byte is read or the end is known; more is at least 2, so the data then end at least two bytes before the window does; every position keeps its meaning as an offset into the input; the chains, the running hash and the checksum stay right across the slide and the read |
| Window.Window.FillWindowIfNeeded | guest/busybox/upstream/archival/gzip.c:691-695 | afterwards MIN_LOOKAHEAD bytes are ahead or the whole input has been read |
| Window.Window.MakeRoom | guest/busybox/upstream/archival/gzip.c:655-679 | the slide by half a window keeps the contents, the chains, the running hash and the distance to match_start |
| Window.Window.LmInit | guest/busybox/upstream/archival/gzip.c:1927-1961 | starts with empty chains, the first input and the key of its first two bytes |
| Window.Window.InsertString | guest/busybox/upstream/archival/gzip.c:1803-1808 | the new head of the chain is the position itself, linked to the former head, and the running key is ready for the next position; it never reads behind the window |
| Window.Window.FileRead | guest/busybox/upstream/archival/gzip.c:512-535 | the bytes read are appended behind the lookahead and added to the checksum and the size |
| HashChains.InsertKeeps | guest/busybox/upstream/archival/gzip.c:1803-1808 | inserting a string keeps: every head is the last position with its key, and every link of the last WSIZE positions leads to the last position before with the same key, none being missed |
| HashChains.SlideKeeps | guest/busybox/upstream/archival/gzip.c:662-677 | moving all positions down by WSIZE and dropping those below keeps the chains exact for what is left in the window |
| HashChains.ReadKeeps | guest/busybox/upstream/archival/gzip.c:680-687 | reading behind the inserted strings keeps the chains |
| HashChains.ChainVisits | guest/busybox/upstream/archival/gzip.c:780-781 | following prev from a head visits strictly decreasing positions, all with the same key and all within MAX_DIST |
| HashChains.ChainComplete | guest/busybox/upstream/archival/gzip.c:780-781 | a chain misses nothing: every string with the key of s above the limit is visited unless the chain is cut off by its length |
| Hashing.KeyRolls | guest/busybox/upstream/archival/gzip.c:1774 | the running key is the key of the last three bytes only |
| Hashing.ThirdByte | guest/busybox/upstream/archival/gzip.c:754-759 | equal keys and two equal bytes force the third byte to be equal |
| MatchSearch.LongestMatch | guest/busybox/upstream/archival/gzip.c:710-784 | with its early tests, the skipped third byte and the eightfold comparison loop it returns exactly what a plain search that measures every candidate returns: a match on the chain, no candidate being longer unless it stopped at NICE_MATCH; the highest index read is strstart plus the length returned |
| OverRead.InsideExactly | guest/busybox/upstream/archival/gzip.c:736 | longest_match stays inside the window for every position before e exactly when at least MAX_MATCH bytes are free behind e |
| OverRead.OverReadState | guest/busybox/upstream/archival/gzip.c:736 | a state that meets all invariants, with the end of the input known, in which index 65791 of the 65536 bytes is read |
| MatchSearch.SearchFinds | guest/busybox/upstream/archival/gzip.c:710-784 | the result is the longest agreement on the visited chain and the nearest candidate with it, unless the search stopped at NICE_MATCH bytes; shorter or equal ones than prev_length are discarded |
| MatchSearch.SkipIsSound | guest/busybox/upstream/archival/gzip.c:741-749 | a candidate failing one of the four early tests cannot be longer than the best so far |
| MatchSearch.Measure | guest/busybox/upstream/archival/gzip.c:762-773 | the unrolled loop, which looks for the end at every eighth byte only, counts the equal bytes up to 258 |
| FlushBlock.Coder.FlushBlock | guest/busybox/upstream/archival/gzip.c:1680-1766 | the bits appended are one block in the stored, fixed or dynamic form, chosen by the exact sizes of the forms; the dynamic code is the Huffman code of the tokens; a stored block always fits its 16-bit length; the counters are reset and at the end the last byte is completed |
| FlushBlock.Coder.BuildTrees | guest/busybox/upstream/archival/gzip.c:1687-1702 | opt_len and static_len are exactly the numbers of bits after the 3-bit header that the dynamic and the static form take, with forced codes, clipped lengths, extra bits and the tree section included; both are below 2^32 and no 16-bit counter overflows |
| BlockChoice.BlockReads | guest/busybox/upstream/archival/gzip.c:1680-1766 | for every form of block the reference reader recovers the data |
| BlockChoice.ChosenIsShortest | guest/busybox/upstream/archival/gzip.c:1704-1750 | the form chosen takes no more bytes than either compressed form (a stored block at most two more, for its alignment) |
| BlockChoice.DynamicCost | guest/busybox/upstream/archival/gzip.c:1199-1202 | frequency times length plus extra bits, summed over both trees, is the length of the block body in the dynamic code |
| BlockChoice.StaticCost | guest/busybox/upstream/archival/gzip.c:1202-1204 | the same sum with the static lengths is the length of the body in the static code |
| BlockTables.BuildBlTree | guest/busybox/upstream/archival/gzip.c:1511-1538 | opt_len grows by exactly the bits of the tree section that send_all_trees sends, and at least 4 and at most 19 code lengths are sent |
| BlockTables.FourLengths | guest/busybox/upstream/archival/gzip.c:1526-1532 | some length from rank 3 on is never zero, so at least 4 bit length codes are sent |
| BlockTables.SendAllTrees | guest/busybox/upstream/archival/gzip.c:1545-1567 | sends the counts, the code length code and both tables |
| BlockFormat.TablesRead | guest/busybox/upstream/archival/gzip.c:1545-1567 | the reader recovers both length tables and the end of the section |
| BlockFormat.DynamicReads | guest/busybox/upstream/archival/gzip.c:1742-1748 | a dynamic block is read back as the data its tokens stand for |
| BlockFormat.FixedReads | guest/busybox/upstream/archival/gzip.c:1738-1741 | a static block is read back as the data its tokens stand for |
| BlockFormat.StoredReads | guest/busybox/upstream/archival/gzip.c:615-631 | a stored block is read back as its bytes from any bit position |
| CompressBlock.CtTally | guest/busybox/upstream/archival/gzip.c:1573-1625 | the token is stored and counted; flush is reported exactly when a buffer is full or, at every 4096th token, less than half of the tokens are matches and the guess is below half of the input |
| CompressBlock.CompressBlock | guest/busybox/upstream/archival/gzip.c:1630-1673 | the packed buffers are undone: exactly the codes and extra bits of the tallied tokens and the end-of-block code are appended |
| CompressBlock.GuessLength | guest/busybox/upstream/archival/gzip.c:1600-1607 | the guess is 8 bits per token plus 5 and the extra bits per distance, in bytes |
| CompressBlock.GuessIs | guest/busybox/upstream/archival/gzip.c:1600-1607 | the guess from the frequencies is the sum over the tokens themselves |
| Tally.TokenBuffer.Store | guest/busybox/upstream/archival/gzip.c:1575-1598 | l_buf, d_buf and the flag bits, packed eight to a byte, hold the tokens so far and the new one |
| TokenCoding.ReadBody | guest/busybox/upstream/archival/gzip.c:1630-1673 | the reader recovers the tallied tokens from the bits of a block body |
| Accounting.FrequencyCost | guest/busybox/upstream/archival/gzip.c:1580-1592 | frequency times charge over the alphabet is the charge summed over the symbols sent |
| Accounting.BodyPrice | guest/busybox/upstream/archival/gzip.c:1630-1673 | the bits of a body are the charges of its symbols |
| SymbolTables.InitLengths | guest/busybox/upstream/archival/gzip.c:1984-1999 | length_code and base_length invert the length table of section 3.2.5 of RFC 1951 for all lengths 3 to 258 |
| SymbolTables.InitFarDists | guest/busybox/upstream/archival/gzip.c:2009-2018 | with the near part, dist_code and base_dist invert the distance table for all distances 1 to 32768 |
| SymbolTables.InitStaticLiterals | guest/busybox/upstream/archival/gzip.c:2020-2050 | the static literal tree is the fixed code of section 3.2.6 of RFC 1951, codes bit-reversed |
| HuffmanTree.BuildTree | guest/busybox/upstream/archival/gzip.c:1312-1394 | for every frequency table: a complete canonical code within the length limit, a code for every symbol that occurs, opt_len and static_len grown by the exact cost; unless the first pass over the recorded merge tree clips, the lengths are its depths and no prefix code is cheaper; if it clips, at least Fib(limit + 3) symbols were counted; fewer than 65534 symbols keep all counters inside 16 bits |
| HuffmanTree.RareIsLonger | guest/busybox/upstream/archival/gzip.c:1225-1243 | after clipping, too, no symbol has a longer code than a rarer one |
| PrefixCodes.LengthsAreOptimal | guest/busybox/upstream/archival/gzip.c:1156 | when no length is clipped, the depths minimise frequency times length over all binary prefix codes on the same leaves |
| Huffman.MergesAreOptimal | guest/busybox/upstream/archival/gzip.c:1366-1384 | any lengths that satisfy the Kraft inequality cost at least the sum of the merged weights |
| PrefixCodes.KraftInequality | guest/busybox/upstream/archival/gzip.c:1156 | every binary prefix code satisfies the Kraft inequality |
| Huffman.KraftOfDepths | guest/busybox/upstream/archival/gzip.c:1177-1198 | the clipped depths exceed the Kraft sum by exactly the number of clipped nodes |
| Heap.PqDownHeap | guest/busybox/upstream/archival/gzip.c:1127-1149 | sifting restores the heap below k and permutes it |
| TreeBuilder.Builder.BuildOrder | guest/busybox/upstream/archival/gzip.c:1326-1389 | forced codes, heap and merges: the recorded order takes the two lightest nodes every time, and every father lies after its sons |
| TreeBuilder.Builder.ForceTwo | guest/busybox/upstream/archival/gzip.c:1342-1351 | symbols that do not occur are added until there are two, symbol 2 if and only if symbol 1 alone is in use, and their bits are taken off both lengths |
| LengthAssignment.GenBitlen | guest/busybox/upstream/archival/gzip.c:1161-1244 | the lengths of exactly the symbols in use, at most the limit, with Kraft sum one; bl_count counts them; both lengths account for them |
| BitLengths.Repair | guest/busybox/upstream/archival/gzip.c:1211-1223 | the repair loop always finds a shorter non-empty length, moves the longest one below the limit each time, and ends with the Kraft sum of a complete code |
| LengthCounts.RepairStep | guest/busybox/upstream/archival/gzip.c:1211-1223 | one repair step lowers the Kraft excess by exactly one |
| Reassign.HandOut | guest/busybox/upstream/archival/gzip.c:1230-1243 | the lengths are handed out again by the counts and fall along the order of removal from the heap, with opt_len corrected |
| CodeAssignment.GenCodes | guest/busybox/upstream/archival/gzip.c:1254-1288 | every symbol with a length gets its canonical code, stored so that it is sent most significant bit first |
| Canonical.CodeFits | guest/busybox/upstream/archival/gzip.c:1273-1280 | each code fits its length |
| Canonical.PrefixFree | guest/busybox/upstream/archival/gzip.c:1254-1288 | no code is a prefix of another |
| Canonical.DecodeCode | guest/busybox/upstream/archival/gzip.c:1254-1288 | a reader in front of the bits of a code finds its symbol |
| BitWriter.BiReverse | guest/busybox/upstream/archival/gzip.c:581-591 | sending the result from its lowest bit up sends the code from its highest bit down |
| TreeCoding.ScanTree | guest/busybox/upstream/archival/gzip.c:1402-1448 | the guard is set and every symbol that send_tree will send is counted once |
| TreeCoding.SendTree | guest/busybox/upstream/archival/gzip.c:1454-1505 | exactly the run-length items of the table are sent |
| RunLength.ReadTable | guest/busybox/upstream/archival/gzip.c:1454-1505 | expanding what is sent for a table gives the table back |
| RunLength.LongestRuns | guest/busybox/upstream/archival/gzip.c:1417-1446 | every limit of a run is the longest that one item, or a length and one item, can express |
| BlockTables.ItemFrequencies | guest/busybox/upstream/archival/gzip.c:1402-1448 | each frequency counted equals the number of times the symbol is sent |
| CounterWidth.CountersFit | guest/busybox/upstream/archival/gzip.c:955-965 | the weights that build_tree computes fit the 16-bit counters when fewer than 65534 symbols were counted |
| CounterWidth.RootWeight | guest/busybox/upstream/archival/gzip.c:1366-1384 | the root weighs as much as all symbols counted and forced, and no node weighs more |
| CompressBlock.TalliedBound | guest/busybox/upstream/archival/gzip.c:1573-1598 | the literal tree counts one symbol per token and the end, the distance tree at most one per token |
| BlockTables.ItemCounters | guest/busybox/upstream/archival/gzip.c:1402-1448 | the code length tree counts at most 316 symbols |
| ClipBound.ClippedIsHeavy | guest/busybox/upstream/archival/gzip.c:1177-1185 | a tree in which a length is clipped at the limit weighs at least the Fibonacci number limit + 3 |
| ClipBound.HeightWeight | guest/busybox/upstream/archival/gzip.c:1366-1384 | a node of height h weighs at least the Fibonacci number h + 2 |
| TreeBuilder.ThirdIsForced | guest/busybox/upstream/archival/gzip.c:1342-1351 | symbol 2 is forced exactly when symbol 1 is the only one in use, against the comment that a forced code is 0 or 1 |
| BitWriter.Writer.SendBits | guest/busybox/upstream/archival/gzip.c:541-574 | exactly the given low bits are appended, whatever the fill of the 32-bit accumulator and the byte buffer |
| BitWriter.Writer.BiWindup | guest/busybox/upstream/archival/gzip.c:596-609 | the bits are padded with zeros to a byte boundary |
| BitWriter.Writer.CopyBlock | guest/busybox/upstream/archival/gzip.c:615-631 | padding, length, its complement and the bytes are appended |
| BitWriter.Writer.Put16 | guest/busybox/upstream/archival/gzip.c:445-481 | two bytes are appended, low byte first, across a full buffer |
| BitWriter.Writer.Put32 | guest/busybox/upstream/archival/gzip.c:484-499 | the 32 bits are appended, low half first |
| Crc32.CrcBlock | guest/busybox/upstream/libbb/crc32.c:66-75 | the table-driven checksum is the bitwise polynomial division |
| CrcPolynomial.CrcIsRemainder | guest/busybox/upstream/libbb/crc32.c:66-75 | the register is the remainder of the start value and the message, as polynomials over the two-element field, by the generator |
| CrcPolynomial.OnlyTheCrc | guest/busybox/upstream/libbb/crc32.c:66-75 | no other number below 2^32 satisfies that equation |
| CrcPolynomial.GeneratorBits | guest/busybox/upstream/libbb/crc32.c:24 | the constant of the program holds exactly the exponents of the generator below 32, the highest in the low bit |
| CrcPolynomial.CheckValue | guest/busybox/upstream/libbb/crc32.c:22-75 | the digits 1 to 9 have the checksum 0xcbf43926 |
| Crc32.FillTable | guest/busybox/upstream/libbb/crc32.c:22-44 | the table holds eight division steps of every byte |
| Crc32.CrcSplit | guest/busybox/upstream/libbb/crc32.c:66-75 | k steps act on the low k bits only, the others are shifted down |
| Crc32.CrcConcat | guest/busybox/upstream/libbb/crc32.c:66-75 | checksumming in pieces is checksumming the whole |
| Factor.FactorNumber | guest/busybox/upstream/coreutils/factor.c:220-233 | for every N from 1 to 2^64 - 1 the numbers printed are primes in non-decreasing order with product N; for 0 nothing is printed |
| Factor.Factorizer.Factorize | guest/busybox/upstream/coreutils/factor.c:162-218 | terminates and prints the sorted factorization, each factor square_count times, and ends the line once |
| Factor.Factorizer.IsqrtOdd | guest/busybox/upstream/coreutils/factor.c:138-160 | a square is factored through its root with the counter doubled, otherwise the largest odd number up to the root is returned |
| Factor.Factorizer.StripFactor | guest/busybox/upstream/coreutils/factor.c:188-197 | dividing out keeps printed product times rest equal to the number |
| Factor.Factorizer.PrintW | guest/busybox/upstream/coreutils/factor.c:124-130 | the number is printed square_count times |
| Factor.CounterDoubles | guest/busybox/upstream/coreutils/factor.c:149-152 | doubling the 8-bit counter never wraps: it stays below 128 for every number below 2^64 |
| Factor.WheelExcludes | guest/busybox/upstream/coreutils/factor.c:198-211 | the divisors that the wheel skips are multiples of divisors already tried |
| Factor.OddRootIsEnough | guest/busybox/upstream/coreutils/factor.c:156-159 | trying divisors up to the odd root proves the rest prime |
| Factor.WordIsEnough | guest/busybox/upstream/coreutils/factor.c:201-203 | when the next divisor would not fit 32 bits the rest is prime |
| Factor.Isqrt | guest/busybox/upstream/libbb/isqrt.c:20-36 | the integer part of the square root of any 64-bit number |
| Wheel.UnpackWheel | guest/busybox/upstream/coreutils/factor.c:99-121 | the table holds the five first increments and the 480 packed ones |
| Wheel.Advance | guest/busybox/upstream/coreutils/factor.c:51-121 | the wheel visits every number not divisible by 2, 3, 5, 7 or 11, on every turn |
| Primes.FactorizationUnique | guest/busybox/upstream/coreutils/factor.c:162-218 | the sorted factorization printed is the only one |
| Primes.ProductStretch | guest/busybox/upstream/coreutils/factor.c:124-130 | factors printed k times multiply up to the k-th power |
| VersionOrder.ComparePart | guest/busybox/upstream/archival/dpkg.c:240-277 | the sign of the result is that of comparing the keys of the two strings; every turn advances and neither string is left behind its end |
| VersionOrder.VersionCompare | guest/busybox/upstream/archival/dpkg.c:283-334 | compares epoch, upstream version and revision in this order |
| VersionOrder.VersionsAntisymmetric | guest/busybox/upstream/archival/dpkg.c:283-334 | the sign turns around with the arguments and every version equals itself |
| VersionOrder.VersionsTransitive | guest/busybox/upstream/archival/dpkg.c:283-334 | the order is transitive, strictly so if one step is strict |
| VersionOrder.VersionsEqual | guest/busybox/upstream/archival/dpkg.c:283-334 | two versions are equal exactly when the epochs are and both parts agree in text and numbers, a missing number counting as zero |
| VersionOrder.MissingNumber | guest/busybox/upstream/archival/dpkg.c:245-275 | 1. and 1.0 compare equal, so versions can be equal that differ in more than leading zeros |
| VersionLaws.TildeIsEarlier | guest/busybox/upstream/archival/dpkg.c:229-237 | a version followed by a tilde and anything is earlier than the version |
| VersionLaws.LongerIsLater | guest/busybox/upstream/archival/dpkg.c:229-237 | followed by a letter or another character that is no digit, it is later |
| VersionLaws.LettersFirst | guest/busybox/upstream/archival/dpkg.c:229-237 | letters come before all other characters except digits and tildes |
| VersionLaws.ByCode | guest/busybox/upstream/archival/dpkg.c:229-237 | two letters, or two other characters, are compared by their codes |
| VersionLaws.TildeFirst | guest/busybox/upstream/archival/dpkg.c:229-237 | a tilde comes before every other character except digits |
| VersionLaws.ByNumber | guest/busybox/upstream/archival/dpkg.c:257-274 | numbers behind the same text are compared by their values |
| VersionLaws.ParseFull | guest/busybox/upstream/archival/dpkg.c:294-324 | epoch:upstream-revision is split at the first colon and the last dash, whatever the upstream version contains |
| VersionLaws.PartsInOrder | guest/busybox/upstream/archival/dpkg.c:305-329 | epochs count first, then upstream versions, then revisions |
| VersionLaws.EmptyRevision | guest/busybox/upstream/archival/dpkg.c:294-324 | a version without epoch and revision equals the one with epoch 0 and an empty revision |
| VersionOrder.CompareNumbers | guest/busybox/upstream/archival/dpkg.c:257-274 | numbers of any length are compared by value: leading zeros are skipped, more digits win, else the first difference |
| VersionOrder.CompareTexts | guest/busybox/upstream/archival/dpkg.c:248-255 | text is compared character by character in the order of order(), up to a difference or to the next numbers |
| VersionOrder.TestVersion | guest/busybox/upstream/archival/dpkg.c:336-354 | the operator holds of the two versions in that order |
| NameTable.MakeHash | guest/busybox/upstream/archival/dpkg.c:169-186 | the start is a slot of the table and the step is between 1 and the prime less one |
| NameTable.ProbeReaches | guest/busybox/upstream/archival/dpkg.c:199-202 | because the size is a prime, the probes reach every slot |
| NameTable.StopsExactly | guest/busybox/upstream/archival/dpkg.c:195-203 | the search stops if and only if a slot is free or holds the key |
| NameTable.NameTable.Search | guest/busybox/upstream/archival/dpkg.c:189-206 | returns the index of the key, adding it if it is new, and changes nothing else |
| NameTable.SearchAll | guest/busybox/upstream/archival/dpkg.c:189-206 | over any run of calls indices are equal exactly when the strings are, and all keep naming their strings |
| NameTable.NamesDistinct | guest/busybox/upstream/archival/dpkg.c:189-206 | no string stands in two slots |
| Dependencies.Node.AddSplitDependencies | guest/busybox/upstream/archival/dpkg.c:429-519 | the edges of the whole line are appended: each alternative has an edge with its kind, name, version and operator, and every OR edge counts exactly the alternatives that follow it |
| Dependencies.SearchForProvides | guest/busybox/upstream/archival/dpkg.c:395-408 | the first provider behind the start, or none |
| Dependencies.ProvidesLine | guest/busybox/upstream/archival/dpkg.c:395-408 | a package provides exactly the names in its Provides lines |
| Dependencies.TryEdge | guest/busybox/upstream/archival/dpkg.c:1131-1147 | an edge is satisfied directly or by some provider |
| Dependencies.MetBySatisfied | guest/busybox/upstream/archival/dpkg.c:1113-1147 | the edge of an alternative is satisfied exactly when the package found for its name, version and operator is there and fits, or a package that provides the name fits |
| Dependencies.CheckPackage | guest/busybox/upstream/archival/dpkg.c:1096-1176 | the loop over the edges with its counter of alternatives and its skips |
| Dependencies.PackageAccepted | guest/busybox/upstream/archival/dpkg.c:1096-1176 | on edges built by add_split_dependencies the loop succeeds exactly when every field has a satisfied alternative; a skip never leaves its group |
| Dependencies.CheckDependencies | guest/busybox/upstream/archival/dpkg.c:1065-1177 | the pass succeeds if and only if for every package wanted as install every comma-separated field has an alternative satisfied directly or by a provider |
| Expr.PrintedMeans | guest/busybox/upstream/coreutils/expr.c:317-537 | every syntax tree, printed with the parentheses its precedence needs, is evaluated to its meaning or its error, with all arguments used and operators grouping to the left |
| Expr.Reads | guest/busybox/upstream/coreutils/expr.c:406-537 | evaluating at a level in front of a printed tree gives its meaning and stops right behind it |
| Expr.ReadsTight | guest/busybox/upstream/coreutils/expr.c:317-401 | the same for keywords, bare operands and parentheses |
| Expr.Evaluator.EvalLevel | guest/busybox/upstream/coreutils/expr.c:406-537 | eval to eval5 compute the outcome and leave the cursor behind what they used |
| Expr.Evaluator.EvalKeyword | guest/busybox/upstream/coreutils/expr.c:341-401 | eval6 computes the outcome of its keyword with its operands and moves the cursor behind them |
| Expr.Evaluator.EvalAtom | guest/busybox/upstream/coreutils/expr.c:317-337 | eval7 takes a bare operand, or the outcome of what stands in parentheses |
| Expr.ExprMain | guest/busybox/upstream/coreutils/expr.c:539-559 | the value printed or the error, and the exit status |
| ExprLaws.SumIs | guest/busybox/upstream/coreutils/expr.c:247-260 | the value of a sum of two numbers |
| ExprLaws.ProductIs | guest/busybox/upstream/coreutils/expr.c:247-260 | the value of a product of two numbers |
| ExprLaws.Differences | guest/busybox/upstream/coreutils/expr.c:247-266 | subtraction undoes addition: d is the value of a - b exactly when d + b is a |
| ExprLaws.Quotients | guest/busybox/upstream/coreutils/expr.c:247-266 | a = b q + r with r smaller than b in size and, unless zero, of the sign of a |
| ExprLaws.ArithmeticFails | guest/busybox/upstream/coreutils/expr.c:251-262 | a text as operand is an error, and otherwise exactly a divisor zero |
| ExprLaws.NumbersCompare | guest/busybox/upstream/coreutils/expr.c:217-243 | two numbers are compared as numbers by all seven operators |
| ExprLaws.TextsCompare | guest/busybox/upstream/coreutils/expr.c:217-243 | if one operand is a text, both are compared as strings in dictionary order |
| ExprLaws.Trichotomy | guest/busybox/upstream/coreutils/expr.c:217-243 | of <, = and > exactly one holds, and <=, >=, != follow from it |
| ExprLaws.Logic | guest/busybox/upstream/coreutils/expr.c:502-537 | | and & as tables of null values, which are those printed as nothing or 0 |
| ExprLaws.NumberRoundTrip | guest/busybox/upstream/coreutils/expr.c:177-203 | a number converted to a string reads back as itself |
| ExprLaws.Decimal | guest/busybox/upstream/coreutils/expr.c:177-183 | numbers are printed in decimal notation |
| ExprLaws.NumberForms | guest/busybox/upstream/coreutils/expr.c:187-203 | blanks, a plus sign and leading zeros do not change a number |
| ExprLaws.NumberEnds | guest/busybox/upstream/coreutils/expr.c:187-203 | only strings that end in a digit stand for numbers |
| ExprLaws.IndexLaw | guest/busybox/upstream/coreutils/expr.c:373-382 | index is the first position that holds one of the characters, 0 if there is none |
| ExprLaws.LengthLaw | guest/busybox/upstream/coreutils/expr.c:359-363 | length is the number of characters |
| ExprLaws.SubstrLaw | guest/busybox/upstream/coreutils/expr.c:383-399 | substr has the stated length and characters, and is empty for positions and lengths that are no positive numbers |
| ExprLaws.MatchLaw | guest/busybox/upstream/coreutils/expr.c:367-372 | the colon and match hand string and pattern on in this order |
| ExprLaws.Precedence | guest/busybox/upstream/coreutils/expr.c:402-537 | x p y q z without parentheses: the tighter operator comes first, and otherwise the left one |
| ExprLaws.SevenMinusTwo | guest/busybox/upstream/coreutils/expr.c:446-468 | 7 - 2 prints 5 |
| Keys.Keyboard.KeyTouch | guest/pkgs/doom/doomgeneric_osmoap.c:64-76 | a held key is only renewed; a new one is held and its press is queued and never dropped, unless all 16 places are taken |
| Keys.Keyboard.EvPush | guest/pkgs/doom/doomgeneric_osmoap.c:58-62 | the ring gets the key behind those that wait |
| Keys.Keyboard.GetKey | guest/pkgs/doom/doomgeneric_osmoap.c:131-153 | the first queued press comes first; with none queued, the first key not reported for longer than the hold time is released; what the game has seen stays consistent with what is held |
| Keys.Delivered | guest/pkgs/doom/doomgeneric_osmoap.c:52-76 | in every state each key's events alternate press and release, starting with a press, and the presses delivered are the touches in their order |
| Keys.PendingBound | guest/pkgs/doom/doomgeneric_osmoap.c:58-62 | pending presses are never more than held keys, so the ring never overflows |
| Adler32.LzoAdler32 | guest/busybox/upstream/archival/lzop.c:510-537 | for every byte string and reduced starting value the checksum of section 2.2 of RFC 1950 |
| Adler32.ClosedForm | guest/busybox/upstream/archival/lzop.c:519-536 | the reference in closed form: the sum of all bytes, and the sum of the bytes weighted by their distance from the end |
| Adler32.BaseIsLargestPrime | guest/busybox/upstream/archival/lzop.c:514 | the modulus is the largest prime below 65536 |
| Adler32.Accumulate | guest/busybox/upstream/archival/lzop.c:527-531 | a run of at most 5552 bytes in 32-bit arithmetic stays congruent to the reference, without overflow |
| Adler32.LimitFits | guest/busybox/upstream/archival/lzop.c:515-518 | 5552 is the largest run for which the sums are sure to fit |
| Adler32.Sum2Concat | guest/busybox/upstream/archival/lzop.c:555-562 | checksumming in pieces is checksumming the whole |
| CardLayout.ChunkIsOnCard | tools/pack_rom.py:222-230 | chunk i is the joined lines of card 1 + i // kpc from line (i % kpc) * lpk on, so no chunk spans two cards |
| CardLayout.CardsRoundTrip | tools/pack_rom.py:170-173 | joining all cards gives the text back |
| CardLayout.Verify | tools/pack_rom.py:204-231 | the replay of the cards succeeds on everything that was packed and returns the text |

## Left out

- Reading errors: `file_read` treats an error like the end of the input; the model's input is what can be read before it.
- Compression levels (`FEATURE_GZIP_LEVELS`) and the larger memory configurations: the constants differ, the code is the same.
- The unaligned fast paths of `put_16bit` and `put_32bit`, which store the same bytes.
- HuffmanTree.BuildTree: when a length was clipped, the final lengths are determined but not claimed to be optimal, because the repair loop is a heuristic.
- opt_len and static_len are integers in the model; in C they are unsigned 32-bit numbers, opt_len may pass through -1 before the cost is added back, and the values used are proved to fit.
- The depth array is used only to break ties and is kept modulo 256 as in C.
- CtInit: the length and distance tables are frozen as sequences after they have been filled, because nothing changes them later.
- Reading numbers from the command line or standard input in factor, and its help text.
- Files, options, names and modes of the applets, and the decompressor of the tree.
- Expr.PrintedMeans: numbers are integers without bound; the overflow of the 64-bit arithmetic of expr is not modelled, and the regular expression library is a parameter.
- Dependencies.Node.AddSplitDependencies: starts from fields already split at commas and bars; the text processing of strtok_r and the parsing of operators and versions are not modelled, nor are the widths of the bit-fields of an edge.
- Dependencies.CheckDependencies: the status table, search_package_hashtable and package_satisfies_dependency are given as functions; the pass for conflicts is not modelled.
- VersionOrder.VersionCompare: atoi is taken without overflow, and characters are ASCII.
- NameTable.MakeHash: the hash is computed in 32 bits, as the comment at line 178 assumes; characters are ASCII.
- Reading and mapping the bytes of the terminal in the doom port, and its clock.
- Adler32.LzoAdler32: the null buffer that asks for the initial value is not modelled.
- CardLayout.Verify: hashes are replaced by the chunks they stand for; JSON, base64, compression and files are not modelled.
