# lbzip2: a verified model of its block codec, pipelines and block finder

lbzip2 compresses and expands bzip2 files on many threads. Almost every stage of it is a
hand-optimised form of a simple transformation. This project models these stages in the form
they have in the code - loops over arrays, packed words, automata that save and restore their
state - and proves each against the simple form. The pieces are composed into a round trip of
whole inputs. The compressing and expanding pipelines are state machines whose steps are the
critical sections of the tasks, and their results are about all runs.

How the modules go together:

- **Collecting**: `Collecting` (the restartable run-length automaton on values), `RunCodes` (the
  plain run-length code), `Collectors` (`collect` and the end of the run in `encode`), `Gathering`
  (input in pieces, block after block), `Crc` and `Polynomials` (the checksum).
- **Sorting**: `Bwt`, `SortedRows`, `InducedSort` (`construct_BWT`, `divbwt`), `StarSorting`.
- **Coding**: `MoveToFront`, `MtfEncoder`, `PackageMerge`, `PackageRows`, `PackedWeights`,
  `MergeLevels`, `PackageMerger`, `DeeperRows`, `Alphabet`, `AlphabetSort`, `LeafSorting`, `RowLengths`,
  `CodeLengths`, `CodeAssigner`, `HuffmanCost`, `HuffmanTrace`, `HuffmanTree`, `Huffman`, `PrefixForest`, `EncodingPlan`,
  `SelectorMtf`, `BlockSize`, `Encoding`, `BitWriters`, `Transmitter`, `Compressing`.
- **The format**: `BlockFormat` reads a block off a list of bits, one symbol at a time, in the
  plainest way; `BlockBits` writes one. Everything about bits refers to these two. `GroupLimit` is about its
  limit on groups.
- **Expanding**: `Bitstreams`, `PrefixCode`, `DecodeTree` (`make_tree`), `DeltaTables`,
  `SlidingLists` (`mtf_one`), `Retrieval`, `Retrievers` (`retrieve`), `Feeding`, `Permutation`,
  `CountingSort`, `NodeList`, `InverseTransform`, `Randomizer`, `RunLength`, `Decoders`
  (`decode`, `emit`), `Expanding`, `HeaderParser` (`parse`).
- **Finding blocks**: `Automata` (the generator of the automata), `Scanner` (`scan`).
- **Scheduling**: `Positions`, `Queues`, `Chains`, `CompressionProtocol`, `ExpansionProtocol`.
- **All of it**: `RoundTrip`.

The code and its own statements disagree in one place. `src/expand.c` asserts that no job
attaches to input that was released (lines 246-250 and 263). A run of the model breaks that:
`ExpansionProtocol.SomeRunLeavesBehind` gives it, and `ExpansionProtocol.AttachableRun` gives
the exact condition. In the model such a retriever stays queued and is not started.

The one part of the block sorter that enters as a contract is the sorting of the rotations of
type B*; `StarSorting.SomeBstar` shows that the contract can be met for every block. Checksums
are folds of the real CRC step. Wrap-around is written out wherever the code relies on it.

## Model

| member | source | states |
|---|---|---|
| RoundTrip.RoundTripInput | src/encode.c:135-545 | For every input however cut, every block size, every sorter of type B* rotations that keeps its contract, every choice of trees, every cut of the compressed words and all output buffer sizes: collecting, sorting, coding, transmitting and then parsing, retrieving, decoding and emitting block after block gives back the input |
| RoundTrip.RoundTripBlock | src/decode.c:518-1144 | One block comes back as exactly the bytes consumed, with status OK, and the checksum stored in its header is the checksum the expander computes; anything of 32 bits or more may follow the block |
| RoundTrip.ExpandStream | src/expand.c:394-640 | A compressed block with its header, cut anywhere, leads to the expansion of the block that its last column and index stand for, and to ERR_RUNLEN exactly if that expansion is incomplete |
| Gathering.CollectInPieces | src/compress.c:120-196 | Feeding input in any pieces gives the same automaton state, consumed count and checksum as one call on all of it, and the block counts as full in the same cases |
| Gathering.GatherBlock | src/encode.c:135-336 | A collected block expands to exactly the bytes consumed, no block that does so is shorter, and if a byte is left over no block of the maximal size expands to the bytes consumed and that one; the byte map says exactly which bytes are in the block |
| Gathering.GatherAll | src/encode.c:135-336 | The successive blocks of an input, all within the maximal size, expand to the whole of it |
| Collectors.Collector.Collect | src/encode.c:135-336 | The jumping automaton over arrays consumes the same bytes and ends in the same state as the byte-at-a-time specification, with the checksum of just those bytes; it reports a full block exactly when no run can go on |
| Collectors.Collector.Finish | src/encode.c:442-448 | Closing the run in hand completes the block and keeps the byte map exact, within the size of the buffer |
| Collecting.FeedConcat | src/encode.c:150-159 | Feeding two pieces one after the other is feeding their concatenation, including where the first one fills the block |
| Collecting.CollectedExpands | src/encode.c:442-448 | Whatever is fed to an empty automaton, the finished block expands to the bytes consumed and its size, final count included, never exceeds the limit |
| RunCodes.CollectedPlain | src/encode.c:161-336 | However long the runs, the finished block is the plain code of the bytes taken (each maximal stretch cut into groups of 259, four bytes and a count for a group of four or more), no block that expands to them is shorter, and none of the maximal size holds one byte more |
| RunCodes.PlainIsShortest | src/encode.c:232-336 | Anything that expands to some bytes is at least as long as their plain code |
| Polynomials.ChecksumIsRemainder | src/encode.c:100-103 | For every start value and message the folded checksum is the remainder, over two elements, of the message times x^32 plus the start value at its head, divided by x^32 + x^26 + x^23 + x^22 + x^16 + x^12 + x^11 + x^10 + x^8 + x^7 + x^5 + x^4 + x^2 + x + 1, by long division on lists of bits |
| RunLength.UnrleIsFold | tests/minbzcat.c:377-401 | The expansion used as specification is what the simple decoder's byte-at-a-time loop puts out, and it is complete exactly if that loop is not waiting for a count |
| InducedSort.ConstructBwt | src/divbwt.c:1636-1699 | From the sorted type B* rotations in their bucket slots the two scans leave the last column of all sorted rotations in the array, in place, and return a row that holds the block itself; no bucket cursor meets the scan |
| InducedSort.ScanRight | src/divbwt.c:1644-1670 | One bucket's scan from the right fills the type B slots it leads to with the right positions, flagged as the left scan needs them, and lowers the bucket ends to the next free slot |
| InducedSort.ScanLeft | src/divbwt.c:1672-1694 | The scan from the left fills all type A slots and turns every entry into the character before it |
| InducedSort.DivBwt | src/divbwt.c:1705-1726 | For every non-empty block, also of one byte or all the same byte, the result is a correct last column with a correct primary index |
| InducedSort.RightInduces | src/divbwt.c:1650-1664 | A row of type B scanned from the right leads to a lower slot, the one the position before it belongs into, and the flag tells the type of the position before that |
| InducedSort.LeftInduces | src/divbwt.c:1677-1690 | A row scanned from the left leads to a higher slot, the one the position before it belongs into, with the character or the position as the next step needs |
| SortedRows.RowsCoherent | src/divbwt.c:1642-1694 | In the sorted matrix a row that rises lies before the row it comes from and one that falls after it, which is why one scan in each direction suffices |
| StarSorting.SomeBstar | src/divbwt.c:1586-1629 | For every block there are slots, flags and buckets as the sorting of type B* rotations owes them |
| Bwt.InverseBwt | tests/minbzcat.c:348-365 | Walking any stable sorting links from the successor of the primary index reads back the block, into however many cycles the links fall |
| Bwt.LinkRotates | tests/minbzcat.c:348-365 | Following a stable link from a row of the sorted matrix leads to the row whose rotation right by one is that row |
| CountingSort.UnsortedIsInverse | src/decode.c:852-883 | The block that the stable links of a correct last column stand for is the block that was sorted |
| CountingSort.LinksSort | tests/minbzcat.c:348-358 | The links given by counting smaller and earlier equal characters sort the column stably |
| Decoders.Decoder.LinkNodes | src/decode.c:879-884 | The loop over the counts stores in every node of the packed list its character and its stable link, and leaves the counts at the ends of the buckets |
| Decoders.Decoder.Decode | src/decode.c:852-930 | The list handed to the emitter spells the unsorted block or, for a randomised block, the unsorted block with the bytes flipped that `Randomizer.DerandomizedAt` tells; the run state and the checksum start afresh |
| Decoders.Decoder.UndoInPlace | src/decode.c:893-922 | Unsorting in place, flipping and relinking a randomised block gives a list that spells the flipped block in the order of the cells |
| NodeList.ListedIsWalk | src/decode.c:867-883 | Following packed nodes as the emitter does reads the characters that walking the links reads |
| Randomizer.DerandomizedTwice | tests/minbzcat.c:366-374 | Applying the flips twice restores the block, for every table of steps |
| Randomizer.DerandomizedAt | src/decode.c:911-917 | Exactly those bytes change that lie at 617 plus the first m entries of the table, beginning with entry 1 and repeating after 512, for some m; and they change in their lowest bit only |
| Decoders.Decoder.Emit | src/decode.c:943-1144 | Each call writes the next part of what the list still owes: with MORE the buffer is full and the rest is owed, OK comes exactly at a complete end and ERR_RUNLEN exactly where a count was due, and the checksum is that of the bytes written |
| Expanding.EmitAll | src/decode.c:943-1144 | For all sequences of positive buffer sizes the outputs concatenate to the whole expansion, with its checksum |
| Expanding.ExpandBlock | src/expand.c:553-640 | Input in any pieces and any output buffers: the result is the error of the plain reader, or the expansion of the block it reads, and the unread bits are the plain reader's |
| Retrievers.Retriever.Retrieve | src/decode.c:518-798 | From any saved state the automaton either stops for want of words in a state in which the bits to come mean the same, or ends with the plain reader's error, or with its column, index, randomised flag, byte counts and remaining bits |
| Feeding.RetrieveInPieces | src/decode.c:375-407 | However the words of a block are cut, resuming gives what the plain reader makes of all bits at once |
| Retrievers.Retriever.GroupFast | src/decode.c:647-712 | The fast path through a group means the same as one symbol at a time and never reads more than the 32 words it was promised |
| Retrievers.Retriever.OneValue | src/decode.c:719-789 | Decoding one symbol counts a digit of the run, or stores the run and moves a character to the front, or ends the block, as the plain reader does and with its errors |
| Retrieval.TooShort | src/decode.c:387-407 | Wherever the automaton may stop, fewer than 32 further bits mean an unexpected end of input |
| GroupLimit.LimitLosesNothing | src/decode.c:629-631 | A block that announces more than the 18001 groups that are read is never found unterminated: it has an error or its end before the limit is reached |
| BlockBits.BlockRead | src/encode.c:1152-1281 | Reading the bits of a well-formed block, whatever follows it, gives its index, its characters and exactly what follows |
| DeltaTables.StepTables | src/decode.c:334-362 | Six bits looked up in the delta tables give the bits taken, the change of the length and whether the code ends, as reading one step at a time does |
| DeltaTables.FirstZeroAt | src/decode.c:314-331 | The table of 64 entries gives the place of the first zero bit |
| DecodeTree.Tree.Make | src/decode.c:190-311 | The tables of a complete code are built in place; an incomplete and an oversubscribed code are told apart and reported, whatever the lengths |
| DecodeTree.Tree.Lookup | src/decode.c:670-682 | Looking up the start table and searching the left-justified bases returns the one symbol whose share of the code space the bits lie in, with its length |
| PrefixCode.CodewordDecodes | src/decode.c:190-311 | For a complete code the bits lie in the share of a symbol exactly if they begin with the codeword that the encoder gives to it |
| PrefixCode.DecodesUnique | src/decode.c:190-311 | No bits decode to two symbols |
| PrefixCode.DecodesInOrder | src/encode.c:967-969 | Codes are canonical: bits that begin with a shorter code, or with one of the same length for an earlier symbol, are less than bits that begin with the other |
| CodeAssigner.CompleteIsKraft | src/decode.c:190-311 | The codes for which tables are made are those of 3 to 258 symbols with lengths from 1 to 20 whose shares of the code space add up to exactly 1 |
| SlidingLists.MtfOne | src/decode.c:439-515 | From any state that holds a list, the call returns element c of it and leaves a state that holds the list with that element moved to the front |
| SlidingLists.Rebuild | src/decode.c:473-488 | When the slide is used up, the rows are copied upwards over one another without changing the list |
| SlidingLists.HoldsUnique | src/decode.c:439-515 | A state of rows and slide holds only one list |
| MoveToFront.SymbolsInverse | src/decode.c:767-788 | Reading symbols as the retriever does undoes the coding of characters as list positions and of runs as digits, from any pending run |
| MtfEncoder.DoMtf | src/encode.c:360-425 | The swapping loop over one array, whose output overlays its input, writes the list-position and run symbols of the column, counts each, and writes at most one more than it reads |
| MtfEncoder.MakeMap | src/encode.c:339-355 | The map numbers the bytes in use in ascending order |
| PackageMerge.Cheapest | src/encode.c:652-710 | Taking leaves and packages greedily costs no more than any choice of leaves at all levels with the same total width |
| PackageMerger.Merge | src/encode.c:660-710 | The lazy algorithm over packed weights and rows of counters leaves, for every height that can hold the alphabet, the row of the greedy choice over all leaves |
| PackedWeights.CompareWords | src/encode.c:652-658 | Comparing 64-bit weights is comparing frequency, then depth and label |
| PackedWeights.AddWords | src/encode.c:652-658 | The addition of packed weights with its masks adds the frequencies and exceeds the greater depth by one |
| AlphabetSort.SortAlphabet | src/encode.c:548-567 | Insertion sort leaves the range in descending order with the same elements and nothing outside it changed |
| CodeLengths.RowIsComplete | src/encode.c:922-933 | The lengths that a row describes lie within 1 and the height and fill the code space exactly |
| CodeLengths.RowIsOptimal | src/encode.c:656-710 | No lengths within the height that fit into the code space take fewer bits |
| CodeAssigner.AssignCodes | src/encode.c:882-969 | The lengths are complete and optimal for the best height, the codes are the canonical ones, the returned cost is what they and the lengths take, and the optimal code of no height from 2 to 20 takes less, although the search stops early |
| DeeperRows.DeeperRow | src/encode.c:916-920 | If the row of a height ends in zero, the rows of all greater heights are the row of the height below it, followed by zeros: what the early stop relies on |
| DeeperRows.Lighter | src/encode.c:656-710 | A level holds at each place an item no heavier than the level with one round of packaging less |
| CodeAssigner.FinalLengths | src/encode.c:948-965 | Giving out lengths from the row ends with every leaf used and the first code of every length in place |
| CodeAssigner.LastCode | src/encode.c:964-965 | After the last length the next code is a power of two: the space is used up |
| HuffmanTree.BuildTree | src/encode.c:574-614 | With weights of at least 1 and a total below Fib(31) the two-queue construction uses all leaves, makes a tree in which every node comes after its parent and every node of height d weighs at least Fib(d + 2), and no packed field overflows |
| HuffmanTree.ComputeDepths | src/encode.c:619-649 | If every internal node lies above depth 30, the counts by depth end with no free nodes, fill the code space exactly and cover all leaves |
| HuffmanTree.JoinFields | src/encode.c:609-610 | The masked sum of two packed weights adds the frequencies, takes one more than the greater height and keeps the label |
| HuffmanCost.LowerMerge | src/encode.c:570-614 | If no codes of any lengths that fit into the code space take fewer bits than c once two least frequencies are merged, none take fewer than c and the two frequencies before |
| HuffmanTrace.TraceOptimal | src/encode.c:574-614 | In every run of the two-queue construction, which merges two least of what stands alone each time, the depths of the leaves cost no more bits than any lengths that fit into the code space |
| Huffman.MakeCodeLengths | src/encode.c:713-765 | For all frequencies whose total, zeros counted as ones, is below Fib(31): all lengths are from 1 to 30, a length d needs a total of at least Fib(d + 2), the code is complete, a more frequent symbol never has a longer code, and no lengths whatsoever with a Kraft sum of at most 1 take fewer bits |
| Huffman.BlockTotals | src/encode.c:55-59 | Whatever the frequencies of a block of at most 900000 bytes with its end symbol, their total with zeros counted as ones is below Fib(31), so that the bound always applies |
| SelectorMtf.RotatedPacks | src/encode.c:494-498 | The bit trick on packed nibbles moves the tree to the front of the list |
| SelectorMtf.PositionBits | src/encode.c:499-508 | The trailing zeros of the mask tell the position the tree was at |
| Encoding.CodeSelectors | src/encode.c:476-512 | The branch-free loop codes the selectors as list positions, and counts their bits |
| EncodingPlan.GeneratePrefixCode | src/encode.c:1005-1137 | For any assignment of groups to trees: the trees in use, numbered in the order of first use, have complete codes, at least two trees result, and the cost is exactly the bits of the trees and of all values |
| EncodingPlan.DummyComplete | src/encode.c:1117-1132 | The lengths of the second, unused tree are a complete code for every alphabet, and take the bits counted for them |
| EncodingPlan.LogIs | src/encode.c:1123-1124 | The constant shifted by the size is its binary logarithm rounded down, for every alphabet |
| PrefixForest.TallyCost | src/encode.c:1065-1076 | Frequencies by tree times lengths come to the bits of the values, group by group |
| Encoding.LayOut | src/encode.c:460-545 | The size returned, padding included, is exactly an eighth of the bits of the block with its header |
| Transmitter.Transmit | src/encode.c:1152-1281 | The words written are the bits of the block in the format, filled up with zeros, as many as the size predicted says |
| BitWriters.BitWriter.Send | src/encode.c:1140-1150 | Whenever bits fit into the 64-bit buffer, sending them appends exactly them to what was written, and a word is put out when 32 are pending |
| Compressing.CompressBlock | src/encode.c:428-545 | A column with its index becomes words that hold a well-formed block whose characters and index are these |
| Bitstreams.Bitstream.Take | src/decode.c:419-426 | Taking bits from the 64-bit buffer returns the next bits of the stream and leaves the others |
| Bitstreams.Bitstream.NeedFast | src/decode.c:409-417 | Filling the buffer by a word changes no bits, and takes a word only if fewer than 32 bits are there |
| HeaderParser.ParseInPieces | src/parse.c:146-273 | However the words are cut, the automaton gives the answer, the memory and the rest that it gives on all bits at once |
| HeaderParser.Parser.Parse | src/parse.c:146-273 | MORE comes only when the words are used up before the end, and leaves a state in which the bits to come mean the same; else the answer is that of the bits |
| HeaderParser.HeaderParsed | src/parse.c:146-273 | The header a transmitted block begins with is recognised, with its checksum, which is combined into that of the stream |
| HeaderParser.StreamParsed | src/parse.c:158-181 | Behind a stream, `BZh` with a digit from 1 to 9 and a block header are recognised, with that digit and that checksum |
| HeaderParser.GarbageParsed | src/parse.c:158-181 | Anything else behind a stream finishes the file, and the garbage counted is 16 or 32 bits by the word that differs, or the bits of a first word that is all there is, or none |
| HeaderParser.StreamsParsed | src/parse.c:235-247 | After a correct trailer and padding to a byte a second stream is parsed, with its own checksum begun afresh |
| HeaderParser.ErrorParsed | src/parse.c:183-270 | Where a block or the end is expected, whole words that differ from both magic numbers are a header error, and a beginning of either with fewer than 80 bits is an unexpected end |
| HeaderParser.HeaderSought | src/parse.c:281-315 | A scan that meets its pattern first in a block header ends exactly where the contents of the block begin |
| HeaderParser.TrailerParsed | src/parse.c:146-273 | A trailer is accepted exactly if its checksum is the one combined; then a single stream is finished, and otherwise the next one is looked for from a byte boundary on |
| HeaderParser.ChecksumsAgree | src/encode.h:38 | The checksum that the compressor combines for its trailer is the one the parser combines from the block headers |
| HeaderParser.CombineTurns | src/parse.c:210-216 | Combining a checksum turns the old one by one bit to the left and adds the new one bit by bit |
| HeaderParser.XorNot | src/encode.h:38 | Complementing after mixing in a number, or the number itself, comes to the same |
| Automata.Failures | build-aux/make-scantab.pl:36-51 | For every pattern the loop gives each state the longest border that can be continued differently |
| Automata.MiniAutomaton | build-aux/make-scantab.pl:53-57 | The table of the bit automaton leads from each state to the longest prefix that the bits read then end with |
| Automata.MiniStep | build-aux/make-scantab.pl:53-57 | From the longest prefix that ends the bits read, each bit leads to the longest prefix that ends the bits read then |
| Automata.BigAutomaton | build-aux/make-scantab.pl:59-73 | The byte automaton does eight steps of the bit automaton, staying where the pattern was complete |
| Automata.SofarBits | build-aux/make-scantab.pl:59-73 | Several absorbed bits end either at the longest prefix with no occurrence so far, or complete exactly if an occurrence ends among them |
| Scanner.Scan | src/parse.c:281-342 | After skipping whole words as asked, the scan returns OK exactly if at least 32 bits follow the first occurrence of the pattern, with the stream just behind them, and else MORE with nothing left |
| Scanner.ScanWord | src/parse.c:320-338 | A word read byte by byte without completing the pattern leaves the scan where reading its bits would |
| Queues.PriorityQueue.Enqueue | src/process.c:166-189 | Rising an element along its parents keeps the heap, and adds just it |
| Queues.PriorityQueue.Dequeue | src/process.c:191-219 | The element taken out comes before or with all others, and the rest is a heap of the others |
| Queues.HeapTop | src/process.h:51-56 | The head of a heap comes before or with every element |
| Queues.IndexInRing | src/process.h:133-168 | The lesser of an index and the same index one round off, in 32-bit arithmetic, is the cell of the ring that is meant |
| Queues.Deque.Push | src/process.h:160-164 | An element is added at the end, the others and their order stay |
| Queues.Deque.Pop | src/process.h:166-171 | The last element is taken away, the others and their order stay |
| Queues.Deque.Shift | src/process.h:145-150 | The first element is taken away, the others and their order stay |
| Queues.Deque.Unshift | src/process.h:152-158 | An element is added in front, the others and their order stay |
| CompressionProtocol.NextInv | src/compress.c:66-288 | Every step of every task, of the reader and of the writer, in both modes, keeps the invariant: the chain of cells from the next block to be written to the last input, where each is held, the counts of units and slots, and the slots left for the earliest block |
| CompressionProtocol.OutputInOrder | src/compress.c:238-250 | In every run of either mode, the blocks written so far are a gap-free chain from the start of the file, their bytes are a prefix of the input in order, and the combined checksum is that of these blocks in this order |
| CompressionProtocol.TerminatesComplete | src/compress.c:253-258 | When the stop condition holds in any run, all input has been written, nothing is held anywhere and all input slots are free |
| CompressionProtocol.NeverStuck | src/compress.c:66-258 | In every reachable state of either mode with nobody at work and nothing in the sink, a task is ready, the reader may read or has its end to report, or the stop condition holds |
| Chains.LinkedSplit | src/compress.c:83-110 | A chain is linked exactly if its parts are and the second begins where the first ends |
| ExpansionProtocol.NextInv | src/expand.c:348-814 | Every step of every task, whatever the scanner guesses, keeps the invariant of expanding: units and slots, one master, what each guess stands for, what waits for output and what has been put out |
| ExpansionProtocol.OutputIsSequential | src/expand.c:694-740 | In every run the output is exactly the first parts that parsing, retrieving and emitting one block after the other would give |
| ExpansionProtocol.TerminatesComplete | src/expand.c:817-823 | When the stop condition holds, the output is that of the sequential expander at its end |
| ExpansionProtocol.RunsAgree | src/parse.c:56-68 | Any two complete runs, with any numbers of workers and slots, any guesses and any interleaving, put out the same |
| ExpansionProtocol.FailsOnlyOnErrors | src/expand.c:394-640 | If a run reports an error, the sequential expander never finishes that stream |
| ExpansionProtocol.MasterIsUnique | src/expand.c:394-543 | Until parsing ends there is exactly one of: the free parse token, a running parser, a retriever confirmed as master, and the last is that of the block parsed last |
| ExpansionProtocol.UnitsConserved | src/expand.c:553-640 | Work units and output slots in hand, in queues and with running tasks always add up to the totals |
| ExpansionProtocol.GuessForward | src/expand.c:511-530 | Where the parser meets a guess, moving on to where the retriever of that guess has come to goes forward: neither behind the parser nor behind the released input |
| ExpansionProtocol.RetrievesForward | src/expand.c:553-640 | When the master reports how far it has come, that is never behind the parser nor behind the released input |
| ExpansionProtocol.AttachableRun | src/expand.c:246-263 | No queued retriever lies behind the released input during a run exactly if no step of the run left one there: a retriever that is not the master and stops before the first input kept, or a scanner that starts one there |
| ExpansionProtocol.AttachableNext | src/expand.c:588-602 | Of all steps, just those can break it |
| ExpansionProtocol.SomeRunLeavesBehind | src/expand.c:246-263 | A concrete run in which the master has passed the input that another retriever is queued at |

## Left out

- The tasks of `src/compress.c` and `src/expand.c` are steps on an immutable state, not methods of a class: aliasing between queue elements and the monitor itself are not modelled, and each critical section is one step.
- The queues of the pipelines are sets from which a first element is taken; that the heaps and deques of `src/process.c` do this is proved in `Queues`, but the two are not joined, and the capacities of the queues are not modelled.
- CompressionProtocol.NextInv: in sequential collecting, putting the rest of the input back and handing over the token are one step.
- ExpansionProtocol.NextInv: streams are abstract functions from positions to headers, ends, parts and verdicts; their connection with the retriever and the emitter is not stated. The scan queue, the offset of the tail, the granularity of input and `eof_missing` are not modelled, and an error ends the run.
- ExpansionProtocol.AttachableRun: that no retriever is queued behind the released input is false of the code; the exact condition is stated instead.
- Progress of the expanding pipeline, as opposed to its safety.
- CodeAssigner.AssignCodes: the cheapest of the optimal codes of all heights, counting the bits of the lengths; other codes of the same height, which might have cheaper lengths, are not compared.
- Compressing.CompressBlock: the clustering of groups in `generate_prefix_code` is replaced by an arbitrary assignment, so that the quality of the trees, and the use of `Huffman.MakeCodeLengths` in it, is not modelled.
- InducedSort.DivBwt: `sort_typeBstar` with `sssort` and `trsort` is a contract.
- Retrievers.Retriever.Retrieve: the bit buffer stays in the bit stream instead of being copied to locals; selectors, code lengths and the order of the trees are sequences that are reassigned; the two copies of the loop over a group share the code of one symbol.
- Decoders.Decoder.Emit: the repeated loop bodies share one copy.
- MtfEncoder.DoMtf: the array that holds 32-bit input and 16-bit output is one of 16-bit cells, low half first.
- Transmitter.Transmit: bits are collected in a list of words; that they fit behind the values in the encoder's own memory is not shown.
- Randomizer.DerandomizedTwice: the table of steps is arbitrary, not the 512 numbers of the source.
- The table of the CRC, which is generated here; agreement with `tests/minbzcat.c` on malformed input.
- Options, files, signals, progress display, memory, threads, and the copying of files that are not compressed.
