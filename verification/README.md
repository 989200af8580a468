# Verified models of the bundled compressors and of the movement arbiter

This project models, in Dafny, three parts of the server's tree and proves what they promise.

- **The bzip2 block pipeline** (`dep/bzip2`): the run-length stage and the compressor's state machine, the fallback
  rotation sort with its explicit-stack quicksort, the Burrows-Wheeler transform and both of its decoders, move to
  front with its run digits and the two-level store, length-limited Huffman lengths, the canonical code with its
  limit/base/perm tables, and the bits of a block. The stages are put together in one theorem, from the text through
  the written bits back to the text.
- **The core of zlib** (`dep/zlib`): the sliding window, the rolling hash and its chains, the match search and the
  greedy and lazy compressors; the circular window and the match copying of inflate, one byte at a time and fast; the
  Huffman trees with the repair of lengths that are too long and the costs they add up; the two-level decoding tables
  and the space they need; the symbols of a block as bits, sent and read back; and the checksums, the CRC over the
  field of polynomials modulo its own, Adler-32 over sums of 32 bits. RFC 1951, sections 3.2.2, 3.2.3 and 3.2.5, gives
  the meaning of codes and of symbols.
- **The movement arbiter** (`src/motion`): seven layers, the claim set, the parked default, nested transactions, pauses
  and resumes, and the decision ring, over every run of public operations.

Code that works in place on arrays or fields is modelled by methods and classes with the same loops; each is proved
against a function or predicate over sequences, and the laws are lemmas about those. The files follow the components:
`Permutations`, `Counting`, `Powers` and `Rotations` hold the shared mathematics; `FallbackQuicksort` to `BlockCodec`
are bzip2; `HuffmanOptimal` serves both compressors; the `Flate`, `Deflate`, `Inflate`, `Table` and `Crc` files,
`HashKey`, `LzWindow`, `SymbolBuffer`, `BitLengths`, `TreeCost`, `LengthCodes`, `BitBuffer` and `Adler` are zlib; the
`Motion` files and `DecisionRing` are the arbiter.

The table that decides what an inhibited unit may do is a constant without a value, `MotionModel.DECIDE`: nothing is
known of it, so the results about pauses hold for any table. `MotionModel.Table` is the server's.

## Model

| member | source | states |
|---|---|---|
| FallbackQuicksort.InsertDown | dep/bzip2/blocksort.c:43-62 | Inserting entry i keeps the range a rearrangement and, for either step, turns "the chains from i + 1 on ascend" into "the chains from i on ascend" |
| FallbackQuicksort.SimpleSort | dep/bzip2/blocksort.c:30-63 | Any range, with or without the coarse pass, ends as a rearrangement sorted by class, everything outside untouched |
| FallbackQuicksort.Partition | dep/bzip2/blocksort.c:121-165 | One partition step leaves less, equal and greater in three stretches and the equal one not empty, so both parts are smaller; or finds the range all equal |
| FallbackQuicksort.QSort3 | dep/bzip2/blocksort.c:92-180 | The explicit-stack quicksort terminates with its range sorted by class and rearranged only; its stack of 100 pairs cannot overflow for any range of at most 900000 entries, because the larger part is pushed first |
| FallbackSort.PassDoubles | dep/bzip2/blocksort.c:275-325 | Sorting each bucket by the class of the rotation h bytes on turns order and bucket starts for h bytes into order and bucket starts for 2h bytes |
| FallbackSort.RefinePass | dep/bzip2/blocksort.c:285-325 | One pass refines every bucket exactly once and reports zero only when every place is a bucket start |
| FallbackSort.Sort | dep/bzip2/blocksort.c:211-337 | For every block, periodic or not, fmap ends as a permutation that lists the cyclic rotations in non-decreasing order, and the block that the sort overwrote is restored |
| BlockCodec.BlockSort | dep/bzip2/blocksort.c:1031-1091 | The sorter's outcome with the place of rotation 0; the search for it cannot fail (assertion 1003) |
| BurrowsWheeler.WalkInverts | dep/bzip2/decompress.c:557-573 | For every block and every order that sorts its rotations, threading the last column and walking it from origPtr gives the block, also when equal rotations split the thread into several cycles |
| InverseTransform.BuildCftab | dep/bzip2/decompress.c:490-514 | The cumulative counts hold for the column the counts were taken of, and none of the three range checks can fail |
| InverseTransform.ThreadFast | dep/bzip2/decompress.c:557-562 | Every word keeps its byte below and gets above it the place whose stable rank it is, for any column |
| InverseTransform.ReadFast | dep/bzip2/bzlib_private.h:451-456 | Reading the packed words gives the walk over the column, byte for byte, and is never found corrupt |
| InverseTransform.NibbleVector.Set | dep/bzip2/bzlib_private.h:458-479 | Two arrays of 16 and 4 bits behave as one array of 20-bit entries |
| InverseTransform.ReverseCycle | dep/bzip2/decompress.c:533-543 | The pointer reversal terminates and turns the ranks on the cycle of origPtr into successors, leaving that cycle closed |
| InverseTransform.IndexIntoF | dep/bzip2/bzlib.c:687-698 | The binary search gives the byte of the place in the sorted column, for every place |
| InverseTransform.ReadSmall | dep/bzip2/decompress.c:524-555 | The small decoder reads the same bytes as the fast one, for every column and every origPtr, even when the column is no transform of anything |
| MoveToFront.ReadDigits | dep/bzip2/decompress.c:379-397 | The digits of a run of any length below the limit read back as that length, whatever follows, and never meet the limit check |
| MoveToFront.StageRoundTrip | dep/bzip2/decompress.c:373-486 | The symbols of any column over any alphabet stay in range and decode to that column |
| MtfEncoder.MakeMapsE | dep/bzip2/compress.c:104-115 | Used bytes are numbered by how many used bytes are smaller |
| MtfEncoder.MakeMapsD | dep/bzip2/decompress.c:26-36 | The decoder's map undoes the encoder's numbering for the same used bytes |
| MtfEncoder.Generate | dep/bzip2/compress.c:119-234 | The generator writes exactly the specified symbols of the column, at most one more than its length, and the frequencies are those of what it wrote |
| MtfStore.Store.Take | dep/bzip2/decompress.c:431-480 | The store of sixteen lines is a plain list: taking entry nn gives that entry and moves it to the front, through shifts across lines and rebuilds |
| MtfStore.Store.Rebuild | dep/bzip2/decompress.c:466-478 | Moving all lines back to the top of the array changes no entry of the list |
| MtfDecoder.DecodeBlock | dep/bzip2/decompress.c:347-486 | The decoder with the two-level store computes the specified decoding for any symbols, good or bad: same column, byte counts of that column, or the same failure |
| HuffmanLengths.MakeCodeLengths | dep/bzip2/huffman.c:63-148 | For any alphabet and frequencies below a block's total, the rescaling loop ends and every length is at least one and at most the limit, the Kraft sum is exactly one, and a rarer symbol (after scaling) is never given a shorter code; no lengths that leave room for all symbols cost less under the frequencies as scaled; and it scales only when the total is as large as a code over the limit takes |
| HuffmanOptimal.HuffmanLeast | dep/bzip2/huffman.c:100-110 | For every tree that joins the two lightest nodes again and again, the depths of the leaves cost no more than any lengths with a Kraft sum of at most one |
| HuffmanOptimal.DeepHeavy | dep/zlib/trees.c:513 | A node joined by one at depth d takes a whole that weighs at least the Fibonacci number d + 3 |
| CanonicalCode.AssignCodes | dep/bzip2/huffman.c:152-165 | Each symbol gets the canonical code of its length and place |
| CanonicalCode.CodesFit | dep/bzip2/huffman.c:152-165 | A Kraft sum of at most one is all it takes for every code to fit its length |
| CanonicalCode.CreateDecodeTables | dep/bzip2/huffman.c:170-204 | limit, base and perm hold for each length the last code, the offset from code to place, and the symbols in code order |
| SymbolStream.SymbolRoundTrip | dep/bzip2/decompress.c:74-101 | The search through the tables returns the symbol whose code the bits begin with, and consumes exactly its length |
| SymbolStream.BlockRoundTrip | dep/bzip2/decompress.c:74-101 | Symbols written with the codes their groups of fifty select read back in order, leaving the bits behind them |
| SymbolStream.SymbolReader.ReadAll | dep/bzip2/decompress.c:74-101 | The reader with its group counters computes the specified reading, including both kinds of failure |
| RunLength.UnpackInverts | dep/bzip2/bzlib.c:589-680 | A block that stores tidy runs expands to their text and is never found corrupt, whatever is delivered after its last byte |
| RunEncoder.Compressor.AddChar | dep/bzip2/bzlib.c:263-282 | The macro adds one byte to what the block stands for |
| RunEncoder.Compressor.FlushRL | dep/bzip2/bzlib.c:251-258 | The pending run joins the block, which stores tidy runs of exactly the bytes seen and stays inside its array |
| RunEncoder.Compressor.Compress | dep/bzip2/bzlib.c:407-464 | Over any calls with any input and output space, the finished blocks hold tidy runs that fit a block with matching checksums, and stay as they were handed over; each block added was full, but for one that ends a flush or the stream with all its input taken; at that end the texts joined are exactly the input taken |
| RunDecoder.Decoder.OutputFast | dep/bzip2/bzlib.c:536-702 | Whatever the room, each call writes the next bytes of the expansion, as many as fit, and reports corruption exactly when the expansion is corrupt there |
| RunDecoder.Decoder.OutputSmall | dep/bzip2/bzlib.c:706-804 | The same of the small form, which finds corruption only when it has room for the next byte |
| RunDecoder.Decoder.Drain | dep/bzip2/bzlib.c:808-858 | Any sequence of rooms delivers a prefix of the expansion of the total length of the rooms |
| RunDecoder.FirstCalls | dep/bzip2/bzlib.c:536-804 | The first calls of the two forms disagree about corruption if and only if the block is corrupt and the bytes before that just fill the room |
| RunDecoder.BlockComesOut | dep/bzip2/bzlib.c:589-680 | What the compressor stored in a block comes out as its text whatever the transform delivers behind it |
| BlockCodec.BlockRoundTrip | dep/bzip2/compress.c:602-672 | Runs stored, sorted, numbered and sent as symbols decode to the column, and walking and expanding the column gives their text |
| BlockCodec.LengthsSuit | dep/bzip2/compress.c:481-492 | Any complete lengths of at most twenty bits, as the length maker gives them, make tables that decode |
| BlockCodec.TextRoundTrip | dep/bzip2/compress.c:602-672 | End to end through the bits: the decoder's stages applied to the bits of a block, with any codes made by the length maker and any selectors, give the text of the runs, nothing corrupt, and leave the bits behind |
| HashKey.ThirdByteImplied | dep/zlib/deflate.c:1384-1392 | With the shift and table size deflate uses, equal keys and equal first two bytes mean equal third bytes, which is why the match search never compares the third |
| HashKey.KeyForgets | dep/zlib/deflate.c:304-307 | The rolling key depends on the last three bytes only |
| Deflate.Deflater.InsertString | dep/zlib/deflate.c:158-189 | Inserting a string puts it at the head of the chain of its three bytes' key, links it to the head before, changes no other entry and returns that head; every chain stays a descending list of earlier strings with its key |
| Deflate.Deflater.MatchLength | dep/zlib/deflate.c:1394-1410 | The unrolled comparison returns a length at which both strings agree and, below the maximum, differ next, and reads nothing outside the window |
| Deflate.Deflater.LongestMatch | dep/zlib/deflate.c:1278-1422 | A result longer than the previous length is a true match inside the lookahead at a distance the format allows, without the third byte ever being compared; no string looked at matches longer than the best length, and the search ends at a nice match, at the chain limit or at the end of the chain |
| Deflate.Deflater.SlideHash | dep/zlib/deflate.c:198-222 | Every chain entry moves down by the window size, those that fall out becoming empty |
| Deflate.Deflater.FillWindow | dep/zlib/deflate.c:1527-1672 | Sliding and reading keep the window showing the text at its place and the chains true; input moves from the source to the text and no byte is lost |
| Deflate.Deflater.FlushBlockOnly | dep/zlib/deflate.c:1635-1672 | The block handed over stands for exactly the bytes of the window since the block before it |
| Deflate.Deflater.DeflateFast | dep/zlib/deflate.c:1877-1971 | Over any calls, splits of the input and slides, at every loop head the symbols expand to the text read so far, each distance and length in range, and are those its turns chose; each block given up was full, but for one at the end of the input; at the end of a block or of the stream what was sent expands to the whole input |
| DeflateChoices.GreedyRule | dep/zlib/deflate.c:1915-1964 | Of every turn of every run: the search made when one was due, and a match of three bytes or more sent at once, else the byte |
| Deflate.Deflater.DeflateSlow | dep/zlib/deflate.c:1979-2102 | The same of lazy matching, less the one byte put off |
| Deflate.Deflater.SlowStep | dep/zlib/deflate.c:2016-2085 | One turn more, fairly chosen: the match that counts is what a search found that looked at no longer match and ended for one of its reasons, or is none if no search was due or it was too short and far |
| DeflateChoices.LazyRule | dep/zlib/deflate.c:2034-2085 | Of every turn of every run, with a match of length L put off and M found one byte on: a match is sent exactly when L is at least 3 and M is no longer, and it is the one put off; else the byte is sent by itself and the match of length M is put off |
| SymbolBuffer.ReadBlock | dep/zlib/trees.c:1053-1084 | Reading the three-byte entries back gives the symbols tallied |
| Inflate.Inflater.UpdateWindow | dep/zlib/inflate.c:399-447 | After every call the circular window holds the newest bytes of everything put out, as many as it has room for |
| Inflate.Inflater.MatchStep | dep/zlib/inflate.c:1170-1214 | A step copies what the naive overlapping copy would, from output or window, and refuses exactly the distances that reach before what is kept |
| Inflate.Inflater.FastMatch | dep/zlib/inffast.c:169-264 | The fast decoder's copies, split at the window's wrap and by threes, give the same bytes and refuse the same distances |
| Inflate.Inflater.Inflate | dep/zlib/inflate.c:1062-1221 | For output buffers of any size the bytes put out over all calls are the expansion of the symbols taken, and a legal stream is never refused |
| Inflate.InflateInPieces | dep/zlib/inflate.c:1279-1287 | Any way of cutting the output into buffers gives the whole text of a legal stream |
| InflateWindow.SentIsLegal | dep/zlib/deflate.h:285-293 | What deflate sends is a legal stream for a window of its size and expands to its input: with InflateInPieces, inflate undoes deflate |
| FlateCode.PrefixFree | dep/zlib/trees.c:572-605 | With a Kraft sum of at most one no stream begins with two codes |
| FlateCode.EveryStream | dep/zlib/inftrees.c:130-138 | With a Kraft sum of one every stream begins with a code |
| FlateCode.LastSymbol | dep/zlib/trees.c:589-594 | The lengths are complete if and only if the last code of the longest length is all ones |
| FlateCode.IncrementReversed | dep/zlib/inftrees.c:244-253 | The backwards increment of the reversed code is the reversal of the next code |
| DeflateTrees.TreeBuilder.Pqdownheap | dep/zlib/trees.c:451-475 | Sinking one node restores the heap order from there on and only rearranges the heap |
| DeflateTrees.Repair | dep/zlib/trees.c:530-542 | Each step takes one unit off the excess; half the overflow is the excess, so the Kraft sum ends at exactly one |
| DeflateTrees.GenBitlen | dep/zlib/trees.c:486-562 | For the tree of any frequencies every length is in range, the counts agree with the lengths and their Kraft sum is exactly one, overflow or not; what is added to opt_len and static_len is the cost of all symbols with the final lengths and with the static ones; with no overflow no lengths that suit cost less |
| DeflateTrees.BiReverse | dep/zlib/trees.c:1136-1146 | The loop reverses the low bits |
| DeflateTrees.GenCodes | dep/zlib/trees.c:572-605 | Every symbol with a length gets the bits of its canonical code reversed, the others are untouched |
| FlateMerge.DepthsLeast | dep/zlib/trees.c:480-482 | When all nodes are listed by frequency, with each father the sum of his sons, the depths cost no more than any lengths with room for all symbols |
| DeflateTrees.TreeBuilder.BuildTree | dep/zlib/trees.c:615-697 | From any frequencies, even none: every symbol that occurs gets a code, at least two codes exist, no length exceeds the limit, and the code is complete and canonical; opt_len and static_len grow by the cost of the frequencies as they were, whatever codes were forced; and if the frequencies add up below 2^16, no lengths that suit them cost fewer bits, or some length was cut, which takes a total of the Fibonacci number limit + 3 |
| TableDecoding.LooksUp | dep/zlib/inflate.c:1074-1091 | A symbol found in the tables is what the lookup gives for every stream that starts with its code, in its length of bits |
| InflateTable.InflateTable | dep/zlib/inftrees.c:32-303 | It returns -1 exactly for over-subscribed lengths and for incomplete ones other than a lone one-bit code outside the code lengths, and 1 exactly when the entries needed exceed ENOUGH; on 0 every symbol is found, through one link at most, and as many entries are used as are needed; without any code it makes the table of two invalid entries |
| TableSpace.SizeIs | dep/zlib/inftrees.c:266-276 | The size the loop finds for a sub-table, from the counts alone, is exactly what the longest code with that prefix needs |
| InflateTable.EveryStreamFound | dep/zlib/inftrees.c:32-303 | For a complete code every stream looks up the one symbol it starts with, and the bits taken are its length |
| InflateTable.DecidesEarly | dep/zlib/inflate.c:1074-1091 | The lookup depends only on the bits it takes, so it may be tried with bits missing |
| LengthCodes.MakeLengthCodes | dep/zlib/trees.c:255-268 | For every match length the code and the base agree with the base and the extra bits that inflate gives that code |
| LengthCodes.MakeDistanceCodes | dep/zlib/trees.c:270-286 | The same of every distance, through the table of 512 entries |
| BitBuffer.BitBuffer.SendBits | dep/zlib/trees.c:186-208 | Through the 16-bit buffer, the bits follow all those sent before, whatever is sent next |
| FlateCost.Tally | dep/zlib/trees.c:1014-1037 | After each symbol the frequencies count its codes once more, and the buffer holds the block; no count wraps |
| FlateCost.SentBitsAre | dep/zlib/trees.c:994 | For every block the bits that compress_block sends are as many as the frequencies cost with its lengths and extra bits |
| FlateStream.BlockBack | dep/zlib/inflate.c:1062-1168 | From tables ready for two complete codes, the bits sent for a block read back as its symbols, and leave the bits behind it |
| FlateBlock.CompressBlock | dep/zlib/trees.c:1042-1092 | The buffer goes out as the codes and extra bits of its symbols, in order, and the code that ends the block |
| FlateBlock.InflateBlock | dep/zlib/inflate.c:1062-1168 | The reading loop computes the specified reading for any bits, good, bad or too few |
| FlateBlock.ThereAndBack | dep/zlib/trees.c:912-994 | From frequencies through build_tree, compress_block, inflate_table and inflate: the symbols of the block come back unless a table needs more than ENOUGH entries; with the frequencies of the block, opt_len is exactly the bits sent and static_len what the static trees would send, and with no length cut no codes would send the block in fewer bits |
| FlateText.TextBack | dep/zlib/inflate.c:1062-1287 | Whatever blocks a legal stream is cut into, tallying, coding and reading back each and inflating the whole gives the text of the stream, unless some complete lengths need too large a table |
| CrcField.PowerTimes | dep/zlib/crc32.c:551-570 | The product with the nth power of x, on either side, is the same as n single steps, which is what makes products move a register past bytes |
| CrcTables.MultModP | dep/zlib/crc32.c:551-570 | For every a but zero the loop ends and gives the product modulo the CRC polynomial |
| CrcPowers.ComesAround | dep/zlib/crc32.h:9439-9446 | x to the 2^32 is x: the last entry of the table of powers squares to the first |
| CrcPowers.EntryTimes | dep/zlib/crc32.c:575-589 | Entry k modulo 32 multiplies by x to the 2^k for every k, so the table serves counts of any size |
| CrcTables.X2nModP | dep/zlib/crc32.c:575-589 | The loop over the bits of n gives x to the n times 2^k, for every n and k, and never zero |
| CrcTables.MakePowers | dep/zlib/crc32.c:298-302 | Squaring 31 times from x makes exactly the table in crc32.h |
| CrcTables.MakeCrcTable | dep/zlib/crc32.c:287-293 | Each entry is eight steps of its byte |
| CrcTables.Braid | dep/zlib/crc32.c:514-532 | Entry b of row k is b moved past its word's later bytes and the words of the other braids |
| CrcState.TableStep | dep/zlib/crc32.c:1060-1063 | One table look-up takes in a byte as eight single bits do |
| CrcState.StateAdds | dep/zlib/crc32.c:31-51 | What is added to the register at the start ends multiplied by x once for every bit of the message |
| Crc.Word | dep/zlib/crc32.c:726-732 | Working on the word itself gives the register after the word's bytes |
| Crc.Braided | dep/zlib/crc32.c:855-890 | The look-ups of one word in the rows of the braid tables give the register after the word, moved past the other braids |
| CrcBraids.BlockKeeps | dep/zlib/crc32.c:836-891 | Taking a block in keeps the register of the whole message that the braids and the bytes to come stand for |
| CrcBraids.LastJoins | dep/zlib/crc32.c:898-912 | The last block joins any registers into that of the whole |
| Crc.Tables.Crc32Z | dep/zlib/crc32.c:748-1067 | For every message, address, start, number of braids and word size, the braided computation is the bitwise one; no buffer gives 0 |
| Crc.CrcContinues | dep/zlib/crc32.c:748-1067 | A message may be fed in pieces |
| Crc.ChangesShow | dep/zlib/crc32.c:748-1067 | Two messages that differ only within the same four bytes never have the same CRC |
| Crc.CrcJoins | dep/zlib/crc32.c:1081-1089 | The CRC of the whole is that of the first part times x to the bits of the second, plus that of the second |
| Crc.Tables.Combine64 | dep/zlib/crc32.c:1081-1089 | From the CRCs of any two parts and the length of the second, however long, the CRC of the whole |
| Adler.NoOverflow | dep/zlib/adler32.c:11-13 | No sum passes 32 bits within NMAX bytes of a remainder, even from sums of all ones |
| Adler.NmaxIsLargest | dep/zlib/adler32.c:11-13 | From sums that are remainders, NMAX is the largest count for which that is so |
| Adler.Adler32Z | dep/zlib/adler32.c:63-131 | For every buffer and start, with no addition wrapping, the two sums reduced; one base more in the second exactly when a single byte brings it to twice the base |
| Adler.AdlerContinues | dep/zlib/adler32.c:63-131 | A message may be fed in pieces |
| Adler.Combine | dep/zlib/adler32.c:143-169 | The reduced sums of the whole if and only if neither sum is more than the subtractions take off; for the checksums of two parts, the checksum of the whole |
| Adler.CombinesParts | dep/zlib/adler32.c:143-169 | Checksums of parts always meet that condition, and their combination is the checksum of the parts joined |
| MotionRuns.RunIsSafe | src/motion/Arbiter.cpp:958-983 | After every run the ledger balances, a parked default lies under another, the selection has been started and the pause recorded is the one due |
| MotionRuns.FinishedOnce | src/motion/Arbiter.cpp:852-898 | No entry is finished twice |
| MotionSelection.SelectionLaw | src/motion/Arbiter.cpp:677-745 | Nothing is selected exactly when nothing is held; else the selection stands for the highest occupied layer, among the claims for a confusion if there is one and then the newest |
| MotionSelection.CutExactly | src/motion/Arbiter.cpp:958-983 | An operation logs that the selection was cut short if and only if another entry is selected after it and the one before is still held; once, and of no other |
| MotionSelection.PauseExactly | src/motion/Arbiter.cpp:308-331 | A pause is logged if and only if the selection may not tick and was not the one paused, and its end if and only if it may tick and was |
| MotionSlots.RequestSlots | src/motion/Arbiter.cpp:373-497 | For every kind and state: the slot a request fills and with what, the slots it empties with the reason logged, what ends itself, what becomes of the defaults and the claims; all else stays |
| MotionSlots.StepSlots | src/motion/Arbiter.cpp:220-690 | For every other operation: the slots over the default and the claims it ends, with the reason logged; all else stays |
| MotionSlots.InstallSlots | src/motion/Arbiter.cpp:359-371 | An installed default takes the place of both, and all else stays |
| MotionTurns.StepTurned | src/motion/Arbiter.cpp:359-671 | For every operation and state: where the two defaults go, which entries leave and with which event, that no other ending event is logged and at most one swap, as the branch taken says |
| MotionDepartures.DeparturesLogged | src/motion/Arbiter.cpp:359-497 | An entry held before an operation and not after it was finished or swapped with an event, or goes on under the next number, or was the parked default a new default drops, logged when it was parked |
| MotionDepartures.HeldThroughout | src/motion/Arbiter.cpp:171-180 | A number is held through one unbroken stretch of the run |
| MotionDepartures.RunAccounts | src/motion/Arbiter.cpp:359-671 | Every number handed out has exactly one fate and the fate is what happened: held in one place; finished once or swapped out, after being held; updated to the number a request took; or held by no state of the run |
| MotionDepartures.SecondEndingExactly | src/motion/Arbiter.cpp:435-460 | An entry gets a second ending event if and only if it was once the parked default and a later operation takes a branch that ends the slot it is in |
| MotionDepartures.SecondEndingStep | src/motion/Arbiter.cpp:236-259 | The same for one operation, on the state before it |
| MotionDepartures.SwappedThenFinished | src/motion/Arbiter.cpp:236-259 | A run in which one entry is swapped and later finished |
| MotionDepartures.SwappedTwice | src/motion/Arbiter.cpp:435-460 | A run in which one entry is swapped twice and nothing dies |
| MotionRuns.ResumeAnswersPause | src/motion/Arbiter.cpp:308-331 | Every resume from a block answers an earlier pause of the same entry, which stayed selected and paused from then on, for any table |
| MotionRuns.LaterResumeLaterPause | src/motion/Arbiter.cpp:308-331 | No two resumes answer the same pause |
| MotionRuns.ExposedHadRun | src/motion/Arbiter.cpp:958-983 | Every resume of an exposed entry is for one that had run before |
| MotionRuns.PausedByTable | src/motion/Mobility.cpp:46-103 | With the server's table: a dead unit's selection is paused, nothing else pauses a flight, and neither a stun nor a root pauses a distraction |
| MotionTransactions.DiscardLaw | src/motion/Arbiter.cpp:182-218 | Over every nesting of guards, the kind in force is Death once any death opened inside the outermost guard, else the strongest of those open |
| DecisionRing.Ring.Decisions | src/motion/Arbiter.cpp:1028-1042 | The dump lists the last 32 decisions recorded, oldest first |

## Findings

- An entry of the arbiter may get two ending events, although one per entry is what the event stream suggests. A
  parked default has been logged as swapped when it was parked (Arbiter.cpp:448-455) and is logged again if it ends
  while parked (a death or a full clear, Arbiter.cpp:236-259, 499-520) or once it is back on top (swapped, finished or
  replaced). `MotionDepartures.SecondEndingExactly` gives the exact condition, `SwappedThenFinished` and
  `SwappedTwice` a run of each kind. A parked default dropped by a new default (Arbiter.cpp:359-371) keeps its one
  earlier event.
- `OutputFast` reports a corrupt block as soon as the bytes before it are out, `OutputSmall` only when it has room for
  one more byte (bzlib.c:589-680, 708-800). `RunDecoder.FirstCalls` says exactly when their first calls differ, and
  `RunDecoder.CutOffRun` is a block for which they do.
- `adler32_z` does not reduce the second sum when one byte is fed to a start whose upper half is no remainder and the
  sum reaches twice the base (adler32.c:75-82); `Adler.Unreduced` is the exact condition, `Adler.OneByteUnreduced` an
  input that meets it. `adler32_combine_` is right for more than checksums but not for all words: `Adler.Joinable` is
  the exact condition, `Adler.NotJoinable` an input outside it, and `Adler.ReducedJoin` says that words whose halves
  are remainders meet it.
- The table of 32 powers of x wraps after 2^29 bytes when CRCs are combined, and the result stays right
  (`CrcPowers.ComesAround`).

## Left out

- FallbackSort.Sort: blocks beyond 900000 bytes, and the eclass8 overlay of eclass; the block is a separate array here.
- SymbolStream.SymbolReader.ReadAll: has all its bits at hand; running out of input is an outcome, not a state to resume from.
- MtfDecoder.DecodeBlock: has its symbols at hand, for the same reason.
- RunEncoder.Compressor.Compress: sees the block compressor only through how much output it leaves; the contents of a block's bytes are BlockCodec's.
- InverseTransform.ReadSmall: the randomised blocks of old streams, in both decoders.
- Deflate.Deflater.DeflateSlow: the stored, run-length and Huffman-only strategies, Z_FULL_FLUSH, deflateParams, preset dictionaries and the high-water zeroing beyond its range; the class hands over symbols, and the bits of a block are FlateBlock's.
- DeflateTrees.TreeBuilder.BuildTree: says nothing of least cost when lengths were cut, nor when the frequencies together pass 16 bits and wrap.
- InflateTable.InflateTable: that ENOUGH suffices for complete lengths is the result of an exhaustive search in the original, and is not proved.
- Inflate.Inflater.Inflate: takes decoded symbols, which FlateBlock reads; the stream and block headers, the stored blocks and inflateSync are not modelled.
- FlateBlock.InflateBlock: has the bits it will get at hand; running out of them is an outcome, not a state to resume from.
- MotionTurns.StepTurned: takes a request inside a discarding transaction as refused; the numbers do not wrap at 32 bits.
- mainSort and mainQSort3 of bzip2: the other sorter, its budget, its quadrant cache and the bound on its stack (assertion 1001).
- The block header and the delta-coded lengths and selectors of bzip2's sendMTFValues, and its choice of codes.
- scan_tree, send_tree and the block headers of zlib's trees.c, and the choice among stored, static and dynamic blocks; the lengths of a dynamic block are handed over as they are.
- Crc.Tables.Combine64: a negative length, on which the source's loop does not end; `CrcTables.MultModP` a first factor of zero, likewise.
- Adler.Adler32Z: no buffer with a length of one, which the source reads from.
- The CRC's big-endian braids, the build without words and the ARM instructions; Adler's remainders without division.
- bzip2's CRC, beyond the check that its compressor feeds each byte to it once.
- The gz file layer, BZ2_bzRead and BZ2_bzWrite, memory allocation and the platform variants of the loops.
- Null checks and stream-state sanity checks at the public entry points.
