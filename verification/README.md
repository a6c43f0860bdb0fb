# Verified model of the bundled libjpeg

A Dafny model of the algorithmic core of the JPEG library in `libjpeg/`: its two entropy coders, the
progressive scan scripts, and the row and block buffers around them. The main results are statements about
every run:

- **Arithmetic coding.** Coding any sequence of decisions and finishing the segment gives bytes that decode,
  bin by bin, to the same decisions, with equal statistics on both sides; no shorter segment would do. Whole
  scans of all five kinds, with restarts, decode to the coefficients that were coded, and so does one file
  with all the scans of an acceptable progressive script.
- **Huffman coding.** The table generator is optimal, its tables are always accepted and code every counted
  symbol, and the fast decoder agrees with the bit-serial one on every bit string. Sequential scans and
  progressive scans of all four kinds, with tables made from their own statistics and with restarts, decode
  to the coefficients that were coded however the input is cut up, suspensions and undo included; and so
  does every acceptable progressive script as a whole.
- **The format.** What both sides agree on is also what ITU-T T.81 asks for: every state is that of Table D.3,
  every decision has the bin and the answer its figures give, and the symbols sent, read by the standard's own
  decoding procedures, say the coefficients, end-of-band runs that span blocks included.
- **Scan scripts.** `validate_script` accepts exactly the acceptable scripts; an accepted progressive script
  adds up, scan after scan, to the coefficients at their last bit; the recommended script sends everything.
- **Row and block buffers.** The row lists that provide context rows, the suspension hack of the
  compressor's main controller, and the three ways of building MCUs all agree with simple descriptions of an
  image with replicated edges and padded MCUs, in which every row and every block stands in its place.
- **Whole images.** From the real blocks of any frame, the MCUs handed over for the scans of an acceptable
  progressive script, coded by either entropy coder and decoded again, give back every real block as far as
  the script has sent it.

Conventions. Emitted bytes are a sequence; a segment's undelayed data bytes are kept beside it as ghost state
and related to the output by byte stuffing. The byte source is a sequence with a position and, where the
source module may suspend, a count of the bytes delivered so far. Coefficients are unbounded integers, with
the ranges the code checks or relies on stated as preconditions or proved. Shifts are products with and
quotients by powers of two. An error exit is an outcome (`ok`, `error`) or shown not to happen.
`natural_order` is any injective order. Bit strings are sequences of 0 and 1. Memory management, progress
monitors and error texts are not modelled.

Files by subject: `IntervalCoder` to `ArithSegment` and `ArithTape` to `ArithScanDecoder` (arithmetic
coding), `ArithStates`, `ArithDecisions`, `TokenMeaning`, `BandMeaning`, `Predictions` (states, decisions,
tokens and predictions against the standard), `HuffmanTree` to `HuffmanDecoding` (tables), `BitWriter`,
`BitReader`, `Segments`, `ScanReader` (streams and restarts), `Band*` (progressive AC scans), `Sequential*`,
`DcEncoder`, `DcDecoder` (sequential and progressive DC scans), `ScanScript`, `ScriptOrder`,
`SimpleProgression`, `ScriptDecoding`, `Placement`, `ScriptImage`, `ArithScript`, `HuffmanScript` (whole
scripts), `Context*` (decompression rows), `PrepRows`, `CompressRows`, and `Mcu*`, `FullImageBuffer`,
`CoefController` (MCUs), `FrameSlots`, `FrameScripts` (whole images).

Where the code and its own comments differ. The comment in `libjpeg/jdmainct.c:54-61` promises at least one
row group of samples above and below each row group passed on, with the last real row duplicated at the
bottom. Just above a last iMCU row with fewer real rows than a row group, the code shows the decoder's padding
rows instead, because the bottom rows are not yet set when the postponed row group goes out;
`ContextRows.ContextCanFail` gives an image for which they differ from the last real row,
`ContextRows.ContextHolds` the dimensions for which the promise is kept whatever the padding holds, and
`ContextRows.ContextIsTrueWhen` the exact condition; `ContextRows.NeighboursAreTrue` shows that the rows next
to a row group are right in every case. No upsampler in the repository asks for context rows
(`libjpeg/jdsample.c:307` and `libjpeg/jdmerge.c:421` set `need_context_rows` to FALSE), so this path is
modelled for an arbitrary consumer.

## Model

| member | source | states |
|---|---|---|
| ArithTable.Lookup | libjpeg/jaricom.c:31-153 | every state of the packed table has 0 < Qe < 0x8000, successor indexes inside the table, and its switch flag where Table D.3 has it; `ArithStates.LookupIsTable` compares all 114 states with that table |
| ArithTable.Successor | libjpeg/jaricom.c:31-153 | adapting a bin keeps it a valid bin; only an LPS in a switching state changes the sense of the more probable symbol |
| ArithStates.LookupIsTable | libjpeg/jaricom.c:31-153 | every state fetched has the Qe_Value, Next_Index_LPS and Next_Index_MPS of Table D.3, written down column by column |
| ArithStates.EstimateMoves | libjpeg/jaricom.c:31-153 | in every state a more probable symbol never raises Qe, and a less probable one never lowers it except in states 0, 14, 36 and 64 |
| ArithStates.EstimateIs | libjpeg/jcarith.c:229-259 | a decision leaves a bin in the next state of the table's LPS or MPS column, its sense flipped exactly for an LPS in one of the ten switching states |
| ArithDecisions.ShareOut | libjpeg/jcarith.c:234-257 | the parts for the two symbols tile the interval, the lower one being what Qe leaves; the more probable symbol has the larger part, the lower if they are equal |
| ArithDecisions.EstimatedWhenShort | libjpeg/jcarith.c:234-259 | a bin is estimated anew exactly when its decision makes renormalization necessary |
| ArithDecisions.FirstUse | libjpeg/jcarith.c:936-943 | a bin not used before is in state 0, with 0 as the more probable symbol; the fixed bin is in state 113 |
| IntervalCoder.Run | libjpeg/jcarith.c:219-260 | the unbounded-precision coder: after any decisions the interval is normalized and all bins are valid |
| IntervalCoder.StepSpells | libjpeg/jdarith.c:151-181 | a code spells the narrowed interval exactly when it spelled the interval before and the decoder would choose this bit: the decision is determined in both directions |
| IntervalCoder.PrefixSpells | libjpeg/jcarith.c:219-311 | a code for the interval of a run lies in the interval of every prefix of the run |
| IntervalCoder.DecodeInvertsRun | libjpeg/jdarith.c:106-182 | a code that spells the final interval decodes to exactly the run's bits, ending with the encoder's interval and statistics |
| IntervalCoder.DecodeSpells | libjpeg/jdarith.c:106-182 | on any data at all the decoder stays inside its interval |
| ArithRegisters.CompletedByteBound | libjpeg/jcarith.c:265-268 | a completed byte is below 288: what the three spacer bits buy |
| ArithRegisters.CarryHasBuffer | libjpeg/jcarith.c:268-277 | a carry never happens while no byte is buffered |
| ArithRegisters.ByteDenotes | libjpeg/jcarith.c:262-310 | emitted bytes, held zeros, the buffered byte, stacked 0xFFs and register C together denote the same interval after a byte is taken out of C, in the carry, stacking and plain cases |
| ArithEncoder.Encoder.OutputByte | libjpeg/jcarith.c:265-309 | taking a byte out of C keeps the denoted interval, emits only stuffed data and never buffers 0xFF |
| ArithEncoder.Encoder.Renormalize | libjpeg/jcarith.c:262-310 | the do-while loop ends with a >= 0x8000 and the registers denoting the renormalized interval |
| ArithEncoder.Encoder.Encode | libjpeg/jcarith.c:219-311 | one call adds exactly one decision to the run the registers denote, bins adapted as in the ideal coder, whose states and interval parts `ArithStates` and `ArithDecisions.ShareOut` pin down |
| ArithEncoder.Encoder.Finish | libjpeg/jcarith.c:133-193 | from any reachable state the finished segment spells the final interval, and no code that spells it has fewer data bytes |
| ArithRegisters.ShiftedPick | libjpeg/jcarith.c:142-149 | the value picked lies in the interval, fits the register and can only carry into a byte that exists |
| ArithRegisters.PickUnique | libjpeg/jcarith.c:142-145 | when the interval holds a multiple of 0x10000, that is the value picked |
| ArithRegisters.EndingSpells | libjpeg/jcarith.c:146-192 | at most two further bytes, and the discarded trailing zeros, leave the value a zero-extending decoder sees |
| ArithRegisters.EndingIsShortest | libjpeg/jcarith.c:138-192 | every code for the interval has at least as many data bytes as the one written |
| ByteStuffing.StuffHidesMarkers | libjpeg/jcarith.c:268-306 | in the emitted data every 0xFF is followed by 0x00 |
| ByteStuffing.StuffLength | libjpeg/jchuff.c:374-383 | stuffing adds one byte for every 0xFF and nothing else |
| ByteStuffing.EndsWithEoi | libjpeg/jdatasrc.c:97-139 | a file that stops short reads like one that goes on with an EOI marker |
| ByteStuffing.SegmentHolds | libjpeg/jdarith.c:117-137 | a stuffed segment followed by a marker is what the decoder's byte reader expects to find |
| ArithDecoder.Decoder.Shift | libjpeg/jdarith.c:114-146 | one renormalization shift keeps C the code's offset in the interval, reading and unstuffing a byte only when needed and zeros after a marker |
| ArithDecoder.Decoder.Compare | libjpeg/jdarith.c:151-181 | the comparison with the split point gives the decision the code determines and moves C, A and the bin to the narrowed interval |
| ArithDecoder.Decoder.Decode | libjpeg/jdarith.c:106-182 | on every source the bit returned is the one the code determines, with 0 <= C < A << CT kept and the position advanced only over bytes read |
| ArithSegment.CodeAndDecode | libjpeg/jcarith.c:133-311 | the round trip on the objects: any decisions, any bytes before the segment, any marker and bytes after it |
| ArithTape.CategoryBound | libjpeg/jcarith.c:415-428 | a magnitude less one, below 0x8000, has at most 15 significant bits |
| ArithDecisions.ContextIs | libjpeg/jcarith.c:400-433 | the category is zero up to half of 2^L, small up to 2^U and large beyond, with bins 4 and 12 for positive and 8 and 16 for negative differences; for L = 0 only a zero difference counts as zero |
| ArithDecisions.OwnBin | libjpeg/jcarith.c:394-414 | every question of a DC or AC area has a bin of its own, among the 49 or 245 of the area |
| ArithDecisions.DcStarts | libjpeg/jcarith.c:396-416 | the first decisions of a difference: zero or not, its sign, and whether it is over one, each in its bin of table F.4 |
| ArithDecisions.DcGoesOn | libjpeg/jcarith.c:417-438 | the others: decision i of the category asks whether the magnitude less one reaches 2^(i+1), the bits below its top bit follow in one bin that depends on how many they are |
| ArithDecisions.ValueStarts | libjpeg/jcarith.c:500-519 | the first decisions of an AC coefficient: its sign in the fixed bin, and whether it is over one and over two |
| ArithDecisions.ValueGoesOn | libjpeg/jcarith.c:519-539 | the category decisions of an AC coefficient, in low or high bins as its position is up to or above the conditioning value, and its bits |
| ArithDecisions.AcTapeIs | libjpeg/jcarith.c:488-545 | position by position: whether the block ends there, asked at the start of the band and after a nonzero coefficient only; zero or not; the value; and the end, unless the band is full |
| ArithDecisions.RefineTapeIs | libjpeg/jcarith.c:642-681 | the same in a refinement: a correction bit for a coefficient that was nonzero, a sign for a new one, and no end of block asked about before the last coefficient that was nonzero |
| ArithDecisions.SequentialBlock | libjpeg/jcarith.c:727-821 | a sequential block: the difference from the prediction under the component's category, then positions 1 to the last nonzero one |
| ArithDecisions.AcFirstBlock | libjpeg/jcarith.c:483-545 | a first AC scan's block: its band up to the last coefficient that is nonzero after the point transform |
| ArithDecisions.AcRefineBlock | libjpeg/jcarith.c:624-681 | a refinement scan's block: its band up to the last coefficient that is nonzero now, with the last one that was nonzero before as limit of the end-of-block question |
| ArithScanDecoder.BlockInAreas | libjpeg/jcarith.c:381-546 | for every block the coder can express, DC bins stay below 49 and AC bins below 245 |
| ArithCoefEncoder.EncodeDc | libjpeg/jcarith.c:393-438 | asks for exactly the decisions of figures F.4 and F.6 to F.9, and leaves its conditioning category: `ArithDecisions.DcStarts` and `DcGoesOn` say which they are, `ArithDecisions.ContextIs` where the category's thresholds lie |
| ArithCoefEncoder.EncodeAc | libjpeg/jcarith.c:477-545 | asks for exactly the decisions of figure F.5 over the band, after the point transform |
| ArithCoefEncoder.EncodeAcRefine | libjpeg/jcarith.c:619-681 | asks for exactly the decisions of figure G.10: no end of band before the last coefficient that was nonzero already |
| ArithCoefDecoder.DecodeDc | libjpeg/jdarith.c:268-305 | requests the very bins the encoder used and rebuilds the difference and the conditioning category, whose thresholds `ArithDecisions.ContextIs` states |
| ArithCoefDecoder.DecodeAc | libjpeg/jdarith.c:345-390 | requests the very bins the encoder used and rebuilds the band, scaled back by Al, touching nothing else |
| ArithCoefDecoder.SharpValue | libjpeg/jdarith.c:476-492 | the correction of a coefficient that was nonzero, and a new one, give the value truncated at the new bit |
| ArithCoefDecoder.EndxAgree | libjpeg/jdarith.c:464-468 | EOBx computed from the decoder's coarser block agrees with the encoder's wherever it is used |
| ArithCoefDecoder.DecodeAcRefine | libjpeg/jdarith.c:436-503 | from the next coarser precision the band becomes exact to bit Al, with the encoder's bins requested in order |
| ArithScan.EncodeBlock | libjpeg/jcarith.c:361-833 | each of the five routines adds exactly its block's decisions and leaves DC prediction and context as specified |
| ArithScan.EncodeMcu | libjpeg/jcarith.c:692-833 | the block loop codes the blocks of the MCU in order, each with its own component's state |
| Predictions.ArithInMcu | libjpeg/jcarith.c:397-433 | within an MCU the prediction and the category of a component are what its latest block left |
| Predictions.ArithPrediction | libjpeg/jcarith.c:385-401 | before any block of a segment the prediction is the DC value of the block of its component coded before it, in this MCU or the one before, and zero at the start |
| ArithScan.EmitRestart | libjpeg/jcarith.c:319-353 | a restart finishes the segment and starts a new one with coder, statistics and predictions reset |
| ArithScan.EncodeScan | libjpeg/jcarith.c:361-833 | a whole scan leaves one finished segment per restart interval, each a code for its decisions, with the restart markers counted modulo 8 between them |
| ArithScanDecoder.RefinedDc | libjpeg/jdarith.c:403-428 | the refinement bit lands in a clear bit of the two's-complement DC value |
| ArithScanDecoder.KnownIs | libjpeg/jcarith.c:388-391 | a coefficient known to bit Al is a multiple of 2^Al: for DC the greatest one not above the value, for AC the greatest in magnitude and on the same side of zero |
| ArithScanDecoder.DecodeBlock | libjpeg/jdarith.c:242-503 | each routine turns the block it finds into the one known down to bit Al, and leaves DC prediction and context equal to the encoder's |
| ArithScanDecoder.DecodeMcu | libjpeg/jdarith.c:511-635 | all blocks of an MCU are decoded and the decoder stands where the encoder stood after it |
| ArithScanDecoder.ReadRestartMarker | libjpeg/jdmarker.c:1264-1290 | the marker that ends the segment is found whether or not the decoder has run into it already, and swallowed exactly if it is the expected one |
| ArithScanDecoder.ProcessRestart | libjpeg/jdarith.c:190-222 | the next segment is decoded from a fresh state |
| ArithScanDecoder.CodeAndDecode | libjpeg/jdarith.c:242-635 | the round trip of a scan of any of the five kinds: any MCUs with values the coder can express, any restart interval, any bytes around the scan |
| HuffmanTree.NoCodeBeatsMerging | libjpeg/jchuff.c:1265-1324 | no assignment of code lengths with Kraft sum at most 1 spends fewer bits than the merges do |
| HuffmanForest.FinishedIsOptimal | libjpeg/jchuff.c:1278-1324 | when one root is left, the code sizes have Kraft sum exactly 1 over the counted symbols and are optimal |
| HuffmanForest.OneRootLeft | libjpeg/jchuff.c:1290-1303 | with counts up to the search limit, the search fails only when one root is left |
| HuffmanForest.OtherMerge | libjpeg/jchuff.c:1278-1324 | merges keep the last symbol, with its reserved pseudo-count, among the deepest |
| HuffmanGenerator.Deepen | libjpeg/jchuff.c:1309-1323 | walking a chain visits exactly the symbols of the group once, ends at its last element, and makes each one bit deeper |
| HuffmanGenerator.FindLeast | libjpeg/jchuff.c:1279-1299 | finds the smallest nonzero count, the larger symbol in case of ties |
| HuffmanGenerator.MergeInPlace | libjpeg/jchuff.c:1305-1323 | merging in the arrays keeps the chains disjoint and acyclic and does what a merge of groups does |
| HuffmanGenerator.BuildTree | libjpeg/jchuff.c:1265-1324 | the loop ends; the code sizes have Kraft sum exactly 1, are optimal, and are largest for the pseudo-symbol |
| HuffmanGenerator.OptimalIsComplete | libjpeg/jchuff.c:1326-1336 | the histogram of the code sizes is complete |
| HuffmanGenerator.CountLengths | libjpeg/jchuff.c:1326-1336 | counts the symbols of each length; fails exactly when one is over 32 |
| CodeLengths.LongestCountEven | libjpeg/jchuff.c:1349-1355 | the longest codes come in pairs, so `bits[i]` is even |
| CodeLengths.ShorterExists | libjpeg/jchuff.c:1351-1353 | a nonempty shorter length is always found, at 1 or above |
| CodeLengths.AdjustKeeps | libjpeg/jchuff.c:1355-1358 | an adjustment keeps the Kraft sum and the number of codes |
| CodeLengths.LimitStep | libjpeg/jchuff.c:1349-1360 | each round takes two codes from the longest length, gives one to the next shorter length, and splits one of the longest length in use that is at least two bits shorter |
| CodeLengths.LimitLengths | libjpeg/jchuff.c:1349-1360 | the loop computes exactly the procedure of figure K.3, ends with no length above 16, keeps the Kraft sum and the symbol count, and touches nothing when no length is above 16 |
| CodeLengths.RemoveLongest | libjpeg/jchuff.c:1362-1365 | one slot of the longest length in use is removed |
| CodeLengths.RemovedLeavesRoom | libjpeg/jchuff.c:1362-1365 | what remains leaves the all-ones code of the longest length unused |
| SymbolLists.ListingIs | libjpeg/jchuff.c:1374-1382 | the list holds each coded symbol once, by length and then number |
| HuffmanGenerator.ListSymbols | libjpeg/jchuff.c:1374-1382 | `huffval` is that list |
| HuffmanGenerator.GenOptimalTable | libjpeg/jchuff.c:1253-1386 | fails exactly when an optimal length exceeds 32; otherwise counts and list match, lengths are at most 16, and the sizes the table comes from are optimal |
| GeneratedTables.StartIsKraft | libjpeg/jchuff.c:206-221 | the code space used up by the first codes is their Kraft sum |
| GeneratedTables.GeneratedIsUsable | libjpeg/jchuff.c:206-245 | every generated table is accepted and gives every counted symbol a code |
| GeneratedTables.GeneratedIsOptimal | libjpeg/jchuff.c:1265-1386 | when no code had to be shortened the table's lengths are the optimal ones |
| TwoPass.TablesFor | libjpeg/jchuff.c:1394-1438 | from any counts of symbols a scan uses, the encoding and decoding tables are made, match, and code every counted symbol; the only failure is an optimal length over 32 |
| HuffmanCodes.PrefixFree | libjpeg/jchuff.c:206-221 | no code is a prefix of another |
| HuffmanCodes.CodesSucceed | libjpeg/jchuff.c:206-221 | the first code is zero, each code follows the one before it, and a longer one is the follower with zeros appended |
| HuffmanCodes.NotAllOnes | libjpeg/jchuff.c:215-219 | no code consists of ones only, and each fits its length |
| HuffmanCodes.ListSizes | libjpeg/jchuff.c:190-201 | the size list is that of the counts; more than 256 symbols are refused |
| HuffmanCodes.AssignCodes | libjpeg/jchuff.c:203-221 | succeeds exactly when the lengths describe a code tree with the all-ones code unused, and then the codes are the canonical ones |
| HuffmanCodes.FillBySymbol | libjpeg/jchuff.c:223-245 | refuses exactly duplicate and out-of-range symbols, and otherwise gives each symbol its code and size |
| HuffmanCodes.MakeEncodingTable | libjpeg/jchuff.c:161-246 | accepts exactly the usable tables |
| HuffmanCodes.LargestSymbol | libjpeg/jchuff.c:237-242 | a table of one symbol is accepted for any byte, but as a DC table only up to 15 |
| HuffmanDecoding.MaxcodeTest | libjpeg/jdhuff.c:608-613 | comparing with `maxcode` asks whether the window lies past all codes of that length |
| HuffmanDecoding.SerialFinds | libjpeg/jdhuff.c:592-627 | started anywhere up to its own length, the search stops at the code that starts the bits |
| HuffmanDecoding.SerialFails | libjpeg/jdhuff.c:619-624 | bits that start with no code consume 17 bits and give 0 |
| HuffmanDecoding.OffsetFinds | libjpeg/jdhuff.c:626 | `valoffset` turns the code into the entry's index |
| HuffmanDecoding.CodedSymbol | libjpeg/jdhuff.c:592-627 | bits that start with the code of entry p give `huffval[p]` |
| HuffmanDecoding.LookaheadAgrees | libjpeg/jdhuff.c:168-188 | the 8-bit lookahead with its slow start at 9 bits returns the same symbol and consumes the same bits as the bit-serial search from 1 bit, on every bit string |
| HuffmanDecoding.FillSerialTables | libjpeg/jdhuff.c:387-402 | `maxcode` and `valoffset` are filled as the search needs them |
| HuffmanDecoding.FillPatterns | libjpeg/jdhuff.c:418-423 | the entries written are exactly the bytes that start with the code |
| HuffmanDecoding.FillLookTables | libjpeg/jdhuff.c:404-425 | the lookahead tables hold an entry for every byte that starts with a code of at most 8 bits, and only those |
| HuffmanDecoding.MakeDecodingTable | libjpeg/jdhuff.c:323-440 | accepts exactly the tables whose codes fit, and fills all the tables |
| HuffmanDecoding.LargestSymbolRead | libjpeg/jdhuff.c:427-439 | the decoder has the same limit on DC symbols |
| BitWriter.Writer.EmitBits | libjpeg/jchuff.c:348-387 | appends exactly the n low bits, stuffing included, with at most 7 bits held between calls; fails only for size 0 |
| BitWriter.Writer.Flush | libjpeg/jchuff.c:390-407 | completes the last byte with ones and nothing else |
| Segments.PaddedWithOnes | libjpeg/jchuff.c:390-407 | a segment has less than a byte of padding, all of it ones |
| BitWriter.MergeBuffered | libjpeg/jchuff.c:363-372 | new bits merged below the held ones spell the concatenation |
| BitWriter.TakeByte | libjpeg/jchuff.c:374-383 | shifting out the top byte takes the first eight bits held |
| Values.ExtendInverts | libjpeg/jdhuff.c:573-578 | sign extension inverts the complement trick for every nonzero value; `Values.ExtendIncreases` leaves only one function that does |
| Values.ExtendIncreases | libjpeg/jdhuff.c:573-578 | the numbers of s bits stand, in increasing order, for the values whose magnitude has exactly s bits |
| Values.SendableIs | libjpeg/jchuff.c:930-960 | values may be sent exactly up to 1023 in magnitude, DC differences up to 2047 |
| BitReader.HoldMore | libjpeg/jdhuff.c:529-531 | shifting bytes into the 32-bit register keeps the held bits |
| BitReader.TakeBits | libjpeg/jdhuff.c:141-148 | peeking at and dropping n bits take them from the front |
| BitReader.NextByte | libjpeg/jdhuff.c:483-527 | on any source: a byte, or after a 0xFF and padding a stuffed 0xFF or a marker, or nothing exactly when the delivered input ends first |
| BitReader.FetchedNext | libjpeg/jdhuff.c:483-527 | within a segment that is its next data byte, or the marker that ends it |
| BitReader.Reader.Fill | libjpeg/jdhuff.c:465-562 | afterwards enough bits are held, with zeros made up only past the segment's end, and the bits still to come are unchanged; suspension only when input ran dry before a marker |
| BitReader.Reader.Receive | libjpeg/jdhuff.c:135-142 | returns the next n bits as a number, or suspends |
| BitReader.Reader.LookUp | libjpeg/jdhuff.c:168-188 | with 8 bits held, returns the symbol the code tables give, by lookahead or the slow way |
| BitReader.Reader.Slow | libjpeg/jdhuff.c:592-627 | decodes bit by bit from the given length on, with one more bit fetched at a time |
| BitReader.Reader.HuffSymbol | libjpeg/jdhuff.c:168-188 | the symbol and bits consumed are those of bit-serial decoding of the bits to come |
| BitReader.ScanToMarker | libjpeg/jdmarker.c:1011-1054 | skips to the next marker, counting skipped bytes, and a suspended call resumes without seeing them again |
| BitReader.Reader.NextMarker | libjpeg/jdmarker.c:1011-1054 | stops at the segment's terminating marker and reports what it skipped |
| BitReader.Reader.Restart | libjpeg/jdhuff.c:635-663 | what is left of the segment is thrown away and counted; the marker is swallowed exactly if it is the expected one, and then the next segment begins; a suspended call can be repeated |
| Segments.ScanHolds | libjpeg/jchuff.c:494-537 | what an encoder leaves behind, segment by segment with markers, is where a decoder looks for it |
| Segments.RestartMarkers | libjpeg/jchuff.c:494-537 | behind segment i of a scan stands the marker FF D0 to FF D7 that i modulo 8 selects |
| Restarts.SplitPartitions | libjpeg/jchuff.c:896-904 | the restart counter partitions the MCUs: all segments but the last are full |
| Restarts.SplitPrefix | libjpeg/jdhuff.c:651-681 | where an MCU-by-MCU process stands in the partition of the whole scan |
| ScanReader.ItemAhead | libjpeg/jdhuff.c:779-857 | before each item of a segment its bits come next |
| ScanReader.Here | libjpeg/jdhuff.c:651-681 | which item of which segment comes next, restarts included |
| ScanReader.Rewind | libjpeg/jdhuff.c:695-699 | going back to the state saved before an MCU restores position, bits and buffer |
| ScanReader.ScanReader.ProcessRestart | libjpeg/jdhuff.c:652-681 | takes the decoder to the first item of the next segment, or suspends with nothing lost |
| ScanReader.ScanReader.RestartIfDue | libjpeg/jdhuff.c:651-681 | a due restart is taken once, and a suspended one is taken later |
| BandPlan.StopAtSixteen | libjpeg/jchuff.c:841-852 | a ZRL put off owns exactly the correction bits gathered when it is emitted |
| BandPlan.ScanEnd | libjpeg/jchuff.c:882-891 | at the end of a band all codes are out and what is left is the tail |
| BandPlan.AddBlockSafe | libjpeg/jchuff.c:882-891 | between MCUs EOBRUN is below 0x7FFF, BE is at most 937, and no bits wait without a run |
| BandStream.RunKept | libjpeg/jchuff.c:882-891 | a block without codes only lengthens the run, and forces it out exactly when the counter reaches 0x7FFF or more than 937 bits wait |
| BandEncoder.Encoder.EmitEobrun | libjpeg/jchuff.c:464-487 | forces out the run with its bits; the check for more than 14 bits never fires |
| BandEncoder.Encoder.EmitBuffered | libjpeg/jchuff.c:445-456 | emits the buffered bits in order |
| BandEncoder.Encoder.Prepass | libjpeg/jchuff.c:811-827 | absolute values after the point transform, and the last newly nonzero coefficient |
| BandEncoder.Encoder.BufferBit | libjpeg/jchuff.c:859-863 | every write lands inside the 1000-entry buffer and the correction bits stay in order |
| BandEncoder.Encoder.EncodeMcuRefine | libjpeg/jchuff.c:783-907 | the lazy scan with its put-off ZRLs emits exactly the block's codes and joins its tail to the run |
| BandEncoder.Encoder.EncodeMcuFirst | libjpeg/jchuff.c:629-730 | emits exactly the codes of the values after the point transform, each forcing out the pending run, and counts trailing zeros into it; it fails exactly when a value exceeds MAX_COEF_BITS |
| BandEncoder.Encoder.EmitRestart | libjpeg/jchuff.c:516-537 | the pending run goes out, the segment ends with its marker, and the AC state is reset |
| BandEncoder.Encoder.Encode | libjpeg/jchuff.c:629-907 | one block more, restarts included, or an error exactly for a value out of range; a statistics pass has counted, and an output pass written, exactly the same tokens |
| BandEncoder.Encoder.Finish | libjpeg/jchuff.c:1070-1101 | the pending run goes out and the last segment is complete |
| BandStream.CloseOpen | libjpeg/jchuff.c:464-487 | forcing out a run closes it: its first block leads it and the others follow |
| BandStream.AddToOpen | libjpeg/jchuff.c:882-891 | every block keeps the encoder's state a closed stream plus one open run |
| BandStream.SegmentIsStream | libjpeg/jchuff.c:783-907 | the encoder's delayed output is a well-formed decoder stream, with end-of-band runs that span blocks |
| BandMeaning.EndSaid | libjpeg/jchuff.c:464-487 | the symbol and bits sent for a run of n bands stand for n bands |
| BandMeaning.FirstSaid | libjpeg/jchuff.c:655-730 | read symbol by symbol as section G.2.2 of T.81 has it, the codes of a first scan say the band's values after the point transform |
| BandMeaning.CodesSaid | libjpeg/jchuff.c:829-880 | read as section G.2.3 has it, the codes of a refinement say of each coefficient up to the last new one its correction bit, or whether it is new and its sign |
| BandMeaning.SegmentSaid | libjpeg/jchuff.c:629-907 | read block by block, with runs that span blocks, all the tokens of a finished segment say exactly every block's values or news, and leave no run and nothing unread |
| BandScan.EncodeScan | libjpeg/jchuff.c:629-907 | the statistics pass counts exactly the symbols the output pass sends; the passes stop exactly at a value out of range, and the output fails exactly for a missing code |
| BandDecoder.CorrectionIs | libjpeg/jdhuff.c:996-1003 | the test on the coded bit makes corrections idempotent, for both signs |
| BandDecoder.CodeHead | libjpeg/jdhuff.c:965-987 | what the next symbol is and what it announces, in a refinement scan |
| BandDecoder.FirstHeadIs | libjpeg/jdhuff.c:819-845 | what the next symbol is and what it announces, in a first scan |
| BandDecoder.Decoder.Correct | libjpeg/jdhuff.c:993-1003 | a corrected coefficient is exact to bit Al even if an earlier attempt had corrected it |
| BandDecoder.Decoder.NextCode | libjpeg/jdhuff.c:964-1018 | one code with the coefficients it passes over, or the start of a run |
| BandDecoder.Decoder.PassTail | libjpeg/jdhuff.c:1021-1044 | inside a run only corrections are read |
| BandDecoder.Decoder.Undo | libjpeg/jdhuff.c:1056-1061 | clearing the newly nonzero coefficients makes the block ready to start over |
| BandDecoder.Decoder.DecodeFirst | libjpeg/jdhuff.c:810-850 | a cleared band becomes the values sent, scaled back; what a suspended attempt stored does no harm |
| BandDecoder.Decoder.DecodeMcu | libjpeg/jdhuff.c:779-1062 | on success the band is exact to bit Al with EOBRUN and position advanced; on suspension position, bit buffer and EOBRUN are as before and the call can be repeated |
| BandScanDecoder.BlockAhead | libjpeg/jdhuff.c:914-1062 | each block's bits lie ahead of the decoder with the run the earlier blocks left |
| BandScanDecoder.ScanDecoder.Decode | libjpeg/jdhuff.c:779-1062 | with restarts: block n is decoded, or the decoder stands where it stood |
| BandScanDecoder.DecodeScan | libjpeg/jdhuff.c:779-1062 | whatever the portions in which input arrives, all blocks end with the same values |
| BandRoundTrip.ScanSparse | libjpeg/jchuff.c:629-907 | a statistics pass counts something, and leaves symbol values for the table's byte counts |
| BandRoundTrip.CodeAndDecode | libjpeg/jchuff.c:629-907 | the round trip of a first or refinement AC scan: statistics, tables, output and decoding, any restarts and any portions; exactly the values out of range are rejected, and a code is missing only if an optimal length exceeds 32 |
| TokenMeaning.DifferenceSaid | libjpeg/jchuff.c:925-958 | a DC difference is said by its size and bits, read as section F.2.2.1 of T.81 has it |
| TokenMeaning.BlockSaid | libjpeg/jchuff.c:961-1005 | the AC tokens of a block, read as section F.2.2.2 has it (run and size, 16 zeros, end of block), say its coefficients, whatever follows them |
| TokenMeaning.WholeSaid | libjpeg/jchuff.c:913-1005 | a sequential block says the difference from its prediction through its component's DC table and its coefficients through the AC table, and nothing else |
| TokenMeaning.DcSaid | libjpeg/jchuff.c:562-606 | a block of a first DC scan says the difference of its shifted value; of a refinement, the value's next bit in two's complement |
| Predictions.HuffmanPrediction | libjpeg/jchuff.c:1033-1043 | before any block of a segment the prediction is the DC value of the block of its component coded before it, in this MCU or the one before, and zero at the start |
| SequentialEncoder.EncodeOneBlock | libjpeg/jchuff.c:913-1005 | sends exactly the block's tokens; stops exactly for a value out of range or a missing code |
| SequentialEncoder.HtestOneBlock | libjpeg/jchuff.c:1119-1185 | counts exactly the symbols the output pass sends for the block, and refuses the same values |
| DcEncoder.EncodeDcFirst | libjpeg/jchuff.c:562-606 | sends exactly the tokens of the difference after the point transform; stops exactly for a difference out of range or a missing code |
| DcEncoder.GatherDcFirst | libjpeg/jchuff.c:562-606 | counts exactly the symbols the output pass sends, and refuses the same differences |
| DcEncoder.EncodeDcRefine | libjpeg/jchuff.c:756-760 | sends the Al'th bit of the value in two's complement |
| SequentialScan.EncodeBlock | libjpeg/jchuff.c:546-775 | a block of any form of scan: exactly its tokens, and the prediction for the next one |
| SequentialScan.Output.Encode | libjpeg/jchuff.c:1013-1062 | with restarts, for sequential and progressive DC scans: each MCU's tokens are written with the predictions of its segment |
| SequentialScan.Statistics.Gather | libjpeg/jchuff.c:1194-1222 | with restarts: each MCU's symbols are counted, table by table |
| SequentialScan.GatherScan | libjpeg/jchuff.c:1194-1222 | the counts of a scan are those of its tokens; it fails exactly for values that cannot be coded |
| SequentialScan.EncodeScan | libjpeg/jchuff.c:1013-1101 | the bytes of a scan are its segments' tokens, padded, with restart markers between |
| SequentialDecoder.AcStep | libjpeg/jdhuff.c:1254-1275 | the next symbol announces the run and size of the next nonzero coefficient, a ZRL, or the end of the block |
| SequentialDecoder.DecodeBlock | libjpeg/jdhuff.c:1230-1302 | the block is exact below its coefficient limit and the bits of the rest are skipped |
| DcDecoder.DecodeDcFirst | libjpeg/jdhuff.c:737-757 | the DC coefficient becomes the value known down to bit Al, or nothing has changed |
| DcDecoder.DecodeDcRefine | libjpeg/jdhuff.c:890-896 | the bit that was sent is set in the coefficient, or nothing has changed |
| DcDecoder.RefinedTwice | libjpeg/jdhuff.c:893-895 | setting the bit again changes nothing, so that repeated attempts are harmless |
| SequentialScanDecoder.DecodeBlocks | libjpeg/jdhuff.c:1222-1303 | all blocks of an MCU, each with its own tables and prediction; suspended attempts do no harm |
| SequentialSegments.Decoder.Decode | libjpeg/jdhuff.c:1199-1314 | with restarts: MCU n is decoded, or nothing has changed |
| SequentialRoundTrip.FinishGather | libjpeg/jchuff.c:1394-1438 | every table the scan uses is made once and codes all its symbols |
| SequentialRoundTrip.ClearedExpected | libjpeg/jdhuff.c:690-693 | blocks zeroed by the caller are as the decoder expects them, in every form of scan |
| SequentialRoundTrip.DecodeScan | libjpeg/jdhuff.c:1199-1314 | whatever the portions in which input arrives, the outcome is the same |
| SequentialRoundTrip.CodeAndDecode | libjpeg/jchuff.c:546-1222 | the round trip of a sequential or progressive DC scan: the statistics pass refuses exactly what cannot be coded, and otherwise every block comes back exactly below its limit, or its DC value down to the scan's bit |
| ScanScript.CheckComponents | libjpeg/jcmaster.c:391-402 | accepts exactly one to four component indexes in range and in ascending order |
| ScanScript.CheckComponent | libjpeg/jcmaster.c:432-448 | checks one component's coefficients against their last bits and records the new ones |
| ScanScript.CheckProgressive | libjpeg/jcmaster.c:422-448 | accepts exactly the scans that may come next in a progressive script |
| ScriptOrder.ProgressiveIsInOrder | libjpeg/jcmaster.c:352-483 | without any bookkeeping: a progressive script is acceptable if and only if each scan is well shaped, the first scan of a coefficient has Ah = 0, each later one has Ah equal to the Al before it and Al = Ah - 1, AC comes after DC, and every component gets some DC |
| ScanScript.DcAlone | libjpeg/jcmaster.c:391-431 | a script of one DC scan is accepted for one to four components and Al from 0 to 10, and no others |
| ScanScript.CheckFull | libjpeg/jcmaster.c:451-460 | accepts exactly full scans of components not sent before |
| ScanScript.ValidateScript | libjpeg/jcmaster.c:352-483 | accepts exactly the acceptable scripts, and says whether they are progressive |
| ScanScript.StepsAreSequential | libjpeg/jcmaster.c:454-460 | not sent twice, scan by scan, is the same as no two scans sharing a component |
| ScanScript.RefineIsKnown | libjpeg/jdarith.c:403-503 | refining by one bit is the same as sending one more bit at once |
| ScanScript.ScriptComposes | libjpeg/jcmaster.c:352-483 | the scans of an accepted script add up: every coefficient ends known down to the last bit sent, DC by arithmetic shift, AC truncated toward zero |
| SimpleProgression.FillAScan | libjpeg/jcparam.c:535-548 | fills one entry for one component and moves on |
| SimpleProgression.FillScans | libjpeg/jcparam.c:550-567 | fills one entry per component, in order |
| SimpleProgression.FillDcScans | libjpeg/jcparam.c:569-589 | one interleaved DC scan up to four components, else one per component |
| SimpleProgression.FillAllPurpose | libjpeg/jcparam.c:662-672 | the six passes in order: DC to bit 1, AC 1 to 5 and 6 to 63 to bit 2, AC to bit 1, DC to bit 0, AC to bit 0, ending exactly where the space counted ends, with all bits of all coefficients sent |
| SimpleProgression.FillYcc | libjpeg/jcparam.c:642-660 | each of the ten scans, with components, bands and bits: luma 1 to 5 right after DC, both chroma before the rest of luma, and the bottom bit of luma last; they are acceptable in that order and send everything |
| SimpleProgression.Compress.JpegSimpleProgression | libjpeg/jcparam.c:598-673 | fills exactly the entries counted, with the YCC script or the all-purpose one entry by entry, in space reused exactly if it suffices; the script is accepted if and only if there is a component, and every coefficient then comes back exactly |
| ScriptDecoding.ArithScansFit | libjpeg/jcmaster.c:352-483 | in an accepted script every arithmetic-coded scan finds the blocks as its routine expects and leaves the script's result |
| ScriptDecoding.HuffmanScansFit | libjpeg/jcmaster.c:352-483 | the same for Huffman-coded AC scans, first and refinement |
| HuffmanScript.DcFits | libjpeg/jdhuff.c:708-906 | the same for Huffman-coded DC scans, first and refinement |
| ScriptDecoding.OthersUntouched | libjpeg/jcmaster.c:391-402 | a scan leaves the components it does not name alone |
| ScriptImage.OneScanFurther | libjpeg/jcmaster.c:352-483 | after a scan the real blocks of the image are known as the script with this scan says |
| ScriptImage.ExactIsWhole | libjpeg/jcparam.c:598-673 | a script that sends everything, such as the recommended one, brings the image back |
| ArithScript.EncodeScript | libjpeg/jcarith.c:360-684 | one file with the data of every scan of the script, each where the decoder will look for it |
| ArithScript.CodeAndDecodeScript | libjpeg/jdarith.c:238-503 | every acceptable progressive script: decoding the file scan after scan from cleared blocks leaves in every real block exactly what the script has sent of it, interleaved filling blocks or not |
| HuffmanScript.CodeAndDecodeScript | libjpeg/jchuff.c:546-907 | the same for Huffman coding, every scan with tables from its own statistics and input in any portions; it stops only at a scan with a value out of range or an optimal length over 32 |
| ContextMain.MainController.MakeFunnyPointers | libjpeg/jdmainct.c:196-235 | the lists reach the workspace in the two orders, the first row repeated above in the first list |
| ContextMain.MainController.SetWraparoundPointers | libjpeg/jdmainct.c:239-263 | the ends of both lists wrap around |
| ContextMain.MainController.SetBottomPointers | libjpeg/jdmainct.c:267-300 | the last real row is repeated two row groups long, and the real row groups are counted |
| ContextRows.ShowsRow | libjpeg/jdmainct.c:418-435 | the current list shows the iMCU row just read and the row group above it |
| ContextRows.ShowsPostponed | libjpeg/jdmainct.c:407-413 | the postponed row group is seen between its true neighbours, across the two lists' orders |
| ContextRows.Flip | libjpeg/jdmainct.c:439-446 | turning to the other list finds the last two row groups, uncopied, where they are needed |
| ContextRows.ShowsBottom | libjpeg/jdmainct.c:267-300 | below the last real row its copies are seen |
| ContextMain.MainController.DecompressData | libjpeg/jdmainct.c:392-399 | reading the next iMCU row through the list overwrites none of the saved row groups, suspended attempts included |
| ContextMain.MainController.ProcessPostponed | libjpeg/jdmainct.c:407-416 | the postponed row group goes out once, with its context |
| ContextMain.MainController.Prepare | libjpeg/jdmainct.c:418-427 | makes the next row groups visible with their context, without any copying |
| ContextMain.MainController.TurnOver | libjpeg/jdmainct.c:436-446 | the state machine's invariant holds for the next iMCU row |
| ContextMain.MainController.ProcessData | libjpeg/jdmainct.c:386-448 | whatever the decoder gives and the output takes, the next row groups go out in order with their context, and nothing stands still unless input or room ran out |
| ContextMain.RunPass | libjpeg/jdmainct.c:386-448 | over a whole pass every real row group is delivered once and in order, for any sequence of output sizes and suspensions |
| ContextRows.NeighboursAreTrue | libjpeg/jdmainct.c:386-448 | the row group's own rows, the row group above and the row just below are those of the image with replicated edges |
| ContextRows.ContextHolds | libjpeg/jdmainct.c:267-300 | a whole row group of true context above and below, except just above a last iMCU row of less than one row group |
| ContextRows.ContextIsTrueWhen | libjpeg/jdmainct.c:54-61 | the promised context is there if and only if the row group is not one just above such a last iMCU row, or the padding rows that show are copies of the last real row |
| ContextRows.ContextCanFail | libjpeg/jdmainct.c:54-61 | an image of 17 rows, two to a row group, whose row group 7 is shown row 17, a padding row, where the promise is row 16 |
| ContextRows.ImageShape | libjpeg/jdmaster.c:159-162 | every image gives lists and counts that fit, and every component the same number of row groups |
| CompressRows.Compressor.CreateContextBuffer | libjpeg/jcprepct.c:269-308 | the row list wraps around the three row groups at both ends |
| PrepRows.Store | libjpeg/jcprepct.c:209-231 | storing the next row overwrites no row still needed |
| PrepRows.Advance | libjpeg/jcprepct.c:252-258 | moving on, the predecessor's place becomes the successor's |
| PrepRows.RowShown | libjpeg/jcprepct.c:197-261 | in the iMCU rows the compressor gets, every row of the image stands in its place between its true neighbours, the first and last rows being their own |
| CompressRows.Compressor.ConvertRows | libjpeg/jcprepct.c:209-231 | converts the next rows of the image, each once, and repeats the first one above the top |
| CompressRows.Compressor.ExpandBottomEdge | libjpeg/jcprepct.c:236-243 | below the bottom the last row is repeated |
| CompressRows.Compressor.DownsampleGroup | libjpeg/jcprepct.c:246-259 | the downsampler sees the next row group with true neighbouring rows |
| CompressRows.Compressor.PreProcessContext | libjpeg/jcprepct.c:197-261 | makes row groups until the iMCU row is full or the input is used up |
| CompressRows.Compressor.ProcessData | libjpeg/jcmainct.c:114-159 | rows reported as consumed are those converted, less the one held back while the compressor is suspended; the counter never drops below zero |
| CompressRows.Compressor.JpegWriteScanlines | libjpeg/jcapistd.c:78-112 | `next_scanline` advances by the rows taken; with a willing compressor all rows offered are taken |
| CompressRows.Compressor.CompleteWhenSent | libjpeg/jcmainct.c:136-155 | `next_scanline` equals the image height exactly when the compressor has every iMCU row |
| CompressRows.WriteImage | libjpeg/jcapistd.c:78-112 | for any slices and any suspensions, each row is converted once and the compressor gets the same iMCU rows, those of the image with replicated edges |
| CompressRows.TotalRows | libjpeg/jcmaster.c:52-346 | `total_iMCU_rows` is the number of iMCU rows that hold the image, whatever the scaling |
| McuLayout.RealRows | libjpeg/jcmaster.c:588-593 | the last iMCU row holds between 1 and `v_samp_factor` block rows of each component, as `last_row_height` says |
| McuLayout.RealColumns | libjpeg/jcmaster.c:623-626 | `last_col_width` and MCU width count the real blocks of a row of an MCU, at least one |
| McuLayout.Dimensions | libjpeg/jcmaster.c:318-345 | whatever the sampling factors, the last iMCU row and MCU column of a component are never empty |
| McuLayout.McuFits | libjpeg/jcmaster.c:630-633 | the blocks of an MCU fit in its buffer |
| McuLayout.DummyFollows | libjpeg/jccoefct.c:185-200 | the DC value of a dummy block is that of the block before it in its MCU |
| McuBuilders.OnePassRow | libjpeg/jccoefct.c:178-203 | a row of an MCU: its real blocks, and dummy ones at the right or bottom edge |
| McuBuilders.OutputRow | libjpeg/jccoefct.c:378-383 | a row of an MCU taken from the full-image buffer |
| McuBuilders.TranscodeRow | libjpeg/jctrans.c:309-331 | a row of an MCU from the coefficient arrays, dummy blocks made in the workspace, whose AC entries stay zero |
| FullImageBuffer.FillRealRow | libjpeg/jccoefct.c:286-300 | a block row with its dummy blocks at the right edge |
| FullImageBuffer.FillDummyRow | libjpeg/jccoefct.c:306-323 | a dummy block row, each MCU with the DC value of its last real block |
| FullImageBuffer.FirstPassComponent | libjpeg/jccoefct.c:261-325 | an iMCU row of a component is filled, and all others are left alone |
| CoefController.Controller.BuildMcu | libjpeg/jccoefct.c:169-204 | in every mode the blocks handed to `encode_mcu` are those of the padded image |
| CoefController.Controller.CompressOutput | libjpeg/jccoefct.c:346-400 | MCUs go out in order; after a suspension the next call continues with the same MCU |
| CoefController.Controller.FirstPass | libjpeg/jccoefct.c:249-326 | redoing the first pass of an iMCU row after a suspension does no harm |
| CoefController.Controller.CompressData | libjpeg/jccoefct.c:144-332 | one iMCU row is completed, or some MCUs of it, in each of the modes |
| CoefController.CodePass | libjpeg/jctrans.c:275-348 | a whole pass hands over the MCUs of the scan from the first on, and all of them in the end, under any suspensions; `McuCoverage` says block by block what they are |
| CoefController.BuildersAgree | libjpeg/jccoefct.c:144-400 | one-pass compression, buffered compression and transcoding hand over identical blocks in identical order: every block of the image in its place, by `McuCoverage.SingleComponent` and `McuCoverage.SeveralComponents` |
| McuCoverage.SingleComponent | libjpeg/jcmaster.c:573-593 | a scan of one component hands over height times width MCUs, MCU r * width + x being real block (r, x): each real block once, and nothing else, whatever the sampling factors |
| McuCoverage.SeveralComponents | libjpeg/jcmaster.c:595-637 | a scan of several components hands over one MCU per iMCU row and column; block (r, x) of a component stands in MCU (r / v) * across + x / h at (r % v) * h + x % h behind the components before it, real blocks as they are and each dummy block with the DC value of the block before it |
| FrameSlots.SlotsFetched | libjpeg/jccoefct.c:144-400 | the MCUs a coefficient controller hands over for a scan are, MCU by MCU and block by block, the entries of the padded coefficient arrays that the scan's slots name, no two slots naming the same |
| FrameSlots.SlotsServe | libjpeg/jcmaster.c:568-637 | for every scan that may stand in a script, its slots name every real block of its components, and in an AC scan no others |
| FrameScripts.ArithImage | libjpeg/jcarith.c:360-684 | from the real blocks of a frame to those of the decoded arrays: the MCUs of every scan of an acceptable progressive script, coded into one file and decoded scan after scan, leave each real block known as far as the script has sent it |
| FrameScripts.HuffmanImage | libjpeg/jchuff.c:546-907 | the same by the Huffman coder, stopping only at a scan with a value out of range or an optimal code too long |
| FrameScripts.WholeFrame | libjpeg/jcparam.c:598-673 | with a script that sends everything, such as the recommended one, every real block is back |

## Left out

- BandDecoder.Decoder.DecodeMcu: coefficients are unbounded, so the conversion to `JCOEF` is not modelled.
- ArithScanDecoder.CodeAndDecode: the arithmetic decoder's error state after corrupt data is an outcome `ok = false` that valid scans are shown not to reach; its byte source never suspends, as in the code.
- HuffmanGenerator.GenOptimalTable: `bits[]` has one byte per length, so at most 254 real symbols may be counted; the scan types are shown to use fewer. Counts are bounded by the search limit 1000000000.
- HuffmanScript.CodeAndDecodeScript: each scan is decoded from its own source, with any bytes around it, where `ArithScript.CodeAndDecodeScript` has one file; blocks that only fill up interleaved MCUs are coded, but nothing is said of them.
- HuffmanCodes.ListSizes: the size and code lists grow, instead of being arrays of 257 entries filled in place.
- BitWriter.Writer.EmitBits: output suspension of the Huffman encoder (`dump_buffer_s`) is not modelled; the destination takes every byte.
- BitReader.Reader.Restart: what happens after a wrong marker (`jpeg_resync_to_restart`) and the warnings for corrupt data are left out; that the marker is wrong is an outcome.
- SequentialDecoder.DecodeBlock: full-size blocks (`decode_mcu`); the reduced-size path `decode_mcu_sub` and the bits a sequential progressive-size limit would skip are left out.
- ScanReader.ScanReader.RestartIfDue: the working copy of the bit reader's state is the reader itself, restored on suspension.
- SimpleProgression.Compress.JpegSimpleProgression: the space allocated is exact in entries; the memory pools are not modelled.
- ScanScript.ValidateScript: `reduce_script` and the choice of a default script are left out.
- ContextMain.MainController.ProcessData: one component; the control state is shared by all, which `ContextRows.ImageShape` shows to be sound. Row groups count as consumed when the consumer has finished with them, and the consumer is any that stops only when its output is full.
- CompressRows.Compressor.PreProcessContext: a row stands for the rows of all components, which are treated alike; downsampling itself is not modelled, only what it is shown. The preprocessor without context rows (`pre_process_data`) is left out: it has one row group and no wraparound.
- CoefController.CodePass: the DCT is abstracted to the blocks it yields, and the virtual arrays to arrays held in memory.
- Statistics areas of the arithmetic coder are a map from bins, started at zero when first used.
- Marker writing and reading other than restart markers, quantization, colour conversion, sampling, the DCT and everything outside `libjpeg/` are left out.
