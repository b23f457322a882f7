# JPEG entropy coding, nearest-neighbour trees and the context-row buffer

A Dafny model of three parts of the third-party code that the cgv framework carries:

- **JPEG entropy coding** (`3rd/jpeg`, sections F, G and K.2 of ITU-T T.81): Huffman tables, bit packing,
  sequential and progressive coding, scan scripts, suspension, and optimal table generation.
  `jpeg_natural_order` is the table of 3rd/jpeg/jutils.c:53-66; samples have 8 bits.
- **The ANN index** (`3rd/ANN`): kd- and bd-trees, their construction, three searches, brute force, and the
  dump format. Coordinates are `real`.
- **The context-row controller** of the decompressor (`3rd/jpeg/jdmainct.c`).

Code that changes state in the source is a class or a method with loops here, proved against a specification
function on values; the theorems are about those functions and so hold of the running code.

## How the parts fit together

*Progressive JPEG.* `Tokens` has the stream of symbols, raw bits and restart markers and the EOB-run
bookkeeping; `AcFirst`, `AcRefine`, `AcScan` and `DcScan` say what the encoder emits for a block, an MCU and a
scan, what the decoder does with it, and that it gains exactly one bit of precision. `ScanScript` is the script
checker and `ProgressiveImage` the theorem over all accepted scripts. `ProgressiveEncoder`, `DcEncoder`,
`ProgressiveDecoder` and `DcDecoder` are the objects as the source runs them, with the statistics mode, the
buffered correction bits, restart counters and the undo of a suspended refinement; `AcSuspend` and `DcScan`
prove that retrying is harmless, and `ProgressiveRoundTrip` and `DcRoundTrip` run the objects over whole scans.
`TokenBytes`, `AcBits`, `DcBits` and `ProgressiveBytes` carry the scans through Huffman codes to bytes and back;
`AcEmissions`, `ProgressiveOptimal` and `DcOptimal` close the loop with optimal tables. `TokenReader`, `AcReader`,
`DcReader` and `ProgressiveStream` are the decoder on its real input, symbol by symbol through the bit buffer with
part of the bytes still to arrive, and `AcArrival` and `DcArrival` take a scan from its coefficients through
statistics, tables, bytes and arbitrary arrivals back to its coefficients. `StandardScripts` makes the scripts of
`jpeg_simple_progression` and proves them accepted and complete, and says without any running state which scripts
are accepted.

*Reference coding.* `PlainCodes` and `PlainScans` write down by position what a number, a block and a scan are coded
as, without predictions, pending runs or counters carried along, and prove that the encoders' specification is that.

*Huffman codes and bits.* `HuffmanCodes` and `DerivedTables` derive the canonical codes; `HuffmanDecoding`
fills the decoder's tables; `BitPacking`, `BitWriter` and `BitReader` are the stuffed bytes, the 24-bit put
buffer and the 32-bit get buffer with its fast and slow decoding paths.

*Sequential JPEG.* `SequentialScan` and `SequentialStream` take blocks to bytes and back,
`SequentialSuspend` covers a call that runs out of input, `SequentialEncoder`, `SequentialDecoder` and
`SequentialStatistics` are the objects, and `SequentialRoundTrip` runs them back to back.

*Optimal tables.* `HuffmanTree` proves the merge of two least counts optimal among all code trees, `CodeSizes`
the chained-array merge loop, `LengthLimit` the limit of 16 bits, `OptimalTable` the whole generator, and
`OptimalCoding` with `SymbolStatistics` gathering, table making and encoding in one.

*ANN.* `Geometry` and `BoundLists` hold distances, boxes and bound lists; `SpatialTrees` says what a tree fit for
searching is; `NearestLists` what it means for a list to hold the k nearest; `KSmallest`, `PriorityQueues`,
`StandardSearch`, `PrioritySearch`, `FixedRadius` and `BruteForce` are the searches, and `SearchAgreement`
compares them. `PointPartition`, `Splitters`, `TreeBuilder`, `ShrinkRules` and `BdBuilder` build the trees that
the searches require, and `TreeRules` says of a finished tree that the chosen rules made it; `TreeDump` and `TreeFile` write and load them, and `TreeRoundTrip` builds, dumps and loads in one.

## Findings

Where the code does not do what its comments say, or differs from its sibling routines, the model follows the code.

- **Context below the last put-off row group** (3rd/jpeg/jdmainct.c:384-447). The last row group of the
  next-to-last iMCU row is handed on before `set_bottom_pointers` runs. If the last iMCU row has fewer real
  rows than one row group, the rows below it are partly not of the picture, although the controller
  promises the last real row duplicated (3rd/jpeg/jdmainct.c:53-59). `ContextRows.TrueNeighbours` proves that
  this happens if and only if there is more than one iMCU row and the last one is that short;
  `ContextRows.OneRowLeft` names a picture of 17 rows.
- **Simple shrinking can shrink for ever** (3rd/ANN/bd_tree.cpp:165-220). The comment says that it cannot shrink
  twice in a row. When all points of a node coincide the longest side is 0, every gap counts, and the node
  shrinks to the same points again. `BdBuilder.BuildBdTree` proves that it ends whenever no more than a bucket
  of points coincide, and never when more points than a bucket holds all coincide.
- **Dumping a tree built without points** (3rd/ANN/kd_dump.cpp:107-137). The format promises a line "null" for a tree
  without nodes (3rd/ANN/kd_dump.cpp:91-92), but the bounding box is printed before it, and a tree built without
  points has none (3rd/ANN/kd_tree.cpp:268 and 377). `TreeFile.Dump` proves that dumping succeeds if and only if the
  tree has a box of its dimension, `TreeRoundTrip.NoBoxNoDump` that the built tree fails in every dimension above 0,
  and `TreeRoundTrip.KdRoundTrip` that a built kd-tree is dumped and loaded back if and only if it has points. A
  tree that was loaded from a dump with the line "null" has a box (3rd/ANN/kd_dump.cpp:214-217 and 322-330), and
  `TreeRoundTrip.DumpThenLoad` shows that it is dumped and loaded like any other.
- **Priority search does not check k** (3rd/ANN/kd_pr_search.cpp:87-123), although standard search (3rd/ANN/kd_search.cpp:102-104)
  and brute force (3rd/ANN/brute.cpp:64-66) refuse a k above the number of points. `PrioritySearch.KSearch` proves
  that exactly the places from the number of points on keep the empty index and the infinite distance.
- **A dump without points** (3rd/ANN/kd_dump.cpp:107-137) is written but always refused on loading
  (3rd/ANN/kd_dump.cpp:305-308); `TreeFile.ReadDump` proves both.

## Model

| member | source | states |
|---|---|---|
| ProgressiveImage.ScriptDecodes | 3rd/jpeg/jcmaster.c:122-250 | for every image of 8-bit data and every progressive script the checker accepts, decoding the first n scans succeeds and shows each coefficient at the last bit position sent for it: floor shift for DC, magnitude shift for AC, 0 if not sent |
| ProgressiveImage.ExactWhenAlZero | 3rd/jpeg/jcmaster.c:206-227 | a coefficient whose last bit position is 0 comes out exactly |
| ProgressiveBytes.ScriptDecodesFromBytes | 3rd/jpeg/jdphuff.c:285-633 | the same image theorem when every scan is written as bytes with its own legal tables and read back from those bytes, whatever marker follows |
| ScanScript.ValidateScript | 3rd/jpeg/jcmaster.c:122-250 | accepts exactly the scripts that meet the component, parameter, progression and completeness rules, and tells progressive ones apart |
| StandardScripts.AcceptedExactly | 3rd/jpeg/jcmaster.c:122-250 | a script that starts as a progressive one is accepted exactly when each scan has 1 to 4 components in order, a band of the DC term or of AC coefficients of one component and bit positions up to 10, each coefficient is sent first with Ah 0 and then one bit at a time, AC scans follow a DC scan of their component, and every component has a DC scan |
| StandardScripts.SequentialExactly | 3rd/jpeg/jcmaster.c:231-250 | a script that starts as a sequential one is accepted exactly when all its scans are sequential with 1 to 4 components in order and every component is in one scan and no other |
| StandardScripts.SimpleProgression | 3rd/jpeg/jcparam.c:537-608 | the script it makes for 1 to 10 components has as many scans as it asked space for, is accepted as progressive, and sends every coefficient down to its last bit |
| StandardScripts.YcbcrAccepted | 3rd/jpeg/jcparam.c:577-595 | the ten scans for YCbCr, written out with their components, are accepted for three components, and are complete |
| StandardScripts.AllPurposeAccepted | 3rd/jpeg/jcparam.c:596-607 | the all-purpose script is accepted for any number of components, with one DC scan for all of them up to four, and is complete |
| StandardScripts.OneDcScan | 3rd/jpeg/jcmaster.c:168-205 | one DC scan of all components is a script exactly for 1 to 4 components and bit positions 0 to 10 |
| StandardScripts.OneSequentialScan | 3rd/jpeg/jcmaster.c:290-304 | the single interleaved scan of all components is accepted as sequential exactly for 1 to 4 components |
| StandardScripts.Refused | 3rd/jpeg/jcmaster.c:168-197 | a script with a scan of five components, or a progressive one with a bit position above 10, is refused |
| StandardScripts.StandardExact | 3rd/jpeg/jcparam.c:537-608 | any image of 8-bit data sent with the library's own progressive script comes out exactly |
| AcScan.ScanDecodes | 3rd/jpeg/jdphuff.c:359-633 | a whole AC scan, first or refining, with EOB runs across blocks, ZRLs, deferred correction bits and restarts, is inverted; each block then shows bit al and is otherwise unchanged |
| DcScan.ScanDecodes | 3rd/jpeg/jdphuff.c:285-482 | a DC scan, first or refining, is inverted for every block, restart and prediction |
| AcSuspend.ArrivalIndependent | 3rd/jpeg/jdphuff.c:490-633 | an AC block decoded by any number of suspended calls and a last one equals one call on all input, although correction bits stay and new coefficients are undone |
| DcScan.ArrivalIndependent | 3rd/jpeg/jdphuff.c:285-482 | the same for the MCU of a DC scan |
| Tokens.RunSplit | 3rd/jpeg/jcphuff.c:315-339 | a pending run leaves as one EOBn symbol that counts the pending and the joining blocks, followed by all their correction bits, and never exceeds 0x7FFF |
| Tokens.EobValue | 3rd/jpeg/jcphuff.c:315-339 | the exponent is at most 14, and two to the exponent plus the low bits sent gives the run back |
| Tokens.RunEnds | 3rd/jpeg/jcphuff.c:347-369 | before a restart, the end of the scan or a block with symbols of its own the pending run goes first and the state starts empty |
| Tokens.StepKeepsRunOk | 3rd/jpeg/jcphuff.c:705-722 | after every block the correction-bit buffer has room for another block, and correction bits are held only while a run is pending |
| AcEmissions.PassRegular | 3rd/jpeg/jcphuff.c:452-745 | every symbol of an AC scan is a byte of the scan's table with at most 10 value bits, every bit string has 1 to 14 bits and fits, markers are RST0 to RST7 |
| ProgressiveEncoder.CountThenEncode | 3rd/jpeg/jcphuff.c:281-339 | it fails exactly when a coefficient is out of range; otherwise the output pass emits the specified tokens and the statistics pass has counted exactly them |
| ProgressiveEncoder.Encoder.EncodeScan | 3rd/jpeg/jcphuff.c:452-765 | the encoder object, with its bit buffer, EOB counter and restart counter, emits the specified tokens of an AC scan in either mode |
| DcEncoder.Encoder.EncodeScan | 3rd/jpeg/jcphuff.c:376-603 | the DC encoder emits the specified tokens, and fails exactly when a difference is out of range |
| DcEncoder.NeverFails | 3rd/jpeg/jcphuff.c:405-435 | for 8-bit data the range check on DC differences never fires, over all MCUs and restarts |
| PlainScans.DcIsPlain | 3rd/jpeg/jcphuff.c:376-603 | in a DC scan each block is sent as the difference to the nearest block of its component before it, back to the last restart, both rounded down to bit al, the first one as its own value, and in a refinement as bit al; before every interval-th MCU stands a marker, numbered from 0 modulo 8 |
| PlainScans.AcIsPlain | 3rd/jpeg/jcphuff.c:452-745 | an AC scan of either kind consists of its blocks coded by position, with the markers at their places |
| PlainCodes.FirstIsPlain | 3rd/jpeg/jcphuff.c:488-545 | in a first scan each coefficient that does not vanish is sent as its size and its bits with the zeros before it as run length, 16 at a time by the symbol F0, and the block ends with an EOB exactly when the last coefficient vanishes |
| PlainCodes.RefinementIsPlain | 3rd/jpeg/jcphuff.c:640-722 | in a refinement each coefficient that becomes nonzero is sent with the still zero ones before it and its sign, 1 for positive; the correction bits follow the next symbol; sixteens are sent only while a new coefficient is to come; an EOB ends the block exactly when the last coefficient is not new |
| PlainCodes.RunPlain | 3rd/jpeg/jcphuff.c:315-339 | a run of 2^n to 2^(n+1) - 1 blocks is the symbol with run length n and size 0, the n low bits, and the correction bits |
| PlainCodes.RestartsSpread | 3rd/jpeg/jcphuff.c:391-452 | counting down the interval puts a marker before exactly the MCUs at positive multiples of it, numbered from 0 modulo 8 |
| PlainCodes.NumberCoded | 3rd/jpeg/jchuff.c:362-388 | the size of a number is its category in Tables F.1 and F.2 of ITU-T T.81, its bits are the number or the complement of its absolute value, no other size codes it, and HUFF_EXTEND gives it back |
| PlainCodes.SizeLimits | 3rd/jpeg/jchuff.c:377-421 | the range checks refuse exactly AC values from 1024 on and DC differences from 2048 on, in absolute value |
| PlainCodes.ShownNear | 3rd/jpeg/jcphuff.c:400-409 | a coefficient known down to bit al is a multiple of 2^al, less than 2^al away, towards zero with its sign for AC and below for DC |
| PlainScans.StreamSegments | 3rd/jpeg/jcphuff.c:347-369 | tokens without a marker become one segment of their bits, and a marker ends it with FF and D0 to D7 and starts another |
| ProgressiveDecoder.Decoder.DecodeScan | 3rd/jpeg/jdphuff.c:359-633 | the AC decoder object, on blocks in natural order and in place, leaves what the specification decodes, over a whole scan |
| DcDecoder.Decoder.DecodeNext | 3rd/jpeg/jdphuff.c:225-482 | one DC MCU with its restart: the new DC terms, predictions, counters and input position, and which of them a suspended call keeps |
| DcRoundTrip.DecodeWhole | 3rd/jpeg/jdphuff.c:225-482 | the DC decoder object over a whole scan of MCUs and restarts leaves what the specification decodes, and touches nothing but DC terms |
| DcRoundTrip.EncodeThenDecode | 3rd/jpeg/jcphuff.c:376-603 | running encoder and decoder object over a DC scan fails exactly when a difference is out of range, and otherwise brings every DC term to bit al of its source |
| TokenReader.NextSym | 3rd/jpeg/jdhuff.h:176-196 | with only part of the input there, HUFF_DECODE either runs out of input before a marker or returns the symbol that the complete input holds, leaving what follows it there |
| AcReader.DecodeBlock | 3rd/jpeg/jdphuff.c:357-633 | a block of an AC scan, first or refining, decoded in place through the bit buffer: finished, it has read exactly its tokens and holds what they decode to; out of input, it holds the block from which retrying is harmless |
| DcReader.DecodeMcu | 3rd/jpeg/jdphuff.c:286-482 | the same for the DC terms of an MCU |
| ProgressiveStream.Decoder.DecodeAc | 3rd/jpeg/jdphuff.c:228-633 | an MCU of an AC scan with its restart: input, bit buffer, EOB run and counters are committed when it is finished, and a call out of input changes nothing of what the rest of the scan decodes to |
| ProgressiveStream.Decoder.DecodeDc | 3rd/jpeg/jdphuff.c:228-482 | the same for an MCU of a DC scan and its predictions |
| AcArrival.DecodeArriving | 3rd/jpeg/jdphuff.c:228-633 | a whole AC scan decoded in place from bytes in any pieces gives what one decoding of its tokens gives, and is left unfinished only if no marker ends the input |
| AcArrival.ThereAndBack | 3rd/jpeg/jdphuff.c:357-633 | statistics, optimal table, bytes, arrival in pieces of any sizes, decoding in place: every target block shows its source down to bit al; only a coefficient out of range or a code above 32 bits fails |
| DcArrival.DecodeArriving | 3rd/jpeg/jdphuff.c:228-482 | the same for a DC scan, with nothing but DC terms touched |
| DcArrival.ThereAndBack | 3rd/jpeg/jdphuff.c:286-482 | statistics, optimal tables, bytes, arrival in pieces of any sizes, decoding in place of a DC scan; only a difference out of range or a code above 32 bits fails |
| ProgressiveRoundTrip.EncodeThenDecode | 3rd/jpeg/jcphuff.c:452-765 | running encoder and decoder object over an AC scan succeeds and brings every target block to bit al of its source |
| TokenBytes.Found | 3rd/jpeg/jdhuff.h:120-196 | from the bytes of a scan a reader that makes the same requests gets the same symbols, bits and markers, and is left with at most 7 padding bits, the next marker and the input after it |
| TokenBytes.Send | 3rd/jpeg/jcphuff.c:226-271 | emitting symbols, bits and restarts one by one writes exactly the bytes of the scan |
| AcBits.PassDecodes | 3rd/jpeg/jdphuff.c:359-633 | an AC scan read bit by bit from its bytes gives every block its coefficients down to bit al |
| DcBits.PassDecodes | 3rd/jpeg/jdphuff.c:285-482 | a DC scan read bit by bit from its bytes gives every block its value down to bit al |
| ProgressiveOptimal.OptimiseThenSend | 3rd/jpeg/jcphuff.c:767-811 | statistics pass, optimal table and output pass of an AC scan: it fails only for a coefficient out of range or a code above 32 bits; otherwise the table comes from a least-cost code, no symbol lacks a code and the bytes are those of the scan |
| DcOptimal.OptimiseThenSend | 3rd/jpeg/jcphuff.c:767-811 | the same for a DC scan: one optimal table for each table number of its components, none in a refinement |
| Coefficients.NaturalOrderIsZigzag | 3rd/jpeg/jutils.c:53-66 | the order table lists 64 different positions from 0, and its 16 spare entries repeat the last one, so that a position past the end stays in the block |
| Coefficients.ZigzagWalk | 3rd/jpeg/jutils.c:53-66 | the table follows Figure 5 of ITU-T T.81 from corner to corner: up to the right on even diagonals, down to the left on odd ones, turning at the edges |
| Coefficients.MagnitudeRoundTrip | 3rd/jpeg/jdhuff.c:440-460 | HUFF_EXTEND undoes the value bits that are sent for a nonzero number, of any size |
| HuffmanCodes.FitsIffKraft | 3rd/jpeg/jchuff.c:213-235 | the canonical codes fit their lengths exactly when the Kraft sum is below 1 |
| HuffmanCodes.PrefixFree | 3rd/jpeg/jchuff.c:213-235 | no code is a prefix of another and none is all ones |
| HuffmanCodes.NextCode | 3rd/jpeg/jchuff.c:213-235 | the first code is 0, and each next one is one more, shifted by as many bits as it is longer |
| HuffmanCodes.CodesOfLength | 3rd/jpeg/jchuff.c:208-221 | the codes of each length are as many places in a row as the table counts for it |
| DerivedTables.MakeCDerived | 3rd/jpeg/jchuff.c:178-264 | accepts exactly the legal tables, and codes each listed symbol with the canonical code of its place |
| DerivedTables.StandardDcTables | 3rd/jpeg/jcparam.c:183-192 | the two standard DC tables, written out, are accepted |
| DerivedTables.OneCode | 3rd/jpeg/jchuff.c:248-263 | a table with one code is accepted for AC with any symbol and for DC exactly up to symbol 15 |
| HuffmanDecoding.MakeDDerived | 3rd/jpeg/jdhuff.c:149-263 | accepts exactly the tables a decoder may use (symbols may repeat), and fills maxcode, valoffset and the lookahead table correctly |
| HuffmanDecoding.SymbolRoundTrip | 3rd/jpeg/jdhuff.c:193-251 | what the encoder's table writes for a symbol is read back as that symbol, using up exactly its code |
| BitReader.Reader.HuffDecode | 3rd/jpeg/jdhuff.h:176-196 | the lookahead path, the 9-bit and the 1-bit path all return the symbol whose code heads the coming bits and use exactly its length; bits run short only if the coming bits hold no code |
| BitReader.Reader.FillBitBuffer | 3rd/jpeg/jdhuff.c:291-389 | filling changes no coming bit; it fails only when input ends before a marker with fewer than 25 bits left, and then changes nothing; it invents zeros only after a marker when the request cannot be met |
| BitWriter.Writer.EmitBits | 3rd/jpeg/jchuff.c:300-338 | appends the low bits of the code to the segment, keeps at most 7 bits back, and fails exactly for size 0 |
| BitWriter.Writer.FlushBits | 3rd/jpeg/jchuff.c:341-349 | fills the last byte with ones and leaves the buffer empty |
| BitPacking.DataOfStuffed | 3rd/jpeg/jdhuff.c:317-345 | unstuffing undoes stuffing, whatever follows |
| BitPacking.NoMarkerInside | 3rd/jpeg/jchuff.c:322-330 | every FF of the packed data is followed by a zero byte |
| BitPacking.StuffedOne | 3rd/jpeg/jchuff.c:322-330 | each byte is written once, an FF with a zero byte after it, and nothing else is added |
| BitPacking.PackedByte | 3rd/jpeg/jchuff.c:312-334 | the i-th byte holds the i-th eight bits, the first of them as the highest |
| BitStrings.BitOfNumber | 3rd/jpeg/jchuff.c:300-320 | the bits of a code go out with the most significant one first |
| SequentialScan.McuTaken | 3rd/jpeg/jdhuff.c:517-627 | an MCU decodes from its bits to its own blocks and predictions, and leaves the bits after it |
| SequentialStream.ScanTaken | 3rd/jpeg/jdhuff.c:467-627 | from the bytes of a scan with restarts, decoding into zeroed blocks gives every block back |
| SequentialStream.OnlyRestarts | 3rd/jpeg/jchuff.c:300-349 | an FF in the bytes of a scan is followed by 00 or by D0 to D7 |
| SequentialDecoder.StoppedRetryable | 3rd/jpeg/jdhuff.c:517-627 | wherever a call ran out of input, between blocks or after any number of AC codes of one, retrying with more bits on the blocks it left gives what one call on the untouched blocks gives |
| SequentialEncoder.Encoder.EncodeScan | 3rd/jpeg/jchuff.c:352-553 | the encoder object succeeds exactly when every MCU can be coded with its tables, and then writes the bytes of the scan |
| PlainScans.SequentialIsPlain | 3rd/jpeg/jchuff.c:352-553 | the bytes of a scan are those of its blocks coded by position: the DC term as the difference to the nearest block of its component before it, back to the last restart, each nonzero AC value with the zeros before it, an EOB unless the last one is nonzero; segments filled up with ones, stuffed, and divided by the markers FF D0 to FF D7 in turn |
| PlainScans.OneBlock | 3rd/jpeg/jchuff.c:158-163 | a scan of one block sends the block's own DC value |
| PlainScans.TwoSegments | 3rd/jpeg/jchuff.c:451-467 | after a restart the next block sends its own DC value too, behind FF D0 |
| SequentialDecoder.Decoder.DecodeNext | 3rd/jpeg/jdhuff.c:467-627 | one MCU with its restart: blocks, predictions, counters and stream as specified; suspended, out of data and wrong marker told apart, each with what it keeps |
| SequentialRoundTrip.DecodeArriving | 3rd/jpeg/jdhuff.c:291-389 | however input arrives, the blocks, predictions and the rest of the stream with its ending marker are those of one call; it stays suspended only when all has been used, no marker has come and the MCU is incomplete or has fewer than 25 bits after it; zeros are invented only when one call would be short |
| SequentialRoundTrip.EncodeThenDecode | 3rd/jpeg/jchuff.c:352-553 | it succeeds exactly when all tables are legal and every MCU can be coded; then every block is restored and decoding stops at the end marker with at most 7 padding bits |
| SequentialStatistics.Gatherer.GatherScan | 3rd/jpeg/jchuff.c:571-673 | it fails exactly when a coefficient is out of range; otherwise each counter is the number of times the output pass emits the symbol |
| HuffmanTree.MergeBound | 3rd/jpeg/jchuff.c:728-776 | a lower bound for the counts after merging two least ones, plus their sum, is a lower bound over all code trees for the counts before |
| CodeSizes.MergeLoop | 3rd/jpeg/jchuff.c:693-776 | the code sizes from the chained arrays are the depths in one full tree over the used symbols and symbol 256, of least total cost among all such trees, and symbol 256 is among the deepest |
| LengthLimit.Limit | 3rd/jpeg/jchuff.c:791-817 | from any complete counts of 2 to 255 codes the loop ends with the counts of Figure K.3 of ITU-T T.81 less one code of the greatest length: none longer than 16, Kraft sum below 1, and the counts it was given if none was longer |
| LengthLimit.ChainLimited | 3rd/jpeg/jchuff.c:791-804 | the counts of the longest chain of 17 bits become one each up to 14 bits and four of 16 |
| OptimalTable.GenOptimalTable | 3rd/jpeg/jchuff.c:693-834 | for 1 to 254 used symbols: code sizes of least cost, failure exactly for one above 32, otherwise a table that lists each used symbol once in order of its code size, ascending within one size, with these sizes as lengths if none exceeds 16, and a Kraft sum below 1 |
| OptimalTable.RareIsLonger | 3rd/jpeg/jchuff.c:822-834 | a symbol of smaller code size never gets a longer code, lengths limited or not |
| OptimalTable.ServesIsLegal | 3rd/jpeg/jchuff.c:208-263 | such a table is accepted by the encoder exactly when its symbols are in range |
| OptimalCoding.OptimisedIsCodable | 3rd/jpeg/jchuff.c:846-880 | tables that serve what a scan in range emits leave no symbol of it without a code |
| OptimalCoding.OptimiseThenEncode | 3rd/jpeg/jchuff.c:846-880 | gathering, making every table from a least-cost code and encoding: only an out-of-range coefficient or a code above 32 bits fails, otherwise the bytes are those of the scan |
| Geometry.CrossPlane | 3rd/ANN/kd_search.cpp:124-161 | the incrementally updated distance equals the full distance to the far cell |
| Geometry.DistOnLine | 3rd/ANN/ANN.cpp:45-61 | on a line the distance is the square of the difference |
| Geometry.DistOfParts | 3rd/ANN/ANN.cpp:45-61 | for any division of the coordinates the distance is the sum of those of the parts |
| Geometry.BoxDistOnLine | 3rd/ANN/kd_util.cpp:124-146 | on a line the distance to a box is the square of the way to the interval |
| Geometry.BoxDistOfParts | 3rd/ANN/kd_util.cpp:124-146 | for any division of the coordinates the distance to a box is the sum of those of the parts |
| Geometry.BoxDistBelow | 3rd/ANN/kd_util.cpp:124-146 | the distance to a box never exceeds the distance to a point in it |
| BoundLists.BoundsRoundTrip | 3rd/ANN/kd_util.cpp:384-439 | turning an inner box into bounds and the bounds back into a box gives the inner box |
| BoundLists.BoundsToBox | 3rd/ANN/kd_util.cpp:426-439 | projecting the corners onto each half space in turn leaves the box that the bounds cut out of the outer one |
| BoundLists.InnerBelow | 3rd/ANN/bd_search.cpp:39-61 | the distance summed from the bounds never exceeds that to the inner box, and equals it for a query inside the outer one |
| SpatialTrees.InnerIsBound | 3rd/ANN/bd_search.cpp:44-58 | at a shrinking node the computed distance is a lower bound for the inner cell, exact for a query in the cell |
| SpatialTrees.MembersFar | 3rd/ANN/kd_search.cpp:124-161 | no point below a node is nearer than any lower bound for its cell |
| KSmallest.MinK.Add | 3rd/ANN/pr_queue_k.h:66-116 | the shifted insertion equals sorted insertion cut at k |
| NearestLists.InsertKeeps | 3rd/ANN/pr_queue_k.h:100-116 | offering one more point keeps the list nearest for the points offered so far |
| NearestLists.CloseToExact | 3rd/ANN/kd_search.cpp:89-122 | every reported distance is at least the true one of its rank and at most the factor times it |
| NearestLists.ExactRank | 3rd/ANN/brute.cpp:54-78 | the i-th key of an exact list is the i-th smallest distance by counting points |
| StandardSearch.KSearch | 3rd/ANN/kd_search.cpp:89-210 | on any valid kd- or bd-tree the arrays hold the k nearest up to (1 + eps) squared; more than n points is the only error |
| StandardSearch.Searcher.Visit | 3rd/ANN/kd_search.cpp:124-210 | visiting a node extends the list to its points, with the distance exact in kd-trees and a lower bound below shrinking nodes |
| BruteForce.KSearch | 3rd/ANN/brute.cpp:54-78 | reports the exact k nearest; more than n points is the only error |
| BruteForce.FRSearch | 3rd/ANN/brute.cpp:80-109 | counts exactly the points within the radius and reports the nearest of them |
| PrioritySearch.KSearch | 3rd/ANN/kd_pr_search.cpp:87-219 | ends, never overflows its queue, and reports the k nearest up to (1 + eps) squared on any valid tree without empty subtrees; exactly the places beyond the number of points stay unfilled |
| PrioritySearch.FewWaiting | 3rd/ANN/kd_pr_search.cpp:106-110 | waiting subtrees are disjoint and hold points, so there are never more of them than points |
| PrioritySearch.Searcher.Enqueue | 3rd/ANN/bd_pr_search.cpp:39-62 | putting off a subtree never finds the queue full, and no point is lost |
| PriorityQueues.PrQueue.Insert | 3rd/ANN/pr_queue.h:84-99 | keeps heap order and adds the entry; a full queue is the only error and changes nothing |
| PriorityQueues.PrQueue.ExtrMin | 3rd/ANN/pr_queue.h:101-122 | removes one entry of least key and keeps heap order |
| FixedRadius.FRSearch | 3rd/ANN/kd_fix_rad_search.cpp:58-183 | counts no point beyond the radius and every point within the radius over (1 + eps), and reports the nearest of those counted, for any k |
| SearchAgreement.ReportsAgree | 3rd/ANN/kd_search.cpp:89-122 | two searches report distances within (1 + eps) squared of brute force, the same ones for eps 0 |
| SearchAgreement.Reported | 3rd/ANN/kd_search.cpp:89-122 | the filled arrays name k different points with their distances in order, and no other point, once scaled by (1 + eps) squared, is nearer than any of them |
| SearchAgreement.CountBetween | 3rd/ANN/kd_fix_rad_search.cpp:58-110 | the fixed-radius count lies between the counts for the two radii |
| SearchAgreement.RadiusAgrees | 3rd/ANN/kd_fix_rad_search.cpp:58-110 | for eps 0 count and distances are those of brute force |
| PointPartition.MedianSplit | 3rd/ANN/kd_util.cpp:230-275 | permutes the segment, ends, and leaves ranks nLo - 1 and nLo in place with the cut half way between them |
| PointPartition.PlaneSplit | 3rd/ANN/kd_util.cpp:291-319 | permutes the segment into points below, on and above the plane |
| PointPartition.BoxSplit | 3rd/ANN/kd_util.cpp:332-350 | permutes the segment so that exactly the points in the box come first |
| Splitters.KdSplit | 3rd/ANN/kd_split.cpp:44-59 | half of the points, rounded down, go below, along an axis of greatest spread, with the cut half way between the middle two |
| Splitters.SlMidptSplit | 3rd/ANN/kd_split.cpp:146-213 | the middle of a side at least 0.999 times as long as any, of greatest spread among these, moved to the nearest point if all lie beyond it; one point goes past a cut that moved, otherwise the points on the plane even out the sides |
| TreeBuilder.RkdTree | 3rd/ANN/kd_tree.cpp:314-358 | ends, permutes only its segment, restores the box, tiles the segment with its buckets in order and keeps every point in its cell; every splitting node has more points than a bucket holds and is cut by the chosen rule |
| TreeBuilder.BuildKdTree | 3rd/ANN/kd_tree.cpp:368-405 | the tree is fit for every search, its buckets in order are the index array, none exceeds the bucket size, its box is the smallest around the points, and every splitting node is cut as its rule says: at the median along the greatest spread, or in the middle of a nearly longest side or at the nearest point |
| BdBuilder.RbdTree | 3rd/ANN/bd_tree.cpp:335-417 | the same for a bd-tree that is returned, with each shrinking node where and to the box that the shrinking rule says, and when the recursion must and cannot end |
| BdBuilder.BuildBdTree | 3rd/ANN/bd_tree.cpp:335-417 | a bd-tree fit for every search, each node split, cut or shrunk as the rules say; without shrinking it ends, with simple shrinking it ends if no more than a bucket of points coincide and never if more points than that all coincide |
| BdBuilder.TrySimpleShrink | 3rd/ANN/bd_tree.cpp:181-220 | the inner box keeps exactly the sides of the tight box with wide gaps and lies between it and the cell; it shrinks exactly for two or more such sides |
| BdBuilder.TryCentroidShrink | 3rd/ANN/bd_tree.cpp:236-273 | the inner box is reached by cuts of the chosen rule, each time on the side with at least half of the points, until no more than half of all are left; it shrinks exactly when more than half as many cuts as dimensions were needed |
| BdBuilder.SelectDecomp | 3rd/ANN/bd_tree.cpp:279-318 | splits or shrinks as the shrinking rule decides for these points, under each rule with the inner box of that rule |
| BdBuilder.SplitsNext | 3rd/ANN/bd_tree.cpp:165-220 | after a simple shrink the same points are split, unless they all coincide |
| BdBuilder.TwoEqualPoints | 3rd/ANN/bd_tree.cpp:165-220 | on two equal points and a bucket size of 1 building with simple shrinking gives no tree at any depth of recursion |
| TreeDump.DumpUnique | 3rd/ANN/kd_dump.cpp:139-173 | a dump followed by anything determines the tree and where the dump ends |
| TreeDump.ReadTree | 3rd/ANN/kd_dump.cpp:373-449 | loads back exactly the tree that was dumped, with its leaf indices appended in preorder, and loads nothing but dumps |
| TreeFile.Dump | 3rd/ANN/kd_dump.cpp:107-137 | dumping succeeds exactly when the tree has a bounding box of its dimension, with or without nodes, and then appends the dump of the format |
| TreeFile.SampleDump | 3rd/ANN/kd_dump.cpp:76-173 | the dump of one tree with points, a shrinking and a splitting node and an empty leaf, written out word by word in the format of the file's header comment |
| TreeFile.ReadDump | 3rd/ANN/kd_dump.cpp:258-343 | a dumped file, of a tree with or without nodes, is loaded as the same tree, points and index array; one without points is refused |
| TreeFile.ValidFits | 3rd/ANN/kd_dump.cpp:258-343 | every valid tree with a box, with or without nodes, survives dump and load, one without shrinking nodes also as a kd-tree |
| TreeRoundTrip.NoBoxNoDump | 3rd/ANN/kd_tree.cpp:262-268 | a tree left without a box cannot be dumped in any dimension above 0 |
| TreeRoundTrip.DumpThenLoad | 3rd/ANN/kd_dump.cpp:107-343 | any valid tree: dumped exactly when it has a box, and then loaded as it was with its index array |
| TreeRoundTrip.KdRoundTrip | 3rd/ANN/kd_tree.cpp:368-405 | building, dumping and loading a kd-tree gives it back with its index array, exactly when it has points |
| TreeRoundTrip.BdRoundTrip | 3rd/ANN/bd_tree.cpp:335-417 | the same for a bd-tree whose construction ends |
| ContextRows.TrueNeighbours | 3rd/jpeg/jdmainct.c:384-447 | every row group is shown with its true neighbours if and only if there is one iMCU row or the last one has a full row group |
| ContextRows.GroupsHold | 3rd/jpeg/jdmainct.c:264-299 | the row groups counted with the last iMCU row hold all rows of the picture, and without the last one they do not |
| ContextRows.OneRowLeft | 3rd/jpeg/jdmainct.c:384-447 | in a picture of 17 rows one row group is shown a row 17, which the picture does not have, where row 16 should be repeated |
| ContextRows.Controller.ProcessData | 3rd/jpeg/jdmainct.c:384-447 | every call, whatever the decoder answers and however many row groups are taken, keeps the controller valid: row groups delivered once each in order with the view the lists give; and it makes progress unless the decoder suspends |
| ContextRows.DecodePass | 3rd/jpeg/jdmainct.c:384-447 | any run of calls delivers a prefix of the row groups, all of them after enough eager calls, with true neighbours when the condition holds; a finished run has just enough row groups for the picture, and row x is in the middle of row group x / rgroup at place x % rgroup |

## Left out

- ContextRows.Controller.ProcessData: one component only; components differ in their row counts, not in their row groups.
- BdBuilder.RbdTree: a depth parameter bounds the recursion, since it need not end. Whether it ends is settled without shrinking, under the standard centroid rule in two or more dimensions, and under the simple rule when few points or all points coincide; between these it depends on how the cuts divide coincident points.
- BdBuilder.TryCentroidShrink: that the recursion ends under the sliding-midpoint centroid rule is not stated.
- StandardSearch.KSearch: k is positive; with k = 0 the source reads before the start of its list.
- FixedRadius.FRSearch: a tree without points is excluded, as the source dereferences its missing root.
- AcArrival.DecodeArriving: the input is one that holds a scan that can be decoded; what the progressive decoder makes of other input, and the blocks it leaves alone after data has run out, is not modelled.
- DcArrival.DecodeArriving: the same.
- ProgressiveDecoder.Decoder.DecodeScan: here and in DcDecoder input is a sequence of tokens; AcReader, DcReader and ProgressiveStream read bytes.
- DcOptimal.OptimiseThenSend: table slots of no component, which the source leaves as they are, are filled with a table of the scan.
- Resynchronisation on an unexpected restart marker (3rd/jpeg/jdmarker.c) ends the model's decoding with a verdict.
- Coefficients are unbounded integers; wrap-around of 16-bit blocks on corrupt data is not modelled.
- Marker parsing and writing, missing tables, dummy blocks, suspension of the output side, and reduced-size decoding.
- The main controller without context rows, and images with one row group per iMCU row, which the source refuses.
- Floating-point rounding, the limit on visited points, and the splitters `midpt_split`, `fair_split` and `sl_fair_split`, which may leave a side empty.
- Leaf buckets are values, not pointers into the index array; that they tile it is proved.
- Dump files are token sequences with exact numbers; negative counts, missing children and other malformed files end in an error here.
- Printing, statistics and performance counters, memory management, and the rest of the repository.
