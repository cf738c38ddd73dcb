# Verification models for the VGA/MP3 firmware

Dafny models of the parts of this repository whose correctness is hard to see from the code:

- **The MP3 decoder of `include/dr_mp3.h`**, every layer but the sample synthesis: the bit readers, the
  side information, the Huffman stage, frame headers and sync search, the bit reservoir, the frame
  decoder, the stream pulls that feed it, reading PCM with delay and padding, chunked and whole-file
  reads, frame counting and seek tables. Synthesis (stereo, IMDCT, filter bank) is not interpreted: a
  frame that decodes is handed on as its header, its granule records and its main data; at the PCM level
  an MP3 frame is its byte length and its PCM frames.
- **The VGA timing protocol**: the hsync, vsync and rgb PIO programs, decoded from the instruction words
  in their headers and run together, cycle by cycle, through two interrupt flags; and `img_to_vga.py`,
  whose bytes come on the screen row by row.
- **The key-event queue of `src/queue.c`** under every interleaving of its shared reads and writes.

`dafny verify dfyconfig.toml` checks the whole project. Proofs that put other lemmas together hide the
functions they do not look into, which keeps every proof small.

## How to read it

Every layer is specified against the layer below it, and the main results are about all inputs, all runs
or all interleavings. Beside the specification of the MP3 decoder stands a writer of the standard's syntax
(`SideInfoSyntax`, `HuffmanWriter`, `HeaderSyntax`, `WrittenFrames`, `WrittenStreams`), which shares no
definition with it; that the decoder gives back what was written ties the two together.

| file | what it holds |
|---|---|
| `Numbers` | least and greatest, products as sums |
| `BitString`, `BitReader`, `CachedBits` | bit strings; the plain reader and its inverse writer; the 32-bit cached reader |
| `SideInfo`, `SideInfoSyntax`, `GranuleParams` | the parser, the ISO 11172-3 section 2.4.1.7 writer it inverts, what it guarantees the Huffman stage |
| `HuffmanCodes`, `HuffmanPairs`, `QuadCodes`, `ScalefactorBands`, `HuffmanStage` | table walks against bit-by-bit tree walks; the whole stage against a recursive description |
| `HuffmanWriter` | the writer of section 2.4.1.7 the stage inverts: values, pairs, quadruples, whole granules |
| `Header`, `HeaderSyntax`, `SyncSearch` | header arithmetic; the header writer of section 2.4.1.3 and the numbers of section 2.4.2.3; the search against "the first confirmed header" |
| `Reservoir`, `FrameDecoder`, `ReservoirRuns` | the bit reservoir, one decoder call, runs of calls, a decoding and a counting pass |
| `ReservoirConformance`, `ReservoirStreams` | what a pass has dropped of the stream of payloads, which frames decode and which are counted, in every stream: first for what the calls come upon (a resync or not, a Layer III frame or none), then for runs of the decoder |
| `WrittenFrames`, `Counterexamples` | frames as a writer emits them, parsed; inputs that show the first two findings |
| `WrittenStreams`, `PlayedStreams` | streams of such frames, found, taken and played one by one, from memory and from callbacks |
| `StreamPull`, `StreamFrames` | the pull loops over memory and over callbacks with a sliding window; the MP3 frames they yield, played and counted |
| `WindowedStreams`, `WindowEdge` | the two pull loops side by side: where they yield the same, and a stream on which they do not |
| `PcmReader`, `PcmChunks`, `Seeking`, `SeekTable` | reading PCM, chunked reads, frame counting, seek points |
| `Reorder` | the short-block permutation |
| `Pio`, `VgaTiming`, `VgaLines` | the PIO machine, the three-machine protocol, its lines in system cycles |
| `PixelStream`, `Scanout` | packing and showing a row of pixels; the whole picture in runs of all three machines |
| `KeyQueue` | the lock-free queue |

Methods carry the names of what they do; the comment above each names the original function. Where a
method needs the state before and after, its contract ties the new state to a function of the old one,
and the lemmas are about that function.

## Findings

Properties one would expect that fail, each with an input and with the exact condition; for what a window
shows, with a sufficient one.

- **Private bits reach scfsi.** For MPEG-1 the parser reads the private bits and the scale-factor
  selection bits as one field and takes nibbles from its top, so the first granule of the second channel
  is handed the private bits as its scfsi, where it should have none; in mono, the first granule the top
  private bit. In a written frame this goes wrong exactly if the private bits are not all zero (in mono,
  the top one is set) and that granule is not a short block (`WrittenFrames.WrittenScfsi`,
  `WrittenScfsiOfMono`, and through the parse of the frame decoder `ParsedScfsi`, `ParsedScfsiOfMono`).
  `Counterexamples.PrivateBitsExample` is an accepted frame with scfsi 7 there.
- **Counting and decoding disagree.** A pass without sample output keeps every byte in the reservoir, so
  it can count a frame that a decoding pass rejects. In any stream, and behind any frames, this happens
  exactly to a frame of whose main data the decoding pass has dropped a part and the counting pass
  nothing (`ReservoirConformance.Disputed`, `CountedButNotDecoded`; for runs of the decoder
  `ReservoirStreams.RunsDiffer`); what a pass has dropped is computed from the frames' parses alone. The
  totals are equal exactly if no frame is like that (`ReservoirStreams.TotalsDiffer`,
  `StreamFrames.CountCoversPlay`). As long as all frames are placed as the standard asks it is the first
  one that asks for bytes the frame before has used, but for none from before that one's main data
  (`RunsDifferPlaced`); behind a frame both passes reject, a frame can be disputed that does not ask for
  such bytes (`Counterexamples.DisputedBehindRejected`). `Counterexamples.CountedButNotDecodedExample` is
  a stream of two frames that is counted as 1152 PCM frames and plays 576. The other direction is
  impossible unless a Layer I or II frame comes up that cannot be decoded, and then the passes part
  (`ReservoirRuns.CountingMissesNothing`).
- **A window may cut a frame off.** Behind a read callback a search that finds nothing in the window
  consumes all of it, a frame's first bytes included. A stream whose frames are each found at the front
  of what is left yields the same from memory and from callbacks (`WindowedStreams.WindowPullIsPull`,
  `SameFrames`). `WindowEdge.LostBehindCallbacks`: of 65533 zero bytes and two frames a fresh decoder
  yields the first frame from memory, and nothing at all behind callbacks.
- **A seek point in the first MP3 frame wraps.** The PCM frames to discard are computed in 16 unsigned
  bits from the MP3 frame after the first, so a point lying in the first one is to discard 65536 more
  than it should. All points of a table are right exactly if they are at least the first MP3 frame's
  length apart (`SeekTable.SpacedIff`); a seek by table comes where reading does exactly if the point it
  goes by does not lie in the first MP3 frame (`TableSeeksIff`), and otherwise fails or lands 65536 PCM
  frames behind (`WrappedSeek`). Equal-size MP3 frames never come to this (`EqualFramesSpaced`);
  `SeekTable.DiscardExample` is a long frame before two short ones.
- **Seeking with a delay overshoots.** Positions include the encoder delay but a seek from the start skips
  the delay first. Going back after counting comes to the old position exactly if that was the start, or
  if there is no delay and it is not behind the end of the music (`Seeking.CountRestoresIff`).
  `Seeking.OvershootExample`: four PCM frames, one of them delay; counting after one has been read loses
  the next.
- **A size limit truncates silently.** When the buffer would outgrow `SIZE_MAX` the whole-file read
  returns the beginning of the PCM like a complete result. This happens exactly if the capacity it would
  end up in, doubled from the first chunk on, is over the limit (`PcmChunks.FullReadAndClose`, `FitsIff`);
  with 32-bit sizes and two channels, from 2^29 + 1 PCM frames on, which themselves would fit
  (`PcmChunks.TruncationExample`).
- **First line and first frame.** Before their first pulse the sync pins keep the level they start with.
  The first line has the hsync pin low for 96 hsync cycles, and the first frame the vsync pin for two
  waits, exactly if the pin is high from the start; otherwise for h + 3 cycles and v + 11 waits more
  (`VgaLines.FirstPulse`, `VgaLines.LineCounts`, `VgaTiming.FrameCounts`).

## Model

| member | source | states |
|---|---|---|
| BitReader.Reader.constructor | include/dr_mp3.h:822-827 | A new reader stands at bit 0 of its buffer; its limit is eight times the byte count, negative for a frame shorter than its header |
| BitReader.Reader.GetBits | include/dr_mp3.h:829-843 | Any read of 1 to 25 bits yields the big-endian value of the next n bits, or 0 when they reach past the limit, and always moves the position by n |
| BitReader.Gather | include/dr_mp3.h:836-842 | The masking, shifting and or-ing loop assembles exactly the value of the bits between two positions, whatever byte boundaries lie between |
| BitString.ValueSplit | include/dr_mp3.h:829-843 | Reading a bits and then b bits is reading a+b bits at once, split at the boundary |
| BitReader.WriteThenRead | include/dr_mp3.h:829-843 | Reader inverts writer: any stream of fields packed into bytes between other bytes reads back field by field, each at the sum of the widths before it |
| SideInfo.Mode.TotalBits | include/dr_mp3.h:1065-1188 | The side information ends on a byte boundary: it is 32, 17, 17 or 9 bytes for MPEG-1 stereo, MPEG-1 mono, MPEG-2 stereo and MPEG-2 mono |
| SideInfo.ReadWindow | include/dr_mp3.h:1128-1171 | Both branches behind the window-switching flag consume the same 23 bits; block type 0 fails, and only that |
| SideInfo.ReadGranule | include/dr_mp3.h:1111-1180 | One record is accepted exactly if it has at most 288 big values and no reserved block type; then every field is the one at its fixed place in the layout, the bands are those of the table of its window and the row of the sampling rate, and the scfsi word is shifted and masked as described |
| SideInfo.Read | include/dr_mp3.h:1098-1188 | The parse fails exactly if some record is bad or the parts do not fit what the limit and main_data_begin leave; otherwise it consumes exactly TotalBits on every path and returns the records by their absolute positions |
| SideInfoSyntax.ReadsRecord | include/dr_mp3.h:1111-1180 | A record written in the order of ISO/IEC 11172-3 section 2.4.1.7, for either version and window kind, is accepted exactly if it has at most 288 big values and no reserved block type, and is read as what the standard says it means: block type 2 has short or mixed bands, 39 or 8 (6) and 30 of them, types 1 and 3 have long ones |
| SideInfoSyntax.RoundTrip | include/dr_mp3.h:1098-1188 | Whatever bits surround it, side information written by the standard's syntax is recovered: main_data_begin and every record, up to the scfsi nibbles |
| SideInfoSyntax.ScfsiOfStereo | include/dr_mp3.h:1101-1109 | Where the four nibbles of an MPEG-1 stereo frame come from: none, the private bits, and the two channels' written nibbles, each zero when the channel has had a short block |
| SideInfoSyntax.ScfsiOfMono | include/dr_mp3.h:1101-1117 | The same for MPEG-1 mono: the first granule is handed the top private bit, the second the written nibble, each zero after a short block |
| SideInfoSyntax.ScfsiOfLower | include/dr_mp3.h:1110-1176 | For MPEG-2 and 2.5 every granule is handed 0 |
| Header.RowInTable | include/dr_mp3.h:1101 | The row of the band tables computed from a valid header lies in the tables' eight rows |
| HeaderSyntax.WrittenValid | include/dr_mp3.h:845-852 | A header written field by field is valid exactly if neither bitrate nor sampling rate is reserved and MPEG-2.5 comes with Layer III |
| HeaderSyntax.FieldsWritten | include/dr_mp3.h:845-852 | And every valid header is a written one |
| HeaderSyntax.WrittenBitrate | include/dr_mp3.h:862-869 | The bitrates of all versions and layers: 32, 40, 48, 56 kbit/s and twice that every four steps for MPEG-1 Layer III, multiples of 32 for Layer I, and so on |
| HeaderSyntax.WrittenRate | include/dr_mp3.h:871-880 | The nine sampling rates, from 44100, 48000 and 32000 Hz to 11025, 12000 and 8000, and 384, 1152 or 576 PCM frames a frame |
| HeaderSyntax.WrittenBytes | include/dr_mp3.h:882-890 | The size is the most whole bytes, in Layer I whole slots of four, that go into the PCM frames at the bitrate |
| HeaderSyntax.WrittenPadding | include/dr_mp3.h:892-895 | Padding is one byte, in Layer I four |
| HeaderSyntax.WrittenMatch | include/dr_mp3.h:854-860 | Two headers match exactly if the second is valid and they agree in version, layer, sampling rate and free-format-ness |
| HeaderSyntax.WrittenRow | include/dr_mp3.h:1101 | The rows of the band tables are those of the sampling rates in order, the two highest of MPEG-2.5 sharing one |
| WrittenFrames.ParseOfWritten | include/dr_mp3.h:2346-2356 | The decoder's parse of a written frame, without checksum or with one of two bytes and whatever comes behind it, fails exactly if a record is not one a writer may emit or the coded bits do not fit what main_data_begin and the payload hold, and otherwise gives back main_data_begin, all records and the payload |
| WrittenFrames.WrittenScfsi | include/dr_mp3.h:1101-1109 | In every written MPEG-1 stereo frame the second record is handed the private bits as its scfsi, or 0 if it is a short block |
| WrittenFrames.WrittenScfsiOfMono | include/dr_mp3.h:1101-1117 | In every written MPEG-1 mono frame the first record is handed the top private bit, or 0 if it is a short block |
| WrittenFrames.ParsedScfsi | include/dr_mp3.h:1101-1109 | The same through the frame decoder's parse, with or without checksum: every written MPEG-1 stereo frame whose coded bits fit is accepted with the private bits as scfsi of its second record, unless that is a short block |
| WrittenFrames.ParsedScfsiOfMono | include/dr_mp3.h:1101-1117 | And every written MPEG-1 mono frame with the top private bit as scfsi of its first record, unless that is a short block |
| Counterexamples.PrivateBitsReachScfsi | include/dr_mp3.h:1101-1109 | Behind every MPEG-1 stereo header without checksum, a frame of four records without coded bits, with main_data_begin 0 and no scfsi set, is accepted whatever its private bits and payload are, with the private bits as scfsi of the second record |
| Counterexamples.PrivateBitsExample | include/dr_mp3.h:1101-1109 | A frame at 32 kbit/s and 44.1 kHz that is accepted with scfsi 7 in its second record |
| GranuleParams.AcceptedParams | include/dr_mp3.h:1122-1175 | Every accepted record gives the Huffman stage at most 288 pairs, table numbers below 32 and region counts that cannot run past the third region, whatever a stale count holds |
| GranuleParams.WrittenParams | include/dr_mp3.h:1128-1172 | The stage is handed the three tables and two region counts a writer says, or with a switched window the two tables and the counts 8 or 7 and 255 |
| CachedBits.PeekIsValue | include/dr_mp3.h:1357 | Peeking up to the number of valid bits yields the value of the next bits of the string |
| CachedBits.FlushMoves | include/dr_mp3.h:1358-1360 | Flushing n valid bits moves the cache's position in the string, as BSPOS computes it, by exactly n |
| CachedBits.Check | include/dr_mp3.h:1359 | CHECK_BITS leaves the position alone and the cache with at least 25 valid bits of the string |
| CachedBits.Load | include/dr_mp3.h:1365-1368 | The four-byte load at any bit position makes a cache that stands there with at least 25 valid bits |
| HuffmanCodes.Lookup | include/dr_mp3.h:1386-1392 | In any table that encodes a code tree the entry indexed by the next bits either ends the code they spell, with its symbol and length, or names the table of the subtree they lead to |
| HuffmanCodes.DecodeSymbol | include/dr_mp3.h:1385-1393 | For any multi-level codebook that encodes a tree of height at most 25, the table walk finds the symbol of the bit-by-bit walk and consumes exactly its bits |
| HuffmanPairs.ReadValue | include/dr_mp3.h:1395-1409 | One value: escape bits only for 15 with linbits, sign bit only for nonzero; result and bits consumed are those of reading the fields one by one |
| HuffmanPairs.DecodePair | include/dr_mp3.h:1383-1411 | For any well-formed codebook (code, sign and escape within 25 bits) a pair decodes to what the standard's field-by-field reading gives, in at most 51 bits, with the cache ready again |
| HuffmanPairs.Table2WellFormed | include/dr_mp3.h:1336-1338 | The requirements on codebooks hold of the decoder's own two-level table 2 |
| QuadCodes.DecodeQuad | include/dr_mp3.h:1443-1451 | The two-step count1 lookup finds the mask of the bit-by-bit walk of any encoded quadruple code and consumes exactly its bits, at most 7 |
| QuadCodes.Tab32Encodes | include/dr_mp3.h:1352 | The byte table tab32 encodes the standard's quadruple code A, second-level tables included |
| QuadCodes.Tab33Encodes | include/dr_mp3.h:1353 | The byte table tab33 encodes the standard's quadruple code B |
| ScalefactorBands.BandOfIs | include/dr_mp3.h:1380-1382 | The band a pair is scaled by is the one whose range of pairs it lies in |
| ScalefactorBands.BeforeEnd | include/dr_mp3.h:1067-1096 | In a table of positive even widths that make up 576 lines only the terminator stands behind all 288 pairs |
| ScalefactorBands.Long44100Valid | include/dr_mp3.h:1073 | The requirements on band tables hold of the decoder's long-block table for 44.1 kHz |
| HuffmanStage.DecodeBand | include/dr_mp3.h:1383-1412 | The inner loop writes exactly the lines of the band's pairs behind those in the buffer and leaves the cache behind their bits |
| HuffmanStage.DecodeRegion | include/dr_mp3.h:1376-1413 | The middle loop draws the bands of its region until they or the pairs run out; the invariant ties bands, pairs left and lines written |
| HuffmanStage.RegionsSuffice | include/dr_mp3.h:1370-1373 | The region index never passes 2: three regions always hold all bands |
| HuffmanStage.BigValues | include/dr_mp3.h:1370-1438 | The big-values loops terminate and write exactly two lines for each pair in order, every pair with its region's codebook and its band's scale |
| HuffmanStage.Reload | include/dr_mp3.h:1457 | RELOAD_SCALEFACTOR draws one pair from the bands and fails exactly when all 288 are drawn |
| HuffmanStage.NextQuad | include/dr_mp3.h:1441-1466 | One turn of the count1 loop writes the lines of one quadruple behind those in the buffer, or stops where the limit is passed or the bands end, in the middle of a quadruple too |
| HuffmanStage.Count1 | include/dr_mp3.h:1440-1467 | The count1 loop terminates and writes exactly the lines of the quadruples up to the limit or the end of the bands |
| HuffmanStage.StageFits | include/dr_mp3.h:1334-1469 | Whatever the bits, the lines of the stage are no more than the 576 of the granule |
| HuffmanStage.Huffman | include/dr_mp3.h:1334-1469 | Run on a cleared buffer of 576 lines, the stage leaves in it exactly the lines of the recursive description of big values and quadruples from the bits, zeros behind them, and the reader at the granule's limit |
| HuffmanWriter.ReadsBack | include/dr_mp3.h:1395-1409 | Every value up to 15, or up to 15 and what the escape bits hold, written as its low digit, what 15 leaves over and a sign bit that is 1 exactly if it is negative, reads back as itself |
| HuffmanWriter.PairReadsBack | include/dr_mp3.h:1383-1411 | A pair written as any code its codebook has for it and its two values reads back, and its bits are consumed |
| HuffmanWriter.BigReadsBack | include/dr_mp3.h:1370-1438 | All pairs of a granule read back, each in the band its lines lie in and by the table of that band's region: the first region has region_count_0 + 1 bands, the second region_count_1 + 1 |
| HuffmanWriter.QuadsReadBack | include/dr_mp3.h:1440-1467 | All quadruples of values up to 1 read back, each code followed by a sign bit for every value that is not zero, and no more at the limit |
| HuffmanWriter.CodeOfTable2 | include/dr_mp3.h:1336-1338 | The decoder's table 2 stands for the codes of the standard's table 2 |
| HuffmanWriter.CodeOfA | include/dr_mp3.h:1352 | Its first quadruple code is the standard's table A |
| HuffmanWriter.CodeOfB | include/dr_mp3.h:1353 | Its second quadruple code is the standard's table B |
| HuffmanWriter.GranuleReadsBack | include/dr_mp3.h:1334-1469 | Reader after writer for a whole granule: pairs and quadruples of any values, coded by the tables the parameters say and followed by the granule's end, come out as their lines, each in its band |
| Reorder.ReorderLines | include/dr_mp3.h:1587-1602 | On the arrays, the lines from an offset on become their reordering by the band table's widths up to the terminator; lines before stay |
| Reorder.ReorderedAt | include/dr_mp3.h:1591-1600 | Line i of window w of every band goes to place 3i+w of the band |
| Reorder.ReorderedBeyond | include/dr_mp3.h:1601 | Lines behind the bands are untouched |
| Reorder.ReorderingRestored | include/dr_mp3.h:1587-1602 | Taking the bands apart again gives back what went in |
| Reorder.RestoringReordered | include/dr_mp3.h:1587-1602 | And reordering what was taken apart gives it back: reordering is a bijection |
| Header.RateRange | include/dr_mp3.h:862-869 | The bitrate is 0 exactly for free format; otherwise it lies in its version's range, and for Layer III is at most 320 or 160 kbit/s |
| Header.HzRange | include/dr_mp3.h:871-875 | The sampling rate of a valid header lies in its version's range; it is never 0 |
| Header.Layer3Bytes | include/dr_mp3.h:882-890 | A Layer III frame that is not free format has between 24 and 1440 bytes |
| Header.InfoIsOk | include/dr_mp3.h:845-895 | For every header: padding at most 4 (1 for Layer III), and the computed size is 0 exactly for free format |
| SyncSearch.MatchFrame | include/dr_mp3.h:2256-2268 | The match loop answers exactly whether at least one computed boundary lies in the input and none of the first ten carries a header that disagrees |
| SyncSearch.DiscoverFree | include/dr_mp3.h:2280-2293 | Free-format discovery finds the least distance at which two frames of one size, padding aside, are confirmed by matching headers, or that there is none |
| SyncSearch.FindFrame | include/dr_mp3.h:2270-2306 | The search returns the least offset with a confirmed (or input-filling) frame and its size, which ends in the input; or the input's end and 0 if there is none |
| SyncSearch.FoundUnique | include/dr_mp3.h:2270-2306 | The specification determines offset and size |
| SyncSearch.FoundProgress | include/dr_mp3.h:2295-2305 | What is found ends within the input and something is always stepped over; a found header is valid and a discovered free-format size stays below 2304 |
| Reservoir.Buffers.Restore | include/dr_mp3.h:1820-1828 | maindata becomes the last main_data_begin bytes held (or all there are) and the payload, within its 2815 bytes; the answer is whether there were enough |
| Reservoir.Buffers.Save | include/dr_mp3.h:1804-1818 | The reservoir keeps what the decoded bits left of maindata, the last 511 bytes of it at most |
| Reservoir.LeftoverOfHistory | include/dr_mp3.h:1804-1828 | Restoring and saving keep the reservoir a suffix of all payloads so far |
| FrameDecoder.ParseFits | include/dr_mp3.h:1182-1187 | An accepted parse never asks for more bits than main_data_begin and the payload hold |
| FrameDecoder.BeginFits | include/dr_mp3.h:1106-1112 | And never for more than 511 bytes of the reservoir |
| FrameDecoder.ParseFrame | include/dr_mp3.h:2341-2356 | Checksum, side information and payload are cut from the frame at the places the layout gives |
| FrameDecoder.Progress | include/dr_mp3.h:2313-2340 | Every call on a nonempty input consumes at least one byte and never more than there are |
| FrameDecoder.LocatedFrame | include/dr_mp3.h:2319-2333 | A located frame lies in the input, and a Layer III one has at most 2304 bytes, so it fits the fixed payload buffer |
| FrameDecoder.Decoder.LocateFrame | include/dr_mp3.h:2319-2333 | Reusing the last header or resyncing on a cleared decoder finds exactly the specified place, size and state |
| FrameDecoder.Decoder.DecodeLayer3 | include/dr_mp3.h:2350-2370 | A Layer III frame changes reservoir and header and yields samples and main data as its parse says, with or without sample output |
| FrameDecoder.Decoder.DecodeFrame | include/dr_mp3.h:2313-2404 | A whole call, on the decoder's own buffers, consumes the bytes and leaves the state and result of the specification |
| WrittenStreams.TakesFront | include/dr_mp3.h:2319-2340 | Between headers that agree in version, layer, sampling rate and free-format-ness, and when the frame is as long as its header says, a call consumes exactly the frame at the front and goes on from what the decoder holds |
| WrittenStreams.Resyncs | include/dr_mp3.h:2319-2333 | When no such headers stand at the front and where the frame ends, or none has been seen before, the call does what that of a fresh decoder does |
| WrittenStreams.TakesOther | include/dr_mp3.h:2371-2402 | So a Layer I or II frame yields 384 or 1152 PCM frames, or makes the decoder forget the header if samples are wanted and it cannot be decoded |
| WrittenStreams.TakesBroken | include/dr_mp3.h:2350-2355 | A Layer III frame that no writer may emit is consumed and makes the decoder forget the header and nothing else |
| WrittenStreams.FirstFound | include/dr_mp3.h:2270-2306 | A fresh decoder finds the first frame of a written stream at the front; in free format, if there are three frames of less than 2304 bytes and nothing in the first looks like a header of its kind |
| WrittenStreams.JunkSkipped | include/dr_mp3.h:2270-2306 | Bytes in which no header starts are stepped over, and the first frame behind them comes out as without them |
| PlayedStreams.WrittenPlays | include/dr_mp3.h:2313-2404 | From a fresh decoder on, any stream of written Layer III frames that agree in kind, are as long as their headers say and are placed as section 2.4.2.7 asks plays one frame a call: 1152 or 576 PCM frames, the header, all records, and as main data the main_data_begin bytes of payload before and its own payload; it is counted the same |
| PlayedStreams.WrittenPlaysBehindCallbacks | include/dr_mp3.h:2735-2905 | And so it does behind a read callback |
| PlayedStreams.ThreeFramesPlay | include/dr_mp3.h:2319-2326 | Of three frames of 24 bytes the second, which reaches five bytes back, gets the last five bytes of the first payload and its own |
| ReservoirRuns.FrameSafety | include/dr_mp3.h:2352-2370 | One frame: main data handed on is exactly the main_data_begin bytes before this payload in the history and the payload; coded bits fit it; the reservoir stays a suffix of at most 511 bytes |
| ReservoirRuns.CallSafety | include/dr_mp3.h:2313-2404 | The same for any call, with resyncs, other layers and failing parses |
| ReservoirRuns.RunSafety | include/dr_mp3.h:1804-1828 | After any sequence of calls the reservoir is a suffix of the payloads since the last resync and at most 511 bytes |
| ReservoirRuns.CallAhead | include/dr_mp3.h:2352-2404 | Given the same bytes, a counting decoder whose reservoir extends a decoding one's consumes the same; it keeps extending it and accepts with identical main data what the other decodes, exactly unless the call works on a Layer I or II frame that cannot be decoded |
| ReservoirRuns.CountingMissesNothing | include/dr_mp3.h:4514-4524 | Over a whole stream a pass without sample output, call by call, accepts every frame the decoding pass decodes, with identical main data, exactly if no Layer I or II frame comes up that cannot be decoded |
| ReservoirConformance.ReservoirIs | include/dr_mp3.h:1804-1828 | In every pass over every stream, decoding or counting, the reservoir is the end of the payloads since the last resync from what the pass has dropped on, 511 bytes at most |
| ReservoirConformance.DecodesIff | include/dr_mp3.h:1820-1828 | Any frame of any stream is decoded, or counted, exactly if the pass has dropped nothing from where its main data starts and it reaches back 511 bytes at most; and then it gets exactly its own main data out of the stream of payloads |
| ReservoirConformance.CountingKeepsMore | include/dr_mp3.h:2356-2370 | A counting pass never has dropped more than a decoding one |
| ReservoirConformance.PlacedDrops | include/dr_mp3.h:1804-1818 | As long as every frame is placed as section 2.4.2.7 of ISO/IEC 11172-3 allows, a decoding pass has dropped all up to the end of the last frame's main data, a counting one all up to its start |
| ReservoirConformance.DecodesIffPlaced | include/dr_mp3.h:1820-1828 | So the first frame that is placed wrong is the first that does not decode |
| ReservoirConformance.CountedButNotDecoded | include/dr_mp3.h:2356-2370 | Any frame of any stream is counted but not decoded exactly if a decoding pass has dropped a part of its main data and a counting pass nothing of it; none decodes that is not counted |
| ReservoirStreams.TheRun | include/dr_mp3.h:2313-2404 | Every sequence of calls from any state has its run, and the run ends in the state after the calls |
| ReservoirStreams.TheEvents | include/dr_mp3.h:2313-2370 | What the calls of any run come upon, resyncs, other layers and failing parses included, is given by the headers and side information they see |
| ReservoirStreams.RunDecodesIff | include/dr_mp3.h:2313-2370 | In every run of the decoder, decoding or counting, a Layer III frame yields samples exactly if nothing has been dropped from where its main data starts and it reaches back 511 bytes at most, and it is decoded from exactly its own main data |
| ReservoirStreams.RunDecodesIffPlaced | include/dr_mp3.h:2313-2370 | As long as every frame is placed as the standard asks, the first one without samples is the first placed wrong |
| ReservoirStreams.CountingMeets | include/dr_mp3.h:2319-2333 | On the inputs of a decoding run in which every Layer I or II frame can be decoded a counting run comes upon the same |
| ReservoirStreams.RunsDiffer | include/dr_mp3.h:2352-2370 | In two such runs, on any call: it counts a frame without decoding it exactly if that is a frame of whose main data the decoding run has dropped a part and the counting run nothing; on all other calls both yield the same number of samples |
| ReservoirStreams.TotalsDiffer | include/dr_mp3.h:4514-4524 | So the samples counted in all are those played exactly if there is no such frame, and never fewer |
| ReservoirStreams.RunsDifferPlaced | include/dr_mp3.h:2352-2370 | Behind frames placed right, such a frame is one that asks for bytes the frame before has used but for none from before that one's main data |
| Counterexamples.DisputedBehindRejected | include/dr_mp3.h:2352-2370 | Of three frames the second is rejected by both passes and the third is counted without decoding, though it does not ask for bytes the second has used |
| Counterexamples.CountedButNotDecodedExample | include/dr_mp3.h:2352-2370 | A stream of two 24-byte frames, with any payloads, that a counting pass takes for 1152 PCM frames and of which a decoding pass yields 576 |
| StreamPull.PullLoop | include/dr_mp3.h:2871-2902 | The memory loop terminates and comes to the pull of the bytes given, for the frame decoder as it is |
| StreamPull.PullEnds | include/dr_mp3.h:2860-2905 | A pull stays in the bytes; one that yields nothing has stepped over all of them, and pulling again changes nothing |
| StreamPull.MemoryStream.NextFrame | include/dr_mp3.h:2860-2905 | The read position and the stream cursor move by the same consumed bytes; 0 means the position is the end of the data |
| StreamPull.CallbackStream.ClampRead | include/dr_mp3.h:2654-2671 | A clamped read never passes the known stream length |
| StreamPull.CallbackStream.Refill | include/dr_mp3.h:2749-2787 | Moving data down, allocating the buffer and reading keep the window equal to the stream's bytes before the cursor, within 64 KiB, and the position in the stream; it fails exactly if there is no buffer yet and memory is refused |
| StreamPull.WindowPullEnds | include/dr_mp3.h:2735-2858 | What a pull leaves of the stream is its end from some later byte on: nothing is skipped or shown twice; it yields nothing exactly when all has been stepped over |
| StreamPull.CallbackStream.NextFrame | include/dr_mp3.h:2735-2858 | The callback loop terminates without ever growing the buffer, keeps the window, and comes to the pull of what is left of the stream; without memory for the window, or at the end, it yields nothing and the stream stays |
| WindowedStreams.FrameAlike | include/dr_mp3.h:2341-2356 | A frame is parsed from its own bytes: what comes behind it in the input does not matter |
| WindowedStreams.CallAlike | include/dr_mp3.h:2313-2404 | A call that finds a Layer III frame at the front, where the header before announces it or where a resync finds it and it is not free format, does the same when it is shown only the first 16 KiB or more |
| WindowedStreams.WindowPullIsPull | include/dr_mp3.h:2735-2905 | If every frame of a stream is found so, a pull through the window yields the samples and the unit of a pull from memory and leaves the stream at the same place |
| WindowedStreams.SameFrames | include/dr_mp3.h:2735-2905 | And so all frames of the stream are the same from memory and from callbacks, however much is buffered to begin with |
| WindowEdge.LostBehindCallbacks | include/dr_mp3.h:2735-2858 | On 65533 zero bytes and two frames a fresh decoder yields the first frame from memory; behind callbacks it steps over everything and yields nothing |
| StreamFrames.FramesTotal | include/dr_mp3.h:2860-2905 | The MP3 frames a stream yields, pull after pull, hold together the PCM frames of all calls of the frame decoder on it |
| StreamFrames.RenderedSounding | include/dr_mp3.h:2879-2896 | Every MP3 frame a stream yields holds samples, which is what reading PCM relies on |
| StreamFrames.Rendering | include/dr_mp3.h:2860-2905 | Every byte string, from any state of the decoder, has the MP3 frames a PCM reader is given |
| StreamFrames.PassRuns | include/dr_mp3.h:4514-4524 | The decoding and the counting pass over any byte string are two runs of the decoder on the same inputs |
| StreamFrames.CountCoversPlay | include/dr_mp3.h:4484-4543 | The PCM frames counted on a stream are at least those it plays, and exactly those if and only if no frame comes up of whose main data a decoding pass has dropped a part and a counting pass nothing; as long as no Layer I or II frame comes up that cannot be decoded |
| PcmReader.ReadSplit | include/dr_mp3.h:4159-4235 | A read of n and then of m delivers the same PCM and leaves the same state as a read of n+m, for all frame sizes, delays, paddings and totals |
| PcmReader.RunIsOneRead | include/dr_mp3.h:4159-4235 | Any sequence of reads is one read of their sum |
| PcmReader.RunDelivers | include/dr_mp3.h:4166-4229 | From the start, whatever the sizes of the reads, they deliver the PCM frames from the delay on and before the known total less the padding (if it is known and more than that), once each, in order and as many as asked for |
| PcmReader.TurnKeeps | include/dr_mp3.h:4166-4232 | A turn of the read loop delivers a piece of what is owed, and the last one leaves nothing owing |
| PcmReader.Reader.Turn | include/dr_mp3.h:4166-4232 | One turn on the reader's fields: skipping, clamping, copying and decoding as specified; the assertion that the MP3 frame is used up before the next is decoded holds |
| PcmReader.Reader.ReadRaw | include/dr_mp3.h:4159-4235 | The read delivers, counts, writes to the caller's buffer (if there is one) and leaves exactly what the specification of a read says |
| PcmChunks.S16ToF32 | include/dr_mp3.h:4147-4155 | Conversion writes each sample over 32768, element by element, and nothing else |
| PcmChunks.ToFloat | include/dr_mp3.h:4151 | A converted sample times 32768 is the sample |
| PcmChunks.ReadF32 | include/dr_mp3.h:4238-4273 | The chunked float read is the element-wise conversion of a single raw read of the same size and leaves its state |
| PcmChunks.ShortRead | include/dr_mp3.h:4257-4259 | A read that gets less than it wants has reached the end: further reads deliver nothing and change nothing |
| PcmChunks.Append | include/dr_mp3.h:4855-4886 | A chunk is copied behind what the buffer holds, within its capacity, after doubling it (or more) when it is too small; it is refused exactly if that is over the size limit or memory is refused, and then the buffer stays |
| PcmChunks.FullReadChunks | include/dr_mp3.h:4848-4892 | The capacity is always the first chunk's doubled until it holds what has been read; all PCM is collected exactly if the loop does not stop for the size limit or a refusal; the bytes moved by all reallocations together are at most the final capacity |
| PcmChunks.ChunkRoom | include/dr_mp3.h:4855-4884 | Room for one more chunk is refused by the size limit only if the capacity that all of it would end up in is over the limit |
| PcmChunks.FullReadAndClose | include/dr_mp3.h:4839-4906 | The result is all remaining PCM, or nothing after a refused allocation, or a strict beginning after the size limit; with no refusal it is all of it exactly if the doubled capacity for all of it is within the limit |
| PcmChunks.EverythingIs | include/dr_mp3.h:4839-4906 | From the start, all remaining PCM is the music, without delay and padding |
| PcmChunks.FitsIff | include/dr_mp3.h:4855-4878 | What the limit must hold: the PCM frames of a single chunk of 4096 samples, or that chunk doubled until it holds all |
| PcmChunks.TruncationExample | include/dr_mp3.h:4869-4871 | In stereo with 32-bit sizes 2^29 PCM frames are read in full and one more is not, though its bytes would fit |
| Seeking.SeekToStart | include/dr_mp3.h:4312-4337 | Nothing is decoded and the position is 0 |
| Seeking.ForwardReaches | include/dr_mp3.h:4340-4359 | Without delay, reading forward reaches a position exactly if it is not behind the end of the music |
| Seeking.BruteForceSeeks | include/dr_mp3.h:4361-4382 | Without delay, from anywhere in the stream, seeking by reading succeeds exactly up to the end of the music and leaves the wanted PCM frame next |
| Seeking.BruteForceOvershoots | include/dr_mp3.h:4340-4382 | A successful seek from the start lands behind the wanted position by the delay |
| Seeking.CountPass | include/dr_mp3.h:4514-4524 | The counting loop terminates with the number of MP3 frames and the sum of their PCM frames |
| Seeking.CountFrames | include/dr_mp3.h:4484-4543 | The totals are those sums over the MP3 frames the stream yields without sample output, and the state is that of going back to the position at the call over those it yields with |
| Seeking.CountTransparent | include/dr_mp3.h:4502-4535 | Without delay, a decoder positioned by reads from the start is in exactly the same state after counting as before |
| Seeking.CountTransparentAtFirst | include/dr_mp3.h:4502-4535 | When nothing has been read yet, with any delay, every read after counting delivers and leaves what it would have without |
| Seeking.CountRestoresIff | include/dr_mp3.h:4502-4535 | Counting succeeds in coming back to the old position exactly if that was the start, or there is no delay and it is not behind the end of the music |
| Seeking.OvershootExample | include/dr_mp3.h:4502-4535 | Of four PCM frames of which one is delay, counting after reading one leaves the reader a PCM frame further on |
| SeekTable.OnSeek64 | include/dr_mp3.h:2691-2718 | Steps of at most 31 bits add up to exactly the offset; it succeeds exactly if none of the calls of the seek callback it needs is refused, and the cursor is where the accepted ones have come |
| SeekTable.FindClosestSeekPoint | include/dr_mp3.h:4384-4406 | The linear search gives the chosen point |
| SeekTable.ChosenIsLast | include/dr_mp3.h:4384-4406 | The chosen point is the last of the leading points not behind the target, or the start of the stream |
| SeekTable.FillCache | include/dr_mp3.h:4669-4684 | After the leading MP3 frames the cache holds where each of them starts |
| SeekTable.FindPoint | include/dr_mp3.h:4694-4735 | Cycling the cache stops at the MP3 frame that holds the target, and since targets lie in the stream there always is a next MP3 frame |
| SeekTable.FillPoints | include/dr_mp3.h:4690-4737 | One run through the stream computes all points of the table |
| SeekTable.CalculateSeekPoints | include/dr_mp3.h:4610-4748 | The points returned are those of the specification for the MP3 frames counted, for too few of them too, and the position is the one of going back to where the decoder was |
| SeekTable.HowManyPoints | include/dr_mp3.h:4629-4645 | There are as many points as asked for, at most one fewer than MP3 frames; with fewer than three MP3 frames there is one, the start of the stream |
| SeekTable.PointIs | include/dr_mp3.h:4647-4737 | The points lie at equal distances in the PCM; each restarts decoding two MP3 frames before the one that holds its PCM frame and discards those |
| SeekTable.DiscardFits | include/dr_mp3.h:4699-4706 | The 16-bit number of PCM frames to discard is the distance to the target from the MP3 frame before if and only if the target does not lie in the first MP3 frame; there it is 65536 more than that (negative) distance |
| SeekTable.SpacedIff | include/dr_mp3.h:4647-4706 | All points of a calculated table discard the right number exactly if none of them lies in the first MP3 frame |
| SeekTable.DiscardExample | include/dr_mp3.h:4699-4706 | With MP3 frames of 1152, 1 and 1 PCM frames and two points, the first point is to discard 64768 PCM frames |
| SeekTable.TableIncreases | include/dr_mp3.h:4691-4703 | The points are strictly increasing |
| SeekTable.SeekByTable | include/dr_mp3.h:4408-4464 | Seeking restarts at the chosen point, discards its MP3 frames and reads forward by what is left; it fails if the MP3 frames are not there |
| SeekTable.TableSeeksLikeReading | include/dr_mp3.h:4408-4464 | With calculated points none of which lies in the first MP3 frame, seeking by table succeeds wherever seeking by reading does and comes to the same position and next PCM frame |
| SeekTable.WrappedSeek | include/dr_mp3.h:4408-4464 | A seek by a point in the first MP3 frame fails, or lands 65536 PCM frames behind the wanted one if the music has no known end and the stream is that long |
| SeekTable.TableSeeksIff | include/dr_mp3.h:4408-4464 | A seek by calculated points comes to the position that seeking by reading comes to exactly if the point it goes by does not lie in the first MP3 frame |
| SeekTable.EqualFramesSpaced | include/dr_mp3.h:4647-4651 | For equal-size MP3 frames the points are never that close, whatever number is asked for |
| Pio.HsyncDecoded | include/hsync.pio.h:16-29 | The hsync words decode to the listed instructions and delays |
| Pio.VsyncDecoded | include/vsync.pio.h:16-34 | The vsync words, with a side-set enable bit, decode to the listed instructions and side-set |
| Pio.RgbDecoded | include/rgb.pio.h:16-29 | The rgb words decode to the listed instructions and delays |
| VgaTiming.HsyncStep | include/hsync.pio.h:18-26 | Every hsync cycle moves one position on in a line of h+145 and raises IRQ 0 at one position only |
| VgaTiming.HsyncLine | include/hsync.pio.h:18-26 | A line lasts h+145 cycles, 96 of them low, and raises IRQ 0 once |
| VgaTiming.VsyncStep | include/vsync.pio.h:18-33 | vsync completes waits only on IRQ 0 and ends a frame after exactly v+45 of them, having raised IRQ 1 v+1 times and waited twice with the pin low |
| VgaTiming.RgbStep | include/rgb.pio.h:18-28 | rgb works a line off in 10(y+1)+6 system cycles from the cycle that sees IRQ 1, and is black while it waits |
| VgaTiming.TickKeeps | include/vsync.pio.h:18-33 | Every system cycle of the three machines keeps the protocol invariant: flags are up only when their reader waits for them |
| VgaTiming.NoInterruptLost | include/rgb.pio.h:18-28 | In no run is an IRQ raised while pending, provided 10(y+1)+6 <= 5(h+145) |
| VgaTiming.InterruptsTaken | include/rgb.pio.h:18-28 | In every run each IRQ is taken by the next cycle of the machine it is for: IRQ 1 starts a line of pixels, IRQ 0 completes a wait |
| VgaTiming.FrameCounts | include/vsync.pio.h:18-33 | In every run every frame takes v+45 IRQ 0 and raises v+1 IRQ 1, on its first waits; the pin is low for two waits, and in the first frame for v+13 exactly if it is low from the start |
| VgaLines.ManyCycles | include/hsync.pio.h:49-58 | In any run of the three machines 5n system cycles from a cycle of hsync on are n cycles of hsync, with all their interrupts, and the system cycles with the pin low are counted exactly |
| VgaLines.LineCounts | include/hsync.pio.h:18-26 | In every run every line, the first too, takes 5(h+145) system cycles, raises IRQ 0 once and has the pin low in 480 of them; 5h+11 more in the first line exactly if the pin is low from the start |
| VgaLines.FirstPulse | include/hsync.pio.h:18-26 | The first line has the pin low for 96 hsync cycles if and only if it is high from the start |
| VgaTiming.BlackWhileWaiting | include/rgb.pio.h:18-28 | In every run the pixel pins are black while rgb waits for IRQ 1 |
| VgaTiming.Board.Clock | include/hsync.pio.h:40-58 | A system cycle of the board, run from the instruction words with hsync and vsync at a fifth of the clock, is the specified one |
| PixelStream.Pack | img_to_vga.py:10-15 | The packing loop yields bytes that hold exactly the thresholded colours in order; an odd number of pixels fails |
| PixelStream.PlayWord | include/rgb.pio.h:23-26 | A word takes ten cycles: its two pixels in order, five cycles and four |
| PixelStream.PixelsShown | include/rgb.pio.h:18-28 | A packed row comes out as its thresholded colours in order, five system cycles each and four for the last, black around them, and the machine waits again |
| Scanout.ScanIsRun | src/vga_graphics.c:93-123 | Feeding the pixel array to rgb byte by byte, from the start again behind its end, is a run of the three machines |
| Scanout.PictureShown | src/vga_graphics.c:17-29 | In every run, for an array of v+1 rows of y+1 bytes, whenever rgb is about to see the (k+1)-th IRQ 1 of a frame the pins then show row k, in every frame alike |
| Scanout.ImageShown | img_to_vga.py:10-15 | The same from the image packed: in every frame the line of the (k+1)-th IRQ 1 shows the thresholded pixels of row k in order |
| KeyQueue.PushKeeps | src/queue.c:14-21 | Every shared access of key_push keeps the ring invariant, wherever the popper is |
| KeyQueue.PopKeeps | src/queue.c:5-13 | Every shared access of key_pop keeps it, wherever the pusher is |
| KeyQueue.RunSafe | src/queue.c:3-21 | In any interleaving what has been popped is a beginning of what was accepted, in order, and at most 31 keys are queued |
| KeyQueue.RunSlotsApart | src/queue.c:10-19 | In any interleaving the slot about to be written is not the slot about to be read, and both lie in the ring |
| KeyQueue.StepIsFifo | src/queue.c:5-21 | Every call takes effect at one step, as in a bounded FIFO: a key is dropped only at an instant at which exactly 31 are queued, and popped keys come from the front |
| KeyQueue.PopperSees | src/queue.c:7-9 | A popper that looks while a key is queued does not go back to sleep |
| KeyQueue.KeyEvents.StepPush | src/queue.c:14-21 | One shared access on the ring in memory is the specified step |
| KeyQueue.KeyEvents.StepPop | src/queue.c:5-13 | One shared access on the ring in memory is the specified step |
| KeyQueue.KeyEvents.KeyPush | src/queue.c:14-21 | Run alone, a push queues its key, or drops it exactly when 31 are queued |
| KeyQueue.KeyEvents.KeyPop | src/queue.c:5-13 | Run alone with a key queued, a pop returns the one queued first |

## Left out

- Sample synthesis, scale factors, stereo processing, IMDCT and filter bank: floating-point constants; a decoded frame is an uninterpreted result of its header, granule records and main data.
- FrameDecoder.Decoder.DecodeLayer3: the synthesis and its own state are not part of it; what they are fed with is.
- FrameDecoder.Decoder.DecodeFrame: the frame information is not handed out; Layer I and II decoding is not modelled; whether such a frame decodes is an input of every call, pull and pass.
- The decoder's remaining big-values tables and band tables: the proofs are for every codebook and table that meets the stated requirements; one of each is shown to.
- HuffmanStage.Huffman: the memory read ahead is constant and has to reach some 2 KiB behind the granule, further than the code is known to read, since the bound counts 51 bits for each of 288 pairs.
- SideInfo.Read: fields that keep a previous record's value are None.
- StreamPull.CallbackStream.NextFrame: the read callback delivers all it is asked for until the stream ends; streams are shorter than INT_MAX where sizes are cast to int.
- StreamPull.MemoryStream.NextFrame: the data size fits an int.
- WindowedStreams.SameFrames: Layers I and II, and free-format frames found by a resync, are not among the frames taken to be in place; whether other streams come out the same is open but for the example.
- PlayedStreams.WrittenPlays: the stream begins with a frame and ends with one; what other bytes around it do is stated in WrittenStreams.JunkSkipped and Resyncs, call by call.
- PcmReader.Reader.ReadRaw: a fixed number of channels, so that one PCM frame is one element; counters are unbounded.
- PcmReader, PcmChunks, Seeking, SeekTable: an MP3 frame's PCM does not depend on where decoding starts; what the frame decoder does instead is in ReservoirRuns and ReservoirStreams.
- Seeking.SeekToStart: the seek callback does not fail.
- Seeking.CountFrames: seeks do not fail; the decoder that counts is a second reader of the same stream; in the original it is the same object, which seeks to the start before and after.
- PcmChunks.FullReadAndClose: the float variant and the configuration returned; closing the decoder.
- SeekTable.CalculateSeekPoints: resampling; at one sample rate the fractional count stays 0, and the running count is taken as an integer.
- SeekTable.SeekByTable: seeks do not fail; reading from a byte position that is not the start of an MP3 frame begins at the next one; the calculated points are all starts of MP3 frames.
- A seek callback that fails, except in SeekTable.OnSeek64; the seek table being bound while frames are counted or points calculated.
- VgaTiming: the pull of the counts before the programs' loops, the DMA transfers themselves, and FIFO starvation (rgb is offered a word whenever it pulls); an IRQ raised in a cycle is seen from the next cycle on.
- Scanout.PictureShown: the pixel array does not change while it is shown.
- Pio.RunCycle: only the instructions the three programs use, in the form they use them.
- PixelStream.Pack: image decoding and resizing; the or of separate bits is written as their sum.
- KeyQueue: sequential consistency; several pushers or poppers; the 16-bit width of keys.
- ID3, APE and Xing/LAME tag parsing, stdio, allocation callbacks, SIMD variants, the sound data headers, `support.c`, USB, SD card and network code.
