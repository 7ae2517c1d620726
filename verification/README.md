# SACD reading, verified

A Dafny model of the parts of the SACD plug-in that turn disc sectors into the bytes a player reads, with proofs. Nothing here is executed; the Dafny verifier checks it:

    dafny verify --resource-limit 2000000 dfyconfig.toml

The way of a track's data is

    disc sectors -> demultiplexer -> (DST frame decoder, in parallel workers) -> DSF repacker -> ring buffer -> Read

and beside it lie the protocol buffers of the network drive and the ID3 tag in front of the stream. Each file models one piece:

- `BufferPool.dfy`, `JobLists.dfy`, `Pipeline.dfy`, `PipelineTheorems.dfy`, `PipelineProgress.dfy`: the parallel decoder as a transition system. One submitter, the workers it launches and one writer share a decode list, a sorted write list and two pools. An action is one region between `possess` and `twist` or `release`, except that the two nested locks of the pool are taken in separate steps. Order, exactly-once delivery, progress, termination, backpressure, pool conservation and the assertions in the code hold in every interleaving.
- `Bits.dfy`, `BitReader.dfy`: bit strings, and the reader of bits from a frame in memory.
- `Segmentation.dfy`, `TableMapping.dfy`, `FrameTables.dfy`, `FrameLayout.dfy`, `Coefs.dfy`, `ArithData.dfy`: the frame header. Each part has a parser on values, an encoder it inverts, and the methods that fill the decoder's arrays, proved against the parser.
- `ArithDecoder.dfy`, `Predictor.dfy`: the arithmetic decoder against exact interval subdivision, and the table-driven filter against the direct sum.
- `FrameCodec.dfy`, `FrameDecoding.dfy`: a whole frame as a function of its bytes. `FrameDecoding.Lossless` is the round trip with an encoder in the sense of subpart 10 of ISO/IEC 14496-3, for every frame, segmentation, mapping, filter and probability table, with the exact condition under which it is lossless.
- `FrameLaws.dfy`, `KnownHeader.dfy`: the pieces of a frame in plain numbers, and one header bit by bit.
- `LostFrames.dfy`: concrete frames for which that condition fails.
- `DstFrame.dfy`: `DST_FramDSTDecode` on its reused working memory. Its outcome is that function, whatever the memory held before; this is why the pipeline may treat decoding as a function of the frame.
- `ParallelDecoding.dfy`: the pipeline with that function in it. Encoded frames that are submitted come back unchanged and in order, in every interleaving.
- `Demux.dfy`, `SectorLayout.dfy`, `Dsf.dfy`, `RingBuffer.dfy`, `Blocks.dfy`, `SacdFile.dfy`: the reading path, up to a statement about any run of `Read` calls.
- `KnownTrack.dfy`, `AudioLaws.dfy`: two sectors byte by byte, and which byte of the frames each returned byte is.
- `Protobuf.dfy`, `PbStream.dfy`, `PbOutput.dfy`: messages of required and optional scalar and bytes fields.
- `Id3.dfy`, `Id3Tag.dfy`: writing a tag and reading it back.

Arrays, linked lists and fields that the source updates in place are classes and arrays here, with methods proved against functions on values; the theorems are about those functions. Bit operations on disjoint fields are written as arithmetic. The target is little-endian.

## Where the code falls short of a law

Each is stated as an exact condition, together with what happens when it fails; the failures that lose audio have a concrete input each.

- Decoding finds the one bit sequence whose interval holds the code exactly when code bits 1 to 12 are not all ones (`ArithDecoder.DecodesTheInterval`).
- The flush was meant to look at the code bits that are left, but its inner loop never clears its result: a frame is accepted exactly when at most seven bits are left, whatever they are (`ArithDecoder.Decoder.Flush`, `ArithDecoder.EncodeDecode`).
- The 16-bit predictor is the exact sum except for 128 taps of -256 over a history of zeros, when +32768 becomes -32768 (`Predictor.PredictorExact`). A frame encoded with exact sums, with a code that has room, is decoded to itself if and only if none of its bits meets that case; the first one that does comes out inverted (`FrameDecoding.Lossless`, `FrameCodec.ReconFlips`, `LostFrames.ZeroFrameLost`).
- The arithmetic code is written out a byte for each bit into memory for as many bits as the frame has, and its length is not checked: it is written past the end exactly when more bits follow the header (`FrameDecoding.EncodedIsDecoded`, `LostFrames.OverlongCode`).
- With one list of segments for all channels, one segment more than the limit is accepted (`Segmentation.AcceptedSegmentsPartition`, `Segmentation.OneSegmentMore`). The rows of the arrays have eight places, and the ninth is the first of the next channel's row: the table number of a ninth segment is kept if and only if, with a shared mapping, it is 0 or there is one channel, or, with one mapping a channel, it is the next channel's first number. Otherwise the bits of the ninth segment are decoded with another probability table than they were coded with (`FrameTables.LabelsExactly`, `FrameLayout.AcceptedLabels`, `FrameLayout.NinthLabelLost`, `LostFrames.NinthFrameLost`). In six channels nine segments are written past the array.
- One call of the repacker conserves a channel's data exactly when it brings nothing, or a block or more, or finds the channel's buffer empty or full (`Dsf.ConservesExactly`).
- No block of sectors mixes encrypted and plain ones exactly when no sector of the second range comes before the first (`Blocks.RightExactly`).
- At the end of a track what waits in the ring, up to 32 KiB, and what the channels hold, 1 to 4096 bytes each, is never delivered. So everything is delivered if and only if the track has no complete frame (`SacdFile.File.LostAtTheEnd`), and any audio at all if and only if its blocks reach 32 KiB (`SacdFile.File.BlocksDelivered`, `SacdFile.OneFrameLost`).
- A tag size is read back exactly below 16384, a frame size exactly below 128, and a whole tag exactly if both hold (`Id3.Size28RoundTrip`, `Id3.FrameSizeRoundTrip`, `Id3.TagRoundTrip`). Sections 3.1 and 3.3 of the ID3v2.3.0 standard ask for more.
- All frames are delivered exactly when some worker lives (`PipelineProgress.DeliversAll`), so always if none fails at its start (`PipelineProgress.AlwaysDelivers`).
- A read of the disc that brings nothing makes `Read` return -1, also where bytes wait in the ring (`SacdFile.File.Read`, `SacdFile.FillExactly`).

## Model

| member | source | states |
|---|---|---|
| BufferPool.CreateInv | lib/libsacd/dstdec/buffer_pool.c:33-40 | a new pool, limited or not, meets the pool invariant |
| BufferPool.MakeSpaceKeeps | lib/libsacd/dstdec/buffer_pool.c:49-84 | making a space keeps the invariant, and the assertion that the limit is not used up holds |
| BufferPool.PopSpaceKeeps | lib/libsacd/dstdec/buffer_pool.c:53-62 | unlinking a listed space under both locks keeps the invariant: it was at use count 0 and nobody else's |
| BufferPool.ListSpaceKeeps | lib/libsacd/dstdec/buffer_pool.c:104-112 | a space is listed again while its use count is still 1, and the invariant allows for just this drop in flight |
| BufferPool.LowerUseKeeps | lib/libsacd/dstdec/buffer_pool.c:101-113 | the assertion on a drop holds: the use count is not 0 |
| BufferPool.StepKeeps | lib/libsacd/dstdec/buffer_pool.c:44-113 | conservation: no step of any thread, between the two nested locks or not, breaks the pool (have counts the list, the list has exactly the unused spaces, each once, limit + made is constant) or touches a space that a job owns |
| BufferPool.ClaimKeeps | lib/libsacd/dstdec/buffer_pool.c:44-85 | a space returned by get belonged to nobody else |
| BufferPool.EnterDropKeeps | lib/libsacd/dstdec/buffer_pool.c:96-113 | a thread may drop a space that a job holds |
| BufferPool.PoolProgress | lib/libsacd/dstdec/buffer_pool.c:44-113 | get takes have then use, drop takes use then have, yet they cannot deadlock: some thread inside a call can move, or one waits at the limit with nothing listed |
| BufferPool.FreeCountsAll | lib/libsacd/dstdec/buffer_pool.c:117-140 | once no call is in flight and no job holds a space, the count at freeing equals the spaces made |
| JobLists.InsertSorts | lib/libsacd/dstdec/dst_decoder.c:198-209 | insertion keeps the write list strictly sorted, keeps all jobs in it and adds this one |
| JobLists.Lists.constructor | lib/libsacd/dstdec/dst_decoder.c:99-104 | both lists start empty, with lock values 0 and -1 |
| JobLists.Lists.Submit | lib/libsacd/dstdec/dst_decoder.c:367-372 | a job goes to the end of the decode list and decode_have counts it; the write list is untouched |
| JobLists.Lists.Take | lib/libsacd/dstdec/dst_decoder.c:168-178 | a worker gets the oldest queued job, once decode_have is not 0 |
| JobLists.Lists.PutWrite | lib/libsacd/dstdec/dst_decoder.c:198-209 | the walk ends at the job's place in the sorted list, and write_first becomes the number at the head |
| JobLists.Lists.TakeWrite | lib/libsacd/dstdec/dst_decoder.c:241-245 | the writer that waited for a number gets the job with that number, and write_first becomes the next head or -1 |
| JobLists.Lists.Close | lib/libsacd/dstdec/dst_decoder.c:271-273 | the writer leaves write_first at -1 |
| Pipeline.InitInv | lib/libsacd/dstdec/dst_decoder.c:93-109 | the state after setup meets the invariant |
| Pipeline.FillKeeps | lib/libsacd/dstdec/dst_decoder.c:346-358 | a submitted job has its own input space, which holds its frame |
| Pipeline.TakeKeeps | lib/libsacd/dstdec/dst_decoder.c:168-178 | a job leaves the decode list for exactly one worker |
| Pipeline.DecodeKeeps | lib/libsacd/dstdec/dst_decoder.c:183-196 | a decoded job owns an output space that holds its own frame decoded, and gives its input space back |
| Pipeline.InsertKeeps | lib/libsacd/dstdec/dst_decoder.c:198-209 | a finished job moves from its worker to its place in the write list |
| Pipeline.TakeWriteKeeps | lib/libsacd/dstdec/dst_decoder.c:240-245 | the job the writer takes is the next in submission order |
| Pipeline.ReportKeeps | lib/libsacd/dstdec/dst_decoder.c:247-257 | the callbacks made are those of the next frame, after the earlier ones |
| PipelineTheorems.ActionKeeps | lib/libsacd/dstdec/dst_decoder.c:153-373 | every action of every thread keeps the invariant of the whole system |
| PipelineTheorems.DeliveredInOrder | lib/libsacd/dstdec/dst_decoder.c:165-265 | in every interleaving the callbacks are a prefix of those for frame 0, 1, 2, .. in submission order, each once, and all of them once the final job is written |
| PipelineTheorems.ListsConsistent | lib/libsacd/dstdec/dst_decoder.c:165-245 | in every reachable state the lock values count or head their lists, the write list is strictly sorted, the decode list is consecutive, and no job is in two places |
| PipelineTheorems.ListStep | lib/libsacd/dstdec/dst_decoder.c:165-373 | in every reachable state an enabled action meets the precondition of its lock region, changes the lists and lock values as that region does and nothing else of them, and hands the right job on |
| PipelineTheorems.Follow | lib/libsacd/dstdec/dst_decoder.c:165-373 | the class of the lists, driven by any run, always holds what the transition system says |
| PipelineTheorems.Drained | lib/libsacd/dstdec/dst_decoder.c:153-308 | when the writer has taken the final job, lists and workers are empty-handed |
| PipelineTheorems.ExitAssertions | lib/libsacd/dstdec/dst_decoder.c:267-273 | the assertions after the writer's loop hold on every run, and freeing either pool then counts every space made |
| PipelineProgress.Progress | lib/libsacd/dstdec/dst_decoder.c:153-373 | while a worker lives and the writer has not exited, some thread can move, although the input pool is limited |
| PipelineProgress.RunsAreFinite | lib/libsacd/dstdec/dst_decoder.c:153-373 | no schedule is longer than 23 actions for each job and 3 for the writer's exit |
| PipelineProgress.DeliversAll | lib/libsacd/dstdec/dst_decoder.c:153-373 | a run that can go no further has let the writer exit, with every frame delivered, if and only if some worker is alive |
| PipelineProgress.WorkersLaunched | lib/libsacd/dstdec/dst_decoder.c:361-365 | in every reachable state there are as many workers as jobs on their way, up to the processors, and all live if none failed at its start |
| PipelineProgress.AlwaysDelivers | lib/libsacd/dstdec/dst_decoder.c:153-373 | with a processor, and no worker failing at its start, every run that can go no further has delivered every frame and let the writer exit |
| PipelineProgress.Backpressure | lib/libsacd/dstdec/dst_decoder.c:107-107 | at most 2 * procs + 2 input spaces are made, so at most as many frames are queued, and the final job |
| ParallelDecoding.DecodedInOrder | lib/libsacd/dstdec/dst_decoder.c:147-265 | with the frame decoder in the workers, every interleaving makes the callbacks for the frames that the submitted bytes code, errors reported, silence in the place of a failed frame, in submission order |
| ParallelDecoding.FramesComeBack | lib/libsacd/dstdec/dst_decoder.c:147-373 | any frames that are encoded within the decoder's memory and 16 bits and submitted are called back unchanged, in order and without an error, however many workers there are, and all of them once the writer has exited |
| BitReader.StrData.FillBuffer | lib/libsacd/dstdec/dst_data.c:169-186 | a new frame is read from its first bit, whatever was read before |
| BitReader.StrData.GetBitsRaw | lib/libsacd/dstdec/dst_data.c:374-424 | getbits returns the big-endian value of the next slice of the bit string and moves past it, or fails exactly when the data ends first |
| BitReader.StrData.GetOneBit | lib/libsacd/dstdec/dst_data.c:374-424 | the fast path for one bit agrees with the slice |
| BitReader.StrData.BitGetIntUnsigned | lib/libsacd/dstdec/dst_data.c:245-266 | an unsigned field up to 32 bits, cut to an int, or the error |
| BitReader.StrData.BitGetShortSigned | lib/libsacd/dstdec/dst_data.c:329-355 | a field of any length up to 31 in two's complement, cut to a short beyond 16 bits; 0 for no bits; an error for a negative length or the end of the data |
| BitReader.StrData.BitGetChrUnsigned | lib/libsacd/dstdec/dst_data.c:205-226 | a field of any length up to 31, cut to a byte beyond 8 bits; 0 for no bits; an error for a negative length or the end of the data; past the end the byte is 0 |
| BitReader.FieldOfByte | lib/libsacd/dstdec/dst_data.c:374-424 | the bits masked out of the current byte are the next bits of the string |
| Segmentation.ComputeLog2 | lib/libsacd/dstdec/unpack_dst.c:190-198 | the loop computes the width of the numbers up to x |
| Segmentation.Log2Bounds | lib/libsacd/dstdec/unpack_dst.c:190-198 | that width is the smallest that fits x |
| Segmentation.ReadLength | lib/libsacd/dstdec/unpack_dst.c:240-273 | an accepted length is at least the minimum and leaves room for a last segment |
| Segmentation.AcceptedSegmentsPartition | lib/libsacd/dstdec/unpack_dst.c:215-338 | an accepted segmentation cuts every channel into consecutive segments of at least the minimum length that cover the frame; at most the limit channel by channel, one more when shared |
| Segmentation.OneSegmentMore | lib/libsacd/dstdec/unpack_dst.c:237-281 | the one segment more is really accepted |
| Segmentation.SegmentsRoundTrip | lib/libsacd/dstdec/unpack_dst.c:215-338 | every segmentation that can be written is read back, with exactly its bits |
| TableMapping.FirstUseMeansOrdered | lib/libsacd/dstdec/unpack_dst.c:475-486 | the test of each number against the count so far holds if and only if all smaller numbers come before each number |
| TableMapping.AcceptedMapping | lib/libsacd/dstdec/unpack_dst.c:456-521 | an accepted mapping gives every segment a table, numbers tables in order of first use, uses all of them, and has at most the allowed number |
| TableMapping.TableExists | lib/libsacd/dstdec/unpack_dst.c:456-521 | every segment's table is one of the tables |
| TableMapping.MapRoundTrip | lib/libsacd/dstdec/unpack_dst.c:456-521 | every mapping that can be written is read back, with exactly its bits |
| FrameTables.Segment.constructor | lib/libsacd/dstdec/unpack_dst.c:215-222 | the flat arrays of six rows of eight have their sizes and are apart from each other |
| FrameTables.ReadTableSegmentData | lib/libsacd/dstdec/unpack_dst.c:215-338 | the arrays hold exactly the segmentation in the frame, whatever they held before; an error is the parser's error. Nine segments fit because the ninth length is never stored but as the terminating zero |
| FrameTables.ReadSharedLengths | lib/libsacd/dstdec/unpack_dst.c:237-274 | the shared list with its running sums is the parsed one, in the cells of the source |
| FrameTables.ReadChannelLengths | lib/libsacd/dstdec/unpack_dst.c:284-332 | the lists channel by channel, with one resolution for all, are the parsed ones |
| FrameTables.CopySegmentData | lib/libsacd/dstdec/unpack_dst.c:357-389 | the probability tables get the same segments; the result is that of the checks in order |
| FrameTables.CopyAlwaysPasses | lib/libsacd/dstdec/unpack_dst.c:357-389 | after an accepted filter segmentation the checks made while copying cannot fail |
| FrameTables.ReadTableMappingData | lib/libsacd/dstdec/unpack_dst.c:456-521 | the array holds the mapping in the frame as rows of eight keep it (`Seen`): a ninth number is overwritten by what is written into the next row; or the error is the parser's |
| FrameTables.CopyMappingData | lib/libsacd/dstdec/unpack_dst.c:540-566 | the probability tables get the filters' mapping, or the error of the checks |
| FrameTables.CopyMapAccepts | lib/libsacd/dstdec/unpack_dst.c:540-566 | the copy is accepted if and only if the segment counts agree and there are not too many tables |
| FrameTables.SeenExactly | lib/libsacd/dstdec/unpack_dst.c:475-515 | the array holds the mapping that was coded if and only if no ninth number is lost: shared, it is 0 or there is one channel; channel by channel, each is the next channel's first number |
| FrameTables.EightAreKept | lib/libsacd/dstdec/unpack_dst.c:475-515 | with at most eight segments a channel nothing is lost |
| FrameTables.TableAtIs | lib/libsacd/dstdec/dst_fram.c:195-211 | the label of a bit is the table of the one segment that holds the bit |
| FrameTables.LabelsExactly | lib/libsacd/dstdec/dst_fram.c:186-212 | every bit is labelled with the table coded for its segment if and only if no ninth number is lost |
| FrameLayout.ReadSegmentData | lib/libsacd/dstdec/unpack_dst.c:408-439 | filter and probability segments, shared or separate, are the parsed ones, in arrays that do not overlap |
| FrameLayout.ReadHalfProb | lib/libsacd/dstdec/unpack_dst.c:585-613 | the half-probability flags of all channels |
| FrameLayout.ReadMappingData | lib/libsacd/dstdec/unpack_dst.c:585-613 | filter and probability mappings, shared or separate, are the parsed ones as the rows of eight keep them |
| FrameLayout.FillTable4Bit | lib/libsacd/dstdec/dst_fram.c:186-212 | every bit of every channel gets the table that the arrays hold for its segment, with no gap and no overlap |
| FrameLayout.LayoutRoundTrip | lib/libsacd/dstdec/unpack_dst.c:408-613 | segmentation and mapping as a whole are read back, with exactly their bits |
| FrameLayout.AcceptedLabels | lib/libsacd/dstdec/unpack_dst.c:408-613 | in every accepted layout filters are labelled as coded, and probability tables are if and only if no ninth number is lost |
| FrameLayout.NinthLabelLost | lib/libsacd/dstdec/unpack_dst.c:475-515 | a concrete layout of two channels that is written and accepted, whose ninth segment is coded with table 1 and labelled 0 |
| Coefs.RiceDecode | lib/libsacd/dstdec/unpack_dst.c:141-173 | the loops read the parsed number |
| Coefs.RiceRoundTrip | lib/libsacd/dstdec/unpack_dst.c:141-173 | every number, for every parameter m, is read back from its Rice code, with exactly its bits |
| Coefs.FiltersInRange | lib/libsacd/dstdec/unpack_dst.c:637-713 | accepted filters have 1 to 128 coefficients from -256 to 255 |
| Coefs.PtablesInRange | lib/libsacd/dstdec/unpack_dst.c:734-817 | accepted probability tables have 1 to 64 entries from 1 to 128 |
| Coefs.ListRoundTrip | lib/libsacd/dstdec/unpack_dst.c:637-817 | prediction inverts: for every predictor table, method and m the same coefficients or probabilities are rebuilt, with exactly their bits |
| Coefs.ReadFilterCoefSets | lib/libsacd/dstdec/unpack_dst.c:637-713 | orders and coefficients are the parsed ones, zero from the order on; what parsing predicts is fixed by the laws below |
| Coefs.ReadProbabilityTables | lib/libsacd/dstdec/unpack_dst.c:734-817 | lengths and probabilities are the parsed ones; what parsing predicts is fixed by the laws below |
| Coefs.Predict | lib/libsacd/dstdec/unpack_dst.c:690-702 | the loop over the taps computes the weighted sum of the entries before |
| Coefs.GuessRounds | lib/libsacd/dstdec/unpack_dst.c:690-702 | without naming its formula: the prediction is the one number g with -4 <= x + 8g <= 3 for the weighted sum x |
| Coefs.ContinuedReadBack | lib/libsacd/dstdec/unpack_dst.c:690-817 | codes of no residue go on with a constant under method 0, a line under method 1 and, for probabilities, a parabola under method 2 |
| Coefs.ThirdFilterMethod | lib/libsacd/dstdec/unpack_dst.c:690-702 | in numbers, the third method of the filters predicts 9, 5 and -6 eighths of the last entries, rounded |
| Coefs.PredictedFilter | lib/libsacd/dstdec/unpack_dst.c:663-707 | a filter of two coefficients bit by bit, the second one, 100, made up by prediction alone |
| Coefs.RiceWords | lib/libsacd/dstdec/unpack_dst.c:141-173 | the Rice codes of 5, -5, 0 and 1 bit by bit |
| ArithData.SpreadIsBits | lib/libsacd/dstdec/unpack_dst.c:836-848 | a table entry holds the four bits of its nibble, one to a byte |
| ArithData.SignedNibble | lib/libsacd/dstdec/unpack_dst.c:850-874 | shifting the signed word gives the nibble of the unsigned one |
| ArithData.ReadArithmeticCodedData | lib/libsacd/dstdec/unpack_dst.c:850-874 | the loop of 32 bits at a time and the loop for the rest give one byte for each bit, for every length |
| ArithData.ReadDSDframe | lib/libsacd/dstdec/unpack_dst.c:115-125 | the bytes of an uncoded frame as they are, zeros for those that are missing, and the rest of the output unchanged |
| ArithDecoder.Decoder.constructor | lib/libsacd/dstdec/dst_fram.c:88-101 | the registers after reading 12 code bits, zeros past the end |
| ArithDecoder.Decoder.Decode | lib/libsacd/dstdec/dst_fram.c:103-136 | one decoded bit and the registers after it, A back in [HALF, ONE); how the interval is divided is fixed by the laws below |
| ArithDecoder.Decoder.Flush | lib/libsacd/dstdec/dst_fram.c:138-157 | accepts exactly when at most seven code bits are left, whatever they are |
| ArithDecoder.ShareBounds | lib/libsacd/dstdec/dst_fram.c:108-111 | for a probability of 1 to 128 both parts of the interval are non-empty, so no step shifts more than 8 times |
| ArithDecoder.ShareRounds | lib/libsacd/dstdec/dst_fram.c:108-111 | in numbers: 256 times the share is within 128 p of A p if A / 256 is even, and at most 256 p below it if it is odd |
| ArithDecoder.TwoBits | lib/libsacd/dstdec/dst_fram.c:88-136 | two bits of one code, with all registers between them, where the rounding decides the second bit |
| ArithDecoder.WindowStep | lib/libsacd/dstdec/dst_fram.c:103-136 | one step narrows and widens the exact interval just as the registers, with at most 8 shifts |
| ArithDecoder.WindowIsExact | lib/libsacd/dstdec/dst_fram.c:88-136 | after n shifts the integer of code bits 1 to 12 + n is the lower end of the exact interval plus C, with C < A and HALF <= A < ONE, for every adaptive choice of probabilities |
| ArithDecoder.IntervalsDisjoint | lib/libsacd/dstdec/dst_fram.c:103-136 | no code lies in the exact intervals of two sequences of one length |
| ArithDecoder.DecodesTheInterval | lib/libsacd/dstdec/dst_fram.c:88-136 | the decoded sequence is the only one whose exact interval holds the code, if and only if code bits 1 to 12 are not all ones |
| ArithDecoder.EncodeDecode | lib/libsacd/dstdec/dst_fram.c:88-157 | arithmetic coding is lossless, whatever follows the code word; the flush accepts if and only if at most seven bits follow |
| Predictor.InitCoefTables | lib/libsacd/dstdec/dst_fram.c:241-270 | the sixteen tables of a filter, entry by entry, the cast to 16 bits losing nothing |
| Predictor.EntryFits | lib/libsacd/dstdec/dst_fram.c:259-267 | no table entry leaves 16 bits |
| Predictor.RunFilter | lib/libsacd/dstdec/dst_fram.c:299-315 | the sixteen lookups add up to the direct sum over the filter's taps, modulo 2^16 |
| Predictor.ShiftHistory | lib/libsacd/dstdec/dst_fram.c:407-414 | shifting the four words puts the new bit in front and drops the oldest |
| Predictor.FreshHistory | lib/libsacd/dstdec/dst_fram.c:272-283 | bit n of the starting register is n mod 2 |
| Predictor.PredictorExact | lib/libsacd/dstdec/dst_fram.c:299-315 | the 16-bit sum is exact if and only if it is not the one of 128 taps of -256 over an all-zero history, which becomes -32768 |
| FrameCodec.AcceptedHeaderIsGood | lib/libsacd/dstdec/unpack_dst.c:916-935 | what unpacking checks is what the decode loop needs: every bit's tables exist and all values are in range, also where a ninth number was lost |
| FrameCodec.StoredExactly | lib/libsacd/dstdec/unpack_dst.c:918-935 | the arrays hold the accepted header if and only if no ninth number is lost; its filters they always hold |
| FrameCodec.Probability | lib/libsacd/dstdec/dst_fram.c:388-399 | the residual's probability is from 1 to 128, with or without a table; which one it is follows below |
| FrameCodec.ReverseIsReversed | lib/libsacd/dstdec/dst_fram.c:226-239 | the table reverses the low seven bits and adds one |
| FrameCodec.ReconExactly | lib/libsacd/dstdec/dst_fram.c:370-416 | reconstruction in 16 bits gives back the bits from the residuals of an exact encoder if and only if no bit meets a filter of 128 taps of -256 with 128 zeros before it in its channel |
| FrameCodec.ReconFlips | lib/libsacd/dstdec/dst_fram.c:402-402 | the first bit that does comes out inverted |
| FrameCodec.SameProbability | lib/libsacd/dstdec/dst_fram.c:159-170 | even there the exact and the wrapped sum choose the same probability |
| FrameCodec.ModelsAgree | lib/libsacd/dstdec/dst_fram.c:370-416 | up to the first sum that does not fit, and there too, encoder and decoder take the same probabilities |
| FrameLaws.PastIs | lib/libsacd/dstdec/dst_fram.c:407-414 | a prediction sees the bits of its own channel, the last one first, and alternating bits before the frame |
| FrameLaws.SumIs | lib/libsacd/dstdec/dst_fram.c:375-383 | the exact sum is taken with the filter of the segment that the bit lies in |
| FrameLaws.SumLaws | lib/libsacd/dstdec/dst_fram.c:241-270 | over ones the coefficients are added, over zeros subtracted |
| FrameLaws.SumFlips | lib/libsacd/dstdec/dst_fram.c:241-270 | a one in the place of a zero adds its coefficient twice |
| FrameLaws.ProbabilityIs | lib/libsacd/dstdec/dst_fram.c:386-399 | for any sum x and table t the probability is t[i] where 8i <= abs(x) < 8i + 8, the last entry from there on, and 128 in a half-probability start, which lasts as long as the channel's first filter |
| FrameLaws.FirstProbIs | lib/libsacd/dstdec/dst_fram.c:367-368 | the bit in front of the residuals is decoded with the low seven bits of the first coefficient in reverse, plus one |
| FrameLaws.ReconIs | lib/libsacd/dstdec/dst_fram.c:401-402 | every bit is the sign of its prediction, inverted if its residual is 1 |
| FrameLaws.BitIsStored | lib/libsacd/dstdec/dst_fram.c:404-405 | bit b of a channel is bit 7 - b mod 8 of that channel's byte in row b / 8 |
| KnownHeader.KnownIsRead | lib/libsacd/dstdec/unpack_dst.c:916-935 | a header of 155 bits, written out field by field, is parsed, wherever it stands |
| KnownHeader.KnownProbability | lib/libsacd/dstdec/dst_fram.c:386-399 | its tables have distinct entries: which one is taken for any sum, at any bit |
| KnownHeader.KnownSum | lib/libsacd/dstdec/dst_fram.c:375-383 | its filters' sums over zeros in both segments |
| KnownHeader.OneCutIsRead | lib/libsacd/dstdec/unpack_dst.c:286-331 | a segmentation channel by channel, bit by bit |
| KnownHeader.LengthsAccepted | lib/libsacd/dstdec/unpack_dst.c:286-331 | in bytes, the first segment lengths that are accepted for filters and for tables, and the error for all others |
| KnownHeader.ThreeNumbersAreRead | lib/libsacd/dstdec/unpack_dst.c:497-515 | a mapping channel by channel, bit by bit: no bit for the first number, then as many as the count needs |
| FrameDecoding.BytesOfFrameBits | lib/libsacd/dstdec/dst_fram.c:404-405 | putting each decoded bit at its muxed byte and bit place gives the frame |
| FrameDecoding.FrameBytesDetermine | lib/libsacd/dstdec/dst_fram.c:404-405 | a frame has only one bit sequence that puts it out |
| FrameDecoding.HeaderRoundTrip | lib/libsacd/dstdec/unpack_dst.c:916-935 | every header that can be written is read back, with exactly its bits |
| FrameDecoding.EncodedIsDecoded | lib/libsacd/dstdec/unpack_dst.c:916-938 | the bytes of an encoded frame are decoded from its code and at most seven bits more if these have room, and are written past the memory otherwise |
| FrameDecoding.Lossless | lib/libsacd/dstdec/dst_fram.c:332-423 | any DSD frame, coded by an encoder with exact sums, with any segmentation, mapping, filters and probability tables the format can carry, decodes to itself if and only if its arithmetic code has room for a byte a bit and every sum of the filters fits 16 bits; a lost ninth number does not matter where the number in its place gives the same probabilities. A code without room is undefined |
| FrameDecoding.TablesKeptSuffice | lib/libsacd/dstdec/unpack_dst.c:475-515 | probabilities are kept for every frame if each segment's table in the arrays has the entries of the one coded for it, as it has if no ninth number is lost |
| LostFrames.ZeroFrameLost | lib/libsacd/dstdec/dst_fram.c:332-423 | a concrete frame whose code has room and that does not come back: zeros, with a filter of 128 coefficients -256 in the last segment |
| LostFrames.NinthFrameLost | lib/libsacd/dstdec/dst_fram.c:332-423 | a concrete frame whose code has room and whose sums all fit, and that does not come back because its ninth segments are decoded with another table |
| LostFrames.OverlongCode | lib/libsacd/dstdec/unpack_dst.c:848-874 | a concrete frame whose code has no room |
| LostFrames.CheapRun | lib/libsacd/dstdec/dst_fram.c:332-423 | a run of symbols that are all but certain adds one bit for more than a hundred of them |
| LostFrames.SymbolLost | lib/libsacd/dstdec/dst_fram.c:388-399 | where encoder and decoder first take different probabilities, a symbol coded at even odds and decoded as nearly impossible comes out inverted |
| FrameDecoding.UncodedFrame | lib/libsacd/dstdec/unpack_dst.c:904-917 | a frame that is not coded comes out as it went in, cut to the frame size or filled up with zeros |
| DstFrame.Ebunch.constructor | lib/libsacd/dstdec/dst_decoder.c:157-163 | working memory of the source's fixed sizes, a byte for each bit of a frame among it, nothing shared |
| DstFrame.Ebunch.DecodeResidual | lib/libsacd/dstdec/dst_fram.c:388-399 | the choice of a probability, which `FrameLaws.ProbabilityIs` puts in numbers, and one arithmetic decoding |
| DstFrame.Ebunch.PredictBit | lib/libsacd/dstdec/dst_fram.c:380-383 | the tables and the shift register give the prediction from the channel's past |
| DstFrame.Ebunch.DecodeOneBit | lib/libsacd/dstdec/dst_fram.c:375-415 | one bit is decoded, reconstructed, stored in its place and remembered, and nothing else in the frame changes |
| DstFrame.Ebunch.DecodeBits | lib/libsacd/dstdec/dst_fram.c:363-422 | the whole loop and the flush compute the frame, or the decoder error |
| DstFrame.Ebunch.UnpackHeader | lib/libsacd/dstdec/unpack_dst.c:916-932 | every table entry that decoding reads is written for this frame, the mappings as rows of eight keep them |
| DstFrame.Ebunch.UnpackCoded | lib/libsacd/dstdec/unpack_dst.c:918-938 | header and arithmetic code, or the error of the first part that fails |
| DstFrame.Ebunch.UnpackUncoded | lib/libsacd/dstdec/unpack_dst.c:904-917 | the stuffing bits are checked and the bytes copied, with zeros for those that are missing |
| DstFrame.Ebunch.FramDSTDecode | lib/libsacd/dstdec/dst_fram.c:332-430 | history independence: error and frame are a function of the bytes of this frame alone, whatever the working memory held; on an error every byte is 0x55 |
| DstFrame.StoreBit | lib/libsacd/dstdec/dst_fram.c:404-405 | setting one bit turns the frame of the bits so far into the frame with one bit more |
| DstFrame.ShiftStatus | lib/libsacd/dstdec/dst_fram.c:407-414 | the shift register of the channel, and of no other, takes the bit |
| Demux.Handle.constructor | lib/libsacd/scarletbook_read.c:551-557 | a reader that has read nothing |
| Demux.Handle.ExecReadCallback | lib/libsacd/scarletbook_read.c:575-585 | the open frame is called back exactly if it is complete, which `Demux.FramesExactly` puts in bytes and counts |
| Demux.Handle.BeginFrame | lib/libsacd/scarletbook_read.c:637-650 | a frame start closes the open frame and opens the next with its own info |
| Demux.Handle.AddData | lib/libsacd/scarletbook_read.c:651-667 | data go to the end of the open frame, which is dropped when it gets too long |
| Demux.Handle.ReadSector | lib/libsacd/scarletbook_read.c:591-681 | a sector adds its packets' events, and leaves all packets used up |
| Demux.Handle.ProcessFrames | lib/libsacd/scarletbook_read.c:587-688 | after any calls the frames called back are those that the packet stream so far completes |
| Demux.SplitIndependent | lib/libsacd/scarletbook_read.c:587-688 | the same sectors cut into calls in any way call back the same frames |
| Demux.AtTheEnd | lib/libsacd/scarletbook_read.c:683-686 | at the end exactly the complete frames of the stream have been called back, each once, in order |
| Demux.FramesExactly | lib/libsacd/scarletbook_read.c:575-585 | in numbers: of the DST coded frames exactly those with as many packets as announced, of the plain ones exactly those of a multiple of 4704 bytes, if they have from 1 to 65535 bytes, in order |
| Demux.MuxedReadsBack | lib/libsacd/scarletbook_read.c:631-686 | any stream of frames in any pieces reads back as these frames, the incomplete and overlong ones dropped |
| Demux.SectorReadsBack | lib/libsacd/scarletbook_read.c:591-629 | header, packet table, frame table and payload are found again in a sector laid out from them |
| SectorLayout.PagesReadBack | lib/libsacd/scarletbook_read.c:587-681 | the sectors of any pages of packets, of any data types, are read as what the pages say |
| SectorLayout.FramesCalledBack | lib/libsacd/scarletbook_read.c:587-688 | pages that hold a stream of frames in any arrangement, read in calls with any parts of their sectors, make exactly its complete frames be called back |
| SectorLayout.TrackReadsBack | lib/libsacd/scarletbook_read.c:587-688 | every track of frames can be laid out as sectors, and reading them in any calls gives its complete frames in order |
| SectorLayout.ReadTrack | lib/libsacd/scarletbook_read.c:551-688 | a new reader given such a track part by part has called back its frames in order: with DST coding those with as many packets as announced, otherwise those of a multiple of 4704 bytes, if they have from 1 to 65535 bytes |
| KnownTrack.InfoByteIs | lib/libsacd/scarletbook.h:491-514 | the packet count and the channels that each value of a frame info's last byte gives |
| KnownTrack.KnownFrames | lib/libsacd/scarletbook_read.c:575-681 | two sectors byte by byte: a DST coded frame of two packets, both announced, is called back; the next, of one packet, if and only if its info announces one |
| Demux.EmittedGrows | lib/libsacd/scarletbook_read.c:587-688 | more sectors only add callbacks after the earlier ones |
| Demux.EmittedBound | lib/libsacd/scarletbook_read.c:653-666 | frames called back are at most the open one and the data since |
| Dsf.ReverseTwice | lib/libsacd/dsf.c:47-65 | the table is an involution |
| Dsf.ReverseByBits | lib/libsacd/dsf.c:47-65 | the table reverses the bits of a byte |
| Dsf.Writer.StoreByte | lib/libsacd/dsf.c:209-215 | a channel's buffer takes the reversed byte, other channels nothing |
| Dsf.Writer.EmitBlock | lib/libsacd/dsf.c:216-226 | a block goes out, padded with zeros, and the buffer is empty |
| Dsf.Writer.Round | lib/libsacd/dsf.c:202-227 | all channels store a byte or all put out a block: they stay in lockstep |
| Dsf.Writer.WriteFrame | lib/libsacd/dsf.c:191-231 | the loop ends; each channel is fed its bytes of the frame; the blocks fit the output buffer, channel by channel; the size returned and the sample count are right |
| Dsf.ConservesExactly | lib/libsacd/dsf.c:191-231 | one call conserves a channel's data if and only if it brings nothing, or a block or more, or finds the buffer empty or full |
| Dsf.ShortCallWrites | lib/libsacd/dsf.c:206-226 | a call that brings no more than a channel holds puts that out with zeros behind it |
| Dsf.RunConserves | lib/libsacd/dsf.c:191-231 | over any run of calls of a block or more per channel, blocks put out and bytes held are the bytes brought, in order |
| Dsf.LaidIsInterleaved | lib/libsacd/dsf.c:219-220 | the output is the channels' blocks in turn |
| RingBuffer.Ring.constructor | src/RingBuffer.h:35-43 | a ring without memory is an empty queue |
| RingBuffer.Ring.Create | src/RingBuffer.cpp:21-32 | an empty queue of the given size |
| RingBuffer.Ring.Destroy | src/RingBuffer.cpp:35-48 | the memory is gone and the queue empty |
| RingBuffer.Ring.Clear | src/RingBuffer.cpp:51-58 | the queue is empty, the memory stays |
| RingBuffer.Ring.ReadData | src/RingBuffer.cpp:63-88 | bytes leave the front of the queue in order, also around the end; refused exactly if there are too few |
| RingBuffer.Ring.ReadDataTo | src/RingBuffer.cpp:93-112 | bytes move from this queue to the end of another, which may be made for them; or neither changes |
| RingBuffer.Ring.WriteData | src/RingBuffer.cpp:117-142 | bytes join the end of the queue, also around the end; refused exactly if they do not fit |
| RingBuffer.Ring.WriteDataFrom | src/RingBuffer.cpp:147-165 | bytes of another ring join the end, and stay in the other |
| RingBuffer.Ring.SkipBytes | src/RingBuffer.cpp:168-196 | bytes leave the front unread; refused if negative or too many |
| RingBuffer.Ring.Append | src/RingBuffer.cpp:199-202 | all of another ring joins the end if it fits |
| RingBuffer.Ring.Copy | src/RingBuffer.cpp:205-209 | the queue becomes that of another ring, or empty if it does not fit |
| Blocks.Choose | src/SACDFile.cpp:353-386 | a block has 1 to 512 sectors and stays in the track |
| Blocks.ChooseIsLargest | src/SACDFile.cpp:353-386 | a block stops only at 512 sectors, the end of the track, or where a range begins or has ended |
| Blocks.RightExactly | src/SACDFile.cpp:353-386 | no block mixes encrypted and plain sectors, wherever it starts, if and only if no sector of the second range comes before the first range |
| Blocks.ProcessTrack | lib/libsacd/scarletbook_output.c:343-386 | for any answers of the device, empty ones among them, each block is what one nonempty answer gave of what was asked for there, in order, and the blocks tile what has been read; with ordered ranges each is rightly decrypted or not; the track is finished after as many nonempty reads as it has sectors, at the latest |
| Blocks.EverySectorOnce | lib/libsacd/scarletbook_output.c:343-386 | a tiling reads each sector of the track once, and no other |
| SacdFile.FrameConserved | src/SACDFile.cpp:205-215 | repacking a full frame neither loses nor adds a byte |
| SacdFile.AudioSize | src/SACDFile.cpp:205-215 | audio put out and held is as much as the frames brought |
| SacdFile.FramesSoFar | src/SACDFile.cpp:420-421 | frames called back after some sectors are a prefix of the track's, and all of them after the last |
| SacdFile.AudioGrowth | src/SACDFile.cpp:348-422 | one block of sectors brings at most what the ring still has room for when less than 32 KiB wait |
| SacdFile.File.constructor | src/SACDFile.cpp:261-321 | an opened track has delivered nothing, has not asked the device, and is at its first sector |
| SacdFile.File.FrameReadCallback | src/SACDFile.cpp:205-215 | the repacked frame joins the ring, which never refuses it |
| SacdFile.File.ReadBlock | src/SACDFile.cpp:350-422 | as many sectors are read as the device has ready of those asked for, and their frames repacked into the ring; it fails exactly if that is none; what was delivered and what waits stays a prefix of the stream |
| SacdFile.File.FillRing | src/SACDFile.cpp:348-424 | the loop reads as far as its specification, from what waits and the answers of the device |
| SacdFile.FillExactly | src/SACDFile.cpp:348-424 | the loop fails exactly at an empty answer; it asks exactly while less than 32 KiB wait and sectors are left; it succeeds only with 32 KiB or at the end |
| SacdFile.File.Read | src/SACDFile.cpp:323-431 | the caller gets the next bytes of the stream, exactly as many as asked for or as tag, header or ring have left; -1, which delivers nothing, if and only if one of the device's answers in this call was empty; 0 for a nonzero request only at the end; for tag and header the device is not asked |
| SacdFile.File.ReadToEnd | src/SACDFile.cpp:323-431 | a player with any nonzero sizes, and a device without empty answers, gets to the end, with tag, header and all blocks up to what waits in the ring |
| SacdFile.File.DeliveredIsPrefix | src/SACDFile.cpp:323-431 | over any run of calls with any sizes the bytes returned are a prefix of tag, DSF header and blocks of repacked audio; at the end fewer than 32 KiB of that are missing |
| SacdFile.File.LostAtTheEnd | src/SACDFile.cpp:348-424 | what is missing at the end, to the byte: what waits in the ring and what the channels hold; nothing is missing if and only if both are empty, which is if and only if the track has no complete frame |
| SacdFile.File.BlocksDelivered | src/SACDFile.cpp:348-431 | some audio has been delivered at the end if and only if the blocks of the track reach 32 KiB |
| SacdFile.HeldAfter | src/SACDFile.cpp:205-215 | after any frame every channel holds something that has not gone out |
| SacdFile.OneFrameTrack | lib/libsacd/scarletbook_read.c:587-688 | a concrete track of one uncoded stereo frame: two blocks, and 608 bytes left in each channel |
| SacdFile.OneFrameLost | src/SACDFile.cpp:323-431 | of it no audio byte is ever delivered, whatever sizes are asked for |
| AudioLaws.AudioByte | lib/libsacd/dsf.c:191-231 | byte k of block r of channel j of the audio is byte (4096 r + k) n + j of the frames of n channels, one behind the other, its bits reversed |
| AudioLaws.DeliveredByte | src/SACDFile.cpp:323-431 | over any run of calls, every audio byte returned is that byte of the track's complete frames |
| Protobuf.VarintRoundTrip | lib/libsacd/common/pb_decode.c:82-98 | every 64-bit number is read back from its varint, with exactly its bytes; below 2^32 also as a 32-bit number |
| Protobuf.VarintLength | lib/libsacd/common/pb_encode.c:206-223 | a number below 128^n takes at most n bytes |
| Protobuf.KnownVarints | lib/libsacd/common/pb_encode.c:206-223 | numbers below 128 are their own byte, and 300 is 172, 2 |
| Protobuf.ZigZagRoundTrip | lib/libsacd/common/pb_encode.c:295-310 | zig-zag is inverted for every value of every width of memory |
| Protobuf.ZigZagOfSigned | lib/libsacd/common/pb_encode.c:295-310 | a signed x of any width is written as 2x, or -2x - 1 if it is negative |
| Protobuf.ValueRoundTrip | lib/libsacd/common/pb_decode.c:454-509 | every value of every field type is read back, with exactly its bytes |
| Protobuf.KnownFields | lib/libsacd/common/pb_encode.c:225-268 | one field of every type byte by byte: tags, wire types and lengths |
| Protobuf.SkipExactly | lib/libsacd/common/pb_decode.c:100-135 | skipping an unknown field takes exactly its bytes, whatever follows |
| Protobuf.KnownSkips | lib/libsacd/common/pb_decode.c:100-135 | which bytes each wire type skips, and that the others are refused |
| Protobuf.FindsField | lib/libsacd/common/pb_decode.c:229-240 | with distinct tags a tag finds its own field |
| Protobuf.ItemReadsBack | lib/libsacd/common/pb_decode.c:393-423 | one field, known or not, is taken off and changes just its own value |
| Protobuf.ItemsRoundTrip | lib/libsacd/common/pb_decode.c:383-436 | fields in any order, repeated or with unknown ones among them: the last value of each counts, the zero tag ends the message, the rest is left |
| Protobuf.RoundTrip | lib/libsacd/common/pb_decode.c:383-436 | decoding the encoding of a message, closed by a zero, gives the message and leaves the rest |
| Protobuf.ReadRequestFits | lib/libsacd/sacd_input.c:501-518 | a request to read any sectors, with its zero, takes at most 15 bytes |
| Protobuf.RequestBytes | lib/libsacd/sacd_input.c:501-518 | the bytes of a request: 8, 3, 16, the offset, 24, the count |
| PbStream.IStream.constructor | lib/libsacd/common/pb_decode.c:61-68 | a stream over a buffer has all of it to read |
| PbStream.IStream.Read | lib/libsacd/common/pb_decode.c:38-59 | the next bytes, or false and nothing read if there are too few |
| PbStream.IStream.DecodeVarint | lib/libsacd/common/pb_decode.c:82-98 | the loop with its 64-bit word decodes the varint: at most ten bytes, what is shifted out of the word lost |
| PbStream.IStream.DecodeVarint32 | lib/libsacd/common/pb_decode.c:74-80 | the low 32 bits of a varint |
| PbStream.IStream.SkipVarint | lib/libsacd/common/pb_decode.c:100-109 | a varint of any length is skipped |
| PbStream.IStream.Skip | lib/libsacd/common/pb_decode.c:125-135 | a field of any wire type is skipped, or false |
| PbStream.IStream.DecodeValue | lib/libsacd/common/pb_decode.c:454-509 | the decoders of the field types |
| PbStream.FieldIterator.Next | lib/libsacd/common/pb_decode.c:205-227 | the iterator goes round and says whether it did not |
| PbStream.FieldIterator.Find | lib/libsacd/common/pb_decode.c:229-240 | wherever the search starts, it finds the field with the tag, or stops where it was if there is none |
| PbStream.Record.SetToDefaults | lib/libsacd/common/pb_decode.c:337-377 | no field is present |
| PbStream.Record.DecodeField | lib/libsacd/common/pb_decode.c:246-257 | one field is decoded into its own memory, an optional one flagged |
| PbStream.Record.Decode | lib/libsacd/common/pb_decode.c:383-436 | the structure holds the decoded message, the stream what follows it; false exactly when the message is malformed or a required field is missing |
| PbStream.Record.Complete | lib/libsacd/common/pb_decode.c:425-433 | all required fields were seen |
| PbOutput.OStream.constructor | lib/libsacd/common/pb_encode.c:44-52 | a stream over a buffer with nothing written |
| PbOutput.OStream.Write | lib/libsacd/common/pb_encode.c:54-67 | bytes are added, or false and nothing written if they do not fit |
| PbOutput.OStream.FillBuffer | lib/libsacd/common/pb_encode.c:208-220 | the scratch buffer never needs an eleventh byte, and holds the varint |
| PbOutput.OStream.EncodeVarint | lib/libsacd/common/pb_encode.c:206-223 | the varint is written, or does not fit |
| PbOutput.OStream.EncodeTag | lib/libsacd/common/pb_encode.c:225-260 | tag and wire type are written, or do not fit |
| PbOutput.OStream.EncodeString | lib/libsacd/common/pb_encode.c:262-268 | length and bytes are written, or do not fit |
| PbOutput.OStream.EncodeValue | lib/libsacd/common/pb_encode.c:288-341 | the encoders of the field types |
| PbOutput.OStream.Encode | lib/libsacd/common/pb_encode.c:143-203 | the message is written, and false exactly when it does not fit |
| PbOutput.ReadRequest | lib/libsacd/sacd_input.c:501-518 | what is sent for any sectors fits the buffer, is byte for byte 8, 3, 16, the offset, 24, the count and 0, and decodes to the request |
| Id3.Size28RoundTrip | lib/libsacd/id3/id3_header.h:43-55 | a non-negative size is read back if and only if it is below 16384; otherwise less is read |
| Id3.FrameSizeRoundTrip | lib/libsacd/id3/id3_frame.c:296-296 | a written frame size is read back if and only if it is below 128 |
| Id3.NumberIsId | lib/libsacd/id3/id3_frame.c:287-287 | different ids have different numbers |
| Id3.FrameReadsBack | lib/libsacd/id3/id3_frame.c:261-357 | one frame is read as it was written if and only if its body is below 128 bytes and the tag still has room for it |
| Id3.FramesReadBack | lib/libsacd/id3/id3_tag.c:119-126 | all frames are read as written if and only if all bodies are below 128 bytes and the size the reader believes is theirs |
| Id3.TagRoundTrip | lib/libsacd/id3/id3.c:566-634 | a tag of known ids is read back as written if and only if all bodies are below 128 bytes and all frames together below 16384 |
| Id3.KnownTag | lib/libsacd/id3/id3.c:566-634 | a tag of 23 bytes, written as they are and read back |
| Id3.KnownExtended | lib/libsacd/id3/id3_tag.c:71-117 | a tag with an extended header: its ten bytes count for the size and are passed over |
| Id3.KnownFrameV22 | lib/libsacd/id3/id3_frame.c:690-763 | a version 2.2 frame byte by byte, and what it is read as |
| Id3.V24IsDescribed | lib/libsacd/id3/id3_frame.c:680-688 | a 2.2 id that is known has a description |
| Id3Tag.FindFrameDescription | lib/libsacd/id3/id3_frame.c:244-251 | the description of an id, if there is one |
| Id3Tag.FindV24Id | lib/libsacd/id3/id3_frame.c:680-688 | the id a 2.2 id turns into, or 0 |
| Id3Tag.TagReader.constructor | lib/libsacd/id3/id3.c:309-332 | a reader at the start of memory |
| Id3Tag.TagReader.Seek | lib/libsacd/id3/id3.c:55-67 | the position moves inside the tag, or the call fails and nothing moves |
| Id3Tag.TagReader.Read | lib/libsacd/id3/id3.c:78-105 | the next bytes of the tag, or failure at its end or above the buffer size |
| Id3Tag.TagReader.ReadFrame | lib/libsacd/id3/id3_frame.c:261-357 | a frame is read, passed over or refused as specified, and some of the tag is used up |
| Id3Tag.TagReader.ReadFrameV22 | lib/libsacd/id3/id3_frame.c:690-763 | the same for version 2.2 |
| Id3Tag.TagReader.ReadFrames | lib/libsacd/id3/id3_tag.c:119-128 | the loop ends, with the frames of the specification, on every tag that lies inside the memory |
| Id3Tag.TagReader.ReadHeader | lib/libsacd/id3/id3_tag.c:71-117 | the header's fields, and the position at the first frame |
| Id3Tag.TagReader.ReadTag | lib/libsacd/id3/id3_tag.c:62-129 | the tag in memory, or failure, as specified |
| Id3Tag.Put | lib/libsacd/id3/id3.c:592-596 | bytes are copied into the buffer, the rest of it unchanged |
| Id3Tag.WriteFrame | lib/libsacd/id3/id3.c:610-631 | one frame behind what is written |
| Id3Tag.WriteTag | lib/libsacd/id3/id3.c:566-634 | the buffer starts with the tag's bytes, as many as returned, and is unchanged behind them |

## Left out

- Thread creation and joining, memory exhaustion and the wrap of 32-bit sequence numbers. A worker whose decoder cannot be set up is modelled as one that dies at once.
- Worker teardown in finish_decoding_jobs: the workers are not joined there, only a sleep. Runs end at the writer's exit and the freeing of the pools; buffer_pool_use_space has no caller.
- Pools and pipeline are modelled on values, as a transition system, because the lock regions of different threads interleave; the lists that the regions change are the class `JobLists.Lists`, and `PipelineTheorems.Follow` ties the two together. The tail pointer of the decode list and the links of the free list are sequences. `place` and `owner` are history variables.
- The pipeline's `decode` is any function of a frame; that the real decoder is one is `DstFrame.Ebunch.FramDSTDecode`, and `ParallelDecoding` puts it in.
- Coefs.RiceDecode: requires enough bits, because the source ignores the end of the data here and goes on with a variable that was never set; such frames are `Undefined` in the parser, and so are coding method 3, which has no predictor, nine segments in six channels, which are written past the array, and a code longer than its memory.
- Coefs.ReadFilterCoefSets: requires a parser that is not `Undefined` in this sense.
- Coefs.ReadProbabilityTables: requires the same.
- FrameTables.ReadTableSegmentData: requires a segmentation that is not `Undefined` in this sense.
- FrameLayout.ReadSegmentData: requires the same.
- DstFrame.Ebunch.UnpackHeader: requires a header that is not `Undefined` in this sense.
- DstFrame.Ebunch.UnpackCoded: requires a frame that is not.
- DstFrame.Ebunch.FramDSTDecode: requires a frame that is not.
- The byte that is read past the end of a frame before the end is noticed; its value is never used.
- FrameDecoding.Lossless: requires that the tables in the arrays give every bit of the frame the probability it was coded with; otherwise it depends on the later bits whether the code still decodes to the frame.
- ParallelDecoding.DecodedInOrder: requires frames of at most the 64 KiB of a space, into which they are copied without a check; the pipeline itself is modelled for frames of any length.
- The sizes that DST_InitDecoder sets up enter as a configuration. The parser of coefficients and its round trip hold for any predictor tables of at most three taps; whole frames use those of CCP_CalcInit.
- Fields that are written and never read: the flags that repeat whether segments and mappings are shared, the coding methods kept in CodedTable, and the test of a probability against AC_HISMAX, which cannot fail.
- The unused 32-bit filter (LT_RUN_FILTER_U) and FIO_BitGetIntSigned.
- Frames of more than 4704 bytes a channel (64 times 44.1 kHz), for which the label arrays have no room, or not longer than the shortest filter segment.
- Demux.Handle.ReadSector: requires packets that lie inside the sector, as for all sectors below.
- Demux.Handle.ProcessFrames: requires packets that lie inside their sectors, as the source does without a check. Of a frame info only the byte with packet count and channels is kept.
- Dsf.Writer.WriteFrame: requires a length divisible by the channels and an output that fits; with a smaller remainder the source reads past the frame. The headers, and what dsf_close writes, are left out.
- The ring's locks, a ring appended to itself, and sizes from 2^31 on.
- SacdFile.File.constructor: requires frames of a block or more per channel, as uncoded areas have; DST-coded frames are repacked without decoding on this path, and then the repacker need not conserve. Sectors stand for decrypted ones; the tag and the DSF header are given as bytes.
- Blocks.ProcessTrack: the answers of the device are a finite list; with empty reads for ever the source never ends. Stopping from outside and statistics are left out.
- Protocol buffers: arrays, submessages, strings, callbacks, default values, big-endian targets, empty tables of fields, and streams that only count.
- Id3Tag.TagReader.ReadHeader: requires memory that holds the ten bytes of the header.
- Id3Tag.TagReader.ReadFrame: requires that what the tag's size promises lies in the memory, as the source does without a check.
- Id3Tag.TagReader.ReadFrameV22: requires the same.
- Id3Tag.TagReader.ReadFrames: requires the same.
- Id3Tag.TagReader.ReadTag: requires the same.
- ID3: the tables of descriptions are parameters; compressed, encrypted or grouped frames are read but their data not unpacked; tags in files; text and its encodings. A tag whose declared size lies beyond the memory is `Undefined`.
- Table of contents, file names, URLs, cue sheets, DSDIFF output (its size macros are in a header that is not part of this model), character conversion, logging, device and network access, and all code for the PS3.
