# FFmpegfs: verified models of its stateful cores

FFmpegfs is a FUSE file system that transcodes media files while they are read. This project
models the parts of it that keep state or do arithmetic which is easy to get wrong, and proves
what they promise, for every input, every run and every interleaving.

| component | modules |
|---|---|
| HLS segmenter | `HlsTime`, `Segmenter` (the operations on values), `HlsTranscoder` (the object, proved equal to them), `SegmenterPlan` (what they mean in microseconds and segment numbers), `SegmenterRuns`, `SegmenterCounter`, `SegmenterDrain` and `SegmenterEncoding` (what holds in every run) |
| Segmented cache buffer | `SegmentStore` (on values), `CacheBuffer` (the objects), `BufferRuns`, `BufferGrowth`, `FrameIndex` |
| Cache maintenance master | `MasterElection` |
| DVD input | `ProgramStream`, `CellWalk`, `DvdNavigation` |
| Time stamps and audio | `Rescaling`, `DtsRepair`, `AudioFraming` |
| Cache pruning | `CachePrune` |

How to read it:

- Where the program updates an object in place, there is a class with the same fields. Its methods
  say that the new state equals an operation on values applied to the old one. What the
  operation means is then proved as lemmas about runs of operations.
- Calls into FFmpeg, the operating system and SQLite appear as their answers: functions
  (`Calls`, `RollCalls`), parameters (`navRead`, `free`, `unreadable`) or inputs (`Decoded`, `Dsi`).
  Nothing is assumed about them unless a lemma says so.
- 32-bit arithmetic is written out with `ToU32`; C's truncating division with `TruncDiv`.

Where the code does something else than its comments or names suggest, the model follows the
code, and a lemma says exactly when the difference shows:

- `write_frame` overwrites a stored frame if the *old* size is at most the new one, while its
  comment speaks of enough space (`src/buffer.cc:811`). `FrameIndex.HarmlessIffClear` gives the
  exact condition for a write to spare the other frames, `LongerRewriteOverruns` an overrun.
- `set_segment` for the current segment closes it and opens it truncated again, so it loses its
  bytes unless somebody reads it (`src/buffer.cc:303-327`, `77-135`): `BufferRuns.SetSegmentOk`.
  A seek with video PTS 0 chooses its segment twice (`src/ffmpeg_transcoder.cc:1423`, `6221`).
- `copy` clamps an overlong request to one byte less than is there (`src/buffer.cc:1015`):
  `BufferRuns.CopyReads`.
- `read_frame` returns a truth value, not the byte count (`src/buffer.cc:1138`):
  `FrameIndex.ReadReturnsBytes`.
- `get_pes_id` may look at the byte behind the packet (`src/dvdio.cc:289-292`):
  `ProgramStream.CopiedIffKeptId` shows that this never changes what is kept.
- `link_up` creates the shared memory without `IPC_EXCL` (`src/cache_maintenance.cc:188-202`):
  `MasterElection.CreateIsSafeIffQuiet` says when that can end with two masters,
  `InterleavedLinkUpElectsTwo` shows it from the start.
- A video PTS other than 0 skips the choice of the first segment
  (`src/ffmpeg_transcoder.cc:1340`): `SegmenterRuns.InitialiseSelects`.
- A positive code of the header call ends `start_new_segment` before the held-back packets are
  written, and the caller goes on (`src/ffmpeg_transcoder.cc:6231-6235`, `5996-6001`):
  `SegmenterDrain.HeaderDecidesReplay`.
- A write or clone of a packet that answers `AVERROR(EAGAIN)` loses the packet and passes for
  success (`src/ffmpeg_transcoder.cc:5924`, `5936`, `5962`): `SegmenterDrain.SilentLossIff`.
- Packets that the final flush delivers for a following segment are never written
  (`src/ffmpeg_transcoder.cc:6008-6015`): `SegmenterDrain.FlushStrandsPackets`.
- Files shorter than 200 ms can get a segment count of 0 or of almost 2^32
  (`src/fileio.cc:49`): `HlsTime.ShortFiles`.
- Cell sizes of 4 GiB and more wrap (`src/dvdparser.cc:278`): `CellWalk.SizesWrapAt4GiB`.
- A process that dies between `sem_wait` and `sem_post` blocks the election
  (`src/cache_maintenance.cc:248-264`): `MasterElection.CrashOrphansIffHolding`, `OrphanedStays`.

## Model

| member | source | states |
|---|---|---|
| HlsTime.CountCoversPositions | src/fileio.cc:45-55 | Every position up to 200 ms before the end maps to a segment within the count; later ones do iff they do not reach the next multiple of the segment duration |
| HlsTime.EveryCountedSegmentHasAPosition | src/fileio.cc:45-55 | Every counted segment is the segment of some position before the tail, so the count is not too large |
| HlsTime.ShortFiles | src/fileio.cc:45-55 | A file under 200 ms has one segment iff the segment duration exceeds what is missing to 200 ms; with m whole durations missing the count is 0 for m = 1 and 2^32 + 1 - m for larger m |
| HlsTime.GotoNextIsSuccessor | src/ffmpeg_transcoder.cc:8093-8096 | Below 2^32 - 1 segments the boundary test means "own segment is the next one and exists" |
| HlsTime.GotoNextWraps | src/ffmpeg_transcoder.cc:8093-8096 | The 32-bit test is exact for the current segment iff that is below 2^32 - 1 |
| HlsTime.SegmentsAreMonotone | src/ffmpeg_transcoder.cc:8088-8091 | Later positions never belong to earlier segments |
| Segmenter.FindSeekIsFirst | src/ffmpeg_transcoder.cc:6164-6212 | The seek loop takes the first request that is neither near the beginning, nor just ahead, nor already has data; with none, it empties the queue |
| SegmenterPlan.OwnSegmentIs | src/ffmpeg_transcoder.cc:4168-4253 | A packet's own segment is the one that its position, the first microsecond not before its time stamp by the clock of its own stream, lies in |
| SegmenterPlan.NoOwnSegmentIff | src/ffmpeg_transcoder.cc:4166-4259 | None iff there is no time stamp, the packet is an attachment, or its subtitle stream is unknown |
| SegmenterPlan.PositionExists | src/ffmpeg_transcoder.cc:4172-4176 | Every time stamp has exactly such a position, from 0 on |
| SegmenterPlan.WrittenInTime | src/ffmpeg_transcoder.cc:4166-4260 | A held-back packet is written to the segment its time lies in; if none arrives more than one segment ahead, none is written to a segment that ends before its time, but for the last |
| SegmenterPlan.InhibitedBy | src/ffmpeg_transcoder.cc:4179-4213 | Audio and video packets inhibit their own stream and no other |
| SegmenterPlan.FrameSegmentIs | src/ffmpeg_transcoder.cc:8088-8091 | A frame belongs to the segment its key lies in |
| SegmenterPlan.CountIs | src/fileio.cc:45-55 | The last segment is the one in which the point 200 ms before the end lies |
| SegmenterPlan.SeekLimitsAre | src/ffmpeg_transcoder.cc:6080-6085 | The seek limits are the minimum seek time and the prebuffer time (in seconds) in whole segments |
| SegmenterPlan.DiscardedIff | src/ffmpeg_transcoder.cc:6169-6180 | A request is dropped iff it is near the beginning, at most the minimum distance ahead, or has data |
| SegmenterPlan.FirstSeekIsFirst | src/ffmpeg_transcoder.cc:1371-1386 | The initial seek takes the first request behind segment 1 that is not near the beginning |
| SegmenterPlan.StackSeekQueues | src/ffmpeg_transcoder.cc:7331-7345 | A request for an existing segment goes to the end of the queue |
| SegmenterPlan.InitialiseIs | src/ffmpeg_transcoder.cc:1338-1429 | Which segment the output opens at, what becomes of queue and FIFO, and that exactly the calls made can fail |
| SegmenterPlan.DrainWaitsIff | src/ffmpeg_transcoder.cc:5862-5877 | Before the end the drain does nothing exactly until the map spans 75 percent of a segment; then it makes one pass |
| Segmenter.DrainProgress | src/ffmpeg_transcoder.cc:5858-6003 | A pass of the drain loop that leaves frames behind used up a seek request or raised the segment counter by one, within the count: the loop terminates |
| SegmenterRuns.StoreKeeps | src/ffmpeg_transcoder.cc:4163-4286 | Storing a packet keeps counter, masks and FIFO safe, the media type of a held-back packet inhibited, and every segment's output plus what waits for it equal to the packets routed to it, in arrival order |
| SegmenterRuns.ReplayAppends | src/ffmpeg_transcoder.cc:6238-6253 | A complete replay appends exactly the FIFO, in order, to the current segment's output and nothing to any other |
| SegmenterRuns.RollOverReplaysFirst | src/ffmpeg_transcoder.cc:6214-6253 | Without a seek, the next segment becomes current, the held-back packets are its first ones in arrival order, and no other segment's output changes |
| SegmenterRuns.RollOverSeeks | src/ffmpeg_transcoder.cc:6180-6217 | An accepted seek goes to the requested segment, discards FIFO and frame map (both are accounted for) and writes nothing |
| SegmenterRuns.RollOverKeeps | src/ffmpeg_transcoder.cc:6150-6255 | A rollover below the last segment, with or without a seek, keeps safety and routing |
| SegmenterRuns.DrainOnceKeeps | src/ffmpeg_transcoder.cc:5884-6002 | One pass, failing or not, starts a new segment only in a good state and only when the next one exists; a successful one ends in a good state |
| SegmenterRuns.DrainKeeps | src/ffmpeg_transcoder.cc:5858-6003 | The same for every pass of the drain loop, also if a later pass fails |
| SegmenterRuns.EmplaceSorts | src/ffmpeg_transcoder.cc:4080-4084 | Buffering a frame keeps the map sorted and puts the frame behind all that are not later, so equal positions stay in order of arrival |
| SegmenterRuns.RunKeeps | src/ffmpeg_transcoder.cc:4163-6255 | In every state reached without a failure, and at every pass and new segment of runs that fail later: FIFO packets belong to the next segment, and each segment got exactly the packets routed to it, in order |
| SegmenterRuns.InitialiseSelects | src/ffmpeg_transcoder.cc:1338-1429 | With video PTS 0 the output opens in a good state at the first seek that counts; with another PTS the state is good iff the preset segment existed |
| SegmenterRuns.DeliveredWasStored | src/ffmpeg_transcoder.cc:4163-4262 | Whatever a segment has to receive was stored, at a time when it was routed there |
| SegmenterRuns.PacketPlacement | src/ffmpeg_transcoder.cc:4166-4260 | A held-back packet is written to its own segment; if none arrives more than one segment ahead, none is written before min(own segment, segment count) |
| SegmenterCounter.RunStaysInside | src/ffmpeg_transcoder.cc:4163-6255 | Over every run, whatever the foreign calls answer and failing ones included: 1 <= counter <= count, inhibit mask within active mask, and every rollover enters a segment that exists |
| SegmenterCounter.RunSucceeds | src/ffmpeg_transcoder.cc:4163-6255 | If every foreign call succeeds, every run succeeds |
| SegmenterCounter.RunSettles | src/ffmpeg_transcoder.cc:4181-4213 | Between the calls of every run the inhibit mask holds exactly the media types of the packets waiting |
| SegmenterCounter.PassRollsOverIff | src/ffmpeg_transcoder.cc:5992-5997 | A pass starts a new segment iff a frame of the next one has come up or every active stream has a packet waiting for it, so copied streams roll over, too |
| SegmenterDrain.RunBalances | src/ffmpeg_transcoder.cc:4163-6255 | Over every run and whatever the foreign calls answer: each stored packet is exactly once in one segment's output, in the FIFO or among the lost; each frame buffered up to a failure waits, was encoded or was dropped |
| SegmenterDrain.RunLosesNothing | src/ffmpeg_transcoder.cc:6214-6253 | A run that neither failed nor accepted a seek lost no packet and dropped no frame, if no store answers EAGAIN |
| SegmenterDrain.SilentLossIff | src/ffmpeg_transcoder.cc:5919-5966 | Encoding a frame loses a packet without failing iff storing one answered EAGAIN |
| SegmenterDrain.DrainIsComplete | src/ffmpeg_transcoder.cc:5858-6003 | At the end of the input, for every queue of seeks: the map is empty, at most one seek was accepted, and with none every buffered frame was encoded once, in map order, in the segment the reference placement says |
| SegmenterEncoding.DrainStoresAll | src/ffmpeg_transcoder.cc:5858-6003 | At the end of the input, unless a seek is accepted, the packets stored are exactly those the encoders deliver for all waiting frames, in map order, each in its frame's segment; with a seek, those of the frames before it |
| SegmenterEncoding.DrainEncodes | src/ffmpeg_transcoder.cc:5858-6003 | The same for every successful drain and the frames it takes |
| SegmenterEncoding.FrameIsStored | src/ffmpeg_transcoder.cc:5896-5966 | Encoding a frame stores exactly what its encoder delivers, in order, in the current segment, and nothing for a stream that does not exist |
| SegmenterEncoding.FrameFailsIff | src/ffmpeg_transcoder.cc:5919-5966 | It fails iff storing a packet or else the encoder reports an error other than EAGAIN |
| SegmenterEncoding.StoreFailsIff | src/ffmpeg_transcoder.cc:4163-4286 | Storing a packet fails iff the clone of a held-back packet, or the write of another, does |
| SegmenterEncoding.RollOverFailsIff | src/ffmpeg_transcoder.cc:6150-6255 | A rollover to an existing segment fails iff one of the calls it makes does |
| SegmenterEncoding.FailedSeekLeaves | src/ffmpeg_transcoder.cc:6182-6202 | A failed seek leaves everything as it was, a failed reopening the new segment without frames and packets |
| SegmenterDrain.PlacementTakesAll | src/ffmpeg_transcoder.cc:5879-5894 | The reference placement takes every frame once and in order |
| SegmenterDrain.GaplessPlacement | src/ffmpeg_transcoder.cc:5879-5894 | Without gaps of a whole segment that is the frame's own segment, bounded by the current and the last one |
| SegmenterDrain.SeekEndsTheDrain | src/ffmpeg_transcoder.cc:5858-6003 | With an accepted seek, wherever it is met: some first frames were encoded in their places, exactly the others dropped, and the loop ended at a segment asked for |
| SegmenterDrain.FlushStrandsPackets | src/ffmpeg_transcoder.cc:6008-6015 | After the final flush the FIFO is empty iff it was before and no delivered packet belongs to the next segment |
| SegmenterDrain.HeaderDecidesReplay | src/ffmpeg_transcoder.cc:6226-6253 | A rollover without a seek writes the FIFO iff the header call answers 0; a positive code leaves it in place |
| SegmenterDrain.LastSegmentRollsOnlyWithoutStreams | src/ffmpeg_transcoder.cc:5992-6002 | In the last segment a rollover is attempted, and fails, iff the active mask is empty |
| HlsTranscoder.Transcoder.constructor | src/ffmpeg_transcoder.cc:6080-6085 | Derives counts and seek limits from the settings and starts empty at segment 1 |
| HlsTranscoder.Transcoder.StorePacket | src/ffmpeg_transcoder.cc:4163-4286 | In place, `Segmenter.Store` |
| HlsTranscoder.Transcoder.StackSeekSegment | src/ffmpeg_transcoder.cc:7331-7345 | Queues an existing segment number, else fails and changes nothing |
| HlsTranscoder.Transcoder.EmplaceFrame | src/ffmpeg_transcoder.cc:5408-5410 | In place, `BufferFrame`; the map stays sorted, with the frame behind those of the same position |
| HlsTranscoder.Transcoder.InitialiseHlsOutputSegment | src/ffmpeg_transcoder.cc:1338-1429 | In place, `Segmenter.Initialise` |
| HlsTranscoder.Transcoder.PopSeek | src/ffmpeg_transcoder.cc:6164-6212 | The queue loop finds what `FindSeek` finds and leaves the same rest |
| HlsTranscoder.Transcoder.ReplayFifo | src/ffmpeg_transcoder.cc:6238-6253 | The FIFO loop does what `Replay` does, also when a write fails |
| HlsTranscoder.Transcoder.StartNewSegment | src/ffmpeg_transcoder.cc:6150-6255 | In place, `Segmenter.RollOver` |
| HlsTranscoder.Transcoder.DrainFrameMap | src/ffmpeg_transcoder.cc:5879-5966 | The inner loop does what `DrainFrames` does |
| HlsTranscoder.Transcoder.ProcessOnce | src/ffmpeg_transcoder.cc:5860-6002 | One pass does what `DrainOnce` does |
| HlsTranscoder.Transcoder.ProcessFrames | src/ffmpeg_transcoder.cc:5858-6003 | The drain loop does what `Drain` does |
| BufferRuns.WriteOk | src/buffer.cc:766-791 | A write keeps pos and watermark in the buffer and zeros behind the watermark, overwrites the bytes at the position, advances it by what was written, and grows the buffer only if it has to |
| BufferRuns.ReserveOk | src/buffer.cc:722-764 | Growing keeps the stored bytes, and zeros behind them, and changes nothing else |
| BufferRuns.OpenFileOk | src/buffer.cc:77-135 | Opening does what it does to the plain store: a closed segment opens empty for writing and at its end for reading, an open one only gains a flag and enlarges the current segment |
| BufferRuns.CloseFileOk | src/buffer.cc:137-177 | Closing takes flags away, and with the last one everything but the bytes |
| BufferRuns.SetSegmentOk | src/buffer.cc:303-327 | Choosing a segment leaves it open, large enough and the only one open for writing; it is emptied iff nobody holds it for reading, also if it is the current one, and all others keep their bytes |
| BufferRuns.InvalidateOk | src/buffer.cc:405-454 | Invalidation empties one segment and leaves the others |
| BufferRuns.RunRefines | src/buffer.cc:303-1057 | For every sequence of calls the buffer follows a plain store with its own bytes, positions and flags, which a write overwrites and advances, a seek sets and closing resets; only the room made by growing is the buffer's choice. Bounds hold, the open count is the number of open segments, only the current one has the RW flag |
| BufferRuns.CopyReads | src/buffer.cc:985-1029 | `copy` returns the stored bytes followed by zeros; it delivers all there is of the request iff that ends within the buffer, else one byte less |
| BufferRuns.CloseThenReopen | src/buffer.cc:137-177 | A segment with data, fully closed and reopened for reading, has exactly its first watermark bytes and pos = watermark = size |
| BufferRuns.UntouchedPersists | src/buffer.cc:137-177 | Over any run a segment that is not written, not invalidated, and not chosen while nobody reads it keeps its bytes, open or closed |
| BufferGrowth.GrowthSlack | src/buffer.cc:1031-1057 | A growth forced by a write leaves at most five times the mean earlier write length of slack, none at the first write |
| BufferGrowth.GrowthsArePaid | src/buffer.cc:1031-1057 | Amortised bound on growths under writes of one length |
| BufferGrowth.AppendsRarelyGrow | src/buffer.cc:847-862 | n appends of equal length to a freshly opened buffer grow it at most 1 + ceil((n-1)/5) times |
| BufferGrowth.WrappedCounterForgets | src/buffer.cc:1031-1057 | After 2^32 writes the counter reads 0 and the next growth preallocates nothing |
| FrameIndex.ReadReturnsBytes | src/buffer.cc:1114-1139 | A stored frame is read back whole, the clamp is not reached; the returned value is 1 and equals the byte count iff the frame has one byte |
| FrameIndex.WhereWritesGo | src/buffer.cc:811-830 | Over the stored bytes if there are at least as many new ones, else behind everything |
| FrameIndex.FailedWrites | src/buffer.cc:793-845 | A write that cannot be made returns 0 and changes nothing but the size of a frame that would have been overwritten |
| FrameIndex.LongFramesAreCut | src/buffer.cc:793-845 | Lengths count modulo 2^32 |
| FrameIndex.ShortRewritesAreClear | src/buffer.cc:793-845 | A new frame, or a rewrite not longer than the stored one, never touches another frame |
| FrameIndex.ClearWriteStores | src/buffer.cc:793-845 | A write to a clear place stores the frame, keeps all others and keeps extents disjoint below the watermark |
| FrameIndex.HarmlessIffClear | src/buffer.cc:811-830 | Writes of a given length spare the other frames, whatever the bytes, iff no other extent overlaps the place written to |
| FrameIndex.LongerRewriteOverruns | src/buffer.cc:811-830 | Whenever two frames were written for the first time one after the other, from the empty frame set or any other, every longer rewrite of the first can damage the second |
| FrameIndex.FrameSetIsMap | src/buffer.cc:793-1178 | If no rewrite is longer than the frame stored under its number, then over every run of writes, also to invalid numbers, reading yields the last bytes written under a number, and nothing for the others |
| FrameIndex.ClearRunIsMap | src/buffer.cc:793-1178 | The same for every run whose writes go to clear places |
| FrameIndex.FreshFramesHoldNothing | src/buffer.cc:793-1178 | A frame set just opened satisfies the hypotheses of these results |
| CacheBuffer.CacheInfo.EnsureSize | src/buffer.cc:722-764 | In place, `Reserve`: the mapping moves only if it has to grow |
| CacheBuffer.CacheInfo.Append | src/buffer.cc:766-867 | In place, `WriteIo`, with growth, copy, watermark and statistics |
| CacheBuffer.CacheInfo.SeekTo | src/buffer.cc:874-924 | In place, `Seek`; fails iff the segment is closed or the target is negative |
| CacheBuffer.CacheInfo.CopyTo | src/buffer.cc:985-1029 | Fills the front of the output with what `Copy` says and leaves the rest |
| CacheBuffer.CacheInfo.Map | src/buffer.cc:456-537 | In place, `OpenSeg` for a closed segment |
| CacheBuffer.Buffer.constructor | src/buffer.cc:179-301 | All segments closed over the files found, first segment current |
| CacheBuffer.Buffer.ReserveCurrent | src/buffer.cc:722-764 | Changes the current segment only |
| CacheBuffer.Buffer.OpenIndex | src/buffer.cc:77-135 | In place, `OpenFile`, including the reserve of the current segment |
| CacheBuffer.Buffer.UnmapIndex | src/buffer.cc:539-587 | Cuts the file at the watermark or removes it |
| CacheBuffer.Buffer.CloseIndex | src/buffer.cc:137-177 | In place, `CloseFile` |
| CacheBuffer.Buffer.InvalidateIndex | src/buffer.cc:405-454 | In place, `Invalidate` |
| CacheBuffer.Buffer.SeekIn | src/buffer.cc:874-924 | Number 0 is the current segment, n is segment n, a number out of range fails and changes nothing |
| CacheBuffer.Buffer.CopyFrom | src/buffer.cc:985-1029 | Reading changes nothing in the buffer |
| CacheBuffer.Buffer.SelectSegment | src/buffer.cc:303-327 | In place, `SetSegment`; fails without a change iff the number is out of range |
| CacheBuffer.Buffer.Write | src/buffer.cc:766-791 | Writes to the current segment's memory and to no other |
| CacheBuffer.FrameBuffer.Store | src/buffer.cc:793-845 | In place, `WriteFrame` |
| CacheBuffer.FrameBuffer.Load | src/buffer.cc:1114-1139 | In place, `ReadFrame` |
| CacheBuffer.FrameBuffer.Has | src/buffer.cc:1161-1178 | True iff the number is valid and its slot is taken |
| CacheBuffer.FrameBuffer.Invalidate | src/buffer.cc:405-454 | Closes the segment and, under number 0, empties the index |
| MasterElection.ElectionIsSafe | src/cache_maintenance.cc:67-317 | With an atomic link-up, in every interleaving of any number of processes with crashes anywhere: at most one live process has the master flag, the shared pid is its own, and at most one maintains the cache |
| MasterElection.StepKeeps | src/cache_maintenance.cc:238-265 | Every step keeps the invariant behind that |
| MasterElection.CreateIsSafeIffQuiet | src/cache_maintenance.cc:188-215 | Creating the shared memory can lead to two live masters, without any further such race, iff another attached process is, or is about to become, master |
| MasterElection.SecondMaster | src/cache_maintenance.cc:188-215 | In that case it takes the other process at most two steps |
| MasterElection.AtomicLinkUpHasNoRace | src/cache_maintenance.cc:172-233 | If nothing happens between probing and creating, that condition always holds |
| MasterElection.InterleavedLinkUpElectsTwo | src/cache_maintenance.cc:188-202 | Two processes that probe before either creates both become master |
| MasterElection.MaintenanceIsExclusive | src/cache_maintenance.cc:67-82 | No two processes maintain the cache at a time |
| MasterElection.TakeoverGoesOn | src/cache_maintenance.cc:248-264 | No other process's step stops a process that took the semaphore after the master died |
| MasterElection.TakeoverInstallsMaster | src/cache_maintenance.cc:248-264 | In every interleaving it survives, its sem_post leaves it as master |
| MasterElection.SoloTakeover | src/cache_maintenance.cc:248-264 | Inside the section, its own four steps are enabled and free the semaphore again |
| MasterElection.DeadMasterIsReplaced | src/cache_maintenance.cc:67-82 | A client whose timer fires after the master died goes through the section and ends up as the master, maintaining the cache |
| MasterElection.LiveMasterIsLeftAlone | src/cache_maintenance.cc:238-265 | If the master lives, the client's check changes nothing |
| MasterElection.MasterChecksWithoutSemaphore | src/cache_maintenance.cc:242-246 | The master itself takes no semaphore and goes on to maintain |
| MasterElection.LinkUpDecides | src/cache_maintenance.cc:187-215 | Whoever finds the shared memory is a client, whoever does not creates it and is master |
| MasterElection.LastOneRemovesTheLink | src/cache_maintenance.cc:284-314 | Leaving removes shared memory and semaphore iff nobody else is attached |
| MasterElection.MasterStays | src/cache_maintenance.cc:67-317 | In every interleaving a master stays master until it dies or leaves |
| MasterElection.CrashOrphansIffHolding | src/cache_maintenance.cc:248-264 | A crash leaves the semaphore taken by nobody iff the process held it |
| MasterElection.OrphanedStays | src/cache_maintenance.cc:248-264 | Over every run in which the shared memory exists, nobody then passes sem_wait or becomes master |
| ProgramStream.DemuxPes | src/dvdio.cc:388-437 | The packet loop writes what `Demux` says, never more than it reads, and nothing behind it |
| ProgramStream.SelfDelimiting | src/dvdio.cc:236-282 | The size of a complete packet does not depend on what follows it |
| ProgramStream.ParseFindsPackets | src/dvdio.cc:236-282 | Parsing a concatenation of packets finds exactly these packets: framing is unambiguous |
| ProgramStream.ParseIsLossless | src/dvdio.cc:390-397 | Packets and rest make up the input; parsing stops only where no complete packet follows |
| ProgramStream.CopiedIffKeptId | src/dvdio.cc:284-386 | A packet is kept iff its stream id is 0xBA, 0xBD or 0xC0 and up, whatever sub-stream search and the byte behind it give |
| ProgramStream.DemuxIsFilter | src/dvdio.cc:388-437 | Demultiplexing is parsing into packets and keeping those stream ids |
| ProgramStream.DemuxKeepsWanted | src/dvdio.cc:236-437 | Of a sequence of packets built from their fields (PES packets with their length, pack headers of both kinds with stuffing, end codes) exactly the wanted ones are passed on, unchanged and in order |
| ProgramStream.UnitIsPacket | src/dvdio.cc:236-282 | Each of these is a packet, with the size its fields say |
| ProgramStream.PacketIsUnit | src/dvdio.cc:236-282 | Behind a start code there are no other packets |
| ProgramStream.PrivateStreamId | src/dvdio.cc:286-313 | The id of a private stream 1 packet in terms of its sub-stream number and payload |
| ProgramStream.ExtendedStreamId | src/dvdio.cc:314-385 | The id of an extended stream packet in terms of its optional fields and extensions |
| ProgramStream.DemuxIsIdempotent | src/dvdio.cc:388-437 | The output is no longer than the input, and filtering it again changes nothing |
| ProgramStream.DemuxDistributes | src/dvdio.cc:388-437 | demux(x + y) = demux(x) + demux(y) if x ends with a packet |
| CellWalk.ChosenCellsAscend | src/dvdio.cc:530-550 | The reference list has every plain cell and the chosen angle of each block, once, in ascending order, and nothing else |
| CellWalk.UnitShowsPick | src/dvdio.cc:530-550 | One plain cell or angle block shows exactly the cell `next_cell` goes to |
| CellWalk.CountedAreShown | src/dvdparser.cc:271-286 | The cells summed up are exactly those the first angle shows |
| CellWalk.SizesWrapAt4GiB | src/dvdparser.cc:278 | The predicted size is at most the true one, and right iff no counted cell reaches 4 GiB |
| CellWalk.PredictTotals | src/dvdparser.cc:271-286 | Size and duration are the sums over the counted cells; angles are reported iff there are any |
| DvdNavigation.Reader.Rewind | src/dvdio.cc:721-732 | The walk starts anew with nothing visited |
| DvdNavigation.Reader.EnterUnit | src/dvdio.cc:530-550 | The search for the end of the block terminates at its last cell |
| DvdNavigation.Reader.HandleDsi | src/dvdio.cc:439-528 | Goes to the next unit's cell iff the cell ended and there is one; tells chapter and title end apart |
| DvdNavigation.Reader.FetchVobu | src/dvdio.cc:620-650 | An oversized or unreadable VOBU is an error that leaves the block where it was or one further; the cell has moved on by then |
| DvdNavigation.Reader.ReadVobu | src/dvdio.cc:578-698 | At any time, also behind the end or after a failure, a call delivers one VOBU of the cell due and moves on to the next VOBU or cell, or reports an error or an exhausted cell; until then it marks the cell visited, and the end comes exactly with the last cell of chapter or title |
| DvdNavigation.Reader.StepsThrough | src/dvdio.cc:458-524 | In sector numbers, without interleaving: on to the next VOBU if it starts before the last sector of the cell, to the next unit if there is none or it starts later |
| DvdNavigation.PlayCell | src/dvdio.cc:552-699 | Calls repeated over a cell whose VOBUs are chained read every one of them, in order and once, before the next unit is entered |
| DvdNavigation.PlayAll | src/dvdio.cc:552-732 | From a rewind to the reported end, the calls read every VOBU of every cell the angle shows, in order and once, and nothing else |
| DvdNavigation.Reader.ChapterEndsAtUnit | src/dvdio.cc:518-521 | The chapter test gives the same for every cell of a unit |
| DvdNavigation.WalkIsComplete | src/dvdio.cc:688-694 | When the reader reports the end without an error it has read every plain cell once and exactly the selected angle of each block, in order |
| DvdNavigation.WalkIsInOrder | src/dvdio.cc:505-525 | Until an error it has read a prefix of that list |
| DvdNavigation.PredictionMatchesWalk | src/dvdparser.cc:254-286 | For the first angle the cells read are exactly the cells that were summed up, for chapters and full titles |
| Rescaling.RoundTrip | src/ffmpeg_base.cc:319-335 | Scaling to the finer unit and back, each rounded to nearest, is the identity |
| Rescaling.RoundTripIff | src/ffmpeg_base.cc:319-335 | For all values at once iff the first unit is at least as fine |
| Rescaling.RescaleIsNearest | src/ffmpeg_base.cc:327 | Rescaling rounds to nearest, halves away from zero |
| Rescaling.FrameTimes | src/ffmpeg_base.cc:330-335 | The first frame has the start time, frame n the time stamp nearest to n - 1 frame durations later |
| Rescaling.FrameNumbers | src/ffmpeg_base.cc:319-328 | No time stamp gives 0, any other the nearest frame's number |
| Rescaling.FrameRoundTrip | src/ffmpeg_base.cc:319-335 | pts_to_frame(frame_to_pts(n)) = n for n >= 1 if there is at most one frame per tick and values fit 32 bits |
| Rescaling.FrameRoundTripIff | src/ffmpeg_base.cc:319-335 | With more frames than ticks some frame number does not survive |
| Rescaling.SampleDurationIsExact | src/ffmpeg_transcoder.cc:5400-5405 | The audio clock advances by exactly the samples emitted iff the rate is at most 1,000,000 |
| DtsRepair.VideoOutput.RepairPacket | src/ffmpeg_transcoder.cc:5131-5179 | One packet's repair and the new last DTS |
| DtsRepair.VideoOutput.EncodePackets | src/ffmpeg_transcoder.cc:5109-5190 | The packet loop repairs the whole run as `RepairAll` does |
| DtsRepair.RepairOrders | src/ffmpeg_transcoder.cc:5131-5179 | Emitted DTS rise by at least the muxer's step, and no PTS precedes its DTS from the second packet on |
| DtsRepair.OrderedPasses | src/ffmpeg_transcoder.cc:5131-5179 | Ordered packets pass unchanged |
| DtsRepair.RepairIsIdempotent | src/ffmpeg_transcoder.cc:5131-5179 | Repairing twice changes nothing; a run passes unchanged iff it was in order |
| DtsRepair.RepairIsLeast | src/ffmpeg_transcoder.cc:5131-5179 | If no DTS is behind its PTS, the output is the pointwise least ordered sequence above the input |
| DtsRepair.RepairLowersIff | src/ffmpeg_transcoder.cc:5133-5147 | Otherwise a DTS is lowered iff it is behind its PTS and more than a tick behind the last one |
| DtsRepair.RepairedValues | src/ffmpeg_transcoder.cc:5133-5168 | The values: the middle one of PTS, DTS and one tick behind the last DTS for a DTS behind its PTS, else both raised to the earliest permitted time |
| DtsRepair.UnstampedValues | src/ffmpeg_transcoder.cc:5133-5168 | Without a last DTS or a stamp nothing is guessed, but a DTS alone is still raised |
| DtsRepair.RememberedDts | src/ffmpeg_transcoder.cc:5175-5179 | What is remembered as the last DTS |
| AudioFraming.Framer.Decode | src/ffmpeg_transcoder.cc:5760-5780 | Decoded samples go behind the FIFO; nothing else changes |
| AudioFraming.Framer.CreateFrame | src/ffmpeg_transcoder.cc:5332-5413 | Cuts the first min(size, FIFO) samples off; frames and FIFO together stay the decoded stream, in order, and every frame carries the time of its first sample |
| AudioFraming.Framer.CopyToFrameBuffer | src/ffmpeg_transcoder.cc:5739-5801 | It makes exactly the decoder calls needed for a frame, fails iff one of them does, and reports the end iff one did or none is left; every frame has the encoder's size except possibly the last one at the end; then the FIFO is empty, else shorter than a frame |
| CachePrune.Cache.PruneExpired | src/cache.cc:1107-1167 | Exactly the entries with access time plus expiry time before now go, none without an expiry time |
| CachePrune.QueryExpired | src/cache.cc:1122 | Finds exactly these |
| CachePrune.Cache.PruneCacheSize | src/cache.cc:1169-1245 | The oldest `Excess` rows go; the running total never underflows |
| CachePrune.Cache.PruneDiskSpace | src/cache.cc:1247-1337 | Fails iff the free space is unknown or below the predicted size; else the oldest `Needed` rows go |
| CachePrune.ExcessIsLeast | src/cache.cc:1205-1233 | That is the shortest prefix that brings the total within the limit |
| CachePrune.NeededIsLeast | src/cache.cc:1311-1325 | That is the shortest prefix that frees enough, or all rows |
| CachePrune.OldestGo | src/cache.cc:1184 | No entry is removed while one used earlier is kept |
| CachePrune.RunMaintenance | src/cache.cc:1339-1353 | The three prunes run in sequence on fresh queries, whatever the one before reported; it fails iff the last one does, which then removes nothing |
| CachePrune.FirstPrunesHold | src/cache.cc:1339-1353 | Whether or not the space prune fails, nothing is expired and the total is within the limit |
| CachePrune.MaintenanceComposes | src/cache.cc:1339-1353 | After all three: nothing is expired, the total is within the limit, and the accounted space suffices or the index is empty |

## Left out

- SegmenterRuns.RunKeeps: speaks of runs with at least one active stream, packets stored under an active stream's type, no positive header code and no store that answers EAGAIN; `HeaderDecidesReplay`, `LastSegmentRollsOnlyWithoutStreams` and `SilentLossIff` say what happens otherwise. `RunStaysInside` needs only the first two conditions, `RunBalances` none.
- SegmenterRuns.RollOverSeeks: of reopening the output only the effect on counter, queues and maps is modelled. Muxer buffers, the trailer, and further requests that opening the output may consume when segment 1 is sought are not.
- A run ends with its first failing call; that the decoder's loop goes on after `AVERROR(EAGAIN)` from storing a copied stream's packet (`src/ffmpeg_transcoder.cc:4403-4414`) is not modelled.
- Formats other than HLS in the segmenter, frame sets in `process_single_fr`, and the forced key frame flag, which only influences the encoder.
- The null checks at the top of `initialise_hls_output_segment`.
- BufferRuns.RunRefines: failures of open, ftruncate, mmap, mremap and unlink are not modelled, nor is the parallel index mapping of frame sets; the finished flag is only stored.
- CacheBuffer.Buffer.constructor: deletion of old cache files at start. `clear`, `flush`, `release` and file naming only add easy members.
- FrameIndex.FrameSetIsMap: slots are records; the byte layout of the index file and its file header are not modelled.
- Overflow of 64-bit sizes, offsets and time stamps, and the 64-bit sums of the cache totals.
- MasterElection.ElectionIsSafe: link-down is one step, and the named semaphore is created and removed together with the shared memory; process ids are not reused; failing system calls are not modelled.
- DvdNavigation.Reader.HandleDsi: the next block inside interleaved units is an input (`Dsi.interleaved`).
- DvdNavigation.PlayAll: stands for the caller's reading loop, on a disc whose VOBUs are chained and readable and without interleaved units; with a failed read, `ReadVobu` says what one call does.
- DvdNavigation.WalkIsComplete: makes no claim after a failed read, which may have skipped a cell, until the next rewind.
- DvdNavigation.Reader.ReadVobu: delivering a VOBU in pieces to a small buffer, and the comparison of the block number with the one just copied from the same packet, which cannot fail.
- CellWalk.PredictTotals: BCD times are given as microseconds; frame rate, aspect ratio and chapter titles are plumbing.
- Rescaling.FrameRoundTrip: the product of frame rate and time base is taken as an exact fraction.
- DtsRepair.RepairOrders: muxers without time stamps skip the repair; filling in a missing duration and 64-bit overflow of the guess are not modelled.
- AudioFraming.Framer.CopyToFrameBuffer: allocation failures of output frames; resampling happens in the decoder's answer.
- CachePrune.Cache.DeleteRow: deleting a row or file does not fail; SQL text, transactions and open cache entries in memory are not modelled.
- Blu-ray input, codec and filter set-up, hardware acceleration, cue sheets, metadata, logging and FUSE callbacks: foreign calls or plumbing with little state of their own.
