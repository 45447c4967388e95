# Media containers and streams: a verified model

This project models the byte-level components of a Go media server and proves what they promise: the MP4 reader and
writer, RTMP chunk streams, the packet queue between a publisher and its readers, MPEG transport streams, fragmented
MP4 in its two forms, and the small recursive formats these are made of. Network, disk and clocks are byte sequences
and parameters.

The source changes things step by step, and so does the model: objects with fields are classes, buffers that are
written in place are arrays, loops are loops. Each method is proved against a function of its inputs and of the old
state, and what the source promises is proved about these functions: over every table, every run, every interleaving.

| component | modules |
|---|---|
| bytes, bits and buffers | Bytes, Bits, ByteBits, Buffers, Sums |
| MP4 files | SampleTables, Mp4Time, Mp4Reader, Mp4Samples, Mp4Writer, Mp4Demuxer, Mp4Merging |
| RTMP | FlvTags, RtmpCommands, RtmpChunks, RtmpRuns, RtmpWriting, RtmpRoundTrip, RtmpConn |
| publish and subscribe | PacketRing, QueueSpec, QueueDrift, PacketQueue |
| transport streams | Vectors, TsPackets, TsStuffing, TsPes, Adts, TsDemuxer, TsMuxer, TsRoundTrip, Checksum, Psi, ProgramMaps, TsTables, TsStreams, TsWholeRuns |
| H.264 framing | Nalus |
| fragmented MP4 | Fmp4Boxes, Fmp4Writing, Fmp4Reading, Fmp4RoundTrip, Timescale, Fmp4Tracks, Fmp4Fragments, LiveBoxes, LiveStreams |
| recursive formats | Amf0, Amf0Limits, Esio |

`dafny verify dfyconfig.toml` checks everything.

## Where the code does not do what one would expect

The code is modelled as it is. Where it falls short of the obvious promise, the exact condition under which it keeps
the promise is proved, in both directions (counted maps inside other AMF0 values, the last but one, are the exception),
and where that helps a concrete input shows the failure.

- Seeking multiplies count and duration in 32 bits: it is right on all targets exactly if every run of equal durations
  is shorter than 2^32 ticks (`Mp4Time.SearchRightIffRunsFit`, format/mp4/demuxer.go:418). The step back goes strictly
  before the sample found, so seeking to a key frame reaches it only if it is the first
  (`Mp4Reader.KeyReachedIff`).
- A video track without any key frame reads as empty (`Mp4Samples.ReadableExactly`, `Mp4Writer.MuxThenDemux`).
- The merged reader takes the end of the stream whose turn it is for the end of the file. All packets leave exactly if
  no stream ends before the last packet of another is due (`Mp4Merging.AllLeaveIff`). The writer gives the last packet
  of each stream no duration, so no file of two or more streams it wrote is read to its end
  (`Mp4Merging.WrittenNeverAllLeave`, `Mp4Merging.TwoPacketsLost`).
- RTMP repeats extended timestamps on continuation chunks but reads them as payload
  (`RtmpRoundTrip.MessageDeliveredIff`). Commands and announcements of a chunk size are never cut, so they get through
  exactly if they fit the reader's chunk size (`RtmpRoundTrip.UncutDeliveredIff`, `RtmpRoundTrip.AnnounceDeliveredIff`).
- The first packet from a cursor delayed by n groups is the n-th key frame exactly if that is the oldest one retained,
  and the packet before it otherwise (`QueueSpec.GopFirstIff`, `QueueSpec.GopStartsEarly`). A cursor at the latest
  packet, in the words of its comment, never delivers that packet (`QueueSpec.LatestIsBehind`, av/pubsub/queue.go:122).
- After a new header in mid-run the group counter is right at any later time exactly if the stream watched from then on
  had as many key frames retained as were counted (`QueueDrift.RewatchExactIff`); what it is off by never changes, and
  acts like a limit lower by as much (`QueueDrift.RunCorrected`). Off by the limit or more it leaves one packet after
  every write (`QueueDrift.HoldsOneIff`, `QueueDrift.HoldsOneForEver`), and off to the other side it holds too many groups
  (`QueueDrift.DropsNothingIff`, `QueueDrift.HoldsThree`).
- Each copy of a transport stream shifts eight of nine clock values one tick back (`TsPes.CopyLosesATick`).
- The header template of transport packets is not cleaned: a packet without a clock reference whose header reaches past
  its twelfth byte has proper stuffing exactly if no clock reference was written before on its writer, and shorter
  headers also while they cover only ones of it (`TsStuffing.StuffingIsOnesIff`, `TsStuffing.LongStuffingIsOnesIff`,
  `TsStuffing.RunIsStuffedIff`, `TsStuffing.ShowsItsClock`, format/ts/tsio/tsio.go:628); readers pass over it.
- A program map is written for up to 34 streams, but read from its first packet only, which holds it exactly if there
  are at most 33 (`TsTables.StreamsFoundIff`, `TsWholeRuns.FileReadsBack`).
- Descriptor lists of program maps are never read back (`ProgramMaps.ListNeverReadBack`, `ProgramMaps.PmtReadsBackIff`,
  format/ts/tsio/tsio.go:196).
- A start-coded stream gives its units exactly if its bytes do not also read as lengths throughout, or, where they do,
  if all its codes are long and all its units single bytes (`Nalus.StartCodedRecoveredIff`, `Nalus.MisreadAsLengths`).
- Runs of another version than 0 write composition times over the start of their box
  (`Fmp4RoundTrip.TrunReadsBackIff`, format/fmp4/fmp4io/fragment.go:245); so a fragment with a negative composition
  time cannot be read back. An empty box at the very end of its parent is not looked at.
- The live path stores each packet with the time since the packet before, so packet k gets the decode time of packet
  k - 1, which is its own exactly if less than a tick lies between them (`LiveStreams.DecodeTimeIsOwnIff`,
  `LiveStreams.SecondFrameEarly`). Its durations are cut to 32 bits: all packets are told at their own ticks exactly if no
  time goes back or jumps by 2^32 ticks (`LiveStreams.TimesChainIff`, `LiveStreams.FilesChainIff`).
- The MP4 writer cuts each duration to whole ticks for itself: a decode time is exact if and only if every difference
  before it is a whole number of ticks (`Timescale.CutTimesExactIff`, `Timescale.CutTimesDrift`); the fragmenter rounds times
  instead and stays within half a tick (`Timescale.RoundedTimesStay`).
- AMF0 values without counted maps read back exactly if each length fits its field, where a string of 65536 bytes does
  not (`Amf0Limits.ReadsBackIff`). An empty key ends a counted map (`Amf0Limits.CountedReadsBackIff`), unless deeper
  inside luck repairs the damage (`Amf0Limits.ReadBackByLuck`).
- Descriptor URLs of 255 bytes or more and audio frames of 8192 bytes or more do not survive (`Esio.UrlReadsBack`,
  `TsRoundTrip.SoundSurvivesIff`).

## Model

| member | source | states |
|---|---|---|
| Bytes.ReadBack16 | utils/bits/pio/writer.go:12-15 | a 16-bit number written big-endian is read back whatever follows it |
| Bytes.ReadBack24 | utils/bits/pio/writer.go:23-27 | the same for 24 bits |
| Bytes.ReadBack32 | utils/bits/pio/writer.go:36-41 | the same for 32 bits |
| Bytes.ReadBack64 | utils/bits/pio/writer.go:67-76 | the same for 64 bits |
| Bytes.ReadBackLE32 | utils/bits/pio/writer.go:43-48 | the same for 32 bits, low byte first |
| SampleTables.LocatedUnique | format/mp4/demuxer.go:105-200 | a sample has exactly one position: chunk, group, offset in the chunk, decode time, duration, composition and key indices are all determined by the tables |
| SampleTables.StepLocates | format/mp4/demuxer.go:230-280 | one stepwise advance from the position of sample i never runs off a table and lands on the position of sample i + 1 |
| SampleTables.StepsLocate | format/mp4/demuxer.go:230-280 | any number of advances from the start, up to the sample count, lands on the position the tables define |
| SampleTables.SteppingAgreesWithSeeking | format/mp4/demuxer.go:105-280 | on every well-formed table the stepwise cursor after k steps equals, in every field, the cursor computed from scratch for sample k |
| Mp4Reader.SeekSucceedsInRange | format/mp4/demuxer.go:105-200 | recomputing the indices succeeds exactly for the sample numbers of the track |
| Mp4Reader.Stream.SetSampleIndex | format/mp4/demuxer.go:105-200 | the in-place search over four tables ends at the position of the sample, or reports the first table in which it is missing and leaves the sample number alone |
| Mp4Reader.Stream.IncSampleIndex | format/mp4/demuxer.go:230-280 | the in-place advance is the abstract step, and returns the ticks by which the decode time grew |
| Mp4Reader.Stream.ValidMeansPlayable | format/mp4/demuxer.go:202-228 | the validity test over ten indices says exactly that a sample can be read next, and then the advance is safe |
| Mp4Reader.Stream.Fetch | format/mp4/demuxer.go:359-395 | a packet has the bytes, key mark and composition time the tables give for the current sample |
| Mp4Reader.Stream.ReadPacket | format/mp4/demuxer.go:359-395 | reading delivers the current sample and moves to the next; at the end or on a short file nothing moves |
| Mp4Reader.Stream.FindTime | format/mp4/demuxer.go:408-433 | the search by time computes the sample the run table gives |
| Mp4Reader.Stream.StepBack | format/mp4/demuxer.go:435-443 | the step back goes to the largest key sample strictly before the found one, or stays if there is none |
| Mp4Reader.KeyReachedIff | format/mp4/demuxer.go:435-443 | asked for a key sample, the step back stays at it if and only if it is the first of the track |
| Mp4Reader.SeekLands | format/mp4/demuxer.go:397-446 | seeking a well-formed track that is not empty always finds a sample: the one playing then, or the last key sample before it; outside the track the first or the last one counts |
| Mp4Reader.Stream.TimeToSampleIndex | format/mp4/demuxer.go:408-446 | search by time and step back together |
| Mp4Reader.Stream.SeekToTime | format/mp4/demuxer.go:397-406 | the stream ends at the sample the search selects, or reports the first table in which it is missing and keeps its sample number |
| Mp4Reader.ReadsInOrder | format/mp4/demuxer.go:359-395 | a fresh reader of a whole file reaches one sample per call, in order, and then reports the end for ever |
| Mp4Demuxer.Demuxer.Earliest | format/mp4/demuxer.go:310-316 | the first of the streams whose next sample is earliest |
| Mp4Demuxer.Demuxer.ReadPacket | format/mp4/demuxer.go:300-327 | merging streams: the call reads the earliest stream and moves no other; the end of that one stream is the end of the file |
| Mp4Demuxer.Demuxer.SeekToTime | format/mp4/demuxer.go:337-357 | the first video stream seeks to the time, every stream of another kind to the time of the sample it landed on; the first failure ends it |
| Mp4Demuxer.TrackLands | format/mp4/demuxer.go:397-446 | each track goes to the sample playing at its time, or to the last key sample before that one |
| Mp4Demuxer.SeekAlwaysSucceeds | format/mp4/demuxer.go:337-357 | with tracks that hold samples in runs that fit, seeking never fails, whatever the time |
| Mp4Merging.RunFollowsTurns | format/mp4/demuxer.go:300-327 | over whole runs each stream gives its own packets in its own order, one at a time, and which stream is next is told by the tables alone |
| Mp4Merging.AllLeaveIff | format/mp4/demuxer.go:300-327 | every packet of every stream leaves before the end is reported if and only if no stream ends before the last packet of another is due |
| Mp4Merging.WrittenNeverAllLeave | format/mp4/muxer.go:246-252 | so no file written with two or more streams that hold packets is ever read to its end: the last packet of a stream has no duration |
| Mp4Merging.TwoPacketsLost | format/mp4/demuxer.go:310-316 | of three packets of two sound tracks the merged reader gives one and reports the end |
| Mp4Time.TsToTimeMonotone | format/mp4/stream.go:49-51 | later ticks are not earlier times, as long as 64 bits suffice |
| Mp4Time.SearchRightIffRunsFit | format/mp4/demuxer.go:417-433 | the search finds dts(i) <= target < dts(i + 1) for every target of the track if and only if every run of equal durations is shorter than 2^32 ticks |
| Mp4Time.OverlongRunMissed | format/mp4/demuxer.go:417-426 | where the first longer run stands, a target is attributed to the wrong sample |
| Mp4Time.LongTrackMissed | format/mp4/demuxer.go:418 | a 16-hour audio track is such a track |
| Mp4Time.SearchOutside | format/mp4/demuxer.go:427-433 | targets before the track go to the first sample and targets after it to the last |
| Mp4Samples.TableOfDescribes | format/mp4/muxer.go:205-243 | the tables built sample by sample say of every sample what was written, with runs as long as possible |
| Mp4Samples.DescribedIsWellFormed | format/mp4/muxer.go:205-243 | what the writer builds is a well-formed table, so the results on stepping and seeking hold for it |
| Mp4Samples.ReadsBack | format/mp4/muxer.go:205-243 | at the position of sample i a reader gets the bytes, key mark and composition time written for it |
| Mp4Samples.ReadableExactly | format/mp4/demuxer.go:202-228 | sample i can be read if and only if it was written and, for video, the track has a key frame |
| Mp4Samples.DecodeTimeReadsBack | format/mp4/muxer.go:219-224 | the decode time of sample i is the sum of the tick durations before it |
| Mp4Writer.Track.AddToTables | format/mp4/muxer.go:215-240 | the table update, entry counters changed in place, is the abstract one |
| Mp4Writer.Track.CountIn | format/mp4/muxer.go:220-224 | a run is extended or a new one begun |
| Mp4Writer.Muxer.Flush | format/mp4/muxer.go:205-243 | a packet is placed at the shared write position and recorded for its stream; going back in time is refused and changes nothing |
| Mp4Writer.Muxer.WritePacket | format/mp4/muxer.go:194-203 | over every interleaving: the file so far is the media data of all flushed packets in order, and each stream records what it accepted but for the last |
| Mp4Writer.Muxer.FlushLast | format/mp4/muxer.go:246-252 | the last packet of a stream is written with no duration |
| Mp4Writer.Muxer.WriteTrailer | format/mp4/muxer.go:245-306 | the finished file: chunk offsets tile the media data and every accepted packet of every stream is recorded |
| Mp4Writer.TiledStored | format/mp4/muxer.go:238-241 | chunk offsets of all streams tile the media data without gap or overlap, so every sample is where its offset says |
| Mp4Writer.TrackIsPlaced | format/mp4/muxer.go:238-241 | every sample of a stream stands in the file order |
| Mp4Writer.StoredIsIntact | format/mp4/muxer.go:238-241 | no sample of a finished file below 4 GiB is out of a reader's reach |
| Mp4Writer.MuxThenDemux | format/mp4/muxer.go:194-253 | round trip: call number n of a fresh reader gives packet n of the stream, with data, key mark, composition time and the tick durations before it, and every call after the last packet reports the end; a video stream without key frame ends at once |
| Mp4Writer.Muxer.FileReadsBack | format/mp4/muxer.go:194-306 | the same for every stream of a file the muxer has finished, over any interleaving |
| FlvTags.ReadsBackIffRepresentable | format/flv/flvio/flvio.go:164-266 | a tag with its header is parsed back as it was if and only if its fields are representable |
| RtmpRuns.TakeAllSplits | format/rtmp/rtmp.go:1132-1350 | reading is compositional in the chunks |
| RtmpRuns.ReadingTakesChunks | format/rtmp/rtmp.go:1132-1350 | reading bytes is taking the chunks found in them, one after the other |
| RtmpRuns.StreamsAreIndependent | format/rtmp/rtmp.go:1163-1167 | for every interleaving, each chunk stream has exactly the state and the messages its own chunks alone produce |
| RtmpRuns.PayloadIsPreserved | format/rtmp/rtmp.go:1313-1345 | on every run the payload received on a stream is its completed messages in order followed by what its buffer holds |
| RtmpRuns.ClockIsElapsed | format/rtmp/rtmp.go:1171-1306 | a stream's time is the last absolute timestamp plus the deltas applied since, modulo 2^32 |
| RtmpRuns.RunIsFaithful | format/rtmp/rtmp.go:1132-1350 | all of this at once, for every stream of every run over raw bytes from a fresh connection |
| RtmpWriting.ReadContinued | format/rtmp/rtmp.go:1281-1345 | continuation chunks complete the message that was begun |
| RtmpWriting.ReadMessage | format/rtmp/rtmp.go:1001-1037 | a message cut for the reader's chunk size is delivered exactly, and the reader is ready for the next |
| RtmpRoundTrip.WriteThenRead | format/rtmp/rtmp.go:1001-1057 | for every sequence of tags and chunk size announcements, the reader hands over exactly the messages written, in order |
| RtmpRoundTrip.TagRecovered | format/rtmp/rtmp.go:1394-1477 | the handler gets the tag back from such a message if and only if its fields are representable |
| RtmpRoundTrip.UncutDeliveredIff | format/rtmp/rtmp.go:890-950 | a message that is never cut, such as a command, gets through if and only if it fits the reader's chunk size |
| RtmpRoundTrip.AnnounceDeliveredIff | format/rtmp/rtmp.go:890-898 | a chunk size announcement, which is never cut, gets through if and only if the reader's chunk size is at least 4 |
| RtmpRoundTrip.MessageDeliveredIff | format/rtmp/rtmp.go:952-1037 | messages of a length all get through if and only if the timestamp is below 0xffffff or one chunk holds the message |
| RtmpRoundTrip.LongTimeCorrupts | format/rtmp/rtmp.go:952-959 | otherwise the repeated extended timestamp ends up in the payload |
| RtmpRoundTrip.Starved | format/rtmp/rtmp.go:1313-1345 | a stream that misses more bytes than there are completes nothing |
| RtmpRoundTrip.ReceivedSticks | format/rtmp/rtmp.go:1313-1323 | bytes received stay at their place in the message |
| RtmpConn.Conn.ReadBasicHeader | format/rtmp/rtmp.go:1132-1161 | the one- to three-byte basic header |
| RtmpConn.Conn.ReadMessageHeader | format/rtmp/rtmp.go:1171-1311 | header types 0 to 3 change the chunk stream exactly as its rules say, or are refused in mid-message |
| RtmpConn.Conn.ReadPayload | format/rtmp/rtmp.go:1313-1323 | at most a chunk of payload goes to its place in the message buffer |
| RtmpConn.Conn.FindStream | format/rtmp/rtmp.go:1163-1167 | a chunk stream is created when first seen; no other changes |
| RtmpConn.Conn.HandleMsg | format/rtmp/rtmp.go:1394-1477 | which complete messages are accepted, and what each kind leaves behind: chunk size, command, data values, tag |
| RtmpCommands.ReadValues | format/rtmp/rtmp.go:1424-1438 | the loop over the values of a message reads them all or fails on the first that cannot be read |
| RtmpCommands.ReadCommand | format/rtmp/rtmp.go:1352-1392 | name, transaction, object and further parameters of a command, or failure |
| RtmpCommands.CommandReadsBack | format/rtmp/rtmp.go:937-950 | a command written as values that fit is read as it was meant |
| RtmpConn.Conn.ReadChunk | format/rtmp/rtmp.go:1132-1350 | the connection object moves exactly as the abstract reader, or fails exactly when it refuses |
| RtmpConn.Conn.WriteInChunks | format/rtmp/rtmp.go:1001-1037 | the loop over pos and last writes the message in pieces behind the right headers |
| RtmpConn.Conn.WriteAVTag | format/rtmp/rtmp.go:1039-1057 | a tag is one message on the chunk stream of its kind |
| RtmpConn.Conn.WriteSetChunkSize | format/rtmp/rtmp.go:890-898 | the announcement is written and the size used from then on |
| Bits.MaskIsMod | av/pktque/buf.go:53-55 | masking a position with capacity minus one is the remainder by the capacity |
| PacketRing.SlotsDiffer | av/pktque/buf.go:53-55 | positions less than a turn apart never share a slot |
| PacketRing.Buf.Push | av/pktque/buf.go:43-51 | slot p modulo capacity holds log entry p for all retained p, through growth; the log gains exactly the packet |
| PacketRing.Buf.Grow | av/pktque/buf.go:35-41 | doubling moves every retained packet to its new slot |
| PacketRing.Buf.Pop | av/pktque/buf.go:20-33 | the oldest packet leaves, the size stays the sum of what is retained |
| PacketRing.Buf.Get | av/pktque/buf.go:53-55 | a retained position gives the packet pushed there |
| QueueSpec.EvictKeepsExact | av/pubsub/queue.go:93-101 | the group counter stays the number of retained key frames |
| QueueSpec.EvictIsLeast | av/pubsub/queue.go:93-101 | eviction stops in time, and no earlier stop would have done |
| QueueSpec.PublishKeepsWindow | av/pubsub/queue.go:84-114 | after each write the counter is exact, the newest packet is retained, fewer than the maximal number of groups are held or just that packet, and no more was dropped than needed |
| QueueSpec.TimeStart | av/pubsub/queue.go:141-157 | where a time-delayed cursor starts |
| QueueSpec.GopStart | av/pubsub/queue.go:160-175 | where a cursor delayed by groups starts: one packet before the n-th key frame from the end |
| QueueSpec.GopFirstIff | av/pubsub/queue.go:160-218 | its first delivery is the n-th key frame from the end if and only if that is the oldest packet retained, and otherwise the packet before it |
| QueueSpec.TooFewGops | av/pubsub/queue.go:160-175 | with fewer key frames retained it begins at the oldest packet |
| QueueSpec.GopStartsEarly | av/pubsub/queue.go:160-175 | of a key frame, another packet and a key frame, a cursor delayed by one group delivers the one in the middle |
| QueueSpec.LatestIsBehind | av/pubsub/queue.go:122-129 | a cursor at the latest packet never delivers that one, but waits for what is published next |
| QueueDrift.RunCorrected | av/pubsub/queue.go:46-114 | on every run after a new header the group counter stays off by the same amount, and the queue and all its readers behave as with an exact counter and limits lower by that amount |
| QueueDrift.RewatchExactIff | av/pubsub/queue.go:52-66 | after watching another stream the group counter is exact at any later time of any run if and only if as many of its key frames were retained at the change as were counted |
| QueueDrift.HoldsOneIff | av/pubsub/queue.go:84-114 | a counter off by the limit or more leaves one packet after every write; otherwise two packets in a row that are no key frames are both held |
| QueueDrift.DropsNothingIff | av/pubsub/queue.go:84-114 | a write drops nothing if and only if the groups then held are fewer than the limit less what the counter is off by |
| QueueDrift.HoldsThree | av/pubsub/queue.go:52-114 | a concrete change of streams after which three groups are held where two are allowed |
| QueueDrift.HoldsOneForEver | av/pubsub/queue.go:52-114 | two changes of streams under the usual limit after which every write leaves one packet |
| QueueSpec.NextSound | av/pubsub/queue.go:84-218 | every step of writer, settings, new cursors and reads keeps the window exact and every cursor faithful |
| QueueSpec.RunSound | av/pubsub/queue.go:84-218 | safety of all runs of one writer and any number of readers |
| QueueSpec.DeliveriesIncrease | av/pubsub/queue.go:192-218 | a cursor delivers log entries at strictly increasing positions, and skips only what was evicted before the read |
| QueueSpec.EndMeansDrained | av/pubsub/queue.go:192-218 | the end is reported only by a closed queue that retains nothing at or after the cursor |
| PacketQueue.Queue.WritePacket | av/pubsub/queue.go:84-114 | the in-place write and eviction loop is one abstract publication |
| PacketQueue.Queue.WriteHeader | av/pubsub/queue.go:52-66 | the last video stream of the header is watched |
| PacketQueue.Queue.SetMaxGopCount | av/pubsub/queue.go:45-50 | changes nothing else |
| PacketQueue.Queue.Close | av/pubsub/queue.go:73-81 | changes nothing else |
| PacketQueue.QueueCursor.Init | av/pubsub/queue.go:123-175 | the start of each kind of cursor |
| PacketQueue.QueueCursor.InitByTime | av/pubsub/queue.go:141-157 | the backward scan over times |
| PacketQueue.QueueCursor.InitByGops | av/pubsub/queue.go:160-175 | the backward scan over key frames |
| PacketQueue.QueueCursor.ReadPacket | av/pubsub/queue.go:192-218 | the read loop delivers, ends or waits exactly as the abstract read |
| Vectors.VecLen | utils/bits/pio/vec.go:3-8 | the length of a vector is that of its bytes |
| Vectors.Collect | utils/bits/pio/vec.go:40-60 | the second loop collects the wanted bytes across slices |
| Vectors.VecSliceTo | utils/bits/pio/vec.go:10-61 | slicing a vector gives exactly its bytes from s to e |
| TsPackets.TSWriter.constructor | format/ts/tsio/tsio.go:516-528 | a writer of a packet id, with a header template |
| TsPackets.TSWriter.BeginPacket | format/ts/tsio/tsio.go:614-637 | start, key and clock fields of the next header, each flag exactly; the counter advances |
| TsPackets.TSWriter.WriteOne | format/ts/tsio/tsio.go:614-662 | one packet of exactly 188 bytes whose header, as the reader computes it, ends where its payload begins |
| TsPackets.TSWriter.WritePackets | format/ts/tsio/tsio.go:609-665 | only 188-byte packets, the start flag on the first alone, consecutive counters modulo 16; without padding the payloads concatenate to the vector; all packets but the last are full; the clock flag is set on the first packet alone, exactly if there is a clock reference, and what stands behind the flags is the last clock reference written on this writer and then ones |
| TsStuffing.StuffingIsOnesIff | format/ts/tsio/tsio.go:614-646 | the stuffing of a packet is all ones if and only if it has a clock reference of its own, or none was written before, or it is shorter than the ones the last clock reference begins with |
| TsStuffing.LongStuffingIsOnesIff | format/ts/tsio/tsio.go:624-646 | a header of 12 bytes or more without a clock reference has proper stuffing if and only if none was written before; otherwise it shows the last one |
| TsStuffing.RunIsStuffedIff | format/ts/tsio/tsio.go:609-665 | the exact payload lengths, clock references and pasts of a writer for which all packets of a payload have proper stuffing |
| TsStuffing.ShowsItsClock | format/ts/tsio/tsio.go:609-665 | a concrete payload of 177 bytes whose second packet begins its stuffing with the clock reference of the first |
| TsPes.StampRecovered | format/ts/tsio/tsio.go:393-405 | the clock survives its split into three pieces with marker bits |
| TsPes.ClockTruncatesIff | format/ts/tsio/tsio.go:393-405 | a time is read back less than a tick early if and only if the 33-bit clock has not wrapped |
| TsPes.CopyLosesATick | format/ts/tsio/tsio.go:393-405 | writing a time that was read keeps its tick only for every ninth tick, and loses one otherwise |
| TsPes.FillPESHeader | format/ts/tsio/tsio.go:448-505 | the header bytes in the buffer, and nothing after them touched |
| TsPes.HeaderReadsBack | format/ts/tsio/tsio.go:412-446 | a header reads back with times on the clock's grid and the length as far as 16 bits go |
| TsPes.LengthAcceptedIff | format/ts/demuxer.go:212-215 | the reader's length check passes if and only if the length field did not wrap, or wrapped to where no check is made |
| Adts.FillADTSHeader | codec/aacparser/parser.go:123-143 | the frame header built over its template |
| Adts.FrameReadsBackIff | codec/aacparser/parser.go:95-143 | a frame reads back with its length if and only if it is shorter than 8192 bytes and the channel count is not lost |
| Adts.BlocksTold | codec/aacparser/parser.go:110-142 | the header tells the number of samples as it is if and only if it is one to four whole blocks |
| TsDemuxer.Stream.AddPacket | format/ts/demuxer.go:187-205 | a packet's times; a missing decoding time is the presentation time |
| TsDemuxer.Stream.PayloadEnd | format/ts/demuxer.go:207-269 | the end of a payload delivers its frames in order, or fails on a wrong length |
| TsDemuxer.Stream.EndVideo | format/ts/demuxer.go:239-259 | one packet for each unit of picture data, behind its length |
| TsDemuxer.Stream.EndAudio | format/ts/demuxer.go:219-237 | one packet for each audio frame, each later by the samples before it |
| TsDemuxer.Stream.HandleTSPacket | format/ts/demuxer.go:271-291 | a transport packet begins or extends a payload |
| TsMuxer.Stream.Vector | format/ts/muxer.go:195-203 | the vector of a picture: delimiter, start codes and units |
| TsMuxer.Stream.Send | format/ts/muxer.go:205-208 | what is sent is the header and the body, and the header fits into the first packet |
| TsMuxer.Stream.WritePacket | format/ts/muxer.go:158-214 | a frame is sent as transport packets that carry its header and its bytes |
| TsStreams.Demuxer.ReadTSPacket | format/ts/demuxer.go:137-185 | one packet for a demuxer of several streams: it finds the program, then its map, then hands packets to the stream of their id, whose frames join one queue |
| TsStreams.Demuxer.InitPMT | format/ts/demuxer.go:103-126 | the streams of a map that are pictures or sound |
| TsStreams.Demuxer.PayloadEnd | format/ts/demuxer.go:128-135 | at the end of the input every stream's payload ends, up to the first failure |
| TsWholeRuns.MixtureReadIff | format/ts/demuxer.go:137-185 | for every mixture of packets the demuxer gets through if and only if every packet is whole and every stream would get through on its own, and then every stream stands where it would on its own |
| TsWholeRuns.QueueKeeps | format/ts/demuxer.go:187-205 | over every run the shared queue holds of each stream exactly what that stream delivered, in order |
| TsWholeRuns.FileReadsBack | format/ts/muxer.go:46-185 | a file, its tables in front and the packets of its streams mixed in any way, is read to its end if and only if there are at most 33, and then gives back of each stream all payloads sent on it, in order |
| TsRoundTrip.PayloadAssembled | format/ts/demuxer.go:271-291 | the packets of a payload end the one before and leave exactly this payload |
| TsRoundTrip.RunDelivers | format/ts/demuxer.go:137-291 | for every run of payloads, each is read and none disturbs another |
| TsRoundTrip.PictureSurvives | format/ts/muxer.go:182-211 | a picture is read back as exactly its units of picture data, with its times and key mark |
| TsRoundTrip.SoundSurvivesIff | format/ts/muxer.go:170-180 | an audio packet is read back as it was if and only if header and data fit the 13 bits of the frame length |
| Checksum.CalcCRC32 | format/ts/tsio/checksum.go:49-54 | the loop over the table |
| Checksum.TableIsClocked | format/ts/tsio/checksum.go:3-47 | every entry of the table is eight clocks of the register of Annex A of ISO/IEC 13818-1 |
| Checksum.TableComputesRegister | format/ts/tsio/checksum.go:49-54 | the table-driven form computes, for all data, the bit-by-bit register with its bytes in the opposite order |
| Checksum.ChecksItself | format/ts/tsio/checksum.go:49-54 | data followed by their checksum leave zero |
| Checksum.BurstsAreDetected | format/ts/tsio/checksum.go:49-54 | data that differ in at most four neighbouring bytes never have the same checksum |
| Psi.FillPSI | format/ts/tsio/tsio.go:338-374 | header and checksum are put around a payload in place |
| Psi.SectionChecksItself | format/ts/tsio/tsio.go:338-374 | the checksum over every filled section, its own checksum included, is zero |
| Psi.DamagedSectionFails | format/ts/tsio/tsio.go:369-371 | a section with up to four neighbouring bytes changed never passes |
| Psi.SectionFoundIff | format/ts/tsio/tsio.go:279-334 | a filled section is found again with its identifiers and payload if and only if its length fits ten bits |
| Psi.MarshalPat | format/ts/tsio/tsio.go:54-67 | the association table in the buffer |
| Psi.UnmarshalPat | format/ts/tsio/tsio.go:69-90 | the association table from its bytes |
| Psi.PatReadsBackIff | format/ts/tsio/tsio.go:54-90 | an association table reads back if and only if each entry has just the 13-bit packet id its program number calls for |
| ProgramMaps.FillDescs | format/ts/tsio/tsio.go:143-153 | descriptors in the buffer |
| ProgramMaps.FillList | format/ts/tsio/tsio.go:161-166 | a descriptor list behind its length, which is filled in last |
| ProgramMaps.MarshalPmt | format/ts/tsio/tsio.go:155-186 | the program map in the buffer, as many bytes as its length says |
| ProgramMaps.ParseDescs | format/ts/tsio/tsio.go:188-212 | the descriptor loop |
| ProgramMaps.ParseStreams | format/ts/tsio/tsio.go:245-274 | the stream loop |
| ProgramMaps.UnmarshalPmt | format/ts/tsio/tsio.go:214-277 | the program map from its bytes |
| ProgramMaps.ListFallsShort | format/ts/tsio/tsio.go:190-206 | a non-empty descriptor list is always read two bytes short: its last descriptor is dropped |
| ProgramMaps.ListNeverReadBack | format/ts/tsio/tsio.go:188-212 | so no list of descriptors is ever read back, whatever its length |
| ProgramMaps.PmtReadsBackIff | format/ts/tsio/tsio.go:155-277 | a program map reads back if and only if it holds no descriptor and only 13-bit packet ids |
| TsTables.Tables.Send | format/ts/muxer.go:101-106 | a section travels at the front of padded packets |
| TsTables.Tables.WritePATPMT | format/ts/muxer.go:95-141 | both tables are sent; a map that does not fit is refused |
| TsTables.ProgramFound | format/ts/demuxer.go:152-163 | the first packet of the association table tells where the map is |
| TsTables.StreamsFoundIff | format/ts/demuxer.go:98-124 | the first packet of the map gives back exactly the streams if and only if there are at most 33; of the 34 that are still written it gives nothing |
| Nalus.SplitNALUs | codec/h264parser/parser.go:217-295 | the scan with its reused variables computes the split |
| Nalus.ScanAvcc | codec/h264parser/parser.go:226-248 | the loop over lengths |
| Nalus.ScanAnnexB | codec/h264parser/parser.go:250-292 | the loop over start codes; values left from the last test do no harm |
| Nalus.FindCode | codec/h264parser/parser.go:271-288 | the search for the next start code |
| Nalus.LengthPrefixedRecovered | codec/h264parser/parser.go:226-249 | units joined by 4-byte lengths come back as they were, whatever bytes they hold |
| Nalus.UnitsRecovered | codec/h264parser/parser.go:252-292 | start-coded units free of start codes and not ending in zero come back one by one |
| Nalus.StartCodedRecoveredIff | codec/h264parser/parser.go:217-295 | a start-coded stream gives its units if and only if its bytes do not also read as lengths, or all its codes are long and all its units single bytes |
| Nalus.MisreadAsLengths | codec/h264parser/parser.go:226-249 | a stream that does, and gives other units |
| Nalus.JoinedRecovered | codec/h264parser/parser.go:203-204 | the transport stream join (delimiter and start codes) always comes back as the delimiter and the units |
| Nalus.Reframe | format/fmp4/trackfrag.go:46-65 | the rewriting loop of the fragmenter |
| Nalus.NoUnitsIff | codec/h264parser/parser.go:250-292 | a stream of start codes holds no unit if and only if it is made of start codes alone |
| Nalus.ReframedKeepsUnitsIff | format/fmp4/trackfrag.go:46-65 | rewriting to lengths keeps the units of all data but those that are made of start codes alone and do not also read as lengths |
| Fmp4Boxes.TfhdLen | format/fmp4/fmp4io/fragment.go:648-679 | the counted length is the number of bytes written |
| Fmp4Boxes.TfdtLen | format/fmp4/fmp4io/fragment.go:400-411 | the same for decode times |
| Fmp4Boxes.TrunLen | format/fmp4/fmp4io/fragment.go:255-286 | the same for runs |
| Fmp4Boxes.TrafLen | format/fmp4/fmp4io/fragment.go:479-494 | the same for track fragments |
| Fmp4Boxes.MoofLen | format/fmp4/fmp4io/fragment.go:38-50 | the same for whole fragments |
| Fmp4Writing.MarshalMfhd | format/fmp4/fmp4io/fragment.go:120-135 | the fragment header in the buffer, its size filled in last |
| Fmp4Writing.MarshalTfhd | format/fmp4/fmp4io/fragment.go:601-646 | the track header with its optional fields |
| Fmp4Writing.MarshalTfdt | format/fmp4/fmp4io/fragment.go:378-398 | the decode time in 64 or 32 bits |
| Fmp4Writing.MarshalEntry | format/fmp4/fmp4io/fragment.go:230-251 | an entry; composition times of another version than 0 go over the start of the box |
| Fmp4Writing.MarshalTrun | format/fmp4/fmp4io/fragment.go:203-253 | the run with all its entries |
| Fmp4Writing.MarshalTraf | format/fmp4/fmp4io/fragment.go:456-477 | a track fragment |
| Fmp4Writing.MarshalMoof | format/fmp4/fmp4io/fragment.go:18-36 | the whole box |
| Fmp4Reading.UnmarshalTrun | format/fmp4/fmp4io/fragment.go:288-352 | a run from its bytes |
| Fmp4Reading.UnmarshalTraf | format/fmp4/fmp4io/fragment.go:496-547 | a track fragment from its bytes |
| Fmp4Reading.UnmarshalMoof | format/fmp4/fmp4io/fragment.go:52-94 | a fragment from its bytes |
| Fmp4RoundTrip.MfhdReadsBack | format/fmp4/fmp4io/fragment.go:120-167 | the fragment header reads back |
| Fmp4RoundTrip.TfhdReadsBack | format/fmp4/fmp4io/fragment.go:601-753 | the track header reads back, fields without flag as zero |
| Fmp4RoundTrip.TfdtReadsBack | format/fmp4/fmp4io/fragment.go:378-436 | the decode time reads back, in version 0 its low 32 bits |
| Fmp4RoundTrip.TrunReadsBackIff | format/fmp4/fmp4io/fragment.go:203-352 | a run reads back as its flags say if and only if it is not a run of another version with composition times |
| Fmp4RoundTrip.TrafReadsBackIff | format/fmp4/fmp4io/fragment.go:456-547 | the same for track fragments |
| Fmp4RoundTrip.MoofReadsBackIff | format/fmp4/fmp4io/fragment.go:18-94 | a fragment reads back if and only if no run goes astray and the last track is not empty |
| Fmp4Tracks.SharedNext | format/fmp4/makefragment.go:58-80 | defaults that remain are shared by all samples so far |
| Fmp4Tracks.DefaultsTell | format/fmp4/makefragment.go:58-117 | whatever defaults remain, expanding them gives back every sample's duration, size, flags and composition time |
| Fmp4Tracks.TimelineIff | format/fmp4/makefragment.go:45-58 | every sample, and the packet after the fragment, comes at the tick nearest to its own time if and only if no step goes back or beyond 32 bits; so each fragment begins where the one before it ends |
| Fmp4Fragments.MarshalFragment | format/fmp4/makefragment.go:125-178 | offsets, boxes and data of any set of tracks |
| Fmp4Fragments.MoofSameSize | format/fmp4/makefragment.go:140-148 | offsets do not change the length of the box they are stored in |
| Fmp4Fragments.DataIsWhereTold | format/fmp4/makefragment.go:140-178 | for any set of tracks, box start plus data offset plus the sizes before leads to exactly a packet's bytes |
| Fmp4Fragments.FragmentReadsBackIff | format/fmp4/makefragment.go:125-178 | the boxes read back if and only if no run goes astray; the size of the data box is exact |
| Fmp4Fragments.FragmentTells | format/fmp4/makefragment.go:17-178 | reading a fragment's bytes tells of every packet its decode time, duration, size, flags and composition time |
| Fmp4Fragments.TrackFragmenter.WritePacket | format/fmp4/trackfrag.go:46-65 | the packet, length-prefixed for H.264, is kept |
| Fmp4Fragments.TrackFragmenter.Duration | format/fmp4/trackfrag.go:68-73 | the difference of first and last time is the sum of all gaps between pending packets |
| Fmp4Fragments.TrackFragmenter.NewSegment | format/fmp4/trackfrag.go:98-100 | the next fragment gets the segment header |
| Fmp4Fragments.TrackFragmenter.MakeFragment | format/fmp4/makefragment.go:17-123 | all pending packets but the last become a fragment that tells of each of them; on every run fragments and pending packets are exactly what was written |
| Fmp4Fragments.TrackFragmenter.NextFragment | format/fmp4/trackfrag.go:81-94 | the fragment's bytes, its number, its duration as the sum of its gaps, and the segment header exactly on the first of a segment |
| Fmp4Fragments.FragmentsChainIff | format/fmp4/makefragment.go:17-123 | on every run each fragment begins at the tick of the packet after the fragment before it; all its samples come at their own ticks if and only if no step goes back or beyond 32 bits, and then its decode time is the previous one plus the durations told |
| Timescale.ToScaleIsNearest | format/fmp4/timescale/timescale.go:9-17 | the result is the nearest tick, for scales up to 2 * 10^9 |
| Timescale.ToScaleMonotone | format/fmp4/timescale/timescale.go:9-17 | later times are not earlier ticks |
| Timescale.RelativeIsNearest | format/fmp4/timescale/timescale.go:20-27 | the result, before it is cut to 32 bits, is the nearest tick |
| Timescale.RelativeIsOddIff | format/fmp4/timescale/timescale.go:20-27 | negative times mirror positive ones if and only if the result is not the one word without an opposite |
| Timescale.RoundedTimesStay | format/fmp4/makefragment.go:45-54 | differences of rounded times stay within half a tick for ever |
| Timescale.CutTimesLag | format/mp4/stream.go:53-55 | durations cut one by one lag by at least nothing and by less than a tick per sample |
| Timescale.CutTimesExactIff | format/mp4/stream.go:53-55 | a decode time is exact if and only if every difference before it is a whole number of ticks |
| Timescale.CutTimesDrift | format/mp4/stream.go:53-55 | at 90000 ticks a second the lag of three frames a thirtieth of a second long is three ticks |
| Amf0.LenAMF0Val | format/flv/flvio/amf0.go:98-169 | the counted length is the number of bytes written |
| Amf0.FillAMF0Val | format/flv/flvio/amf0.go:171-280 | the value in the buffer, nothing after it touched |
| Amf0.ParseAMF0Val | format/flv/flvio/amf0.go:282-467 | the recursive parser ends on every input, with the value or the failure the format gives |
| Amf0.ParseEntries | format/flv/flvio/amf0.go:326-361 | the loop over keys and values |
| Amf0.ParseElements | format/flv/flvio/amf0.go:417-434 | the loop over elements |
| Amf0.ReadsBack | format/flv/flvio/amf0.go:171-467 | values of any depth whose lengths fit read back, with their length, in whatever order maps are walked and whatever follows; counted maps come back as objects |
| Amf0.StringReadsBackIff | format/flv/flvio/amf0.go:198-212 | a string reads back if and only if its length is not exactly 65536 |
| Amf0Limits.ParseCosts | format/flv/flvio/amf0.go:282-467 | whatever the bytes, a value never has a longer form than the bytes it was read from, and one of equal length has only lengths that fit |
| Amf0Limits.ReadsBackIff | format/flv/flvio/amf0.go:98-467 | a value without counted maps, of any depth and in any walking order, reads back if and only if every key, string and array in it fits its length field |
| Amf0Limits.CountedReadsBackIff | format/flv/flvio/amf0.go:214-228 | a counted map whose entries fit reads back if and only if it has no empty key |
| Amf0Limits.ReadBackByLuck | format/flv/flvio/amf0.go:214-228 | deeper inside, a counted map with an empty key can read back by accident |
| Amf0.LengthIsOfValue | format/flv/flvio/amf0.go:98-169 | the number of bytes depends on the value alone, so measuring and writing may walk maps in different orders |
| LiveBoxes.LiveRunLen | format/mp4f/mp4fio/atoms.go:171-208 | the counted length is the number of bytes written |
| LiveBoxes.FragLen | format/mp4f/mp4fio/atoms.go:37-49 | the same for the whole box |
| LiveBoxes.MarshalLiveRun | format/mp4f/mp4fio/atoms.go:119-170 | the run in the buffer |
| LiveBoxes.MarshalFrag | format/mp4f/mp4fio/atoms.go:19-36 | the whole box in the buffer |
| LiveStreams.Stream.Add | format/mp4f/muxer.go:430-460 | the open fragment holds exactly its packets, and the clock has run through all of them |
| LiveStreams.Stream.Close | format/mp4f/muxer.go:461-469 | what is handed over is box and data with both sizes and the data offset |
| LiveStreams.Stream.WritePacketV2 | format/mp4f/muxer.go:428-472 | a fragment is handed over once it holds more than the maximal number of frames; nothing is lost between fragments |
| LiveStreams.Stream.WritePacketV3 | format/mp4f/muxer.go:361-407 | the same at key frames |
| LiveStreams.Stream.WritePacket | format/mp4f/muxer.go:286-310 | packets are stored with the time since the packet before, on every run |
| LiveStreams.SameBoxes | format/mp4f/mp4fio/atoms.go:19-36 | the live path writes the same bytes for a fragment as the other path |
| LiveStreams.FileReadsBack | format/mp4f/muxer.go:461-469 | every fragment below 4 GiB reads back with its time and every sample's duration, size and composition time; both sizes are exact and the data offset leads to the first byte |
| LiveStreams.SizesCutData | format/mp4f/muxer.go:452-458 | the sizes cut the data into the packets in order |
| LiveStreams.TimesChainIff | format/mp4f/muxer.go:437-460 | every packet of a fragment, and its end, is told to be at its own tick if and only if each duration fits its field: none goes back and none is too long |
| LiveStreams.FilesChainIff | format/mp4f/muxer.go:428-472 | over the files a stream hands over, as a player reads them: each begins where the samples of the one before it end if and only if the durations leave their 32-bit fields as the clock leaves its 64 bits; for a clock in range and times that do not go back, if and only if each fits |
| LiveStreams.DecodeTimeIsPrevious | format/mp4f/muxer.go:300-304 | a packet gets the decode time of the packet before it, late by what cutting loses |
| LiveStreams.DecodeTimeIsOwnIff | format/mp4f/muxer.go:300-304 | it gets its own decode time if and only if less than a tick has passed since that packet |
| LiveStreams.SecondFrameEarly | format/mp4f/muxer.go:300-304 | of two frames 40 milliseconds apart both get the decode time 0 |
| Esio.Builder.Cursor | format/fmp4/esio/builder.go:61-66 | a place is reserved at the end |
| Esio.Builder.Begin | format/fmp4/esio/builder.go:70-78 | a tag and the place of its length |
| Esio.Builder.Done | format/fmp4/esio/builder.go:86-98 | the place is filled with the length of all that was written since |
| Esio.AppendConfig | format/fmp4/esio/decoderconf.go:61-83 | the decoder configuration with its nested descriptor |
| Esio.AppendSL | format/fmp4/esio/slconf.go:32-43 | the sync layer configuration |
| Esio.AppendHead | format/fmp4/esio/esio.go:93-116 | identifier, flags and optional fields |
| Esio.Marshal | format/fmp4/esio/esio.go:90-123 | the whole descriptor |
| Esio.ParseLength | format/fmp4/esio/esio.go:125-142 | a length in up to four groups |
| Esio.ParseHeader | format/fmp4/esio/esio.go:144-162 | a descriptor at the front of the bytes |
| Esio.ParseDecoderConfig | format/fmp4/esio/decoderconf.go:32-59 | the configuration and the last specific part |
| Esio.ParseChildren | format/fmp4/esio/esio.go:68-85 | the loop over nested descriptors |
| Esio.ParseStreamDescriptor | format/fmp4/esio/esio.go:40-88 | the parser as a whole |
| Esio.LengthReadsBack | format/fmp4/esio/builder.go:86-98 | a length below 2^28 is read as it was |
| Esio.DescriptorReadsBack | format/fmp4/esio/builder.go:86-98 | a back-patched length is exactly the length of the contents |
| Esio.ConfigReadsBack | format/fmp4/esio/decoderconf.go:32-83 | a configuration reads back, with a stream type of six bits and a specific part for audio only |
| Esio.SLReadsBack | format/fmp4/esio/slconf.go:20-43 | a sync layer configuration reads back, custom settings for the custom kind only |
| Esio.UrlReadsBack | format/fmp4/esio/esio.go:61-66 | a URL is read back if and only if it is shorter than 255 bytes |
| Esio.StreamReadsBackIff | format/fmp4/esio/esio.go:40-123 | a descriptor below 2^28 bytes parses as it was, whatever follows, if and only if it says nothing its form cannot hold |

## Left out

- I/O errors, blocking waits and locks: each call that takes the lock is one step, and a reader that would wait gets
  the outcome `Blocked`. Logging and byte counters are not part of this model.
- Overflow of 64-bit sums (decode times, write positions, ring positions) is not modelled; 32-bit fields and products
  are, and 64-bit products of times and scales are.
- An index out of range or an impossible allocation, which stops the Go program, is modelled as a failed call.
- MP4: the bytes of the movie box are a parameter of `WriteTrailer`; sample tables are plain values. Offsets and sizes
  are 32 bits, so the round trip is stated for files below 4 GiB. Tables with one constant sample size are covered by
  the agreement of stepping and seeking; reading packets is modelled for per-sample sizes, because the validity test
  (format/mp4/demuxer.go:222) looks at the then empty size list.
- RTMP: handshake, acknowledgements, and what is done with commands once they are read. The message buffer of a chunk
  stream is a sequence that is reassigned, not a shared slice. Header type 0 is modelled for chunk stream ids 2 to 63,
  the only ones the writer uses.
- Queue: runs in `QueueSpec.RunSound` keep the watched video stream fixed; what a change in mid-run does is
  `QueueDrift.RunCorrected`.
- Transport streams: the clock reference is written as the code computes it, wrap-around included, but never read
  back. The state of a demuxer after a failed call is not used again. Each stream has scratch buffers of its own where
  the muxer shares them. A program map of exactly 35 streams, on which the original runs out of its buffer, is a failed
  call.
- TsDemuxer.Stream.PayloadEnd: codec data is not built, so its parameter sets are never refused; parsing them is not
  part of this model.
- TsDemuxer.Stream.EndVideo: parameter sets are passed over, as their parsing is not part of this model.
- TsDemuxer.Stream.EndAudio: codec data is not built; for the headers that are accepted that never fails.
- TsStreams.Demuxer.ReadTSPacket: the wait for codec data before the first packet is handed out is left out.
- RtmpRoundTrip.MessageDeliveredIff: not stated for commands and data messages, which are never cut; see
  `RtmpRoundTrip.UncutDeliveredIff`.
- Mp4Merging.AllLeaveIff: stated for tracks whose times fit 64 bits of nanoseconds.
- Amf0Limits.ReadsBackIff: not stated for counted maps inside other values, which may read back by accident.
- Nalus.JoinedRecovered: stated for pictures below 0xf0000000 bytes, beyond which the first length of the delimiter
  could fit.
- Fragmented MP4: children of other kinds are passed by when reading and are not written; `Zeroed` buffers are
  required for runs, as the fragmenter allocates them. The fragmenter of several tracks is covered by
  `Fmp4Fragments.MarshalFragment`, which takes any set of tracks; its loop over track objects is left out. The segment
  header is a parameter. Packets are below 4 GiB. Scales are at most a tick per nanosecond (the code uses 48000 and 90000).
- Live fragments: the fourth variant and the init segment are left out; one stream per object, the shared fragment
  number is an object of its own.
- AMF0: numbers are the 64 bits of a double, whatever numeric type they came from; dates are read as their bits and
  never written, and Go values of unsupported types, which are written as nothing, are left out.
- Descriptors: the remainder `ParseStreamDescriptor` returns is always empty on success
  (format/fmp4/esio/esio.go:86) and is left out.
- Rarely used neighbours (H.265, Opus, stream configuration records, playlists, HTTP and WebRTC) would add pairs of
  field-by-field functions or unseen libraries.
