# Verified model of the streaming bridge

This project models the stateful core of a camera streaming bridge in Dafny and proves properties of it:

- **Streams and producers** (`Producer.dfy`, `Stream.dfy`, `StreamWorld.dfy`, `TrackGraph.dfy`): consumers come
  and go concurrently, a linger timer keeps producers warm, worker and retry chains reconnect them. The classes
  perform each lock region in place; the same regions are functions on the guarded fields, and a run is any
  interleaving of them with timer callbacks, workers, retries and other callers.
- **H.264 and H.265 on the wire** (`Avcc.dfy`, `AnnexB.dfy`, `Packing.dfy`, `H264Payload.dfy`, `H265Payload.dfy`,
  `H265Depay.dfy`): start codes, length prefixes, aggregation, fragmentation and reassembly under loss, against
  receivers written from RFC 6184 and RFC 7798.
- **Bit-level codecs** (`BitReader.dfy`, `BitWriter.dfy`, `BitSyntax.dfy`, `Sps.dfy`, `SpsSyntax.dfy`, `Aac.dfy`,
  `Adts.dfy`, `AacRtp.dfy`): the reader
  and writer objects refine a cursor over a bit string; syntax tables say what stands where in it; the two H.264
  parameter-set walkers, the audio configuration and the ADTS/RTP chain are proved on that simple form.
- **State on disk** (`Identity.dfy`, `TokenBinding.dfy`, `Migration.dfy`, `MigrationRun.dfy`): the token/auth
  transaction and the one-time migration, with a crash or an exception possible between any two file operations.
- **Buffers** (`RingLog.dfy`, `Deframer.dfy`, `ReadBuffer.dfy`): each is proved to agree with a plain sequence.
- **Shared** (`Wrappers.dfy`, `Bytes.dfy`, `Arithmetic.dfy`, `Sequences.dfy`): options, bytes, and the few facts
  about remainders and removal from a list that several of the others use.

Integers of the program that can wrap are written with an explicit modulus; bytes are integers below 256 and bit
fields are quotients and remainders. A slice or index error of the program is a precondition (or, in the H.265
depacketiser, an explicit outcome). `dafny verify dfyconfig.toml` checks everything.

## What the proofs found

Six expected properties do not hold of the code as it is; each has a lemma with the exact condition.

- **A pinned, then orphaned producer.** `p.senders` keeps the tracks of two-way consumers that have left; a
  redial can put senders under them again, so the linger expiry skips the producer, and a later redial that drops
  the track leaves it running with nothing left to stop it. The expiry stops the producer however the redial
  matches, if and only if `p.senders` lists no consumer's track before the redial
  (`StreamWorld.ExpiryStopsIffNoConsumerTrack`); from any redial that re-attaches something four steps lead to an
  orphan (`StreamWorld.ReattachedBecomesOrphan`), and `StreamWorld.OrphanWithoutCleanReconnect` is such a run of 17
  steps from the start. Runs in which no producer redials while `p.senders` lists a departed consumer's track have
  no orphan (`StreamWorld.NoOrphanProducer`).
- **Closing a root node** ranges over a slice that its children edit, and detaches every child if and only if
  there are at most two (`TrackGraph.CloseRootDetachesAllIffAtMostTwo`).
- **DecodeAnnexB** never looks at the type of the first unit and glues units of other types than 1, 5, 7, 8 to
  the one before, start code and all; it agrees with the list form if and only if all units after the first are
  of those types (`AnnexB.ConversionRefinesList`). `AnnexB.SeiIsGlued` is a parameter set followed by an SEI unit.
- **A small SEI unit with the marker** is skipped by the H.265 depacketiser without its sequence number, so that the
  packet behind it looks like the first after a loss and clears what was collected. Without loss all access units
  are delivered whole if and only if no small SEI carries a marker (`H265Depay.LossNeverTears`,
  `H265Depay.MarkedSeiBreaksSequence`); `H265Depay.MarkedSeiInstance` is a nine-byte access unit that is never
  delivered.
- **A migration rolled back after its marker is gone** (an asynchronous exception after the last unlink) can,
  if the rollback is itself cut, wedge the volume for good: the next undisturbed run leaves a config if and only if
  no run before it was raised in that gap, with credentials to copy, and cut behind the removal of the config
  (`Migration.NextRunCommitsIff`, `Migration.LateRaiseSticksIff`).
- **Peek on a partly drained ReadBuffer** replays bytes already read; it is transparent if and only if nothing
  of the buffer was read yet (`ReadBuffer.PeekTransparentIff`); `ReadBuffer.PeekReplays` is a session that shows it.

## Model

| member | source | states |
|---|---|---|
| ProducerLifecycle.OneLiveWorkerNoLeakedConnection | internal/streams/producer.go:144-270 | in every run of one producer: started exactly when one worker-or-retry chain carries the current workerID, otherwise no chain does, and every connection ever opened is the current one or was stopped exactly once |
| ProducerLifecycle.StaleChainTouchesNothing | internal/streams/producer.go:160-190 | a fenced-off chain changes neither the producer nor any connection, and dies at its next check |
| ProducerLifecycle.ReconnectHasConnection | internal/streams/producer.go:160-243 | a live chain implies a connection to stop, and a running worker is inside the current one |
| ProducerLifecycle.StepKeepsInv | internal/streams/producer.go:57-270 | every lock region, worker return and retry keeps the invariant behind the previous rows |
| ProducerLifecycle.TrackMeansWorker | internal/streams/producer.go:85-158 | in every reachable state a track that GetTrack hands out is of the codec asked for and among the receivers, to which at most it was added; and unless the producer is driven from outside, the next start leaves one live worker, whatever happened in between but a stop |
| ProducerLifecycle.SenderMeansWorker | internal/streams/producer.go:113-158 | the same for a sender track that AddTrack accepts |
| ProducerLifecycle.NoTrackNoWorker | internal/streams/producer.go:144-158 | without a track a start changes nothing, in every reachable state |
| ProducerLifecycle.TrackRefusedIff | internal/streams/producer.go:85-104 | a track is refused exactly in stateNone, or for a new codec the connection has no track for; then nothing changes |
| ProducerLifecycle.RedialReplaces | internal/streams/producer.go:176-243 | in every reachable state a live chain that redials brings in the new connection with the receivers the matching left, stops the old one once more, and keeps senders, state and workerID; a failed redial changes nothing |
| ProducerLifecycle.FirstWithCodec | internal/streams/producer.go:93-98 | GetTrack reuses the first receiver of the same codec, and None exactly if there is none |
| ProducerLifecycle.Producer.DialLocked | internal/streams/producer.go:57-72 | dials only from stateNone; an error leaves the fields alone |
| ProducerLifecycle.Producer.GetTrackLocked | internal/streams/producer.go:85-111 | refuses in stateNone, reuses a receiver of the codec, else adds the new one and moves on from stateMedias |
| ProducerLifecycle.Producer.AddTrackLocked | internal/streams/producer.go:113-132 | refuses in stateNone or on error, else records the sender track |
| ProducerLifecycle.Producer.StartLocked | internal/streams/producer.go:144-158 | only from stateTracks; spawns one worker with a fresh workerID |
| ProducerLifecycle.Producer.StopLocked | internal/streams/producer.go:245-270 | nothing for external or idle producers; otherwise stops the connection, clears both lists and fences the worker of a started one |
| ProducerLifecycle.Producer.ReconnectLocked | internal/streams/producer.go:176-243 | a stale workerID changes nothing; otherwise the old connection is stopped and replaced |
| StreamLifecycle.Stream.BeginConsumerAdd | internal/streams/stream.go:94-100 | one more pending add, any armed timer cancelled, both in one region |
| StreamLifecycle.Stream.CancelLingerStopLocked | internal/streams/stream.go:86-92 | bumps the generation exactly when a timer was armed |
| StreamLifecycle.Stream.SetLingerLocked | internal/streams/stream.go:69-78 | switching linger off cancels an armed timer |
| StreamLifecycle.Stream.ScheduleLocked | internal/streams/stream.go:102-117 | stop now exactly if consumers are left or linger is off; otherwise a callback with a fresh generation |
| StreamLifecycle.Stream.LingerExpired | internal/streams/stream.go:117-128 | a stale callback changes nothing; the current one clears the timer and runs the stop loop |
| StreamLifecycle.Stream.StopProducersLocked | internal/streams/stream.go:172-192 | nothing while an add is pending; otherwise each producer without an attached reader is stopped in turn, later ones seeing the links the earlier stops removed |
| StreamLifecycle.StopLoopStopsUnread | internal/streams/stream.go:172-192 | of the stop loop, without following it: a producer is stopped exactly if every link on the tracks it lists is cut by an earlier stop, stopped ones are emptied and fenced, the others untouched, and exactly the links of stopped connections are gone |
| StreamLifecycle.ReadIsKept | internal/streams/stream.go:176-184 | a producer with a link that no other connection cuts is left alone and the link stays |
| StreamLifecycle.UnreadIsStopped | internal/streams/stream.go:176-190 | a producer without a link on any of its tracks is stopped |
| StreamLifecycle.Stream.RemoveLocked | internal/streams/stream.go:136-143 | removes the first occurrence of the consumer and nothing else |
| StreamWorld.StopFromIsStopSnaps | internal/streams/stream.go:172-192 | the stop step of the concurrent system is the loop the class performs |
| StreamWorld.NoStopWhileAdding | internal/streams/add_consumer.go:11-102 | no step takes a dialled producer back to stateNone between an admission and its decrement |
| StreamWorld.DialledStaysWhileAdding | internal/streams/add_consumer.go:11-102 | the same over any interleaving of steps |
| StreamWorld.AdmissionBeatsExpiry | internal/streams/add_consumer.go:11-102 | over whole runs from the start: after admission a dialled producer stays dialled until the decrement, so asking it for a track never meets stateNone |
| StreamWorld.TimerMatchesOneCallback | internal/streams/stream.go:86-131 | in every reachable state the timer is set exactly when an outstanding callback carries the current generation, and no callback is ahead of it |
| StreamWorld.CancelledCallbacksStayStale | internal/streams/stream.go:86-131 | a callback that has become stale stays stale whatever happens |
| StreamWorld.AdmissionMakesCallbacksStale | internal/streams/stream.go:94-100 | an admission makes every outstanding callback stale |
| StreamWorld.StaleCallbackStopsNothing | internal/streams/stream.go:117-128 | a stale callback that still runs stops nothing and cancels nothing |
| StreamWorld.ReadProducerKeepsRunning | internal/streams/stream.go:172-192 | nobody is cut off: in every reachable state, whichever stop step comes next, a producer with a sender attached to one of its tracks goes on exactly as it is and the sender stays attached |
| StreamWorld.UnreadProducerStops | internal/streams/stream.go:172-192 | nobody runs for nothing: unless an add is pending, a stop step stops every producer without an attached sender; with one pending it changes nothing |
| StreamWorld.LastReaderArmsLinger | internal/streams/stream.go:102-143 | behind the removal the stop loop follows at once if consumers are left or linger is off, otherwise one more callback is armed and all others are stale |
| StreamWorld.AttachedHolds | internal/streams/add_consumer.go:60-88 | a consumer attached to a listed track of a producer keeps that producer through any stop loop and puts it in line to be started |
| StreamWorld.StartNextStarts | internal/streams/add_consumer.go:114-117 | the start loop leaves the next tracked producer in line with one live worker |
| StreamWorld.StepKeepsApart | internal/streams/producer.go:57-243 | no step makes two producers share a connection |
| StreamWorld.StepKeepsOps | internal/streams/add_consumer.go:10-120 | pending equals the number of adds before their decrement, and calls for one consumer do not overlap, after every step |
| StreamWorld.StepKeepsLinks | internal/streams/stream.go:133-192 | after every step that is not a redial while `p.senders` lists a departed consumer's track each link belongs to a consumer on its way in or still listed |
| StreamWorld.RelinksStayPresentIff | internal/streams/producer.go:206-243 | a redial, however its medias match, re-attaches present consumers only, if and only if every consumer with a track in `p.senders` is present before it |
| StreamWorld.StepKeepsCover | internal/streams/stream.go:102-192 | after the same steps, unless one switches linger off under an armed callback, a quiet stream without a timer has only idle producers |
| StreamWorld.NoOrphanProducer | internal/streams/stream.go:102-192 | after any run without such a redial or switch, with no call in progress and nobody listed, every producer of the stream itself is in stateNone or exactly one outstanding callback carries the current generation |
| StreamWorld.ExpiryStopsIffNoConsumerTrack | internal/streams/producer.go:206-243 | with all consumers gone and the linger running, a redial followed by the expiry stops the producer however the redial matches, if and only if `p.senders` lists no consumer's track before the redial |
| StreamWorld.ExpiryStopsIffNothingReattached | internal/streams/producer.go:206-243 | with all consumers gone and the linger running, a redial with a given matching followed by the expiry stops the producer if and only if that matching re-attached nothing; otherwise it leaves the producer as it is |
| StreamWorld.ReattachedBecomesOrphan | internal/streams/producer.go:144-243 | from any redial that re-attached something: the expiry, a dropped connection and a redial that matches nothing are a valid run to a started producer with no reader, no call and no timer |
| StreamWorld.OrphanWithoutCleanReconnect | internal/streams/producer.go:206-243 | an instance from the start of the system: a concrete run of 17 steps to such a producer, with no callback outstanding |
| TrackGraph.Node.AppendChild | pkg/core/node.go:42-48 | the child is last and points back |
| TrackGraph.Node.RemoveChild | pkg/core/node.go:50-59 | exactly the first occurrence goes |
| TrackGraph.Node.Close | pkg/core/node.go:61-73 | at any depth: a node with a parent leaves it, and so does every ancestor thereby left without children; a root closes what its shifting slice shows it |
| TrackGraph.ClimbedIs | pkg/core/node.go:61-73 | an ancestor loses its child exactly if every node below it, from the parent on, was left without children |
| TrackGraph.MoveNode | pkg/core/node.go:75-88 | all children change to the new parent, in order, with their back links |
| TrackGraph.CloseRootDetachesAllIffAtMostTwo | pkg/core/node.go:61-73 | of n children (n - 1) / 2 stay attached; all are detached exactly if n <= 2 |
| TrackGraph.MatchIff | pkg/core/codec.go:126-135 | wildcard names match everything, a zero rate or channel count of the remote leaves that open, the rest is equality |
| TrackGraph.MatchCodec | internal/streams/producer.go:210-225 | a codec of the media that matches the receiver, None exactly if there is none |
| TrackGraph.Connection.GetTrack | internal/streams/producer.go:218-223 | one track per codec object |
| TrackGraph.Connection.Stop | pkg/core/track.go:58-60 | every receiver is closed as a root, whatever it has attached |
| TrackGraph.FirstServed | internal/streams/producer.go:210-225 | the first receiver the media can serve |
| TrackGraph.Reconnect | internal/streams/producer.go:206-240 | with a one-to-one match the old receivers get distinct receivers of the new connection and none of those is left over; every sender hangs from exactly one of them, links consistent, and stopping the old connection afterwards detaches none |
| TrackGraph.MatchMedias | internal/streams/producer.go:206-226 | the recvonly loop: media after media the matched receiver's children move to the receiver the new connection hands out |
| Avcc.JoinNALU | pkg/h264/avcc.go:31-51 | the AVCC form of the non-empty units |
| Avcc.SplitNALU | pkg/h264/avcc.go:53-69 | consecutive pieces by length prefix that together are the input |
| Avcc.Pieces | pkg/h264/avcc.go:53-69 | the pieces concatenate to the input |
| Avcc.PiecesOfJoin | pkg/h264/avcc.go:31-69 | SplitNALU after JoinNALU gives back every unit behind its length |
| Avcc.EmitAvcNalus | pkg/h264/payloader.go:68-81 | the units of a length-prefixed buffer, a truncated tail dropped |
| Avcc.SplitJoin | pkg/h264/payloader.go:68-81 | splitting undoes joining for units below 2^32 bytes |
| Avcc.SplitJoinTail | pkg/h264/payloader.go:68-81 | behind whole units a truncated one is dropped |
| Avcc.JoinInjective | pkg/h264/avcc.go:31-51 | the AVCC form determines its units |
| AnnexB.IndexFrom | pkg/h264/avc.go:111-121 | the first start code from a position on, or -1 |
| AnnexB.Find | pkg/h264/avc.go:111-121 | the found position is a start code and none comes before it |
| AnnexB.DecodeAnnexB | pkg/h264/avc.go:63-109 | in place or in a grown copy: the result of the scan, with its 32-bit length arithmetic |
| AnnexB.ConvertedStream | pkg/h264/avc.go:63-109 | for any stream of clean units with 3- or 4-byte codes: the AVCC form of the merged units |
| AnnexB.ConvertsIffAllSplit | pkg/h264/avc.go:83-104 | the units stay apart exactly if all but the first have the forbidden bit clear and type 1, 5, 7 or 8, as numbers of the first byte |
| AnnexB.NextInd | pkg/h264/payloader.go:36-51 | the next start code with all zeros in front of it |
| AnnexB.EmitNalus | pkg/h264/payloader.go:34-82 | the pieces between start codes, or the units of the AVCC form |
| AnnexB.EmittedStream | pkg/h264/payloader.go:53-67 | exactly the units of the stream |
| AnnexB.EmittedHaveNoCode | pkg/h264/payloader.go:34-67 | for any buffer, no emitted unit contains a start code |
| AnnexB.SeiIsGlued | pkg/h264/avc.go:83-104 | an SEI unit behind a parameter set: DecodeAnnexB returns one unit with the start code inside, EmitNalus two |
| AnnexB.ConversionRefinesList | pkg/h264/avc.go:63-109 | DecodeAnnexB equals the AVCC form of the list EmitNalus emits, exactly if all units but the first are of a recognised type; the list is the original units |
| Packing.SplitAggregated | pkg/h264/payloader.go:102-108 | the size-prefixed units of an aggregation come apart again |
| Packing.Cut | pkg/h264/payloader.go:148-184 | non-empty pieces of at most the given size that concatenate to the payload |
| H264Payload.Payloader.Payload | pkg/h264/payloader.go:85-188 | packets and the new stapANalu are those of a run over the emitted units |
| H264Payload.Payloader.OfferNalu | pkg/h264/payloader.go:91-184 | one unit: skipped, held as a parameter set, or sent after the held group was flushed or lost |
| H264Payload.Fragments | pkg/h264/payloader.go:128-184 | single packet sizes aside, the FU-A packets of a unit |
| H264Payload.RunAppend | pkg/h264/payloader.go:85-188 | consecutive calls compose through stapANalu |
| H264Payload.ReceiveFragments | pkg/h264/payloader.go:152-184 | the receiver of section 5.8 of RFC 6184 restores a fragmented unit, whatever the cut |
| H264Payload.UnitReceived | pkg/h264/payloader.go:120-184 | one unit sent is one unit received, all packets within the mtu, none with both S and E |
| H264Payload.GroupReceived | pkg/h264/payloader.go:102-118 | a held group is received whole if it fits the mtu and lost whole if not |
| H264Payload.RunReceived | pkg/h264/payloader.go:85-188 | over any run the receiver has exactly the units the model accepts, and stapANalu holds exactly the pending group |
| H264Payload.RunDeliversIffGroupsFit | pkg/h264/payloader.go:85-188 | received units followed by those held are all units given but delimiters and fillers, exactly if every group fitted the mtu of the call that sent it |
| H264Payload.RunFits | pkg/h264/payloader.go:85-188 | no packet of a run exceeds the largest mtu asked for |
| H265Payload.ReceiveFragments | pkg/h265/payloader.go:248-294 | the receiver of section 4.4.3 of RFC 7798 restores a fragmented unit, whatever the cut |
| H265Payload.UnitReceived | pkg/h265/payloader.go:231-295 | one unit sent unaggregated is one unit received; packets fit, none is an aggregation |
| H265Payload.FragmentsFit | pkg/h265/payloader.go:248-294 | fragments fit the mtu and none has both S and E |
| H265Payload.BuildAggregation | pkg/h265/payloader.go:165-201 | the lowest layer and temporal identifiers of the buffered units, then every unit behind its size |
| H265Payload.AggregationReceived | pkg/h265/payloader.go:165-201 | an aggregation packet of buffered units is received as exactly those units and exceeds the mtu by at most its own header |
| H265Payload.AggregationHeader | pkg/h265/payloader.go:165-188 | type 48, forbidden bit clear, and layer and temporal identifier the least of the units |
| H265Payload.FittingUnitsShareAPacket | pkg/h265/payloader.go:208-228 | units that fit the mtu together are sent in one packet |
| H265Payload.FlushReceived | pkg/h265/payloader.go:138-206 | whatever is flushed, the receiver gains exactly the buffered units |
| H265Payload.Offer | pkg/h265/payloader.go:208-295 | one unit: buffered, perhaps after a flush, sent at once, fragmented, or dropped if no fragment can carry it |
| H265Payload.OfferReceived | pkg/h265/payloader.go:208-295 | after one unit, what the receiver has and what is buffered are together what they were and the unit |
| H265Payload.AppendFragments | pkg/h265/payloader.go:248-294 | the fragments of one unit, in order |
| H265Payload.Payload | pkg/h265/payloader.go:129-301 | the packets of the run over the non-empty units, and a last flush |
| H265Payload.PayloadReceivedIff | pkg/h265/payloader.go:129-301 | for units of at least 2 bytes and type below 48 the receiver of RFC 7798 recovers the non-empty units in order, all of them exactly if the mtu is at least 4 or no unit exceeds it; single and FU packets are at most mtu, aggregations at most mtu + 2, no FU has both S and E |
| H265Payload.PayloadUnaggregated | pkg/h265/payloader.go:208-295 | with aggregation off the packets are those of one unit after another |
| H265Depay.RTPDepay.Handle | pkg/h265/rtp.go:19-114 | one packet: the new buffer, nuStart and sequence number, and what is delivered |
| H265Depay.LostPacket | pkg/h265/rtp.go:38-44 | the first packet after a loss empties the buffer |
| H265Depay.MarkedParameterSet | pkg/h265/rtp.go:28-36 | a VPS, SPS or PPS below 128 bytes with the marker is collected exactly as without it |
| H265Depay.MarkedSei | pkg/h265/rtp.go:28-36 | an SEI unit below 128 bytes with the marker changes nothing and delivers nothing |
| H265Depay.MarkedSeiBreaksSequence | pkg/h265/rtp.go:28-44 | but behind collected data the packet after it clears the buffer |
| H265Depay.MarkedSeiLosesUnit | pkg/h265/rtp.go:19-114 | a marked parameter set, a marked SEI and a marked slice: nothing is lost and nothing is delivered |
| H265Depay.MarkedSeiInstance | pkg/h265/rtp.go:19-114 | the same for nine given bytes |
| H265Depay.WholeUnitInOneFragment | pkg/h265/rtp.go:86-94 | a fragment with both the start and the end bit is taken for the unit it holds |
| H265Depay.RunAu | pkg/h265/rtp.go:19-114 | one access unit with any losses delivers at most one suffix of its units |
| H265Depay.RunStream | pkg/h265/rtp.go:19-114 | the same for a stream of access units, in order |
| H265Depay.LossNeverTears | pkg/h265/rtp.go:19-114 | under any loss no jump of which looks like the next packet, and with any markers on small parameter sets and SEI units, every delivered payload is the AVCC form of a non-empty suffix of one sent unit list, all complete, behind the stored parameter sets exactly if its first unit is a fragmented type 19-21; all units are delivered whole exactly if no packet is lost and no small SEI is marked |
| H265Depay.NoLossDeliversAll | pkg/h265/rtp.go:19-114 | without loss and without a marked small SEI every access unit is delivered whole, in order, whatever parameter sets are marked |
| H265Depay.PayloaderSendsAu | pkg/h265/payloader.go:231-295 | the payloader with aggregation off is such a sender |
| BitReader.Reader.ReadByte | pkg/bits/reader.go:17-30 | the next eight bits, aligned or not |
| BitReader.Reader.ReadBit | pkg/bits/reader.go:53-62 | the next bit; EOF exactly when the cursor has passed the end |
| BitReader.Reader.ReadBits | pkg/bits/reader.go:64-69 | the next n bits as a number modulo 2^32, the byte counter wrapping from 0 to 255 |
| BitReader.Reader.ReadUint16 | pkg/bits/reader.go:32-37 | the next 16 bits |
| BitReader.Reader.ReadUint24 | pkg/bits/reader.go:39-44 | the next 24 bits |
| BitReader.Reader.ReadUint32 | pkg/bits/reader.go:46-51 | the next 32 bits |
| BitReader.Reader.ReadUEGolomb | pkg/bits/reader.go:118-126 | the unsigned Exp-Golomb code at the cursor (section 9.1 of ITU-T H.264) |
| BitReader.Reader.ReadSEGolomb | pkg/bits/reader.go:129-135 | the signed Exp-Golomb code at the cursor |
| BitReader.Reader.Pos | pkg/bits/reader.go:141-143 | byte and bit of the bit read last; -1 and 0 before the first read, the last byte past the end |
| BitReader.UConcat | pkg/bits/reader.go:64-69 | reading m + n bits is reading m and then n |
| BitReader.UPastEnd | pkg/bits/reader.go:53-62 | bits past the end are zero |
| BitReader.FieldsAreBits | pkg/bits/reader.go:32-51 | 16- and 32-bit fields are the first bits of the string, most significant byte first |
| BitSyntax.UeReadBack | pkg/bits/reader.go:118-126 | k zeros, a one and k bits, for any v below 2^32 - 1, are read back as v |
| BitSyntax.SignedOfCode | pkg/bits/reader.go:128-135 | the codes 0, 1, 2, 3, 4 stand for 0, 1, -1, 2, -2, and so on |
| BitSyntax.ReadElement | pkg/bits/reader.go:64-135 | where a u(n), ue(v) or se(v) element stands, the reader finds its value and ends behind it |
| BitWriter.Writer.WriteBit | pkg/bits/writer.go:22-32 | one bit appended, all earlier bits unchanged |
| BitWriter.Writer.WriteBits | pkg/bits/writer.go:34-38 | n bits of the value appended, most significant first |
| BitWriter.Writer.WriteAllBits | pkg/bits/writer.go:52-56 | n copies of the bit appended |
| BitWriter.Writer.WriteBool | pkg/bits/writer.go:58-64 | 1 or 0 appended |
| Sps.DecodeSPS | pkg/h264/sps.go:90-222 | nil for another unit type or past the end, else every field of sections 7.3.2.1.1 and E.1.1 of ITU-T H.264 in order |
| SpsSyntax.DecodesSyntax | pkg/h264/sps.go:90-222 | whatever parameter set is written in the tables of sections 7.3.2.1.1 and E.1.1 of ITU-T H.264, scaling lists included, is returned with every value in its own field |
| Sps.ReadScalingList | pkg/h264/sps.go:225-237 | the cursor behind one scaling list, with its wrapping deltas |
| SpsSyntax.ListRead | pkg/h264/sps.go:225-237 | a list with deltas of -128 to 127 ends behind its last delta: when the scale becomes zero or the list is full |
| Sps.FixPixFmt | pkg/h264/sps.go:279-366 | the buffer with video_full_range_flag cleared in place, if the walker reaches it |
| Sps.FindFlag | pkg/h264/sps.go:279-360 | stops exactly at the flag, or gives up |
| Sps.WalkersInLockstep | pkg/h264/sps.go:90-366 | without a scaling list FixPixFmt finds the flag exactly where DecodeSPS reads it; with one it gives up |
| Sps.FixClearsAtMostOneBit | pkg/h264/sps.go:358-364 | nothing changes, or exactly one set bit is cleared |
| Sps.FixSkipsScalingLists | pkg/h264/sps.go:302-308 | with a scaling list the data stays as it is |
| Sps.DecodeAfterFix | pkg/h264/sps.go:279-366 | without a scaling list decoding the fixed data gives the original set with the flag 0, and nil exactly where it was nil |
| Aac.DecodeConfig | pkg/aac/aac.go:61-78 | type, frequency index, rate and channels as laid out in section 1.6.2.1 of ISO/IEC 14496-3 |
| Aac.EncodeConfig | pkg/aac/aac.go:80-117 | that layout, with the escape forms and, for the two low-delay types, the frame flag and zeros behind the channels; padded to whole bytes |
| Aac.IndexUint32 | pkg/aac/aac.go:119-126 | the first index of the value, or -1 |
| Aac.DecodeOfEncode | pkg/aac/aac.go:61-117 | decoding any encoded configuration gives each field modulo the width it was written with |
| Aac.ConfigRoundTripsIff | pkg/aac/aac.go:61-117 | the round trip is exact if and only if the type is 0..30 or 32..95, the rate below 2^24 and the channels below 16 |
| Adts.CodecToADTS | pkg/aac/adts.go:101-129 | a 7-byte header with the fields of the configuration, no CRC and length zero; nothing for an unreadable config |
| Adts.WriteADTSSize | pkg/aac/adts.go:82-89 | the three length bytes, the outer two by or |
| Adts.SizeRoundTrip | pkg/aac/adts.go:76-89 | a length below 8192 written into a fresh header is read back, and header and payload stay as they are |
| Adts.SizeIsField | pkg/aac/adts.go:76-80 | the length is the 13 bits from bit 30 on |
| Adts.SizeInField | pkg/aac/adts.go:82-89 | a length below 8192 written into a fresh header stands in those bits, every other field as it was |
| Adts.IsADTSIff | pkg/aac/adts.go:20-25 | at least seven bytes, twelve ones, and layer zero |
| Adts.EncodeToADTS | pkg/aac/adts.go:131-148 | ADTS passes through; anything else gets the header and its length |
| Adts.WrapFrames | pkg/aac/adts.go:131-148 | a wrapped frame states its own length and carries the payload |
| AacRtp.ADTStoRTP | pkg/aac/rtp.go:100-110 | a size in bits for every frame, then the frames |
| AacRtp.AuHeaderFields | pkg/aac/rtp.go:100-106 | the size stands in the 13 bits of AU-size and AU-Index is zero (section 3.3.6 of RFC 3640) |
| AacRtp.PackedFields | pkg/aac/rtp.go:100-115 | AU-headers-length counts the bits of the headers behind it, and the frames follow |
| AacRtp.FramesWalk | pkg/aac/rtp.go:100-106 | the walk over concatenated frames finds each frame once |
| AacRtp.RTPDepay.Handle | pkg/aac/rtp.go:12-64 | one delivery per header up to the first truncated unit, ADTS headers stripped, the clock moved 1024 per unit |
| AacRtp.UnitsDelivered | pkg/aac/rtp.go:36-62 | the units in front of one cut short, ADTS or raw, are delivered in order, 1024 ticks apart modulo 2^32, without an ADTS header |
| AacRtp.BareFrameDelivered | pkg/aac/rtp.go:23-33 | an ADTS frame that arrives bare is delivered without its header at the clock as it stands |
| AacRtp.DepayDeliversFrames | pkg/aac/rtp.go:12-64 | packed frames are delivered in order, 1024 ticks apart modulo 2^32 |
| AacRtp.AacChain | pkg/aac/rtp.go:12-110 | wrapping, concatenating, packing and depacketising returns the raw frames in order |
| AacRtp.RTPToADTS | pkg/aac/rtp.go:118-149 | every unit, wrapped if it is not ADTS yet; no configuration is needed where all are |
| AacRtp.RtpToAdtsInverts | pkg/aac/rtp.go:100-149 | RTPToADTS after ADTStoRTP is the identity on concatenated frames |
| AacRtp.RewrapUnits | pkg/aac/rtp.go:118-149 | units of any kind come out in order, each in a header of its own unless it is ADTS already |
| Identity.SerialIsStable | deploy/linux/runtime_settings.py:312-314 | a stored serial normalises to itself |
| Identity.RegionIsStable | deploy/linux/runtime_settings.py:106-111 | a stored region normalises to itself |
| Identity.SameSerialIff | deploy/linux/runtime_settings.py:312-312 | two serials are the same exactly if they agree up to letter case and surrounding white space |
| Identity.SerialAcceptedIff | deploy/linux/runtime_settings.py:312-314 | accepted exactly with 7 to 64 letters, digits, dashes and underscores between the white space |
| Identity.RegionIff | deploy/linux/runtime_settings.py:106-111 | normalised exactly to its lower case, and only for the two official kinds of host |
| Identity.StripIs | deploy/linux/runtime_settings.py:312-312 | what is left begins and ends without white space, and only white space went |
| TokenBinding.Directory.PersistBoundToken | deploy/linux/runtime_settings.py:309-338 | refused requests change nothing; accepted ones leave the disk after as many replacements as survive |
| TokenBinding.Directory.TokenMatchesIdentity | deploy/linux/runtime_settings.py:221-247 | true exactly for a ready token and an auth file bound to the normalised pair, neither open to group or others |
| TokenBinding.MatchesIff | deploy/linux/runtime_settings.py:210-247 | a token counts as bound exactly if both files are closed to others, a session is there, no state is pending, and serial and region are the pair asked for up to case and white space |
| TokenBinding.StepKeepsInv | deploy/linux/runtime_settings.py:288-338 | no interleaving or death leaves a clear auth file over a token persisted for another pair |
| TokenBinding.MatchMeansPersisted | deploy/linux/runtime_settings.py:221-338 | over all interleavings with deaths at any step: if the auth file matches a camera and region, the token on disk was persisted for it |
| TokenBinding.UninterruptedBinds | deploy/linux/runtime_settings.py:323-338 | an uninterrupted transaction leaves its token ready and exactly its own pair matching |
| TokenBinding.InterruptedMatchesNothing | deploy/linux/runtime_settings.py:323-338 | cut between its first and last replacement it leaves nothing matching |
| TokenBinding.TraceReaches | deploy/linux/runtime_settings.py:323-338 | the cut-off method and the trace of the interleaving model leave the same disk |
| Migration.BindingCarriedIff | deploy/linux/config_tool.py:336-373 | the auth binding is carried over exactly from an auth file with serial and region and without a pending state, normalised, and then agrees with the environment's serial and region |
| Migration.SourceCopiedIff | deploy/linux/config_tool.py:305-373 | exactly which sources are read, and that config and token go to their own names |
| Migration.MarkerDistinguishes | deploy/linux/config_tool.py:374-379 | equal markers mean the same config, token, valid serial and region |
| Migration.EnvironmentNeverAuthenticates | deploy/linux/config_tool.py:283-289 | what is copied depends on the source alone; serial and region of the environment can only refuse it |
| Migration.PlanRuns | deploy/linux/config_tool.py:374-448 | an undisturbed run performs only safe operations and ends with exactly the snapshot committed and no leftovers |
| Migration.CutKeepsGood | deploy/linux/config_tool.py:104-125 | wherever a run is cut and however far its clean-up gets, a config on disk stands over the token and auth state of its own snapshot |
| Migration.ConfigMeansSnapshot | deploy/linux/config_tool.py:290-448 | over any sequence of runs with any crashes, exceptions and source changes: whenever the config exists, token and auth state are those derived from the same snapshot |
| Migration.ConfigMeansSources | deploy/linux/config_tool.py:290-448 | over the same runs: a config on disk is the config file of some run's source, and token and auth state are those of that very source |
| Migration.UnrelatedStateUntouched | deploy/linux/config_tool.py:394-409 | a volume with entries of others is left as it is |
| Migration.CommittedStays | deploy/linux/config_tool.py:294-303 | a committed target is never rewritten; at most the marker goes |
| Migration.RunsWedgeIff | deploy/linux/config_tool.py:273-448 | over any runs the volume stays resumable if and only if no run was raised after the marker's removal, with credentials, and its rollback cut behind the config; otherwise it is stuck |
| Migration.NextRunCommitsIff | deploy/linux/config_tool.py:394-448 | after any runs the next undisturbed run with a usable source leaves a config if and only if no run wedged the volume so; with no config before it commits exactly its own source, and with one it keeps config, token and auth state |
| Migration.StuckForEver | deploy/linux/config_tool.py:406-409 | a volume with token or auth state but neither config nor marker is never touched again |
| Migration.LateRaiseSticksIff | deploy/linux/config_tool.py:441-447 | an exception after the marker is gone wedges the volume exactly if the rollback is cut between removing the config and removing the auth state, and there was a token |
| MigrationRun.Volume.SecureWrite | deploy/linux/config_tool.py:104-125 | a temporary, then the replacement; cut in between it leaves the temporary |
| MigrationRun.Volume.MarkVolume | deploy/linux/config_tool.py:394-413 | leftovers swept, the marker made this run's, stale credentials removed first |
| MigrationRun.Volume.CopySnapshot | deploy/linux/config_tool.py:415-441 | credentials, then the config, then the marker goes |
| MigrationRun.Volume.Migrate | deploy/linux/config_tool.py:273-448 | leaves the disk exactly as the plan cut at the fault does |
| RingLog.CircularBuffer.Write | internal/app/log.go:133-163 | the bytes go to the current chunk if they fit, else to the next one, dropping the oldest if all are in use |
| RingLog.CircularBuffer.WriteTo | internal/app/log.go:165-183 | the chunks from read to write position, in order |
| RingLog.CircularBuffer.Reset | internal/app/log.go:185-191 | empty, with stale chunks left behind the write position |
| RingLog.LiveWritten | internal/app/log.go:133-163 | on the live chunks in order a write appends to the last or opens one, dropping the first of 16 |
| RingLog.OutputIsRecentHistory | internal/app/log.go:115-191 | the output is a suffix of everything written since the last Reset, cut between writes; over 8 chunk sizes long if anything was dropped; at most 16 if every write fits a chunk |
| RingLog.ShortHistoryIsWhole | internal/app/log.go:115-191 | nothing is dropped while the history fits half the capacity |
| Deframer.SessionAccepts | scripts/ezviz_direct_media.py:92-112 | accepted exactly: the expected identifier, or the same fields with another number after the last dash |
| Deframer.EzvizDirectMediaDeframer.Feed | scripts/ezviz_direct_media.py:47-82 | the fragments of all complete frames, or the first error; counters and retained bytes as parsed |
| Deframer.EzvizDirectMediaDeframer.Finish | scripts/ezviz_direct_media.py:84-90 | succeeds exactly if nothing is retained |
| Deframer.FeedingIsIndependentOfCuts | scripts/ezviz_direct_media.py:47-82 | any cut of any byte stream gives the same error as one feed; without an error the same fragments, counters and retained bytes; with one, the first of the fragments |
| Deframer.FramesAreParsed | scripts/ezviz_direct_media.py:53-82 | a stream of accepted frames and an incomplete tail parses to all frames, and exactly the tail is kept |
| Deframer.WellFormedStream | scripts/ezviz_direct_media.py:47-90 | the same for any cut, and finish succeeds exactly at a frame boundary |
| Deframer.ParsedAreFrames | scripts/ezviz_direct_media.py:53-82 | whatever parses without an error was accepted frames and the kept tail |
| Deframer.FirstRefusalEnds | scripts/ezviz_direct_media.py:53-82 | all frames in front of the first refused one are parsed, and the error, the counters and the kept bytes are those of that frame |
| Deframer.LostMagic | scripts/ezviz_direct_media.py:53-57 | a byte that is not the magic number ends the parse with everything from it on still buffered |
| ReadBuffer.Reader.ReadBytes | pkg/core/readbuffer.go:39-68 | the four modes of Read, short reads and overflow included |
| ReadBuffer.Reader.SeekTo | pkg/core/readbuffer.go:77-99 | clamped to the buffer and returned; a negative position empties it |
| ReadBuffer.Reader.PeekBytes | pkg/core/readbuffer.go:101-109 | reads fully through Read, then rewinds; an error leaves the state mid-probe |
| ReadBuffer.Reader.ResetBuffer | pkg/core/readbuffer.go:111-114 | drain mode from the start of the buffer |
| ReadBuffer.ProbeReads | pkg/core/readbuffer.go:61-67 | a probing read gives the next bytes and keeps them unless it overflows, and does not overflow within the size |
| ReadBuffer.SeekKeepsReplayIff | pkg/core/readbuffer.go:77-99 | a Seek loses nothing exactly if its target is not negative (or nothing was buffered), and reading goes on at the clamped target |
| ReadBuffer.OverflowLoses | pkg/core/readbuffer.go:61-64 | an overflowing read loses exactly the bytes it pulled |
| ReadBuffer.PeekShowsNext | pkg/core/readbuffer.go:101-109 | from the probe point Peek never overflows, shows the next bytes and consumes nothing |
| ReadBuffer.PeekTransparentIff | pkg/core/readbuffer.go:101-114 | from a draining reader Peek is transparent exactly if nothing of the buffer was read yet |
| ReadBuffer.PeekReplays | pkg/core/readbuffer.go:101-114 | peek two bytes, read one, peek again: the byte read is pending once more |
| ReadBuffer.ProbingIsTransparent | pkg/core/readbuffer.go:39-114 | any successful probing followed by Reset leaves the whole stream pending |
| ReadBuffer.ReadTakesFront | pkg/core/readbuffer.go:39-59 | a read that does not probe takes the front of what is pending, and goes straight to the source once the buffer is empty |
| ReadBuffer.ProbeThenRead | pkg/core/readbuffer.go:39-114 | the reads after a probe return the original bytes from the probe point on |

## Left out

- Network, HTTP, RTSP, WebRTC, YAML and JSON parsing, the web UI, cloud clients, subprocesses and the cryptography of `pkg/hap`: input and output, or libraries whose source is not part of this model.
- StreamWorld.NoOrphanProducer: for runs in which no live chain redials while `p.senders` lists a departed consumer's track and linger is not switched off while a callback is armed; the first restriction is needed (RelinksStayPresentIff, ReattachedBecomesOrphan), the second is an assumption.
- StreamWorld.StepKeepsLinks: assumes that a consumer's Stop detaches all of its senders, that the removal of a consumer starts only after its add has returned, and that no consumer is added twice at once.
- ProducerLifecycle.TrackMeansWorker: the track the connection returns is of the codec it was asked for.
- StreamWorld.AdmissionBeatsExpiry: the matching loops of AddConsumer are arbitrary sequences of dial, track and attach steps, which allows more runs than the loops do; formatError is left out.
- StreamWorld.ReadProducerKeepsRunning: the producers begin with connections of their own, and the link's connection is or was one of this producer.
- StreamWorld.ExpiryStopsIffNoConsumerTrack: the exact condition is proved for a redial in the warm, quiet stream, not for every point of a run.
- TrackGraph.Reconnect: the recvonly half of the media loop, under a one-to-one match; the sendonly half only feeds AddTrack of the new connection, and what it attaches is a parameter of the redial step in StreamWorld.
- ProducerLifecycle.Producer.ReconnectLocked: the receivers the matching loops leave arrive with the redial; the loops themselves are TrackGraph.MatchMedias.
- TrackGraph.Node.Close: along a path of parents that never returns to a node, and for a root whose children point back at it, as AppendChild and MoveNode leave them.
- AddProducer, RemoveProducer, Play, Publish and MarshalJSON of streams; Sender channels and goroutines, counters and the bounded send queue.
- Wall-clock durations (timers fire at any time), data races below lock granularity, and wrap-around of workerID and stopGeneration.
- H265Depay.LossNeverTears: aggregation packets are never input to the depacketiser, whose source has no case for them; packets are lost but not reordered; delivered slices are values, so aliasing of the RTP buffers is not modelled.
- H265Payload.Payload: without DONL; requires units of two bytes, which the source indexes without looking once two are buffered, and an mtu below 3 only with units no fragment is tried for.
- H264Payload.RunDeliversIffGroupsFit: for mtu at least 3, types 1 to 23 and forbidden bit 0; the depacketiser of H.264 is in a library that is not part of this model.
- Avcc.EmitAvcNalus: the 32-bit sum of a length close to 2^32 would wrap and panic; buffers of that size are not modelled.
- AnnexB.DecodeAnnexB: requires the three or four bytes the function indexes without looking; DecodeStream is left out.
- BitReader.Reader.ReadUEGolomb: values of more than 31 leading zeros follow the code's 32-bit arithmetic, not the standard; ReadBits8 and ReadBits16 are ReadBits with a narrower result; ReadBits64, ReadFloat32, ReadBytes and Left are left out.
- WriteByte, WriteBytes and WriteUint16 of the bit writer, and its Len and Reset.
- Sps.DecodeSPS: the fields are grouped into one record per part of the syntax; Width, Height, Profile and PixFmt would only add easy members.
- SpsSyntax.DecodesSyntax: the VUI behind timing_info is not read by the decoder and stays free; codes of 2^32 - 1 and deltas outside -128 to 127 are not values of the tables.
- AacRtp.ADTStoRTP: requires that no frame states length zero, on which the loop of the source never ends; RTPPay, ADTSToCodec, RTPTimeSize and ADTSTimeSize are left out.
- AacRtp.RTPToADTS: requires the complete headers and units that the source slices without looking, and a readable configuration unless every unit is ADTS.
- Adts.CodecToADTS: the config field arrives as decoded bytes or as a failed hex decoding.
- Identity.RegionIsStable: lower case is that of ASCII.
- Identity.SerialIsStable: upper case is that of ASCII.
- TokenBinding.MatchMeansPersisted: waiting for the lock is not a step; of the file permissions only whether group or others have any is modelled, and the random temporary names are not.
- Migration.ConfigMeansSnapshot: file permissions and ownership, a marker the migration did not write, and changes to a committed target by others are not modelled; digests stand for the contents they digest; the four leftover temporaries are swept in one fixed order.
- Migration.NextRunCommitsIff: from an empty volume or any other that is resumable and whose marker is one the migration wrote.
- init_config, upgrade_config, import-state and the backup files of config_tool.py; SettingsStore.
- RingLog.CircularBuffer.WriteTo: the writer it hands the bytes to is left out; the mutex makes each method one step.
- Deframer.EzvizDirectMediaDeframer.Feed: rstrip, rpartition and isdigit of byte strings are functions.
- ReadBuffer.Reader.ReadBytes: the underlying reader follows a script of short reads and errors and fails when it ends; Close is left out.
- ReadBuffer.PeekShowsNext: a reader with buffering off is assumed to hold no buffer, as after construction or draining.
