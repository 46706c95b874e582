# A verified model of the delayed stream output

A Dafny 4.11 model of the parts of the repository that carry a live stream from the encoders to the
socket, with proofs about whole runs, round trips and the fast forms the code uses.
`dafny verify dfyconfig.toml` verifies all of it.

## What is modelled

- **The live delay timeline** (`EncoderPacket`, `DelaySpec`, `DelayBuffer`, `DelayRuns`, `DelayLag`, `DelayTicks`,
  `DelayHistory`, `DelayMeaning`). `DelaySpec` says on values what one push, one delay change and one pacer pass do;
  `DelayBuffer` is the structure with its fields, loops and searches, each method equal to its step; `DelayMeaning`
  says what the steps do by the fields before and after alone. The other modules are about runs: any interleaving of
  the three steps, with a clock that never goes back, one video and one audio track with strictly increasing
  `dts_usec` per type, and frames of at least 1 microsecond.
- **The RTMP chunk layer** (`ChunkSpec`, `ChunkIO`, `ChunkBytes`, `ChunkRoundTrip`, `ChunkExtended`,
  `ChunkExtendedSize`). The sender compresses headers against what it last sent on a channel and overwrites body bytes
  it has already sent with the next header; the reader rebuilds messages from what it keeps per channel. The socket is
  a sequence of bytes.
- **FLV tags and RTMP_Write** (`FlvSpec`, `FlvWrite`, `FlvBytes`, `FlvToReader`), which put packets into that layer,
  and `DelayedStream`, which carries what the delay releases in a run through muxer, writer and reader.
- **AMF0** (`AmfSpec`, `AmfCodec`, `AmfBytes`, `AmfRoundTrip`): the encoders write through a moving position in
  limited room, the decoders loop over what is left of their input.
- **Happy Eyeballs** (`AddrInterleave`, `HappyErrors`, `HappyRace`, `HappyOutcome`, `HappyWindow`, `HappyLoss`,
  `HappyMeaning`): the in-place reordering of the address list, and the race of the connect call with one thread per
  candidate. A step of the race is one access to shared state: an event, the flag, the error, the socket, the address,
  or one of the two mutexes.
- **Fast forms and queues**: the cached bit reader with exp-Golomb codes (`BitReader`, `Golomb`), RBSP extraction
  (`Rbsp`), incremental MD5 (`Md5`), the shared write buffer (`WriteBuffer`, `ChunkBuffering`) and the frame-drop
  policy (`DropSpec`, `DropQueue`).

Where the code changes things in place, so does the model: a class with the structure's fields, or a method on an
array, whose contract equates the new state with a function of the old one; the properties are lemmas about that
function and about runs of it. What each such function computes is said a second time without it: by the fields before
and after, or by the bytes and numbers of the format (`DelayMeaning`, `ChunkBytes`, `FlvBytes`, `AmfBytes`,
`HappyMeaning`, and lemmas next to the smaller ones).

## Where the code falls short of what one would expect

Each of these is proved, with a concrete input or run where one is named, next to the condition under which
the property does hold.

- Across audio and video, stamps can go back by the time audio leads beyond one frame, and no further
  (`DelayLag.OutputLagIsBounded`, `DelayLag.LagBoundIsReached`); in milliseconds on the wire's one channel, by that
  and the rounding of both timebases (`DelayedStream.TimesRunBack`).
- A time that runs back makes the timestamp on the wire extended (`FlvToReader.ExtendedWhenTimeRunsBack`). The sender
  repeats an extended timestamp in every continuation header, and the reader takes it for body bytes
  (`ChunkExtended.ExtendedStampsAreNotReadBack`); afterwards it takes a repeated delta for 0xffffff
  (`ChunkExtended.RepeatedDelta`). A message is read in step if and only if its timestamp is below the extended range,
  or its body fits in one chunk and the timestamp is not such a repeated one above 0xffffff
  (`ChunkExtended.InStepExactlyWhenReadable`). On a fresh channel every body of a size comes back if and only if that
  size fits in one chunk (`ChunkExtendedSize.ExtendedComesBackInOneChunk`).
- A number whose first bytes are 00 09, read without a name, is taken for the end mark
  (`AmfRoundTrip.NumberCutOff`); command arguments come back exactly if there is none
  (`AmfRoundTrip.BareValuesComeBack`).
- The connect call's last check is not made under `winner_mutex`. From every address list a run leads through that
  window in which a candidate connects and is not taken (`HappyLoss.ConnectionCanBeLost`). Returning 0 means a socket
  in every run if and only if the list has a second address of the other family
  (`HappyLoss.SuccessIsASocketExactly`, and `HappyLoss.SilentLossExactly` for completed races), that is, if both
  families were found (`HappyWindow.TriesTwoWhenBothFound`); with such a second attempt the window reports a failure
  instead (`HappyWindow.OutcomeIsExact`, `HappyLoss.ErrorTellsExactly`).
- The 03 that closes a payload ending in 00 is taken out if and only if the zeros there are even in number
  (`Rbsp.ClosingByte`, `Rbsp.ClosingByteLeftIn`). A conforming encoder ends a payload in 00 only through
  cabac_zero_words of two zeros each, so what it writes always comes back (`Rbsp.ConformingPayloadComesBack`).

## Model

| member | source | states |
|---|---|---|
| `DelayBuffer.SwdDelay.Push` | src/delay-buffer.c:254-268 | one entry is appended with its arrival time, and only video changes the frame time |
| `DelayBuffer.SwdDelay.FindKeyframeBefore` | src/delay-buffer.c:172-183 | the last keyframe that arrived by the target, else the earliest keyframe, else none |
| `DelayBuffer.SwdDelay.FindKeyframeAfter` | src/delay-buffer.c:186-194 | the first unsent keyframe that arrived at or after the target |
| `DelayBuffer.SwdDelay.SetDelay` | src/delay-buffer.c:196-237 | a delay change is the whole step: clamped, rewinding on a raise, skipping or waiting on a lower |
| `DelayBuffer.SwdDelay.PrepareOut` | src/delay-buffer.c:271-297 | resync, offset, the backwards test and the rewritten stamps are those of one visit |
| `DelayBuffer.SwdDelay.PruneOld` | src/delay-buffer.c:148-163 | the sent entries older than the history go, at most once a second, and the cursor follows |
| `DelayBuffer.SwdDelay.PacerPass` | src/delay-buffer.c:310-338 | one pass resolves a waiting skip, releases what is due in order, and prunes |
| `DelaySpec.LastKeyframeIsLast` | src/delay-buffer.c:174-178 | no later keyframe arrived by the target |
| `DelaySpec.FirstKeyframeIsFirst` | src/delay-buffer.c:188-192 | no earlier unsent keyframe qualifies |
| `DelayRuns.StepKeepsInv` | src/delay-buffer.c:165-338 | every push, delay change and pass keeps the invariant over cursor, resync, offset and last stamps |
| `DelayRuns.WholeRunShape` | src/delay-buffer.c:165-224 | in every run the entries stepped over form contiguous slices, each after a jump starting with a sent keyframe; no video in them is dropped and audio only in a prefix after a jump |
| `DelayRuns.TimestampsNeverBreak` | src/delay-buffer.c:270-297 | in every run the stamps sent increase strictly per media type, and spacing within a slice is kept |
| `DelayRuns.NothingLeaksEarly` | src/delay-buffer.c:324-335 | in every run nothing is sent before it is as old as the delay in force; the pace is the held delay, above the requested one only while a skip waits |
| `DelayLag.OutputLagIsBounded` | src/delay-buffer.c:275-287 | with audio leading by at most a lead, no stamp falls more than max(0, lead - frame) behind an earlier one of either type |
| `DelayLag.LagBoundIsReached` | src/delay-buffer.c:275-287 | that bound is attained, for every lead above the frame time, by a run with one raise |
| `DelayTicks.RewriteKeepsTickOrder` | src/delay-buffer.c:118-122 | a strict increase in microseconds never becomes a decrease in ticks, whatever the two offsets |
| `DelayTicks.TicksNeverGoBack` | src/rtmp/flv-mux.h:56-59 | in every run neither the ticks nor the FLV milliseconds, before their conversion to 32 bits, of a media type go back, across jumps too |
| `DelayTicks.MillisecondsRunBack` | src/rtmp/flv-mux.h:56-59 | in every run the milliseconds of both types together, each in its timebase, run back by at most the lag of the stamps and what rounding adds |
| `DelayHistory.PassLeavesYounger` | src/delay-buffer.c:324-335 | after a pass everything left is younger than the pace |
| `DelayHistory.PassVisitsTheDue` | src/delay-buffer.c:324-335 | everything a pass releases is at least as old as the pace, in order, from one entry on, none left out, up to the first that is too young |
| `DelayHistory.PendingSkipHasNowhereToGo` | src/delay-buffer.c:314-322 | a skip that still waits after a pass has no buffered keyframe to go to |
| `DelayHistory.LowerLandsOnFirstYoungKeyframe` | src/delay-buffer.c:209-216 | an immediate lower lands on the first unsent keyframe at most the new delay old |
| `DelayHistory.LowerWaitsOnlyWithoutKeyframe` | src/delay-buffer.c:217-221 | a lower waits, at the old pace, only if no buffered keyframe qualifies |
| `DelayHistory.SteadyRaisesRewind` | src/delay-buffer.c:201-208 | with keyframe gap plus pass period up to 5 s, every raise whose target some keyframe precedes finds the last one before it, never the fallback |
| `DelayHistory.SteadyPassesKeepTheirBatch` | src/delay-buffer.c:324-345 | in such runs no pass frees an entry it has just batched |
| `DelayHistory.PruneKeepsExactlyTheHistory` | src/delay-buffer.c:148-163 | only entries older than 125 s go, and when pruning fires everything kept is at most that old |
| `DelayMeaning.SetDelayMeans` | src/delay-buffer.c:196-237 | by fields: a raise goes back to the last keyframe old enough, or the first of all, if that one was sent; a lower goes to the first unsent one young enough, or waits for one; up to 120 s |
| `DelayMeaning.VisitMeans` | src/delay-buffer.c:271-297 | by fields: after a jump one frame after the last video sent; sent exactly if later than the last of its type; dts, pts and both microsecond stamps moved alike, to the nearest tick |
| `DelayMeaning.PassMeans` | src/delay-buffer.c:310-338 | by fields: where a pass begins, with a jump or not, at which pace, what it releases and with which stamps, where it stops, and what it prunes |
| `DelayMeaning.SkipEndsExactly` | src/delay-buffer.c:314-322 | a waiting skip ends in a pass if and only if an unsent keyframe not before its target is buffered |
| `DelayMeaning.WaitingSkipLands` | src/delay-buffer.c:314-335 | it lands on the first such keyframe: nothing before it is released, the first visit is that keyframe, as a jump if entries were left out, and with no visit the cursor stands there |
| `DelayMeaning.RunSkipLands` | src/delay-buffer.c:314-335 | the same in every run, for the timeline and the visits the pass adds to the run |
| `DelayMeaning.RunSendsMoved` | src/delay-buffer.c:289-295 | in every run a packet handed on differs from the one pushed by one offset, so dts and pts keep their distance |
| `ChunkIO.Sender.SendPacket` | src/rtmp/librtmp/rtmp.c:4088-4321 | the bytes written are those of the original body in chunks, although headers overwrite it in place, and the channel's memory is renewed |
| `ChunkIO.Sender.SendChunks` | src/rtmp/librtmp/rtmp.c:4220-4289 | the chunk loop writes the whole body once, with a continuation header before every chunk but the first |
| `ChunkIO.Sender.Compress` | src/rtmp/librtmp/rtmp.c:4117-4152 | the header type and the timestamp on the wire that the previous packet of the channel allows |
| `ChunkIO.Receiver.ReadPacket` | src/rtmp/librtmp/rtmp.c:3801-3993 | one chunk is taken from the input and joined to its channel's partial message, or the read fails |
| `ChunkBytes.MessageOnWire` | src/rtmp/librtmp/rtmp.c:4163-4215 | the first bytes of every message, one by one: basic header, fields by type, min(timestamp, 16777215) in three bytes, four more exactly if it is at least 16777215, then the first chunk |
| `ChunkBytes.ContinuationOnWire` | src/rtmp/librtmp/rtmp.c:4254-4287 | a continuation header byte by byte, with the timestamp in four bytes exactly if it is at least 16777215 |
| `ChunkBytes.PiecesOnWire` | src/rtmp/librtmp/rtmp.c:4228-4289 | the pieces of a message join to what is sent, are as few as the chunk size allows, and piece i carries bytes i * chunk and following behind a continuation header |
| `ChunkBytes.HeaderChosen` | src/rtmp/librtmp/rtmp.c:4117-4152 | when the timestamp is absolute and when a difference modulo 2^32, and each header type exactly when size, type and delta are the same as before |
| `ChunkBytes.HeaderFromWire` | src/rtmp/librtmp/rtmp.c:3818-3926 | a header is read exactly if all its bytes are there, and type, channel and fields are those bytes |
| `ChunkBytes.ChunkFromWire` | src/rtmp/librtmp/rtmp.c:3928-3990 | how many bytes a chunk takes, when its message begins anew, when it is complete, and whether its timestamp is absolute or added |
| `ChunkRoundTrip.ReadsHeader` | src/rtmp/librtmp/rtmp.c:3818-3926 | every header of the four types on channels 2 to 65599, with and without an extended timestamp, is parsed back |
| `ChunkRoundTrip.MessageOnChannel` | src/rtmp/librtmp/rtmp.c:3967-3986 | the chunks of a message whose timestamp is readable deliver it once and leave sender and receiver in step |
| `ChunkRoundTrip.SequenceRoundTrip` | src/rtmp/librtmp/rtmp.c:4088-4321 | reading what was sent for any legal messages on any channels gives them back in order: channel, type, absolute timestamp, stream and body |
| `ChunkRoundTrip.InterleavedRoundTrip` | src/rtmp/librtmp/rtmp.c:3848-3992 | however the channels' chunks are interleaved, each channel's messages arrive complete and in order |
| `ChunkExtended.ExtendedStampsAreNotReadBack` | src/rtmp/librtmp/rtmp.c:4273-4287 | for every extended timestamp and every body longer than a chunk, the second chunk puts the four timestamp bytes into the body and leaves the reader four bytes behind |
| `ChunkExtended.RepeatedDelta` | src/rtmp/librtmp/rtmp.c:3970-3971 | a header without a timestamp gives the right one if and only if the delta it repeats is at most 0xffffff |
| `ChunkExtended.InStepExactlyWhenReadable` | src/rtmp/librtmp/rtmp.c:3889-3986 | from any memories in step, a message is delivered as it was, chunk by chunk and nothing else consumed, if and only if its timestamp is readable |
| `ChunkExtendedSize.ExtendedComesBackInOneChunk` | src/rtmp/librtmp/rtmp.c:3889-3986 | on a fresh channel an extended timestamp is read back with every body of a size if and only if the size fits in one chunk |
| `FlvWrite.PacketMux` | src/rtmp/flv-mux.c:372-385 | the tag of a packet, empty for a packet without data |
| `FlvWrite.FlvVideo` | src/rtmp/flv-mux.c:308-340 | a video tag: header, five extra bytes, data, and the size of it all |
| `FlvBytes.BodyIsPayload` | src/rtmp/flv-mux.c:332-367 | the body of a tag read back from its bytes: frame type 1 exactly for a keyframe, else 2, codec 7, packet type, signed composition time congruent to the milliseconds of pts less those of dts, data; 0xaf, packet type and data for audio |
| `FlvBytes.CompositionTimeFits` | src/rtmp/flv-mux.c:310 | the composition time itself, where 24 bits hold it |
| `FlvBytes.TagOnWire` | src/rtmp/flv-mux.c:308-370 | the whole tag byte by byte, the last four bytes being the length of everything before them; no tag without data |
| `FlvWrite.Writer.Write` | src/rtmp/librtmp/rtmp.c:5317-5395 | every complete tag goes out as one message, a partial one is kept for the next call, and the result counts what was used |
| `FlvSpec.TagRound` | src/rtmp/librtmp/rtmp.c:5327-5393 | one round turns a muxed tag into one message and leaves exactly what follows the tag |
| `FlvToReader.TagsBecomeMessages` | src/rtmp/librtmp/rtmp.c:5317-5395 | concatenated tags become exactly one message each, in order, with type, time and body, and all bytes are used |
| `FlvToReader.TagInTwoCalls` | src/rtmp/librtmp/rtmp.c:5317-5395 | a tag cut in its body between two calls is sent by the second one, as the same message |
| `FlvToReader.PartGoesOn` | src/rtmp/librtmp/rtmp.c:5317-5395 | any further call in between that brings more of the body adds it to what is kept |
| `FlvToReader.ExtendedWhenTimeRunsBack` | src/rtmp/librtmp/rtmp.c:4117-4152 | the delta on the wire is at least 16777215, so extended, exactly when time runs back or jumps by 2^24 - 1 ms |
| `FlvToReader.MuxedPacketsArrive` | src/rtmp/flv-mux.c:308-385 | muxed, written and read back from the wire from any memories in step, every packet arrives once and in order, with tag type, time and a body that a reader of the bytes takes for that packet, if the timestamps on the wire are readable |
| `FlvToReader.FittingTimesArrive` | src/rtmp/flv-mux.c:308-385 | the same if a time that runs back or jumps by 2^24 - 1 ms comes with a body of one chunk, behind the other media type |
| `DelayedStream.TimesRunBack` | src/rtmp/flv-mux.c:308-350 | how far the tag times of a delayed run can run back across the two media types |
| `DelayedStream.TimesAscendWithinKind` | src/rtmp/flv-mux.c:308-350 | within a media type the tag times, after conversion to 32 bits, never run back |
| `DelayedStream.DelayedStreamArrives` | src/rtmp/rtmp-stream.c:421-438 | what the pacer sends in any run, muxed, written and read back, arrives complete and in order, if what steps back fits in one chunk |
| `AmfCodec.PutProp` | src/rtmp/librtmp/amf.c:361-416 | the encoder leaves the property's bytes at its position, writes nowhere outside its room, and fails when the room checks say so |
| `AmfCodec.PutAll` | src/rtmp/librtmp/amf.c:904-917 | the properties up to the first that does not fit are written, and the loop stops there |
| `AmfCodec.GetProp` | src/rtmp/librtmp/amf.c:622-801 | one property and the number of bytes it takes, or a failure |
| `AmfCodec.GetObject` | src/rtmp/librtmp/amf.c:1186-1238 | the properties up to an end mark or the end of the data |
| `AmfCodec.GetArray` | src/rtmp/librtmp/amf.c:997-1035 | as many elements as announced, or a failure |
| `AmfBytes.ValueOnWire` | src/rtmp/librtmp/amf.c:361-416 | the bytes of each value: its marker as a number, sizes most significant byte first, 00 00 09 at the end of an object |
| `AmfBytes.WrittenExactly` | src/rtmp/librtmp/amf.c:361-416 | a property of any depth is written completely if and only if the room is at least what it needs, and never beyond the room |
| `AmfBytes.SimpleFromWire` | src/rtmp/librtmp/amf.c:660-795 | what each marker makes of the bytes behind it, cut-off values and unknown markers being failures |
| `AmfBytes.NamedFromWire` | src/rtmp/librtmp/amf.c:622-658 | a named property is read exactly if its name, its marker and the value behind it are there |
| `AmfRoundTrip.FitsInRoom` | src/rtmp/librtmp/amf.c:361-416 | with two bytes to spare nothing is left out at any depth |
| `AmfRoundTrip.NameIsNotTheEnd` | src/rtmp/librtmp/amf.c:1199-1204 | a named property never looks like the end mark |
| `AmfRoundTrip.RoundTrip` | src/rtmp/librtmp/amf.c:622-801 | any encodable tree is read back whole, whatever follows it, consuming just its own bytes |
| `AmfRoundTrip.BareValues` | src/rtmp/librtmp/amf.c:1194-1232 | values without names are read back exactly up to the first number that looks like the end mark |
| `AmfRoundTrip.BareValuesComeBack` | src/rtmp/librtmp/amf.c:1194-1232 | all of them come back if and only if there is no such number |
| `AmfRoundTrip.NumberCutOff` | src/rtmp/librtmp/amf.c:1199-1204 | a number that is lost that way |
| `AddrInterleave.Interleave` | src/shared/happy-eyeballs.c:216-247 | the loop ends and leaves the same nodes relinked in the interleaved order |
| `AddrInterleave.OrderWithinFamilies` | src/shared/happy-eyeballs.c:216-247 | the addresses of each family keep their order and the first stays first |
| `AddrInterleave.InterleavedAlternates` | src/shared/happy-eyeballs.c:216-247 | families alternate strictly until one family is left |
| `AddrInterleave.OthersStay` | src/shared/happy-eyeballs.c:221 | addresses that are neither IPv4 (2) nor IPv6 (10) are left where they are |
| `AddrInterleave.Attempts` | src/shared/happy-eyeballs.c:535-569 | attempts go on until six, the end of the list, or a repeated family |
| `AddrInterleave.AttemptsExhaustAFamily` | src/shared/happy-eyeballs.c:539-545 | they stop short of six only when one family is exhausted |
| `AddrInterleave.SecondIsOfTheOther` | src/shared/happy-eyeballs.c:216-247 | the second attempt is of the other family if and only if both were found |
| `HappyErrors.CoalesceErrors` | src/shared/happy-eyeballs.c:265-328 | the error set is the most frequent non-zero one, the earliest of several, or 0 if there is none |
| `HappyErrors.MostCommonIsUnique` | src/shared/happy-eyeballs.c:311-320 | there is only one such error |
| `HappyErrors.CountIsMultiplicity` | src/shared/happy-eyeballs.c:284-306 | the count of an error is its multiplicity among the candidates |
| `HappyRace.StepKeepsInv` | src/shared/happy-eyeballs.c:330-402 | every step of every thread keeps the invariant over mutexes, events, flag, error and winner |
| `HappyOutcome.NoLostCompletion` | src/shared/happy-eyeballs.c:370-397 | when the call and all candidates are through, the race event is set, in every interleaving |
| `HappyOutcome.EveryRunCompletes` | src/shared/happy-eyeballs.c:523-582 | every run is finite, and one that can go no further has completed the race unless a launch failed |
| `HappyOutcome.NeverStuck` | src/shared/happy-eyeballs.c:354-386 | the two mutexes never block everybody |
| `HappyOutcome.AtMostOneWinner` | src/shared/happy-eyeballs.c:353-365 | the socket and the address are written at most once, for the same candidate, one that connected |
| `HappyOutcome.AttemptsAlternate` | src/shared/happy-eyeballs.c:539-569 | the candidates are the first addresses of the list, no family twice in a row |
| `HappyWindow.StopsShortWhenExhausted` | src/shared/happy-eyeballs.c:539-569 | on the interleaved list, a race still open after fewer than six launches has no address of another family left |
| `HappyWindow.SuccessMeansASocket` | src/shared/happy-eyeballs.c:571-596 | returning 0 means a valid socket and its address whenever two families are tried |
| `HappyLoss.SuccessIsASocketExactly` | src/shared/happy-eyeballs.c:571-596 | it does so in every run from a list if and only if two families are tried |
| `HappyWindow.TriesTwoWhenBothFound` | src/shared/happy-eyeballs.c:216-247 | two are tried if and only if both were found |
| `HappyWindow.OutcomeIsExact` | src/shared/happy-eyeballs.c:571-582 | in every completed run the error is 0 just when some candidate connected and, in the window, it was the only attempt; otherwise it is the most common error |
| `HappyLoss.SilentLossExactly` | src/shared/happy-eyeballs.c:571-582 | a race can complete without an error and without a socket if and only if one attempt is all |
| `HappyLoss.ErrorTellsExactly` | src/shared/happy-eyeballs.c:571-582 | the error tells whether a candidate connected, in every completed run, if and only if one attempt is all |
| `HappyLoss.ConnectionCanBeLost` | src/shared/happy-eyeballs.c:353-365 | from every list, a completed run in which the first candidate connects and is not taken |
| `HappyMeaning.ResultsAreRecorded` | src/shared/happy-eyeballs.c:350-371 | in every run a candidate has an error exactly if its connect failed, and that error; it counts as connected exactly if its connect succeeded and it has told |
| `HappyMeaning.NoLaunchAfterTheRace` | src/shared/happy-eyeballs.c:539-569 | in every run, once the race is over, at most the candidate about to be launched is still launched |
| `HappyMeaning.TooLateToTry` | src/shared/happy-eyeballs.c:336-339 | in every run a candidate that first looks once the race is over never connects |
| `HappyMeaning.AnswerIsWhatItSaw` | src/shared/happy-eyeballs.c:581-597 | in every run the answer is the one of the last look: failure if it saw an error, else done or not as the race event was one step of the call earlier |
| `HappyMeaning.SixAttempts` | src/shared/happy-eyeballs.c:539 | at most six candidates in every run, and fewer, with the race open, only at the end of the list or a repeated family |
| `BitReader.FieldSplit` | src/rtmp/rtmp-hevc.c:142-151 | successive fields of the bit string are together one field |
| `BitReader.BitMeans` | src/rtmp/rtmp-hevc.c:83-86 | bit j of byte k is that byte divided by 2^(7 - j), modulo 2, and 0 past the end |
| `BitReader.RefillExtends` | src/rtmp/rtmp-hevc.c:88-93 | a refill appends the next 32 bits of the buffer to the cached ones |
| `BitReader.TakeBits` | src/rtmp/rtmp-hevc.c:95-102 | taking n bits off the cache gives the next field and leaves the rest in place |
| `Golomb.GetBitContext.GetBits` | src/rtmp/rtmp-hevc.c:142-151 | up to 32 bits: the next big-endian field of the buffer |
| `Golomb.GetBitContext.GetBits64` | src/rtmp/rtmp-hevc.c:174-182 | up to 64 bits: the next field, across two reads |
| `Golomb.GetBitContext.GetUe` | src/rtmp/rtmp-hevc.c:209-218 | the value and the length of the code there, and what 32 leading zeros or more give |
| `Golomb.GetBitContext.GetSe` | src/rtmp/rtmp-hevc.c:219-224 | the signed value of that code, in both cases |
| `Golomb.UeRoundTrip` | src/rtmp/rtmp-hevc.c:209-218 | every code number below 2^32 - 1 is decoded from its ue(v) code |
| `Golomb.CodeIsOneMore` | src/rtmp/rtmp-hevc.c:209-218 | the whole code, read as a number, is the value plus 1 |
| `Golomb.SeRoundTrip` | src/rtmp/rtmp-hevc.c:219-224 | every signed value the code can carry is decoded from its se(v) code |
| `Rbsp.ExtractRbsp` | src/rtmp/rtmp-hevc.c:237-261 | the header, then the data without escapes, never longer than the input, then 64 zeros |
| `Rbsp.EscapedIsSafe` | src/rtmp/rtmp-hevc.c:246-255 | the emulation prevention that extraction is proved against does its work: 00 00 is never followed by a byte below 03 |
| `Rbsp.StripUndoesEscape` | src/rtmp/rtmp-hevc.c:246-255 | extraction inverts emulation prevention for every payload |
| `Rbsp.ClosingByte` | src/rtmp/rtmp-hevc.c:246-255 | the closing 03 is removed if and only if the payload ends in an even number of zeros |
| `Rbsp.ClosingByteLeftIn` | src/rtmp/rtmp-hevc.c:254-255 | after an odd number it stays in |
| `Rbsp.ConformingPayloadComesBack` | src/rtmp/rtmp-hevc.c:246-255 | a payload that ends in pairs of zeros behind its trailing bits comes back |
| `Md5.CountersAdd` | src/rtmp/librtmp/md5.c:215-218 | hi * 2^29 + lo is the byte count modulo 2^61, whatever is added |
| `Md5.Context.Update` | src/rtmp/librtmp/md5.c:210-242 | the message grows by the data, however it is split into calls |
| `Md5.Context.Final` | src/rtmp/librtmp/md5.c:244-293 | the result is the digest of the whole message hashed in one piece, padded as `Md5.PadMeans` says |
| `Md5.FinalTwo` | src/rtmp/librtmp/md5.c:248-273 | a padding that does not fit the last block is the padding of RFC 1321 all the same |
| `Md5.PadMeans` | src/rtmp/librtmp/md5.c:244-273 | the padding byte by byte: 80, as few zeros as make whole blocks, and byte i of the last eight is (8 n / 256^i) modulo 256 |
| `Md5.PadIsUnique` | src/rtmp/librtmp/md5.c:244-273 | there is only one such padding |
| `Md5.DigestMeans` | src/rtmp/librtmp/md5.c:275-290 | byte 4k + i of the digest is byte i, low first, of state word k after the blocks of any such padding |
| `WriteBuffer.Buffer.QueueData` | src/rtmp/rtmp-stream.c:367-399 | the data is appended whole if it fits, else nothing changes |
| `WriteBuffer.Buffer.WriteData` | src/rtmp/rtmp-windows.c:132-212 | just the bytes that send took leave the buffer, from its front |
| `WriteBuffer.LosslessFifo` | src/rtmp/rtmp-windows.c:132-212 | in every interleaving, sent followed by buffered is what was queued, and the buffer never overflows |
| `WriteBuffer.ExitMeansAllSent` | src/rtmp/rtmp-windows.c:256-267 | a normal exit means every byte queued was sent |
| `WriteBuffer.QueuedAndSentExactly` | src/rtmp/rtmp-windows.c:159-162 | in every run what is queued is the data of exactly the attempts that found room, and what is sent is as many bytes of it as send said it took |
| `WriteBuffer.NothingAfterFailure` | src/rtmp/rtmp-windows.c:186-199 | after a failure nothing is buffered, queued or sent any more |
| `WriteBuffer.WaitsUntilWritable` | src/rtmp/rtmp-windows.c:174-178 | after send would have blocked nothing is written until the socket takes data again |
| `WriteBuffer.ExitsExactly` | src/rtmp/rtmp-windows.c:256-267 | the exit test ends the thread if and only if the sender is done and the buffer is empty |
| `WriteBuffer.GetsThroughExactly` | src/rtmp/rtmp-stream.c:375-393 | from every state of a run the socket thread can come to take what waits if and only if it is no longer than the buffer |
| `ChunkBuffering.EveryChunkGetsThrough` | src/rtmp/rtmp-stream.c:1074-1080 | every write of a message, one 4096-byte chunk and its header, is of that kind |
| `DropQueue.RtmpStream.DropFrames` | src/rtmp/rtmp-stream.c:1447-1489 | what is audio or has the priority stays, in order; the rest is counted and the least priority raised |
| `DropQueue.RtmpStream.AddVideoPacket` | src/rtmp/rtmp-stream.c:1660-1676 | late frames are dropped first, then the packet is admitted or counted as dropped |
| `DropSpec.NothingIsLostUncounted` | src/rtmp/rtmp-stream.c:1592-1676 | in every run no audio is lost, order is kept, and video offered is sent, queued or counted as dropped |
| `DropSpec.DropMeans` | src/rtmp/rtmp-stream.c:1447-1489 | by fields: after a drop at a priority all audio and all video of at least that priority is there, in order and as often as before, nothing else, and the counter has grown by the number of the rest |
| `DropSpec.DropsExactlyWhenLate` | src/rtmp/rtmp-stream.c:1592-1658 | with timestamps in order the one packet looked at decides whether any video waits too long: then just what must be kept is left, else nothing changes |
| `DropSpec.RunsDropExactlyWhenLate` | src/rtmp/rtmp-stream.c:1660-1664 | in every run with video offered in timestamp order, both checks before an admission do just that |
| `DropSpec.AfterADrop` | src/rtmp/rtmp-stream.c:1468-1480 | right after a drop every queued video packet has the priority it was made at, and a video packet below it is not admitted next but counted |
| `DropSpec.DropLastsUntilAdmission` | src/rtmp/rtmp-stream.c:1665-1673 | until a video packet is admitted the priority stands, so the next one admitted has it |
| `DropSpec.AdmissionEndsTheDrop` | src/rtmp/rtmp-stream.c:1665-1673 | the video packet admitted is the newest in the queue and ends the drop |
| `DropSpec.DynamicBitrateDropsNothing` | src/rtmp/rtmp-stream.c:1634-1652 | with dynamic bitrate nothing is dropped |

## Left out

- Floating point: `llround` is exact rounding to nearest, AMF numbers are eight opaque bytes, the congestion figure is not modelled.
- The sentinel INT64_MIN of the last stamps is a separate value, and 64-bit overflow of times is not modelled.
- `swd_get_state`, the global delay control, logging, thread start and stop, memory management and allocation failure.
- DelayRuns.NothingLeaksEarly: says nothing of smooth pacing after a raise that cancels a waiting skip; the code then releases the backlog in one pass.
- DelayHistory.SteadyRaisesRewind: needs a keyframe that arrived by the target, since before that the code can only use its fallback.
- ChunkRoundTrip.SequenceRoundTrip: leaves out the timestamps that `ChunkExtended.InStepExactlyWhenReadable` shows cannot be read, chunk sizes that change in mid-stream and a stream id that changes without a full header, because sender and reader do not agree there.
- ChunkIO.Sender.SendPacket: does not model the RTMPT branch, the queue of invoked methods, or a write that fails.
- ChunkIO.Receiver.ReadPacket: starts from an empty packet, and does not model the raw chunk a caller may ask for nor the header type left in the packet.
- FlvWrite.Writer.Write: requires that no tag header is cut off by the end of the data, since the code would read past it, and that sends succeed; a header at the very end whose body is still to come is forgotten, as in the code.
- FlvToReader.MuxedPacketsArrive: the first message of a fresh connection must be at time 0, since RTMP_Write gives only that a full header.
- FlvToReader.FittingTimesArrive: leaves out a time that runs back or jumps by 2^24 - 1 ms within one media type, where the delta may be repeated.
- DelayedStream.DelayedStreamArrives: the conversion of the packet's data between delay and muxer and the packet queue with its drops are not part of this chain; timebases are whole ticks (numerator 1) in `DelayedStream.TimesRunBack`, since `get_ms_time` ignores the numerator.
- The extended-header FLV packets, multitrack packets and metadata tags of flv-mux.c: the same serializer with other constants.
- AmfCodec.GetProp: AMF3 data is a failure here; bytes past the end of the input count as 0 where the code reads before it checks; the width of `long` is not modelled.
- AmfRoundTrip.RoundTrip: dates and XML documents have no encoder, a null in an object has no room for its name, and strings are shorter than 2^31 bytes.
- AmfBytes.WrittenExactly: for trees without dates and XML documents, which are never written (`AmfBytes.FirstFailureEnds`).
- The named shortcuts AMF_EncodeNamedString, AMF_EncodeNamedNumber and AMF_EncodeNamedBoolean: the same bytes as a property of that type.
- HappyRace.StepKeepsInv: shared fields are read and written one at a time in some order, and a failed candidate releases its two mutexes in one step; weaker memory orders, thread creation failure and the timing of the pauses are not modelled. The value of each failed connect is an input.
- AddrInterleave.Attempts: does not end on a signalled race or a failed launch; `HappyRace` does.
- HappyErrors.CoalesceErrors: the two early returns are steps of `HappyRace`.
- AddrInterleave.Interleave: `getaddrinfo` is not modelled; the AF_INET6 constant is the Linux one.
- HappyOutcome.AtMostOneWinner: the copy of the winner's address is one step.
- Golomb.GetBitContext.GetUe: bytes past the end are the zero padding, so reads beyond 64 bytes of it are not modelled. `show_bits` for 25 bits or less is not called and not modelled.
- The parsing of VPS, SPS and PPS with these readers: a sequence of reads without a property of its own.
- Md5.Context.Final: the block function is a parameter; its rounds are not modelled.
- WriteBuffer.Buffer.QueueData: one attempt; the wait for space and the retry are the events between two attempts.
- WriteBuffer.Buffer.WriteData: a fatal socket error empties the buffer in the same step, and what is in it is lost; waiting, events and the send backlog are not modelled.
- DropQueue.RtmpStream.AddVideoPacket: the bitrate changes of dynamic bitrate are not modelled; the two priorities come from a header of OBS that is not part of this model.
- OBS, Qt, WinHTTP and websocket plumbing, sockets, DNS, TLS, HTTP, the handshake and crypto: glue around libraries, or compiled out.
- `cencode.c`, `rtmp-av1.c`, `parseurl.c` and the option parser: easier members of the same kinds.
