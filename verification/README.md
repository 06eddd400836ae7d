# Relay connector: a Dafny model

This project models the audio side of the PocketStation Relay connector and proves what it
promises: a grouped publisher that survives credential renewal and transport loss, the media
pipeline whose audio it must account for, the RTP publish loop, the subscriber's decode state
machine, the receipt registry, and three text and byte transforms.

`dafny verify dfyconfig.toml` checks the whole project.

## How it is put together

- `Basics` holds saturating arithmetic and a few facts about it.
- `PcmPacketizer` is the packetizer object over its fixed sample array; `PacketRuns` is the simple
  meaning it refines (split into maximal runs, concatenate, chunk); `OpusWorker` is the encoder
  loop over both.
- `CaptureCutoff` composes feeder, packetizer and gateway filter into one step system, with every
  sample tagged by the frame it came from, and proves the cutoff theorem over all interleavings.
- `PublisherControl` is the credential handle at the granularity of its lock and its atomics.
- `GroupProtocol` is a monitor: the events of a grouped publication, which of them may follow
  which, and theorems about every sequence of events it lets pass. `Gateway` is the publisher
  itself, a class whose methods follow `relay/src/rtc/gateway.rs`; another thread may act between
  any two of its reads (`Interfere`), and every method emits the events it causes. The monitor
  accepts all of them, so each theorem of `GroupProtocol` holds of every run of `Gateway`.
- `IngressPacket` is the 40-byte packet, `StunProbe` the STUN response reader, and `Text`,
  `FmtpParams` and `OpusSdp` the SDP rewriting.
- `RtpPublisher`, `SubscriberSource` and `Receipts` are the publish loop, the decode driver and
  the receipt registry with its groups.

Sockets, clocks, threads, decoders and the relay are nondeterministic: a method takes any outcome
the source distinguishes, in any order. Loops that run until something external happens are
modelled for any number of rounds. In `Gateway`, `now` is the monotonic clock, which other threads'
time may advance by any amount, and `work` counts only the time the publisher itself spends in
socket waits and sleeps; every socket wait honours the deadline it was given.

Numbers are naturals. The u64 saturation of time stamps, sequence numbers and epochs is written
out where a property depends on it (`PcmPacketizer`, `CaptureCutoff`, `SubscriberSource`); plain event
counters are not saturated.

## Where the code and its promises differ

- The cutoff of a re-attachment holds back everything captured before it only while capture times
  stay below the 64-bit limit. `StampBelowEnd` gives the exact condition and `LeakReachesCutoff` with
  `SaturatedClockLeaks` an execution that breaks it.
- Every observed READY generation is meant to advance. A READY that was parsed and then lost with
  its socket is not recorded, so its generation may be accepted again (`LostGenerationCanRepeat`).
  Over the READY messages that admissions return, the promise holds (`ReadyGenerationsIncrease`), and of
  all messages only a lost one can break it (`ObservedReadies`).
- The comment on `munge_opus_params` says existing parameters are preserved. The code replaces the
  value of every wanted key, as the comment on `merge_params` says, and the model follows the code.
- An Opus rtpmap line that ends the offer without a line feed runs on into the inserted fmtp line
  (`UnterminatedMappingRunsOn`; `MungeKeepsLines` gives the exact condition). Parameters without a
  value whose key is empty or padded with whitespace break idempotence (`MergeTwice`;
  `MungeIsIdempotentExactlyWhen` covers every offer).
- The STUN walk does not compare an attribute's length with the message length.
  `WalkIsRightWhen` says exactly when its answer is wrong, and `WalkOverrunsWhen` exactly when it indexes
  past its buffer.
- A receipt leaves the registry through its result, a roll-back or a cancellation. A worker that
  panics, or is dropped without having been run or cancelled, sets no result, and its receipts stay
  for good (`AbandonedReceiptsStay`; `ReceiptsStayExactlyWhen` gives the exact condition). The branch
  for a wrong number of outcomes has the same effect, but the shipped transport always returns one
  outcome per route.
- Local timestamps can run backwards inside an epoch when a frame comes with a higher RTP clock rate
  (`ClockChangeRewinds`; `EpochTimeIsOrdered` gives the exact condition). The rate is read from every
  received frame (`media.time.denom()`, relay/src/rtc/subscriber.rs:163), so whether it ever changes for
  an Opus stream is up to the RTC library.

## Model

| member | source | states |
|---|---|---|
| `PcmPacketizer.Packetizer.constructor` | relay/src/audio/pcm_packetizer.rs:38-54 | a new packetizer is empty and holds one packet's worth of samples |
| `PcmPacketizer.Packetizer.Create` | relay/src/audio/pcm_packetizer.rs:38-54 | succeeds exactly for 48 kHz mono or stereo, and says which of the two was wrong |
| `PcmPacketizer.Packetizer.BeginFrame` | relay/src/audio/pcm_packetizer.rs:57-88 | misaligned input changes nothing; otherwise a sequence gap or output change empties the partial packet and reports it under exactly one of the two reasons |
| `PcmPacketizer.Packetizer.PushSamples` | relay/src/audio/pcm_packetizer.rs:96-114 | appends as many samples as fit, in place, and stamps a packet by the frame and offset of its first sample |
| `PcmPacketizer.Packetizer.CompletePacket` | relay/src/audio/pcm_packetizer.rs:116-121 | yields the samples and stamp exactly when the packet is full |
| `PcmPacketizer.Packetizer.FinishPacket` | relay/src/audio/pcm_packetizer.rs:123-127 | empties the packet and keeps the boundary state |
| `PcmPacketizer.Packetizer.PadTail` | relay/src/audio/pcm_packetizer.rs:130-138 | fills a partial packet with silence behind its samples, and does nothing to an empty one |
| `PcmPacketizer.Packetizer.DiscardPartial` | relay/src/audio/pcm_packetizer.rs:140-145 | returns how much it dropped and keeps the boundary state |
| `PacketRuns.SplitRunsPartitions` | relay/src/audio/pcm_packetizer.rs:57-88 | the runs of the specification partition the frames in order, each is consecutive with one generation, and neighbours do not continue each other |
| `PacketRuns.FeedRefines` | relay/src/audio/opus_worker.rs:382-399 | feeding one frame of a run emits exactly the packets the run gains by it |
| `PacketRuns.AssembleRefines` | relay/src/audio/opus_worker.rs:341-416 | for every sequence of frames, the packets assembled incrementally are the chunks of the maximal runs, and what is pending is the last run's tail |
| `PacketRuns.LossesRefine` | relay/src/audio/pcm_packetizer.rs:69-88 | the two discard totals are the tails of the non-final runs, each counted under the reason its run ended |
| `PacketRuns.SamplesConserved` | relay/src/audio/opus_worker.rs:373-416 | accepted samples = packet size times packets + both discard totals + pending |
| `PacketRuns.ShutdownConserved` | relay/src/audio/opus_worker.rs:402-416 | accepted samples + padding = packet size times packets + both discard totals after an orderly end |
| `PacketRuns.CallbackWidthsDoNotMatter` | relay/src/audio/pcm_packetizer.rs:96-114 | two frame streams whose maximal runs hold the same samples are assembled into the same packets and losses, the padded last packet included |
| `PacketRuns.RunContentDecides` | relay/src/audio/pcm_packetizer.rs:96-114 | the same for given runs |
| `PacketRuns.PacketHasOneGeneration` | relay/src/audio/pcm_packetizer.rs:72-79 | every packet's samples come from frames of its one output generation |
| `PacketRuns.AssembledPacketHasOneGeneration` | relay/src/audio/pcm_packetizer.rs:72-79 | so does every packet assembled from a stream of frames |
| `PacketRuns.PaddedPacketHasOneGeneration` | relay/src/audio/pcm_packetizer.rs:130-138 | so does the padded last packet, silence behind the last run's tail |
| `OpusWorker.EncoderWorker.EncodeAndDeliver` | relay/src/audio/opus_worker.rs:223-283 | a packet takes one step of the media clock exactly if it was encoded, is delivered with the clock value it found, and ends in exactly one counter |
| `OpusWorker.EncoderWorker.DeliverEncodedFrame` | relay/src/audio/opus_worker.rs:175-204 | an encoded frame is delivered, cancelled, dropped at a full channel under the dropping policy, or ends the worker |
| `OpusWorker.EncoderWorker.PushOnce` | relay/src/audio/opus_worker.rs:383-398 | one turn of the packet loop matches one step of the specification |
| `OpusWorker.EncoderWorker.PushFrame` | relay/src/audio/opus_worker.rs:382-399 | a whole frame is fed as the specification feeds it |
| `OpusWorker.EncoderWorker.AcceptFrame` | relay/src/audio/opus_worker.rs:359-399 | an aligned frame goes through the boundary rules into packets; a misaligned one is refused |
| `OpusWorker.EncoderWorker.Receive` | relay/src/audio/opus_worker.rs:341-400 | a received frame is refused for the reason the source gives, or accepted |
| `OpusWorker.EncoderWorker.FinishStream` | relay/src/audio/opus_worker.rs:402-416 | the tail is padded and encoded once |
| `OpusWorker.EncoderWorker.ReceiveAll` | relay/src/audio/opus_worker.rs:341-400 | however the loop ends, every received frame and packet is in one counter and every sample taken is in a packet, a loss or pending; without a disconnect it stands where the specification stands |
| `OpusWorker.EncoderWorker.Run` | relay/src/audio/opus_worker.rs:320-419 | the encoded packets are those of the accepted frames' specification, or a prefix when the publisher disconnects; at every exit each frame and packet has one outcome and samples taken + padding = packet size times packets + both discard totals |
| `OpusWorker.ShutdownRefines` | relay/src/audio/opus_worker.rs:402-416 | the packets at the end of a stream are all whole chunks and the padded last tail |
| `OpusWorker.ClockOrdersChannel` | relay/src/audio/opus_worker.rs:260-281 | frames in the channel carry strictly increasing media clock values, whatever was dropped before it |
| `CaptureCutoff.StepKeeps` | relay/src/runtime.rs:602-641 | every step of feeder, encoder or gateway keeps the composed invariant |
| `CaptureCutoff.ExecuteKeeps` | relay/src/runtime.rs:602-641 | every interleaving keeps it |
| `CaptureCutoff.PublishedFramesStaySilent` | relay/src/rtc/gateway.rs:352-361 | in every interleaving, no packet flushed on an attachment holds a sample of a frame whose end time was published before its cutoff was read |
| `CaptureCutoff.QueuedAudioIsDiscarded` | relay/src/rtc/gateway.rs:495-500 | audio anywhere in the pipeline when the cutoff is read never reaches the new attachment |
| `CaptureCutoff.FeederConservesFrames` | relay/src/runtime.rs:602-641 | frames popped = pause drops + queue-full drops + enqueued, and at most one at disconnect or in hand |
| `CaptureCutoff.StampBelowEnd` | relay/src/audio/pcm_packetizer.rs:102-109 | a sample's stamp is below its frame's end time if and only if the stamp has not reached the 64-bit limit |
| `CaptureCutoff.FilterPassesOnlySaturated` | relay/src/rtc/gateway.rs:352-361 | the filter lets an old sample pass only with a saturated stamp |
| `CaptureCutoff.SaturatedClockLeaks` | relay/src/audio/pcm_packetizer.rs:108 | an execution with a saturated clock flushes a sample from before the cutoff |
| `CaptureCutoff.LeakReachesCutoff` | relay/src/rtc/gateway.rs:352-361 | that execution reaches the cutoff comparison and passes it |
| `PublisherControl.RunEvolves` | relay/src/publisher_control.rs:104-158 | under every interleaving the credential only moves forward, revocation is absorbing, and mirror and lock stay consistent |
| `PublisherControl.StepEvolves` | relay/src/publisher_control.rs:104-158 | the same for one step of any thread |
| `PublisherControl.MirrorNeverLies` | relay/src/publisher_control.rs:137-158 | the atomic revision never exceeds the locked one, and from a snapshot on is never below the snapshot's |
| `PublisherControl.RevocationFences` | relay/src/publisher_control.rs:132-158 | after a revocation every snapshot checked later is refused, and no replacement takes effect except one that had already passed its check |
| `PublisherControl.AtMostOneLease` | relay/src/publisher_control.rs:168-183 | at most one lease is outstanding in every run |
| `PublisherControl.DrainFreesTheLock` | relay/src/publisher_control.rs:111-129 | whoever holds the lock leaves it in finitely many own steps, mirror and credential equal |
| `PublisherControl.RelayPublisherControl.Replace` | relay/src/publisher_control.rs:104-129 | succeeds exactly for an unrevoked control and a strictly newer revision and expiry, with other threads acting between its steps |
| `PublisherControl.RelayPublisherControl.TakeSnapshot` | relay/src/publisher_control.rs:146-158 | the answer is decided by the copy made under the lock and the state checked afterwards; a snapshot is unrevoked, unexpired and no older than the credential was |
| `PublisherControl.RelayPublisherControl.RevokeForever` | relay/src/publisher_control.rs:132-134 | sets the absorbing flag |
| `PublisherControl.RelayPublisherControl.ClaimLease` | relay/src/publisher_control.rs:168-174 | succeeds exactly if no lease is outstanding |
| `GroupProtocol.NoMediaWithoutTheWholeGroup` | relay/src/rtc/gateway.rs:417-501 | in every run a group without all its sockets is paused, and media moves only while the whole group is attached, unpaused and not in an admission |
| `GroupProtocol.LegalKeeps` | relay/src/rtc/gateway.rs:410-504 | every legal run keeps sockets, pause, admission, attempts, discontinuities and renewals consistent |
| `GroupProtocol.LegalIsLater` | relay/src/rtc/gateway.rs:410-504 | generations, sequence numbers, revision and attempts never fall, and giving up, revocation and the end are absorbing |
| `GroupProtocol.ReadyGenerationsIncrease` | relay/src/rtc/gateway.rs:525-530 | READY generations of a bus strictly increase over the run, rolled-back admissions included; one that does not is the last |
| `GroupProtocol.ReadyPassesTheStart` | relay/src/rtc/gateway.rs:195-214 | the same against the generation the run started with |
| `GroupProtocol.NoAdmissionAfterGivingUp` | relay/src/rtc/gateway.rs:552-570 | no admission follows a terminal failure class, a credential failure at an unchanged revision, or an observed stop |
| `GroupProtocol.AtMostOneFrameAfterRevocation` | relay/src/rtc/gateway.rs:593-629 | once revocation takes effect at most one more frame of the whole group is sent and counted |
| `GroupProtocol.SentIsCounted` | relay/src/rtc/gateway.rs:388-392 | the sent count of a bus is the number of its sends |
| `GroupProtocol.ReceiptsAfterRevocation` | relay/src/rtc/gateway.rs:593-629 | in the receipts: after a revocation one bus counts at most one more frame, and then no other bus does |
| `GroupProtocol.WrittenOnce` | relay/src/rtc/gateway.rs:606-612 | no encoded frame is handed to a socket twice |
| `GroupProtocol.NothingBeforeTheCutoff` | relay/src/rtc/gateway.rs:352-361 | nothing captured before an attachment's cutoff is written on it |
| `GroupProtocol.SentIncreases` | relay/src/rtc/gateway.rs:645-652 | sequence numbers of a bus strictly increase across drops and re-attachments |
| `GroupProtocol.GapCountsUnsentFrames` | relay/src/rtc/gateway.rs:336-394 | the gap between two consecutive sends of a bus, minus one, is the number of frames its encoder produced in between that were never sent |
| `GroupProtocol.EncodedOnce` | relay/src/audio/opus_worker.rs:260-281 | an encoder numbers its frames one by one: of any range, exactly the numbers produced so far, each once |
| `GroupProtocol.RecoveryAccounting` | relay/src/rtc/gateway.rs:419-504 | at most three attempts a recovery, discontinuities = renewals + reconnects ≤ attempts ≤ 3·(discontinuities + 1), and no more renewals than the revision advanced |
| `GroupProtocol.CountsAgree` | relay/src/rtc/gateway.rs:481-494 | the counts are those of the events |
| `GroupProtocol.CountsOfARun` | relay/src/rtc/gateway.rs:189-233 | from its start, a run's sends, renewals, reconnects and attempts are counts of its events |
| `GroupProtocol.RenewalMeansNewerCredential` | relay/src/rtc/gateway.rs:479-480 | over a whole run, renewals are the attachments under a strictly newer credential than the attachment before, and all others are reconnects |
| `GroupProtocol.LostGenerationCanRepeat` | relay/src/rtc/gateway.rs:109-131 | on any bus, a READY lost with its socket may be repeated and accepted |
| `GroupProtocol.ObservedReadies` | relay/src/rtc/gateway.rs:109-131 | of any two READY messages of a bus the later has the higher generation, or one of them was lost unchecked, or no admission follows |
| `Gateway.Gateway.constructor` | relay/src/rtc/gateway.rs:194-214 | a freshly admitted group is whole and publishing |
| `Gateway.Gateway.Interfere` | relay/src/publisher_control.rs:104-134 | what other threads may do between two reads: replace, revoke, stop, publish capture ends, encode, and let time pass |
| `Gateway.Gateway.EnvironmentStep` | relay/src/publisher_control.rs:104-134 | one such step, of the management thread, the owner, a feeder or an encoder |
| `Gateway.Gateway.MediaStep` | relay/src/runtime.rs:602-641 | a capture end rises, an encoder numbers a frame, or an encoder goes away |
| `Gateway.Gateway.EncodeStep` | relay/src/audio/opus_worker.rs:260-281 | the next frame of a bus gets the next number, queued or lost |
| `Gateway.Gateway.AwaitSocket` | relay/src/rtc/gateway.rs:145-161 | a socket wait ends no later than its deadline |
| `Gateway.Gateway.StillValid` | relay/src/rtc/gateway.rs:593-599 | three separate reads; a positive answer means the control was seen unrevoked since the last send |
| `Gateway.Gateway.FlushUntil` | relay/src/rtc/gateway.rs:613-629 | a written frame is flushed or its socket fails; it is never written again |
| `Gateway.Gateway.SendUntil` | relay/src/rtc/gateway.rs:587-630 | no write without a fresh validity check, and no wait past the deadline |
| `Gateway.Gateway.SendFrame` | relay/src/rtc/gateway.rs:336-394 | each frame is exactly one of cancelled, held back by the cutoff, stale, refused by the encoder, sent or failed |
| `Gateway.Gateway.DeliverFrame` | relay/src/rtc/gateway.rs:368-394 | the sending part: packed, written under the shorter of frame age and credential expiry, and counted by its outcome |
| `Gateway.Gateway.SettleFrame` | relay/src/rtc/gateway.rs:341-393 | any other outcome is counted exactly once on the frame's bus |
| `Gateway.Gateway.CountSent` | relay/src/rtc/gateway.rs:388-393 | a frame its socket took is counted as sent, once |
| `Gateway.Gateway.PollStream` | relay/src/rtc/gateway.rs:293-334 | a poll takes at most one frame, accounts for it, and reports the failure class of a closed or broken socket |
| `Gateway.Gateway.PollQueue` | relay/src/rtc/gateway.rs:325-333 | an empty queue is idle, a gone encoder ends the bus, and otherwise the oldest frame is taken and sent |
| `Gateway.RecoveredCloseCodes` | relay/src/rtc/gateway.rs:302-316 | which close codes lead to recovery: none or normal, away, restart and again |
| `Gateway.Gateway.CloseActive` | relay/src/rtc/gateway.rs:402-408 | takes every socket away and closes them one after the other within one deadline |
| `Gateway.Gateway.CancelUntil` | relay/src/rtc/gateway.rs:145-161 | closing any number of sockets waits no longer than the one deadline |
| `Gateway.Gateway.TakeSnapshot` | relay/src/publisher_control.rs:146-158 | a snapshot is no newer than the control and no older than the credential in use |
| `Gateway.Gateway.AdmissionForbidden` | relay/src/rtc/gateway.rs:515-520 | three separate reads; allowed means the control was neither revoked nor superseded at the start, forbidden that one of the three reasons holds, and a stop is final |
| `Gateway.Gateway.SeesChange` | relay/src/rtc/gateway.rs:515-517 | revocation and revision are read one after the other |
| `Gateway.Gateway.StillStands` | relay/src/rtc/gateway.rs:531-536 | revocation, revision and deadline are read one after the other behind a contact |
| `Gateway.Gateway.RecordReady` | relay/src/rtc/gateway.rs:525-530 | a generation is recorded exactly if it advances |
| `Gateway.Gateway.ContactBus` | relay/src/rtc/gateway.rs:514-530 | one bus of an admission: its READY must pass the highest generation seen, and one lost with its socket raises nothing |
| `Gateway.Gateway.AdmitBus` | relay/src/rtc/gateway.rs:514-537 | one bus of an admission, with its separate checks before and after contacting it, and the failure class of each |
| `Gateway.Gateway.AdmitGroup` | relay/src/rtc/gateway.rs:506-539 | success means every bus was admitted under the one snapshot; failure attaches nothing |
| `Gateway.Gateway.Backoff` | relay/src/rtc/gateway.rs:420-433 | waits 100 ms shifted by the attempt, and gives up at an observed stop or revocation |
| `Gateway.Gateway.Nap` | relay/src/rtc/gateway.rs:422-430 | one turn of the wait: clock, stop and revocation are read one after the other, then one millisecond passes |
| `Gateway.Gateway.AdmissionDeadline` | relay/src/rtc/gateway.rs:435-441 | no later than one second, the recovery budget, the credential's expiry and the startup timeout |
| `Gateway.Gateway.StartAttempt` | relay/src/rtc/gateway.rs:442-447 | the attempt is counted on every bus |
| `Gateway.Gateway.Classify` | relay/src/rtc/gateway.rs:465-477 | only a recoverable failure, or a credential failure at a changed revision, leads to another attempt |
| `Gateway.Gateway.CompareRevision` | relay/src/rtc/gateway.rs:471-477 | the revision read that decides about a credential failure |
| `Gateway.Gateway.RollBack` | relay/src/rtc/gateway.rs:457-478 | a failed admission closes what it opened and leaves the group paused without sockets |
| `Gateway.Gateway.Judge` | relay/src/rtc/gateway.rs:462-477 | the checks behind a failed admission, in order |
| `Gateway.Gateway.EndAdmission` | relay/src/rtc/gateway.rs:457-501 | a finished admission is rolled back or taken over by the whole group |
| `Gateway.Gateway.AttachAll` | relay/src/rtc/gateway.rs:479-501 | every bus gets its socket, its cutoff and the same counts, under the one credential |
| `Gateway.Gateway.RejoinAll` | relay/src/rtc/gateway.rs:481-498 | each bus's counts, cutoff and socket after the loop |
| `Gateway.Gateway.Resurrect` | relay/src/rtc/gateway.rs:479-501 | a complete admission ends in publishing again, credited as a renewal exactly if the credential revision advanced |
| `Gateway.Gateway.AdmitBefore` | relay/src/rtc/gateway.rs:442-501 | one admission ends publishing, recovering or given up |
| `Gateway.Gateway.TryAttempt` | relay/src/rtc/gateway.rs:419-503 | one attempt ends publishing, recovering or given up, within its time |
| `Gateway.Gateway.Reattach` | relay/src/rtc/gateway.rs:410-504 | at most three attempts and 4.5 s of waiting; the whole group is publishing again, every bus credited with a renewal if the credential advanced and with a reconnect otherwise, or it is paused without any socket |
| `Gateway.Gateway.AttemptAll` | relay/src/rtc/gateway.rs:419-503 | the attempt loop within its total time |
| `Gateway.Gateway.BeforeRound` | relay/src/rtc/gateway.rs:240-257 | abort, revocation, renewal and expiry are seen before media moves; a revoked control ends the run |
| `Gateway.Gateway.Recover` | relay/src/rtc/gateway.rs:261-281 | a failure recovers the group exactly when its class and the revision allow it |
| `Gateway.Gateway.PollAll` | relay/src/rtc/gateway.rs:258-282 | every bus is visited unless one fails |
| `Gateway.Gateway.PublishRound` | relay/src/rtc/gateway.rs:240-290 | one round keeps the group whole or ends the run |
| `Gateway.Gateway.PublishGroup` | relay/src/rtc/gateway.rs:235-291 | at every loop head all buses hold sockets of the credential in use, and reported, connected and highest generation are equal |
| `Gateway.Gateway.Shutdown` | relay/src/rtc/gateway.rs:216-224 | the end leaves delivery paused and no socket |
| `Gateway.Gateway.RunWithRecovery` | relay/src/rtc/gateway.rs:189-233 | the events of every run are legal; on every bus the receipt counts its sends, attachments, renewals, reconnects and attempts; every frame taken has one outcome, at most one of the group refused by the packet encoder; and the end is paused without sockets and an error unless stopping or drained |
| `IngressPacket.EncodePacket` | relay/src/rtc/gateway.rs:632-667 | refuses exactly what the source refuses, and otherwise yields header and payload |
| `IngressPacket.Layout` | relay/src/rtc/gateway.rs:650-666 | where each field stands, and a length of 40 bytes plus the payload, at most 1315 |
| `IngressPacket.DecodeInvertsEncode` | relay/src/rtc/gateway.rs:632-667 | a decoder written from the layout recovers channels, sequence, capture time, generation and payload, and the 32-bit timestamp is the sequence times 960 modulo 2^32 |
| `IngressPacket.EncodeInjective` | relay/src/rtc/gateway.rs:632-667 | different accepted frames have different packets |
| `RtpPublisher.Publisher.TryRecvFrame` | relay/src/rtc/publisher.rs:28-48 | Preserve returns the oldest frame, DropStale the newest with all others counted, and nothing only from an empty queue |
| `RtpPublisher.Publisher.ServeStream` | relay/src/rtc/publisher.rs:219-285 | one stream is served, found empty or marked disconnected, and no other stream changes |
| `RtpPublisher.Publisher.Deliver` | relay/src/rtc/publisher.rs:228-280 | stale frames are counted and the fresh one is cancelled or written; the round-robin start moves behind its stream |
| `RtpPublisher.Publisher.ServiceRound` | relay/src/rtc/publisher.rs:217-289 | the first waiting stream from the round-robin start is the one served, and no other stream loses a frame |
| `RtpPublisher.ServiceComesCloser` | relay/src/rtc/publisher.rs:218-219 | serving another stream strictly reduces the distance of a waiting one |
| `RtpPublisher.RoundRobinIsFair` | relay/src/rtc/publisher.rs:217-289 | in any schedule that never passes over a waiting stream, at most n - 1 services of others come first |
| `RtpPublisher.Publisher.ServeUntil` | relay/src/rtc/publisher.rs:217-289 | the loop's services are such a schedule: within n of them a waiting stream is served, unless a write fails |
| `RtpPublisher.DrainedStream` | relay/src/rtc/publisher.rs:290-292 | a drained stream wrote its frames in order except those counted; under Preserve none was stale |
| `RtpPublisher.SettleKeeps` | relay/src/rtc/publisher.rs:236-279 | every consumed frame is in the output in order or in one of the counts |
| `RtpPublisher.SkipKeeps` | relay/src/rtc/publisher.rs:229-235 | so are the frames passed over as stale |
| `RtpPublisher.Publisher.Publish` | relay/src/rtc/publisher.rs:217-292 | on a clean exit every queued frame of every stream was written in order or counted |
| `SubscriberSource.EpochsMarkLoss` | relay/src/source.rs:698-720 | two emitted frames share an epoch if and only if nothing was lost or reordered between them, or the 64-bit epoch was exhausted; then their sequence numbers differ by their distance |
| `SubscriberSource.ConsecutiveOutputs` | relay/src/source.rs:698-785 | consecutive emissions share an epoch if and only if the second is the next frame, contiguous and not behind in RTP time; then the sequence numbers differ by one |
| `SubscriberSource.EpochTimeIsOrdered` | relay/src/source.rs:743-753 | within an epoch two emitted timestamps are in order exactly when the frames' distances from the base are, or the later is saturated; a clock rate that has not risen is enough |
| `SubscriberSource.StampsOrderedExactlyWhen` | relay/src/source.rs:743-753 | the same for any two frames without a step back between them |
| `SubscriberSource.SlowerClockKeepsOrder` | relay/src/source.rs:743-753 | a clock rate that has not risen keeps the order, a fixed one in particular |
| `SubscriberSource.StampIsExact` | relay/src/source.rs:743-753 | a timestamp is the exact rational image rounded down by less than 1 ns, if and only if that fits 64 bits |
| `SubscriberSource.ClockChangeRewinds` | relay/src/source.rs:748-753 | a changed clock rate can make local time run backwards within an epoch |
| `SubscriberSource.Conserved` | relay/src/source.rs:773-785 | every decoded frame was emitted or dropped |
| `SubscriberSource.OneMore` | relay/src/source.rs:698-771 | the driver's few fields determine the meaning of the whole run so far, frame by frame |
| `SubscriberSource.Driver.NoteArrival` | relay/src/source.rs:698-720 | gaps and steps back raise the epoch, and a step back restarts the time base |
| `SubscriberSource.Driver.PlaceInTime` | relay/src/source.rs:742-771 | the frame's local time, duration, number and epoch from the base in use |
| `SubscriberSource.Driver.Decode` | relay/src/source.rs:698-771 | a decoded frame is the newest frame of the run's meaning; a bad packet is an error |
| `SubscriberSource.Driver.Emit` | relay/src/source.rs:787-842 | a frame that finds a buffer is handed on unchanged, and an error hands on nothing |
| `SubscriberSource.Driver.EmissionOrDrop` | relay/src/source.rs:773-785 | without a buffer the frame is dropped and the epoch rises; otherwise it is emitted unchanged |
| `SubscriberSource.Driver.Prepare` | relay/src/source.rs:574-596 | ready means the first frame is decoded and kept |
| `SubscriberSource.Driver.Advance` | relay/src/source.rs:598-640 | the kept frame first, then the next frame that finds a buffer; nothing else is handed on |
| `SubscriberSource.Driver.Run` | relay/src/source.rs:574-640 | what a run hands on is what its frames and outcomes mean, and without an error the epoch is gaps + steps back + drops and received = emitted + dropped |
| `FmtpParams.MergedBinds` | relay/src/rtc/handshake.rs:819-824 | the first occurrence of a wanted key has its wanted value, and no duplicate is added |
| `FmtpParams.MergedKeepsUnrelated` | relay/src/rtc/handshake.rs:819-824 | unrelated parameters stay, in order |
| `FmtpParams.MergedTwice` | relay/src/rtc/handshake.rs:819-824 | merging twice is merging once |
| `FmtpParams.ParsePrint` | relay/src/rtc/handshake.rs:807-830 | printing then parsing gives the parameters back |
| `FmtpParams.MergeTwice` | relay/src/rtc/handshake.rs:807-830 | merging into a text is idempotent if and only if every parameter without a value has a non-empty key without whitespace around it |
| `FmtpParams.TrimmedMergeSettles` | relay/src/rtc/handshake.rs:771-777 | the same for a text whose end is taken for the line's terminator |
| `FmtpParams.MergeReadsBack` | relay/src/rtc/handshake.rs:807-830 | the merged text means the merged parameters |
| `FmtpParams.MergeParams` | relay/src/rtc/handshake.rs:807-830 | the in-place update computes that merge |
| `OpusSdp.MungeOpusParams` | relay/src/rtc/handshake.rs:743-803 | the loops compute the line-by-line meaning |
| `OpusSdp.RewriteLines` | relay/src/rtc/handshake.rs:768-781 | every Opus fmtp line is rewritten and every other line copied |
| `OpusSdp.RewriteLine` | relay/src/rtc/handshake.rs:771-780 | one line |
| `OpusSdp.InsertLines` | relay/src/rtc/handshake.rs:788-802 | a line is added behind every Opus rtpmap line |
| `OpusSdp.FindPayloadType` | relay/src/rtc/handshake.rs:744-754 | the payload type of the first Opus mapping |
| `OpusSdp.WantedIsProper` | relay/src/rtc/handshake.rs:756-764 | the five wanted parameters have distinct keys and nothing that needs escaping |
| `OpusSdp.MungeKeepsLines` | relay/src/rtc/handshake.rs:769-803 | the lines of the result are the lines meant, if and only if nothing has to be added behind an unterminated line |
| `OpusSdp.UnterminatedMappingRunsOn` | relay/src/rtc/handshake.rs:794-801 | an unterminated Opus mapping runs on into its parameters |
| `OpusSdp.OtherLinesStay` | relay/src/rtc/handshake.rs:752-803 | every other line stays byte for byte and in order; without Opus the offer is unchanged |
| `OpusSdp.RewrittenParameters` | relay/src/rtc/handshake.rs:773-777 | a rewritten line binds every wanted key, adds no duplicate and keeps unrelated parameters in order |
| `OpusSdp.AddedParameters` | relay/src/rtc/handshake.rs:788-799 | an added line holds exactly the wanted parameters |
| `OpusSdp.MungeIsIdempotent` | relay/src/rtc/handshake.rs:743-830 | rewriting twice is rewriting once |
| `OpusSdp.MungeIsIdempotentExactlyWhen` | relay/src/rtc/handshake.rs:743-830 | for every offer, the exact condition: every parameter of every Opus fmtp line reads back or, without such a line, none has to be added behind an unterminated last line unless one is added further up too |
| `OpusSdp.RewritingTwice` | relay/src/rtc/handshake.rs:769-785 | the case with an Opus fmtp line |
| `OpusSdp.GluingTwice` | relay/src/rtc/handshake.rs:788-802 | the case of an unterminated rtpmap line at the end |
| `OpusSdp.MappingExtends` | relay/src/rtc/handshake.rs:744-751 | a mapping line with something behind it is still the same mapping |
| `OpusSdp.StandardOffers` | relay/src/rtc/handshake.rs:743-830 | for terminated lines and well-formed parameters (section 7 of RFC 7587, section 6.15 of RFC 8866) the rewriting is idempotent and line by line |
| `StunProbe.Walk` | relay/src/rtc/handshake.rs:207-232 | the offset loop ends with the answer of the recursive type-length-value parse, or trusts the buffer at an attribute that does not fit |
| `StunProbe.WalkIsRightWhen` | relay/src/rtc/handshake.rs:207-232 | exactly when the loop's answer is the one the message contains |
| `StunProbe.WalkOverrunsWhen` | relay/src/rtc/handshake.rs:207-232 | exactly when the loop indexes past its buffer |
| `StunProbe.HeaderAtTheEndOverruns` | relay/src/rtc/handshake.rs:208-214 | a full buffer that ends in a bare address header makes it do so |
| `StunProbe.ClaimBehindTheMessage` | relay/src/rtc/handshake.rs:212-226 | a claim that reaches behind the message is read from the buffer |
| `StunProbe.UnmaskMask` | relay/src/rtc/handshake.rs:217-225 | reading inverts the exclusive-or masking (section 15.2 of RFC 5389) |
| `StunProbe.AttributesInvertEncode` | relay/src/rtc/handshake.rs:207-230 | the parse inverts a server's encoding of any attributes, padding included |
| `StunProbe.ServerAddressIsRead` | relay/src/rtc/handshake.rs:193-232 | whatever attributes surround it and whatever lies behind the message, the server's address is read |
| `StunProbe.ReadResponse` | relay/src/rtc/handshake.rs:193-232 | anything but a whole success response to this transaction is ignored |
| `Receipts.Registry.ReserveReceipts` | relay/src/runtime.rs:253-293 | grants exactly what fits the capacity and collides with nothing, and inserts in order |
| `Receipts.Registry.RemoveReceipts` | relay/src/runtime.rs:339-348 | removes the given keys |
| `Receipts.Registry.TakeResult` | relay/src/runtime.rs:140-145 | takes out a receipt only with its result |
| `Receipts.ApplyKeeps` | relay/src/runtime.rs:174-252 | every critical section of every group keeps the invariant |
| `Receipts.CapacityAndLease` | relay/src/runtime.rs:267-274 | in every run receipts stay within the capacity and at most one group holds the lease |
| `Receipts.NobodyElseRemoves` | relay/src/runtime.rs:140-145 | until its result is set only the group itself can remove a reservation |
| `Receipts.RemovalIsExact` | relay/src/runtime.rs:889-903 | a failed preparation or a cancellation removes exactly the keys the group reserved |
| `Receipts.ReservationIsExact` | relay/src/runtime.rs:253-293 | a refused reservation changes nothing and a granted one adds exactly its keys |
| `Receipts.AbandonedReceiptsStay` | relay/src/runtime.rs:849-857 | the receipt of a worker that ended without a result stays in every later run |
| `Receipts.ReceiptsStayExactlyWhen` | relay/src/runtime.rs:140-145 | the receipt of a finished worker stays in every run if and only if its result was never set |
| `Receipts.AbandonedWorkerExists` | relay/src/runtime.rs:819-831 | a worker that is dropped after its preparation is such a worker |

## Left out

- Networking: TCP, TLS, DNS, WebSocket and RTC libraries appear only as the outcomes the code distinguishes.
- Codecs: Opus encoding and decoding, audio levels and capture-age observations; encoding succeeds or fails.
- Publication without a control: `run` with no recovery, where the first failure of a bus ends the run.
- Poisoned locks: the error paths for an unavailable mutex are not modelled.
- Error texts, retryability reports, configuration parsing, manifests and secret redaction.
- Handshakes and signaling: the ICE and DTLS event loops, proxy negotiation and the subscriber connection.
- All-bus start-up: the first admission in `prepare` of the native transport is represented by its outcome, a freshly admitted group, and by the lease it claims.
- RTC housekeeping: the polling, draining and keepalive steps of the publish loop; their failure ends the loop without a clean exit.
- Counters: plain u64 event counters are naturals and do not wrap or saturate.
- Gateway.Gateway.Reattach: bounds the time spent in socket waits and sleeps, because time taken by the scheduler between two steps has no bound in the source.
- StunProbe.Walk: hands out the eight masked bytes and `ReadResponse` unmasks them, where the source does both in one place.
