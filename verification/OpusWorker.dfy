/**
 The encoder worker (relay/src/audio/opus_worker.rs): intake filter, packet
 assembly, RTP clock, delivery into the bounded encoder-to-publisher channel.

 Whether a generation is still active, whether Opus accepts a packet and what the
 channel answers are outside this code, so every answer is allowed.
 */
module OpusWorker {
  import opened Basics
  import opened PcmPacketizer
  import opened PacketRuns

  /** A received frame together with what the intake checks observe about it. */
  datatype Intake<T> = Intake(sampleRateHz: nat, channels: nat, generationActive: bool, frame: PcmFrame<T>)

  datatype DeliveryPolicy = PreserveWithBackpressure | DropNewest

  datatype ChannelAnswer = Taken | Full | Disconnected

  /** An encoded frame; the packet it was made from stands for the Opus payload. */
  datatype EncodedFrame<T> = EncodedFrame(rtpTime: nat, packet: PcmPacket<T>)

  /** What became of a packet handed to the encoder. */
  datatype PacketFate = CancelledBefore | EncodeFailed | CancelledAfter | Delivered | ChannelFull | PublisherGone

  /** The encoder turned the packet into a frame, which takes up one step of the media clock. */
  predicate Encodes(fate: PacketFate) {
    !fate.CancelledBefore? && !fate.EncodeFailed?
  }

  // ----- Intake -----

  datatype Verdict = Accept | CountError | CountCancelled

  function Judge<T>(x: Intake<T>, channels: nat): Verdict
    requires channels > 0
  {
    if x.sampleRateHz != SAMPLE_RATE_HZ || x.channels != channels then CountError
    else if x.frame.generation.Some? && !x.generationActive then CountCancelled
    else if |x.frame.samples| % channels != 0 then CountError
    else Accept
  }

  function Accepted<T>(intake: seq<Intake<T>>, channels: nat): seq<PcmFrame<T>>
    requires channels > 0
  {
    if |intake| == 0 then []
    else
      var before := Accepted(intake[..|intake| - 1], channels);
      var x := intake[|intake| - 1];
      if Judge(x, channels).Accept? then before + [x.frame] else before
  }

  function RefusedCount<T>(intake: seq<Intake<T>>, channels: nat): nat
    requires channels > 0
  {
    if |intake| == 0 then 0
    else RefusedCount(intake[..|intake| - 1], channels) + (if Judge(intake[|intake| - 1], channels).Accept? then 0 else 1)
  }

  lemma {:induction false} AcceptedPrefix<T>(intake: seq<Intake<T>>, n: nat, channels: nat)
    requires channels > 0
    requires n <= |intake|
    ensures Accepted(intake[..n], channels) <= Accepted(intake, channels)
    decreases |intake|
  {
    if n < |intake| {
      var rest := intake[..|intake| - 1];
      AcceptedPrefix(rest, n, channels);
      assert rest[..n] == intake[..n];
    } else {
      assert intake[..n] == intake;
    }
  }

  lemma {:induction false} AssemblePrefix<T>(frames: seq<PcmFrame<T>>, n: nat, channels: nat)
    requires channels > 0
    requires n <= |frames|
    ensures Assemble(frames[..n], channels).1 <= Assemble(frames, channels).1
    decreases |frames|
  {
    if n < |frames| {
      var rest := frames[..|frames| - 1];
      AssemblePrefix(rest, n, channels);
      assert rest[..n] == frames[..n];
    } else {
      assert frames[..n] == frames;
    }
  }

  /** What is assembled from part of the intake is the beginning of what all of it assembles to. */
  lemma {:induction false} PartialIntake<T>(intake: seq<Intake<T>>, n: nat, channels: nat)
    requires channels > 0
    requires n <= |intake|
    ensures Assemble(Accepted(intake[..n], channels), channels).1 <= StreamPackets(Accepted(intake, channels), channels)
  {
    var all := Accepted(intake, channels);
    var some := Accepted(intake[..n], channels);
    AcceptedPrefix(intake, n, channels);
    assert all[..|some|] == some;
    AssemblePrefix(all, |some|, channels);
    AssembleRefines(all, channels);
  }

  // ----- The RTP clock -----

  function ClockAt(ordinal: nat): nat {
    Min(U64_MAX, OPUS_FRAME_SAMPLES * ordinal)
  }

  predicate StrictlyIncreasing(s: seq<nat>) {
    forall i, j :: 0 <= i < j < |s| ==> s[i] < s[j]
  }

  /**
   The channel received, in order, a subsequence of the assembled packets
   (`origins`), each stamped with its rank among the encoded ones (`ordinals`).
   */
  ghost predicate Sequenced<T>(
    encoded: seq<EncodedFrame<T>>, assembled: seq<PcmPacket<T>>,
    origins: seq<nat>, ordinals: seq<nat>, packetsOut: nat)
  {
    && |encoded| == |origins| == |ordinals|
    && StrictlyIncreasing(origins)
    && StrictlyIncreasing(ordinals)
    && (forall i :: 0 <= i < |encoded| ==>
          && origins[i] < |assembled|
          && ordinals[i] < packetsOut
          && encoded[i].packet == assembled[origins[i]]
          && encoded[i].rtpTime == ClockAt(ordinals[i]))
  }

  lemma {:induction false} SequencedGrows<T>(
    encoded: seq<EncodedFrame<T>>, assembled: seq<PcmPacket<T>>,
    origins: seq<nat>, ordinals: seq<nat>, packetsOut: nat, packet: PcmPacket<T>)
    requires Sequenced(encoded, assembled, origins, ordinals, packetsOut)
    ensures Sequenced(encoded, assembled + [packet], origins, ordinals, packetsOut)
    ensures Sequenced(encoded, assembled + [packet], origins, ordinals, packetsOut + 1)
    ensures Sequenced(encoded + [EncodedFrame(ClockAt(packetsOut), packet)], assembled + [packet],
                      origins + [|assembled|], ordinals + [packetsOut], packetsOut + 1)
  {
  }

  /** Until the 64-bit sample clock saturates, channel order is strict clock order in whole frames. */
  lemma {:induction false} ClockOrdersChannel<T>(
    encoded: seq<EncodedFrame<T>>, assembled: seq<PcmPacket<T>>,
    origins: seq<nat>, ordinals: seq<nat>, packetsOut: nat, i: nat, j: nat)
    requires Sequenced(encoded, assembled, origins, ordinals, packetsOut)
    requires OPUS_FRAME_SAMPLES * packetsOut <= U64_MAX
    requires i < j < |encoded|
    ensures encoded[i].rtpTime % OPUS_FRAME_SAMPLES == 0
    ensures encoded[i].rtpTime / OPUS_FRAME_SAMPLES == ordinals[i]
    ensures encoded[i].rtpTime < encoded[j].rtpTime
  {
    assert ordinals[i] < ordinals[j] < packetsOut;
    assert OPUS_FRAME_SAMPLES * ordinals[i] < OPUS_FRAME_SAMPLES * packetsOut;
  }

  // ----- One frame at a time -----

  /** The assembler, what it has emitted and what it has lost so far. */
  datatype Progress<T> = Progress(assembly: Assembly<T>, packets: seq<PcmPacket<T>>, losses: Boundary)

  function Take<T>(p: Progress<T>, f: PcmFrame<T>, channels: nat): Progress<T>
    requires channels > 0
    requires |p.assembly.pending| < PacketSamples(channels)
  {
    var lost := BeginBoundary(p.assembly, f.sequence, f.generation);
    var r := Feed(Begin(p.assembly, f.sequence, f.generation), f, 0, channels);
    Progress(r.0, p.packets + r.1,
             Boundary(p.losses.discontinuityDiscarded + lost.discontinuityDiscarded,
                      p.losses.cancelledDiscarded + lost.cancelledDiscarded))
  }

  function After<T>(frames: seq<PcmFrame<T>>, channels: nat): (p: Progress<T>)
    requires channels > 0
    ensures |p.assembly.pending| < PacketSamples(channels)
  {
    Progress(Assemble(frames, channels).0, Assemble(frames, channels).1, ReportedLosses(frames, channels))
  }

  function PaddingFor<T>(a: Assembly<T>, channels: nat): nat
    requires |a.pending| < PacketSamples(channels)
  {
    if a.pending == [] then 0 else PacketSamples(channels) - |a.pending|
  }

  function Padded<T>(a: Assembly<T>, channels: nat, silence: T): seq<PcmPacket<T>>
    requires |a.pending| < PacketSamples(channels)
  {
    if a.pending == [] then []
    else [PcmPacket(a.pending + seq(PaddingFor(a, channels), _ => silence), a.timestampNs, a.generation)]
  }

  /** What an orderly shutdown leaves behind, in terms of the reference packetization. */
  lemma {:induction false} ShutdownRefines<T>(frames: seq<PcmFrame<T>>, channels: nat, silence: T)
    requires channels > 0
    ensures var p := After(frames, channels);
            && p.packets + Padded(p.assembly, channels, silence) == FinalPackets(frames, channels, silence)
            && p.losses == StreamLosses(frames, channels)
            && |Samples(frames)| + PaddingFor(p.assembly, channels) ==
               PacketSamples(channels) * |FinalPackets(frames, channels, silence)|
               + p.losses.discontinuityDiscarded + p.losses.cancelledDiscarded
  {
    AssembleRefines(frames, channels);
    LossesRefine(frames, channels);
    ShutdownConserved(frames, channels, silence);
    SplitRunsShape(frames);
  }

  /** How one received frame extends the accepted frames and the account of them. */
  lemma {:induction false} AcceptedStep<T>(intake: seq<Intake<T>>, i: nat, channels: nat)
    requires channels > 0
    requires i < |intake|
    ensures var before := Accepted(intake[..i], channels);
            var after := Accepted(intake[..i + 1], channels);
            && RefusedCount(intake[..i + 1], channels) ==
               RefusedCount(intake[..i], channels) + (if Judge(intake[i], channels).Accept? then 0 else 1)
            && After(after, channels) ==
               if Judge(intake[i], channels).Accept? then Take(After(before, channels), intake[i].frame, channels)
               else After(before, channels)
  {
    assert intake[..i + 1][..i] == intake[..i];
    var before := Accepted(intake[..i], channels);
    assert (before + [intake[i].frame])[..|before|] == before;
  }

  lemma {:induction false} NoSamples<T>(channels: nat)
    requires channels > 0
    ensures Samples(Accepted<T>([], channels)) == []
  {
  }

  lemma {:induction false} SamplesStep<T>(intake: seq<Intake<T>>, i: nat, channels: nat)
    requires channels > 0 && i < |intake|
    ensures |Samples(Accepted(intake[..i + 1], channels))| == |Samples(Accepted(intake[..i], channels))|
              + (if Judge(intake[i], channels).Accept? then |intake[i].frame.samples| else 0)
  {
    assert intake[..i + 1][..i] == intake[..i];
    SamplesSnoc(Accepted(intake[..i], channels), intake[i].frame);
  }

  /** The publisher went away in the middle of the last received frame: what was taken ends inside that frame. */
  ghost predicate Interrupted<T>(intake: seq<Intake<T>>, received: nat, consumed: nat, channels: nat)
    requires channels > 0
  {
    && 0 < received <= |intake| && Judge(intake[received - 1], channels).Accept?
    && |Samples(Accepted(intake[..received - 1], channels))| < consumed <= |Samples(Accepted(intake[..received], channels))|
  }

  class EncoderWorker<T> {
    const packetizer: Packetizer<T>
    const policy: DeliveryPolicy
    var packetOutput: Option<nat>
    var rtpSampleCount: nat
    // Shared counters.
    var normalizationPartialSamplesDiscarded: nat
    var cancelledOutputSamples: nat
    var normalizationTailPaddingSamplesTotal: nat
    var opusPacketsOut: nat
    var opusEncodeErrors: nat
    var cancelledOutputFrames: nat
    var encodedChannelDrops: nat
    /** Frames taken by the encoder-to-publisher channel, in order. */
    var encoded: seq<EncodedFrame<T>>
    /** The publisher side of that channel has gone away. */
    var disconnected: bool
    /** Every packet handed to the encoder, in order. */
    ghost var assembled: seq<PcmPacket<T>>
    ghost var origins: seq<nat>
    ghost var ordinals: seq<nat>

    ghost predicate Valid()
      reads this, packetizer
    {
      && packetizer.Valid()
      && packetOutput == packetizer.outputGenerationId
      && rtpSampleCount == ClockAt(opusPacketsOut)
      && Sequenced(encoded, assembled, origins, ordinals, opusPacketsOut)
    }

    /** Frames and packets this worker has disposed of, over all of its counters. */
    ghost function Disposed(): nat
      reads this
    {
      cancelledOutputFrames + opusEncodeErrors + |encoded| + encodedChannelDrops + (if disconnected then 1 else 0)
    }

    ghost function SampleLosses(): Boundary
      reads this
    {
      Boundary(normalizationPartialSamplesDiscarded, cancelledOutputSamples)
    }

    /** Samples in packets, in losses, and still pending; a packet the publisher did not take is not pending any more. */
    ghost function Weight(): nat
      requires packetizer.Valid()
      reads this, packetizer, packetizer.samples
    {
      PacketSamples(packetizer.channels) * |assembled| + (if disconnected then 0 else |packetizer.View().pending|)
        + normalizationPartialSamplesDiscarded + cancelledOutputSamples
    }

    ghost function Reached(): Progress<T>
      requires packetizer.Valid()
      reads this, packetizer, packetizer.samples
    {
      Progress(packetizer.View(), assembled, SampleLosses())
    }

    constructor (channels: nat, silence: T, policy: DeliveryPolicy)
      requires 1 <= channels <= 2
      ensures Valid() && fresh(packetizer) && fresh(packetizer.samples)
      ensures packetizer.channels == channels && packetizer.silence == silence && this.policy == policy
      ensures packetizer.View() == EmptyAssembly()
      ensures assembled == [] && encoded == [] && !disconnected && Disposed() == 0
      ensures SampleLosses() == Boundary(0, 0) && normalizationTailPaddingSamplesTotal == 0
    {
      this.policy := policy;
      packetizer := new Packetizer<T>(channels, silence);
      packetOutput, rtpSampleCount := None, 0;
      normalizationPartialSamplesDiscarded, cancelledOutputSamples := 0, 0;
      normalizationTailPaddingSamplesTotal := 0;
      opusPacketsOut, opusEncodeErrors, cancelledOutputFrames, encodedChannelDrops := 0, 0, 0, 0;
      encoded, disconnected, assembled, origins, ordinals := [], false, [], [], [];
    }

    /**
     Encodes one assembled packet and offers it to the publisher; false ends the worker. The
     packet takes up one step of the media clock exactly if it was encoded, and ends in one counter.
     */
    method EncodeAndDeliver(samples: seq<T>, captureTimestampNs: nat) returns (alive: bool, ghost fate: PacketFate)
      requires Valid() && !disconnected
      modifies this`opusPacketsOut, this`opusEncodeErrors, this`cancelledOutputFrames, this`encodedChannelDrops,
               this`rtpSampleCount, this`encoded, this`disconnected, this`assembled, this`origins, this`ordinals
      ensures Valid()
      ensures alive == !disconnected == !fate.PublisherGone?
      ensures assembled == old(assembled) + [PcmPacket(samples, captureTimestampNs, packetOutput)]
      ensures Disposed() == old(Disposed()) + 1
      ensures opusPacketsOut == old(opusPacketsOut) + (if Encodes(fate) then 1 else 0)
      ensures encoded == old(encoded) + (if fate.Delivered? then [EncodedFrame(ClockAt(old(opusPacketsOut)), assembled[|old(assembled)|])] else [])
      ensures opusEncodeErrors == old(opusEncodeErrors) + (if fate.EncodeFailed? then 1 else 0)
      ensures encodedChannelDrops == old(encodedChannelDrops) + (if fate.ChannelFull? then 1 else 0)
    {
      hide Sequenced;
      var packet := PcmPacket(samples, captureTimestampNs, packetOutput);
      SequencedGrows(encoded, assembled, origins, ordinals, opusPacketsOut, packet);
      assembled := assembled + [packet];
      var activeBeforeEncoding: bool := *;
      if packetOutput.Some? && !activeBeforeEncoding {
        cancelledOutputFrames := cancelledOutputFrames + 1;
        return true, CancelledBefore;
      }
      var encodes: bool := *;
      if !encodes {
        opusEncodeErrors := opusEncodeErrors + 1;
        return true, EncodeFailed;
      }
      var frame := EncodedFrame(rtpSampleCount, packet);
      opusPacketsOut := opusPacketsOut + 1;
      rtpSampleCount := SatAdd(rtpSampleCount, OPUS_FRAME_SAMPLES);
      alive, fate := DeliverEncodedFrame(frame);
    }

    /** Offers the frame just encoded to the publisher. */
    method DeliverEncodedFrame(frame: EncodedFrame<T>) returns (alive: bool, ghost fate: PacketFate)
      requires Valid() && !disconnected && |assembled| > 0 && opusPacketsOut > 0
      requires frame.packet.generation == packetOutput
      requires Sequenced(encoded + [frame], assembled, origins + [|assembled| - 1], ordinals + [opusPacketsOut - 1], opusPacketsOut)
      modifies this`cancelledOutputFrames, this`encodedChannelDrops, this`encoded, this`disconnected, this`origins, this`ordinals
      ensures Valid()
      ensures Encodes(fate) && alive == !disconnected == !fate.PublisherGone?
      ensures Disposed() == old(Disposed()) + 1
      ensures encoded == old(encoded) + (if fate.Delivered? then [frame] else [])
      ensures encodedChannelDrops == old(encodedChannelDrops) + (if fate.ChannelFull? then 1 else 0)
    {
      hide Sequenced;
      var activeBeforeDelivery: bool := *;
      if packetOutput.Some? && !activeBeforeDelivery {
        cancelledOutputFrames := cancelledOutputFrames + 1;
        return true, CancelledAfter;
      }
      var answer: ChannelAnswer := *;
      if answer.Taken? {
        encoded := encoded + [frame];
        origins := origins + [|assembled| - 1];
        ordinals := ordinals + [opusPacketsOut - 1];
        return true, Delivered;
      }
      if answer.Full? && policy.DropNewest? {
        encodedChannelDrops := encodedChannelDrops + 1;
        return true, ChannelFull;
      }
      disconnected := true;
      return false, PublisherGone;
    }

    /** One `push` of a begun frame, and the packet it may complete. */
    method PushOnce(frame: PcmFrame<T>, offset: nat) returns (next: nat)
      requires Valid() && !disconnected
      requires |packetizer.View().pending| < PacketSamples(packetizer.channels)
      requires offset < |frame.samples|
      modifies this, packetizer, packetizer.samples
      ensures Valid()
      ensures SampleLosses() == old(SampleLosses())
      ensures normalizationTailPaddingSamplesTotal == old(normalizationTailPaddingSamplesTotal)
      ensures Disposed() - |assembled| == old(Disposed() - |assembled|)
      ensures offset < next <= |frame.samples|
      ensures Weight() == old(Weight()) + (next - offset)
      ensures !disconnected ==>
                && |packetizer.View().pending| < PacketSamples(packetizer.channels)
                && var before := Feed(old(packetizer.View()), frame, offset, packetizer.channels);
                && var after := Feed(packetizer.View(), frame, next, packetizer.channels);
                && after.0 == before.0
                && assembled + after.1 == old(assembled) + before.1
      ensures disconnected ==>
                assembled <= old(assembled) + Feed(old(packetizer.View()), frame, offset, packetizer.channels).1
    {
      hide Sequenced;
      var copied := packetizer.PushSamples(frame.samples[offset..], frame.timestampNs, offset);
      next := offset + copied;
      var complete := packetizer.CompletePacket();
      if complete.Some? {
        Distribute(PacketSamples(packetizer.channels), |assembled|, 1);
        var alive, _ := EncodeAndDeliver(complete.value.0, complete.value.1);
        if alive {
          packetizer.FinishPacket();
        }
      }
    }

    /** Pushes one begun frame through the packetizer. */
    method PushFrame(frame: PcmFrame<T>) returns (ghost consumed: nat)
      requires Valid() && !disconnected
      requires |packetizer.View().pending| < PacketSamples(packetizer.channels)
      modifies this, packetizer, packetizer.samples
      ensures Valid()
      ensures SampleLosses() == old(SampleLosses())
      ensures normalizationTailPaddingSamplesTotal == old(normalizationTailPaddingSamplesTotal)
      ensures Disposed() - |assembled| == old(Disposed() - |assembled|)
      ensures Weight() == old(Weight()) + consumed
      ensures if disconnected then 0 < consumed <= |frame.samples| else consumed == |frame.samples|
      ensures !disconnected ==>
                && var r := Feed(old(packetizer.View()), frame, 0, packetizer.channels);
                && packetizer.View() == r.0
                && assembled == old(assembled) + r.1
      ensures disconnected ==>
                assembled <= old(assembled) + Feed(old(packetizer.View()), frame, 0, packetizer.channels).1
    {
      hide Sequenced;
      ghost var goal := Feed(packetizer.View(), frame, 0, packetizer.channels);
      var offset := 0;
      while offset < |frame.samples| && !disconnected
        invariant Valid()
        invariant offset <= |frame.samples|
        invariant SampleLosses() == old(SampleLosses())
        invariant normalizationTailPaddingSamplesTotal == old(normalizationTailPaddingSamplesTotal)
        invariant Disposed() - |assembled| == old(Disposed() - |assembled|)
        invariant Weight() == old(Weight()) + offset
        invariant disconnected ==> offset > 0
        invariant disconnected ==> assembled <= old(assembled) + goal.1
        invariant !disconnected ==> |packetizer.View().pending| < PacketSamples(packetizer.channels)
        invariant !disconnected ==> Feed(packetizer.View(), frame, offset, packetizer.channels).0 == goal.0
        invariant !disconnected ==>
                    assembled + Feed(packetizer.View(), frame, offset, packetizer.channels).1 == old(assembled) + goal.1
      {
        offset := PushOnce(frame, offset);
      }
      consumed := offset;
    }

    /** A frame of the right rate, layout and output; the packetizer may still find it misaligned. */
    method AcceptFrame(frame: PcmFrame<T>) returns (aligned: bool, ghost consumed: nat)
      requires Valid() && !disconnected
      requires |packetizer.View().pending| < PacketSamples(packetizer.channels)
      modifies this, packetizer, packetizer.samples
      ensures Valid()
      ensures normalizationTailPaddingSamplesTotal == old(normalizationTailPaddingSamplesTotal)
      ensures Disposed() - |assembled| == old(Disposed() - |assembled|)
      ensures Weight() == old(Weight()) + consumed
      ensures if disconnected then 0 < consumed <= |frame.samples| else consumed == if aligned then |frame.samples| else 0
      ensures aligned <==> |frame.samples| % packetizer.channels == 0
      ensures !aligned ==> !disconnected && Reached() == old(Reached())
      ensures aligned && !disconnected ==> Reached() == Take(old(Reached()), frame, packetizer.channels)
      ensures disconnected ==> assembled <= Take(old(Reached()), frame, packetizer.channels).packets
    {
      hide Sequenced, Feed;
      var begun := packetizer.BeginFrame(frame.sequence, |frame.samples|, frame.generation);
      if begun.Rejected? {
        return false, 0;
      }
      aligned := true;
      if packetizer.outputGenerationId != packetOutput {
        packetOutput := frame.generation;
      }
      normalizationPartialSamplesDiscarded := normalizationPartialSamplesDiscarded + begun.boundary.discontinuityDiscarded;
      cancelledOutputSamples := cancelledOutputSamples + begun.boundary.cancelledDiscarded;
      consumed := PushFrame(frame);
    }

    /** One iteration of the worker loop. */
    method Receive(x: Intake<T>) returns (ghost consumed: nat)
      requires Valid() && !disconnected
      requires |packetizer.View().pending| < PacketSamples(packetizer.channels)
      modifies this, packetizer, packetizer.samples
      ensures Valid()
      ensures normalizationTailPaddingSamplesTotal == old(normalizationTailPaddingSamplesTotal)
      ensures Disposed() - |assembled| ==
              old(Disposed() - |assembled|) + (if Judge(x, packetizer.channels).Accept? then 0 else 1)
      ensures Weight() == old(Weight()) + consumed
      ensures if disconnected then 0 < consumed <= |x.frame.samples|
              else consumed == if Judge(x, packetizer.channels).Accept? then |x.frame.samples| else 0
      ensures !Judge(x, packetizer.channels).Accept? ==> !disconnected && Reached() == old(Reached())
      ensures Judge(x, packetizer.channels).Accept? && !disconnected ==>
                Reached() == Take(old(Reached()), x.frame, packetizer.channels)
      ensures disconnected ==>
                && Judge(x, packetizer.channels).Accept?
                && assembled <= Take(old(Reached()), x.frame, packetizer.channels).packets
    {
      consumed := 0;
      if x.sampleRateHz != SAMPLE_RATE_HZ || x.channels != packetizer.channels {
        opusEncodeErrors := opusEncodeErrors + 1;
        return;
      }
      if x.frame.generation.Some? && !x.generationActive {
        cancelledOutputFrames := cancelledOutputFrames + 1;
        return;
      }
      var aligned;
      aligned, consumed := AcceptFrame(x.frame);
      if !aligned {
        opusEncodeErrors := opusEncodeErrors + 1;
      }
    }

    /** Orderly shutdown: pads and delivers the last partial packet. */
    method FinishStream()
      requires Valid() && !disconnected
      requires |packetizer.View().pending| < PacketSamples(packetizer.channels)
      modifies this, packetizer, packetizer.samples
      ensures Valid()
      ensures SampleLosses() == old(SampleLosses())
      ensures Disposed() - |assembled| == old(Disposed() - |assembled|)
      ensures normalizationTailPaddingSamplesTotal ==
              old(normalizationTailPaddingSamplesTotal) + PaddingFor(old(packetizer.View()), packetizer.channels)
      ensures assembled == old(assembled) + Padded(old(packetizer.View()), packetizer.channels, packetizer.silence)
      ensures old(packetizer.View()).pending == [] ==> !disconnected
    {
      var padding := packetizer.PadTail();
      if padding.Some? {
        normalizationTailPaddingSamplesTotal := normalizationTailPaddingSamplesTotal + padding.value;
        var complete := packetizer.CompletePacket();
        if complete.Some? {
          var _, _ := EncodeAndDeliver(complete.value.0, complete.value.1);
        }
      }
    }

    /**
     The worker loop, until the feeder closes the channel or the publisher disconnects. Every
     received frame and every packet ends in one counter, and every sample taken from a frame is
     in a packet, in a loss or pending, however the loop ends.
     */
    method ReceiveAll(intake: seq<Intake<T>>) returns (ghost received: nat, ghost consumed: nat)
      requires Valid() && !disconnected
      requires Reached() == After([], packetizer.channels)
      modifies this, packetizer, packetizer.samples
      ensures Valid()
      ensures normalizationTailPaddingSamplesTotal == old(normalizationTailPaddingSamplesTotal)
      ensures received <= |intake|
      ensures Disposed() - |assembled| == old(Disposed()) + RefusedCount(intake[..received], packetizer.channels)
      ensures Weight() == consumed
      ensures !disconnected ==>
                && received == |intake|
                && consumed == |Samples(Accepted(intake, packetizer.channels))|
                && Reached() == After(Accepted(intake, packetizer.channels), packetizer.channels)
      ensures disconnected ==> Interrupted(intake, received, consumed, packetizer.channels)
      ensures disconnected ==> assembled <= StreamPackets(Accepted(intake, packetizer.channels), packetizer.channels)
    {
      hide Samples, StreamPackets;
      ghost var channels := packetizer.channels;
      consumed := 0;
      NoSamples<T>(channels);
      for i := 0 to |intake|
        invariant Valid() && !disconnected
        invariant Reached() == After(Accepted(intake[..i], channels), channels)
        invariant Disposed() - |assembled| == old(Disposed()) + RefusedCount(intake[..i], channels)
        invariant Weight() == consumed == |Samples(Accepted(intake[..i], channels))|
        invariant normalizationTailPaddingSamplesTotal == old(normalizationTailPaddingSamplesTotal)
      {
        AcceptedStep(intake, i, channels);
        SamplesStep(intake, i, channels);
        ghost var taken := Receive(intake[i]);
        consumed := consumed + taken;
        if disconnected {
          PartialIntake(intake, i + 1, channels);
          received := i + 1;
          return;
        }
      }
      assert intake[..|intake|] == intake;
      received := |intake|;
    }

    /**
     The whole worker. What reaches the encoder is exactly the reference packetization
     of the accepted frames, or a prefix of it when the publisher disconnects. However the
     worker ends, every received frame and every packet is in exactly one counter, and the samples
     taken plus the padding are the samples of the packets plus both discard totals.
     */
    method Run(intake: seq<Intake<T>>) returns (ghost received: nat, ghost consumed: nat)
      requires Valid() && !disconnected
      requires Reached() == After([], packetizer.channels)
      requires Disposed() == 0 && normalizationTailPaddingSamplesTotal == 0
      modifies this, packetizer, packetizer.samples
      ensures Valid()
      ensures assembled <= FinalPackets(Accepted(intake, packetizer.channels), packetizer.channels, packetizer.silence)
      ensures received <= |intake|
      ensures Disposed() == |assembled| + RefusedCount(intake[..received], packetizer.channels)
      ensures consumed + normalizationTailPaddingSamplesTotal ==
              PacketSamples(packetizer.channels) * |assembled|
              + normalizationPartialSamplesDiscarded + cancelledOutputSamples
      ensures Interrupted(intake, received, consumed, packetizer.channels)
              || (received == |intake| && consumed == |Samples(Accepted(intake, packetizer.channels))|)
      ensures !disconnected ==>
                var frames := Accepted(intake, packetizer.channels);
                && received == |intake| && consumed == |Samples(frames)|
                && assembled == FinalPackets(frames, packetizer.channels, packetizer.silence)
                && SampleLosses() == StreamLosses(frames, packetizer.channels)
    {
      hide Samples, Interrupted;
      received, consumed := ReceiveAll(intake);
      if disconnected {
        return;
      }
      assert intake[..received] == intake;
      ghost var frames := Accepted(intake, packetizer.channels);
      ShutdownRefines(frames, packetizer.channels, packetizer.silence);
      FinishStream();
    }
  }
}
