/**
 Fixed-capacity PCM packetization (relay/src/audio/pcm_packetizer.rs).

 Samples are an abstract type: nothing here depends on what a sample is, so the
 same definitions serve for audio and for samples tagged with their origin.
 */
module PcmPacketizer {
  import opened Basics

  const MAX_INTERLEAVED_SAMPLES: nat := 2 * OPUS_FRAME_SAMPLES

  datatype PacketizerError =
    | UnsupportedChannelCount(channels: nat)
    | UnsupportedSampleRate(sampleRateHz: nat)
    | MisalignedInput(samples: nat, channelCount: nat)

  /** What `begin_frame` reports about a partial packet it removed. */
  datatype Boundary = Boundary(discontinuityDiscarded: nat, cancelledDiscarded: nat)

  datatype BeginResult = Began(boundary: Boundary) | Rejected(error: PacketizerError)

  /** A source frame whose samples are interleaved over the configured channels. */
  datatype PcmFrame<T> = PcmFrame(sequence: nat, generation: Option<nat>, timestampNs: nat, samples: seq<T>)

  datatype PcmPacket<T> = PcmPacket(samples: seq<T>, timestampNs: nat, generation: Option<nat>)

  /** The logical content of a packetizer: the partial packet and what it expects next. */
  datatype Assembly<T> = Assembly(
    pending: seq<T>,
    timestampNs: nat,
    expected: Option<nat>,
    generation: Option<nat>)

  function EmptyAssembly<T>(): Assembly<T> {
    Assembly([], 0, None, None)
  }

  function PacketSamples(channels: nat): nat {
    OPUS_FRAME_SAMPLES * channels
  }

  /** Capture time of the sample at `offset` of a frame stamped `timestampNs`. */
  function StampAtOffset(timestampNs: nat, offset: nat, channels: nat): nat
    requires channels > 0
  {
    SatAdd(timestampNs, FramesToNs(offset / channels))
  }

  function NextSequence(sequence: nat): nat {
    SatAdd(sequence, 1)
  }

  predicate SequenceChanged<T>(a: Assembly<T>, sequence: nat) {
    a.expected.Some? && a.expected.value != sequence
  }

  predicate OutputChanged<T>(a: Assembly<T>, generation: Option<nat>) {
    a.pending != [] && a.generation != generation
  }

  function BeginBoundary<T>(a: Assembly<T>, sequence: nat, generation: Option<nat>): Boundary {
    Boundary(
      if SequenceChanged(a, sequence) && !OutputChanged(a, generation) then |a.pending| else 0,
      if OutputChanged(a, generation) then |a.pending| else 0)
  }

  function Begin<T>(a: Assembly<T>, sequence: nat, generation: Option<nat>): Assembly<T> {
    var discard := SequenceChanged(a, sequence) || OutputChanged(a, generation);
    Assembly(
      if discard then [] else a.pending,
      if discard then 0 else a.timestampNs,
      Some(NextSequence(sequence)),
      generation)
  }

  function PushCount<T>(a: Assembly<T>, input: seq<T>, packetSamples: nat): nat
    requires |a.pending| <= packetSamples
  {
    Min(|input|, packetSamples - |a.pending|)
  }

  function Push<T>(a: Assembly<T>, input: seq<T>, timestampNs: nat, offset: nat, channels: nat): Assembly<T>
    requires channels > 0 && |a.pending| <= PacketSamples(channels)
  {
    a.(pending := a.pending + input[..PushCount(a, input, PacketSamples(channels))],
       timestampNs := if a.pending == [] then StampAtOffset(timestampNs, offset, channels) else a.timestampNs)
  }

  function Finish<T>(a: Assembly<T>): Assembly<T> {
    a.(pending := [], timestampNs := 0)
  }

  /** The packetizer: one packet's worth of room, filled from the front by successive pushes. */
  class Packetizer<T> {
    const samples: array<T>
    const silence: T
    const channels: nat
    var written: nat
    var packetTimestampNs: nat
    var expectedSequenceNumber: Option<nat>
    var outputGenerationId: Option<nat>

    ghost predicate Valid()
      reads this
    {
      && 1 <= channels <= 2
      && samples.Length == MAX_INTERLEAVED_SAMPLES
      && written <= PacketSamples(channels)
    }

    ghost function View(): Assembly<T>
      requires Valid()
      reads this, samples
    {
      Assembly(samples[..written], packetTimestampNs, expectedSequenceNumber, outputGenerationId)
    }

    constructor (channels: nat, silence: T)
      requires 1 <= channels <= 2
      ensures Valid() && fresh(samples)
      ensures this.channels == channels && this.silence == silence
      ensures View() == EmptyAssembly()
    {
      this.samples := new T[MAX_INTERLEAVED_SAMPLES](_ => silence);
      this.silence := silence;
      this.channels := channels;
      written := 0;
      packetTimestampNs := 0;
      expectedSequenceNumber := None;
      outputGenerationId := None;
    }

    /** `PcmPacketizer::new`: refuses everything but 48 kHz mono or stereo. */
    static method Create(sampleRateHz: nat, channels: nat, silence: T)
      returns (packetizer: Packetizer?<T>, error: Option<PacketizerError>)
      ensures packetizer != null <==> sampleRateHz == SAMPLE_RATE_HZ && 1 <= channels <= 2
      ensures packetizer != null <==> error.None?
      ensures packetizer != null ==>
                && packetizer.Valid() && fresh(packetizer) && fresh(packetizer.samples)
                && packetizer.channels == channels && packetizer.silence == silence
                && packetizer.View() == EmptyAssembly()
      ensures error.Some? ==>
                error.value == if sampleRateHz != SAMPLE_RATE_HZ
                               then UnsupportedSampleRate(sampleRateHz)
                               else UnsupportedChannelCount(channels)
    {
      if sampleRateHz != SAMPLE_RATE_HZ {
        return null, Some(UnsupportedSampleRate(sampleRateHz));
      }
      if channels != 1 && channels != 2 {
        return null, Some(UnsupportedChannelCount(channels));
      }
      packetizer := new Packetizer<T>(channels, silence);
      error := None;
    }

    /** The boundary rules: a gap or another output generation empties the packet under construction. */
    method BeginFrame(sequence: nat, sampleCount: nat, generation: Option<nat>) returns (result: BeginResult)
      requires Valid()
      modifies this
      ensures Valid()
      ensures result.Rejected? <==> sampleCount % channels != 0
      ensures result.Rejected? ==>
                && result.error == MisalignedInput(sampleCount, channels)
                && View() == old(View())
      ensures result.Began? ==>
                && result.boundary == BeginBoundary(old(View()), sequence, generation)
                && View() == Begin(old(View()), sequence, generation)
    {
      if sampleCount % channels != 0 {
        return Rejected(MisalignedInput(sampleCount, channels));
      }
      var sequenceChanged := expectedSequenceNumber.Some? && expectedSequenceNumber.value != sequence;
      var outputChanged := written > 0 && outputGenerationId != generation;
      var discarded := 0;
      if sequenceChanged || outputChanged {
        discarded := DiscardPartial();
      }
      expectedSequenceNumber := Some(NextSequence(sequence));
      outputGenerationId := generation;
      result := Began(Boundary(if sequenceChanged && !outputChanged then discarded else 0,
                               if outputChanged then discarded else 0));
    }

    /** Appends samples until the packet is full; an empty packet takes its stamp from the first of them. */
    method PushSamples(input: seq<T>, timestampNs: nat, offset: nat) returns (copied: nat)
      requires Valid()
      modifies this, samples
      ensures Valid()
      ensures copied == PushCount(old(View()), input, PacketSamples(channels))
      ensures View() == Push(old(View()), input, timestampNs, offset, channels)
    {
      if written == 0 {
        packetTimestampNs := StampAtOffset(timestampNs, offset, channels);
      }
      copied := Min(|input|, PacketSamples(channels) - written);
      ghost var before := samples[..written];
      for i := 0 to copied
        modifies samples
        invariant samples[..written] == before
        invariant samples[written..written + i] == input[..i]
      {
        samples[written + i] := input[i];
      }
      assert samples[..written + copied] == before + input[..copied];
      written := written + copied;
    }

    /** The complete packet, once `written` reaches the packet size. */
    method CompletePacket() returns (packet: Option<(seq<T>, nat)>)
      requires Valid()
      ensures packet.Some? <==> |View().pending| == PacketSamples(channels)
      ensures packet.Some? ==> packet.value == (View().pending, View().timestampNs)
    {
      packet := if written == PacketSamples(channels) then Some((samples[..written], packetTimestampNs)) else None;
    }

    method FinishPacket()
      requires Valid()
      requires |View().pending| == PacketSamples(channels)
      modifies this
      ensures Valid() && View() == Finish(old(View()))
    {
      written := 0;
      packetTimestampNs := 0;
    }

    /** Completes a packet under construction with silence; an empty one stays empty. */
    method PadTail() returns (padding: Option<nat>)
      requires Valid()
      modifies this, samples
      ensures Valid()
      ensures padding.None? <==> old(View()).pending == []
      ensures padding.None? ==> View() == old(View())
      ensures padding.Some? ==>
                && padding.value == PacketSamples(channels) - |old(View()).pending|
                && View() == old(View()).(pending := old(View()).pending + seq(padding.value, _ => silence))
    {
      if written == 0 {
        return None;
      }
      var limit := PacketSamples(channels);
      ghost var before := samples[..written];
      for i := written to limit
        modifies samples
        invariant samples[..written] == before
        invariant forall k :: written <= k < i ==> samples[k] == silence
      {
        samples[i] := silence;
      }
      padding := Some(limit - written);
      assert samples[..limit] == before + seq(limit - written, _ => silence);
      written := limit;
    }

    method DiscardPartial() returns (discarded: nat)
      requires Valid()
      modifies this
      ensures Valid()
      ensures discarded == |old(View()).pending|
      ensures View() == Finish(old(View()))
    {
      discarded := written;
      written := 0;
      packetTimestampNs := 0;
    }
  }
}
