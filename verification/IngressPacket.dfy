/**
 The 40-byte ingress packet (relay/src/rtc/gateway.rs, `encode_packet`), a decoder
 written from its layout, and the proof that the decoder inverts the encoder.
 */
module IngressPacket {
  import opened Basics

  type Byte = n: nat | n < 256

  const HEADER_BYTES: nat := 40
  const MAX_OPUS_PAYLOAD_BYTES: nat := 1_275
  const U32_SPAN: nat := 0x1_0000_0000
  /** "PKSO" */
  const MAGIC: seq<Byte> := [0x50, 0x4B, 0x53, 0x4F]

  /** An encoded frame as the publisher sends it; every number is an unsigned 64-bit value or smaller. */
  datatype MediaFrame = MediaFrame(
    payload: seq<Byte>,
    rtpTime: nat,
    durationSamples: nat,
    captureTimestampNs: nat,
    generation: Option<nat>)
  {
    predicate InRange() {
      && rtpTime <= U64_MAX
      && captureTimestampNs <= U64_MAX
      && (generation.Some? ==> 0 < generation.value <= U64_MAX)
    }
  }

  // ----- Big-endian numbers -----

  function Pow256(width: nat): (p: nat)
    ensures p > 0
  {
    if width == 0 then 1 else 256 * Pow256(width - 1)
  }

  function ToBytes(n: nat, width: nat): (s: seq<Byte>)
    ensures |s| == width
  {
    if width == 0 then [] else ToBytes(n / 256, width - 1) + [n % 256]
  }

  function FromBytes(s: seq<Byte>): nat {
    if |s| == 0 then 0 else FromBytes(s[..|s| - 1]) * 256 + s[|s| - 1]
  }

  lemma {:induction false} FromToBytes(n: nat, width: nat)
    requires n < Pow256(width)
    ensures FromBytes(ToBytes(n, width)) == n
  {
    if width > 0 {
      var s := ToBytes(n, width);
      assert s[..|s| - 1] == ToBytes(n / 256, width - 1);
      assert n == n / 256 * 256 + n % 256;
      FromToBytes(n / 256, width - 1);
    }
  }

  /** The low `width` bytes of a wider number are the number modulo that width. */
  lemma {:induction false} LowBytes(n: nat, extra: nat, width: nat)
    ensures ToBytes(n, extra + width)[extra..] == ToBytes(n % Pow256(width), width)
  {
    var s := ToBytes(n, extra + width);
    if width > 0 {
      LowBytes(n / 256, extra, width - 1);
      var inner := ToBytes(n / 256, extra + width - 1);
      assert s == inner + [n % 256];
      assert s[extra..] == inner[extra..] + [n % 256];
      ModSplit(n, Pow256(width - 1));
    } else {
      assert s[extra..] == [];
    }
  }

  lemma {:induction false} ModSplit(n: nat, p: nat)
    requires p > 0
    ensures n % (256 * p) / 256 == n / 256 % p
    ensures n % (256 * p) % 256 == n % 256
  {
    var q, r := n / 256, n % 256;
    var q2, r2 := q / p, q % p;
    assert n == 256 * q + r && q == p * q2 + r2;
    var low := 256 * r2 + r;
    assert n == (256 * p) * q2 + low by {
      assert 256 * (p * q2) == (256 * p) * q2;
    }
    assert low < 256 * p by {
      assert 256 * r2 + 256 <= 256 * p;
    }
    ModUnique(n, 256 * p, q2, low);
  }

  // ----- Encoder -----

  predicate Encodable(frame: MediaFrame, channels: nat) {
    && 1 <= channels <= 2
    && frame.durationSamples == OPUS_FRAME_SAMPLES
    && 0 < |frame.payload| <= MAX_OPUS_PAYLOAD_BYTES
    && frame.rtpTime % OPUS_FRAME_SAMPLES == 0
  }

  function GenerationField(generation: Option<nat>): nat {
    if generation.Some? then generation.value else 0
  }

  /** The forty bytes before the payload. */
  function Header(frame: MediaFrame, channels: Byte): (h: seq<Byte>)
    requires |frame.payload| <= MAX_OPUS_PAYLOAD_BYTES
    ensures |h| == HEADER_BYTES
  {
    MAGIC
    + [1, channels, 0, 0]
    + ToBytes(frame.rtpTime / OPUS_FRAME_SAMPLES, 8)
    + ToBytes(frame.rtpTime, 8)[4..]
    + ToBytes(OPUS_FRAME_SAMPLES, 2)
    + ToBytes(|frame.payload|, 2)
    + ToBytes(frame.captureTimestampNs, 8)
    + ToBytes(GenerationField(frame.generation), 8)
  }

  /** Builds the packet field by field, refusing what the relay would not accept. */
  method EncodePacket(frame: MediaFrame, channels: Byte) returns (result: Option<seq<Byte>>)
    ensures result.Some? <==> Encodable(frame, channels)
    ensures result.Some? ==> result.value == Header(frame, channels) + frame.payload
    ensures result.Some? ==> |result.value| == HEADER_BYTES + |frame.payload| <= 1_315
  {
    if !(channels == 1 || channels == 2)
       || frame.durationSamples != OPUS_FRAME_SAMPLES
       || |frame.payload| == 0
       || |frame.payload| > MAX_OPUS_PAYLOAD_BYTES
    {
      return None;
    }
    var sampleTimestamp := frame.rtpTime;
    if sampleTimestamp % OPUS_FRAME_SAMPLES != 0 {
      return None;
    }
    var packet: seq<Byte> := MAGIC;
    packet := packet + [1, channels, 0, 0];
    packet := packet + ToBytes(sampleTimestamp / OPUS_FRAME_SAMPLES, 8);
    var timestampBytes := ToBytes(sampleTimestamp, 8);
    packet := packet + timestampBytes[4..];
    packet := packet + ToBytes(OPUS_FRAME_SAMPLES, 2);
    packet := packet + ToBytes(|frame.payload|, 2);
    packet := packet + ToBytes(frame.captureTimestampNs, 8);
    packet := packet + ToBytes(GenerationField(frame.generation), 8);
    packet := packet + frame.payload;
    result := Some(packet);
  }

  // ----- Decoder -----

  datatype Decoded = Decoded(
    channels: nat,
    sequence: nat,
    timestamp: nat,
    captureTimestampNs: nat,
    generation: Option<nat>,
    payload: seq<Byte>)

  function Field(packet: seq<Byte>, start: nat, width: nat): nat
    requires start + width <= |packet|
  {
    FromBytes(packet[start..start + width])
  }

  /** Reads a packet by its offsets alone. */
  function Decode(packet: seq<Byte>): Option<Decoded> {
    if |packet| < HEADER_BYTES
       || packet[..4] != MAGIC
       || packet[4] != 1
       || packet[6..8] != [0, 0]
       || Field(packet, 20, 2) != OPUS_FRAME_SAMPLES
       || Field(packet, 22, 2) != |packet| - HEADER_BYTES
    then None
    else
      var generation := Field(packet, 32, 8);
      Some(Decoded(
        packet[5],
        Field(packet, 8, 8),
        Field(packet, 16, 4),
        Field(packet, 24, 8),
        if generation == 0 then None else Some(generation),
        packet[HEADER_BYTES..]))
  }

  lemma {:induction false} Widths()
    ensures Pow256(2) == 0x1_0000
    ensures Pow256(4) == U32_SPAN
    ensures Pow256(8) == U64_MAX + 1
  {
    assert Pow256(1) == 256;
    assert Pow256(2) == 256 * Pow256(1);
    assert Pow256(3) == 256 * Pow256(2);
    assert Pow256(4) == 256 * Pow256(3);
    assert Pow256(5) == 256 * Pow256(4);
    assert Pow256(6) == 256 * Pow256(5);
    assert Pow256(7) == 256 * Pow256(6);
    assert Pow256(8) == 256 * Pow256(7);
  }

  /** Each field of the packet is found at its offset. */
  lemma {:induction false} Layout(frame: MediaFrame, channels: Byte, packet: seq<Byte>)
    requires Encodable(frame, channels)
    requires packet == Header(frame, channels) + frame.payload
    ensures packet[..4] == MAGIC && packet[4] == 1 && packet[5] == channels && packet[6..8] == [0, 0]
    ensures packet[8..16] == ToBytes(frame.rtpTime / OPUS_FRAME_SAMPLES, 8)
    ensures packet[16..20] == ToBytes(frame.rtpTime, 8)[4..]
    ensures packet[20..22] == ToBytes(OPUS_FRAME_SAMPLES, 2)
    ensures packet[22..24] == ToBytes(|frame.payload|, 2)
    ensures packet[24..32] == ToBytes(frame.captureTimestampNs, 8)
    ensures packet[32..40] == ToBytes(GenerationField(frame.generation), 8)
    ensures packet[40..] == frame.payload
    ensures |packet| == HEADER_BYTES + |frame.payload| <= 1_315
  {
  }

  /**
   The decoder recovers everything the packet carries: channels, sequence, capture time,
   generation and payload; and the 32-bit timestamp is the sample clock of that sequence
   number, through any wrap.
   */
  lemma {:induction false} DecodeInvertsEncode(frame: MediaFrame, channels: Byte)
    requires frame.InRange()
    requires Encodable(frame, channels)
    ensures Decode(Header(frame, channels) + frame.payload) ==
            Some(Decoded(channels,
                         frame.rtpTime / OPUS_FRAME_SAMPLES,
                         frame.rtpTime / OPUS_FRAME_SAMPLES * OPUS_FRAME_SAMPLES % U32_SPAN,
                         frame.captureTimestampNs,
                         frame.generation,
                         frame.payload))
  {
    var packet := Header(frame, channels) + frame.payload;
    Layout(frame, channels, packet);
    Widths();
    FromToBytes(frame.rtpTime / OPUS_FRAME_SAMPLES, 8);
    LowBytes(frame.rtpTime, 4, 4);
    FromToBytes(frame.rtpTime % U32_SPAN, 4);
    FromToBytes(OPUS_FRAME_SAMPLES, 2);
    FromToBytes(|frame.payload|, 2);
    FromToBytes(frame.captureTimestampNs, 8);
    FromToBytes(GenerationField(frame.generation), 8);
    assert frame.rtpTime / OPUS_FRAME_SAMPLES * OPUS_FRAME_SAMPLES == frame.rtpTime;
  }

  /** So two frames that look the same on the wire are the same frame. */
  lemma {:induction false} EncodeInjective(left: MediaFrame, right: MediaFrame, channels: Byte)
    requires left.InRange() && right.InRange()
    requires Encodable(left, channels) && Encodable(right, channels)
    requires Header(left, channels) + left.payload == Header(right, channels) + right.payload
    ensures left == right
  {
    DecodeInvertsEncode(left, channels);
    DecodeInvertsEncode(right, channels);
    assert left.rtpTime == left.rtpTime / OPUS_FRAME_SAMPLES * OPUS_FRAME_SAMPLES;
    assert right.rtpTime == right.rtpTime / OPUS_FRAME_SAMPLES * OPUS_FRAME_SAMPLES;
  }
}
