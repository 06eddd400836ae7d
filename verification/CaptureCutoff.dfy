/**
 One bus from its feeder to the socket: the feeder loop of relay/src/runtime.rs,
 the encoder worker and the frame filter of relay/src/rtc/gateway.rs run
 concurrently, one atomic step at a time, in any order.

 Samples carry the frame they were captured in, so that what a flushed packet
 contains can be compared with what the feeder had published when the gateway
 read its cutoff.
 */
module CaptureCutoff {
  import opened Basics
  import opened PcmPacketizer

  /** Where a sample comes from: the `frame`-th frame the feeder popped, or padding. */
  datatype Sample = Silence | From(frame: nat, offset: nat)

  /** What the feeder sees of a popped frame. */
  datatype Captured = Captured(sequence: nat, generation: Option<nat>, timestampNs: nat, length: nat, channels: nat)
  {
    /** End of capture, as the feeder computes it. */
    function EndNs(): nat
      requires channels > 0
    {
      SatAdd(timestampNs, FramesToNs(length / channels))
    }

    function SamplesAs(index: nat): (s: seq<Sample>)
      ensures |s| == length
      ensures forall o :: 0 <= o < length ==> s[o] == From(index, o)
    {
      seq(length, o requires 0 <= o => From(index, o))
    }
  }

  // ----- Feeder -----

  /** The feeder between two receives: the stages its current frame passes through. */
  datatype Hand = Empty | Popped | Published | Admitted

  datatype Feeder = Feeder(
    popped: seq<Captured>,
    hand: Hand,
    captureEndNs: nat,
    inputDrops: nat,
    queueDrops: nat,
    enqueued: nat,
    done: bool)
  {
    /** Frames whose capture end has been folded into the shared maximum. */
    function PublishedCount(): nat {
      if hand.Popped? && |popped| > 0 then |popped| - 1 else |popped|
    }

    /** Frames the feeder is done with. */
    function SentCount(): nat {
      if hand.Empty? || |popped| == 0 then |popped| else |popped| - 1
    }

    function Pop(frame: Captured): Feeder {
      if hand.Empty? && !done && frame.channels > 0 then this.(popped := popped + [frame], hand := Popped) else this
    }

    /** `fetch_max` on the shared capture end, before the pause flag is looked at. */
    function Publish(): Feeder {
      if hand.Popped? && |popped| > 0 && popped[|popped| - 1].channels > 0
      then this.(captureEndNs := Max(captureEndNs, popped[|popped| - 1].EndNs()), hand := Published) else this
    }

    function TestPause(paused: bool): Feeder {
      if !hand.Published? then this
      else if paused then this.(inputDrops := inputDrops + 1, hand := Empty)
      else this.(hand := Admitted)
    }

    function Send(outcome: SendOutcome): Feeder {
      if !hand.Admitted? || |popped| == 0 then this
      else match outcome
        case SendOk => this.(enqueued := enqueued + 1, hand := Empty)
        case SendFull => this.(queueDrops := queueDrops + 1, hand := Empty)
        case SendDisconnected => this.(done := true, hand := Empty)
    }
  }

  datatype SendOutcome = SendOk | SendFull | SendDisconnected

  // ----- Encoder -----

  datatype Encoder = Encoder(
    queue: seq<nat>,
    current: Option<(nat, nat)>,
    lastTaken: nat,
    assembly: Assembly<Sample>,
    encoded: seq<PcmPacket<Sample>>)
  {
    /** Holds samples of frames up to `lastTaken`. */
    predicate Busy() {
      current.Some? || assembly.pending != [] || encoded != []
    }

    function Take(popped: seq<Captured>, channels: nat, refuse: bool): Encoder {
      if current.Some? || |queue| == 0 || queue[0] >= |popped| then this
      else
        var i := queue[0];
        var f := popped[i];
        if refuse || f.channels != channels || channels == 0 || f.length % channels != 0
        then this.(queue := queue[1..])
        else this.(queue := queue[1..], current := Some((i, 0)), lastTaken := i,
                   assembly := Begin(assembly, f.sequence, f.generation))
    }

    /** One `push`, and the packet it may complete. */
    function PushOnce(popped: seq<Captured>, channels: nat, deliver: bool): Encoder {
      if current.None? || current.value.0 >= |popped| || channels == 0
         || |assembly.pending| >= PacketSamples(channels)
      then this
      else
        var (i, offset) := current.value;
        if offset >= popped[i].length then this.(current := None)
        else
          var input := popped[i].SamplesAs(i)[offset..];
          var count := PushCount(assembly, input, PacketSamples(channels));
          this.(current := Some((i, offset + count)),
                assembly := Push(assembly, input, popped[i].timestampNs, offset, channels))
              .Complete(channels, deliver)
    }

    /** Hands a full packet to the encoder, which may or may not deliver it. */
    function Complete(channels: nat, deliver: bool): Encoder {
      if |assembly.pending| != PacketSamples(channels) then this
      else
        var packet := PcmPacket(assembly.pending, assembly.timestampNs, assembly.generation);
        this.(assembly := Finish(assembly), encoded := if deliver then encoded + [packet] else encoded)
    }

    function Pad(channels: nat, deliver: bool): Encoder {
      if current.Some? || assembly.pending == [] || |assembly.pending| > PacketSamples(channels) then this
      else
        var silence := seq(PacketSamples(channels) - |assembly.pending|, _ => Silence);
        this.(assembly := assembly.(pending := assembly.pending + silence)).Complete(channels, deliver)
    }
  }

  // ----- Gateway -----

  /** A packet that left on a socket, with the number of frames published when that socket's cutoff was read. */
  datatype Flush = Flush(packet: PcmPacket<Sample>, publishedAtCutoff: nat)

  datatype Gateway = Gateway(paused: bool, cutoffNs: Option<nat>, publishedAtCutoff: nat, flushed: seq<Flush>)
  {
    /** Recovery drop, some other drop, or a flush. */
    function Filter(packet: PcmPacket<Sample>, flush: bool): Gateway {
      if cutoffNs.Some? && packet.timestampNs < cutoffNs.value then this
      else if flush then this.(flushed := flushed + [Flush(packet, publishedAtCutoff)])
      else this
    }
  }

  // ----- The bus -----

  datatype Bus = Bus(channels: nat, feeder: Feeder, encoder: Encoder, gateway: Gateway)

  datatype Action =
    | FeederPop(frame: Captured)
    | FeederPublish
    | FeederTestPause
    | FeederSend(outcome: SendOutcome)
    | EncoderTake(refuse: bool)
    | EncoderPush(deliver: bool)
    | EncoderPad(deliver: bool)
    | GatewayPause
    | GatewayReadCutoff
    | GatewayResume
    | GatewayTake(flush: bool)

  function Initial(channels: nat): Bus {
    Bus(channels,
        Feeder([], Empty, 0, 0, 0, 0, false),
        Encoder([], None, 0, EmptyAssembly(), []),
        Gateway(false, None, 0, []))
  }

  function Step(b: Bus, a: Action): Bus {
    match a
    case FeederPop(frame) => b.(feeder := b.feeder.Pop(frame))
    case FeederPublish => b.(feeder := b.feeder.Publish())
    case FeederTestPause => b.(feeder := b.feeder.TestPause(b.gateway.paused))
    case FeederSend(outcome) =>
      b.(feeder := b.feeder.Send(outcome),
         encoder := if b.feeder.hand.Admitted? && |b.feeder.popped| > 0 && outcome.SendOk?
                    then b.encoder.(queue := b.encoder.queue + [|b.feeder.popped| - 1]) else b.encoder)
    case EncoderTake(refuse) => b.(encoder := b.encoder.Take(b.feeder.popped, b.channels, refuse))
    case EncoderPush(deliver) => b.(encoder := b.encoder.PushOnce(b.feeder.popped, b.channels, deliver))
    case EncoderPad(deliver) => b.(encoder := b.encoder.Pad(b.channels, deliver))
    case GatewayPause => b.(gateway := b.gateway.(paused := true))
    case GatewayReadCutoff =>
      b.(gateway := b.gateway.(cutoffNs := Some(b.feeder.captureEndNs), publishedAtCutoff := b.feeder.PublishedCount()))
    case GatewayResume => b.(gateway := b.gateway.(paused := false))
    case GatewayTake(flush) =>
      if |b.encoder.encoded| == 0 then b
      else b.(encoder := b.encoder.(encoded := b.encoder.encoded[1..]),
              gateway := b.gateway.Filter(b.encoder.encoded[0], flush))
  }

  /** The bus after any sequence of steps of its threads. */
  function Execute(start: Bus, actions: seq<Action>): Bus {
    if |actions| == 0 then start
    else Step(Execute(start, actions[..|actions| - 1]), actions[|actions| - 1])
  }

  // ----- Invariant -----

  /** The capture clock has room for every sample of the frame. */
  predicate StampsFit(f: Captured) {
    && f.channels > 0
    && f.length / f.channels * NS_PER_SECOND <= U64_MAX
    && (f.length > 0 ==> f.timestampNs + FramesToNs((f.length - 1) / f.channels) < U64_MAX)
  }

  predicate AllStampsFit(popped: seq<Captured>) {
    forall i :: 0 <= i < |popped| ==> StampsFit(popped[i])
  }

  /** A sample can only come from an accepted frame, at an offset inside it. */
  predicate Genuine(s: Sample, popped: seq<Captured>, channels: nat)
    requires channels > 0
  {
    s.From? ==>
      && s.frame < |popped|
      && popped[s.frame].channels == channels
      && popped[s.frame].length % channels == 0
      && s.offset < popped[s.frame].length
  }

  /** `samples` starts with a genuine sample, is stamped with its capture time, and holds nothing older. */
  ghost predicate Stamped(samples: seq<Sample>, stampNs: nat, popped: seq<Captured>, channels: nat)
    requires channels > 0
  {
    samples != [] ==>
      && samples[0].From?
      && (forall k :: 0 <= k < |samples| ==> Genuine(samples[k], popped, channels))
      && stampNs == StampAtOffset(popped[samples[0].frame].timestampNs, samples[0].offset, channels)
      && (forall k :: 0 <= k < |samples| && samples[k].From? ==> samples[0].frame <= samples[k].frame)
  }

  ghost predicate NoNewerThan(samples: seq<Sample>, limit: nat) {
    forall k :: 0 <= k < |samples| && samples[k].From? ==> samples[k].frame <= limit
  }

  /** No sample of the packet was captured in one of the first `count` frames. */
  predicate Fresh(packet: PcmPacket<Sample>, count: nat) {
    forall k :: 0 <= k < |packet.samples| && packet.samples[k].From? ==> packet.samples[k].frame >= count
  }

  /**
   Every popped frame was dropped while paused, dropped for a full queue, enqueued,
   is still in hand, or was the single one that met a disconnected encoder.
   */
  ghost predicate FeederInv(f: Feeder) {
    && (f.hand != Empty ==> |f.popped| > 0)
    && (f.done ==> f.hand.Empty?)
    && |f.popped| == f.inputDrops + f.queueDrops + f.enqueued
                     + (if f.hand.Empty? then 0 else 1) + (if f.done then 1 else 0)
    && (forall i :: 0 <= i < |f.popped| ==> f.popped[i].channels > 0)
    && (forall i :: 0 <= i < f.PublishedCount() ==> f.popped[i].EndNs() <= f.captureEndNs)
    && f.captureEndNs <= U64_MAX
  }

  ghost predicate QueueInv(queue: seq<nat>, sent: nat, busy: bool, lastTaken: nat) {
    && (forall i :: 0 <= i < |queue| ==> queue[i] < sent)
    && (forall i, j :: 0 <= i < j < |queue| ==> queue[i] < queue[j])
    && (busy ==> lastTaken < sent && forall i :: 0 <= i < |queue| ==> lastTaken < queue[i])
  }

  ghost predicate CurrentInv(e: Encoder, popped: seq<Captured>, channels: nat)
    requires channels > 0
  {
    e.current.Some? ==>
      && e.current.value.0 == e.lastTaken < |popped|
      && popped[e.lastTaken].channels == channels
      && popped[e.lastTaken].length % channels == 0
      && e.current.value.1 <= popped[e.lastTaken].length
  }

  ghost predicate EncodedInv(encoded: seq<PcmPacket<Sample>>, lastTaken: nat, popped: seq<Captured>, channels: nat)
    requires channels > 0
  {
    forall n :: 0 <= n < |encoded| ==>
      && encoded[n].samples != []
      && NoNewerThan(encoded[n].samples, lastTaken)
      && Stamped(encoded[n].samples, encoded[n].timestampNs, popped, channels)
  }

  ghost predicate EncoderInv(e: Encoder, popped: seq<Captured>, sent: nat, channels: nat)
    requires channels > 0
  {
    && QueueInv(e.queue, sent, e.Busy(), e.lastTaken)
    && CurrentInv(e, popped, channels)
    && |e.assembly.pending| < PacketSamples(channels)
    && Stamped(e.assembly.pending, e.assembly.timestampNs, popped, channels)
    && NoNewerThan(e.assembly.pending, e.lastTaken)
    && EncodedInv(e.encoded, e.lastTaken, popped, channels)
  }

  ghost predicate GatewayInv(g: Gateway, popped: seq<Captured>, published: nat) {
    && g.publishedAtCutoff <= published <= |popped|
    && (g.cutoffNs.None? ==> g.publishedAtCutoff == 0)
    && (g.cutoffNs.Some? ==> g.cutoffNs.value <= U64_MAX)
    && (forall i :: 0 <= i < g.publishedAtCutoff && popped[i].channels > 0 ==>
          popped[i].EndNs() <= g.cutoffNs.value)
    && (AllStampsFit(popped) ==>
          forall n :: 0 <= n < |g.flushed| ==> Fresh(g.flushed[n].packet, g.flushed[n].publishedAtCutoff))
  }

  ghost predicate Inv(b: Bus) {
    && 1 <= b.channels <= 2
    && FeederInv(b.feeder)
    && EncoderInv(b.encoder, b.feeder.popped, b.feeder.SentCount(), b.channels)
    && GatewayInv(b.gateway, b.feeder.popped, b.feeder.PublishedCount())
  }

  // ----- Every step keeps the invariant -----

  /**
   A sample of an aligned frame is stamped strictly before the frame's end exactly
   while its own stamp stays below the 64-bit limit.
   */
  lemma {:induction false} StampBelowEnd(f: Captured, offset: nat)
    requires f.channels > 0 && f.length % f.channels == 0 && offset < f.length
    requires f.length / f.channels * NS_PER_SECOND <= U64_MAX
    ensures StampAtOffset(f.timestampNs, offset, f.channels) < f.EndNs()
            <==> f.timestampNs + FramesToNs(offset / f.channels) < U64_MAX
  {
    assert offset / f.channels < f.length / f.channels by {
      assert f.length == f.length / f.channels * f.channels;
      assert offset == offset / f.channels * f.channels + offset % f.channels;
      MulCancel(offset / f.channels, f.length / f.channels, f.channels);
    }
    FramesToNsStrict(offset / f.channels, f.length / f.channels);
    SatAddStrict(f.timestampNs, FramesToNs(offset / f.channels), FramesToNs(f.length / f.channels));
  }

  lemma {:induction false} StampedKept(samples: seq<Sample>, stampNs: nat, popped: seq<Captured>, f: Captured, channels: nat)
    requires channels > 0
    requires Stamped(samples, stampNs, popped, channels)
    ensures Stamped(samples, stampNs, popped + [f], channels)
  {
  }

  lemma {:induction false} EncoderUnaffectedByPop(e: Encoder, popped: seq<Captured>, f: Captured, sent: nat, channels: nat)
    requires channels > 0
    requires EncoderInv(e, popped, sent, channels)
    ensures EncoderInv(e, popped + [f], sent, channels)
  {
    StampedKept(e.assembly.pending, e.assembly.timestampNs, popped, f, channels);
    forall n | 0 <= n < |e.encoded|
      ensures Stamped(e.encoded[n].samples, e.encoded[n].timestampNs, popped + [f], channels)
    {
      StampedKept(e.encoded[n].samples, e.encoded[n].timestampNs, popped, f, channels);
    }
  }

  lemma {:induction false} GatewayUnaffectedByPop(g: Gateway, popped: seq<Captured>, f: Captured, published: nat)
    requires GatewayInv(g, popped, published)
    ensures GatewayInv(g, popped + [f], published)
  {
    if AllStampsFit(popped + [f]) {
      forall i | 0 <= i < |popped|
        ensures StampsFit(popped[i])
      {
        assert (popped + [f])[i] == popped[i];
      }
    }
  }

  lemma {:induction false} PopKeeps(b: Bus, frame: Captured)
    requires Inv(b)
    ensures Inv(Step(b, FeederPop(frame)))
  {
    EncoderUnaffectedByPop(b.encoder, b.feeder.popped, frame, b.feeder.SentCount(), b.channels);
    GatewayUnaffectedByPop(b.gateway, b.feeder.popped, frame, b.feeder.PublishedCount());
  }

  lemma {:induction false} PublishKeeps(b: Bus)
    requires Inv(b)
    ensures Inv(Step(b, FeederPublish))
  {
    assert FeederInv(b.feeder.Publish());
  }

  lemma {:induction false} TestPauseKeeps(b: Bus)
    requires Inv(b)
    ensures Inv(Step(b, FeederTestPause))
  {
    EncoderSeesMore(b.encoder, b.feeder.popped, b.feeder.SentCount(), |b.feeder.popped|, b.channels);
  }

  lemma {:induction false} SendKeeps(b: Bus, outcome: SendOutcome)
    requires Inv(b)
    ensures Inv(Step(b, FeederSend(outcome)))
  {
    EncoderSeesMore(b.encoder, b.feeder.popped, b.feeder.SentCount(), |b.feeder.popped|, b.channels);
    EncoderSeesMore(b.encoder, b.feeder.popped, b.feeder.SentCount(), b.feeder.SentCount(), b.channels);
  }

  /** Frames the feeder is done with may only become more. */
  lemma {:induction false} EncoderSeesMore(e: Encoder, popped: seq<Captured>, sent: nat, more: nat, channels: nat)
    requires channels > 0
    requires EncoderInv(e, popped, sent, channels)
    requires sent <= more
    ensures EncoderInv(e, popped, more, channels)
    ensures EncoderInv(e.(queue := e.queue + [sent]), popped, more + 1, channels)
  {
  }

  lemma {:induction false} QueueTail(queue: seq<nat>, sent: nat, busy: bool, lastTaken: nat)
    requires QueueInv(queue, sent, busy, lastTaken)
    requires |queue| > 0
    ensures QueueInv(queue[1..], sent, busy, lastTaken)
    ensures QueueInv(queue[1..], sent, true, queue[0])
    ensures busy ==> lastTaken < queue[0]
  {
  }

  lemma {:induction false} TakeKeeps(e: Encoder, popped: seq<Captured>, sent: nat, channels: nat, refuse: bool)
    requires channels > 0
    requires EncoderInv(e, popped, sent, channels)
    ensures EncoderInv(e.Take(popped, channels, refuse), popped, sent, channels)
  {
    if |e.queue| > 0 {
      QueueTail(e.queue, sent, e.Busy(), e.lastTaken);
    }
  }

  /** A completed packet is stamped like the assembly it came from. */
  lemma {:induction false} CompleteKeeps(e: Encoder, popped: seq<Captured>, sent: nat, channels: nat, deliver: bool)
    requires channels > 0
    requires QueueInv(e.queue, sent, e.Busy(), e.lastTaken)
    requires CurrentInv(e, popped, channels)
    requires 0 < |e.assembly.pending| <= PacketSamples(channels)
    requires Stamped(e.assembly.pending, e.assembly.timestampNs, popped, channels)
    requires NoNewerThan(e.assembly.pending, e.lastTaken)
    requires EncodedInv(e.encoded, e.lastTaken, popped, channels)
    ensures EncoderInv(e.Complete(channels, deliver), popped, sent, channels)
  {
  }

  lemma {:induction false} PushStamped(e: Encoder, popped: seq<Captured>, sent: nat, channels: nat)
    requires channels > 0
    requires EncoderInv(e, popped, sent, channels)
    requires e.current.Some? && e.current.value.1 < popped[e.lastTaken].length
    ensures var (i, offset) := e.current.value;
            var input := popped[i].SamplesAs(i)[offset..];
            var pushed := Push(e.assembly, input, popped[i].timestampNs, offset, channels);
            && 0 < |pushed.pending| <= PacketSamples(channels)
            && Stamped(pushed.pending, pushed.timestampNs, popped, channels)
            && NoNewerThan(pushed.pending, e.lastTaken)
  {
    var (i, offset) := e.current.value;
    var f := popped[i];
    var input := f.SamplesAs(i)[offset..];
    var pushed := Push(e.assembly, input, f.timestampNs, offset, channels);
    forall k | 0 <= k < |pushed.pending|
      ensures Genuine(pushed.pending[k], popped, channels)
      ensures pushed.pending[k].From? ==> pushed.pending[0].frame <= pushed.pending[k].frame <= e.lastTaken
    {
      if k >= |e.assembly.pending| {
        assert pushed.pending[k] == input[k - |e.assembly.pending|] == From(i, offset + k - |e.assembly.pending|);
      }
    }
  }

  lemma {:induction false} PushKeeps(e: Encoder, popped: seq<Captured>, sent: nat, channels: nat, deliver: bool)
    requires channels > 0
    requires EncoderInv(e, popped, sent, channels)
    ensures EncoderInv(e.PushOnce(popped, channels, deliver), popped, sent, channels)
  {
    if e.current.Some? && e.current.value.1 < popped[e.lastTaken].length {
      PushStamped(e, popped, sent, channels);
      var (i, offset) := e.current.value;
      var input := popped[i].SamplesAs(i)[offset..];
      var count := PushCount(e.assembly, input, PacketSamples(channels));
      var pushed := e.(current := Some((i, offset + count)),
                       assembly := Push(e.assembly, input, popped[i].timestampNs, offset, channels));
      CompleteKeeps(pushed, popped, sent, channels, deliver);
    }
  }

  lemma {:induction false} PadKeeps(e: Encoder, popped: seq<Captured>, sent: nat, channels: nat, deliver: bool)
    requires channels > 0
    requires EncoderInv(e, popped, sent, channels)
    ensures EncoderInv(e.Pad(channels, deliver), popped, sent, channels)
  {
    if e.current.None? && e.assembly.pending != [] {
      var silence := seq(PacketSamples(channels) - |e.assembly.pending|, _ => Silence);
      CompleteKeeps(e.(assembly := e.assembly.(pending := e.assembly.pending + silence)), popped, sent, channels, deliver);
    }
  }

  /** A stamped packet that passes the cutoff holds no sample of a frame published before the cutoff was read. */
  lemma {:induction false} PastCutoffIsFresh(g: Gateway, popped: seq<Captured>, published: nat, packet: PcmPacket<Sample>, channels: nat)
    requires channels > 0
    requires GatewayInv(g, popped, published)
    requires AllStampsFit(popped)
    requires packet.samples != []
    requires Stamped(packet.samples, packet.timestampNs, popped, channels)
    requires g.cutoffNs.None? || packet.timestampNs >= g.cutoffNs.value
    ensures Fresh(packet, g.publishedAtCutoff)
  {
    var first := packet.samples[0];
    var f := popped[first.frame];
    if first.frame < g.publishedAtCutoff {
      StampBelowEnd(f, first.offset);
      assert StampsFit(f);
      StampFits(f, first.offset);
    }
  }

  lemma {:induction false} StampFits(f: Captured, offset: nat)
    requires StampsFit(f) && offset < f.length
    ensures f.timestampNs + FramesToNs(offset / f.channels) < U64_MAX
  {
    DivMonotone(offset, f.length - 1, f.channels);
    DivMonotone(f.length - 1, f.length, f.channels);
    StampFitsAt(f.timestampNs, offset / f.channels, (f.length - 1) / f.channels, f.length / f.channels);
  }

  lemma {:induction false} StampFitsAt(t: nat, at: nat, last: nat, count: nat)
    requires at <= last <= count && count * NS_PER_SECOND <= U64_MAX
    requires t + FramesToNs(last) < U64_MAX
    ensures t + FramesToNs(at) < U64_MAX
  {
    if at < last {
      FramesToNsStrict(at, last);
    }
  }

  lemma {:induction false} TakePacketKeeps(b: Bus, flush: bool)
    requires Inv(b)
    ensures Inv(Step(b, GatewayTake(flush)))
  {
    if |b.encoder.encoded| > 0 {
      var packet := b.encoder.encoded[0];
      var g := b.gateway;
      if AllStampsFit(b.feeder.popped) && (g.cutoffNs.None? || packet.timestampNs >= g.cutoffNs.value) {
        PastCutoffIsFresh(g, b.feeder.popped, b.feeder.PublishedCount(), packet, b.channels);
      }
    }
  }

  lemma {:induction false} StepKeeps(b: Bus, a: Action)
    requires Inv(b)
    ensures Inv(Step(b, a))
  {
    match a
    case FeederPop(frame) => PopKeeps(b, frame);
    case FeederPublish => PublishKeeps(b);
    case FeederTestPause => TestPauseKeeps(b);
    case FeederSend(outcome) => SendKeeps(b, outcome);
    case EncoderTake(refuse) => TakeKeeps(b.encoder, b.feeder.popped, b.feeder.SentCount(), b.channels, refuse);
    case EncoderPush(deliver) => PushKeeps(b.encoder, b.feeder.popped, b.feeder.SentCount(), b.channels, deliver);
    case EncoderPad(deliver) => PadKeeps(b.encoder, b.feeder.popped, b.feeder.SentCount(), b.channels, deliver);
    case GatewayPause =>
    case GatewayReadCutoff =>
    case GatewayResume =>
    case GatewayTake(flush) => TakePacketKeeps(b, flush);
  }

  lemma {:induction false} ExecuteKeeps(start: Bus, actions: seq<Action>)
    requires Inv(start)
    ensures Inv(Execute(start, actions))
  {
    if |actions| > 0 {
      ExecuteKeeps(start, actions[..|actions| - 1]);
      StepKeeps(Execute(start, actions[..|actions| - 1]), actions[|actions| - 1]);
    }
  }

  // ----- Theorems -----

  /**
   In every run of the bus, a packet flushed after a re-attachment contains no sample of
   a frame whose end the feeder had published when that re-attachment read its cutoff.
   */
  lemma {:induction false} PublishedFramesStaySilent(channels: nat, actions: seq<Action>, n: nat)
    requires 1 <= channels <= 2
    requires var b := Execute(Initial(channels), actions);
             AllStampsFit(b.feeder.popped) && n < |b.gateway.flushed|
    ensures var flush := Execute(Initial(channels), actions).gateway.flushed[n];
            forall k :: 0 <= k < |flush.packet.samples| && flush.packet.samples[k].From? ==>
              flush.packet.samples[k].frame >= flush.publishedAtCutoff
  {
    ExecuteKeeps(Initial(channels), actions);
  }

  /** Frame `i` is somewhere between the feeder and the socket. */
  ghost predicate InFlight(e: Encoder, i: nat) {
    || i in e.queue
    || (exists o :: From(i, o) in e.assembly.pending)
    || (exists n, o :: 0 <= n < |e.encoded| && From(i, o) in e.encoded[n].samples)
    || (e.current.Some? && e.current.value.0 == i)
  }

  /**
   Audio already in flight when the cutoff is read never reaches the new socket: whatever
   the threads do next, short of another re-attachment, no later flush contains it.
   */
  lemma {:induction false} QueuedAudioIsDiscarded(channels: nat, before: seq<Action>, after: seq<Action>, i: nat, n: nat)
    requires 1 <= channels <= 2
    requires GatewayReadCutoff !in after
    requires var atCutoff := Execute(Initial(channels), before);
             var end := Execute(Step(atCutoff, GatewayReadCutoff), after);
             && AllStampsFit(end.feeder.popped)
             && InFlight(atCutoff.encoder, i)
             && |atCutoff.gateway.flushed| <= n < |end.gateway.flushed|
    ensures var end := Execute(Step(Execute(Initial(channels), before), GatewayReadCutoff), after);
            forall k :: 0 <= k < |end.gateway.flushed[n].packet.samples| && end.gateway.flushed[n].packet.samples[k].From? ==>
              end.gateway.flushed[n].packet.samples[k].frame > i
  {
    var atCutoff := Execute(Initial(channels), before);
    ExecuteKeeps(Initial(channels), before);
    InFlightIsPublished(atCutoff, i);
    StepKeeps(atCutoff, GatewayReadCutoff);
    var cut := Step(atCutoff, GatewayReadCutoff);
    ExecuteKeeps(cut, after);
    FlushesUseTheCutoff(cut, after, n);
    var flush := Execute(cut, after).gateway.flushed[n];
    assert Fresh(flush.packet, flush.publishedAtCutoff);
  }

  lemma {:induction false} InFlightIsPublished(b: Bus, i: nat)
    requires Inv(b)
    requires InFlight(b.encoder, i)
    ensures i < b.feeder.PublishedCount()
  {
    var e := b.encoder;
    if exists o :: From(i, o) in e.assembly.pending {
      var o :| From(i, o) in e.assembly.pending;
      assert i <= e.lastTaken;
    } else if exists n, o :: 0 <= n < |e.encoded| && From(i, o) in e.encoded[n].samples {
      var n, o :| 0 <= n < |e.encoded| && From(i, o) in e.encoded[n].samples;
      assert NoNewerThan(e.encoded[n].samples, e.lastTaken);
    }
  }

  lemma {:induction false} FlushesUseTheCutoff(start: Bus, actions: seq<Action>, n: nat)
    requires GatewayReadCutoff !in actions
    requires |start.gateway.flushed| <= n < |Execute(start, actions).gateway.flushed|
    ensures Execute(start, actions).gateway.flushed[n].publishedAtCutoff == start.gateway.publishedAtCutoff
  {
    if |actions| > 0 {
      var rest := actions[..|actions| - 1];
      CutoffUnchanged(start, rest);
      assert actions[|actions| - 1] in actions;
      if n < |Execute(start, rest).gateway.flushed| {
        FlushesUseTheCutoff(start, rest, n);
      }
    }
  }

  lemma {:induction false} CutoffUnchanged(start: Bus, actions: seq<Action>)
    requires GatewayReadCutoff !in actions
    ensures Execute(start, actions).gateway.publishedAtCutoff == start.gateway.publishedAtCutoff
  {
    if |actions| > 0 {
      CutoffUnchanged(start, actions[..|actions| - 1]);
      assert actions[|actions| - 1] in actions;
    }
  }

  /** Over every run, the feeder's counters account for every frame it popped. */
  lemma {:induction false} FeederConservesFrames(channels: nat, actions: seq<Action>)
    requires 1 <= channels <= 2
    ensures var f := Execute(Initial(channels), actions).feeder;
            f.inputDrops + f.queueDrops + f.enqueued <= |f.popped|
            <= f.inputDrops + f.queueDrops + f.enqueued + 1
    ensures var f := Execute(Initial(channels), actions).feeder;
            f.hand.Empty? && !f.done ==> |f.popped| == f.inputDrops + f.queueDrops + f.enqueued
  {
    ExecuteKeeps(Initial(channels), actions);
  }

  /**
   The filter is exact about published audio: a packet whose oldest frame was published
   before the cutoff passes it if and only if the stamp of its first sample saturates.
   */
  lemma {:induction false} FilterPassesOnlySaturated(b: Bus)
    requires Inv(b)
    requires b.gateway.cutoffNs.Some? && |b.encoder.encoded| > 0
    requires b.encoder.encoded[0].samples[0].frame < b.gateway.publishedAtCutoff
    requires var f := b.feeder.popped[b.encoder.encoded[0].samples[0].frame];
             f.length / f.channels * NS_PER_SECOND <= U64_MAX
    ensures var first := b.encoder.encoded[0].samples[0];
            var f := b.feeder.popped[first.frame];
            b.encoder.encoded[0].timestampNs >= b.gateway.cutoffNs.value
            <==> f.timestampNs + FramesToNs(first.offset / f.channels) >= U64_MAX
  {
    var packet := b.encoder.encoded[0];
    assert Stamped(packet.samples, packet.timestampNs, b.feeder.popped, b.channels);
    assert Genuine(packet.samples[0], b.feeder.popped, b.channels);
    StampBelowEnd(b.feeder.popped[packet.samples[0].frame], packet.samples[0].offset);
  }

  lemma {:induction false} ExecuteSnoc(start: Bus, actions: seq<Action>, a: Action)
    ensures Execute(start, actions + [a]) == Step(Execute(start, actions), a)
  {
    assert (actions + [a])[..|actions|] == actions;
  }

  /** One full mono packet, stamped with the last instant of the clock. */
  const LastInstant: Captured := Captured(0, None, U64_MAX, OPUS_FRAME_SAMPLES, 1)

  const LeakStart: seq<Action> :=
    [FeederPop(LastInstant), FeederPublish, FeederTestPause, FeederSend(SendOk), GatewayReadCutoff]

  lemma {:induction false} LeakReachesCutoff()
    ensures Execute(Initial(1), LeakStart) ==
            Bus(1, Feeder([LastInstant], Empty, U64_MAX, 0, 0, 1, false),
                Encoder([0], None, 0, EmptyAssembly(), []),
                Gateway(false, Some(U64_MAX), 1, []))
  {
    var all := LeakStart;
    var popped := Bus(1, Feeder([LastInstant], Popped, 0, 0, 0, 0, false),
                      Encoder([], None, 0, EmptyAssembly(), []), Gateway(false, None, 0, []));
    assert all[..1] == [] + [all[0]];
    ExecuteSnoc(Initial(1), [], all[0]);
    assert Execute(Initial(1), all[..1]) == popped;
    assert LastInstant.EndNs() == U64_MAX;
    assert all[..2] == all[..1] + [all[1]];
    ExecuteSnoc(Initial(1), all[..1], all[1]);
    assert all[..3] == all[..2] + [all[2]];
    ExecuteSnoc(Initial(1), all[..2], all[2]);
    assert all[..4] == all[..3] + [all[3]];
    ExecuteSnoc(Initial(1), all[..3], all[3]);
    assert all == all[..4] + [all[4]];
    ExecuteSnoc(Initial(1), all[..4], all[4]);
  }

  /** A run in which the guarantee does fail: the published frame is flushed after the cutoff. */
  lemma {:induction false} SaturatedClockLeaks()
    ensures var b := Execute(Initial(1), LeakStart + [EncoderTake(false)] + [EncoderPush(true)] + [GatewayTake(true)]);
            && |b.gateway.flushed| == 1
            && !Fresh(b.gateway.flushed[0].packet, b.gateway.flushed[0].publishedAtCutoff)
  {
    LeakReachesCutoff();
    var input := LastInstant.SamplesAs(0);
    assert input[0..] == input && input[..OPUS_FRAME_SAMPLES] == input && [] + input == input;
    ExecuteSnoc(Initial(1), LeakStart, EncoderTake(false));
    var taken := Execute(Initial(1), LeakStart + [EncoderTake(false)]);
    assert taken.encoder == Encoder([], Some((0, 0)), 0, Assembly([], 0, Some(1), None), []);
    ExecuteSnoc(Initial(1), LeakStart + [EncoderTake(false)], EncoderPush(true));
    var pushed := Execute(Initial(1), LeakStart + [EncoderTake(false)] + [EncoderPush(true)]);
    assert StampAtOffset(U64_MAX, 0, 1) == U64_MAX;
    assert pushed.encoder.encoded == [PcmPacket(input, U64_MAX, None)];
    ExecuteSnoc(Initial(1), LeakStart + [EncoderTake(false)] + [EncoderPush(true)], GatewayTake(true));
    assert input[0] == From(0, 0);
  }
}
