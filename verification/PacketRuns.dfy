/**
 Reference meaning of packetization: split the accepted frames into maximal runs,
 concatenate each run, cut it into exact packets, and drop what does not fill one.
 The incremental assembler is proved to compute exactly this.
 */
module PacketRuns {
  import opened Basics
  import opened PcmPacketizer

  type Run<T> = seq<PcmFrame<T>>

  // ----- Runs -----

  /** `g` may share a packet with its predecessor `f`. */
  predicate Continues<T>(f: PcmFrame<T>, g: PcmFrame<T>) {
    NextSequence(f.sequence) == g.sequence && f.generation == g.generation
  }

  function SplitRuns<T>(frames: seq<PcmFrame<T>>): seq<Run<T>> {
    if |frames| == 0 then []
    else
      var rest := frames[..|frames| - 1];
      var last := frames[|frames| - 1];
      var runs := SplitRuns(rest);
      if |rest| > 0 && |runs| > 0 && Continues(rest[|rest| - 1], last)
      then runs[..|runs| - 1] + [runs[|runs| - 1] + [last]]
      else runs + [[last]]
  }

  function Flatten<T>(runs: seq<Run<T>>): seq<PcmFrame<T>> {
    if |runs| == 0 then [] else Flatten(runs[..|runs| - 1]) + runs[|runs| - 1]
  }

  predicate IsRun<T>(run: Run<T>) {
    |run| > 0 && forall i :: 0 < i < |run| ==> Continues(run[i - 1], run[i])
  }

  /** Non-empty runs that could not have been any longer. */
  predicate MaximalRuns<T>(runs: seq<Run<T>>) {
    && (forall i :: 0 <= i < |runs| ==> IsRun(runs[i]))
    && (forall i :: 0 < i < |runs| ==> !Continues(runs[i - 1][|runs[i - 1]| - 1], runs[i][0]))
  }

  function LastOf<T>(run: Run<T>): PcmFrame<T>
    requires |run| > 0
  {
    run[|run| - 1]
  }

  /** `SplitRuns` partitions the frames, in order, into maximal runs. */
  lemma {:induction false} SplitRunsPartitions<T>(frames: seq<PcmFrame<T>>)
    ensures Flatten(SplitRuns(frames)) == frames
    ensures MaximalRuns(SplitRuns(frames))
    ensures SplitRuns(frames) == [] <==> frames == []
    ensures frames != [] ==> var runs := SplitRuns(frames); LastOf(runs[|runs| - 1]) == LastOf(frames)
  {
    hide MaximalRuns, Flatten, Continues;
    NoRuns<T>();
    if |frames| > 0 {
      var rest := frames[..|frames| - 1];
      SplitRunsPartitions(rest);
      assert frames == rest + [LastOf(frames)];
      if |rest| > 0 && Continues(LastOf(rest), LastOf(frames)) {
        LengthenLastRun(SplitRuns(rest), LastOf(frames));
      } else {
        StartNewRun(SplitRuns(rest), LastOf(frames));
      }
    }
  }

  lemma {:induction false} NoRuns<T>()
    ensures MaximalRuns<T>([]) && Flatten<T>([]) == []
  {
  }

  lemma {:induction false} LengthenLastRun<T>(runs: seq<Run<T>>, f: PcmFrame<T>)
    requires MaximalRuns(runs) && |runs| > 0
    requires Continues(LastOf(runs[|runs| - 1]), f)
    ensures var longer := runs[..|runs| - 1] + [runs[|runs| - 1] + [f]];
            MaximalRuns(longer) && Flatten(longer) == Flatten(runs) + [f]
  {
    var longer := runs[..|runs| - 1] + [runs[|runs| - 1] + [f]];
    assert longer[..|longer| - 1] == runs[..|runs| - 1];
  }

  lemma {:induction false} StartNewRun<T>(runs: seq<Run<T>>, f: PcmFrame<T>)
    requires MaximalRuns(runs)
    requires |runs| > 0 ==> !Continues(LastOf(runs[|runs| - 1]), f)
    ensures MaximalRuns(runs + [[f]]) && Flatten(runs + [[f]]) == Flatten(runs) + [f]
  {
    assert (runs + [[f]])[..|runs|] == runs;
  }

  // ----- Packets of one run -----

  function Samples<T>(run: Run<T>): seq<T> {
    if |run| == 0 then [] else Samples(run[..|run| - 1]) + run[|run| - 1].samples
  }

  /** Capture time of the sample at position `p` of the concatenated run. */
  function StampAt<T>(run: Run<T>, p: nat, channels: nat): nat
    requires channels > 0
    requires p < |Samples(run)|
  {
    var rest := run[..|run| - 1];
    if p < |Samples(rest)| then StampAt(rest, p, channels)
    else StampAtOffset(run[|run| - 1].timestampNs, p - |Samples(rest)|, channels)
  }

  function PacketCount<T>(run: Run<T>, channels: nat): nat
    requires channels > 0
  {
    |Samples(run)| / PacketSamples(channels)
  }

  lemma {:induction false} PacketFits(total: nat, k: nat, size: nat)
    requires size > 0
    requires k < total / size
    ensures k * size + size <= total
  {
    assert k + 1 <= total / size;
    assert (k + 1) * size <= (total / size) * size;
  }

  function PacketAt<T>(run: Run<T>, k: nat, channels: nat): PcmPacket<T>
    requires channels > 0
    requires |run| > 0
    requires k < PacketCount(run, channels)
  {
    var size := PacketSamples(channels);
    PacketFits(|Samples(run)|, k, size);
    PcmPacket(Samples(run)[k * size..k * size + size], StampAt(run, k * size, channels), run[0].generation)
  }

  function RunPackets<T>(run: Run<T>, channels: nat): (packets: seq<PcmPacket<T>>)
    requires channels > 0
    requires |run| > 0
    ensures |packets| == PacketCount(run, channels)
    ensures forall k :: 0 <= k < |packets| ==> packets[k] == PacketAt(run, k, channels)
  {
    seq(PacketCount(run, channels), k requires 0 <= k < PacketCount(run, channels) => PacketAt(run, k, channels))
  }

  /** Position of the first sample that does not fill a packet. */
  function TailStart<T>(run: Run<T>, channels: nat): (start: nat)
    requires channels > 0
    ensures start <= |Samples(run)| < start + PacketSamples(channels)
  {
    var size := PacketSamples(channels);
    assert |Samples(run)| == PacketCount(run, channels) * size + |Samples(run)| % size;
    PacketCount(run, channels) * size
  }

  function Tail<T>(run: Run<T>, channels: nat): seq<T>
    requires channels > 0
  {
    Samples(run)[TailStart(run, channels)..]
  }

  // ----- Packets and losses of a whole stream -----

  function AllPackets<T>(runs: seq<Run<T>>, channels: nat): seq<PcmPacket<T>>
    requires channels > 0
    requires forall i :: 0 <= i < |runs| ==> |runs[i]| > 0
  {
    if |runs| == 0 then []
    else AllPackets(runs[..|runs| - 1], channels) + RunPackets(runs[|runs| - 1], channels)
  }

  /**
   Samples lost at run boundaries: charged to the cancelled output when the
   generation changes there, to a discontinuity otherwise.
   */
  function Losses<T>(runs: seq<Run<T>>, channels: nat): Boundary
    requires channels > 0
    requires forall i :: 0 <= i < |runs| ==> |runs[i]| > 0
  {
    if |runs| <= 1 then Boundary(0, 0)
    else
      var n := |runs|;
      var before := Losses(runs[..n - 1], channels);
      var lost := |Tail(runs[n - 2], channels)|;
      if runs[n - 2][0].generation != runs[n - 1][0].generation
      then before.(cancelledDiscarded := before.cancelledDiscarded + lost)
      else before.(discontinuityDiscarded := before.discontinuityDiscarded + lost)
  }

  /** The packets handed to the encoder before shutdown. */
  function StreamPackets<T>(frames: seq<PcmFrame<T>>, channels: nat): seq<PcmPacket<T>>
    requires channels > 0
  {
    SplitRunsPartitions(frames);
    AllPackets(SplitRuns(frames), channels)
  }

  function StreamLosses<T>(frames: seq<PcmFrame<T>>, channels: nat): Boundary
    requires channels > 0
  {
    SplitRunsPartitions(frames);
    Losses(SplitRuns(frames), channels)
  }

  function StreamTail<T>(frames: seq<PcmFrame<T>>, channels: nat): seq<T>
    requires channels > 0
  {
    var runs := SplitRuns(frames);
    if |runs| == 0 then [] else Tail(runs[|runs| - 1], channels)
  }

  /** The final packet of an orderly shutdown: the last tail, padded with silence. */
  function PaddedTail<T>(frames: seq<PcmFrame<T>>, channels: nat, silence: T): seq<PcmPacket<T>>
    requires channels > 0
  {
    var tail := StreamTail(frames, channels);
    if tail == [] then []
    else
      SplitRunsPartitions(frames);
      var runs := SplitRuns(frames);
      var run := runs[|runs| - 1];
      [PcmPacket(tail + seq(PacketSamples(channels) - |tail|, _ => silence),
                 StampAt(run, TailStart(run, channels), channels),
                 run[0].generation)]
  }

  /** Everything handed to the encoder over a stream that ends in an orderly shutdown. */
  function FinalPackets<T>(frames: seq<PcmFrame<T>>, channels: nat, silence: T): seq<PcmPacket<T>>
    requires channels > 0
  {
    StreamPackets(frames, channels) + PaddedTail(frames, channels, silence)
  }

  // ----- The incremental assembler -----

  /** Pushes one frame from `offset` on, emitting every packet that fills up. */
  function Feed<T>(a: Assembly<T>, f: PcmFrame<T>, offset: nat, channels: nat): (Assembly<T>, seq<PcmPacket<T>>)
    requires channels > 0
    requires |a.pending| < PacketSamples(channels)
    requires offset <= |f.samples|
    decreases |f.samples| - offset
  {
    if offset == |f.samples| then (a, [])
    else
      var input := f.samples[offset..];
      var next := offset + PushCount(a, input, PacketSamples(channels));
      var b := Push(a, input, f.timestampNs, offset, channels);
      if |b.pending| == PacketSamples(channels) then
        var (c, packets) := Feed(Finish(b), f, next, channels);
        (c, [PcmPacket(b.pending, b.timestampNs, b.generation)] + packets)
      else
        Feed(b, f, next, channels)
  }

  /** The assembler and its output after a whole sequence of accepted frames. */
  function Assemble<T>(frames: seq<PcmFrame<T>>, channels: nat): (r: (Assembly<T>, seq<PcmPacket<T>>))
    requires channels > 0
    ensures |r.0.pending| < PacketSamples(channels)
  {
    if |frames| == 0 then (EmptyAssembly(), [])
    else
      var f := frames[|frames| - 1];
      var (a, packets) := Assemble(frames[..|frames| - 1], channels);
      FeedPending(Begin(a, f.sequence, f.generation), f, 0, channels);
      var (b, more) := Feed(Begin(a, f.sequence, f.generation), f, 0, channels);
      (b, packets + more)
  }

  lemma FeedPending<T>(a: Assembly<T>, f: PcmFrame<T>, offset: nat, channels: nat)
    requires channels > 0
    requires |a.pending| < PacketSamples(channels)
    requires offset <= |f.samples|
    ensures |Feed(a, f, offset, channels).0.pending| < PacketSamples(channels)
    decreases |f.samples| - offset
  {
  }

  // ----- Refinement -----

  lemma {:induction false} SamplesSnoc<T>(run: Run<T>, f: PcmFrame<T>)
    ensures Samples(run + [f]) == Samples(run) + f.samples
  {
    assert (run + [f])[..|run|] == run;
  }

  lemma {:induction false} StampSnoc<T>(run: Run<T>, f: PcmFrame<T>, p: nat, channels: nat)
    requires channels > 0
    requires p < |Samples(run + [f])|
    ensures StampAt(run + [f], p, channels) ==
            if p < |Samples(run)| then StampAt(run, p, channels)
            else StampAtOffset(f.timestampNs, p - |Samples(run)|, channels)
  {
    assert (run + [f])[..|run|] == run;
  }

  lemma {:induction false} Quotient(total: nat, q: nat, size: nat)
    requires size > 0
    requires q * size <= total < q * size + size
    ensures total / size == q
  {
    var r := total / size;
    assert total == r * size + total % size;
    MulCancel(r, q + 1, size);
    MulCancel(q, r + 1, size);
  }

  /** `a` holds the samples of `run` from `start` up to position `upTo`. */
  ghost predicate HoldsFrom<T>(a: Assembly<T>, run: Run<T>, start: nat, upTo: nat, channels: nat)
    requires channels > 0
  {
    && start <= upTo <= |Samples(run)|
    && a.pending == Samples(run)[start..upTo]
    && (a.pending != [] ==> a.timestampNs == StampAt(run, start, channels))
    && (|run| > 0 ==> a.generation == run[0].generation)
  }

  /** The same from packet boundary `q`. */
  ghost predicate Holds<T>(a: Assembly<T>, run: Run<T>, q: nat, upTo: nat, channels: nat)
    requires channels > 0
  {
    HoldsFrom(a, run, q * PacketSamples(channels), upTo, channels)
  }

  /** One push keeps holding the run up to the samples it consumed. */
  lemma {:induction false} PushHolds<T>(a: Assembly<T>, run: Run<T>, f: PcmFrame<T>, start: nat, offset: nat, channels: nat)
    requires channels > 0
    requires offset < |f.samples|
    requires |a.pending| < PacketSamples(channels)
    requires HoldsFrom(a, run + [f], start, |Samples(run)| + offset, channels)
    ensures var input := f.samples[offset..];
            var upTo := |Samples(run)| + offset + PushCount(a, input, PacketSamples(channels));
            HoldsFrom(Push(a, input, f.timestampNs, offset, channels), run + [f], start, upTo, channels)
  {
    hide StampAt, Samples, PacketSamples, StampAtOffset;
    var all := Samples(run + [f]);
    SamplesSnoc(run, f);
    var base := |Samples(run)|;
    var input := f.samples[offset..];
    var count := PushCount(a, input, PacketSamples(channels));
    StampSnoc(run, f, start, channels);
    assert all[start..base + offset + count] == all[start..base + offset] + input[..count];
  }

  lemma {:induction false} FeedRefines<T>(a: Assembly<T>, run: Run<T>, f: PcmFrame<T>, q: nat, offset: nat, channels: nat)
    requires channels > 0
    requires offset <= |f.samples|
    requires |a.pending| < PacketSamples(channels)
    requires Holds(a, run + [f], q, |Samples(run)| + offset, channels)
    ensures Fed(a, run, f, q, offset, channels)
    decreases |f.samples| - offset
  {
    hide StampAt, Samples, PacketAt, RunPackets, PacketSamples, HoldsFrom;
    SamplesSnoc(run, f);
    if offset == |f.samples| {
      FeedNothing(a, run, f, q, channels);
    } else {
      PushHolds(a, run, f, q * PacketSamples(channels), offset, channels);
      var input := f.samples[offset..];
      var b := Push(a, input, f.timestampNs, offset, channels);
      if |b.pending| == PacketSamples(channels) {
        FeedFull(a, run, f, q, offset, channels);
      } else {
        FeedRefines(b, run, f, q, offset + PushCount(a, input, PacketSamples(channels)), channels);
      }
    }
  }

  /** Feeding the rest of `f` emits the packets of the run from the `q`-th on and keeps its tail. */
  ghost predicate Fed<T>(a: Assembly<T>, run: Run<T>, f: PcmFrame<T>, q: nat, offset: nat, channels: nat)
    requires channels > 0 && offset <= |f.samples| && |a.pending| < PacketSamples(channels)
  {
    var whole := run + [f];
    var r := Feed(a, f, offset, channels);
    && q <= PacketCount(whole, channels)
    && r.1 == RunPackets(whole, channels)[q..]
    && Holds(r.0, whole, PacketCount(whole, channels), |Samples(whole)|, channels)
    && r.0.expected == a.expected
  }

  lemma {:induction false} FeedNothing<T>(a: Assembly<T>, run: Run<T>, f: PcmFrame<T>, q: nat, channels: nat)
    requires channels > 0 && |a.pending| < PacketSamples(channels)
    requires Holds(a, run + [f], q, |Samples(run + [f])|, channels)
    ensures Fed(a, run, f, q, |f.samples|, channels)
  {
    hide StampAt, Samples, PacketAt, PacketSamples, RunPackets;
    var whole := run + [f];
    Quotient(|Samples(whole)|, q, PacketSamples(channels));
    assert RunPackets(whole, channels)[q..] == [];
  }

  /** A filled packet is the next packet of the run. */
  lemma {:induction false} FilledPacket<T>(b: Assembly<T>, whole: Run<T>, q: nat, upTo: nat, channels: nat)
    requires channels > 0 && |whole| > 0
    requires Holds(b, whole, q, upTo, channels) && |b.pending| == PacketSamples(channels)
    ensures upTo == (q + 1) * PacketSamples(channels)
    ensures q < PacketCount(whole, channels)
    ensures RunPackets(whole, channels)[q] == PcmPacket(b.pending, b.timestampNs, b.generation)
    ensures Holds(Finish(b), whole, q + 1, upTo, channels)
  {
    hide StampAt, Samples, RunPackets;
    var size := PacketSamples(channels);
    Distribute(size, q, 1);
    assert q * size == size * q && (q + 1) * size == size * (q + 1);
    PacketCounted(|Samples(whole)|, q, size);
    assert Samples(whole)[upTo..upTo] == [];
  }

  lemma {:induction false} PacketCounted(total: nat, q: nat, size: nat)
    requires size > 0 && (q + 1) * size <= total
    ensures q < total / size
  {
    DivMonotone((q + 1) * size, total, size);
    Quotient((q + 1) * size, q + 1, size);
  }

  lemma {:induction false} FeedFull<T>(a: Assembly<T>, run: Run<T>, f: PcmFrame<T>, q: nat, offset: nat, channels: nat)
    requires channels > 0
    requires offset < |f.samples|
    requires |a.pending| < PacketSamples(channels)
    requires var input := f.samples[offset..];
             var b := Push(a, input, f.timestampNs, offset, channels);
             var upTo := |Samples(run)| + offset + PushCount(a, input, PacketSamples(channels));
             && |b.pending| == PacketSamples(channels)
             && Holds(b, run + [f], q, upTo, channels)
    ensures Fed(a, run, f, q, offset, channels)
    decreases |f.samples| - offset, 0
  {
    hide StampAt, Samples, PacketSamples, RunPackets, Holds, PacketAt;
    var whole := run + [f];
    var input := f.samples[offset..];
    var count := PushCount(a, input, PacketSamples(channels));
    var b := Push(a, input, f.timestampNs, offset, channels);
    FilledPacket(b, whole, q, |Samples(run)| + offset + count, channels);
    FeedRefines(Finish(b), run, f, q + 1, offset + count, channels);
    var packets := RunPackets(whole, channels);
    assert packets[q..] == [packets[q]] + packets[q + 1..];
  }

  lemma {:induction false} RunPacketsPrefix<T>(run: Run<T>, f: PcmFrame<T>, channels: nat)
    requires channels > 0
    requires |run| > 0
    ensures PacketCount(run, channels) <= PacketCount(run + [f], channels)
    ensures RunPackets(run + [f], channels)[..PacketCount(run, channels)] == RunPackets(run, channels)
  {
    var whole := run + [f];
    var size := PacketSamples(channels);
    SamplesSnoc(run, f);
    var n := PacketCount(run, channels);
    DivMonotone(|Samples(run)|, |Samples(whole)|, size);
    forall k | 0 <= k < n
      ensures PacketAt(whole, k, channels) == PacketAt(run, k, channels)
    {
      PacketFits(|Samples(run)|, k, size);
      PacketFits(|Samples(whole)|, k, size);
      StampSnoc(run, f, k * size, channels);
      assert Samples(whole)[k * size..k * size + size] == Samples(run)[k * size..k * size + size];
    }
  }

  /** What the assembler remembers between frames. */
  ghost predicate Remembers<T>(a: Assembly<T>, frames: seq<PcmFrame<T>>, channels: nat)
    requires channels > 0
  {
    if |frames| == 0 then a == EmptyAssembly()
    else
      var runs := SplitRuns(frames);
      && |runs| > 0
      && var run := runs[|runs| - 1];
      && var last := frames[|frames| - 1];
      && Holds(a, run, PacketCount(run, channels), |Samples(run)|, channels)
      && a.expected == Some(NextSequence(last.sequence))
      && a.generation == last.generation
  }

  /** The incremental assembler emits exactly the packets of the reference and keeps its tail. */
  lemma {:induction false} AssembleRefines<T>(frames: seq<PcmFrame<T>>, channels: nat)
    requires channels > 0
    ensures Remembers(Assemble(frames, channels).0, frames, channels)
    ensures Assemble(frames, channels).0.pending == StreamTail(frames, channels)
    ensures Assemble(frames, channels).1 == StreamPackets(frames, channels)
  {
    hide Remembers, Feed, StreamTail, StreamPackets, Assemble;
    AssembleNothing<T>(channels);
    if |frames| > 0 {
      AssembleRefines(frames[..|frames| - 1], channels);
      if |frames| > 1 && Continues(frames[|frames| - 2], frames[|frames| - 1]) {
        AssembleContinue(frames, channels);
      } else {
        AssembleFresh(frames, channels);
      }
    }
    TailRemembered(Assemble(frames, channels).0, frames, channels);
  }

  lemma {:induction false} AssembleNothing<T>(channels: nat)
    requires channels > 0
    ensures Remembers<T>(Assemble([], channels).0, [], channels)
    ensures Assemble<T>([], channels).1 == StreamPackets([], channels)
  {
  }

  lemma {:induction false} TailRemembered<T>(a: Assembly<T>, frames: seq<PcmFrame<T>>, channels: nat)
    requires channels > 0 && Remembers(a, frames, channels)
    ensures a.pending == StreamTail(frames, channels)
  {
    SplitRunsShape(frames);
  }

  lemma {:induction false} AssembleContinue<T>(frames: seq<PcmFrame<T>>, channels: nat)
    requires channels > 0
    requires |frames| > 0
    requires var rest := frames[..|frames| - 1];
             && Remembers(Assemble(rest, channels).0, rest, channels)
             && Assemble(rest, channels).1 == StreamPackets(rest, channels)
    requires |frames| > 1 && Continues(frames[|frames| - 2], frames[|frames| - 1])
    ensures Remembers(Assemble(frames, channels).0, frames, channels)
    ensures Assemble(frames, channels).1 == StreamPackets(frames, channels)
  {
    var rest := frames[..|frames| - 1];
    var f := LastOf(frames);
    var (a, packets) := Assemble(rest, channels);
    SplitRunsShape(rest);
    var before := SplitRuns(rest);
    var run := before[|before| - 1];
    ContinueRun(a, run, f, channels);
    var (b, more) := Feed(Begin(a, f.sequence, f.generation), f, 0, channels);
    assert SplitRuns(frames) == before[..|before| - 1] + [run + [f]];
    AllPacketsLengthened(before, f, more, channels);
  }

  lemma {:induction false} AssembleFresh<T>(frames: seq<PcmFrame<T>>, channels: nat)
    requires channels > 0
    requires |frames| > 0
    requires var rest := frames[..|frames| - 1];
             && Remembers(Assemble(rest, channels).0, rest, channels)
             && Assemble(rest, channels).1 == StreamPackets(rest, channels)
    requires |frames| > 1 ==> !Continues(frames[|frames| - 2], frames[|frames| - 1])
    ensures Remembers(Assemble(frames, channels).0, frames, channels)
    ensures Assemble(frames, channels).1 == StreamPackets(frames, channels)
  {
    var rest := frames[..|frames| - 1];
    var f := LastOf(frames);
    var (a, packets) := Assemble(rest, channels);
    SplitRunsShape(rest);
    var before := SplitRuns(rest);
    FreshRun(a, rest, f, channels);
    var (b, more) := Feed(Begin(a, f.sequence, f.generation), f, 0, channels);
    assert SplitRuns(frames) == before + [[f]];
    AllPacketsSnoc(before, [f], channels);
  }

  lemma {:induction false} SplitRunsShape<T>(frames: seq<PcmFrame<T>>)
    ensures var runs := SplitRuns(frames);
            && (|runs| == 0 <==> |frames| == 0)
            && (forall i :: 0 <= i < |runs| ==> |runs[i]| > 0)
            && (|runs| > 0 ==> LastOf(runs[|runs| - 1]) == LastOf(frames))
  {
    SplitRunsPartitions(frames);
  }

  lemma {:induction false} AllPacketsSnoc<T>(runs: seq<Run<T>>, run: Run<T>, channels: nat)
    requires channels > 0
    requires forall i :: 0 <= i < |runs| ==> |runs[i]| > 0
    requires |run| > 0
    ensures AllPackets(runs + [run], channels) == AllPackets(runs, channels) + RunPackets(run, channels)
  {
    assert (runs + [run])[..|runs|] == runs;
  }

  lemma {:induction false} AllPacketsLengthened<T>(runs: seq<Run<T>>, f: PcmFrame<T>, more: seq<PcmPacket<T>>, channels: nat)
    requires channels > 0
    requires |runs| > 0
    requires forall i :: 0 <= i < |runs| ==> |runs[i]| > 0
    requires RunPackets(runs[|runs| - 1] + [f], channels) == RunPackets(runs[|runs| - 1], channels) + more
    ensures AllPackets(runs[..|runs| - 1] + [runs[|runs| - 1] + [f]], channels) == AllPackets(runs, channels) + more
  {
    var longer := runs[..|runs| - 1] + [runs[|runs| - 1] + [f]];
    assert longer[..|longer| - 1] == runs[..|runs| - 1];
  }

  lemma {:induction false} ContinueRun<T>(a: Assembly<T>, run: Run<T>, f: PcmFrame<T>, channels: nat)
    requires channels > 0
    requires |run| > 0 && Continues(LastOf(run), f)
    requires Holds(a, run, PacketCount(run, channels), |Samples(run)|, channels)
    requires a.expected == Some(NextSequence(LastOf(run).sequence))
    requires a.generation == LastOf(run).generation
    ensures |Begin(a, f.sequence, f.generation).pending| < PacketSamples(channels)
    ensures var r := Feed(Begin(a, f.sequence, f.generation), f, 0, channels);
            && RunPackets(run + [f], channels) == RunPackets(run, channels) + r.1
            && Holds(r.0, run + [f], PacketCount(run + [f], channels), |Samples(run + [f])|, channels)
            && r.0.expected == Some(NextSequence(f.sequence))
  {
    var q := PacketCount(run, channels);
    var begun := Begin(a, f.sequence, f.generation);
    assert q * PacketSamples(channels) == TailStart(run, channels);
    assert begun.pending == a.pending;
    SamplesSnoc(run, f);
    assert Samples(run + [f])[q * PacketSamples(channels)..|Samples(run)|] == a.pending;
    if a.pending != [] {
      StampSnoc(run, f, q * PacketSamples(channels), channels);
    }
    FeedRefines(begun, run, f, q, 0, channels);
    RunPacketsPrefix(run, f, channels);
    var packets := RunPackets(run + [f], channels);
    assert packets == packets[..q] + packets[q..];
  }

  lemma {:induction false} FreshRun<T>(a: Assembly<T>, rest: seq<PcmFrame<T>>, f: PcmFrame<T>, channels: nat)
    requires channels > 0
    requires Remembers(a, rest, channels)
    requires |rest| > 0 ==> !Continues(LastOf(rest), f)
    ensures Begin(a, f.sequence, f.generation).pending == []
    ensures var r := Feed(Begin(a, f.sequence, f.generation), f, 0, channels);
            && RunPackets([f], channels) == r.1
            && Holds(r.0, [f], PacketCount([f], channels), |Samples([f])|, channels)
            && r.0.expected == Some(NextSequence(f.sequence))
  {
    var begun := Begin(a, f.sequence, f.generation);
    assert [] + [f] == [f];
    assert Holds(begun, [] + [f], 0, 0, channels);
    FeedRefines(begun, [], f, 0, 0, channels);
  }

  // ----- Losses -----

  /** The sum of the boundaries the assembler reports. */
  function ReportedLosses<T>(frames: seq<PcmFrame<T>>, channels: nat): Boundary
    requires channels > 0
  {
    if |frames| == 0 then Boundary(0, 0)
    else
      var f := frames[|frames| - 1];
      var rest := frames[..|frames| - 1];
      var before := ReportedLosses(rest, channels);
      var now := BeginBoundary(Assemble(rest, channels).0, f.sequence, f.generation);
      Boundary(before.discontinuityDiscarded + now.discontinuityDiscarded,
               before.cancelledDiscarded + now.cancelledDiscarded)
  }

  /** Every reported loss is the tail of a run that was cut short, charged to the right cause. */
  lemma {:induction false} LossesRefine<T>(frames: seq<PcmFrame<T>>, channels: nat)
    requires channels > 0
    ensures ReportedLosses(frames, channels) == StreamLosses(frames, channels)
  {
    if |frames| > 0 {
      var rest := frames[..|frames| - 1];
      var f := LastOf(frames);
      LossesRefine(rest, channels);
      SplitRunsShape(rest);
      var runs := SplitRuns(rest);
      BoundaryIsTail(rest, f, channels);
      if |rest| > 0 && Continues(LastOf(rest), f) {
        LossesLengthened(runs, f, channels);
      } else {
        LossesSnoc(runs, f, channels);
      }
    }
  }

  /** What one `Begin` discards, in terms of the run it closes. */
  lemma {:induction false} BoundaryIsTail<T>(frames: seq<PcmFrame<T>>, f: PcmFrame<T>, channels: nat)
    requires channels > 0
    ensures var now := BeginBoundary(Assemble(frames, channels).0, f.sequence, f.generation);
            if |frames| == 0 || Continues(LastOf(frames), f) then now == Boundary(0, 0)
            else
              var runs := SplitRuns(frames);
              && |runs| > 0 && |runs[|runs| - 1]| > 0
              && var last := runs[|runs| - 1];
              && var lost := |Tail(last, channels)|;
              && now == if last[0].generation != f.generation then Boundary(0, lost) else Boundary(lost, 0)
  {
    AssembleRefines(frames, channels);
    SplitRunsPartitions(frames);
    if |frames| > 0 {
      var runs := SplitRuns(frames);
      RunHasOneGeneration(runs[|runs| - 1]);
    }
  }

  lemma {:induction false} LossesLengthened<T>(runs: seq<Run<T>>, f: PcmFrame<T>, channels: nat)
    requires channels > 0
    requires |runs| > 0
    requires forall i :: 0 <= i < |runs| ==> |runs[i]| > 0
    ensures Losses(runs[..|runs| - 1] + [runs[|runs| - 1] + [f]], channels) == Losses(runs, channels)
  {
    var longer := runs[..|runs| - 1] + [runs[|runs| - 1] + [f]];
    assert longer[..|longer| - 1] == runs[..|runs| - 1];
  }

  lemma {:induction false} LossesSnoc<T>(runs: seq<Run<T>>, f: PcmFrame<T>, channels: nat)
    requires channels > 0
    requires forall i :: 0 <= i < |runs| ==> |runs[i]| > 0
    ensures Losses(runs + [[f]], channels) ==
            if |runs| == 0 then Boundary(0, 0)
            else
              var last := runs[|runs| - 1];
              var lost := |Tail(last, channels)|;
              var before := Losses(runs, channels);
              if last[0].generation != f.generation
              then before.(cancelledDiscarded := before.cancelledDiscarded + lost)
              else before.(discontinuityDiscarded := before.discontinuityDiscarded + lost)
  {
    assert (runs + [[f]])[..|runs|] == runs;
  }

  lemma {:induction false} RunHasOneGeneration<T>(run: Run<T>)
    requires IsRun(run)
    ensures forall i :: 0 <= i < |run| ==> run[i].generation == run[0].generation
  {
    var n := 1;
    while n < |run|
      invariant 1 <= n <= |run|
      invariant forall i :: 0 <= i < n ==> run[i].generation == run[0].generation
    {
      assert Continues(run[n - 1], run[n]);
      n := n + 1;
    }
  }

  // ----- Consequences -----

  /** Every accepted sample is in a packet, in a reported loss, or still pending. */
  lemma {:induction false} SamplesConserved<T>(frames: seq<PcmFrame<T>>, channels: nat)
    requires channels > 0
    ensures |Samples(frames)| ==
            PacketSamples(channels) * |StreamPackets(frames, channels)|
            + StreamLosses(frames, channels).discontinuityDiscarded
            + StreamLosses(frames, channels).cancelledDiscarded
            + |StreamTail(frames, channels)|
  {
    SplitRunsPartitions(frames);
    RunsConserved(SplitRuns(frames), channels);
  }

  lemma {:induction false} RunsConserved<T>(runs: seq<Run<T>>, channels: nat)
    requires channels > 0
    requires forall i :: 0 <= i < |runs| ==> |runs[i]| > 0
    ensures |Samples(Flatten(runs))| ==
            PacketSamples(channels) * |AllPackets(runs, channels)|
            + Losses(runs, channels).discontinuityDiscarded
            + Losses(runs, channels).cancelledDiscarded
            + (if |runs| == 0 then 0 else |Tail(runs[|runs| - 1], channels)|)
  {
    hide Samples, Tail, RunPackets, PacketAt, PacketSamples;
    NoRunSamples<T>();
    if |runs| > 0 {
      var rest := runs[..|runs| - 1];
      var run := runs[|runs| - 1];
      RunsConserved(rest, channels);
      SamplesConcat(Flatten(rest), run);
      RunConserved(run, channels);
      Distribute(PacketSamples(channels), |AllPackets(rest, channels)|, PacketCount(run, channels));
    }
  }

  lemma {:induction false} NoRunSamples<T>()
    ensures Samples<T>([]) == []
  {
  }

  lemma {:induction false} SamplesConcat<T>(a: Run<T>, b: Run<T>)
    ensures Samples(a + b) == Samples(a) + Samples(b)
  {
    hide Samples;
    if |b| == 0 {
      assert a + b == a;
      NoRunSamples<T>();
    } else {
      var n := |b| - 1;
      SamplesConcat(a, b[..n]);
      SamplesSnoc(a + b[..n], b[n]);
      SamplesSnoc(b[..n], b[n]);
      assert a + b == (a + b[..n]) + [b[n]] && b == b[..n] + [b[n]];
    }
  }

  lemma {:induction false} Distribute(size: nat, a: nat, b: nat)
    ensures size * (a + b) == size * a + size * b
  {
  }

  lemma {:induction false} RunConserved<T>(run: Run<T>, channels: nat)
    requires channels > 0
    requires |run| > 0
    ensures |Samples(run)| == PacketSamples(channels) * PacketCount(run, channels) + |Tail(run, channels)|
  {
  }

  /** The same, at an orderly shutdown: accepted samples plus padding are all accounted for. */
  lemma {:induction false} ShutdownConserved<T>(frames: seq<PcmFrame<T>>, channels: nat, silence: T)
    requires channels > 0
    ensures var tail := |StreamTail(frames, channels)|;
            var padding := if tail == 0 then 0 else PacketSamples(channels) - tail;
            |Samples(frames)| + padding ==
            PacketSamples(channels) * |FinalPackets(frames, channels, silence)|
            + StreamLosses(frames, channels).discontinuityDiscarded
            + StreamLosses(frames, channels).cancelledDiscarded
  {
    hide Samples, StampAt, StreamPackets, StreamLosses, SplitRuns;
    SamplesConserved(frames, channels);
    Distribute(PacketSamples(channels), |StreamPackets(frames, channels)|, |PaddedTail(frames, channels, silence)|);
  }

  /** Two streams with the same runs of samples, however their callbacks were cut. */
  ghost predicate SameContent<T>(left: seq<Run<T>>, right: seq<Run<T>>) {
    && |left| == |right|
    && (forall i :: 0 <= i < |left| ==> |left[i]| > 0 && |right[i]| > 0)
    && (forall i :: 0 <= i < |left| ==>
          Samples(left[i]) == Samples(right[i]) && left[i][0].generation == right[i][0].generation)
  }

  /** The same packets but for their capture stamps. */
  ghost predicate Alike<T>(left: seq<PcmPacket<T>>, right: seq<PcmPacket<T>>) {
    && |left| == |right|
    && forall k :: 0 <= k < |left| ==> left[k].samples == right[k].samples && left[k].generation == right[k].generation
  }

  lemma {:induction false} AlikeConcat<T>(a: seq<PcmPacket<T>>, b: seq<PcmPacket<T>>, c: seq<PcmPacket<T>>, d: seq<PcmPacket<T>>)
    requires Alike(a, b) && Alike(c, d)
    ensures Alike(a + c, b + d)
  {
  }

  lemma {:induction false} SameRunPackets<T>(left: Run<T>, right: Run<T>, channels: nat)
    requires channels > 0 && |left| > 0 && |right| > 0
    requires Samples(left) == Samples(right) && left[0].generation == right[0].generation
    ensures Alike(RunPackets(left, channels), RunPackets(right, channels))
    ensures Tail(left, channels) == Tail(right, channels)
  {
    hide StampAt, Samples;
  }

  /** Only the content of the runs decides packets and losses. */
  lemma {:induction false} RunContentDecides<T>(left: seq<Run<T>>, right: seq<Run<T>>, channels: nat)
    requires channels > 0
    requires SameContent(left, right)
    ensures Alike(AllPackets(left, channels), AllPackets(right, channels))
    ensures Losses(left, channels) == Losses(right, channels)
  {
    hide Alike, RunPackets, StampAt, Samples;
    NothingAlike<T>();
    if |left| > 0 {
      var n := |left| - 1;
      RunContentDecides(left[..n], right[..n], channels);
      SameRunPackets(left[n], right[n], channels);
      AlikeConcat(AllPackets(left[..n], channels), AllPackets(right[..n], channels),
                  RunPackets(left[n], channels), RunPackets(right[n], channels));
      if n > 0 {
        SameRunPackets(left[n - 1], right[n - 1], channels);
      }
    }
  }

  lemma {:induction false} NothingAlike<T>()
    ensures Alike<T>([], [])
  {
  }

  /**
   Packets do not depend on callback widths: two streams whose maximal runs hold the same samples
   are assembled into the same packets and losses, the padded last packet included.
   */
  lemma {:induction false} CallbackWidthsDoNotMatter<T>(left: seq<PcmFrame<T>>, right: seq<PcmFrame<T>>, channels: nat, silence: T)
    requires channels > 0
    requires SameContent(SplitRuns(left), SplitRuns(right))
    ensures Alike(Assemble(left, channels).1, Assemble(right, channels).1)
    ensures Alike(FinalPackets(left, channels, silence), FinalPackets(right, channels, silence))
    ensures StreamLosses(left, channels) == StreamLosses(right, channels)
    ensures Assemble(left, channels).0.pending == Assemble(right, channels).0.pending
  {
    hide Alike, Assemble, StampAt, Samples, Tail, SplitRuns;
    AssembleRefines(left, channels);
    AssembleRefines(right, channels);
    RunContentDecides(SplitRuns(left), SplitRuns(right), channels);
    SamePaddedTail(left, right, channels, silence);
    AlikeConcat(StreamPackets(left, channels), StreamPackets(right, channels),
                PaddedTail(left, channels, silence), PaddedTail(right, channels, silence));
  }

  lemma {:induction false} SamePaddedTail<T>(left: seq<PcmFrame<T>>, right: seq<PcmFrame<T>>, channels: nat, silence: T)
    requires channels > 0
    requires SameContent(SplitRuns(left), SplitRuns(right))
    ensures StreamTail(left, channels) == StreamTail(right, channels)
    ensures Alike(PaddedTail(left, channels, silence), PaddedTail(right, channels, silence))
  {
    hide StampAt, Samples, SplitRuns;
    var n := |SplitRuns(left)|;
    if n > 0 {
      SameRunPackets(SplitRuns(left)[n - 1], SplitRuns(right)[n - 1], channels);
    }
  }

  predicate OneGeneration<T>(run: Run<T>, generation: Option<nat>) {
    forall j :: 0 <= j < |run| ==> run[j].generation == generation
  }

  /** The packet is the slice of the run from `start`, stamped there, and the run belongs to its generation alone. */
  ghost predicate IsSlice<T>(packet: PcmPacket<T>, run: Run<T>, start: nat, channels: nat)
    requires channels > 0
  {
    && start + PacketSamples(channels) <= |Samples(run)|
    && packet.samples == Samples(run)[start..start + PacketSamples(channels)]
    && packet.timestampNs == StampAt(run, start, channels)
    && OneGeneration(run, packet.generation)
  }

  lemma {:induction false} PacketIsSlice<T>(run: Run<T>, k: nat, channels: nat)
    requires channels > 0 && IsRun(run) && k < |RunPackets(run, channels)|
    ensures IsSlice(RunPackets(run, channels)[k], run, k * PacketSamples(channels), channels)
  {
    hide StampAt, Samples, Continues;
    PacketFits(|Samples(run)|, k, PacketSamples(channels));
    RunHasOneGeneration(run);
  }

  lemma {:induction false} MaximalPrefix<T>(runs: seq<Run<T>>)
    requires MaximalRuns(runs) && |runs| > 0
    ensures MaximalRuns(runs[..|runs| - 1]) && IsRun(runs[|runs| - 1])
  {
    hide Continues;
  }

  /** Every packet is a slice of one run, and that run belongs to the packet's generation alone. */
  lemma {:induction false} PacketHasOneGeneration<T>(runs: seq<Run<T>>, k: nat, channels: nat)
    returns (i: nat, start: nat)
    requires channels > 0
    requires MaximalRuns(runs)
    requires k < |AllPackets(runs, channels)|
    ensures i < |runs|
    ensures IsSlice(AllPackets(runs, channels)[k], runs[i], start, channels)
  {
    hide IsSlice, Continues, RunPackets, PacketAt, PacketSamples;
    var n := |runs|;
    MaximalPrefix(runs);
    var before := AllPackets(runs[..n - 1], channels);
    if k < |before| {
      i, start := PacketHasOneGeneration(runs[..n - 1], k, channels);
    } else {
      i, start := n - 1, (k - |before|) * PacketSamples(channels);
      PacketIsSlice(runs[i], k - |before|, channels);
    }
  }

  /** Every packet the assembler emits over a stream is a slice of one of its maximal runs and of no other generation. */
  lemma {:induction false} AssembledPacketHasOneGeneration<T>(frames: seq<PcmFrame<T>>, k: nat, channels: nat)
    returns (i: nat, start: nat)
    requires channels > 0
    requires k < |Assemble(frames, channels).1|
    ensures i < |SplitRuns(frames)|
    ensures IsSlice(Assemble(frames, channels).1[k], SplitRuns(frames)[i], start, channels)
  {
    hide Assemble, SplitRuns, IsSlice, AllPackets;
    AssembleRefines(frames, channels);
    SplitRunsPartitions(frames);
    i, start := PacketHasOneGeneration(SplitRuns(frames), k, channels);
  }

  /** So is the padded last packet: silence behind the tail of the last run, under that run's one generation. */
  lemma {:induction false} PaddedPacketHasOneGeneration<T>(frames: seq<PcmFrame<T>>, channels: nat, silence: T)
    requires channels > 0 && StreamTail(frames, channels) != []
    ensures var runs := SplitRuns(frames);
            var tail := StreamTail(frames, channels);
            && |runs| > 0 && |PaddedTail(frames, channels, silence)| == 1
            && var packet := PaddedTail(frames, channels, silence)[0];
            && |packet.samples| == PacketSamples(channels) && packet.samples[..|tail|] == tail
            && (forall j :: |tail| <= j < |packet.samples| ==> packet.samples[j] == silence)
            && OneGeneration(runs[|runs| - 1], packet.generation)
  {
    hide StampAt, Samples, SplitRuns, Continues;
    SplitRunsPartitions(frames);
    var runs := SplitRuns(frames);
    RunHasOneGeneration(runs[|runs| - 1]);
  }
}
