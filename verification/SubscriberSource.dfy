/**
 The subscriber's decode state machine (relay/src/source.rs): discontinuity epochs, the
 mapping of RTP time to local time, and what became of every received frame.

 The first half says what a run of received frames means, by counting over the whole run.
 The second half is the driver, which keeps only a handful of fields and is proved against it.
 */
module SubscriberSource {
  import opened Basics

  type ClockHz = hz: nat | 0 < hz witness 48_000

  datatype Encoded = Encoded(rtp: nat, clockHz: ClockHz, contiguous: bool)

  /** A received frame and the local time at which it was decoded. */
  datatype Arrival = Arrival(frame: Encoded, nowNs: nat)

  datatype Outcome = Emitted | Dropped

  datatype Decoded = Decoded(timestampNs: nat, durationNs: nat, sequence: nat, epoch: nat)

  /** One packet: 960 samples at 48 kHz. */
  const DURATION_NS: nat := 20_000_000

  // ----- What a run means -----

  predicate GapAt(f: seq<Arrival>, i: nat)
    requires i < |f|
  {
    i > 0 && !f[i].frame.contiguous
  }

  predicate BackAt(f: seq<Arrival>, i: nat)
    requires i < |f|
  {
    i > 0 && f[i].frame.rtp < f[i - 1].frame.rtp
  }

  function One(b: bool): nat {
    if b then 1 else 0
  }

  function Gaps(f: seq<Arrival>): nat {
    if |f| == 0 then 0 else Gaps(f[..|f| - 1]) + One(GapAt(f, |f| - 1))
  }

  function StepsBack(f: seq<Arrival>): nat {
    if |f| == 0 then 0 else StepsBack(f[..|f| - 1]) + One(BackAt(f, |f| - 1))
  }

  function Drops(o: seq<Outcome>): nat {
    if |o| == 0 then 0 else Drops(o[..|o| - 1]) + One(o[|o| - 1].Dropped?)
  }

  /** Everything lost or reordered so far. */
  function Breaks(f: seq<Arrival>, o: seq<Outcome>): nat {
    Gaps(f) + StepsBack(f) + Drops(o)
  }

  /** The frame whose RTP time and local time the newest frame is measured from. */
  function Base(f: seq<Arrival>): (b: nat)
    requires |f| > 0
    ensures b < |f|
  {
    var n := |f| - 1;
    if n == 0 || BackAt(f, n) then n else Base(f[..n])
  }

  function Ticks(f: seq<Arrival>): (ticks: int)
    requires |f| > 0
  {
    f[|f| - 1].frame.rtp - f[Base(f)].frame.rtp
  }

  /** The newest frame after the earlier ones met their outcomes. */
  function Newest(f: seq<Arrival>, o: seq<Outcome>): Decoded
    requires |f| == |o| + 1
  {
    BaseBelow(f);
    Decoded(Stamp(f), DURATION_NS, Min(|o|, U64_MAX), Min(Breaks(f, o), U64_MAX))
  }

  function Stamp(f: seq<Arrival>): nat
    requires |f| > 0 && Ticks(f) >= 0
  {
    Min(f[Base(f)].nowNs + Ticks(f) * NS_PER_SECOND / f[|f| - 1].frame.clockHz, U64_MAX)
  }

  /** What the driver hands on: the emitted frames, in order. */
  function Outputs(f: seq<Arrival>, o: seq<Outcome>): seq<Decoded>
    requires |f| == |o|
  {
    if |o| == 0 then []
    else
      var n := |o| - 1;
      Outputs(f[..n], o[..n]) + (if o[n].Emitted? then [Newest(f, o[..n])] else [])
  }

  ghost predicate Accounts(f: seq<Arrival>, o: seq<Outcome>, outputs: seq<Decoded>) {
    |o| <= |f| && outputs == Outputs(f[..|o|], o)
  }

  /** Which received frames were emitted. */
  function Positions(o: seq<Outcome>): seq<nat> {
    if |o| == 0 then []
    else
      var n := |o| - 1;
      Positions(o[..n]) + (if o[n].Emitted? then [n] else [])
  }

  lemma {:induction false} BaseBelow(f: seq<Arrival>)
    requires |f| > 0
    ensures Ticks(f) >= 0
  {
    var n := |f| - 1;
    if n > 0 && !BackAt(f, n) {
      BaseBelow(f[..n]);
    }
  }

  /** The driver's arithmetic: saturating where the 64-bit values would overflow. */
  function LocalTime(encoded: Encoded, firstRtp: nat, firstLocal: nat): (t: nat)
    ensures encoded.rtp >= firstRtp ==>
              t == Min(firstLocal + (encoded.rtp - firstRtp) * NS_PER_SECOND / encoded.clockHz, U64_MAX)
  {
    var deltaTicks := if encoded.rtp < firstRtp then 0 else encoded.rtp - firstRtp;
    var deltaNs := Min(deltaTicks * NS_PER_SECOND / encoded.clockHz, U64_MAX);
    SatAdd(firstLocal, deltaNs)
  }

  /** What the driver keeps of the frames it has decoded. */
  datatype Memory = Memory(
    seenFrame: bool,
    previousRtp: Option<nat>,
    firstRtp: Option<nat>,
    firstLocal: Option<nat>,
    nextSequence: nat,
    epoch: nat,
    received: nat,
    noncontiguous: nat)

  predicate Below(rtp: nat, previous: Option<nat>) {
    previous.Some? && rtp < previous.value
  }

  /** The memory once a frame's arrival has been noted. */
  function Note(m: Memory, encoded: Encoded): Memory {
    var gap := One(m.seenFrame && !encoded.contiguous);
    var back := Below(encoded.rtp, m.previousRtp);
    m.(seenFrame := true, previousRtp := Some(encoded.rtp), received := m.received + 1,
       epoch := Min(m.epoch + gap + One(back), U64_MAX), noncontiguous := m.noncontiguous + gap,
       firstRtp := if back then None else m.firstRtp, firstLocal := if back then None else m.firstLocal)
  }

  /** The memory once a noted frame has decoded at local time `a.nowNs`. */
  function Place(m: Memory, a: Arrival): Memory {
    m.(nextSequence := SatAdd(m.nextSequence, 1),
       firstRtp := Some(if m.firstRtp.None? then a.frame.rtp else m.firstRtp.value),
       firstLocal := Some(if m.firstLocal.None? then a.nowNs else m.firstLocal.value))
  }

  /** The frame made from the memory it was placed in. */
  function Placed(m: Memory, encoded: Encoded, sequence: nat): Decoded
    requires m.firstRtp.Some? && m.firstLocal.Some?
  {
    Decoded(LocalTime(encoded, m.firstRtp.value, m.firstLocal.value), DURATION_NS, sequence, m.epoch)
  }

  ghost predicate Remembers(f: seq<Arrival>, o: seq<Outcome>, m: Memory) {
    && m.seenFrame == (|f| > 0)
    && m.previousRtp == (if |f| == 0 then None else Some(f[|f| - 1].frame.rtp))
    && m.firstRtp == (if |f| == 0 then None else Some(f[Base(f)].frame.rtp))
    && m.firstLocal == (if |f| == 0 then None else Some(f[Base(f)].nowNs))
    && m.nextSequence == Min(|f|, U64_MAX)
    && m.epoch == Min(Breaks(f, o), U64_MAX)
    && m.received == |f|
    && m.noncontiguous == Gaps(f)
  }

  /** One more frame: the memory still says what the run means, and the frame is the run's newest. */
  lemma {:induction false} OneMore(f: seq<Arrival>, o: seq<Outcome>, m: Memory, a: Arrival)
    requires |f| == |o| && Remembers(f, o, m)
    ensures var placed := Place(Note(m, a.frame), a);
            && Remembers(f + [a], o, placed)
            && Placed(placed, a.frame, m.nextSequence) == Newest(f + [a], o)
  {
    assert (f + [a])[..|f|] == f;
    BaseBelow(f + [a]);
  }

  lemma {:induction false} RememberOutcome(f: seq<Arrival>, o: seq<Outcome>, m: Memory)
    requires |f| == |o| + 1 && Remembers(f, o, m)
    ensures Remembers(f, o + [Dropped], m.(epoch := SatAdd(m.epoch, 1)))
    ensures Remembers(f, o + [Emitted], m)
  {
    assert (o + [Dropped])[..|o|] == o && (o + [Emitted])[..|o|] == o;
  }

  lemma {:induction false} StillAccounts(f: seq<Arrival>, o: seq<Outcome>, outputs: seq<Decoded>, a: Arrival)
    requires Accounts(f, o, outputs)
    ensures Accounts(f + [a], o, outputs)
  {
    assert (f + [a])[..|o|] == f[..|o|];
  }

  lemma {:induction false} PositionsInRange(o: seq<Outcome>, j: nat)
    requires j < |Positions(o)|
    ensures Positions(o)[j] < |o| && o[Positions(o)[j]].Emitted?
  {
    var n := |o| - 1;
    if j < |Positions(o[..n])| {
      PositionsInRange(o[..n], j);
    }
  }

  /** Between two consecutive outputs lie only dropped frames. */
  lemma {:induction false} PositionsConsecutive(o: seq<Outcome>, j: nat)
    requires j + 1 < |Positions(o)|
    ensures Positions(o)[j] < Positions(o)[j + 1] < |o|
    ensures forall i :: Positions(o)[j] < i < Positions(o)[j + 1] ==> o[i].Dropped?
    ensures Positions(o)[j + 1] == Positions(o)[j] + 1 || o[Positions(o)[j] + 1].Dropped?
  {
    var n := |o| - 1;
    PositionsInRange(o, j + 1);
    if j + 1 < |Positions(o[..n])| {
      PositionsConsecutive(o[..n], j);
    } else {
      LastPosition(o[..n]);
    }
  }

  lemma {:induction false} LastPosition(o: seq<Outcome>)
    requires |Positions(o)| > 0
    ensures var p := Positions(o)[|Positions(o)| - 1]; p < |o| && forall i :: p < i < |o| ==> o[i].Dropped?
  {
    var n := |o| - 1;
    if o[n].Dropped? {
      LastPosition(o[..n]);
    }
  }

  lemma {:induction false} PositionsAscend(o: seq<Outcome>, i: nat, j: nat)
    requires i < j < |Positions(o)|
    ensures Positions(o)[i] + (j - i) <= Positions(o)[j] < |o|
  {
    PositionsConsecutive(o, j - 1);
    if i < j - 1 {
      PositionsAscend(o, i, j - 1);
    }
  }

  lemma {:induction false} OutputAt(f: seq<Arrival>, o: seq<Outcome>, j: nat)
    requires |f| == |o| && j < |Positions(o)|
    ensures |Outputs(f, o)| == |Positions(o)|
    ensures Positions(o)[j] < |o|
    ensures Outputs(f, o)[j] == Newest(f[..Positions(o)[j] + 1], o[..Positions(o)[j]])
  {
    OutputsMatch(f, o);
    PositionsInRange(o, j);
    var n := |o| - 1;
    OutputsMatch(f[..n], o[..n]);
    if j < |Positions(o[..n])| {
      var p := Positions(o)[j];
      OutputAt(f[..n], o[..n], j);
      assert f[..n][..p + 1] == f[..p + 1] && o[..n][..p] == o[..p];
    } else {
      assert f[..n + 1] == f;
    }
  }

  lemma {:induction false} OutputsMatch(f: seq<Arrival>, o: seq<Outcome>)
    requires |f| == |o|
    ensures |Outputs(f, o)| == |Positions(o)|
  {
    if |o| > 0 {
      OutputsMatch(f[..|o| - 1], o[..|o| - 1]);
    }
  }

  /** Breaks up to the arrival of frame `k`. */
  function BreaksAt(f: seq<Arrival>, o: seq<Outcome>, k: nat): nat
    requires k < |f| && k <= |o|
  {
    Breaks(f[..k + 1], o[..k])
  }

  lemma {:induction false} BreaksStep(f: seq<Arrival>, o: seq<Outcome>, k: nat)
    requires k + 1 < |f| && k + 1 <= |o|
    ensures BreaksAt(f, o, k + 1)
         == BreaksAt(f, o, k) + One(GapAt(f, k + 1)) + One(BackAt(f, k + 1)) + One(o[k].Dropped?)
  {
    assert f[..k + 2][..k + 1] == f[..k + 1];
    assert o[..k + 1][..k] == o[..k];
  }

  lemma {:induction false} BreaksGrow(f: seq<Arrival>, o: seq<Outcome>, k: nat, m: nat)
    requires k <= m < |f| && m <= |o|
    ensures BreaksAt(f, o, k) <= BreaksAt(f, o, m)
  {
    if k < m {
      BreaksGrow(f, o, k, m - 1);
      BreaksStep(f, o, m - 1);
    }
  }

  /** No break was counted between two frames exactly when nothing was lost or reordered between them. */
  ghost predicate Quiet(f: seq<Arrival>, o: seq<Outcome>, k: nat, m: nat)
    requires k <= m < |f| && m <= |o|
  {
    && (forall i :: k < i <= m ==> !GapAt(f, i) && !BackAt(f, i))
    && (forall i :: k <= i < m ==> o[i].Emitted?)
  }

  lemma {:induction false} QuietMeansNoBreaks(f: seq<Arrival>, o: seq<Outcome>, k: nat, m: nat)
    requires k <= m < |f| && m <= |o|
    ensures BreaksAt(f, o, k) == BreaksAt(f, o, m) <==> Quiet(f, o, k, m)
  {
    if k < m {
      BreaksGrow(f, o, k, m - 1);
      BreaksStep(f, o, m - 1);
      QuietMeansNoBreaks(f, o, k, m - 1);
      assert GapAt(f, m) || BackAt(f, m) || o[m - 1].Dropped? ==> !Quiet(f, o, k, m);
    }
  }

  /**
   Two outputs share an epoch exactly when nothing was lost or reordered between them: every
   frame between was emitted, none arrived after a gap, none stepped back in RTP time. Then
   their sequence numbers differ by their distance. The 64-bit epoch counter must not be
   exhausted by the first of the two.
   */
  lemma {:induction false} EpochsMarkLoss(f: seq<Arrival>, o: seq<Outcome>, i: nat, j: nat)
    requires |f| == |o| && i < j < |Positions(o)|
    ensures |Outputs(f, o)| == |Positions(o)| && Positions(o)[i] < Positions(o)[j] < |o|
    ensures var k, m := Positions(o)[i], Positions(o)[j];
            Outputs(f, o)[i].epoch == Outputs(f, o)[j].epoch <==> Quiet(f, o, k, m) || BreaksAt(f, o, k) >= U64_MAX
    ensures Quiet(f, o, Positions(o)[i], Positions(o)[j]) && |f| <= U64_MAX ==>
              Outputs(f, o)[j].sequence == Outputs(f, o)[i].sequence + (j - i)
  {
    var k, m := Positions(o)[i], Positions(o)[j];
    OutputAt(f, o, i);
    OutputAt(f, o, j);
    PositionsAscend(o, i, j);
    BreaksGrow(f, o, k, m);
    QuietMeansNoBreaks(f, o, k, m);
    if Quiet(f, o, k, m) {
      QuietPositions(f, o, i, j);
    }
  }

  lemma {:induction false} QuietPositions(f: seq<Arrival>, o: seq<Outcome>, i: nat, j: nat)
    requires |f| == |o| && i < j < |Positions(o)|
    requires Positions(o)[i] < Positions(o)[j] < |o| && Quiet(f, o, Positions(o)[i], Positions(o)[j])
    ensures Positions(o)[j] == Positions(o)[i] + (j - i)
  {
    PositionsConsecutive(o, j - 1);
    var p := Positions(o)[j - 1];
    if i < j - 1 {
      PositionsAscend(o, i, j - 1);
      QuietPositions(f, o, i, j - 1);
    }
  }

  /** For consecutive outputs: the next frame received, without gap or step back. */
  lemma {:induction false} ConsecutiveOutputs(f: seq<Arrival>, o: seq<Outcome>, j: nat)
    requires |f| == |o| <= U64_MAX / 3 && j + 1 < |Positions(o)|
    ensures |Outputs(f, o)| == |Positions(o)| && Positions(o)[j] < Positions(o)[j + 1] < |o|
    ensures var k, m := Positions(o)[j], Positions(o)[j + 1];
            (Outputs(f, o)[j].epoch == Outputs(f, o)[j + 1].epoch) ==
            (m == k + 1 && f[m].frame.contiguous && f[k].frame.rtp <= f[m].frame.rtp)
    ensures Outputs(f, o)[j].epoch == Outputs(f, o)[j + 1].epoch ==>
              Outputs(f, o)[j + 1].sequence == Outputs(f, o)[j].sequence + 1
  {
    EpochsMarkLoss(f, o, j, j + 1);
    PositionsConsecutive(o, j);
    PositionsInRange(o, j);
    var k, m := Positions(o)[j], Positions(o)[j + 1];
    BreaksBounded(f[..k + 1], o[..k]);
    if m == k + 1 {
      assert Quiet(f, o, k, m) <==> !GapAt(f, m) && !BackAt(f, m);
    } else {
      assert o[k + 1].Dropped?;
    }
  }

  lemma {:induction false} BreaksBounded(f: seq<Arrival>, o: seq<Outcome>)
    ensures Gaps(f) <= |f| && StepsBack(f) <= |f| && Drops(o) <= |o|
    decreases |f| + |o|
  {
    if |f| > 0 {
      BreaksBounded(f[..|f| - 1], o);
    } else if |o| > 0 {
      BreaksBounded(f, o[..|o| - 1]);
    }
  }

  // ----- Time -----

  /** While RTP time does not step back, the base stays and RTP time does not fall. */
  lemma {:induction false} BaseKept(f: seq<Arrival>, k: nat, m: nat)
    requires k <= m < |f|
    requires forall i :: k < i <= m ==> !BackAt(f, i)
    ensures Base(f[..k + 1]) == Base(f[..m + 1]) && f[k].frame.rtp <= f[m].frame.rtp
  {
    if k < m {
      BaseKept(f, k, m - 1);
      assert !BackAt(f, m);
      assert f[..m + 1][..m] == f[..m - 1 + 1];
      assert BackAt(f[..m + 1], m) == BackAt(f, m);
    }
  }

  /** Nanoseconds from the base to the newest frame, by that frame's clock rate. */
  function Image(f: seq<Arrival>): nat
    requires |f| > 0 && Ticks(f) >= 0
  {
    Ticks(f) * NS_PER_SECOND / f[|f| - 1].frame.clockHz
  }

  /** The later of two images is at or past the earlier one, or so late that its time stamp is saturated. */
  ghost predicate ImagesOrdered(f: seq<Arrival>, k: nat, m: nat)
    requires k <= m < |f| && Ticks(f[..k + 1]) >= 0 && Ticks(f[..m + 1]) >= 0
  {
    Image(f[..k + 1]) <= Image(f[..m + 1]) || f[Base(f[..m + 1])].nowNs + Image(f[..m + 1]) >= U64_MAX
  }

  /** Between two steps back, local timestamps are in order exactly when the images are. */
  lemma {:induction false} StampsOrderedExactlyWhen(f: seq<Arrival>, k: nat, m: nat)
    requires k <= m < |f|
    requires forall i :: k < i <= m ==> !BackAt(f, i)
    ensures Ticks(f[..k + 1]) >= 0 && Ticks(f[..m + 1]) >= 0
    ensures Stamp(f[..k + 1]) <= Stamp(f[..m + 1]) <==> ImagesOrdered(f, k, m)
  {
    BaseBelow(f[..k + 1]);
    BaseBelow(f[..m + 1]);
    BaseKept(f, k, m);
  }

  lemma {:induction false} DivAntitone(a: nat, small: nat, large: nat)
    requires 0 < small <= large
    ensures a / large <= a / small
  {
    var q := a / large;
    assert a == large * q + a % large && a == small * (a / small) + a % small;
    MulMonotone(small, large, q);
    assert q * small == small * q && large * q == q * large;
    assert (a / small + 1) * small == small * (a / small) + small;
    MulCancel(q, a / small + 1, small);
  }

  /** They are whenever the clock rate has not risen; in particular for a fixed rate. */
  lemma {:induction false} SlowerClockKeepsOrder(f: seq<Arrival>, k: nat, m: nat)
    requires k <= m < |f|
    requires forall i :: k < i <= m ==> !BackAt(f, i)
    requires f[m].frame.clockHz <= f[k].frame.clockHz
    ensures Ticks(f[..k + 1]) >= 0 && Ticks(f[..m + 1]) >= 0
    ensures ImagesOrdered(f, k, m)
  {
    BaseBelow(f[..k + 1]);
    BaseBelow(f[..m + 1]);
    BaseKept(f, k, m);
    var a, b := Ticks(f[..k + 1]) * NS_PER_SECOND, Ticks(f[..m + 1]) * NS_PER_SECOND;
    DivAntitone(a, f[m].frame.clockHz, f[k].frame.clockHz);
    DivMonotone(a, b, f[m].frame.clockHz);
  }

  /**
   Within an epoch, two emitted frames have their timestamps in order exactly when their images
   are in order, and that is so whenever the clock rate of the later one is not higher.
   */
  lemma {:induction false} EpochTimeIsOrdered(f: seq<Arrival>, o: seq<Outcome>, i: nat, j: nat)
    requires |f| == |o| <= U64_MAX / 3 && i < j < |Positions(o)|
    ensures |Outputs(f, o)| == |Positions(o)| && Positions(o)[i] < Positions(o)[j] < |f|
    ensures Outputs(f, o)[i].epoch == Outputs(f, o)[j].epoch ==>
              var k, m := Positions(o)[i], Positions(o)[j];
              && Ticks(f[..k + 1]) >= 0 && Ticks(f[..m + 1]) >= 0
              && (Outputs(f, o)[i].timestampNs <= Outputs(f, o)[j].timestampNs <==> ImagesOrdered(f, k, m))
              && (f[m].frame.clockHz <= f[k].frame.clockHz ==>
                    Outputs(f, o)[i].timestampNs <= Outputs(f, o)[j].timestampNs)
  {
    hide Outputs, Stamp, Breaks;
    EpochsMarkLoss(f, o, i, j);
    var k, m := Positions(o)[i], Positions(o)[j];
    OutputAt(f, o, i);
    OutputAt(f, o, j);
    FewBreaks(f, o, k);
    if Quiet(f, o, k, m) {
      StampsOrderedExactlyWhen(f, k, m);
      if f[m].frame.clockHz <= f[k].frame.clockHz {
        SlowerClockKeepsOrder(f, k, m);
      }
    }
  }

  lemma {:induction false} FewBreaks(f: seq<Arrival>, o: seq<Outcome>, k: nat)
    requires |f| == |o| <= U64_MAX / 3 && k < |f|
    ensures BreaksAt(f, o, k) < U64_MAX
  {
    BreaksBounded(f[..k + 1], o[..k]);
  }

  /**
   A timestamp is the exact rational image of the RTP time, rounded down by less than a
   nanosecond, if and only if that image fits 64 bits.
   */
  lemma {:induction false} StampIsExact(f: seq<Arrival>)
    requires |f| > 0
    ensures Ticks(f) >= 0
    ensures var hz := f[|f| - 1].frame.clockHz;
            var exact := f[Base(f)].nowNs * hz + Ticks(f) * NS_PER_SECOND;
            Stamp(f) * hz <= exact < (Stamp(f) + 1) * hz <==> exact < (U64_MAX + 1) * hz
  {
    BaseBelow(f);
    var hz := f[|f| - 1].frame.clockHz;
    var scaled := Ticks(f) * NS_PER_SECOND;
    var local := f[Base(f)].nowNs;
    var unclamped := local + scaled / hz;
    var exact := local * hz + scaled;
    assert scaled == hz * (scaled / hz) + scaled % hz;
    assert unclamped * hz == local * hz + (scaled / hz) * hz;
    assert (scaled / hz) * hz == hz * (scaled / hz);
    assert unclamped * hz <= exact < (unclamped + 1) * hz;
    if unclamped <= U64_MAX {
      MulMonotone(unclamped + 1, U64_MAX + 1, hz);
    } else {
      MulMonotone(U64_MAX + 1, unclamped, hz);
    }
  }

  lemma {:induction false} MulMonotone(a: nat, b: nat, c: nat)
    requires a <= b
    ensures a * c <= b * c
  {
    assert b * c == a * c + (b - a) * c;
  }

  /** When the clock rate changes in mid-epoch, local time can run backwards. */
  lemma {:induction false} ClockChangeRewinds()
    ensures var f := [Arrival(Encoded(0, 48_000, true), 0), Arrival(Encoded(48_000, 48_000, true), 0),
                      Arrival(Encoded(48_001, 96_000, true), 0)];
            var o := [Emitted, Emitted, Emitted];
            && |Outputs(f, o)| == 3
            && Outputs(f, o)[1].epoch == Outputs(f, o)[2].epoch
            && Outputs(f, o)[1].timestampNs > Outputs(f, o)[2].timestampNs
  {
    var f := [Arrival(Encoded(0, 48_000, true), 0), Arrival(Encoded(48_000, 48_000, true), 0),
              Arrival(Encoded(48_001, 96_000, true), 0)];
    var o := [Emitted, Emitted, Emitted];
    assert o[..2] == [Emitted, Emitted] && o[..2][..1] == [Emitted] && o[..2][..1][..0] == [];
    assert Positions([Emitted]) == [0] && Positions([Emitted, Emitted]) == [0, 1] && Positions(o) == [0, 1, 2];
    EpochsMarkLoss(f, o, 1, 2);
    OutputAt(f, o, 1);
    OutputAt(f, o, 2);
    BaseKept(f, 0, 1);
    BaseKept(f, 0, 2);
  }

  // ----- The driver -----

  datatype Poll = Frame(encoded: Encoded) | NothingYet | PollFailed

  datatype Next = Emission(frame: Decoded) | Cancelled | DriverFailed

  class Driver {
    var seenFrame: bool
    var previousRtp: Option<nat>
    var firstRtp: Option<nat>
    var firstLocal: Option<nat>
    var nextSequence: nat
    var discontinuityEpoch: nat
    var pendingFrame: Option<Decoded>
    // The observation counters.
    var receivedFrames: nat
    var noncontiguousFrames: nat
    var decodeFailures: nat
    var poolDroppedFrames: nat
    var emittedFrames: nat
    // The record of the run: frames received, what became of them, what was handed on.
    ghost var frames: seq<Arrival>
    ghost var outcomes: seq<Outcome>
    ghost var outputs: seq<Decoded>

    function Memo(): Memory
      reads this
    {
      Memory(seenFrame, previousRtp, firstRtp, firstLocal, nextSequence, discontinuityEpoch, receivedFrames, noncontiguousFrames)
    }

    /** What was handed on is what the run means. It holds after an error too. */
    ghost predicate Faithful()
      reads this
    {
      Accounts(frames, outcomes, outputs)
    }

    /** No error so far. At most the newest frame is still in the driver's hands. */
    ghost predicate Valid()
      reads this
    {
      && Faithful()
      && |frames| <= |outcomes| + 1
      && Remembers(frames, outcomes, Memo())
      && poolDroppedFrames == Drops(outcomes)
      && emittedFrames == |outputs|
      && (pendingFrame.Some? ==> |frames| == |outcomes| + 1 && pendingFrame.value == Newest(frames, outcomes))
    }

    /** Nothing received is unaccounted for. */
    ghost predicate Settled()
      reads this
    {
      Valid() && pendingFrame.None? && |frames| == |outcomes|
    }

    /** `frame` is in the driver's hands. */
    ghost predicate Holding(frame: Decoded)
      reads this
    {
      Valid() && pendingFrame.None? && |frames| == |outcomes| + 1 && frame == Newest(frames, outcomes)
    }

    constructor ()
      ensures Settled() && frames == [] && outputs == []
    {
      seenFrame, previousRtp, firstRtp, firstLocal := false, None, None, None;
      nextSequence, discontinuityEpoch, pendingFrame := 0, 0, None;
      receivedFrames, noncontiguousFrames, decodeFailures, poolDroppedFrames, emittedFrames := 0, 0, 0, 0, 0;
      frames, outcomes, outputs := [], [], [];
    }

    /** Counts what the frame's arrival says was lost, and restarts the time base after a step back. */
    method NoteArrival(encoded: Encoded)
      requires discontinuityEpoch <= U64_MAX
      modifies this`receivedFrames, this`discontinuityEpoch, this`noncontiguousFrames, this`firstRtp,
               this`firstLocal, this`previousRtp, this`seenFrame
      ensures Memo() == Note(old(Memo()), encoded)
    {
      receivedFrames := receivedFrames + 1;
      if seenFrame && !encoded.contiguous {
        discontinuityEpoch := SatAdd(discontinuityEpoch, 1);
        noncontiguousFrames := noncontiguousFrames + 1;
      }
      if previousRtp.Some? && encoded.rtp < previousRtp.value {
        discontinuityEpoch := SatAdd(discontinuityEpoch, 1);
        firstRtp, firstLocal := None, None;
      }
      previousRtp := Some(encoded.rtp);
      seenFrame := true;
    }

    /** Places a decoded packet in local time and numbers it. */
    method PlaceInTime(encoded: Encoded, decodedSamples: nat) returns (decoded: Decoded, now: nat)
      requires decodedSamples == OPUS_FRAME_SAMPLES
      modifies this`firstRtp, this`firstLocal, this`nextSequence
      ensures Memo() == Place(old(Memo()), Arrival(encoded, now))
      ensures decoded == Placed(Memo(), encoded, old(nextSequence))
    {
      now :| 0 <= now;
      if firstRtp.None? {
        firstRtp := Some(encoded.rtp);
      }
      if firstLocal.None? {
        firstLocal := Some(now);
      }
      var durationNs := Min(decodedSamples * NS_PER_SECOND / SAMPLE_RATE_HZ, U64_MAX);
      var sequence := nextSequence;
      nextSequence := SatAdd(nextSequence, 1);
      decoded := Decoded(LocalTime(encoded, firstRtp.value, firstLocal.value), durationNs, sequence, discontinuityEpoch);
    }

    /** Decodes one packet; a packet that is not 20 ms of audio is an error. */
    method Decode(encoded: Encoded) returns (decoded: Option<Decoded>)
      requires Settled()
      modifies this`receivedFrames, this`discontinuityEpoch, this`noncontiguousFrames, this`firstRtp, this`firstLocal,
               this`previousRtp, this`seenFrame, this`nextSequence, this`decodeFailures, this`frames
      ensures Faithful()
      ensures decoded.Some? ==> Holding(decoded.value)
      ensures decoded.Some? ==> exists now :: frames == old(frames) + [Arrival(encoded, now)]
      ensures decoded.None? ==> frames == old(frames)
    {
      hide Accounts, Newest, Note, Place, Placed, Gaps, StepsBack, Base;
      NoteArrival(encoded);
      var decodedSamples: nat :| true;
      if decodedSamples != OPUS_FRAME_SAMPLES {
        decodeFailures := decodeFailures + 1;
        return None;
      }
      var placed, now := PlaceInTime(encoded, decodedSamples);
      OneMore(frames, outcomes, old(Memo()), Arrival(encoded, now));
      StillAccounts(frames, outcomes, outputs, Arrival(encoded, now));
      frames := frames + [Arrival(encoded, now)];
      decoded := Some(placed);
    }

    /** Hands a decoded frame on, unless there is no buffer for it or its envelope is refused. */
    method Emit(decoded: Decoded, availableSlots: nat) returns (next: Next)
      requires Holding(decoded)
      modifies this`emittedFrames, this`outcomes, this`outputs
      ensures Faithful()
      ensures next.Emission? ==> Settled() && next.frame == decoded && outputs == old(outputs) + [decoded]
      ensures !next.Emission? ==> next.DriverFailed? && outputs == old(outputs)
    {
      var refused: bool := *;
      if availableSlots == 0 || refused {
        return DriverFailed;
      }
      emittedFrames := emittedFrames + 1;
      outputs := outputs + [decoded];
      RememberOutcome(frames, outcomes, Memo());
      outcomes := outcomes + [Emitted];
      assert outcomes[..|outcomes| - 1] == old(outcomes);
      assert frames[..|outcomes|] == frames && frames[..|outcomes|][..|old(outcomes)|] == frames[..|old(outcomes)|];
      next := Emission(decoded);
    }

    /** A decoded frame without a buffer is dropped and starts a new epoch. */
    method EmissionOrDrop(decoded: Decoded) returns (next: Option<Next>)
      requires Holding(decoded)
      modifies this`emittedFrames, this`outcomes, this`outputs, this`discontinuityEpoch, this`poolDroppedFrames
      ensures Faithful()
      ensures next.None? ==> Settled() && outputs == old(outputs) && outcomes == old(outcomes) + [Dropped]
      ensures next.Some? && next.value.Emission? ==>
                Settled() && next.value.frame == decoded && outputs == old(outputs) + [decoded]
      ensures next.Some? && !next.value.Emission? ==> next.value.DriverFailed? && outputs == old(outputs)
    {
      var availableSlots: nat :| true;
      if availableSlots == 0 {
        RememberOutcome(frames, outcomes, Memo());
        discontinuityEpoch := SatAdd(discontinuityEpoch, 1);
        poolDroppedFrames := poolDroppedFrames + 1;
        outcomes := outcomes + [Dropped];
        assert outcomes[..|outcomes| - 1] == old(outcomes);
        assert frames[..|outcomes|] == frames && frames[..|outcomes|][..|old(outcomes)|] == frames[..|old(outcomes)|];
        return None;
      }
      var emission := Emit(decoded, availableSlots);
      next := Some(emission);
    }

    /** Start-up: polls until the first frame decodes; that frame is kept for `Advance`. */
    method Prepare(polls: nat) returns (ready: bool)
      requires Settled()
      modifies this
      ensures Faithful() && outputs == old(outputs)
      ensures ready ==> Valid() && pendingFrame.Some?
    {
      for poll := 0 to polls
        invariant Settled() && outputs == old(outputs)
      {
        var result: Poll := *;
        if result.PollFailed? {
          return false;
        }
        if result.Frame? {
          var decoded := Decode(result.encoded);
          if decoded.None? {
            return false;
          }
          pendingFrame := decoded;
          return true;
        }
      }
      ready := false;
    }

    /** The next emission: the kept first frame, or the first received frame that finds a buffer. */
    method Advance(polls: nat) returns (next: Next)
      requires Valid() && (pendingFrame.None? ==> Settled())
      modifies this
      ensures Faithful()
      ensures !next.DriverFailed? ==> Settled()
      ensures next.Emission? ==> outputs == old(outputs) + [next.frame]
      ensures !next.Emission? ==> outputs == old(outputs)
    {
      if pendingFrame.Some? {
        var kept := pendingFrame.value;
        pendingFrame := None;
        var slots: nat :| true;
        next := Emit(kept, slots);
        return;
      }
      for poll := 0 to polls
        invariant Settled() && outputs == old(outputs)
      {
        var result: Poll := *;
        match result {
          case PollFailed =>
            return DriverFailed;
          case NothingYet =>
            var timedOut: bool := *;
            if timedOut {
              return DriverFailed;
            }
          case Frame(encoded) =>
            var decoded := Decode(encoded);
            if decoded.None? {
              return DriverFailed;
            }
            var emission := EmissionOrDrop(decoded.value);
            if emission.Some? {
              return emission.value;
            }
        }
      }
      next := Cancelled;
    }

    /**
     A whole run up to the first error or the cancellation: what was handed on is exactly what
     the received frames and their outcomes mean, and every received frame was emitted or dropped.
     */
    method Run(polls: nat, rounds: nat) returns (emitted: seq<Decoded>, failed: bool)
      requires Settled() && frames == []
      modifies this
      ensures Faithful() && emitted == outputs
      ensures !failed ==>
                && |frames| == |outcomes|
                && discontinuityEpoch == Min(noncontiguousFrames + StepsBack(frames) + poolDroppedFrames, U64_MAX)
                && receivedFrames == emittedFrames + poolDroppedFrames
                && emittedFrames == |emitted|
    {
      emitted := [];
      failed := true;
      var ready := Prepare(polls);
      if !ready {
        return;
      }
      for round := 0 to rounds
        invariant Valid() && (pendingFrame.None? ==> Settled())
        invariant round > 0 ==> Settled()
        invariant emitted == outputs
      {
        var next := Advance(polls);
        match next {
          case DriverFailed =>
            return;
          case Cancelled =>
            failed := false;
            assert frames[..|outcomes|] == frames;
            Conserved(frames, outcomes);
            return;
          case Emission(frame) =>
            emitted := emitted + [frame];
        }
      }
      if rounds > 0 {
        failed := false;
        assert frames[..|outcomes|] == frames;
        Conserved(frames, outcomes);
      }
    }
  }

  /** Every frame with an outcome was emitted or dropped. */
  lemma {:induction false} Conserved(f: seq<Arrival>, o: seq<Outcome>)
    requires |f| == |o|
    ensures |o| == |Outputs(f, o)| + Drops(o)
  {
    if |o| > 0 {
      Conserved(f[..|o| - 1], o[..|o| - 1]);
    }
  }
}
