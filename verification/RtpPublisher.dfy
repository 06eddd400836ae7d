/**
 The RTP publish loop (relay/src/rtc/publisher.rs): round-robin service of the
 encoded streams under two backlog policies. Frames keep arriving while the loop
 looks at its queues; RTC housekeeping between services does not touch them.
 */
module RtpPublisher {
  import opened Basics

  datatype Policy = Preserve | DropStale

  datatype RtpFrame = RtpFrame(rtpTime: nat, payloadBytes: nat, hasGeneration: bool)

  /** What became of a frame taken from its queue. */
  datatype Fate = Output | Cancelled | Stale | Lost

  /**
   One stream. `history` is everything its encoder ever queued; the queue itself is the part
   of it not `consumed` yet. `output` is what was written to the RTC, `fates` one entry per
   consumed frame.
   */
  datatype Stream = Stream(
    policy: Policy,
    history: seq<RtpFrame>,
    consumed: nat,
    encoderGone: bool,
    disconnected: bool,
    rtpSent: nat,
    bytesSent: nat,
    staleDrops: nat,
    cancelledFrames: nat,
    output: seq<RtpFrame>,
    fates: seq<Fate>)

  function NewStream(policy: Policy): Stream {
    Stream(policy, [], 0, false, false, 0, 0, 0, 0, [], [])
  }

  // ----- Accounting -----

  function Count(fates: seq<Fate>, fate: Fate): nat {
    if |fates| == 0 then 0 else Count(fates[..|fates| - 1], fate) + (if fates[|fates| - 1] == fate then 1 else 0)
  }

  /** The frames whose fate was to be written, in order. */
  function Select(frames: seq<RtpFrame>, fates: seq<Fate>): seq<RtpFrame>
    requires |frames| == |fates|
  {
    if |frames| == 0 then []
    else
      var n := |frames| - 1;
      Select(frames[..n], fates[..n]) + (if fates[n].Output? then [frames[n]] else [])
  }

  function Bytes(frames: seq<RtpFrame>): nat {
    if |frames| == 0 then 0 else Bytes(frames[..|frames| - 1]) + frames[|frames| - 1].payloadBytes
  }

  /** Every consumed frame is written in order, or counted as what else became of it. */
  ghost predicate StreamInv(s: Stream) {
    && s.consumed <= |s.history|
    && |s.fates| == s.consumed
    && s.output == Select(s.history[..s.consumed], s.fates)
    && s.rtpSent == |s.output|
    && s.bytesSent == Bytes(s.output)
    && s.staleDrops == Count(s.fates, Stale)
    && s.cancelledFrames == Count(s.fates, Cancelled)
    && (s.policy.Preserve? ==> Stale !in s.fates)
    && (s.disconnected ==> s.encoderGone && s.consumed == |s.history|)
  }

  lemma {:induction false} CountAppend(a: seq<Fate>, b: seq<Fate>, fate: Fate)
    ensures Count(a + b, fate) == Count(a, fate) + Count(b, fate)
  {
    if |b| == 0 {
      assert a + b == a;
    } else {
      CountAppend(a, b[..|b| - 1], fate);
      assert (a + b)[..|a + b| - 1] == a + b[..|b| - 1];
    }
  }

  lemma {:induction false} SelectAppend(f: seq<RtpFrame>, a: seq<Fate>, g: seq<RtpFrame>, b: seq<Fate>)
    requires |f| == |a| && |g| == |b|
    ensures Select(f + g, a + b) == Select(f, a) + Select(g, b)
  {
    if |g| == 0 {
      assert f + g == f && a + b == a;
    } else {
      var n := |g| - 1;
      SelectAppend(f, a, g[..n], b[..n]);
      assert (f + g)[..|f| + n] == f + g[..n] && (a + b)[..|f| + n] == a + b[..n];
    }
  }

  lemma {:induction false} StaleRun(frames: seq<RtpFrame>, drops: nat)
    requires |frames| == drops
    ensures Select(frames, seq(drops, _ => Stale)) == []
    ensures Count(seq(drops, _ => Stale), Stale) == drops
    ensures Count(seq(drops, _ => Stale), Cancelled) == 0
  {
    if drops > 0 {
      StaleRun(frames[..drops - 1], drops - 1);
      assert seq(drops, _ => Stale)[..drops - 1] == seq(drops - 1, _ => Stale);
    }
  }

  /** The stream after passing over `drops` frames in favour of a fresher one. */
  function Skip(s: Stream, drops: nat): Stream {
    s.(consumed := s.consumed + drops, staleDrops := s.staleDrops + drops, fates := s.fates + seq(drops, _ => Stale))
  }

  /** The stream after its next frame met its fate. */
  function Settle(s: Stream, fate: Fate): Stream
    requires s.consumed < |s.history|
  {
    var frame := s.history[s.consumed];
    s.(consumed := s.consumed + 1,
       cancelledFrames := if fate.Cancelled? then s.cancelledFrames + 1 else s.cancelledFrames,
       rtpSent := if fate.Output? then s.rtpSent + 1 else s.rtpSent,
       bytesSent := if fate.Output? then s.bytesSent + frame.payloadBytes else s.bytesSent,
       output := if fate.Output? then s.output + [frame] else s.output,
       fates := s.fates + [fate])
  }

  lemma {:induction false} SkipKeeps(s: Stream, drops: nat)
    requires StreamInv(s) && !s.disconnected
    requires s.consumed + drops <= |s.history|
    requires s.policy.Preserve? ==> drops == 0
    ensures StreamInv(Skip(s, drops))
  {
    var skipped := s.history[s.consumed..s.consumed + drops];
    var stale := seq(drops, _ => Stale);
    StaleRun(skipped, drops);
    SelectAppend(s.history[..s.consumed], s.fates, skipped, stale);
    assert s.history[..s.consumed + drops] == s.history[..s.consumed] + skipped;
    CountAppend(s.fates, stale, Stale);
    CountAppend(s.fates, stale, Cancelled);
  }

  lemma {:induction false} SettleKeeps(s: Stream, fate: Fate)
    requires StreamInv(s) && !s.disconnected
    requires s.consumed < |s.history| && !fate.Stale?
    ensures StreamInv(Settle(s, fate))
  {
    var t := Settle(s, fate);
    assert t.history[..t.consumed][..s.consumed] == s.history[..s.consumed];
    assert t.fates[..s.consumed] == s.fates;
    assert fate.Output? ==> t.output[..|s.output|] == s.output;
  }

  lemma {:induction false} DisconnectKeeps(s: Stream)
    requires StreamInv(s) && s.encoderGone && s.consumed == |s.history|
    ensures StreamInv(s.(disconnected := true))
  {
  }

  // ----- The loop -----

  datatype Received = Received(frame: RtpFrame, drops: nat) | NothingQueued | SenderGone

  datatype Service = Served(index: nat) | Idle | WriteFailed

  /** How far ahead of the round-robin start a stream is. */
  function Distance(start: nat, index: nat, n: nat): nat
    requires start < n && index < n
  {
    if start <= index then index - start else index + n - start
  }

  function Slot(start: nat, offset: nat, n: nat): nat
    requires start < n && offset < n
  {
    if start + offset < n then start + offset else start + offset - n
  }

  predicate Pending(s: Stream) {
    !s.disconnected && s.consumed < |s.history|
  }

  /** Everything but arrivals is as before. */
  predicate OnlyArrivals(before: Stream, after: Stream) {
    && before.history <= after.history
    && after == before.(history := after.history, encoderGone := after.encoderGone)
    && (before.encoderGone ==> after == before)
  }

  /** What a service of another stream, or a look at this one's empty queue, may change. */
  predicate NotServed(before: Stream, after: Stream) {
    && before.history <= after.history
    && after == before.(history := after.history, encoderGone := after.encoderGone, disconnected := after.disconnected)
    && (before.encoderGone ==> after.history == before.history && after.encoderGone)
    && (before.disconnected ==> after.disconnected)
    && (Pending(before) ==> Pending(after))
  }

  lemma {:induction false} NotServedChain(a: Stream, b: Stream, c: Stream)
    requires NotServed(a, b)
    requires NotServed(b, c) || OnlyArrivals(b, c)
    ensures NotServed(a, c)
  {
  }

  predicate NoneServed(before: seq<Stream>, after: seq<Stream>)
    requires |before| == |after|
  {
    forall j :: 0 <= j < |before| ==> NotServed(before[j], after[j])
  }

  predicate NoneServedBut(before: seq<Stream>, after: seq<Stream>, index: nat)
    requires |before| == |after|
  {
    forall j :: 0 <= j < |before| && j != index ==> NotServed(before[j], after[j])
  }

  lemma {:induction false} LookChain(a: seq<Stream>, b: seq<Stream>, c: seq<Stream>, index: nat)
    requires |a| == |b| == |c| && index < |c|
    requires NoneServed(a, b)
    requires forall j :: 0 <= j < |c| && j != index ==> OnlyArrivals(b[j], c[j])
    ensures NoneServedBut(a, c, index)
    ensures NotServed(b[index], c[index]) ==> NoneServed(a, c)
    ensures Pending(a[index]) ==> Pending(b[index])
  {
    forall j | 0 <= j < |c| && (j != index || NotServed(b[index], c[index]))
      ensures NotServed(a[j], c[j])
    {
      NotServedChain(a[j], b[j], c[j]);
    }
  }

  /** No stream closer to the round-robin start than `offset` has a frame waiting. */
  predicate NothingCloser(streams: seq<Stream>, start: nat, offset: nat)
    requires start < |streams|
  {
    forall j :: 0 <= j < |streams| && Distance(start, j, |streams|) < offset ==> !Pending(streams[j])
  }

  lemma {:induction false} LookFurther(streams: seq<Stream>, start: nat, offset: nat)
    requires start < |streams| && offset < |streams|
    requires NothingCloser(streams, start, offset)
    requires Slot(start, offset, |streams|) < |streams| && !Pending(streams[Slot(start, offset, |streams|)])
    ensures NothingCloser(streams, start, offset + 1)
  {
    forall j | 0 <= j < |streams| && Distance(start, j, |streams|) < offset + 1
      ensures !Pending(streams[j])
    {
      if Distance(start, j, |streams|) == offset {
        assert j == Slot(start, offset, |streams|);
      }
    }
  }

  function Next(index: nat, n: nat): nat
    requires index < n
  {
    if index + 1 < n then index + 1 else 0
  }

  lemma {:induction false} SlotDistance(start: nat, offset: nat, n: nat)
    requires start < n && offset < n
    ensures Slot(start, offset, n) < n && Distance(start, Slot(start, offset, n), n) == offset
    ensures Slot(start, offset, n) == (start + offset) % n
  {
    if start + offset < n {
      ModUnique(start + offset, n, 0, start + offset);
    } else {
      ModUnique(start + offset, n, 1, start + offset - n);
    }
  }

  /** A service of another stream brings the waiting one strictly closer. */
  lemma {:induction false} ServiceComesCloser(start: nat, k: nat, j: nat, n: nat)
    requires start < n && k < n && j < n && k != j
    requires Distance(start, k, n) <= Distance(start, j, n)
    ensures Next(k, n) < n
    ensures Distance(Next(k, n), j, n) < Distance(start, j, n)
  {
  }

  /** The schedule visits streams in round-robin order and never passes over the waiting stream `j`. */
  ghost predicate Schedule(start: nat, services: seq<nat>, j: nat, n: nat)
    requires start < n && j < n
    decreases |services|
  {
    |services| > 0 ==>
      && services[0] < n
      && Distance(start, services[0], n) <= Distance(start, j, n)
      && (services[0] != j ==> Schedule(Next(services[0], n), services[1..], j, n))
  }

  /** Where the round-robin start stands after the services. */
  function After(start: nat, services: seq<nat>, n: nat): (next: nat)
    requires start < n && forall i :: 0 <= i < |services| ==> services[i] < n
    ensures next < n
  {
    if |services| == 0 then start else Next(services[|services| - 1], n)
  }

  lemma {:induction false} ScheduleGrows(start: nat, services: seq<nat>, index: nat, j: nat, n: nat)
    requires start < n && j < n && index < n && index != j && j !in services
    requires Schedule(start, services, j, n) && forall i :: 0 <= i < |services| ==> services[i] < n
    requires Distance(After(start, services, n), index, n) <= Distance(After(start, services, n), j, n)
    ensures Schedule(start, services + [index], j, n)
    decreases |services|
  {
    if |services| > 0 {
      ScheduleGrows(Next(services[0], n), services[1..], index, j, n);
      assert (services + [index])[1..] == services[1..] + [index];
    } else {
      assert (services + [index])[1..] == [];
    }
  }

  /** Once a stream has a frame waiting, at most n - 1 services of other streams come before its own. */
  lemma {:induction false} RoundRobinIsFair(start: nat, services: seq<nat>, j: nat, n: nat)
    requires start < n && j < n
    requires Schedule(start, services, j, n)
    requires j !in services
    ensures |services| <= Distance(start, j, n) <= n - 1
    decreases |services|
  {
    if |services| > 0 {
      ServiceComesCloser(start, services[0], j, n);
      RoundRobinIsFair(Next(services[0], n), services[1..], j, n);
    }
  }

  /** Every consumed frame has exactly one fate. */
  lemma {:induction false} FatesPartition(fates: seq<Fate>)
    ensures |fates| == Count(fates, Output) + Count(fates, Cancelled) + Count(fates, Stale) + Count(fates, Lost)
  {
    if |fates| > 0 {
      FatesPartition(fates[..|fates| - 1]);
    }
  }

  lemma {:induction false} SelectLength(frames: seq<RtpFrame>, fates: seq<Fate>)
    requires |frames| == |fates|
    ensures |Select(frames, fates)| == Count(fates, Output)
  {
    if |frames| > 0 {
      SelectLength(frames[..|frames| - 1], fates[..|fates| - 1]);
    }
  }

  lemma {:induction false} CountZero(fates: seq<Fate>, fate: Fate)
    requires fate !in fates
    ensures Count(fates, fate) == 0
  {
    if |fates| > 0 {
      CountZero(fates[..|fates| - 1], fate);
    }
  }

  /** All the stream ever queued was written in order, or counted; under Preserve nothing was dropped as stale. */
  ghost predicate AccountedFor(s: Stream) {
    && |s.fates| == |s.history|
    && s.output == Select(s.history, s.fates)
    && |s.history| == s.rtpSent + s.cancelledFrames + s.staleDrops
    && (s.policy.Preserve? ==> |s.history| == s.rtpSent + s.cancelledFrames)
  }

  /** A drained stream that lost nothing is accounted for. */
  lemma {:induction false} DrainedStream(s: Stream)
    requires StreamInv(s) && s.disconnected && Lost !in s.fates
    ensures AccountedFor(s)
  {
    assert s.history[..s.consumed] == s.history;
    FatesPartition(s.fates);
    SelectLength(s.history, s.fates);
    CountZero(s.fates, Lost);
    if s.policy.Preserve? {
      CountZero(s.fates, Stale);
    }
  }

  class Publisher {
    var streams: seq<Stream>
    var roundRobinStart: nat

    ghost predicate Valid()
      reads this
    {
      && roundRobinStart < |streams|
      && forall i :: 0 <= i < |streams| ==> StreamInv(streams[i])
    }

    constructor (policies: seq<Policy>)
      requires |policies| > 0
      ensures Valid() && roundRobinStart == 0 && |streams| == |policies|
      ensures forall i :: 0 <= i < |streams| ==> streams[i] == NewStream(policies[i])
    {
      streams := seq(|policies|, i requires 0 <= i < |policies| => NewStream(policies[i]));
      roundRobinStart := 0;
    }

    /** Encoders queue more frames or go away. */
    method Arrivals()
      requires Valid()
      modifies this`streams
      ensures Valid() && |streams| == old(|streams|)
      ensures forall i :: 0 <= i < |streams| ==> OnlyArrivals(old(streams)[i], streams[i])
    {
      var steps :| 0 <= steps;
      for step := 0 to steps
        invariant Valid() && |streams| == old(|streams|)
        invariant forall i :: 0 <= i < |streams| ==> OnlyArrivals(old(streams)[i], streams[i])
      {
        var i: nat :| true;
        var gone: bool := *;
        var frame: RtpFrame := *;
        if i < |streams| && !streams[i].encoderGone {
          ghost var before := streams[i];
          if gone {
            streams := streams[i := streams[i].(encoderGone := true)];
          } else {
            streams := streams[i := streams[i].(history := streams[i].history + [frame])];
            assert streams[i].history[..before.consumed] == before.history[..before.consumed];
          }
        }
      }
    }

    /** The next frame under the stream's policy; the caller settles what was passed over. */
    method TryRecvFrame(i: nat) returns (result: Received)
      requires Valid() && i < |streams| && !streams[i].disconnected
      modifies this`streams
      ensures Valid() && |streams| == old(|streams|)
      ensures forall j :: 0 <= j < |streams| ==> OnlyArrivals(old(streams)[j], streams[j])
      ensures result.Received? ==>
                && streams[i].consumed + result.drops < |streams[i].history|
                && result.frame == streams[i].history[streams[i].consumed + result.drops]
                && (streams[i].policy.Preserve? ==> result.drops == 0)
                && (streams[i].policy.DropStale? ==> streams[i].consumed + result.drops + 1 == |streams[i].history|)
      ensures !result.Received? ==> !Pending(old(streams)[i]) && streams[i].consumed == |streams[i].history|
      ensures result.SenderGone? ==> streams[i].encoderGone
    {
      Arrivals();
      var s := streams[i];
      if s.consumed == |s.history| {
        return if s.encoderGone then SenderGone else NothingQueued;
      }
      var drops := 0;
      if s.policy.Preserve? {
        return Received(s.history[s.consumed], 0);
      }
      var patience :| 0 <= patience;
      while patience > 0 || streams[i].consumed + drops + 1 < |streams[i].history|
        invariant Valid() && |streams| == old(|streams|)
        invariant forall j :: 0 <= j < |streams| ==> OnlyArrivals(old(streams)[j], streams[j])
        invariant streams[i].consumed + drops < |streams[i].history|
        decreases patience, |streams[i].history| - drops
      {
        if streams[i].consumed + drops + 1 < |streams[i].history| {
          drops := drops + 1;
        } else {
          Arrivals();
          patience := patience - 1;
        }
      }
      result := Received(streams[i].history[streams[i].consumed + drops], drops);
    }

    /** One stream of the service loop. */
    method ServeStream(i: nat) returns (service: Service)
      requires Valid() && i < |streams|
      modifies this
      ensures Valid() && |streams| == old(|streams|)
      ensures forall j :: 0 <= j < |streams| && j != i ==> OnlyArrivals(old(streams)[j], streams[j])
      ensures service.Idle? ==> NotServed(old(streams)[i], streams[i]) && !Pending(old(streams)[i])
      ensures service.Idle? ==> roundRobinStart == old(roundRobinStart)
      ensures service.Served? ==>
                && service.index == i && roundRobinStart == Next(i, |streams|)
                && (Lost !in old(streams)[i].fates ==> Lost !in streams[i].fates)
                && (streams[i].policy.Preserve? ==> streams[i].consumed == old(streams)[i].consumed + 1)
                && (streams[i].policy.DropStale? ==> streams[i].consumed == |streams[i].history|)
    {
      hide StreamInv, Select, Count, Bytes;
      if streams[i].disconnected {
        return Idle;
      }
      var received := TryRecvFrame(i);
      match received {
        case NothingQueued =>
          service := Idle;
        case SenderGone =>
          DisconnectKeeps(streams[i]);
          streams := streams[i := streams[i].(disconnected := true)];
          service := Idle;
        case Received(frame, drops) =>
          service := Deliver(i, frame, drops);
      }
    }

    /** Passes over the stale frames, then cancels or writes the fresh one. */
    method Deliver(i: nat, frame: RtpFrame, drops: nat) returns (service: Service)
      requires Valid() && i < |streams| && !streams[i].disconnected
      requires streams[i].consumed + drops < |streams[i].history|
      requires frame == streams[i].history[streams[i].consumed + drops]
      requires streams[i].policy.Preserve? ==> drops == 0
      modifies this
      ensures Valid() && |streams| == old(|streams|)
      ensures forall j :: 0 <= j < |streams| && j != i ==> streams[j] == old(streams)[j]
      ensures !service.Idle?
      ensures service.Served? ==>
                && service.index == i && roundRobinStart == Next(i, |streams|)
                && (streams[i] == Settle(Skip(old(streams)[i], drops), Output)
                    || (frame.hasGeneration && streams[i] == Settle(Skip(old(streams)[i], drops), Cancelled)))
      ensures service.WriteFailed? ==> streams[i] == Settle(Skip(old(streams)[i], drops), Lost)
    {
      hide StreamInv;
      SkipKeeps(streams[i], drops);
      var outputActive: bool := *;
      var writes: bool := *;
      var fate := if frame.hasGeneration && !outputActive then Cancelled else if writes then Output else Lost;
      SettleKeeps(Skip(streams[i], drops), fate);
      streams := streams[i := Settle(Skip(streams[i], drops), fate)];
      if fate.Lost? {
        return WriteFailed;
      }
      roundRobinStart := Next(i, |streams|);
      service := Served(i);
    }

    /** One pass over the streams from the round-robin start, stopping at the first frame. */
    method ServiceRound() returns (service: Service)
      requires Valid()
      modifies this
      ensures Valid() && |streams| == old(|streams|)
      ensures service.Idle? ==>
                && roundRobinStart == old(roundRobinStart)
                && NothingCloser(old(streams), roundRobinStart, |streams|)
                && NoneServed(old(streams), streams)
      ensures service.Served? ==>
                && service.index < |streams|
                && roundRobinStart == Next(service.index, |streams|)
                && NoneServedBut(old(streams), streams, service.index)
                && NothingCloser(old(streams), old(roundRobinStart), Distance(old(roundRobinStart), service.index, |streams|))
                && (Lost !in old(streams)[service.index].fates ==> Lost !in streams[service.index].fates)
    {
      var n := |streams|;
      for offset := 0 to n
        invariant Valid() && |streams| == n && roundRobinStart == old(roundRobinStart)
        invariant NoneServed(old(streams), streams)
        invariant NothingCloser(old(streams), old(roundRobinStart), offset)
      {
        var index := (roundRobinStart + offset) % n;
        SlotDistance(roundRobinStart, offset, n);
        ghost var before := streams;
        service := ServeStream(index);
        LookChain(old(streams), before, streams, index);
        if !service.Idle? {
          return;
        }
        LookFurther(old(streams), old(roundRobinStart), offset);
      }
      service := Idle;
    }

    /** While stream `j` has a frame waiting, other streams are served at most n - 1 times before it. */
    method ServeUntil(j: nat, rounds: nat) returns (others: nat, served: bool, failed: bool, ghost services: seq<nat>)
      requires Valid() && j < |streams| && Pending(streams[j])
      modifies this
      ensures Valid() && |streams| == old(|streams|)
      ensures Schedule(old(roundRobinStart), services, j, |streams|) && j !in services && others == |services|
      ensures others <= Distance(old(roundRobinStart), j, |streams|) <= |streams| - 1
      ensures !failed && rounds >= |streams| ==> served
    {
      others, served, failed, services := 0, false, false, [];
      while others < rounds
        invariant Valid() && |streams| == old(|streams|) && Pending(streams[j])
        invariant others <= rounds && !served && !failed
        invariant forall i :: 0 <= i < |services| ==> services[i] < |streams|
        invariant Schedule(old(roundRobinStart), services, j, |streams|) && j !in services && others == |services|
        invariant others <= Distance(old(roundRobinStart), j, |streams|)
        invariant After(old(roundRobinStart), services, |streams|) == roundRobinStart
      {
        var service := ServiceRound();
        if service.WriteFailed? {
          failed := true;
          return;
        }
        if service.index == j {
          served := true;
          return;
        }
        ScheduleGrows(old(roundRobinStart), services, service.index, j, |streams|);
        services := services + [service.index];
        others := others + 1;
        RoundRobinIsFair(old(roundRobinStart), services, j, |streams|);
      }
    }

    /**
     The publish loop until every encoder is gone. On a clean exit every queued frame of every
     stream was written in order or counted, and a Preserve stream dropped none as stale.
     */
    method Publish(rounds: nat) returns (clean: bool)
      requires Valid() && forall i :: 0 <= i < |streams| ==> Lost !in streams[i].fates
      modifies this
      ensures Valid() && |streams| == old(|streams|)
      ensures clean ==> forall i :: 0 <= i < |streams| ==> AccountedFor(streams[i])
    {
      clean := false;
      for round := 0 to rounds
        invariant Valid() && |streams| == old(|streams|)
        invariant forall i :: 0 <= i < |streams| ==> Lost !in streams[i].fates
      {
        var service := ServiceRound();
        if service.WriteFailed? {
          return;
        }
        if service.Idle? && forall i :: 0 <= i < |streams| ==> streams[i].disconnected {
          forall i | 0 <= i < |streams| {
            DrainedStream(streams[i]);
          }
          return true;
        }
      }
    }
  }
}
