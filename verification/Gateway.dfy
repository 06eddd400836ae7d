/**
 The recoverable group publisher (relay/src/rtc/gateway.rs).

 Every read of shared memory is preceded by `Interfere`, which lets the other
 threads take any number of steps: the management thread replaces or revokes the
 credential, feeders raise capture ends, encoders queue packets or go away, stop
 and abort are requested, time passes. Sockets answer anything they may answer.

 `run` records the events of the run; each is checked against the monitor of
 module GroupProtocol when it is recorded.
 */
module Gateway {
  import opened Basics
  import C = PublisherControl
  import P = IngressPacket
  import opened GroupProtocol

  const MILLISECOND: nat := C.NS_PER_MS
  const MAX_FRAME_AGE: nat := 200 * MILLISECOND
  /** Everything a re-attachment may spend waiting: closing, three back-offs, three admissions with their roll-backs. */
  const REATTACH_LIMIT: nat := (200 + 700 + 3 * (1_000 + 200)) * MILLISECOND

  /** An open socket: the READY generation it was admitted with and the credential revision it was admitted under. */
  datatype Connection = Connection(generation: nat, revision: nat)

  datatype Statistics = Statistics(
    framesSent: nat,
    payloadBytesSent: nat,
    sourceGeneration: nat,
    attachments: nat,
    renewals: nat,
    reconnects: nat,
    reconnectAttempts: nat,
    recoveryOpusDrops: nat,
    discontinuities: nat,
    credentialRevision: nat)

  /** What became of the encoded frames a bus took from its queue, besides sent and recovery-dropped ones. */
  datatype Tally = Tally(taken: nat, cancelled: nat, stale: nat, refused: nat)

  datatype ActiveIngress = ActiveIngress(
    connection: Option<Connection>,
    disconnected: bool,
    channels: P.Byte,
    highestGeneration: nat,
    notBeforeCaptureNs: Option<nat>,
    statistics: Statistics,
    tally: Tally)

  /** What becomes of a frame taken from a queue. */
  datatype Disposition =
    | CancelledOutput
    | BeforeCutoff
    | TooOld
    | RefusedByEncoder
    | SentOnSocket
    | LostSending(failure: Failure)

  /** The bus with one more frame settled. */
  function Settle(a: ActiveIngress, d: Disposition, bytes: nat): ActiveIngress {
    var s, t := a.statistics, a.tally;
    match d
    case CancelledOutput => a.(tally := t.(cancelled := t.cancelled + 1))
    case TooOld => a.(tally := t.(stale := t.stale + 1))
    case RefusedByEncoder => a.(tally := t.(refused := t.refused + 1))
    case BeforeCutoff => a.(statistics := s.(recoveryOpusDrops := s.recoveryOpusDrops + 1))
    case LostSending(_) => a.(statistics := s.(recoveryOpusDrops := s.recoveryOpusDrops + 1))
    case SentOnSocket => a.(statistics := s.(framesSent := s.framesSent + 1, payloadBytesSent := s.payloadBytesSent + bytes))
  }

  /** The failure a disposition reports to the publish loop. */
  function FailureOf(d: Disposition): Option<Failure> {
    match d
    case RefusedByEncoder => Some(Protocol)
    case LostSending(failure) => Some(failure)
    case _ => None
  }

  /** An encoded frame waiting in a bus queue. */
  datatype Queued = Queued(frame: P.MediaFrame, wallclock: nat)
  {
    function Sequence(): nat {
      frame.rtpTime / OPUS_FRAME_SAMPLES
    }
  }

  datatype Reason = Renewal | Tunnel

  datatype ReattachResult = Reattached | Stopped | Lost(failure: Failure)

  /** A recovery that ended without sockets: stopped, or lost to something no retry can help. */
  predicate GaveUp(r: ReattachResult) {
    r.Stopped? || (r.Lost? && !Recoverable(r.failure))
  }

  datatype AttemptResult = TryAgain | Done(result: ReattachResult)

  datatype PollResult = Polled(progress: bool) | PollFailed(failure: Failure)

  datatype RunResult = Finished | Aborted(failure: Failure) | StillRunning

  datatype RoundResult = NextRound | Over(result: RunResult)

  datatype CloseCode = NoCode | Normal | Away | Restart | Again | Policy | OtherCode

  datatype ReadResult = Close(code: CloseCode) | PingOrPong | OtherMessage | NothingToRead | ReadError(transport: bool)

  datatype WriteResult = WriteOk | WriteBlocked | WriteError(transport: bool)

  datatype PrepareResult =
    | Admitted(generation: nat)
    | NotAdmitted(failure: Failure)
    | LostAfterReady(generation: nat)

  /** `classify_socket_error`. */
  function SocketFailure(transport: bool): Failure {
    if transport then Transport else Protocol
  }

  /** How `poll_stream` classes a close frame. */
  function CloseFailure(code: CloseCode): Failure {
    match code
    case Policy => Authority
    case NoCode => Transport
    case Normal => Transport
    case Away => Transport
    case Restart => Transport
    case Again => Transport
    case OtherCode => Protocol
  }

  /** The failures `prepare` can report. */
  predicate PrepareFailure(f: Failure) {
    f.Transport? || f.Protocol? || f.Identity? || f.ProxyTransport? || f.ProxyRefused? || f.Untyped?
  }

  /** How an answer of `prepare` fails an admission, given the highest generation seen so far. */
  function ContactFailure(r: PrepareResult, highest: nat): Option<Failure> {
    match r
    case Admitted(generation) => if generation > highest then None else Some(Generation)
    case NotAdmitted(failure) => Some(failure)
    case LostAfterReady(_) => Some(Untyped)
  }

  predicate Plausible(r: PrepareResult) {
    match r
    case Admitted(generation) => generation > 0
    case NotAdmitted(failure) => PrepareFailure(failure)
    case LostAfterReady(generation) => generation > 0
  }

  /** A bus given its new socket; what it already sent and dropped stays counted. */
  function Rejoined(a: ActiveIngress, c: Connection, renewed: bool, cutoffNs: nat): ActiveIngress {
    var s := a.statistics;
    a.(connection := Some(c),
       notBeforeCaptureNs := Some(cutoffNs),
       statistics := s.(
         sourceGeneration := c.generation,
         attachments := s.attachments + 1,
         discontinuities := s.discontinuities + 1,
         renewals := if renewed then s.renewals + 1 else s.renewals,
         reconnects := if renewed then s.reconnects else s.reconnects + 1,
         credentialRevision := c.revision))
  }

  /** The wait before attempt `attempt`: 100, 200, then 400 milliseconds. */
  function BackoffMs(attempt: nat): nat {
    if attempt == 0 then 100 else 2 * BackoffMs(attempt - 1)
  }

  /** Milliseconds a re-attachment may have waited before attempt `attempt`. */
  function SpentMs(attempt: nat): nat {
    if attempt == 0 then 200 else SpentMs(attempt - 1) + BackoffMs(attempt - 1) + 1_000 + 200
  }

  lemma {:induction false} SpentGrows(attempt: nat, limit: nat)
    requires attempt <= limit
    ensures SpentMs(attempt) <= SpentMs(limit)
    decreases limit
  {
    if attempt < limit {
      SpentGrows(attempt, limit - 1);
    }
  }

  lemma {:induction false} SpentInAll()
    ensures SpentMs(RECOVERY_ATTEMPTS) * MILLISECOND == REATTACH_LIMIT
  {
    assert BackoffMs(1) == 200 && BackoffMs(2) == 400;
    assert SpentMs(1) == 1_500;
    assert SpentMs(2) == SpentMs(1) + 200 + 1_200;
    assert SpentMs(3) == SpentMs(2) + 400 + 1_200;
  }

  /** Time left until `deadline`. */
  function Until(now: nat, deadline: nat): nat {
    if now < deadline then deadline - now else 0
  }

  /** Of all close codes only these five lead to recovery, whatever the credential did meanwhile. */
  lemma {:induction false} RecoveredCloseCodes(code: CloseCode, changed: bool)
    ensures MayRetry(CloseFailure(code), changed) <==>
            code.NoCode? || code.Normal? || code.Away? || code.Restart? || code.Again?
  {
  }

  // ----- Invariants -----

  /** Waiting frames are numbered in order, past everything already written and below the encoder's count. */
  ghost predicate QueueOrdered(queue: seq<Queued>, next: nat, encoded: nat) {
    && next <= encoded
    && (forall k :: 0 <= k < |queue| ==> next <= queue[k].Sequence() < encoded)
    && (forall j, k :: 0 <= j < k < |queue| ==> queue[j].Sequence() < queue[k].Sequence())
  }

  /** Frames sent, cancelled, dropped for recovery, stale, or refused by the packet encoder. */
  function Settled(a: ActiveIngress): nat {
    a.statistics.framesSent + a.tally.cancelled + a.statistics.recoveryOpusDrops + a.tally.stale + a.tally.refused
  }

  /** The receipt of a bus agrees with the group's tallies. */
  predicate ReceiptAgrees(s: Statistics, renewals: nat, reconnects: nat, attempts: nat) {
    && s.renewals == renewals
    && s.reconnects == reconnects
    && s.discontinuities == renewals + reconnects
    && s.attachments == 1 + s.discontinuities
    && s.reconnectAttempts == attempts
  }

  /** The bus holds the socket of its latest generation, admitted under the credential in use, and reports it. */
  predicate OnWire(a: ActiveIngress, generation: nat, revision: nat) {
    && a.connection == Some(Connection(generation, revision))
    && a.statistics.sourceGeneration == generation
    && a.statistics.credentialRevision == revision
  }

  predicate ReceiptsAgree(active: seq<ActiveIngress>, renewals: nat, reconnects: nat, attempts: nat) {
    forall i :: 0 <= i < |active| ==> ReceiptAgrees(active[i].statistics, renewals, reconnects, attempts)
  }

  predicate GenerationsAgree(active: seq<ActiveIngress>, highest: seq<nat>) {
    && |active| == |highest|
    && forall i :: 0 <= i < |active| ==> active[i].highestGeneration == highest[i]
  }

  predicate AllOnWire(active: seq<ActiveIngress>, highest: seq<nat>, revision: nat) {
    && |active| == |highest|
    && forall i :: 0 <= i < |active| ==> OnWire(active[i], highest[i], revision)
  }

  /** Every frame taken from a queue is settled exactly once, except the one in hand. */
  predicate AllSettled(active: seq<ActiveIngress>, inHand: Option<nat>) {
    forall i :: 0 <= i < |active| ==>
      active[i].tally.taken == Settled(active[i]) + (if inHand == Some(i) then 1 else 0)
  }

  /** Each bus's receipt counts the frames of the bus that were sent. */
  predicate SentAgree(active: seq<ActiveIngress>, sent: seq<nat>) {
    && |active| == |sent|
    && forall i :: 0 <= i < |active| ==> active[i].statistics.framesSent == sent[i]
  }

  /** Each bus filters by the cutoff of its attachment. */
  predicate CutoffsAgree(active: seq<ActiveIngress>, cutoffs: seq<nat>) {
    && |active| == |cutoffs|
    && forall i :: 0 <= i < |active| ==> CutoffOf(active[i]) == cutoffs[i]
  }

  function CutoffOf(a: ActiveIngress): nat {
    if a.notBeforeCaptureNs.Some? then a.notBeforeCaptureNs.value else 0
  }

  function CutoffsOf(active: seq<ActiveIngress>): (cutoffs: seq<nat>)
    ensures CutoffsAgree(active, cutoffs)
  {
    seq(|active|, i requires 0 <= i < |active| => CutoffOf(active[i]))
  }

  predicate NoSockets(active: seq<ActiveIngress>) {
    forall i :: 0 <= i < |active| ==> active[i].connection.None?
  }

  /** A bus without a socket means delivery is paused. */
  predicate PausedUnlessConnected(active: seq<ActiveIngress>, paused: bool) {
    forall i :: 0 <= i < |active| && active[i].connection.None? ==> paused
  }

  predicate NoneRefused(active: seq<ActiveIngress>) {
    forall i :: 0 <= i < |active| ==> active[i].tally.refused == 0
  }

  /** The packet encoder refused at most one frame of the whole group. */
  predicate AtMostOneRefusal(active: seq<ActiveIngress>) {
    && (forall i :: 0 <= i < |active| ==> active[i].tally.refused <= 1)
    && (forall i, j :: 0 <= i < j < |active| ==> active[i].tally.refused == 0 || active[j].tally.refused == 0)
  }

  predicate Drained(active: seq<ActiveIngress>) {
    forall i :: 0 <= i < |active| ==> active[i].disconnected
  }

  ghost predicate QueuesOrdered(queues: seq<seq<Queued>>, written: seq<nat>, popped: seq<nat>, encoded: seq<nat>) {
    && |queues| == |written| == |popped| == |encoded|
    && forall i :: 0 <= i < |queues| ==> written[i] <= popped[i] && QueueOrdered(queues[i], popped[i], encoded[i])
  }

  /** Buses that got their sockets together agree with a group credited once. */
  lemma {:induction false} RejoinedAgree(
    before: seq<ActiveIngress>, after: seq<ActiveIngress>, connections: seq<Connection>, renewed: bool,
    g: Group, revision: nat, inHand: Option<nat>)
    requires |before| == |after| == |connections| == |g.highest|
    requires forall j :: 0 <= j < |after| ==>
               && after[j].notBeforeCaptureNs.Some?
               && after[j] == Rejoined(before[j], connections[j], renewed, after[j].notBeforeCaptureNs.value)
               && connections[j] == Connection(g.highest[j], revision)
    requires ReceiptsAgree(before, g.renewals, g.reconnects, g.totalAttempts) && GenerationsAgree(before, g.highest)
    requires AllSettled(before, inHand) && SentAgree(before, g.sent)
    ensures ReceiptsAgree(after, g.renewals + (if renewed then 1 else 0), g.reconnects + (if renewed then 0 else 1), g.totalAttempts)
    ensures GenerationsAgree(after, g.highest) && AllSettled(after, inHand) && SentAgree(after, g.sent)
    ensures AllOnWire(after, g.highest, revision)
  {
  }

  lemma {:induction false} QueueSizes(queues: seq<seq<Queued>>, written: seq<nat>, popped: seq<nat>, encoded: seq<nat>)
    requires QueuesOrdered(queues, written, popped, encoded)
    ensures |queues| == |written| == |popped| == |encoded|
  {
  }

  /** A queue stays in order when its encoder numbers one more frame, queued or lost. */
  lemma {:induction false} QueueGrows(
    queues: seq<seq<Queued>>, written: seq<nat>, popped: seq<nat>, encoded: seq<nat>, bus: nat, q: Queued)
    requires QueuesOrdered(queues, written, popped, encoded) && bus < |queues| == |encoded| && q.Sequence() == encoded[bus]
    ensures QueuesOrdered(queues, written, popped, encoded[bus := encoded[bus] + 1])
    ensures QueuesOrdered(queues[bus := queues[bus] + [q]], written, popped, encoded[bus := encoded[bus] + 1])
  {
  }

  lemma {:induction false} RaiseGeneration(
    active: seq<ActiveIngress>, highest: seq<nat>, i: nat, generation: nat, g: Group, inHand: Option<nat>, paused: bool)
    requires i < |active| && GenerationsAgree(active, highest)
    requires AllSettled(active, inHand) && NoSockets(active) && PausedUnlessConnected(active, paused)
    requires ReceiptsAgree(active, g.renewals, g.reconnects, g.totalAttempts) && CutoffsAgree(active, g.cutoffs)
    requires SentAgree(active, g.sent)
    ensures var raised := active[i := active[i].(highestGeneration := generation)];
            && GenerationsAgree(raised, highest[i := generation])
            && AllSettled(raised, inHand) && NoSockets(raised) && PausedUnlessConnected(raised, paused)
            && ReceiptsAgree(raised, g.renewals, g.reconnects, g.totalAttempts) && CutoffsAgree(raised, g.cutoffs)
            && SentAgree(raised, g.sent)
  {
  }

  /** Builds the packet the socket will be given; false when the frame cannot be sent at all. */
  method Pack(frame: P.MediaFrame, channels: P.Byte) returns (packed: bool)
    ensures packed <==> P.Encodable(frame, channels)
  {
    var packet := P.EncodePacket(frame, channels);
    packed := packet.Some?;
  }

  class Gateway {
    // Shared with other threads.
    var control: C.Control
    var now: nat
    var stopRequested: bool
    var abortRequested: bool
    var paused: bool
    var captureEndNs: seq<nat>
    var queues: seq<seq<Queued>>
    var encoded: seq<nat>
    var encoderGone: seq<bool>
    // The publisher's own state.
    const startupTimeout: nat
    var credential: C.Credential
    var active: seq<ActiveIngress>
    // The record of the run.
    ghost const start: Group
    ghost var run: seq<Event>
    ghost var group: Group
    /** Per bus, the number after that of the last frame taken from its queue. */
    ghost var popped: seq<nat>
    /** The bus whose frame is being sent. */
    ghost var inHand: Option<nat>
    /** Time spent in socket waits and sleeps. */
    ghost var work: nat

    /** What holds whenever another thread may look: in particular, a bus without a socket means delivery is paused. */
    ghost predicate Shared()
      reads this
    {
      && C.Inv(control)
      && credential.revision <= control.revision
      && Replay(start, run) == Some(group)
      && Inv(group)
      && group.revoked == control.revoked
      && group.paused == paused
      && group.encoded == encoded
      && |active| == |group.highest| == |captureEndNs| == |queues| == |encoderGone|
      && PausedUnlessConnected(active, paused)
      && QueuesOrdered(queues, group.nextSequence, popped, encoded)
    }

    ghost predicate Detached()
      reads this
    {
      NoSockets(active)
    }

    /** All buses hold sockets admitted under the credential in use. */
    ghost predicate Whole()
      reads this
    {
      AllOnWire(active, group.highest, credential.revision)
    }

    ghost predicate Valid()
      reads this
    {
      && Shared()
      && credential.revision == group.revision
      && ReceiptsAgree(active, group.renewals, group.reconnects, group.totalAttempts)
      && GenerationsAgree(active, group.highest)
      && CutoffsAgree(active, group.cutoffs)
      && AllSettled(active, inHand)
      && SentAgree(active, group.sent)
      && (group.attached ==> Whole())
    }

    /** The whole group is attached and delivering. */
    ghost predicate Delivering()
      reads this
    {
      && Valid()
      && group.attached && !group.paused && !group.barred && !group.ended
      && group.admission.None? && group.attempts == 0
    }

    /** The state at the head of the publish loop. */
    ghost predicate Publishing()
      reads this
    {
      && Delivering()
      && group.outstanding.None? && inHand.None?
      && NoneRefused(active)
    }

    /** Shared state only moves forward. */
    twostate predicate Onward()
      reads this
    {
      && old(control).revision <= control.revision
      && old(now) <= now
      && (old(stopRequested) ==> stopRequested)
      && (old(abortRequested) ==> abortRequested)
    }

    /** Every bus keeps its counts and its end-of-stream flag. */
    twostate predicate TalliesKept()
      reads this
    {
      && |active| == old(|active|)
      && forall i :: 0 <= i < |active| ==>
           active[i].tally == old(active)[i].tally && active[i].disconnected == old(active)[i].disconnected
    }

    /** The group was credited with one renewal if its credential advanced, with one reconnect otherwise. */
    twostate predicate Credited()
      reads this
    {
      if credential.revision > old(credential).revision
      then group.renewals == old(group).renewals + 1 && group.reconnects == old(group).reconnects
      else group.renewals == old(group).renewals && group.reconnects == old(group).reconnects + 1
    }

    /** Neither was credited and the credential is the same. */
    twostate predicate Uncredited()
      reads this
    {
      group.renewals == old(group).renewals && group.reconnects == old(group).reconnects && credential == old(credential)
    }

    /** Between attempts of a re-attachment: paused, no socket, free to try again. */
    ghost predicate Recovering(attempts: nat)
      reads this
    {
      && Valid() && Detached()
      && paused && !group.attached && !group.barred && !group.ended
      && group.admission.None? && group.attempts == attempts && group.outstanding.None? && inHand.None?
    }

    /** A re-attachment that gave up: paused and without any socket. */
    ghost predicate Down()
      reads this
    {
      Valid() && Detached() && paused && !group.attached && !group.ended && inHand.None?
    }

    /** A group freshly admitted on every bus under one credential snapshot. */
    constructor (control: C.Control, credential: C.Credential, generations: seq<nat>, channels: seq<P.Byte>,
                 startupTimeout: nat, now: nat)
      requires C.Inv(control) && !control.revoked && credential.revision <= control.revision
      requires |channels| == |generations|
      ensures Publishing() && run == []
      ensures start == GroupProtocol.Admitted(credential.revision, generations)
    {
      var n := |generations|;
      this.control, this.credential, this.now, this.startupTimeout := control, credential, now, startupTimeout;
      stopRequested, abortRequested, paused := false, false, false;
      captureEndNs := seq(n, _ => 0);
      queues := seq(n, _ => []);
      encoded := seq(n, _ => 0);
      encoderGone := seq(n, _ => false);
      active := seq(n, i requires 0 <= i < n =>
        ActiveIngress(Some(Connection(generations[i], credential.revision)), false, channels[i], generations[i], None,
                      Statistics(0, 0, generations[i], 1, 0, 0, 0, 0, 0, credential.revision), Tally(0, 0, 0, 0)));
      start := GroupProtocol.Admitted(credential.revision, generations);
      group := GroupProtocol.Admitted(credential.revision, generations);
      run, popped, inHand, work := [], seq(n, _ => 0), None, 0;
    }

    // ----- The environment -----

    ghost method Emit(e: Event)
      requires Replay(start, run) == Some(group) && Inv(group)
      requires Allowed(group, e)
      modifies this`run, this`group
      ensures run == old(run) + [e]
      ensures group == Observe(old(group), e)
      ensures Replay(start, run) == Some(group) && Inv(group)
    {
      LegalSnoc(start, run, e);
      ObserveKeeps(group, e);
      run := run + [e];
      group := Observe(group, e);
    }

    /** One step of some other thread. */
    method EnvironmentStep()
      requires Shared()
      modifies this`control, this`now, this`stopRequested, this`abortRequested, this`captureEndNs,
               this`queues, this`encoded, this`encoderGone, this`run, this`group
      ensures Shared()
      ensures C.Evolves(old(control), control)
      ensures old(now) <= now
      ensures old(stopRequested) ==> stopRequested
      ensures old(abortRequested) ==> abortRequested
      ensures group == old(group).(revoked := control.revoked, encoded := group.encoded)
      ensures forall i :: 0 <= i < |captureEndNs| ==> old(captureEndNs)[i] <= captureEndNs[i]
      ensures forall i :: 0 <= i < |queues| ==> old(queues)[i] <= queues[i]
    {
      hide Replay, Coherent, Tallied, QueuesOrdered, PausedUnlessConnected;
      var kind: nat :| kind < 3;
      if kind == 0 {
        var a: C.Action := *;
        ControlStep(a);
      } else if kind == 1 {
        OwnerStep();
      } else {
        var bus: nat :| true;
        if bus < |active| {
          MediaStep(bus);
        }
      }
    }

    /** The management thread takes one step. */
    method ControlStep(a: C.Action)
      requires Shared()
      modifies this`control, this`run, this`group
      ensures Shared()
      ensures C.Evolves(old(control), control)
      ensures group == old(group).(revoked := control.revoked, encoded := group.encoded)
    {
      C.StepEvolves(control, a);
      if a.Revoke? {
        Emit(Revoked);
      }
      control := C.Step(control, a);
    }

    /** Time passes, or the owner of the connector asks it to stop or to abort. */
    method OwnerStep()
      requires Shared()
      modifies this`now, this`stopRequested, this`abortRequested
      ensures Shared()
      ensures old(now) <= now
      ensures old(stopRequested) ==> stopRequested
      ensures old(abortRequested) ==> abortRequested
    {
      var elapsed: nat :| true;
      var stop, abort: bool := *, *;
      now := now + elapsed;
      stopRequested := stopRequested || stop;
      abortRequested := abortRequested || abort;
    }

    /** A feeder publishes a capture end, an encoder numbers a frame, or an encoder goes away. */
    method MediaStep(bus: nat)
      requires Shared() && bus < |active|
      modifies this`captureEndNs, this`queues, this`encoded, this`encoderGone, this`run, this`group
      ensures Shared()
      ensures group == old(group).(revoked := control.revoked, encoded := group.encoded)
      ensures forall i :: 0 <= i < |captureEndNs| ==> old(captureEndNs)[i] <= captureEndNs[i]
      ensures forall i :: 0 <= i < |queues| ==> old(queues)[i] <= queues[i]
    {
      hide Replay, Tallied;
      var kind: nat :| kind < 3;
      if kind == 0 {
        var end: nat :| true;
        captureEndNs := captureEndNs[bus := Max(captureEndNs[bus], end)];
      } else if kind == 1 {
        var delivered: bool := *;
        var frame: P.MediaFrame := *;
        var wallclock: nat :| true;
        EncodeStep(bus, Queued(frame.(rtpTime := OPUS_FRAME_SAMPLES * encoded[bus]), wallclock), delivered);
      } else {
        encoderGone := encoderGone[bus := true];
      }
    }

    /** An encoder numbers one more frame and queues it, or loses it. */
    method EncodeStep(bus: nat, q: Queued, delivered: bool)
      requires Shared() && bus < |active|
      requires q.frame.rtpTime == OPUS_FRAME_SAMPLES * encoded[bus]
      modifies this`queues, this`encoded, this`run, this`group
      ensures Shared()
      ensures group == Observe(old(group), Encoded(bus, q.Sequence()))
      ensures forall i :: 0 <= i < |queues| ==> old(queues)[i] <= queues[i]
    {
      hide Replay, Coherent, Tallied, QueuesOrdered, PausedUnlessConnected;
      QueueSizes(queues, group.nextSequence, popped, encoded);
      assert q.Sequence() == encoded[bus];
      QueueGrows(queues, group.nextSequence, popped, encoded, bus, q);
      Emit(Encoded(bus, q.Sequence()));
      if delivered {
        queues := queues[bus := queues[bus] + [q]];
      }
      encoded := encoded[bus := encoded[bus] + 1];
    }

    /** Any number of steps of other threads. */
    method Interfere()
      requires Shared()
      modifies this`control, this`now, this`stopRequested, this`abortRequested, this`captureEndNs,
               this`queues, this`encoded, this`encoderGone, this`run, this`group
      ensures Shared()
      ensures C.Evolves(old(control), control)
      ensures old(now) <= now
      ensures old(stopRequested) ==> stopRequested
      ensures old(abortRequested) ==> abortRequested
      ensures group == old(group).(revoked := control.revoked, encoded := group.encoded)
      ensures forall i :: 0 <= i < |captureEndNs| ==> old(captureEndNs)[i] <= captureEndNs[i]
      ensures forall i :: 0 <= i < |queues| ==> old(queues)[i] <= queues[i]
      ensures old(Valid()) ==> Valid()
    {
      var steps :| 0 <= steps;
      for i := 0 to steps
        invariant Shared()
        invariant C.Evolves(old(control), control)
        invariant old(now) <= now
        invariant old(stopRequested) ==> stopRequested
        invariant old(abortRequested) ==> abortRequested
        invariant group == old(group).(revoked := control.revoked, encoded := group.encoded)
        invariant forall i :: 0 <= i < |captureEndNs| ==> old(captureEndNs)[i] <= captureEndNs[i]
        invariant forall i :: 0 <= i < |queues| ==> old(queues)[i] <= queues[i]
      {
        ghost var before := control;
        EnvironmentStep();
        C.EvolvesTransitive(old(control), before, control);
      }
    }

    /** Blocks on a socket no later than `deadline`. */
    method AwaitSocket(deadline: nat)
      requires Shared()
      modifies this`control, this`now, this`stopRequested, this`abortRequested, this`captureEndNs,
               this`queues, this`encoded, this`encoderGone, this`run, this`group, this`work
      ensures Shared()
      ensures C.Evolves(old(control), control)
      ensures old(now) <= now
      ensures old(stopRequested) ==> stopRequested
      ensures old(abortRequested) ==> abortRequested
      ensures group == old(group).(revoked := control.revoked, encoded := group.encoded)
      ensures old(Valid()) ==> Valid()
      ensures old(Down()) ==> Down()
      ensures work + Until(now, deadline) <= old(work) + Until(old(now), deadline)
    {
      Interfere();
      assert work == old(work);
      assert Until(now, deadline) <= Until(old(now), deadline);
      var waited: nat :| waited <= Until(now, deadline);
      work := work + waited;
      now := now + waited;
    }

    method Sleep()
      requires Shared()
      modifies this`now, this`work
      ensures Shared()
      ensures now == old(now) + MILLISECOND && work == old(work) + MILLISECOND
      ensures old(Valid()) ==> Valid()
      ensures old(Delivering()) ==> Delivering()
      ensures old(Publishing()) ==> Publishing()
    {
      now := now + MILLISECOND;
      work := work + MILLISECOND;
    }

    // ----- Delivery -----

    /** The `valid` check of `send_until`: three separate reads of shared state. */
    method StillValid() returns (valid: bool)
      requires Delivering()
      modifies this`control, this`now, this`stopRequested, this`abortRequested, this`captureEndNs,
               this`queues, this`encoded, this`encoderGone, this`run, this`group
      ensures Delivering()
      ensures old(now) <= now
      ensures group == old(group).(revoked := control.revoked, encoded := group.encoded, cleared := group.cleared)
      ensures valid ==> group.cleared
    {
      hide Replay, Tallied, QueuesOrdered, ReceiptsAgree, GenerationsAgree, CutoffsAgree, SentAgree, AllSettled;
      Interfere();
      if control.revoked {
        return false;
      }
      Emit(ClearedToSend);
      Interfere();
      if control.revision != credential.revision {
        return false;
      }
      Interfere();
      valid := now < credential.validUntil;
    }

    /** The packet goes into the socket's buffer. */
    ghost method HandOver(i: nat, sequence: nat, captureNs: nat)
      requires Delivering() && group.cleared && group.outstanding.None?
      requires i < |active| && group.nextSequence[i] <= sequence && popped[i] == sequence + 1
      requires captureNs >= group.cutoffs[i]
      modifies this`run, this`group
      ensures Delivering() && group.outstanding == Some((i, sequence))
    {
      assert QueueOrdered(queues[i], popped[i], encoded[i]);
      Emit(Written(i, sequence, captureNs));
    }

    /** Retries the flush of a queued packet until it succeeds, fails, loses its credential or times out. */
    method FlushUntil(i: nat, sequence: nat, deadline: nat) returns (failure: Option<Failure>)
      requires Delivering() && group.outstanding == Some((i, sequence))
      modifies this`control, this`now, this`stopRequested, this`abortRequested, this`captureEndNs,
               this`queues, this`encoded, this`encoderGone, this`run, this`group, this`work
      ensures Delivering()
      ensures failure.None? ==> group.cleared && group.outstanding == Some((i, sequence))
    {
      hide Replay, Coherent, Tallied, QueuesOrdered;
      while true
        invariant Delivering() && group.outstanding == Some((i, sequence))
        decreases Until(now, deadline)
      {
        var valid := StillValid();
        if !valid {
          return Some(CredentialLost);
        }
        var flushed: WriteResult := *;
        if flushed.WriteOk? {
          return None;
        }
        if flushed.WriteError? {
          return Some(SocketFailure(flushed.transport));
        }
        Interfere();
        if now >= deadline {
          return Some(Untyped);
        }
        Sleep();
      }
    }

    /** Queues the packet exactly once and retries only the flush. */
    method SendUntil(i: nat, sequence: nat, captureNs: nat, deadline: nat) returns (failure: Option<Failure>)
      requires Delivering() && group.outstanding.None?
      requires i < |active| && group.nextSequence[i] <= sequence && popped[i] == sequence + 1
      requires captureNs >= group.cutoffs[i]
      modifies this`control, this`now, this`stopRequested, this`abortRequested, this`captureEndNs,
               this`queues, this`encoded, this`encoderGone, this`run, this`group, this`work
      ensures Delivering()
      ensures failure.None? ==> group.cleared && group.outstanding == Some((i, sequence))
    {
      hide Replay, Coherent, Tallied, QueuesOrdered;
      var valid := StillValid();
      if !valid {
        return Some(CredentialLost);
      }
      Interfere();
      if now >= deadline {
        return Some(Untyped);
      }
      HandOver(i, sequence, captureNs);
      var written: WriteResult := *;
      if written.WriteError? {
        return Some(SocketFailure(written.transport));
      }
      failure := FlushUntil(i, sequence, deadline);
    }

    /** One encoded frame: cancelled, older than the cutoff, stale, refused, sent, or lost with its socket. */
    method SendFrame(i: nat, q: Queued) returns (disposition: Disposition)
      requires Delivering() && group.outstanding.None?
      requires i < |active| && inHand == Some(i)
      requires group.nextSequence[i] <= q.Sequence() && popped[i] == q.Sequence() + 1
      modifies this`control, this`now, this`stopRequested, this`abortRequested, this`captureEndNs,
               this`queues, this`encoded, this`encoderGone, this`run, this`group, this`work, this`active, this`inHand
      ensures Delivering() && inHand.None?
      ensures active == old(active)[i := Settle(old(active)[i], disposition, |q.frame.payload|)]
      ensures FailureOf(disposition).None? ==> group.outstanding.None?
      ensures disposition.RefusedByEncoder? ==> !P.Encodable(q.frame, old(active)[i].channels)
      ensures disposition.SentOnSocket? ==>
                P.Encodable(q.frame, old(active)[i].channels) && |run| > 0 && run[|run| - 1] == Sent(i, q.Sequence())
      ensures disposition.CancelledOutput? ==> q.frame.generation.Some?
      ensures !disposition.CancelledOutput? ==>
                (disposition.BeforeCutoff? <==> q.frame.captureTimestampNs < CutoffOf(old(active)[i]))
      ensures disposition.TooOld? ==> now > q.wallclock + MAX_FRAME_AGE
    {
      hide Replay, Coherent, Tallied, QueuesOrdered, ReceiptsAgree, GenerationsAgree, AllSettled, SentAgree, AllOnWire;
      var outputActive: bool := *;
      if q.frame.generation.Some? && !outputActive {
        SettleFrame(i, CancelledOutput, |q.frame.payload|);
        return CancelledOutput;
      }
      var cutoff := active[i].notBeforeCaptureNs;
      if cutoff.Some? && q.frame.captureTimestampNs < cutoff.value {
        SettleFrame(i, BeforeCutoff, |q.frame.payload|);
        return BeforeCutoff;
      }
      Interfere();
      if now > q.wallclock + MAX_FRAME_AGE {
        SettleFrame(i, TooOld, |q.frame.payload|);
        return TooOld;
      }
      disposition := DeliverFrame(i, q);
    }

    /** A frame that passed the filters: encode it, send it, count it. */
    method DeliverFrame(i: nat, q: Queued) returns (disposition: Disposition)
      requires Delivering() && group.outstanding.None?
      requires i < |active| && inHand == Some(i)
      requires group.nextSequence[i] <= q.Sequence() && popped[i] == q.Sequence() + 1
      requires q.frame.captureTimestampNs >= group.cutoffs[i]
      modifies this`control, this`now, this`stopRequested, this`abortRequested, this`captureEndNs,
               this`queues, this`encoded, this`encoderGone, this`run, this`group, this`work, this`active, this`inHand
      ensures Delivering() && inHand.None?
      ensures active == old(active)[i := Settle(old(active)[i], disposition, |q.frame.payload|)]
      ensures FailureOf(disposition).None? ==> group.outstanding.None?
      ensures disposition.RefusedByEncoder? ==> !P.Encodable(q.frame, old(active)[i].channels)
      ensures disposition.SentOnSocket? ==>
                P.Encodable(q.frame, old(active)[i].channels) && |run| > 0 && run[|run| - 1] == Sent(i, q.Sequence())
      ensures disposition.RefusedByEncoder? || disposition.SentOnSocket? || disposition.LostSending?
    {
      hide Replay, Coherent, Tallied, QueuesOrdered, ReceiptsAgree, GenerationsAgree, AllSettled, SentAgree, AllOnWire;
      var packed := Pack(q.frame, active[i].channels);
      if !packed {
        SettleFrame(i, RefusedByEncoder, |q.frame.payload|);
        return RefusedByEncoder;
      }
      Interfere();
      var deadline := Min(now + MAX_FRAME_AGE, credential.validUntil);
      var failure := SendUntil(i, q.Sequence(), q.frame.captureTimestampNs, deadline);
      if failure.Some? {
        disposition := LostSending(failure.value);
        SettleFrame(i, disposition, |q.frame.payload|);
      } else {
        disposition := SentOnSocket;
        CountSent(i, q.Sequence(), |q.frame.payload|);
      }
    }

    /** Counts a frame its socket took as sent. */
    method CountSent(i: nat, ghost sequence: nat, bytes: nat)
      requires Delivering() && i < |active| && inHand == Some(i)
      requires group.cleared && group.outstanding == Some((i, sequence))
      modifies this`active, this`inHand, this`run, this`group
      ensures Delivering() && inHand.None? && group.outstanding.None?
      ensures active == old(active)[i := Settle(old(active)[i], SentOnSocket, bytes)]
      ensures |run| > 0 && run[|run| - 1] == Sent(i, sequence)
    {
      hide Replay, Tallied, QueuesOrdered;
      Emit(Sent(i, sequence));
      active := active[i := Settle(active[i], SentOnSocket, bytes)];
      inHand := None;
    }

    /** Counts a frame that was not sent. */

    method SettleFrame(i: nat, disposition: Disposition, bytes: nat)
      requires Delivering() && i < |active| && inHand == Some(i) && !disposition.SentOnSocket?
      modifies this`active, this`inHand
      ensures Delivering() && inHand.None?
      ensures active == old(active)[i := Settle(old(active)[i], disposition, bytes)]
    {
      active := active[i := Settle(active[i], disposition, bytes)];
      inHand := None;
    }

    /** One visit to a bus: look at its socket, then take at most one encoded frame. */
    method PollStream(i: nat) returns (result: PollResult, ghost read: ReadResult)
      requires Publishing() && i < |active|
      modifies this`control, this`now, this`stopRequested, this`abortRequested, this`captureEndNs,
               this`queues, this`encoded, this`encoderGone, this`run, this`group, this`work, this`active, this`inHand, this`popped
      ensures Delivering() && inHand.None? && |active| == old(|active|)
      ensures result.Polled? ==> Publishing()
      ensures AtMostOneRefusal(active)
      ensures !NoneRefused(active) ==> result == PollFailed(Protocol)
      ensures read.Close? ==> result == PollFailed(CloseFailure(read.code))
      ensures read.OtherMessage? ==> result == PollFailed(Protocol)
      ensures read.ReadError? ==> result == PollFailed(SocketFailure(read.transport))
      ensures result.PollFailed? && (read.PingOrPong? || read.NothingToRead?) ==> active[i].tally.taken == old(active)[i].tally.taken + 1
      ensures old(active)[i].disconnected ==> result == Polled(false) && active == old(active)
    {
      read := NothingToRead;
      if active[i].disconnected {
        return Polled(false), read;
      }
      if active[i].connection.None? {
        return PollFailed(Protocol), read;
      }
      var answer: ReadResult := *;
      read := answer;
      if answer.Close? {
        return PollFailed(CloseFailure(answer.code)), read;
      }
      if answer.OtherMessage? {
        return PollFailed(Protocol), read;
      }
      if answer.ReadError? {
        return PollFailed(SocketFailure(answer.transport)), read;
      }
      result := PollQueue(i);
    }

    /** The encoder side of a visit: one frame, the end of the stream, or nothing yet. */
    method PollQueue(i: nat) returns (result: PollResult)
      requires Publishing() && i < |active|
      modifies this`control, this`now, this`stopRequested, this`abortRequested, this`captureEndNs,
               this`queues, this`encoded, this`encoderGone, this`run, this`group, this`work, this`active, this`inHand, this`popped
      ensures Delivering() && inHand.None? && |active| == old(|active|)
      ensures result.Polled? ==> Publishing()
      ensures AtMostOneRefusal(active)
      ensures !NoneRefused(active) ==> result == PollFailed(Protocol)
      ensures result.PollFailed? ==> active[i].tally.taken == old(active)[i].tally.taken + 1
    {
      Interfere();
      if |queues[i]| > 0 {
        result := SendNext(i);
      } else if encoderGone[i] {
        active := active[i := active[i].(disconnected := true)];
        result := Polled(true);
      } else {
        result := Polled(false);
      }
    }

    /** Takes the frame at the head of a queue and settles it. */
    method SendNext(i: nat) returns (result: PollResult)
      requires Publishing() && i < |active| && |queues[i]| > 0
      modifies this`control, this`now, this`stopRequested, this`abortRequested, this`captureEndNs,
               this`queues, this`encoded, this`encoderGone, this`run, this`group, this`work, this`active, this`inHand, this`popped
      ensures Delivering() && inHand.None? && |active| == old(|active|)
      ensures result.Polled? ==> Publishing()
      ensures AtMostOneRefusal(active)
      ensures !NoneRefused(active) ==> result == PollFailed(Protocol)
      ensures active[i].tally.taken == old(active)[i].tally.taken + 1
    {
      var q := queues[i][0];
      TakeFrame(i);
      var disposition := SendFrame(i, q);
      result := if FailureOf(disposition).Some? then PollFailed(FailureOf(disposition).value) else Polled(true);
    }

    /** Removes the head of a queue; its frame is then in hand. */
    method TakeFrame(i: nat)
      requires Publishing() && i < |active| && |queues[i]| > 0
      modifies this`queues, this`popped, this`active, this`inHand
      ensures Delivering() && inHand == Some(i)
      ensures active == old(active)[i := old(active)[i].(tally := old(active)[i].tally.(taken := old(active)[i].tally.taken + 1))]
      ensures popped[i] == old(queues)[i][0].Sequence() + 1
      ensures group.nextSequence[i] <= old(queues)[i][0].Sequence()
      ensures NoneRefused(active)
    {
      ghost var q := queues[i][0];
      queues := queues[i := queues[i][1..]];
      popped := popped[i := q.Sequence() + 1];
      active := active[i := active[i].(tally := active[i].tally.(taken := active[i].tally.taken + 1))];
      inHand := Some(i);
    }

    // ----- Recovery -----

    /** Takes every socket away. */
    method DropSockets()
      requires Valid() && paused && !group.attached
      modifies this`active
      ensures Valid() && Detached() && TalliesKept()
    {
      for i := 0 to |active|
        invariant Valid() && TalliesKept()
        invariant forall j :: 0 <= j < i ==> active[j].connection.None?
      {
        active := active[i := active[i].(connection := None)];
      }
    }

    /** Closes sockets one after the other, each wait bounded by the one deadline. */
    method CancelUntil(sockets: nat, deadline: nat)
      requires Valid()
      modifies this`control, this`now, this`stopRequested, this`abortRequested, this`captureEndNs,
               this`queues, this`encoded, this`encoderGone, this`run, this`group, this`work
      ensures Valid() && Onward()
      ensures group == old(group).(revoked := control.revoked, encoded := group.encoded)
      ensures work + Until(now, deadline) <= old(work) + Until(old(now), deadline)
    {
      hide Replay, Coherent, Tallied, QueuesOrdered, ReceiptsAgree, GenerationsAgree, CutoffsAgree, SentAgree;
      hide AllSettled, AllOnWire, NoSockets, PausedUnlessConnected;
      for closed := 0 to sockets
        invariant Valid() && Onward()
        invariant group == old(group).(revoked := control.revoked, encoded := group.encoded)
        invariant work + Until(now, deadline) <= old(work) + Until(old(now), deadline)
      {
        AwaitSocket(deadline);
      }
    }

    /** Takes every socket away, then closes them all within one 200 ms deadline. */
    method CloseActive()
      requires Valid() && paused
      modifies this`control, this`now, this`stopRequested, this`abortRequested, this`captureEndNs,
               this`queues, this`encoded, this`encoderGone, this`run, this`group, this`active, this`work
      ensures Valid() && Detached() && Onward() && TalliesKept()
      ensures group == Observe(old(group), ClosedAll).(revoked := control.revoked, encoded := group.encoded)
      ensures work <= old(work) + MAX_FRAME_AGE
    {
      Emit(ClosedAll);
      var sockets := |active|;
      DropSockets();
      CancelUntil(sockets, now + MAX_FRAME_AGE);
    }

    /** Waits for the credential lock and copies what it guards. */
    method CopyCredential() returns (copy: C.Credential)
      requires Valid()
      modifies this`control, this`now, this`stopRequested, this`abortRequested, this`captureEndNs,
               this`queues, this`encoded, this`encoderGone, this`run, this`group
      ensures Valid() && Onward()
      ensures group == old(group).(revoked := control.revoked, encoded := group.encoded)
      ensures old(control).revoked ==> control.revoked
      ensures old(control).revision <= copy.revision == control.revision
    {
      hide Replay, Coherent, Tallied, QueuesOrdered, ReceiptsAgree, GenerationsAgree, CutoffsAgree, SentAgree;
      hide AllSettled, AllOnWire, NoSockets, PausedUnlessConnected;
      Interfere();
      C.DrainFreesTheLock(control);
      control := C.Drain(control);
      copy := control.credential;
    }

    /** `RelayPublisherControl::snapshot`, from the publisher thread. */
    method TakeSnapshot() returns (result: C.SnapshotResult)
      requires Valid()
      modifies this`control, this`now, this`stopRequested, this`abortRequested, this`captureEndNs,
               this`queues, this`encoded, this`encoderGone, this`run, this`group
      ensures Valid() && Onward()
      ensures group == old(group).(revoked := control.revoked, encoded := group.encoded)
      ensures old(control).revoked ==> result == C.Refused(C.Revoked)
      ensures result.Snapshot? ==>
                && old(control).revision <= result.credential.revision <= control.revision
                && credential.revision <= result.credential.revision
    {
      hide Replay, Coherent, Tallied, QueuesOrdered, ReceiptsAgree, GenerationsAgree, CutoffsAgree, SentAgree;
      hide AllSettled, AllOnWire, NoSockets, PausedUnlessConnected;
      var copy := CopyCredential();
      Interfere();
      if control.revoked {
        return C.Refused(C.Revoked);
      }
      Interfere();
      if !C.ValidExpiry(copy.validUntil, now) {
        return C.Refused(C.InvalidExpiry);
      }
      result := C.Snapshot(copy);
    }

    /** Connects and waits for READY, no later than the deadline. */
    method Prepare(deadline: nat) returns (result: PrepareResult)
      requires Valid()
      modifies this`control, this`now, this`stopRequested, this`abortRequested, this`captureEndNs,
               this`queues, this`encoded, this`encoderGone, this`run, this`group, this`work
      ensures Valid() && Onward()
      ensures group == old(group).(revoked := control.revoked, encoded := group.encoded)
      ensures work + Until(now, deadline) <= old(work) + Until(old(now), deadline)
      ensures Plausible(result)
    {
      AwaitSocket(deadline);
      assert Plausible(NotAdmitted(Transport));
      result :| Plausible(result);
    }

    /** Records a READY generation; false when it does not advance. */
    method RecordReady(index: nat, generation: nat) returns (advanced: bool)
      requires Valid() && Detached() && index < |active| && generation > 0
      requires !group.barred && group.admission.Some? && group.admission.value.admitted == index
      modifies this`active, this`run, this`group
      ensures Valid() && Detached() && TalliesKept()
      ensures group == Observe(old(group), Ready(index, generation))
      ensures advanced <==> generation > old(group).highest[index]
      ensures advanced ==>
                && group.highest[index] == generation && !group.barred
                && group.admission == Some(old(group).admission.value.(admitted := index + 1))
    {
      RaiseGeneration(active, group.highest, index, generation, group, inHand, paused);
      Emit(Ready(index, generation));
      advanced := generation > active[index].highestGeneration;
      if advanced {
        active := active[index := active[index].(highestGeneration := generation)];
      }
    }

    /** Two separate reads: the control was revoked, or its credential is not the one of `revision` any more. */
    method SeesChange(revision: nat) returns (changed: bool)
      requires Valid() && revision <= control.revision
      modifies this`control, this`now, this`stopRequested, this`abortRequested, this`captureEndNs,
               this`queues, this`encoded, this`encoderGone, this`run, this`group
      ensures Valid() && Onward()
      ensures group == old(group).(revoked := control.revoked, encoded := group.encoded)
      ensures changed ==> control.revoked || control.revision > revision
      ensures !changed ==> !old(control).revoked && old(control).revision == revision
    {
      hide Replay, Coherent, Tallied, QueuesOrdered, ReceiptsAgree, GenerationsAgree, CutoffsAgree, SentAgree;
      hide AllSettled, AllOnWire, NoSockets, PausedUnlessConnected;
      Interfere();
      if control.revoked {
        return true;
      }
      Interfere();
      changed := control.revision != revision;
    }

    /** Three separate reads behind a contact: credential and deadline still stand. */
    method StillStands(revision: nat, deadline: nat) returns (stands: bool)
      requires Valid() && revision <= control.revision
      modifies this`control, this`now, this`stopRequested, this`abortRequested, this`captureEndNs,
               this`queues, this`encoded, this`encoderGone, this`run, this`group
      ensures Valid() && Onward()
      ensures group == old(group).(revoked := control.revoked, encoded := group.encoded)
      ensures !stands ==> control.revoked || control.revision > revision || now >= deadline
      ensures stands ==> now < deadline && !old(control).revoked && old(control).revision == revision
    {
      hide Replay, Coherent, Tallied, QueuesOrdered, ReceiptsAgree, GenerationsAgree, CutoffsAgree, SentAgree;
      hide AllSettled, AllOnWire, NoSockets, PausedUnlessConnected;
      var changed := SeesChange(revision);
      if changed {
        return false;
      }
      Interfere();
      stands := now < deadline;
    }

    /** Revoked, superseded, or told to stop before the next bus is contacted. */
    method AdmissionForbidden(revision: nat) returns (forbidden: bool)
      requires Valid() && !group.ended && revision <= control.revision
      modifies this`control, this`now, this`stopRequested, this`abortRequested, this`captureEndNs,
               this`queues, this`encoded, this`encoderGone, this`run, this`group
      ensures Valid() && Onward()
      ensures group == old(group).(revoked := control.revoked, encoded := group.encoded, barred := group.barred)
      ensures !forbidden ==> group.barred == old(group).barred && !old(control).revoked && old(control).revision == revision
      ensures forbidden ==> control.revoked || control.revision > revision || stopRequested
      ensures group.barred ==> old(group).barred || stopRequested
    {
      hide Replay, Coherent, Tallied, QueuesOrdered, ReceiptsAgree, GenerationsAgree, CutoffsAgree, SentAgree;
      hide AllSettled, AllOnWire, NoSockets, PausedUnlessConnected;
      forbidden := SeesChange(revision);
      if !forbidden {
        forbidden := SeesStop();
      }
    }

    /** Connects one bus and checks the generation of its READY. */
    method ContactBus(index: nat, snapshot: C.Credential, deadline: nat)
      returns (failure: Option<Failure>, socket: Option<Connection>, ghost answer: PrepareResult)
      requires Valid() && Detached() && index < |active|
      requires !group.barred && !group.ended && group.admission == Some(Admission(snapshot.revision, index))
      modifies this`control, this`now, this`stopRequested, this`abortRequested, this`captureEndNs,
               this`queues, this`encoded, this`encoderGone, this`run, this`group, this`active, this`work
      ensures Valid() && Detached() && Onward() && TalliesKept()
      ensures group == old(group).(revoked := control.revoked, encoded := group.encoded, highest := group.highest,
                                   admission := group.admission, barred := group.barred)
      ensures forall j :: 0 <= j < |active| && j != index ==> group.highest[j] == old(group).highest[j]
      ensures work + Until(now, deadline) <= old(work) + Until(old(now), deadline)
      ensures failure.None? ==>
                && !group.barred
                && group.admission == Some(Admission(snapshot.revision, index + 1))
                && socket == Some(Connection(group.highest[index], snapshot.revision))
      ensures group.barred ==> stopRequested || failure == Some(Generation)
      ensures failure == ContactFailure(answer, old(group).highest[index])
      ensures answer.LostAfterReady? ==> group.highest == old(group).highest && active == old(active)
      ensures failure.None? ==> answer.Admitted? && group.highest[index] == answer.generation
    {
      hide Replay, Tallied, QueuesOrdered, ReceiptsAgree, CutoffsAgree, AllSettled;
      var result := Prepare(deadline);
      answer, socket := result, None;
      if result.NotAdmitted? {
        return Some(result.failure), None, answer;
      }
      if result.LostAfterReady? {
        Emit(ReadyLost(index, result.generation));
        return Some(Untyped), None, answer;
      }
      socket := Some(Connection(result.generation, snapshot.revision));
      var advanced := RecordReady(index, result.generation);
      failure := if advanced then None else Some(Generation);
    }

    /**
     One iteration of `admit_group`. Without contact the failure is a lost credential; a bus that
     answered is admitted only if its READY advanced and credential and deadline still stand.
     */
    method AdmitBus(index: nat, snapshot: C.Credential, deadline: nat)
      returns (failure: Option<Failure>, socket: Option<Connection>, ghost contact: Option<PrepareResult>)
      requires Valid() && Detached() && index < |active|
      requires !group.barred && !group.ended && group.admission == Some(Admission(snapshot.revision, index))
      requires snapshot.revision <= control.revision
      modifies this`control, this`now, this`stopRequested, this`abortRequested, this`captureEndNs,
               this`queues, this`encoded, this`encoderGone, this`run, this`group, this`active, this`work
      ensures Valid() && Detached() && Onward() && TalliesKept()
      ensures group == old(group).(revoked := control.revoked, encoded := group.encoded, highest := group.highest,
                                   admission := group.admission, barred := group.barred)
      ensures forall j :: 0 <= j < |active| && j != index ==> group.highest[j] == old(group).highest[j]
      ensures work + Until(now, deadline) <= old(work) + Until(old(now), deadline)
      ensures failure.None? ==>
                && !group.barred
                && group.admission == Some(Admission(snapshot.revision, index + 1))
                && socket == Some(Connection(group.highest[index], snapshot.revision))
      ensures group.barred ==> stopRequested || failure == Some(Generation)
      ensures contact.None? ==> failure == Some(CredentialLost)
      ensures contact.Some? && ContactFailure(contact.value, old(group).highest[index]).Some? ==>
                failure == ContactFailure(contact.value, old(group).highest[index])
      ensures contact.Some? && ContactFailure(contact.value, old(group).highest[index]).None? ==>
                failure == None || failure == Some(CredentialLost)
      ensures contact.Some? && ContactFailure(contact.value, old(group).highest[index]).None? && failure.Some? ==>
                control.revoked || control.revision > snapshot.revision || now >= deadline
      ensures failure.None? ==> contact.Some? && now < deadline && !old(control).revoked && old(control).revision == snapshot.revision
    {
      hide Replay, Coherent, Tallied, QueuesOrdered, ReceiptsAgree, GenerationsAgree, CutoffsAgree, SentAgree;
      hide AllSettled, AllOnWire, NoSockets, PausedUnlessConnected;
      contact := None;
      var forbidden := AdmissionForbidden(snapshot.revision);
      if forbidden {
        return Some(CredentialLost), None, contact;
      }
      ghost var answer;
      failure, socket, answer := ContactBus(index, snapshot, deadline);
      contact := Some(answer);
      if failure.Some? {
        return;
      }
      var stands := StillStands(snapshot.revision, deadline);
      if !stands {
        failure := Some(CredentialLost);
      }
    }

    /** Admits every bus in order; the sockets opened so far are handed back either way. */
    method AdmitGroup(snapshot: C.Credential, deadline: nat)
      returns (failure: Option<Failure>, connections: seq<Connection>)
      requires Valid() && Detached()
      requires !group.barred && !group.ended && group.admission == Some(Admission(snapshot.revision, 0))
      requires snapshot.revision <= control.revision
      modifies this`control, this`now, this`stopRequested, this`abortRequested, this`captureEndNs,
               this`queues, this`encoded, this`encoderGone, this`run, this`group, this`active, this`work
      ensures Valid() && Detached() && Onward() && TalliesKept()
      ensures group == old(group).(revoked := control.revoked, encoded := group.encoded, highest := group.highest,
                                   admission := group.admission, barred := group.barred)
      ensures work + Until(now, deadline) <= old(work) + Until(old(now), deadline)
      ensures failure.None? ==>
                && !group.barred
                && group.admission == Some(Admission(snapshot.revision, |active|))
                && |connections| == |active|
                && forall j :: 0 <= j < |active| ==> connections[j] == Connection(group.highest[j], snapshot.revision)
      ensures group.barred ==> stopRequested || failure == Some(Generation)
    {
      hide Replay, Coherent, Tallied, QueuesOrdered;
      connections := [];
      for index := 0 to |active|
        invariant Valid() && Detached() && Onward() && TalliesKept()
        invariant group == old(group).(revoked := control.revoked, encoded := group.encoded, highest := group.highest,
                                       admission := group.admission, barred := group.barred)
        invariant work + Until(now, deadline) <= old(work) + Until(old(now), deadline)
        invariant !group.barred && group.admission == Some(Admission(snapshot.revision, index))
        invariant |connections| == index
        invariant forall j :: 0 <= j < index ==> connections[j] == Connection(group.highest[j], snapshot.revision)
      {
        var socket;
        ghost var contact;
        failure, socket, contact := AdmitBus(index, snapshot, deadline);
        if socket.Some? {
          connections := connections + [socket.value];
        }
        if failure.Some? {
          return;
        }
      }
      failure := None;
    }

    /** Looks for a stop request, and records having seen it. */
    method SeesStop() returns (stop: bool)
      requires Valid() && !group.ended
      modifies this`control, this`now, this`stopRequested, this`abortRequested, this`captureEndNs,
               this`queues, this`encoded, this`encoderGone, this`run, this`group
      ensures Valid() && Onward()
      ensures group == old(group).(revoked := control.revoked, encoded := group.encoded, barred := group.barred)
      ensures !stop ==> group.barred == old(group).barred
      ensures stop == stopRequested
      ensures old(Down()) ==> Down()
    {
      Interfere();
      stop := stopRequested;
      if stop {
        Emit(StopSeen);
      }
    }

    /** One turn of the back-off loop: time is up, the recovery is over, or one millisecond passes. */
    method Nap(attempt: nat, waitUntil: nat) returns (slept: bool, outcome: AttemptResult)
      requires Recovering(attempt)
      modifies this`control, this`now, this`stopRequested, this`abortRequested, this`captureEndNs,
               this`queues, this`encoded, this`encoderGone, this`run, this`group, this`work
      ensures Onward() && Uncredited()
      ensures slept || outcome.TryAgain? ==> Recovering(attempt)
      ensures slept ==> work == old(work) + MILLISECOND && old(now) < waitUntil && old(now) + MILLISECOND <= now
      ensures !slept ==> work == old(work)
      ensures !slept && outcome.Done? ==> Down() && GaveUp(outcome.result)
      ensures !slept && outcome == Done(Stopped) ==> stopRequested
    {
      hide Replay, Coherent, Tallied, QueuesOrdered, ReceiptsAgree, GenerationsAgree, CutoffsAgree, SentAgree;
      hide AllSettled, AllOnWire, NoSockets, PausedUnlessConnected;
      Interfere();
      if now >= waitUntil {
        return false, TryAgain;
      }
      Interfere();
      if stopRequested {
        Emit(StopSeen);
        return false, Done(Stopped);
      }
      Interfere();
      if control.revoked {
        return false, Done(Lost(CredentialLost));
      }
      Sleep();
      return true, TryAgain;
    }

    /** Waits before an attempt, watching for stop and revocation. */
    method Backoff(attempt: nat, recoveryDeadline: nat) returns (outcome: AttemptResult)
      requires Recovering(attempt)
      modifies this`control, this`now, this`stopRequested, this`abortRequested, this`captureEndNs,
               this`queues, this`encoded, this`encoderGone, this`run, this`group, this`work
      ensures Onward() && Uncredited()
      ensures work <= old(work) + BackoffMs(attempt) * MILLISECOND
      ensures outcome.TryAgain? ==> Recovering(attempt)
      ensures outcome.Done? ==> Down() && GaveUp(outcome.result)
      ensures outcome == Done(Stopped) ==> stopRequested
    {
      hide Replay, Coherent, Tallied, QueuesOrdered, ReceiptsAgree, GenerationsAgree, CutoffsAgree, SentAgree;
      hide AllSettled, AllOnWire, NoSockets, PausedUnlessConnected;
      Interfere();
      ghost var started, limit, naps := now, BackoffMs(attempt), 0;
      var waitUntil := Min(now + BackoffMs(attempt) * MILLISECOND, recoveryDeadline);
      var slept := true;
      outcome := TryAgain;
      while slept
        invariant Onward() && Uncredited()
        invariant slept ==> Recovering(attempt) && now >= started + naps * MILLISECOND
        invariant naps <= limit
        invariant work == old(work) + naps * MILLISECOND
        invariant !slept && outcome.TryAgain? ==> Recovering(attempt)
        invariant !slept && outcome.Done? ==> Down() && GaveUp(outcome.result)
        invariant !slept && outcome == Done(Stopped) ==> stopRequested
        decreases slept, Until(now, waitUntil)
      {
        slept, outcome := Nap(attempt, waitUntil);
        if slept {
          naps := naps + 1;
        }
      }
      if outcome.TryAgain? {
        var stop := SeesStop();
        if stop {
          outcome := Done(Stopped);
        }
      }
    }

    /** Hands every bus its new socket and its capture cutoff, while delivery is still paused. */
    method RejoinAll(connections: seq<Connection>, renewed: bool)
      requires Shared() && paused && |connections| == |active|
      modifies this`control, this`now, this`stopRequested, this`abortRequested, this`captureEndNs,
               this`queues, this`encoded, this`encoderGone, this`run, this`group, this`active
      ensures Shared() && Onward() && |active| == old(|active|)
      ensures group == old(group).(revoked := control.revoked, encoded := group.encoded)
      ensures forall j :: 0 <= j < |active| ==>
                && active[j].notBeforeCaptureNs.Some?
                && old(captureEndNs)[j] <= active[j].notBeforeCaptureNs.value <= captureEndNs[j]
                && active[j] == Rejoined(old(active)[j], connections[j], renewed, active[j].notBeforeCaptureNs.value)
    {
      hide Replay, Coherent, Tallied, QueuesOrdered;
      for i := 0 to |active|
        invariant Shared() && Onward() && |active| == old(|active|)
        invariant group == old(group).(revoked := control.revoked, encoded := group.encoded)
        invariant forall j :: 0 <= j < |active| ==> old(captureEndNs)[j] <= captureEndNs[j]
        invariant forall j :: 0 <= j < i ==>
                    && active[j].notBeforeCaptureNs.Some?
                    && old(captureEndNs)[j] <= active[j].notBeforeCaptureNs.value <= captureEndNs[j]
                    && active[j] == Rejoined(old(active)[j], connections[j], renewed, active[j].notBeforeCaptureNs.value)
        invariant forall j :: i <= j < |active| ==> active[j] == old(active)[j]
      {
        RejoinBus(i, connections[i], renewed);
      }
    }

    /** Gives one bus its socket and the capture end read at that moment. */
    method RejoinBus(i: nat, connection: Connection, renewed: bool)
      requires Shared() && paused && i < |active|
      modifies this`control, this`now, this`stopRequested, this`abortRequested, this`captureEndNs,
               this`queues, this`encoded, this`encoderGone, this`run, this`group, this`active
      ensures Shared() && Onward() && |active| == old(|active|)
      ensures group == old(group).(revoked := control.revoked, encoded := group.encoded)
      ensures forall j :: 0 <= j < |captureEndNs| ==> old(captureEndNs)[j] <= captureEndNs[j]
      ensures active == old(active)[i := Rejoined(old(active)[i], connection, renewed, captureEndNs[i])]
    {
      hide Replay, Coherent, Tallied, QueuesOrdered;
      Interfere();
      active := active[i := Rejoined(active[i], connection, renewed, captureEndNs[i])];
    }

    /** A complete admission becomes the group's attachment; delivery is still paused. */
    method AttachAll(snapshot: C.Credential, connections: seq<Connection>, renewed: bool)
      requires Valid() && Detached() && paused && !group.ended && !group.barred && inHand.None?
      requires group.admission == Some(Admission(snapshot.revision, |active|))
      requires snapshot.revision <= control.revision
      requires renewed <==> snapshot.revision > credential.revision
      requires |connections| == |active|
      requires forall j :: 0 <= j < |active| ==> connections[j] == Connection(group.highest[j], snapshot.revision)
      modifies this`control, this`now, this`stopRequested, this`abortRequested, this`captureEndNs,
               this`queues, this`encoded, this`encoderGone, this`run, this`group, this`active, this`credential
      ensures Valid() && Whole() && Onward() && TalliesKept()
      ensures |group.cutoffs| == |active|
      ensures group == Observe(old(group), Attached(snapshot.revision, renewed, group.cutoffs)).(revoked := control.revoked, encoded := group.encoded)
      ensures credential == snapshot
      ensures forall j :: 0 <= j < |active| ==>
                && active[j].notBeforeCaptureNs.Some?
                && old(captureEndNs)[j] <= active[j].notBeforeCaptureNs.value <= captureEndNs[j]
    {
      hide Replay, Coherent, Tallied, QueuesOrdered, ReceiptsAgree, GenerationsAgree, SentAgree;
      hide AllSettled, AllOnWire, NoSockets, PausedUnlessConnected;
      RejoinAll(connections, renewed);
      RejoinedAgree(old(active), active, connections, renewed, old(group), snapshot.revision, inHand);
      credential := snapshot;
      Emit(Attached(snapshot.revision, renewed, CutoffsOf(active)));
    }

    /** Counts one more attempt on every bus. */
    method CountAttempt()
      modifies this`active
      ensures |active| == old(|active|)
      ensures forall j :: 0 <= j < |active| ==>
                var s := old(active)[j].statistics;
                active[j] == old(active)[j].(statistics := s.(reconnectAttempts := s.reconnectAttempts + 1))
    {
      for i := 0 to |active|
        invariant |active| == old(|active|)
        invariant forall j :: 0 <= j < i ==>
                    var s := old(active)[j].statistics;
                    active[j] == old(active)[j].(statistics := s.(reconnectAttempts := s.reconnectAttempts + 1))
        invariant forall j :: i <= j < |active| ==> active[j] == old(active)[j]
      {
        var s := active[i].statistics;
        active := active[i := active[i].(statistics := s.(reconnectAttempts := s.reconnectAttempts + 1))];
      }
    }

    /** An admission starts under the given credential revision. */
    method StartAttempt(revision: nat)
      requires Recovering(group.attempts) && group.attempts < RECOVERY_ATTEMPTS
      requires credential.revision <= revision
      modifies this`active, this`run, this`group
      ensures Valid() && Detached() && TalliesKept()
      ensures group == Observe(old(group), Attempt(revision))
    {
      CountAttempt();
      Emit(Attempt(revision));
    }

    /** A failed admission is over; nothing is attached. */
    method RecordFailure(failure: Failure, changed: bool)
      requires Down()
      modifies this`run, this`group
      ensures Down()
      ensures group == Observe(old(group), Failed(failure, changed))
    {
      hide Replay, Tallied, QueuesOrdered, ReceiptsAgree, GenerationsAgree, CutoffsAgree, SentAgree, AllSettled;
      Emit(Failed(failure, changed));
    }

    /** Rolls a failed admission back and decides whether another attempt may follow. */
    method RollBack(failure: Failure, revision: nat, sockets: nat, recoveryDeadline: nat) returns (outcome: AttemptResult)
      requires Down()
      requires group.barred ==> stopRequested || failure.Generation?
      modifies this`control, this`now, this`stopRequested, this`abortRequested, this`captureEndNs,
               this`queues, this`encoded, this`encoderGone, this`run, this`group, this`work
      ensures Onward() && Uncredited()
      ensures work <= old(work) + MAX_FRAME_AGE
      ensures outcome.TryAgain? ==> Recovering(old(group).attempts)
      ensures outcome.Done? ==> Down() && GaveUp(outcome.result)
      ensures outcome == Done(Stopped) ==> stopRequested
    {
      hide Replay, Coherent, Tallied, QueuesOrdered, ReceiptsAgree, GenerationsAgree, CutoffsAgree, SentAgree;
      hide AllSettled, AllOnWire, NoSockets, PausedUnlessConnected;
      CancelUntil(sockets, Min(now + MAX_FRAME_AGE, recoveryDeadline));
      outcome := Judge(failure, revision);
    }

    /** The checks behind a failed admission: stop, revocation, the failure class, the control revision. */
    method Judge(failure: Failure, revision: nat) returns (outcome: AttemptResult)
      requires Down()
      requires group.barred ==> stopRequested || failure.Generation?
      modifies this`control, this`now, this`stopRequested, this`abortRequested, this`captureEndNs,
               this`queues, this`encoded, this`encoderGone, this`run, this`group
      ensures Onward() && Uncredited()
      ensures outcome.TryAgain? ==> Recovering(old(group).attempts)
      ensures outcome.Done? ==> Down() && GaveUp(outcome.result)
      ensures outcome == Done(Stopped) ==> stopRequested
    {
      hide Replay, Coherent, Tallied, QueuesOrdered, ReceiptsAgree, GenerationsAgree, CutoffsAgree, SentAgree;
      hide AllSettled, AllOnWire, NoSockets, PausedUnlessConnected;
      var stop := SeesStop();
      if stop {
        RecordFailure(failure, false);
        return Done(Stopped);
      }
      outcome := Classify(failure, revision);
    }

    /** The part of `reattach` that reads revocation, the failure class and the control revision. */
    method Classify(failure: Failure, revision: nat) returns (outcome: AttemptResult)
      requires Down()
      requires group.barred ==> failure.Generation?
      modifies this`control, this`now, this`stopRequested, this`abortRequested, this`captureEndNs,
               this`queues, this`encoded, this`encoderGone, this`run, this`group
      ensures Onward() && Uncredited()
      ensures outcome.TryAgain? ==> Recovering(old(group).attempts)
      ensures outcome.Done? ==>
                && Down()
                && ((outcome.result == Lost(CredentialLost) && control.revoked)
                    || (outcome.result == Lost(failure) && !Recoverable(failure)))
    {
      hide Replay, Tallied, QueuesOrdered, ReceiptsAgree, GenerationsAgree, CutoffsAgree, SentAgree, AllSettled;
      hide Replay, Coherent, Tallied, QueuesOrdered;
      Interfere();
      if control.revoked {
        RecordFailure(failure, false);
        return Done(Lost(CredentialLost));
      }
      if !Recoverable(failure) && !failure.CredentialLost? {
        RecordFailure(failure, false);
        return Done(Lost(failure));
      }
      outcome := CompareRevision(failure, revision);
    }

    /** A recoverable failure, or a credential loss that a newer credential excuses, leads to another attempt. */
    method CompareRevision(failure: Failure, revision: nat) returns (outcome: AttemptResult)
      requires Down() && !group.barred
      requires Recoverable(failure) || failure.CredentialLost?
      modifies this`control, this`now, this`stopRequested, this`abortRequested, this`captureEndNs,
               this`queues, this`encoded, this`encoderGone, this`run, this`group
      ensures Onward() && Uncredited()
      ensures outcome.TryAgain? ==> Recovering(old(group).attempts)
      ensures outcome.Done? ==> Down() && outcome.result == Lost(failure) && !Recoverable(failure)
    {
      hide Replay, Tallied, QueuesOrdered, ReceiptsAgree, GenerationsAgree, CutoffsAgree, SentAgree, AllSettled;
      hide Replay, Coherent, Tallied, QueuesOrdered;
      Interfere();
      var changed := control.revision != revision;
      RecordFailure(failure, changed);
      if changed || Recoverable(failure) {
        return TryAgain;
      }
      outcome := Done(Lost(failure));
    }

    /** The deadline of one admission: one second, the recovery budget, the credential, the startup timeout. */
    method AdmissionDeadline(validUntil: nat, recoveryDeadline: nat) returns (deadline: nat, expired: bool)
      requires Down()
      modifies this`control, this`now, this`stopRequested, this`abortRequested, this`captureEndNs,
               this`queues, this`encoded, this`encoderGone, this`run, this`group
      ensures Down() && Onward()
      ensures group == old(group).(revoked := control.revoked, encoded := group.encoded)
      ensures Until(now, deadline) <= C.ATTACHMENT_TIMEOUT
      ensures deadline <= recoveryDeadline && deadline <= validUntil && deadline <= now + startupTimeout
      ensures expired <==> now >= deadline
    {
      Interfere();
      deadline := Min(Min(now + C.ATTACHMENT_TIMEOUT, recoveryDeadline), validUntil);
      Interfere();
      deadline := Min(deadline, now + startupTimeout);
      Interfere();
      expired := now >= deadline;
    }

    /** Hands out the sockets of a complete admission and lets delivery go on. */
    method Resurrect(snapshot: C.Credential, connections: seq<Connection>, reason: Reason)
      requires Down() && !group.barred && NoneRefused(active)
      requires group.admission == Some(Admission(snapshot.revision, |active|))
      requires credential.revision <= snapshot.revision <= control.revision
      requires reason.Renewal? ==> snapshot.revision > credential.revision
      requires |connections| == |active|
      requires forall j :: 0 <= j < |active| ==> connections[j] == Connection(group.highest[j], snapshot.revision)
      requires group.outstanding.None?
      modifies this`control, this`now, this`stopRequested, this`abortRequested, this`captureEndNs,
               this`queues, this`encoded, this`encoderGone, this`run, this`group, this`active, this`credential, this`paused
      ensures Publishing() && Onward() && TalliesKept() && Credited()
    {
      hide Replay, Tallied, QueuesOrdered, ReceiptsAgree, GenerationsAgree, CutoffsAgree, SentAgree, AllSettled;
      var renewed := snapshot.revision != credential.revision || reason.Renewal?;
      AttachAll(snapshot, connections, renewed);
      Resume();
    }

    /** A finished admission: rolled back, or taken over by the whole group. */
    method EndAdmission(failure: Option<Failure>, connections: seq<Connection>, snapshot: C.Credential,
                        recoveryDeadline: nat, reason: Reason)
      returns (outcome: AttemptResult)
      requires Down() && NoneRefused(active) && group.outstanding.None?
      requires group.barred ==> stopRequested || failure == Some(Generation)
      requires credential.revision <= snapshot.revision <= control.revision
      requires reason.Renewal? ==> snapshot.revision > credential.revision
      requires failure.None? ==>
                 && !group.barred && group.admission == Some(Admission(snapshot.revision, |active|))
                 && |connections| == |active|
                 && forall j :: 0 <= j < |active| ==> connections[j] == Connection(group.highest[j], snapshot.revision)
      modifies this`control, this`now, this`stopRequested, this`abortRequested, this`captureEndNs,
               this`queues, this`encoded, this`encoderGone, this`run, this`group, this`active, this`work, this`credential, this`paused
      ensures Onward() && TalliesKept()
      ensures work <= old(work) + MAX_FRAME_AGE
      ensures outcome.TryAgain? ==> Recovering(old(group).attempts)
      ensures outcome == Done(Reattached) ==> Publishing() && Credited()
      ensures outcome != Done(Reattached) ==> Uncredited()
      ensures outcome.Done? && !outcome.result.Reattached? ==> Down() && GaveUp(outcome.result)
      ensures outcome == Done(Stopped) ==> stopRequested
    {
      hide Replay, Coherent, Tallied, QueuesOrdered, ReceiptsAgree, GenerationsAgree, CutoffsAgree, SentAgree;
      hide AllSettled, AllOnWire, NoSockets, PausedUnlessConnected;
      if failure.Some? {
        outcome := RollBack(failure.value, snapshot.revision, |connections|, recoveryDeadline);
      } else {
        Resurrect(snapshot, connections, reason);
        outcome := Done(Reattached);
      }
    }

    /** One admission under a fresh credential, once its deadline is fixed. */
    method AdmitBefore(attempt: nat, snapshot: C.Credential, deadline: nat, recoveryDeadline: nat, reason: Reason)
      returns (outcome: AttemptResult)
      requires Recovering(attempt) && attempt < RECOVERY_ATTEMPTS && NoneRefused(active)
      requires credential.revision <= snapshot.revision <= control.revision
      requires reason.Renewal? ==> snapshot.revision > credential.revision
      modifies this`control, this`now, this`stopRequested, this`abortRequested, this`captureEndNs,
               this`queues, this`encoded, this`encoderGone, this`run, this`group, this`active, this`work, this`credential, this`paused
      ensures Onward() && TalliesKept()
      ensures work <= old(work) + Until(old(now), deadline) + MAX_FRAME_AGE
      ensures outcome.TryAgain? ==> Recovering(attempt + 1)
      ensures outcome == Done(Reattached) ==> Publishing() && Credited()
      ensures outcome != Done(Reattached) ==> Uncredited()
      ensures outcome.Done? && !outcome.result.Reattached? ==> Down() && GaveUp(outcome.result)
      ensures outcome == Done(Stopped) ==> stopRequested
    {
      hide Replay, Coherent, Tallied, QueuesOrdered, ReceiptsAgree, GenerationsAgree, CutoffsAgree, SentAgree;
      hide AllSettled, AllOnWire, NoSockets, PausedUnlessConnected;
      StartAttempt(snapshot.revision);
      var failure, connections := AdmitGroup(snapshot, deadline);
      outcome := EndAdmission(failure, connections, snapshot, recoveryDeadline, reason);
    }

    /** One admission under a fresh credential. */
    method Admit(attempt: nat, snapshot: C.Credential, recoveryDeadline: nat, reason: Reason)
      returns (outcome: AttemptResult)
      requires Recovering(attempt) && attempt < RECOVERY_ATTEMPTS && NoneRefused(active)
      requires credential.revision <= snapshot.revision <= control.revision
      requires reason.Renewal? ==> snapshot.revision > credential.revision
      modifies this`control, this`now, this`stopRequested, this`abortRequested, this`captureEndNs,
               this`queues, this`encoded, this`encoderGone, this`run, this`group, this`active, this`work, this`credential, this`paused
      ensures Onward() && TalliesKept()
      ensures work <= old(work) + C.ATTACHMENT_TIMEOUT + MAX_FRAME_AGE
      ensures outcome.TryAgain? ==> Recovering(attempt + 1)
      ensures outcome == Done(Reattached) ==> Publishing() && Credited()
      ensures outcome != Done(Reattached) ==> Uncredited()
      ensures outcome.Done? && !outcome.result.Reattached? ==> Down() && GaveUp(outcome.result)
      ensures outcome == Done(Stopped) ==> stopRequested
    {
      hide Replay, Coherent, Tallied, QueuesOrdered;
      var deadline, expired := AdmissionDeadline(snapshot.validUntil, recoveryDeadline);
      if expired {
        return Done(Lost(RecoveryBudget));
      }
      outcome := AdmitBefore(attempt, snapshot, deadline, recoveryDeadline, reason);
    }

    method Resume()
      requires Valid() && Whole() && paused && group.attached && !group.barred && !group.ended
      requires group.admission.None? && group.attempts == 0 && group.outstanding.None? && inHand.None?
      requires NoneRefused(active)
      modifies this`paused, this`run, this`group
      ensures Publishing() && group == Observe(old(group), Resumed)
    {
      hide Replay, Tallied, QueuesOrdered, ReceiptsAgree, GenerationsAgree, CutoffsAgree, SentAgree, AllSettled;
      Emit(Resumed);
      paused := false;
    }

    /** One attempt of `reattach`: back off, take a fresh credential, admit the whole group. */
    method TryAttempt(attempt: nat, recoveryDeadline: nat, reason: Reason) returns (outcome: AttemptResult)
      requires Recovering(attempt) && attempt < RECOVERY_ATTEMPTS && NoneRefused(active)
      requires reason.Renewal? ==> control.revision > credential.revision
      modifies this`control, this`now, this`stopRequested, this`abortRequested, this`captureEndNs,
               this`queues, this`encoded, this`encoderGone, this`run, this`group, this`active, this`work, this`credential, this`paused
      ensures Onward() && TalliesKept()
      ensures work <= old(work) + BackoffMs(attempt) * MILLISECOND + C.ATTACHMENT_TIMEOUT + MAX_FRAME_AGE
      ensures outcome.TryAgain? ==> Recovering(attempt + 1)
      ensures outcome == Done(Reattached) ==> Publishing() && Credited()
      ensures outcome != Done(Reattached) ==> Uncredited()
      ensures outcome.Done? && !outcome.result.Reattached? ==> Down() && GaveUp(outcome.result)
      ensures outcome == Done(Stopped) ==> stopRequested
    {
      hide Replay, Coherent, Tallied, QueuesOrdered, ReceiptsAgree, GenerationsAgree, CutoffsAgree, SentAgree;
      hide AllSettled, AllOnWire, NoSockets, PausedUnlessConnected;
      outcome := Backoff(attempt, recoveryDeadline);
      if outcome.Done? {
        return;
      }
      var result := TakeSnapshot();
      if result.Refused? {
        return Done(Lost(ControlRefused));
      }
      outcome := Admit(attempt, result.credential, recoveryDeadline, reason);
    }

    /**
     Pauses delivery, closes every socket and tries at most three times to admit the whole
     group again. However it ends, it has spent no more than 4.5 seconds waiting.
     */
    method Reattach(reason: Reason) returns (result: ReattachResult)
      requires Delivering() && inHand.None? && NoneRefused(active)
      requires reason.Renewal? ==> control.revision > credential.revision
      modifies this`control, this`now, this`stopRequested, this`abortRequested, this`captureEndNs,
               this`queues, this`encoded, this`encoderGone, this`run, this`group, this`active, this`work, this`credential, this`paused
      ensures Onward() && TalliesKept()
      ensures work <= old(work) + REATTACH_LIMIT && REATTACH_LIMIT == 4_500 * MILLISECOND < C.RECOVERY_BUDGET
      ensures result.Reattached? ==> Publishing() && forall j :: 0 <= j < |active| ==>
                var before, after := old(active)[j].statistics, active[j].statistics;
                if credential.revision > old(credential).revision
                then after.renewals == before.renewals + 1 && after.reconnects == before.reconnects
                else after.renewals == before.renewals && after.reconnects == before.reconnects + 1
      ensures !result.Reattached? ==> Down() && GaveUp(result)
      ensures result.Stopped? ==> stopRequested
    {
      hide Replay, Coherent, Tallied, QueuesOrdered, GenerationsAgree, CutoffsAgree, SentAgree;
      hide AllSettled, AllOnWire, NoSockets, PausedUnlessConnected;
      Interfere();
      var recoveryDeadline := now + C.RECOVERY_BUDGET;
      Pause();
      CloseActive();
      SpentInAll();
      result := AttemptAll(recoveryDeadline, reason);
    }

    /** The attempt loop of `reattach`. */
    method AttemptAll(recoveryDeadline: nat, reason: Reason) returns (result: ReattachResult)
      requires Recovering(0) && NoneRefused(active)
      requires reason.Renewal? ==> control.revision > credential.revision
      modifies this`control, this`now, this`stopRequested, this`abortRequested, this`captureEndNs,
               this`queues, this`encoded, this`encoderGone, this`run, this`group, this`active, this`work, this`credential, this`paused
      ensures Onward() && TalliesKept()
      ensures work <= old(work) + (SpentMs(RECOVERY_ATTEMPTS) - 200) * MILLISECOND
      ensures result.Reattached? ==> Publishing() && Credited()
      ensures !result.Reattached? ==> Uncredited()
      ensures !result.Reattached? ==> Down() && GaveUp(result)
      ensures result.Stopped? ==> stopRequested
    {
      for attempt := 0 to RECOVERY_ATTEMPTS
        invariant Recovering(attempt)
        invariant Onward() && TalliesKept() && Uncredited()
        invariant work <= old(work) + (SpentMs(attempt) - 200) * MILLISECOND
        invariant SpentMs(attempt) >= 200
      {
        var outcome := TryAttempt(attempt, recoveryDeadline, reason);
        SpentGrows(attempt + 1, RECOVERY_ATTEMPTS);
        if outcome.Done? {
          return outcome.result;
        }
      }
      result := Lost(RecoveryBudget);
    }

    method Pause()
      requires Valid() && !group.ended
      modifies this`paused, this`run, this`group
      ensures Valid() && paused && group == Observe(old(group), Paused)
    {
      Emit(Paused);
      paused := true;
    }

    // ----- Publication -----

    /** The publish loop is about to return. */
    ghost predicate Ending(result: RunResult)
      reads this
    {
      && Valid() && !group.ended && inHand.None? && !result.StillRunning?
      && AtMostOneRefusal(active)
      && (!NoneRefused(active) ==> result == Aborted(Protocol))
      && (result.Finished? ==> abortRequested || stopRequested || Drained(active))
      && (result.Aborted? ==> !Recoverable(result.failure))
    }

    method Rejoin(reason: Reason) returns (next: RoundResult)
      requires Delivering() && inHand.None? && NoneRefused(active)
      requires reason.Renewal? ==> control.revision > credential.revision
      modifies this`control, this`now, this`stopRequested, this`abortRequested, this`captureEndNs,
               this`queues, this`encoded, this`encoderGone, this`run, this`group, this`active, this`work, this`credential, this`paused
      ensures next.NextRound? ==> Publishing()
      ensures next.Over? ==> Ending(next.result)
    {
      var result := Reattach(reason);
      match result {
        case Reattached => next := NextRound;
        case Stopped => next := Over(Finished);
        case Lost(failure) => next := Over(Aborted(failure));
      }
    }

    /** A bus failed: recover the whole group if the failure and the credential allow it, otherwise end the run. */
    method Recover(failure: Failure) returns (next: RoundResult)
      requires Delivering() && inHand.None? && AtMostOneRefusal(active)
      requires !NoneRefused(active) ==> failure.Protocol?
      modifies this`control, this`now, this`stopRequested, this`abortRequested, this`captureEndNs,
               this`queues, this`encoded, this`encoderGone, this`run, this`group, this`active, this`work, this`credential, this`paused
      ensures next.NextRound? ==> Publishing()
      ensures next.Over? ==> Ending(next.result)
    {
      Interfere();
      var changed := control.revision != credential.revision;
      Emit(Failed(failure, changed));
      if MayRetry(failure, changed) {
        next := Rejoin(if changed then Renewal else Tunnel);
      } else {
        next := Over(Aborted(failure));
      }
    }

    /** Visits every bus once; a failure interrupts the visit. */
    method PollAll() returns (next: RoundResult, progress: bool, interrupted: bool)
      requires Publishing()
      modifies this`control, this`now, this`stopRequested, this`abortRequested, this`captureEndNs,
               this`queues, this`encoded, this`encoderGone, this`run, this`group, this`active, this`work, this`credential, this`paused,
               this`inHand, this`popped
      ensures next.NextRound? ==> Publishing()
      ensures next.Over? ==> Ending(next.result)
    {
      progress, next := false, NextRound;
      for i := 0 to |active|
        invariant Publishing()
        invariant |active| == old(|active|)
      {
        var polled, _ := PollStream(i);
        if polled.PollFailed? {
          next := Recover(polled.failure);
          return next, progress, true;
        }
        progress := progress || polled.progress;
      }
      interrupted := false;
    }

    /** Abort, revocation, renewal and expiry are looked at before every round. */
    method BeforeRound() returns (next: RoundResult)
      requires Publishing()
      modifies this`control, this`now, this`stopRequested, this`abortRequested, this`captureEndNs,
               this`queues, this`encoded, this`encoderGone, this`run, this`group, this`active, this`work, this`credential, this`paused
      ensures next.NextRound? ==> Publishing()
      ensures next.Over? ==> Ending(next.result)
      ensures old(control).revoked ==> next.Over?
    {
      hide Replay, Coherent, Tallied, QueuesOrdered, ReceiptsAgree, GenerationsAgree, CutoffsAgree, SentAgree;
      hide AllSettled, AllOnWire, NoSockets, PausedUnlessConnected;
      Interfere();
      if abortRequested {
        return Over(Finished);
      }
      Interfere();
      if control.revoked {
        return Over(Aborted(CredentialLost));
      }
      Interfere();
      if control.revision != credential.revision {
        next := Rejoin(Renewal);
        if next.Over? {
          return;
        }
      }
      Interfere();
      if now >= credential.validUntil {
        return Over(Aborted(CredentialLost));
      }
      next := NextRound;
    }

    /** One round of the publish loop. */
    method PublishRound() returns (next: RoundResult)
      requires Publishing()
      modifies this`control, this`now, this`stopRequested, this`abortRequested, this`captureEndNs,
               this`queues, this`encoded, this`encoderGone, this`run, this`group, this`active, this`work, this`credential, this`paused,
               this`inHand, this`popped
      ensures next.NextRound? ==> Publishing()
      ensures next.Over? ==> Ending(next.result)
      ensures old(control).revoked ==> next.Over?
    {
      next := BeforeRound();
      if next.Over? {
        return;
      }
      var progress, interrupted;
      next, progress, interrupted := PollAll();
      if next.Over? || interrupted {
        return;
      }
      if Drained(active) {
        return Over(Finished);
      }
      if !progress {
        Sleep();
      }
    }

    /**
     The publish loop, for any number of rounds. At every loop head all buses hold sockets
     admitted under the credential in use (`Publishing`).
     */
    method PublishGroup(rounds: nat) returns (result: RunResult)
      requires Publishing()
      modifies this`control, this`now, this`stopRequested, this`abortRequested, this`captureEndNs,
               this`queues, this`encoded, this`encoderGone, this`run, this`group, this`active, this`work, this`credential, this`paused,
               this`inHand, this`popped
      ensures result.StillRunning? ==> Publishing()
      ensures !result.StillRunning? ==> Ending(result)
      ensures old(control).revoked && rounds > 0 ==> !result.StillRunning?
    {
      for round := 0 to rounds
        invariant Publishing()
        invariant round == 0 ==> control == old(control)
        invariant round > 0 ==> !old(control).revoked
      {
        var next := PublishRound();
        if next.Over? {
          return next.result;
        }
      }
      result := StillRunning;
    }

    /** Leaves delivery paused and no socket open. */
    method Shutdown(ghost result: RunResult)
      requires Ending(result)
      modifies this`control, this`now, this`stopRequested, this`abortRequested, this`captureEndNs,
               this`queues, this`encoded, this`encoderGone, this`run, this`group, this`active, this`work, this`paused
      ensures Valid() && Detached() && Onward() && TalliesKept()
      ensures group.ended && paused
    {
      Pause();
      CloseActive();
      Emit(Ended);
    }

    /**
     A whole run, or any prefix of one. Its events are legal, its receipts agree with them on
     every bus, every frame it took is accounted for, and when it ends no socket is left and
     delivery is paused.
     */
    method RunWithRecovery(rounds: nat) returns (result: RunResult)
      requires Publishing() && start == GroupProtocol.Admitted(start.initialRevision, start.highest)
      modifies this`control, this`now, this`stopRequested, this`abortRequested, this`captureEndNs,
               this`queues, this`encoded, this`encoderGone, this`run, this`group, this`active, this`work, this`credential, this`paused,
               this`inHand, this`popped
      ensures Legal(start, run) && After(start, run) == group && Inv(group)
      ensures ReceiptsAgree(active, group.renewals, group.reconnects, AttemptCount(run))
      ensures group.renewals + group.reconnects == AttachedCount(run)
      ensures forall i :: 0 <= i < |active| ==> active[i].statistics.framesSent == SentOn(run, i)
      ensures group.renewals == Advances(run, start.revision)
      ensures AllSettled(active, None) && AtMostOneRefusal(active)
      ensures result.StillRunning? ==> Publishing()
      ensures old(control).revoked && rounds > 0 ==> !result.StillRunning?
      ensures !result.StillRunning? ==> group.ended && paused && Detached()
      ensures !NoneRefused(active) ==> result == Aborted(Protocol)
      ensures result.Finished? ==> abortRequested || stopRequested || Drained(active)
      ensures result.Aborted? ==> !Recoverable(result.failure)
    {
      hide Replay, Coherent, Tallied, QueuesOrdered, CutoffsAgree, AllOnWire, GenerationsAgree, Allowed, Observe;
      result := PublishGroup(rounds);
      if !result.StillRunning? {
        Shutdown(result);
      }
      CountsOfARun(start.initialRevision, start.highest, run);
    }
  }
}
