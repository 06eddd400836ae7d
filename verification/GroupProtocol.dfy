/**
 What one recoverable group publication is allowed to do, as a monitor over the
 events of a run, and what follows for every legal run.

 The gateway (module Gateway) is proved to produce only legal runs, whatever its
 sockets, its clock and the other threads do.
 */
module GroupProtocol {
  import opened Basics
  import PublisherControl

  const RECOVERY_ATTEMPTS: nat := PublisherControl.RECOVERY_ATTEMPTS

  /** Failure classes as relay/src/rtc/gateway.rs distinguishes them. */
  datatype Failure =
    | Transport
    | Authority
    | Protocol
    | Identity
    | Generation
    | CredentialLost
    | RecoveryBudget
    | ProxyTransport
    | ProxyRefused
    | ControlRefused
    | Untyped

  /** Transport losses, typed or reported as plain text. */
  predicate Recoverable(f: Failure) {
    f.Transport? || f.ProxyTransport? || f.Untyped?
  }

  /** The failure allows another admission; `changed` says that the control revision differs from the one in use. */
  predicate MayRetry(f: Failure, changed: bool) {
    Recoverable(f) || (f.CredentialLost? && changed)
  }

  datatype Event =
    | Revoked
    | Paused
    | Resumed
    | ClosedAll
    | Attempt(revision: nat)
    | Ready(bus: nat, generation: nat)
    | ReadyLost(bus: nat, generation: nat)
    | Failed(failure: Failure, changed: bool)
    | Attached(revision: nat, renewed: bool, cutoffs: seq<nat>)
    | ClearedToSend
    | Encoded(bus: nat, sequence: nat)
    | Written(bus: nat, sequence: nat, captureNs: nat)
    | Sent(bus: nat, sequence: nat)
    | StopSeen
    | Ended

  /** An admission in progress: its credential revision and how many buses have been admitted. */
  datatype Admission = Admission(revision: nat, admitted: nat)

  datatype Group = Group(
    initialRevision: nat,
    revision: nat,
    highest: seq<nat>,
    cutoffs: seq<nat>,
    attached: bool,
    paused: bool,
    admission: Option<Admission>,
    attempts: nat,
    totalAttempts: nat,
    renewals: nat,
    reconnects: nat,
    barred: bool,
    revoked: bool,
    cleared: bool,
    outstanding: Option<(nat, nat)>,
    encoded: seq<nat>,
    nextSequence: seq<nat>,
    sent: seq<nat>,
    ended: bool)
  {
    function Discontinuities(): nat {
      renewals + reconnects
    }
  }

  /** A group just admitted under `revision`, with one READY generation per bus. */
  function Admitted(revision: nat, generations: seq<nat>): Group {
    var none := seq(|generations|, _ => 0);
    Group(revision, revision, generations, none, true, false, None, 0, 0, 0, 0, false, false, false, None, none, none, none, false)
  }

  predicate Allowed(g: Group, e: Event) {
    match e
    case Revoked => true
    case Paused => true
    case Resumed => g.attached && !g.ended
    case ClosedAll => g.paused
    case Attempt(revision) =>
      && !g.ended && !g.barred && g.paused && !g.attached && g.admission.None?
      && g.attempts < RECOVERY_ATTEMPTS && revision >= g.revision
    case Ready(bus, generation) =>
      g.admission.Some? && bus == g.admission.value.admitted < |g.highest| && generation > 0 && !g.barred
    case ReadyLost(bus, generation) =>
      g.admission.Some? && bus == g.admission.value.admitted < |g.highest| && generation > 0 && !g.barred
    case Failed(failure, changed) => !g.ended
    case Attached(revision, renewed, cutoffs) =>
      && |cutoffs| == |g.cutoffs|
      && !g.ended && !g.barred
      && g.admission == Some(Admission(revision, |g.highest|))
      && (renewed <==> revision > g.revision)
    case ClearedToSend => g.attached && !g.paused && !g.revoked && !g.ended
    case Encoded(bus, sequence) => bus < |g.encoded| && sequence == g.encoded[bus]
    case Written(bus, sequence, captureNs) =>
      && g.cleared
      && bus < |g.nextSequence| && sequence >= g.nextSequence[bus]
      && bus < |g.encoded| && sequence < g.encoded[bus]
      && bus < |g.cutoffs| && captureNs >= g.cutoffs[bus]
    case Sent(bus, sequence) => g.cleared && g.outstanding == Some((bus, sequence)) && bus < |g.sent|
    case StopSeen => !g.ended
    case Ended => !g.ended && g.paused && !g.attached
  }

  function Observe(g: Group, e: Event): Group
    requires Allowed(g, e)
  {
    match e
    case Revoked => g.(revoked := true)
    case Paused => g.(paused := true, cleared := false)
    case Resumed => g.(paused := false)
    case ClosedAll => g.(attached := false, cleared := false, outstanding := None)
    case Attempt(revision) =>
      g.(admission := Some(Admission(revision, 0)), attempts := g.attempts + 1, totalAttempts := g.totalAttempts + 1)
    case Ready(bus, generation) =>
      if generation > g.highest[bus]
      then g.(highest := g.highest[bus := generation], admission := Some(g.admission.value.(admitted := bus + 1)))
      else g.(barred := true)
    case ReadyLost(bus, generation) => g
    case Failed(failure, changed) =>
      g.(admission := None, cleared := false, outstanding := None, barred := g.barred || !MayRetry(failure, changed))
    case Attached(revision, renewed, cutoffs) =>
      g.(attached := true, cutoffs := cutoffs, admission := None, attempts := 0, revision := revision,
         renewals := if renewed then g.renewals + 1 else g.renewals,
         reconnects := if renewed then g.reconnects else g.reconnects + 1)
    case ClearedToSend => g.(cleared := true)
    case Encoded(bus, sequence) => g.(encoded := g.encoded[bus := sequence + 1])
    case Written(bus, sequence, captureNs) =>
      g.(outstanding := Some((bus, sequence)), nextSequence := g.nextSequence[bus := sequence + 1])
    case Sent(bus, sequence) => g.(cleared := false, outstanding := None, sent := g.sent[bus := g.sent[bus] + 1])
    case StopSeen => g.(barred := true)
    case Ended => g.(ended := true, barred := true)
  }

  /** The group after `run`, if the monitor lets every event of it pass. */
  function Replay(g: Group, run: seq<Event>): Option<Group> {
    if |run| == 0 then Some(g)
    else
      var before := Replay(g, run[..|run| - 1]);
      if before.Some? && Allowed(before.value, run[|run| - 1])
      then Some(Observe(before.value, run[|run| - 1])) else None
  }

  /** `run` is a legal continuation of a group in state `g`. */
  predicate Legal(g: Group, run: seq<Event>) {
    Replay(g, run).Some?
  }

  function After(g: Group, run: seq<Event>): Group
    requires Legal(g, run)
  {
    Replay(g, run).value
  }

  lemma {:induction false} LegalSnoc(g: Group, run: seq<Event>, e: Event)
    requires Legal(g, run) && Allowed(After(g, run), e)
    ensures Legal(g, run + [e]) && After(g, run + [e]) == Observe(After(g, run), e)
  {
    assert (run + [e])[..|run|] == run;
  }

  lemma {:induction false} LegalPrefix(g: Group, run: seq<Event>, n: nat)
    requires Legal(g, run) && n <= |run|
    ensures Legal(g, run[..n])
    ensures n < |run| ==> Allowed(After(g, run[..n]), run[n]) && Legal(g, run[..n + 1])
                          && After(g, run[..n + 1]) == Observe(After(g, run[..n]), run[n])
    decreases |run|
  {
    if n == |run| {
      assert run[..n] == run;
    } else {
      var rest := run[..|run| - 1];
      if n < |rest| {
        LegalPrefix(g, rest, n);
        assert rest[..n] == run[..n] && rest[..n + 1] == run[..n + 1];
      } else {
        assert run[..n] == rest && run[..n + 1] == run;
      }
    }
  }

  // ----- The invariant of every legal run -----

  /** Sockets, pause and admission fit together. */
  predicate Coherent(g: Group) {
    && |g.nextSequence| == |g.highest| == |g.cutoffs| == |g.encoded| == |g.sent|
    && (forall b :: 0 <= b < |g.encoded| ==> g.nextSequence[b] <= g.encoded[b])
    && (!g.attached ==> g.paused)
    && (g.cleared ==> g.attached && !g.paused && !g.ended)
    && (g.admission.Some? ==>
          g.paused && !g.attached && g.attempts >= 1 && g.admission.value.revision >= g.revision
          && g.admission.value.admitted <= |g.highest|)
    && (g.outstanding.Some? ==>
          g.outstanding.value.0 < |g.nextSequence|
          && g.outstanding.value.1 + 1 == g.nextSequence[g.outstanding.value.0])
    && (g.ended ==> g.barred)
  }

  /** Attempts, discontinuities and renewals add up. */
  predicate Tallied(g: Group) {
    && g.attempts <= RECOVERY_ATTEMPTS
    && g.Discontinuities() + g.attempts <= g.totalAttempts
    && g.totalAttempts <= RECOVERY_ATTEMPTS * g.Discontinuities() + g.attempts
    && g.initialRevision + g.renewals <= g.revision
  }

  predicate Inv(g: Group) {
    Coherent(g) && Tallied(g)
  }

  /** What a later state of the same run keeps from an earlier one. */
  predicate Later(g: Group, h: Group) {
    && |g.highest| == |h.highest| && |g.nextSequence| == |h.nextSequence|
    && (forall b :: 0 <= b < |g.highest| ==> g.highest[b] <= h.highest[b])
    && (forall b :: 0 <= b < |g.nextSequence| ==> g.nextSequence[b] <= h.nextSequence[b])
    && |g.encoded| == |h.encoded| && (forall b :: 0 <= b < |g.encoded| ==> g.encoded[b] <= h.encoded[b])
    && (g.barred ==> h.barred)
    && (g.revoked ==> h.revoked)
    && (g.ended ==> h.ended)
    && g.revision <= h.revision
    && g.totalAttempts <= h.totalAttempts
    && g.initialRevision == h.initialRevision
  }

  lemma {:induction false} ObserveKeeps(g: Group, e: Event)
    requires Inv(g) && Allowed(g, e)
    ensures Inv(Observe(g, e))
  {
    CoherentKept(g, e);
    TalliedKept(g, e);
  }

  lemma {:induction false} CoherentKept(g: Group, e: Event)
    requires Coherent(g) && Allowed(g, e)
    ensures Coherent(Observe(g, e))
  {
    match e
    case Attempt(_) =>
    case Attached(_, _, _) =>
    case Ready(_, _) =>
    case Encoded(_, _) =>
    case Written(_, _, _) =>
    case Sent(_, _) =>
    case Failed(_, _) =>
    case _ =>
  }

  lemma {:induction false} TalliedKept(g: Group, e: Event)
    requires Inv(g) && Allowed(g, e)
    ensures Tallied(Observe(g, e))
  {
    match e
    case Attempt(_) =>
    case Attached(_, _, _) =>
    case Ready(_, _) =>
    case _ =>
  }

  lemma {:induction false} ObserveIsLater(g: Group, e: Event)
    requires Inv(g) && Allowed(g, e)
    ensures Later(g, Observe(g, e))
  {
    match e
    case Ready(_, _) =>
    case Attached(_, _, _) =>
    case Encoded(_, _) =>
    case Written(_, _, _) =>
    case _ =>
  }

  lemma {:induction false} LegalKeeps(g: Group, run: seq<Event>)
    requires Inv(g) && Legal(g, run)
    ensures Inv(After(g, run))
  {
    if |run| > 0 {
      LegalKeeps(g, run[..|run| - 1]);
      ObserveKeeps(After(g, run[..|run| - 1]), run[|run| - 1]);
    }
  }

  lemma {:induction false} LegalIsLater(g: Group, run: seq<Event>, n: nat)
    requires Inv(g) && Legal(g, run) && n <= |run|
    ensures Legal(g, run[..n]) && Later(After(g, run[..n]), After(g, run))
    decreases |run|
  {
    LegalPrefix(g, run, n);
    if n < |run| {
      var rest := run[..|run| - 1];
      assert rest[..n] == run[..n];
      LegalIsLater(g, rest, n);
      LegalKeeps(g, rest);
      ObserveIsLater(After(g, rest), run[|run| - 1]);
    } else {
      assert run[..n] == run;
    }
  }

  lemma {:induction false} AdmittedInv(revision: nat, generations: seq<nat>)
    ensures Inv(Admitted(revision, generations))
  {
  }

  // ----- Theorems about whole runs -----

  /**
   In every reachable state a group that does not hold all its sockets is paused, and media
   moves only while every bus is attached, unpaused, on the last generation seen, and no
   admission is under way: a failed or partial admission sends nothing.
   */
  lemma {:induction false} NoMediaWithoutTheWholeGroup(g: Group, run: seq<Event>, n: nat)
    requires Inv(g) && Legal(g, run) && n < |run|
    ensures Legal(g, run[..n])
    ensures !After(g, run[..n]).attached ==> After(g, run[..n]).paused
    ensures run[n].Written? || run[n].Sent? ==>
              var s := After(g, run[..n]); s.attached && !s.paused && s.admission.None? && !s.ended
  {
    LegalPrefix(g, run, n);
    LegalKeeps(g, run[..n]);
  }

  /**
   READY generations of a bus strictly increase over the whole run, rolled-back admissions
   included; a READY that does not advance is the last one of the run, and nothing is
   attached or sent after it.
   */
  lemma {:induction false} ReadyGenerationsIncrease(g: Group, run: seq<Event>, i: nat, j: nat)
    requires Inv(g) && Legal(g, run)
    requires i < j < |run| && run[i].Ready? && run[j].Ready? && run[i].bus == run[j].bus
    ensures run[i].generation < run[j].generation
            || forall k :: j < k < |run| ==> !run[k].Ready? && !run[k].Attempt? && !run[k].Attached?
  {
    ReadyRaises(g, run, i, j);
    LegalPrefix(g, run, j);
    var s := After(g, run[..j]);
    if run[j].generation <= s.highest[run[j].bus] {
      forall k | j < k < |run|
        ensures !run[k].Ready? && !run[k].Attempt? && !run[k].Attached?
      {
        BarredStays(g, run, j + 1, k);
      }
    }
  }

  /** The first READY of a recovery also has to pass the generation the run started with. */
  lemma {:induction false} ReadyPassesTheStart(g: Group, run: seq<Event>, j: nat)
    requires Inv(g) && Legal(g, run)
    requires j < |run| && run[j].Ready?
    ensures run[j].bus < |g.highest|
    ensures g.highest[run[j].bus] < run[j].generation
            || forall k :: j < k < |run| ==> !run[k].Ready? && !run[k].Attempt? && !run[k].Attached?
  {
    LegalPrefix(g, run, j);
    LegalIsLater(g, run[..j], 0);
    assert run[..j][..0] == [];
    if run[j].generation <= After(g, run[..j]).highest[run[j].bus] {
      forall k | j < k < |run|
        ensures !run[k].Ready? && !run[k].Attempt? && !run[k].Attached?
      {
        BarredStays(g, run, j + 1, k);
      }
    }
  }

  lemma {:induction false} BarredStays(g: Group, run: seq<Event>, i: nat, k: nat)
    requires Inv(g) && Legal(g, run)
    requires i <= k < |run|
    requires Legal(g, run[..i]) && After(g, run[..i]).barred
    ensures !run[k].Ready? && !run[k].Attempt? && !run[k].Attached? && !run[k].ReadyLost?
  {
    LegalPrefix(g, run, k);
    LegalIsLater(g, run[..k], i);
    assert run[..k][..i] == run[..i];
  }

  /** An accepted READY raises the bar for every later one. */
  lemma {:induction false} ReadyRaises(g: Group, run: seq<Event>, i: nat, j: nat)
    requires Inv(g) && Legal(g, run)
    requires i < j < |run| && run[i].Ready? && run[j].Ready?
    ensures Legal(g, run[..j])
    ensures run[i].bus < |After(g, run[..j]).highest|
    ensures run[i].generation <= After(g, run[..j]).highest[run[i].bus]
  {
    LegalPrefix(g, run, i);
    LegalPrefix(g, run, j);
    if run[i].generation <= After(g, run[..i]).highest[run[i].bus] {
      BarredStays(g, run, i + 1, j);
    }
    LegalIsLater(g, run[..j], i + 1);
    assert run[..j][..i + 1] == run[..i + 1];
  }

  /** The run gave up on `e`: a terminal failure, an observed stop, or the end. */
  predicate GivesUp(e: Event) {
    (e.Failed? && !MayRetry(e.failure, e.changed)) || e.StopSeen? || e.Ended?
  }

  /**
   No admission starts after a failure classed as authority, protocol, identity, generation
   or a refused proxy or TLS negotiation, after a credential failure at an unchanged
   revision, nor after an observed stop.
   */
  lemma {:induction false} NoAdmissionAfterGivingUp(g: Group, run: seq<Event>, i: nat, k: nat)
    requires Inv(g) && Legal(g, run)
    requires i < k < |run| && GivesUp(run[i])
    ensures !run[k].Attempt? && !run[k].Ready? && !run[k].Attached?
  {
    LegalPrefix(g, run, i);
    BarredStays(g, run, i + 1, k);
  }

  function SentCount(run: seq<Event>): nat {
    if |run| == 0 then 0 else SentCount(run[..|run| - 1]) + (if run[|run| - 1].Sent? then 1 else 0)
  }

  function SentOn(run: seq<Event>, bus: nat): nat {
    if |run| == 0 then 0
    else SentOn(run[..|run| - 1], bus) + (if run[|run| - 1].Sent? && run[|run| - 1].bus == bus then 1 else 0)
  }

  lemma {:induction false} SentStep(g: Group, e: Event, bus: nat)
    requires Coherent(g) && Allowed(g, e) && bus < |g.sent|
    ensures bus < |Observe(g, e).sent|
    ensures Observe(g, e).sent[bus] == g.sent[bus] + (if e.Sent? && e.bus == bus then 1 else 0)
  {
    match e {
      case Sent(_, _) =>
      case Ready(b, generation) => assert generation > g.highest[b] || Observe(g, e) == g.(barred := true);
      case _ =>
    }
  }

  /** The sent count of a bus is the number of its sends. */
  lemma {:induction false} SentIsCounted(g: Group, run: seq<Event>, bus: nat)
    requires Inv(g) && Legal(g, run) && bus < |g.sent|
    ensures bus < |After(g, run).sent| && After(g, run).sent[bus] == g.sent[bus] + SentOn(run, bus)
  {
    hide Allowed, Observe, Coherent, Tallied;
    if |run| > 0 {
      var rest := run[..|run| - 1];
      SentIsCounted(g, rest, bus);
      LegalKeeps(g, rest);
      SentStep(After(g, rest), run[|run| - 1], bus);
    }
  }

  lemma {:induction false} SentOnSplits(first: seq<Event>, second: seq<Event>, bus: nat)
    ensures SentOn(first + second, bus) == SentOn(first, bus) + SentOn(second, bus)
  {
    if |second| == 0 {
      assert first + second == first;
    } else {
      var n := |second| - 1;
      SentOnSplits(first, second[..n], bus);
      assert (first + second)[..|first| + n] == first + second[..n];
    }
  }

  lemma {:induction false} SentOnIsPartOfAll(run: seq<Event>, bus: nat, other: nat)
    ensures SentOn(run, bus) + (if bus != other then SentOn(run, other) else 0) <= SentCount(run)
  {
    if |run| > 0 {
      SentOnIsPartOfAll(run[..|run| - 1], bus, other);
    }
  }

  /**
   The receipts after a revocation: whatever a bus had counted as sent when the revocation took
   effect, it counts at most one more, and no second bus of the group counts one too.
   */
  lemma {:induction false} ReceiptsAfterRevocation(g: Group, run: seq<Event>, r: nat, bus: nat, other: nat)
    requires Inv(g) && Legal(g, run) && r < |run| && run[r].Revoked?
    requires bus < |g.sent| && other < |g.sent|
    ensures Legal(g, run[..r])
    ensures var early, late := After(g, run[..r]).sent, After(g, run).sent;
            && bus < |early| == |late| && other < |late|
            && early[bus] <= late[bus] <= early[bus] + 1
            && (bus != other ==> late[bus] + late[other] <= early[bus] + early[other] + 1)
  {
    hide Allowed, Observe, Tallied;
    AtMostOneFrameAfterRevocation(g, run, r);
    LegalPrefix(g, run, r);
    LegalKeeps(g, run);
    LegalKeeps(g, run[..r]);
    LegalIsLater(g, run, r);
    SentIsCounted(g, run, bus);
    SentIsCounted(g, run[..r], bus);
    SentIsCounted(g, run, other);
    SentIsCounted(g, run[..r], other);
    assert run == run[..r] + run[r..];
    SentOnSplits(run[..r], run[r..], bus);
    SentOnSplits(run[..r], run[r..], other);
    SentOnIsPartOfAll(run[r..], bus, other);
  }

  /** From the moment revocation takes effect at most one more frame of the whole group is counted as sent. */
  lemma {:induction false} AtMostOneFrameAfterRevocation(g: Group, run: seq<Event>, r: nat)
    requires Legal(g, run)
    requires r < |run| && run[r].Revoked?
    ensures SentCount(run[r..]) <= 1
  {
    hide Allowed, Observe, Replay, SentCount;
    LegalPrefix(g, run, r);
    var rest := run[r + 1..];
    assert run == run[..r + 1] + rest;
    LegalSuffix(g, run[..r + 1], rest);
    RevocationTaken(After(g, run[..r]), run[r]);
    SentWhileRevoked(After(g, run[..r + 1]), rest);
    assert run[r..] == [run[r]] + rest;
    SentCountCons(run[r], rest);
  }

  lemma {:induction false} RevocationTaken(g: Group, e: Event)
    requires Allowed(g, e) && e.Revoked?
    ensures Observe(g, e).revoked
  {
  }

  lemma {:induction false} SentCountCons(e: Event, run: seq<Event>)
    ensures SentCount([e] + run) == SentCount(run) + (if e.Sent? then 1 else 0)
  {
    if |run| > 0 {
      SentCountCons(e, run[..|run| - 1]);
      assert ([e] + run)[..|run|] == [e] + run[..|run| - 1];
    } else {
      assert [e] + run == [e];
      assert [e][..0] == [];
    }
  }

  lemma {:induction false} LegalSuffix(g: Group, first: seq<Event>, second: seq<Event>)
    requires Legal(g, first + second)
    ensures Legal(g, first) && Legal(After(g, first), second)
    ensures After(g, first + second) == After(After(g, first), second)
  {
    if |second| == 0 {
      assert first + second == first;
    } else {
      assert (first + second)[..|first + second| - 1] == first + second[..|second| - 1];
      LegalSuffix(g, first, second[..|second| - 1]);
    }
  }

  lemma {:induction false} SentWhileRevoked(g: Group, run: seq<Event>)
    requires Legal(g, run) && g.revoked
    ensures After(g, run).revoked
    ensures SentCount(run) + (if After(g, run).cleared then 1 else 0) <= if g.cleared then 1 else 0
  {
    if |run| > 0 {
      SentWhileRevoked(g, run[..|run| - 1]);
      RevokedStep(After(g, run[..|run| - 1]), run[|run| - 1]);
    }
  }

  /** Once revoked, only a send can use up the last clearance, and nothing grants a new one. */
  lemma {:induction false} RevokedStep(g: Group, e: Event)
    requires Allowed(g, e) && g.revoked
    ensures Observe(g, e).revoked
    ensures (if Observe(g, e).cleared then 1 else 0) + (if e.Sent? then 1 else 0) <= if g.cleared then 1 else 0
  {
  }

  /** No frame is handed to a socket twice: sequence numbers written for a bus strictly increase over the whole run. */
  lemma {:induction false} WrittenOnce(g: Group, run: seq<Event>, i: nat, j: nat)
    requires Inv(g) && Legal(g, run)
    requires i < j < |run| && run[i].Written? && run[j].Written? && run[i].bus == run[j].bus
    ensures run[i].sequence < run[j].sequence
  {
    LegalPrefix(g, run, i);
    LegalPrefix(g, run, j);
    LegalIsLater(g, run[..j], i + 1);
    assert run[..j][..i + 1] == run[..i + 1];
  }

  /** Nothing captured before the cutoffs of an attachment is written on it. */
  lemma {:induction false} NothingBeforeTheCutoff(g: Group, run: seq<Event>, i: nat, k: nat)
    requires Inv(g) && Legal(g, run)
    requires i < k < |run| && run[i].Attached? && run[k].Written?
    requires forall j :: i < j < k ==> !run[j].Attached?
    ensures run[k].bus < |run[i].cutoffs| && run[k].captureNs >= run[i].cutoffs[run[k].bus]
  {
    LegalPrefix(g, run, i);
    CutoffsStay(g, run, i, k);
    LegalPrefix(g, run, k);
  }

  lemma {:induction false} CutoffsStay(g: Group, run: seq<Event>, i: nat, k: nat)
    requires Legal(g, run) && i < k <= |run| && run[i].Attached?
    requires forall j :: i < j < k ==> !run[j].Attached?
    ensures Legal(g, run[..k]) && After(g, run[..k]).cutoffs == run[i].cutoffs
    decreases k
  {
    LegalPrefix(g, run, k - 1);
    if k > i + 1 {
      CutoffsStay(g, run, i, k - 1);
      CutoffsStep(After(g, run[..k - 1]), run[k - 1]);
    } else {
      CutoffsTaken(After(g, run[..i]), run[i]);
    }
  }

  lemma {:induction false} CutoffsTaken(g: Group, e: Event)
    requires Allowed(g, e) && e.Attached?
    ensures Observe(g, e).cutoffs == e.cutoffs
  {
  }

  lemma {:induction false} CutoffsStep(g: Group, e: Event)
    requires Allowed(g, e) && !e.Attached?
    ensures Observe(g, e).cutoffs == g.cutoffs
  {
    match e {
      case Ready(bus, generation) => assert generation > g.highest[bus] || Observe(g, e) == g.(barred := true);
      case Attached(_, _, _) =>
      case _ =>
    }
  }

  /** Sent sequence numbers of a bus strictly increase, across drops and re-attachments. */
  lemma {:induction false} SentIncreases(g: Group, run: seq<Event>, i: nat, j: nat)
    requires Inv(g) && Legal(g, run)
    requires i < j < |run| && run[i].Sent? && run[j].Sent? && run[i].bus == run[j].bus
    ensures run[i].sequence < run[j].sequence
  {
    var w := WrittenAfter(g, run, i, j);
    LegalPrefix(g, run, i);
    LegalKeeps(g, run[..i]);
    LegalPrefix(g, run, w);
    LegalIsLater(g, run[..w], i);
    assert run[..w][..i] == run[..i];
  }

  /** Between two sends there is the write of the second. */
  lemma {:induction false} WrittenAfter(g: Group, run: seq<Event>, i: nat, j: nat) returns (w: nat)
    requires Legal(g, run)
    requires i < j < |run| && run[i].Sent? && run[j].Sent?
    ensures i < w < j && run[w].Written? && run[w].bus == run[j].bus && run[w].sequence == run[j].sequence
  {
    LegalPrefix(g, run, i);
    LegalPrefix(g, run, j);
    w := WrittenSince(g, run, i + 1, j, (run[j].bus, run[j].sequence));
  }

  /** A frame outstanding now but not at `from` was written in between. */
  lemma {:induction false} WrittenSince(g: Group, run: seq<Event>, from: nat, upTo: nat, frame: (nat, nat)) returns (w: nat)
    requires Legal(g, run) && from <= upTo <= |run|
    requires Legal(g, run[..from]) && After(g, run[..from]).outstanding.None?
    requires Legal(g, run[..upTo]) && After(g, run[..upTo]).outstanding == Some(frame)
    ensures from <= w < upTo && run[w].Written? && run[w].bus == frame.0 && run[w].sequence == frame.1
    decreases upTo
  {
    LegalPrefix(g, run, upTo - 1);
    var last := run[upTo - 1];
    OutstandingStep(After(g, run[..upTo - 1]), last);
    if last.Written? && last.bus == frame.0 && last.sequence == frame.1 {
      w := upTo - 1;
    } else {
      w := WrittenSince(g, run, from, upTo - 1, frame);
    }
  }

  lemma {:induction false} OutstandingStep(g: Group, e: Event)
    requires Allowed(g, e) && Observe(g, e).outstanding.Some?
    ensures var frame := Observe(g, e).outstanding.value;
            g.outstanding == Some(frame) || (e.Written? && e.bus == frame.0 && e.sequence == frame.1)
  {
    match e {
      case Ready(bus, generation) => assert generation > g.highest[bus] || Observe(g, e) == g.(barred := true);
      case _ =>
    }
  }

  /** How many frames of `bus` numbered strictly between `low` and `high` the encoder produced in `run`. */
  function EncodedBetween(run: seq<Event>, bus: nat, low: nat, high: nat): nat {
    if |run| == 0 then 0
    else
      var e := run[|run| - 1];
      EncodedBetween(run[..|run| - 1], bus, low, high) + (if e.Encoded? && e.bus == bus && low < e.sequence < high then 1 else 0)
  }

  /** How many of them are not sent in `whole`. */
  function UnsentBetween(run: seq<Event>, whole: seq<Event>, bus: nat, low: nat, high: nat): nat {
    if |run| == 0 then 0
    else
      var e := run[|run| - 1];
      UnsentBetween(run[..|run| - 1], whole, bus, low, high)
        + (if e.Encoded? && e.bus == bus && low < e.sequence < high && Sent(bus, e.sequence) !in whole then 1 else 0)
  }

  /** How many numbers of the half-open range also lie strictly between `low` and `high`. */
  function Overlap(from: nat, upTo: nat, low: nat, high: nat): nat {
    var first, last := Max(from, low + 1), Min(upTo, high);
    if first < last then last - first else 0
  }

  lemma {:induction false} EncodedStep(g: Group, e: Event, bus: nat)
    requires Coherent(g) && Allowed(g, e) && bus < |g.encoded|
    ensures bus < |Observe(g, e).encoded|
    ensures Observe(g, e).encoded[bus] == g.encoded[bus] + (if e.Encoded? && e.bus == bus then 1 else 0)
    ensures e.Encoded? && e.bus == bus ==> e.sequence == g.encoded[bus]
  {
    match e {
      case Encoded(_, _) =>
      case Ready(b, generation) => assert generation > g.highest[b] || Observe(g, e) == g.(barred := true);
      case _ =>
    }
  }

  /** The encoder numbers the frames of a bus one by one: every number of a range is produced exactly once. */
  lemma {:induction false} EncodedOnce(g: Group, run: seq<Event>, bus: nat, low: nat, high: nat)
    requires Inv(g) && Legal(g, run) && bus < |g.encoded|
    ensures bus < |After(g, run).encoded| && g.encoded[bus] <= After(g, run).encoded[bus]
    ensures EncodedBetween(run, bus, low, high) == Overlap(g.encoded[bus], After(g, run).encoded[bus], low, high)
  {
    hide Allowed, Observe, Coherent, Tallied;
    if |run| > 0 {
      var rest := run[..|run| - 1];
      EncodedOnce(g, rest, bus, low, high);
      LegalKeeps(g, rest);
      EncodedStep(After(g, rest), run[|run| - 1], bus);
    }
  }

  lemma {:induction false} NoneSentBetween(run: seq<Event>, whole: seq<Event>, bus: nat, low: nat, high: nat)
    requires forall k :: 0 <= k < |whole| && whole[k].Sent? && whole[k].bus == bus ==> !(low < whole[k].sequence < high)
    ensures UnsentBetween(run, whole, bus, low, high) == EncodedBetween(run, bus, low, high)
  {
    if |run| > 0 {
      NoneSentBetween(run[..|run| - 1], whole, bus, low, high);
    }
  }

  /** A frame that was sent had been encoded. */
  lemma {:induction false} SentWasEncoded(g: Group, run: seq<Event>, i: nat, j: nat)
    requires Inv(g) && Legal(g, run)
    requires i < j < |run| && run[i].Sent? && run[j].Sent?
    ensures run[j].bus < |After(g, run).encoded| && run[j].sequence < After(g, run).encoded[run[j].bus]
  {
    var w := WrittenAfter(g, run, i, j);
    LegalPrefix(g, run, w);
    LegalIsLater(g, run, w);
  }

  /**
   The gap between the sequence numbers of two consecutive sends of a bus, minus one, is the
   number of frames the bus's encoder produced in between that were never sent.
   */
  lemma {:induction false} GapCountsUnsentFrames(revision: nat, generations: seq<nat>, run: seq<Event>, i: nat, j: nat)
    requires Legal(Admitted(revision, generations), run)
    requires i < j < |run| && run[i].Sent? && run[j].Sent? && run[i].bus == run[j].bus
    requires forall k :: i < k < j && run[k].Sent? ==> run[k].bus != run[i].bus
    ensures run[i].sequence < run[j].sequence
    ensures UnsentBetween(run, run, run[i].bus, run[i].sequence, run[j].sequence) ==
            run[j].sequence - run[i].sequence - 1
  {
    hide Allowed, Observe, Tallied;
    var g := Admitted(revision, generations);
    AdmittedInv(revision, generations);
    SentIncreases(g, run, i, j);
    forall k | 0 <= k < |run| && run[k].Sent? && run[k].bus == run[i].bus
      ensures !(run[i].sequence < run[k].sequence < run[j].sequence)
    {
      if k < i {
        SentIncreases(g, run, k, i);
      } else if j < k {
        SentIncreases(g, run, j, k);
      }
    }
    NoneSentBetween(run, run, run[i].bus, run[i].sequence, run[j].sequence);
    SentWasEncoded(g, run, i, j);
    LegalIsLater(g, run, 0);
    EncodedOnce(g, run, run[i].bus, run[i].sequence, run[j].sequence);
  }

  /**
   Accounting over any run that started freshly admitted: at most three attempts per recovery,
   every discontinuity is one renewal or one reconnect and took at least one attempt, and there
   were no more renewals than the credential revision advanced.
   */
  lemma {:induction false} RecoveryAccounting(revision: nat, generations: seq<nat>, run: seq<Event>)
    requires Legal(Admitted(revision, generations), run)
    ensures var g := After(Admitted(revision, generations), run);
            && g.attempts <= RECOVERY_ATTEMPTS
            && g.Discontinuities() == AttachedCount(run)
            && g.totalAttempts == AttemptCount(run)
            && AttachedCount(run) <= AttemptCount(run) <= RECOVERY_ATTEMPTS * (AttachedCount(run) + 1)
            && g.renewals <= g.revision - revision
  {
    AdmittedInv(revision, generations);
    LegalKeeps(Admitted(revision, generations), run);
    CountsAgree(Admitted(revision, generations), run);
  }

  function AttachedCount(run: seq<Event>): nat {
    if |run| == 0 then 0 else AttachedCount(run[..|run| - 1]) + (if run[|run| - 1].Attached? then 1 else 0)
  }

  function AttemptCount(run: seq<Event>): nat {
    if |run| == 0 then 0 else AttemptCount(run[..|run| - 1]) + (if run[|run| - 1].Attempt? then 1 else 0)
  }

  lemma {:induction false} CountsAgree(g: Group, run: seq<Event>)
    requires Legal(g, run)
    ensures After(g, run).Discontinuities() == g.Discontinuities() + AttachedCount(run)
    ensures After(g, run).totalAttempts == g.totalAttempts + AttemptCount(run)
    ensures After(g, run).initialRevision == g.initialRevision
  {
    if |run| > 0 {
      CountsAgree(g, run[..|run| - 1]);
      CountsStep(After(g, run[..|run| - 1]), run[|run| - 1]);
    }
  }

  lemma {:induction false} CountsStep(g: Group, e: Event)
    requires Allowed(g, e)
    ensures Observe(g, e).Discontinuities() == g.Discontinuities() + (if e.Attached? then 1 else 0)
    ensures Observe(g, e).totalAttempts == g.totalAttempts + (if e.Attempt? then 1 else 0)
    ensures Observe(g, e).initialRevision == g.initialRevision
  {
    match e
    case Attempt(_) =>
    case Attached(_, _, _) =>
    case _ =>
  }

  /** The credential revision of the last attachment in `run`, or the one before it. */
  function LastRevision(run: seq<Event>, before: nat): nat {
    if |run| == 0 then before
    else if run[|run| - 1].Attached? then run[|run| - 1].revision
    else LastRevision(run[..|run| - 1], before)
  }

  /** How many attachments of `run` came with a strictly newer credential than the attachment before them. */
  function Advances(run: seq<Event>, before: nat): nat {
    if |run| == 0 then 0
    else
      var rest, e := run[..|run| - 1], run[|run| - 1];
      Advances(rest, before) + (if e.Attached? && e.revision > LastRevision(rest, before) then 1 else 0)
  }

  lemma {:induction false} AttachedStep(g: Group, e: Event)
    requires Allowed(g, e)
    ensures Observe(g, e).revision == if e.Attached? then e.revision else g.revision
    ensures Observe(g, e).renewals == g.renewals + (if e.Attached? && e.revision > g.revision then 1 else 0)
    ensures Observe(g, e).reconnects == g.reconnects + (if e.Attached? && e.revision <= g.revision then 1 else 0)
  {
    match e {
      case Attached(_, _, _) =>
      case Ready(b, generation) => assert generation > g.highest[b] || Observe(g, e) == g.(barred := true);
      case _ =>
    }
  }

  /** Over a whole run, renewals are the attachments under a strictly newer credential; all others are reconnects. */
  lemma {:induction false} RenewalMeansNewerCredential(g: Group, run: seq<Event>)
    requires Legal(g, run)
    ensures After(g, run).revision == LastRevision(run, g.revision)
    ensures After(g, run).renewals == g.renewals + Advances(run, g.revision)
    ensures After(g, run).reconnects == g.reconnects + (AttachedCount(run) - Advances(run, g.revision))
  {
    hide Allowed, Observe;
    if |run| > 0 {
      RenewalMeansNewerCredential(g, run[..|run| - 1]);
      AttachedStep(After(g, run[..|run| - 1]), run[|run| - 1]);
    }
  }

  /** What the group's counts say about a run from its start: they are counts of its events. */
  lemma {:induction false} CountsOfARun(revision: nat, generations: seq<nat>, run: seq<Event>)
    requires Legal(Admitted(revision, generations), run)
    ensures var g := After(Admitted(revision, generations), run);
            && |g.sent| == |generations|
            && (forall b :: 0 <= b < |g.sent| ==> g.sent[b] == SentOn(run, b))
            && g.renewals == Advances(run, revision)
            && g.reconnects == AttachedCount(run) - Advances(run, revision)
            && g.totalAttempts == AttemptCount(run)
  {
    hide Allowed, Observe, Tallied, Replay;
    var start := Admitted(revision, generations);
    AdmittedInv(revision, generations);
    LegalKeeps(start, run);
    LegalIsLater(start, run, 0);
    assert run[..0] == [];
    NothingHappened(start);
    CountsAgree(start, run);
    RenewalMeansNewerCredential(start, run);
    forall b | 0 <= b < |generations|
      ensures After(start, run).sent[b] == SentOn(run, b)
    {
      SentIsCounted(start, run, b);
    }
  }

  lemma {:induction false} NothingHappened(g: Group)
    ensures Legal(g, []) && After(g, []) == g
  {
  }

  predicate Observed(e: Event, bus: nat) {
    (e.Ready? || e.ReadyLost?) && e.bus == bus
  }

  /**
   Of any two READY messages a bus ever saw, the later has the higher generation, or one of the
   two was lost with its socket before it was checked, or no admission follows the later one.
   */
  lemma {:induction false} ObservedReadies(g: Group, run: seq<Event>, i: nat, j: nat, bus: nat)
    requires Inv(g) && Legal(g, run)
    requires i < j < |run| && Observed(run[i], bus) && Observed(run[j], bus)
    ensures run[i].generation < run[j].generation || run[i].ReadyLost? || run[j].ReadyLost?
            || forall k :: j < k < |run| ==> !run[k].Ready? && !run[k].Attempt? && !run[k].Attached?
  {
    if run[i].Ready? && run[j].Ready? {
      ReadyGenerationsIncrease(g, run, i, j);
    }
  }

  /** READY messages that admit the buses from `from` up to `upTo`, each with the next generation. */
  function NextReadies(highest: seq<nat>, from: nat, upTo: nat): seq<Event>
    requires from <= upTo <= |highest|
    decreases upTo
  {
    if from == upTo then [] else NextReadies(highest, from, upTo - 1) + [Ready(upTo - 1, highest[upTo - 1] + 1)]
  }

  lemma {:induction false} NextReadiesPass(g: Group, upTo: nat)
    requires Inv(g) && !g.barred && g.admission.Some? && g.admission.value.admitted == 0 && upTo <= |g.highest|
    ensures Legal(g, NextReadies(g.highest, 0, upTo))
    ensures var h := After(g, NextReadies(g.highest, 0, upTo));
            && h == g.(highest := h.highest, admission := Some(g.admission.value.(admitted := upTo)))
            && |h.highest| == |g.highest| && forall b :: upTo <= b < |g.highest| ==> h.highest[b] == g.highest[b]
  {
    if upTo > 0 {
      NextReadiesPass(g, upTo - 1);
      LegalSnoc(g, NextReadies(g.highest, 0, upTo - 1), Ready(upTo - 1, g.highest[upTo - 1] + 1));
    }
  }

  /** The continuation after a READY of `bus` was lost: another attempt in which `bus` sees the same generation. */
  function Repetition(g: Group, bus: nat, generation: nat): seq<Event>
    requires bus <= |g.highest|
  {
    [ReadyLost(bus, generation), Failed(Untyped, false), Attempt(g.revision)]
      + NextReadies(g.highest, 0, bus) + [Ready(bus, generation)]
  }

  lemma {:induction false} LegalConcat(g: Group, first: seq<Event>, second: seq<Event>)
    requires Legal(g, first) && Legal(After(g, first), second)
    ensures Legal(g, first + second) && After(g, first + second) == After(After(g, first), second)
    decreases |second|
  {
    if |second| == 0 {
      assert first + second == first;
    } else {
      var n := |second| - 1;
      LegalConcat(g, first, second[..n]);
      assert first + second == (first + second[..n]) + [second[n]];
      LegalSnoc(g, first + second[..n], second[n]);
    }
  }

  lemma {:induction false} AnotherAttempt(g: Group, bus: nat, generation: nat)
    requires Inv(g) && g.attempts < RECOVERY_ATTEMPTS && !g.ended && Allowed(g, ReadyLost(bus, generation))
    ensures var again := [ReadyLost(bus, generation), Failed(Untyped, false), Attempt(g.revision)];
            && Legal(g, again)
            && var h := After(g, again);
            && Inv(h) && !h.barred && h.admission == Some(Admission(g.revision, 0)) && h.highest == g.highest
  {
    var run: seq<Event> := [];
    LegalSnoc(g, run, ReadyLost(bus, generation));
    run := run + [ReadyLost(bus, generation)];
    LegalSnoc(g, run, Failed(Untyped, false));
    run := run + [Failed(Untyped, false)];
    LegalSnoc(g, run, Attempt(g.revision));
    run := run + [Attempt(g.revision)];
    assert run == [ReadyLost(bus, generation), Failed(Untyped, false), Attempt(g.revision)];
    LegalKeeps(g, run);
  }

  /**
   The generation check covers the READY messages an admission returned. One that was parsed
   but lost with its socket is not recorded, so the relay may repeat its generation: after any
   such loss, on any bus, there is a legal continuation that accepts the same number again.
   */
  lemma {:induction false} LostGenerationCanRepeat(g: Group, bus: nat, generation: nat)
    requires Inv(g) && g.attempts < RECOVERY_ATTEMPTS && !g.ended
    requires Allowed(g, ReadyLost(bus, generation)) && generation > g.highest[bus]
    ensures Legal(g, Repetition(g, bus, generation))
    ensures var h := After(g, Repetition(g, bus, generation));
            bus < |h.highest| && h.highest[bus] == generation && !h.barred
  {
    var first := [ReadyLost(bus, generation), Failed(Untyped, false), Attempt(g.revision)];
    var readies := NextReadies(g.highest, 0, bus);
    AnotherAttempt(g, bus, generation);
    NextReadiesPass(After(g, first), bus);
    LegalConcat(g, first, readies);
    LegalSnoc(g, first + readies, Ready(bus, generation));
  }
}
