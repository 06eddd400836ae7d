/**
 The handle through which a management thread renews or revokes a publisher's credential while
 the publisher runs (relay/src/publisher_control.rs).

 A credential lives under a lock; its revision is mirrored in an atomic that is
 stored inside the lock and read outside it; revocation is an atomic flag checked
 inside the lock by `replace` and after it by `snapshot`. Each atomic access is one
 step, so every interleaving of the threads is a sequence of steps.
 */
module PublisherControl {
  import opened Basics

  const NS_PER_MS: nat := 1_000_000
  const MAX_CAPABILITY_LIFETIME: nat := 24 * 3_600 * NS_PER_SECOND
  const RECOVERY_ATTEMPTS: nat := 3
  const RECOVERY_BUDGET: nat := 5_000 * NS_PER_MS
  const ATTACHMENT_TIMEOUT: nat := 1_000 * NS_PER_MS

  datatype Credential = Credential(token: nat, validUntil: nat, revision: nat)

  datatype ControlError = InvalidExpiry | StaleReplacement | Revoked | AlreadyPublishing

  datatype SnapshotResult = Snapshot(credential: Credential) | Refused(error: ControlError)

  /** How far the thread inside the critical section of `replace` has come. */
  datatype Lock =
    | Free
    | Held(next: Credential)     // acquired; revocation not looked at yet
    | Cleared(next: Credential)  // revocation was not set when looked at
    | Written                    // credential replaced, mirror still old
    | Mirrored                   // mirror stored, lock not released yet

  datatype Control = Control(credential: Credential, revision: nat, revoked: bool, claimed: bool, leases: nat, lock: Lock)

  predicate ValidExpiry(validUntil: nat, now: nat) {
    now < validUntil <= now + MAX_CAPABILITY_LIFETIME
  }

  function NewControl(credential: Credential): Control {
    Control(credential, credential.revision, false, false, 0, Free)
  }

  datatype Action =
    | Acquire(next: Credential)
    | CheckRevoked
    | CompareAndWrite
    | StoreMirror
    | Unlock
    | Revoke
    | Claim
    | DropLease

  predicate Supersedes(next: Credential, current: Credential) {
    next.revision > current.revision && next.validUntil > current.validUntil
  }

  function Step(s: Control, a: Action): Control {
    match a
    case Acquire(next) => if s.lock.Free? then s.(lock := Held(next)) else s
    case CheckRevoked =>
      if !s.lock.Held? then s else if s.revoked then s.(lock := Free) else s.(lock := Cleared(s.lock.next))
    case CompareAndWrite =>
      if !s.lock.Cleared? then s
      else if !Supersedes(s.lock.next, s.credential) then s.(lock := Free)
      else s.(credential := s.lock.next, lock := Written)
    case StoreMirror => if s.lock.Written? then s.(revision := s.credential.revision, lock := Mirrored) else s
    case Unlock => if s.lock.Mirrored? then s.(lock := Free) else s
    case Revoke => s.(revoked := true)
    case Claim => if s.claimed then s else s.(claimed := true, leases := s.leases + 1)
    case DropLease => if s.leases > 0 then s.(claimed := false, leases := s.leases - 1) else s
  }

  function Run(s: Control, actions: seq<Action>): Control {
    if |actions| == 0 then s else Step(Run(s, actions[..|actions| - 1]), actions[|actions| - 1])
  }

  /** The mirror is exact except between the two stores of one `replace`, when it is behind. */
  predicate Inv(s: Control) {
    && (if s.lock.Written? then s.revision < s.credential.revision else s.revision == s.credential.revision)
    && s.leases == (if s.claimed then 1 else 0)
  }

  /** No `replace` is past its revocation check. */
  predicate Quiet(s: Control) {
    s.lock.Free? || s.lock.Held?
  }

  /** What any number of steps of other threads can do. */
  predicate Evolves(s: Control, t: Control) {
    && (s.revoked ==> t.revoked)
    && s.revision <= t.revision
    && s.credential.revision <= t.credential.revision
    && s.credential.validUntil <= t.credential.validUntil
    && (s.credential.revision == t.credential.revision ==> s.credential == t.credential)
    && (s.revoked && Quiet(s) ==> Quiet(t) && t.credential == s.credential && t.revision == s.revision)
  }

  lemma {:induction false} StepEvolves(s: Control, a: Action)
    requires Inv(s)
    ensures Inv(Step(s, a)) && Evolves(s, Step(s, a))
  {
  }

  /** Every interleaving keeps the invariant and only moves forward. */
  lemma {:induction false} RunEvolves(s: Control, actions: seq<Action>)
    requires Inv(s)
    ensures Inv(Run(s, actions)) && Evolves(s, Run(s, actions))
  {
    if |actions| > 0 {
      RunEvolves(s, actions[..|actions| - 1]);
      StepEvolves(Run(s, actions[..|actions| - 1]), actions[|actions| - 1]);
    }
  }

  /**
   A snapshot was taken at `s`, with the lock free. At every later state the mirror is at
   least that revision and at most the locked one, and reading a different mirror value
   means that every snapshot from then on is strictly newer.
   */
  lemma {:induction false} MirrorNeverLies(s: Control, between: seq<Action>, later: seq<Action>)
    requires Inv(s) && s.lock.Free?
    ensures var read := Run(s, between);
            var again := Run(read, later);
            && s.credential.revision <= read.revision <= read.credential.revision
            && (read.revision != s.credential.revision ==> again.credential.revision > s.credential.revision)
  {
    RunEvolves(s, between);
    RunEvolves(Run(s, between), later);
  }

  /** What `snapshot` answers with the copy it made under the lock and the state it checks afterwards. */
  function SnapshotOutcome(copy: Credential, checked: Control, now: nat): SnapshotResult {
    if checked.revoked then Refused(Revoked)
    else if !ValidExpiry(copy.validUntil, now) then Refused(InvalidExpiry)
    else Snapshot(copy)
  }

  /** `t` is revoked, and what `s` had is replaced at most by the one replacement that had passed its check in `s`. */
  predicate Fenced(s: Control, t: Control) {
    && t.revoked
    && (t.credential == s.credential || (s.lock.Cleared? && t.credential == s.lock.next && Supersedes(t.credential, s.credential)))
    && (t.lock.Cleared? ==> t.lock == s.lock && t.credential == s.credential)
  }

  lemma {:induction false} FenceHolds(s: Control, actions: seq<Action>)
    requires s.revoked
    ensures Fenced(s, Run(s, actions))
  {
    if |actions| > 0 {
      FenceHolds(s, actions[..|actions| - 1]);
    }
  }

  /**
   After a revocation every snapshot whose check comes later is refused, whatever it copied, and
   no replacement takes effect except one that had already passed its revocation check; from a
   state without such a replacement, credential and mirror are frozen for good.
   */
  lemma {:induction false} RevocationFences(s: Control, actions: seq<Action>, copy: Credential, now: nat)
    requires Inv(s) && s.revoked
    ensures Run(s, actions).revoked
    ensures SnapshotOutcome(copy, Run(s, actions), now) == Refused(Revoked)
    ensures Run(s, actions).credential != s.credential ==> s.lock.Cleared? && Run(s, actions).credential == s.lock.next
    ensures Quiet(s) ==> Run(s, actions).credential == s.credential && Run(s, actions).revision == s.revision
  {
    FenceHolds(s, actions);
    RunEvolves(s, actions);
  }

  /** At most one lease is outstanding, whatever claims and drops the threads interleave. */
  lemma {:induction false} AtMostOneLease(credential: Credential, actions: seq<Action>)
    ensures var s := Run(NewControl(credential), actions);
            s.leases <= 1 && (s.claimed <==> s.leases == 1)
  {
    RunEvolves(NewControl(credential), actions);
  }

  lemma {:induction false} EvolvesTransitive(s: Control, t: Control, u: Control)
    requires Evolves(s, t) && Evolves(t, u)
    ensures Evolves(s, u)
  {
  }

  /** The thread in the critical section, if any, runs until it leaves it. */
  function Drain(s: Control): Control {
    Step(Step(Step(Step(s, CheckRevoked), CompareAndWrite), StoreMirror), Unlock)
  }

  lemma {:induction false} DrainFreesTheLock(s: Control)
    requires Inv(s)
    ensures Drain(s).lock.Free? && Inv(Drain(s)) && Evolves(s, Drain(s))
    ensures Drain(s).revoked == s.revoked
  {
    var s1 := Step(s, CheckRevoked);
    var s2 := Step(s1, CompareAndWrite);
    var s3 := Step(s2, StoreMirror);
    StepEvolves(s, CheckRevoked);
    StepEvolves(s1, CompareAndWrite);
    StepEvolves(s2, StoreMirror);
    StepEvolves(s3, Unlock);
    EvolvesTransitive(s, s1, s2);
    EvolvesTransitive(s, s2, s3);
    EvolvesTransitive(s, s3, Drain(s));
  }

  /** Steps other threads may take while this one holds the lock. */
  predicate Outside(a: Action) {
    a.Revoke? || a.Claim? || a.DropLease?
  }

  /** The shared control. `Interfere` stands for everything its other owners do between two accesses. */
  class RelayPublisherControl {
    var credential: Credential
    var revision: nat
    var revoked: bool
    var claimed: bool
    var lock: Lock
    ghost var leases: nat

    ghost function View(): Control
      reads this
    {
      Control(credential, revision, revoked, claimed, leases, lock)
    }

    ghost predicate Valid()
      reads this
    {
      Inv(View())
    }

    constructor (initial: Credential)
      ensures View() == NewControl(initial) && Valid()
    {
      credential, revision := initial, initial.revision;
      revoked, claimed, leases, lock := false, false, 0, Free;
    }

    /** One atomic step of some thread. */
    method Take(a: Action)
      requires Valid()
      modifies this
      ensures View() == Step(old(View()), a)
      ensures Valid() && Evolves(old(View()), View())
    {
      StepEvolves(View(), a);
      match a {
        case Acquire(next) =>
          if lock.Free? {
            lock := Held(next);
          }
        case CheckRevoked =>
          if lock.Held? {
            lock := if revoked then Free else Cleared(lock.next);
          }
        case CompareAndWrite =>
          if lock.Cleared? {
            if Supersedes(lock.next, credential) {
              credential, lock := lock.next, Written;
            } else {
              lock := Free;
            }
          }
        case StoreMirror =>
          if lock.Written? {
            revision, lock := credential.revision, Mirrored;
          }
        case Unlock =>
          if lock.Mirrored? {
            lock := Free;
          }
        case Revoke =>
          revoked := true;
        case Claim =>
          if !claimed {
            claimed, leases := true, leases + 1;
          }
        case DropLease =>
          if claimed {
            claimed, leases := false, leases - 1;
          }
      }
    }

    /** Any number of steps of other threads; with `mine`, this thread is the one in the lock. */
    method Interfere(mine: bool)
      requires Valid()
      modifies this
      ensures Valid() && Evolves(old(View()), View())
      ensures mine ==> lock == old(lock) && credential == old(credential) && revision == old(revision)
    {
      var steps :| 0 <= steps;
      for i := 0 to steps
        invariant Valid() && Evolves(old(View()), View())
        invariant mine ==> lock == old(lock) && credential == old(credential) && revision == old(revision)
      {
        var a: Action := *;
        if !mine || Outside(a) {
          ghost var before := View();
          Take(a);
          EvolvesTransitive(old(View()), before, View());
        }
      }
    }

    /** Blocks until the thread in the critical section, if any, has left it. */
    method AwaitLock()
      requires Valid()
      modifies this
      ensures Valid() && Evolves(old(View()), View())
      ensures lock.Free?
    {
      Interfere(false);
      ghost var before := View();
      DrainFreesTheLock(before);
      Take(CheckRevoked);
      Take(CompareAndWrite);
      Take(StoreMirror);
      Take(Unlock);
      EvolvesTransitive(old(View()), before, View());
    }

    /** Installs a strictly newer credential, unless the control has been revoked by then. */
    method Replace(next: Credential, now: nat) returns (error: Option<ControlError>)
      requires Valid()
      modifies this
      ensures Valid() && Evolves(old(View()), View())
      ensures error == Some(InvalidExpiry) <==> !ValidExpiry(next.validUntil, now)
      ensures ValidExpiry(next.validUntil, now) && old(revoked) ==> error == Some(Revoked)
      ensures error == Some(Revoked) ==> revoked
      ensures error == Some(StaleReplacement) ==> !Supersedes(next, credential)
      ensures error.None? ==>
                && credential == next && revision == next.revision && lock.Free?
                && Supersedes(next, old(credential))
    {
      if !ValidExpiry(next.validUntil, now) {
        return Some(InvalidExpiry);
      }
      AwaitLock();
      lock := Held(next);
      Interfere(true);
      if revoked {
        lock := Free;
        return Some(Revoked);
      }
      lock := Cleared(next);
      Interfere(true);
      if !Supersedes(next, credential) {
        lock := Free;
        return Some(StaleReplacement);
      }
      credential, lock := next, Written;
      Interfere(true);
      revision, lock := next.revision, Mirrored;
      Interfere(true);
      lock := Free;
      error := None;
    }

    /** Clones the credential under the lock, then looks at revocation and expiry. */
    method TakeSnapshot(now: nat) returns (result: SnapshotResult, ghost copied: Credential)
      requires Valid()
      modifies this
      ensures Valid() && Evolves(old(View()), View())
      ensures result == SnapshotOutcome(copied, View(), now)
      ensures old(credential).revision <= copied.revision
      ensures old(revoked) ==> result == Refused(Revoked)
      ensures result.Snapshot? ==>
                && ValidExpiry(result.credential.validUntil, now)
                && old(credential).revision <= result.credential.revision
                && result.credential.revision <= revision <= credential.revision
    {
      AwaitLock();
      var copy := credential;
      copied := copy;
      Interfere(false);
      if revoked {
        return Refused(Revoked), copied;
      }
      if !ValidExpiry(copy.validUntil, now) {
        return Refused(InvalidExpiry), copied;
      }
      result := Snapshot(copy);
    }

    /** Sets the flag that nothing ever clears. */
    method RevokeForever()
      requires Valid()
      modifies this`revoked
      ensures Valid() && revoked
      ensures Evolves(old(View()), View())
    {
      revoked := true;
    }

    /** Compare-and-exchange on the claim flag. */
    method ClaimLease() returns (error: Option<ControlError>)
      requires Valid()
      modifies this`claimed, this`leases
      ensures Valid() && claimed && leases == 1
      ensures error == if old(claimed) then Some(AlreadyPublishing) else None
    {
      if claimed {
        return Some(AlreadyPublishing);
      }
      claimed, leases := true, leases + 1;
      error := None;
    }
  }
}
