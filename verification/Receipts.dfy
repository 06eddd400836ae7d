/**
 Receipts and leases of grouped publications (relay/src/runtime.rs, `reserve_receipts`,
 `remove_receipts`, `take_result`, `cancel_preparation` and the worker's `run`): the registry as
 the object it is, and every interleaving of groups over it as a step system whose steps are
 the critical sections.
 */
module Receipts {
  import opened Basics

  /** An endpoint's route. */
  datatype Key = Key(endpoint: nat, route: nat)

  /** The result cell of route `index` of group `group`: every preparation makes new ones. */
  datatype Cell = Cell(group: nat, index: nat)

  type Table = map<Key, Cell>

  const MAX_GROUPED_BUSES: nat := 16

  // ----- The table -----

  /** The last route of a group with the given key. */
  function LastIndex(keys: seq<Key>, k: Key): (i: nat)
    requires k in keys
    ensures i < |keys| && keys[i] == k
    ensures forall j :: i < j < |keys| ==> keys[j] != k
  {
    var n := |keys| - 1;
    if keys[n] == k then n else LastIndex(keys[..n], k)
  }

  /** The table after a group's routes were inserted in order. */
  function Inserted(table: Table, keys: seq<Key>, group: nat): Table {
    if |keys| == 0 then table
    else
      var n := |keys| - 1;
      Inserted(table, keys[..n], group)[keys[n] := Cell(group, n)]
  }

  lemma {:induction false} InsertedAt(table: Table, keys: seq<Key>, group: nat, k: Key)
    ensures k in Inserted(table, keys, group) <==> k in table || k in keys
    ensures k in keys ==> Inserted(table, keys, group)[k] == Cell(group, LastIndex(keys, k))
    ensures k in table && k !in keys ==> Inserted(table, keys, group)[k] == table[k]
  {
    if |keys| > 0 {
      var n := |keys| - 1;
      assert keys == keys[..n] + [keys[n]];
      InsertedAt(table, keys[..n], group, k);
    }
  }

  lemma {:induction false} InsertedSize(table: Table, keys: seq<Key>, group: nat)
    ensures |Inserted(table, keys, group)| <= |table| + |keys|
  {
    if |keys| > 0 {
      var n := |keys| - 1;
      var before := Inserted(table, keys[..n], group);
      InsertedSize(table, keys[..n], group);
      assert before[keys[n] := Cell(group, n)].Keys == before.Keys + {keys[n]};
    }
  }

  function Removed(table: Table, keys: seq<Key>): Table {
    if |keys| == 0 then table else Removed(table, keys[..|keys| - 1]) - {keys[|keys| - 1]}
  }

  lemma {:induction false} RemovedAt(table: Table, keys: seq<Key>, k: Key)
    ensures k in Removed(table, keys) <==> k in table && k !in keys
    ensures k in Removed(table, keys) ==> Removed(table, keys)[k] == table[k]
  {
    if |keys| > 0 {
      var n := |keys| - 1;
      assert keys == keys[..n] + [keys[n]];
      RemovedAt(table, keys[..n], k);
    }
  }

  lemma {:induction false} RemovedSize(table: Table, keys: seq<Key>)
    ensures |Removed(table, keys)| <= |table|
  {
    if |keys| > 0 {
      var before := Removed(table, keys[..|keys| - 1]);
      RemovedSize(table, keys[..|keys| - 1]);
      assert (before - {keys[|keys| - 1]}).Keys <= before.Keys;
      SubsetSize((before - {keys[|keys| - 1]}).Keys, before.Keys);
    }
  }

  lemma {:induction false} SubsetSize<T>(a: set<T>, b: set<T>)
    requires a <= b
    ensures |a| <= |b|
  {
    assert b == a + (b - a);
  }

  /** The registry's refusal rule: never past the capacity, never over an existing receipt. */
  predicate Admissible(table: Table, keys: seq<Key>, capacity: nat) {
    |table| + |keys| <= capacity && forall i :: 0 <= i < |keys| ==> keys[i] !in table
  }

  class Registry {
    const capacity: nat
    var table: Table

    constructor (capacity: nat)
      ensures table == map[] && this.capacity == capacity
    {
      this.capacity := capacity;
      table := map[];
    }

    method ReserveReceipts(keys: seq<Key>, group: nat) returns (reserved: bool)
      modifies this
      ensures reserved == Admissible(old(table), keys, capacity)
      ensures table == if reserved then Inserted(old(table), keys, group) else old(table)
    {
      if |table| + |keys| > capacity {
        return false;
      }
      for i := 0 to |keys|
        invariant table == old(table)
        invariant forall j :: 0 <= j < i ==> keys[j] !in table
      {
        if keys[i] in table {
          return false;
        }
      }
      for i := 0 to |keys|
        invariant table == Inserted(old(table), keys[..i], group)
      {
        assert keys[..i + 1][..i] == keys[..i];
        table := table[keys[i] := Cell(group, i)];
      }
      assert keys[..|keys|] == keys;
      reserved := true;
    }

    method RemoveReceipts(keys: seq<Key>)
      modifies this
      ensures table == Removed(old(table), keys)
    {
      for i := 0 to |keys|
        invariant table == Removed(old(table), keys[..i])
      {
        assert keys[..i + 1][..i] == keys[..i];
        table := table - {keys[i]};
      }
      assert keys[..|keys|] == keys;
    }

    /** Takes a result out; a receipt without one stays. */
    method TakeResult<R>(key: Key, results: map<Cell, R>) returns (result: Option<R>)
      modifies this
      ensures result.Some? <==> key in old(table) && old(table)[key] in results
      ensures result.Some? ==> result.value == results[old(table)[key]] && table == old(table) - {key}
      ensures result.None? ==> table == old(table)
    {
      if key !in table || table[key] !in results {
        return None;
      }
      result := Some(results[table[key]]);
      table := table - {key};
    }
  }

  // ----- Groups and their steps -----

  /** Where a group's preparation or worker stands. */
  datatype Phase =
    | Reserved
    | Admitting
    | Failing
    | Prepared
    | Running
    | Recording(done: nat)
    | Finished
    | Cancelling
    | Gone

  datatype Group = Group(keys: seq<Key>, phase: Phase, lease: bool)

  /** `controlled` says whether the factory publishes under a publisher control. */
  datatype System = System(
    capacity: nat,
    controlled: bool,
    table: Table,
    results: set<Cell>,
    groups: seq<Group>,
    claimed: bool)

  datatype Step =
    | Reserve(keys: seq<Key>)
    | Claim(group: nat)
    | PrepareFails(group: nat)
    | PrepareSucceeds(group: nat)
    | RollBack(group: nat)
    | StartRun(group: nat)
    | EndRun(group: nat, complete: bool)
    | Record(group: nat)
    | Abandon(group: nat)
    | Cancel(group: nat)
    | RemoveCancelled(group: nat)
    | Take(key: Key)

  function Start(capacity: nat, controlled: bool): System {
    System(capacity, controlled, map[], {}, [], false)
  }

  function Update(s: System, g: nat, group: Group): System
    requires g < |s.groups|
  {
    s.(groups := s.groups[g := group])
  }

  /** Drops the lease, if the group holds it. */
  function Release(s: System, g: nat, phase: Phase): System
    requires g < |s.groups|
  {
    Update(s, g, s.groups[g].(phase := phase, lease := false)).(claimed := s.claimed && !s.groups[g].lease)
  }

  /** Sets the next route's result, or ends the worker. */
  function SetResult(s: System, g: nat): System
    requires g < |s.groups| && s.groups[g].phase.Recording?
  {
    var done := s.groups[g].phase.done;
    if done < |s.groups[g].keys| then
      Update(s, g, s.groups[g].(phase := Recording(done + 1))).(results := s.results + {Cell(g, done)})
    else Update(s, g, s.groups[g].(phase := Finished))
  }

  /** Removes what the group reserved. */
  function GiveUp(s: System, g: nat): System
    requires g < |s.groups|
  {
    Update(s, g, s.groups[g].(phase := Gone)).(table := Removed(s.table, s.groups[g].keys))
  }

  /** Claims the lease, if there is one to claim. */
  function ClaimLease(s: System, g: nat): System
    requires g < |s.groups|
  {
    if s.controlled && s.claimed then Update(s, g, s.groups[g].(phase := Failing))
    else Update(s, g, s.groups[g].(phase := Admitting, lease := s.controlled)).(claimed := s.claimed || s.controlled)
  }

  function NewGroup(s: System, keys: seq<Key>): System {
    s.(table := Inserted(s.table, keys, |s.groups|), groups := s.groups + [Group(keys, Reserved, false)])
  }

  /** One critical section; a step that does not apply changes nothing. */
  function Apply(s: System, step: Step): System {
    match step
    case Reserve(keys) =>
      if 0 < |keys| <= MAX_GROUPED_BUSES && Admissible(s.table, keys, s.capacity) then
        NewGroup(s, keys)
      else s
    case Take(key) =>
      if key in s.table && s.table[key] in s.results then s.(table := s.table - {key}) else s
    case Claim(g) =>
      if g < |s.groups| && s.groups[g].phase.Reserved? then ClaimLease(s, g) else s
    case PrepareFails(g) =>
      if g < |s.groups| && s.groups[g].phase.Admitting? then Release(s, g, Failing) else s
    case PrepareSucceeds(g) =>
      if g < |s.groups| && s.groups[g].phase.Admitting? then Update(s, g, s.groups[g].(phase := Prepared)) else s
    case RollBack(g) =>
      if g < |s.groups| && s.groups[g].phase.Failing? then GiveUp(s, g) else s
    case StartRun(g) =>
      if g < |s.groups| && s.groups[g].phase.Prepared? then Update(s, g, s.groups[g].(phase := Running)) else s
    case EndRun(g, complete) =>
      if g < |s.groups| && s.groups[g].phase.Running? then Release(s, g, if complete then Recording(0) else Finished) else s
    // The worker panics, or is dropped without having been run or cancelled.
    case Abandon(g) =>
      if g < |s.groups| && (s.groups[g].phase.Prepared? || s.groups[g].phase.Running?) then Release(s, g, Finished) else s
    case Record(g) =>
      if g < |s.groups| && s.groups[g].phase.Recording? then SetResult(s, g) else s
    case Cancel(g) =>
      if g < |s.groups| && s.groups[g].phase.Prepared? then Release(s, g, Cancelling) else s
    case RemoveCancelled(g) =>
      if g < |s.groups| && s.groups[g].phase.Cancelling? then GiveUp(s, g) else s
  }

  function Execute(s: System, steps: seq<Step>): System
    decreases |steps|
  {
    if |steps| == 0 then s else Execute(Apply(s, steps[0]), steps[1..])
  }

  // ----- What every run keeps -----

  /** Results exist only for routes a worker has recorded. */
  predicate RecordedOnly(results: set<Cell>, groups: seq<Group>) {
    forall c :: c in results ==>
      c.group < |groups| && match groups[c.group].phase
                            case Recording(done) => c.index < done
                            case Finished => true
                            case _ => false
  }

  /** Every receipt leads to the last route with its key of a group that still exists. */
  predicate Backed(table: Table, groups: seq<Group>) {
    forall k :: k in table ==>
      var c := table[k];
      c.group < |groups| && !groups[c.group].phase.Gone? && k in groups[c.group].keys
      && c.index == LastIndex(groups[c.group].keys, k)
  }

  /** The receipt of a key whose result is not set yet is in place. */
  predicate HeldBy(table: Table, results: set<Cell>, groups: seq<Group>, g: nat, k: Key)
    requires g < |groups| && k in groups[g].keys
  {
    var c := Cell(g, LastIndex(groups[g].keys, k));
    c !in results ==> k in table && table[k] == c
  }

  predicate AllHeld(table: Table, results: set<Cell>, groups: seq<Group>) {
    forall g, k :: 0 <= g < |groups| && !groups[g].phase.Gone? && k in groups[g].keys ==> HeldBy(table, results, groups, g, k)
  }

  /** At most one group holds the lease, only between claim and the end of its run, and the flag says so. */
  predicate OneLease(claimed: bool, groups: seq<Group>) {
    && (forall g :: 0 <= g < |groups| && groups[g].lease ==>
          claimed && (groups[g].phase.Admitting? || groups[g].phase.Prepared? || groups[g].phase.Running?))
    && (forall g, h :: 0 <= g < |groups| && 0 <= h < |groups| && groups[g].lease && groups[h].lease ==> g == h)
    && (claimed ==> exists g :: 0 <= g < |groups| && groups[g].lease)
  }

  predicate Inv(s: System) {
    && |s.table| <= s.capacity
    && RecordedOnly(s.results, s.groups)
    && Backed(s.table, s.groups)
    && AllHeld(s.table, s.results, s.groups)
    && OneLease(s.claimed, s.groups)
  }

  /** A group moves on without touching the table or the results. */
  lemma {:induction false} MoveKeeps(s: System, g: nat, group: Group, claimed: bool)
    requires Inv(s) && g < |s.groups| && group.keys == s.groups[g].keys
    requires !s.groups[g].phase.Gone? && !group.phase.Gone?
    requires !s.groups[g].phase.Recording? && !s.groups[g].phase.Finished?
    requires OneLease(claimed, s.groups[g := group])
    ensures Inv(Update(s, g, group).(claimed := claimed))
  {
    var t := Update(s, g, group).(claimed := claimed);
    forall h, k | 0 <= h < |t.groups| && !t.groups[h].phase.Gone? && k in t.groups[h].keys
      ensures HeldBy(t.table, t.results, t.groups, h, k)
    {
      assert HeldBy(s.table, s.results, s.groups, h, k);
    }
  }

  lemma {:induction false} LeaseMoves(s: System, g: nat, phase: Phase)
    requires OneLease(s.claimed, s.groups) && g < |s.groups|
    requires s.groups[g].lease ==> phase.Admitting? || phase.Prepared? || phase.Running?
    ensures OneLease(s.claimed, s.groups[g := s.groups[g].(phase := phase)])
  {
    var t := s.groups[g := s.groups[g].(phase := phase)];
    if s.claimed {
      var h :| 0 <= h < |s.groups| && s.groups[h].lease;
      assert t[h].lease;
    }
  }

  lemma {:induction false} LeaseReleased(s: System, g: nat, phase: Phase)
    requires OneLease(s.claimed, s.groups) && g < |s.groups|
    ensures OneLease(s.claimed && !s.groups[g].lease, s.groups[g := s.groups[g].(phase := phase, lease := false)])
  {
    var t := s.groups[g := s.groups[g].(phase := phase, lease := false)];
    if s.claimed && !s.groups[g].lease {
      var h :| 0 <= h < |s.groups| && s.groups[h].lease;
      assert t[h].lease;
    }
  }

  lemma {:induction false} LeaseClaimed(s: System, g: nat)
    requires OneLease(s.claimed, s.groups) && g < |s.groups| && s.groups[g].phase.Reserved?
    requires s.controlled ==> !s.claimed
    ensures OneLease(s.claimed || s.controlled, s.groups[g := s.groups[g].(phase := Admitting, lease := s.controlled)])
  {
    var t := s.groups[g := s.groups[g].(phase := Admitting, lease := s.controlled)];
    if s.controlled {
      assert t[g].lease;
    } else if s.claimed {
      var h :| 0 <= h < |s.groups| && s.groups[h].lease;
      assert t[h].lease;
    }
  }

  lemma {:induction false} ReserveKeeps(s: System, keys: seq<Key>)
    requires Inv(s) && |keys| > 0 && Admissible(s.table, keys, s.capacity)
    ensures Inv(NewGroup(s, keys))
  {
    hide Inserted, LastIndex, OneLease;
    var t := NewGroup(s, keys);
    InsertedSize(s.table, keys, |s.groups|);
    forall k
      ensures k in t.table <==> k in s.table || k in keys
      ensures k in keys ==> t.table[k] == Cell(|s.groups|, LastIndex(keys, k))
      ensures k in s.table ==> k !in keys && t.table[k] == s.table[k]
    {
      InsertedAt(s.table, keys, |s.groups|, k);
    }
    forall g, k | 0 <= g < |t.groups| && !t.groups[g].phase.Gone? && k in t.groups[g].keys
      ensures HeldBy(t.table, t.results, t.groups, g, k)
    {
      if g < |s.groups| {
        assert HeldBy(s.table, s.results, s.groups, g, k);
      }
    }
    LeaseGrows(s, Group(keys, Reserved, false));
  }

  lemma {:induction false} LeaseGrows(s: System, group: Group)
    requires OneLease(s.claimed, s.groups) && !group.lease
    ensures OneLease(s.claimed, s.groups + [group])
  {
    var t := s.groups + [group];
    if s.claimed {
      var h :| 0 <= h < |s.groups| && s.groups[h].lease;
      assert t[h].lease;
    }
  }

  /** What a group removes is what it reserved: all its receipts are in place, and nobody else's key is among them. */
  lemma {:induction false} RemovesItsOwn(s: System, g: nat)
    requires Inv(s) && g < |s.groups| && (s.groups[g].phase.Failing? || s.groups[g].phase.Cancelling?)
    ensures forall k :: k in s.groups[g].keys ==> k in s.table && s.table[k].group == g
    ensures forall k :: k in s.table && s.table[k].group == g ==> k in s.groups[g].keys
  {
    forall k | k in s.groups[g].keys
      ensures k in s.table && s.table[k].group == g
    {
      assert HeldBy(s.table, s.results, s.groups, g, k);
    }
  }

  /** Removing a group's own keys leaves the receipts of all other groups backed and held. */
  lemma {:induction false} RemovalLeavesOthers(
    table: Table, rest: Table, results: set<Cell>, groups: seq<Group>, left: seq<Group>, g: nat)
    requires Backed(table, groups) && AllHeld(table, results, groups)
    requires g < |groups| && left == groups[g := groups[g].(phase := Gone)]
    requires forall k :: k in rest <==> k in table && k !in groups[g].keys
    requires forall k :: k in rest ==> rest[k] == table[k]
    requires forall k :: k in groups[g].keys ==> k in table && table[k].group == g
    requires forall k :: k in table && table[k].group == g ==> k in groups[g].keys
    ensures Backed(rest, left) && AllHeld(rest, results, left)
  {
    forall h, k | 0 <= h < |left| && !left[h].phase.Gone? && k in left[h].keys
      ensures HeldBy(rest, results, left, h, k)
    {
      assert HeldBy(table, results, groups, h, k);
    }
  }

  lemma {:induction false} RemovalKeeps(s: System, g: nat)
    requires Inv(s) && g < |s.groups| && (s.groups[g].phase.Failing? || s.groups[g].phase.Cancelling?)
    ensures Inv(GiveUp(s, g))
  {
    hide Removed, LastIndex, OneLease, AllHeld, Backed;
    var keys := s.groups[g].keys;
    var t := GiveUp(s, g);
    RemovedSize(s.table, keys);
    RemovesItsOwn(s, g);
    LeaseMovesOut(s, g);
    forall k
      ensures k in t.table <==> k in s.table && k !in keys
      ensures k in t.table ==> t.table[k] == s.table[k]
    {
      RemovedAt(s.table, keys, k);
    }
    RemovalLeavesOthers(s.table, t.table, s.results, s.groups, t.groups, g);
  }

  lemma {:induction false} LeaseMovesOut(s: System, g: nat)
    requires OneLease(s.claimed, s.groups) && g < |s.groups|
    requires s.groups[g].phase.Failing? || s.groups[g].phase.Cancelling?
    ensures OneLease(s.claimed, s.groups[g := s.groups[g].(phase := Gone)])
  {
    LeaseMoves(s, g, Gone);
  }

  lemma {:induction false} TakeKeeps(s: System, key: Key)
    requires Inv(s) && key in s.table && s.table[key] in s.results
    ensures Inv(s.(table := s.table - {key}))
  {
    var t := s.(table := s.table - {key});
    assert t.table.Keys <= s.table.Keys;
    SubsetSize(t.table.Keys, s.table.Keys);
    forall h, k | 0 <= h < |t.groups| && !t.groups[h].phase.Gone? && k in t.groups[h].keys
      ensures HeldBy(t.table, t.results, t.groups, h, k)
    {
      assert HeldBy(s.table, s.results, s.groups, h, k);
    }
  }

  lemma {:induction false} ResultRecorded(results: set<Cell>, groups: seq<Group>, g: nat, done: nat)
    requires RecordedOnly(results, groups) && g < |groups| && groups[g].phase == Recording(done)
    ensures RecordedOnly(results + {Cell(g, done)}, groups[g := groups[g].(phase := Recording(done + 1))])
    ensures RecordedOnly(results, groups[g := groups[g].(phase := Finished)])
  {
  }

  /** Setting a result, or ending a worker, leaves every other reservation in place. */
  lemma {:induction false} ResultHolds(s: System, g: nat, phase: Phase, results: set<Cell>)
    requires AllHeld(s.table, s.results, s.groups) && Backed(s.table, s.groups)
    requires g < |s.groups| && !s.groups[g].phase.Gone? && !phase.Gone? && s.results <= results
    ensures AllHeld(s.table, results, s.groups[g := s.groups[g].(phase := phase)])
    ensures Backed(s.table, s.groups[g := s.groups[g].(phase := phase)])
  {
    var t := s.groups[g := s.groups[g].(phase := phase)];
    forall h, k | 0 <= h < |t| && !t[h].phase.Gone? && k in t[h].keys
      ensures HeldBy(s.table, results, t, h, k)
    {
      assert HeldBy(s.table, s.results, s.groups, h, k);
    }
  }

  lemma {:induction false} RecordKeeps(s: System, g: nat)
    requires Inv(s) && g < |s.groups| && s.groups[g].phase.Recording?
    ensures Inv(SetResult(s, g))
  {
    hide HeldBy, AllHeld, Backed, RecordedOnly;
    var done := s.groups[g].phase.done;
    ResultRecorded(s.results, s.groups, g, done);
    if done < |s.groups[g].keys| {
      LeaseMoves(s, g, Recording(done + 1));
      ResultHolds(s, g, Recording(done + 1), s.results + {Cell(g, done)});
    } else {
      LeaseMoves(s, g, Finished);
      ResultHolds(s, g, Finished, s.results);
    }
  }

  lemma {:induction false} ClaimKeeps(s: System, g: nat)
    requires Inv(s) && g < |s.groups| && s.groups[g].phase.Reserved?
    ensures Inv(ClaimLease(s, g))
  {
    if s.controlled && s.claimed {
      PhaseKeeps(s, g, Failing);
    } else {
      LeaseClaimed(s, g);
      MoveKeeps(s, g, s.groups[g].(phase := Admitting, lease := s.controlled), s.claimed || s.controlled);
    }
  }

  lemma {:induction false} PhaseKeeps(s: System, g: nat, phase: Phase)
    requires Inv(s) && g < |s.groups|
    requires s.groups[g].phase.Reserved? || s.groups[g].phase.Admitting? || s.groups[g].phase.Prepared?
    requires phase.Failing? || phase.Prepared? || phase.Running?
    requires s.groups[g].lease ==> !phase.Failing?
    ensures Inv(Update(s, g, s.groups[g].(phase := phase)))
  {
    LeaseMoves(s, g, phase);
    MoveKeeps(s, g, s.groups[g].(phase := phase), s.claimed);
  }

  lemma {:induction false} ReleaseKeeps(s: System, g: nat, phase: Phase)
    requires Inv(s) && g < |s.groups| && !phase.Gone?
    requires s.groups[g].phase.Admitting? || s.groups[g].phase.Prepared? || s.groups[g].phase.Running?
    ensures Inv(Release(s, g, phase))
  {
    LeaseReleased(s, g, phase);
    MoveKeeps(s, g, s.groups[g].(phase := phase, lease := false), s.claimed && !s.groups[g].lease);
  }

  /** Every step keeps the invariant. */
  lemma {:induction false} ApplyKeeps(s: System, step: Step)
    requires Inv(s)
    ensures Inv(Apply(s, step))
  {
    hide Inv;
    if Apply(s, step) != s {
      match step {
        case Reserve(keys) => ReserveKeeps(s, keys);
        case Take(key) => TakeKeeps(s, key);
        case Claim(g) => ClaimKeeps(s, g);
        case PrepareFails(g) => ReleaseKeeps(s, g, Failing);
        case PrepareSucceeds(g) => PhaseKeeps(s, g, Prepared);
        case RollBack(g) => RemovalKeeps(s, g);
        case StartRun(g) => PhaseKeeps(s, g, Running);
        case EndRun(g, complete) => ReleaseKeeps(s, g, if complete then Recording(0) else Finished);
        case Abandon(g) => ReleaseKeeps(s, g, Finished);
        case Record(g) => RecordKeeps(s, g);
        case Cancel(g) => ReleaseKeeps(s, g, Cancelling);
        case RemoveCancelled(g) => RemovalKeeps(s, g);
      }
    }
  }

  lemma {:induction false} SameCapacity(s: System, step: Step)
    ensures Apply(s, step).capacity == s.capacity
  {
  }

  lemma {:induction false} ExecuteCapacity(s: System, steps: seq<Step>)
    ensures Execute(s, steps).capacity == s.capacity
    decreases |steps|
  {
    if |steps| > 0 {
      SameCapacity(s, steps[0]);
      ExecuteCapacity(Apply(s, steps[0]), steps[1..]);
    }
  }

  /** Every run keeps the invariant. */
  lemma {:induction false} ExecuteKeeps(s: System, steps: seq<Step>)
    requires Inv(s)
    ensures Inv(Execute(s, steps))
    decreases |steps|
  {
    if |steps| > 0 {
      ApplyKeeps(s, steps[0]);
      ExecuteKeeps(Apply(s, steps[0]), steps[1..]);
    }
  }

  // ----- The promises -----

  /** In every run the receipts stay within the capacity, and at most one group holds the publisher lease. */
  lemma {:induction false} CapacityAndLease(capacity: nat, controlled: bool, steps: seq<Step>)
    ensures var s := Execute(Start(capacity, controlled), steps);
            && |s.table| <= capacity
            && (forall g, h :: 0 <= g < |s.groups| && 0 <= h < |s.groups| && s.groups[g].lease && s.groups[h].lease ==> g == h)
  {
    ExecuteKeeps(Start(capacity, controlled), steps);
    ExecuteCapacity(Start(capacity, controlled), steps);
  }

  /** The groups a step leaves alone. */
  lemma {:induction false} StepsOnGroup(s: System, step: Step, g: nat)
    requires g < |s.groups|
    ensures var t := Apply(s, step);
            && g < |t.groups| && t.groups[g].keys == s.groups[g].keys
            && (t.groups[g].phase.Gone? ==> s.groups[g].phase.Gone? || step == RollBack(g) || step == RemoveCancelled(g))
            && s.results <= t.results
  {
    hide Inserted, Removed, Admissible;
    match step {
      case Reserve(_) =>
      case Take(_) =>
      case Claim(_) =>
      case Record(_) =>
      case RollBack(_) =>
      case RemoveCancelled(_) =>
      case _ =>
    }
  }

  /** Until its result is set, only the group itself can remove a reservation, by rolling back or cancelling. */
  lemma {:induction false} NobodyElseRemoves(s: System, step: Step, g: nat, k: Key)
    requires Inv(s) && g < |s.groups| && !s.groups[g].phase.Gone? && k in s.groups[g].keys
    requires step != RollBack(g) && step != RemoveCancelled(g)
    ensures var t := Apply(s, step);
            var cell := Cell(g, LastIndex(s.groups[g].keys, k));
            cell !in t.results ==> k in t.table && t.table[k] == cell
  {
    var t := Apply(s, step);
    StepsOnGroup(s, step, g);
    ApplyKeeps(s, step);
    assert HeldBy(t.table, t.results, t.groups, g, k);
  }

  /** A failed preparation and a cancellation remove exactly the keys the group reserved, all of them still its own. */
  lemma {:induction false} RemovalIsExact(s: System, g: nat)
    requires Inv(s) && g < |s.groups| && (s.groups[g].phase.Failing? || s.groups[g].phase.Cancelling?)
    ensures var t := Apply(s, if s.groups[g].phase.Failing? then RollBack(g) else RemoveCancelled(g));
            && (forall k :: k in t.table <==> k in s.table && s.table[k].group != g)
            && (forall k :: k in t.table ==> t.table[k] == s.table[k])
            && (forall k :: k in s.groups[g].keys <==> k in s.table && s.table[k].group == g)
            && t.results == s.results && t.claimed == s.claimed
  {
    RemovesItsOwn(s, g);
    forall k
      ensures k in Removed(s.table, s.groups[g].keys) <==> k in s.table && k !in s.groups[g].keys
      ensures k in Removed(s.table, s.groups[g].keys) ==> Removed(s.table, s.groups[g].keys)[k] == s.table[k]
    {
      RemovedAt(s.table, s.groups[g].keys, k);
    }
  }

  /** A refused reservation changes nothing; a granted one adds exactly the group's keys. */
  lemma {:induction false} ReservationIsExact(s: System, keys: seq<Key>)
    requires Inv(s)
    ensures var t := Apply(s, Reserve(keys));
            if 0 < |keys| <= MAX_GROUPED_BUSES && Admissible(s.table, keys, s.capacity) then
              && (forall k :: k in t.table <==> k in s.table || k in keys)
              && (forall k :: k in s.table ==> t.table[k] == s.table[k])
              && (forall k :: k in keys ==> k !in s.table && t.table[k].group == |s.groups|)
            else t == s
  {
    forall k
      ensures k in Inserted(s.table, keys, |s.groups|) <==> k in s.table || k in keys
      ensures k in keys ==> Inserted(s.table, keys, |s.groups|)[k] == Cell(|s.groups|, LastIndex(keys, k))
      ensures k in s.table && k !in keys ==> Inserted(s.table, keys, |s.groups|)[k] == s.table[k]
    {
      InsertedAt(s.table, keys, |s.groups|, k);
    }
  }

  lemma {:induction false} FinishedStays(s: System, step: Step, g: nat)
    requires g < |s.groups| && s.groups[g].phase.Finished?
    ensures g < |Apply(s, step).groups| && Apply(s, step).groups[g] == s.groups[g]
  {
  }

  lemma {:induction false} FinishedGetsNoResult(s: System, step: Step, g: nat, i: nat)
    requires g < |s.groups| && s.groups[g].phase.Finished?
    ensures Cell(g, i) in Apply(s, step).results ==> Cell(g, i) in s.results
  {
  }

  /**
   A worker that ended without results can never have its receipts taken or removed: they occupy
   the registry in every later run.
   */
  lemma {:induction false} AbandonedReceiptsStay(s: System, steps: seq<Step>, g: nat, k: Key)
    requires Inv(s) && g < |s.groups| && s.groups[g].phase.Finished? && k in s.groups[g].keys
    requires Cell(g, LastIndex(s.groups[g].keys, k)) !in s.results
    ensures k in Execute(s, steps).table && Execute(s, steps).table[k] == Cell(g, LastIndex(s.groups[g].keys, k))
    decreases |steps|
  {
    hide Apply;
    if |steps| == 0 {
      assert HeldBy(s.table, s.results, s.groups, g, k);
    } else {
      ApplyKeeps(s, steps[0]);
      FinishedStays(s, steps[0], g);
      FinishedGetsNoResult(s, steps[0], g, LastIndex(s.groups[g].keys, k));
      AbandonedReceiptsStay(Apply(s, steps[0]), steps[1..], g, k);
    }
  }

  lemma {:induction false} TakeRemoves(s: System, k: Key)
    requires k in s.table && s.table[k] in s.results
    ensures k !in Execute(s, [Take(k)]).table
  {
    assert [Take(k)][1..] == [];
    assert Execute(Apply(s, Take(k)), []) == Apply(s, Take(k));
  }

  /** The receipt of a finished worker stays in every run if and only if its result was never set. */
  lemma {:induction false} ReceiptsStayExactlyWhen(s: System, g: nat, k: Key)
    requires Inv(s) && g < |s.groups| && s.groups[g].phase.Finished?
    requires k in s.table && s.table[k].group == g
    ensures (forall steps :: k in Execute(s, steps).table) <==> s.table[k] !in s.results
  {
    hide Execute, Apply;
    if s.table[k] in s.results {
      TakeRemoves(s, k);
    } else {
      forall steps: seq<Step>
        ensures k in Execute(s, steps).table
      {
        AbandonedReceiptsStay(s, steps, g, k);
      }
    }
  }

  /** Such a worker exists in every registry with room: prepared, then dropped, whatever its keys are. */
  lemma {:induction false} AbandonedWorkerExists(capacity: nat, controlled: bool, k: Key)
    requires capacity > 0
    ensures var s := Execute(Start(capacity, controlled), [Reserve([k]), Claim(0), PrepareSucceeds(0), Abandon(0)]);
            && |s.groups| == 1 && s.groups[0].phase.Finished? && !s.claimed
            && k in s.table && s.table[k] == Cell(0, 0) && s.table[k] !in s.results
  {
    var start := Start(capacity, controlled);
    var a := Apply(start, Reserve([k]));
    assert a.table == map[][k := Cell(0, 0)] by {
      assert [k][..0] == [];
      assert Inserted(map[], [], 0) == map[];
    }
    var b := Apply(a, Claim(0));
    var c := Apply(b, PrepareSucceeds(0));
    var d := Apply(c, Abandon(0));
    RunFour(start, Reserve([k]), Claim(0), PrepareSucceeds(0), Abandon(0));
  }

  lemma {:induction false} RunFour(s: System, p: Step, q: Step, r: Step, t: Step)
    ensures Execute(s, [p, q, r, t]) == Apply(Apply(Apply(Apply(s, p), q), r), t)
  {
    hide Apply;
    assert [p, q, r, t][1..] == [q, r, t] && [q, r, t][1..] == [r, t] && [r, t][1..] == [t] && [t][1..] == [];
    assert Execute(s, [p, q, r, t]) == Execute(Apply(s, p), [q, r, t]);
    assert Execute(Apply(s, p), [q, r, t]) == Execute(Apply(Apply(s, p), q), [r, t]);
    assert Execute(Apply(Apply(s, p), q), [r, t]) == Execute(Apply(Apply(Apply(s, p), q), r), [t]);
  }
}
