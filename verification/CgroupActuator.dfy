/** The transactional actuator: snapshot, create, limit, move, read back, and
    on any disagreement undo.  The backend follows the in-memory one of the
    repository, with an arbitrary schedule of failing calls. */
module CgroupActuator {
  import opened Wrappers
  import opened CgroupWorld

  datatype ActuatorError =
    | Capability
    | Blocked
    | Backend
    | Verification
    | Persistence

  datatype Capabilities = Capabilities(
    cgroupV2: bool,
    memoryController: bool,
    writable: bool,
    memoryLow: bool,
    memoryHigh: bool,
    attach: bool)
  {
    predicate MutationReady() {
      cgroupV2 && memoryController && writable && memoryLow && memoryHigh && attach
    }
  }

  datatype Operation =
    | Create(name: string)
    | Properties(name: string)
    | Attach(name: string, pid: Pid)
    | Cleanup(name: string)

  class CgroupBackend {
    const capabilities: Capabilities
    /** The numbers of the calls that fail, having done nothing. */
    const faults: set<nat>
    /** The numbers of the inspections that fail to report `memory.high`. */
    const misreads: set<nat>
    var calls: nat
    var groups: map<string, GroupState>
    var starts: map<Pid, nat>
    var placements: map<Pid, string>
    var operations: seq<Operation>

    constructor (capabilities: Capabilities, faults: set<nat>, misreads: set<nat>, world: World)
      ensures this.capabilities == capabilities
      ensures this.faults == faults && this.misreads == misreads
      ensures calls == 0 && operations == [] && State() == world
    {
      this.capabilities, this.faults, this.misreads := capabilities, faults, misreads;
      calls, operations := 0, [];
      groups, starts, placements := world.groups, world.starts, world.placements;
    }

    function State(): World
      reads this`groups, this`starts, this`placements
    {
      World(groups, starts, placements)
    }

    /** No call from here on misbehaves. */
    ghost predicate Quiet()
      reads this`calls
    {
      forall c | c >= calls :: c !in faults && c !in misreads
    }

    /** At most one call from here on misbehaves. */
    ghost predicate AlmostQuiet()
      reads this`calls
    {
      forall c, d | c >= calls && d >= calls ::
        (c in faults || c in misreads) && (d in faults || d in misreads) ==> c == d
    }

    /** One of `n` calls, the first of which has this number, fails. */
    predicate FailsIn(first: nat, n: nat) {
      exists c | first <= c < first + n :: c in faults
    }

    /** Call `attach` is the first to fail, and so does one of the six calls that
        follow it: those of a rollback up to the one that resets the limits. */
    predicate StrandsLimits(first: nat, attach: nat)
      requires first <= attach
    {
      !FailsIn(first, attach - first) && attach in faults && FailsIn(attach + 1, 6)
    }

    /** The first calls decide, or else it is as if they had not been made. */
    lemma StrandsAfter(first: nat, n: nat, attach: nat)
      requires first + n <= attach
      ensures StrandsLimits(first, attach) <==> !FailsIn(first, n) && StrandsLimits(first + n, attach)
    {
      FailsInSplits(first, n, attach - (first + n));
    }

    lemma FailsInSplits(first: nat, n: nat, m: nat)
      ensures FailsIn(first, n + m) <==> FailsIn(first, n) || FailsIn(first + n, m)
    {
      if FailsIn(first, n) {
        var c :| first <= c < first + n && c in faults;
        assert first <= c < first + (n + m) && c in faults;
      }
      if FailsIn(first + n, m) {
        var c :| first + n <= c < first + n + m && c in faults;
        assert first <= c < first + (n + m) && c in faults;
      }
    }

    method ReadCapabilities() returns (r: Result<Capabilities, ActuatorError>)
      modifies this`calls
      ensures calls == old(calls) + 1
      ensures r == if old(calls) in faults then Err(Backend) else Ok(capabilities)
    {
      var failing := calls in faults;
      calls := calls + 1;
      r := if failing then Err(Backend) else Ok(capabilities);
    }

    method InspectGroup(name: string) returns (r: Result<Option<GroupState>, ActuatorError>)
      modifies this`calls
      ensures calls == old(calls) + 1
      ensures old(calls) in faults <==> r.Err?
      ensures r.Ok? ==> (r.value.None? <==> name !in groups)
      ensures r.Ok? && name in groups && old(calls) !in misreads ==> r.value.value == groups[name]
      ensures r.Ok? && name in groups && old(calls) in misreads ==>
                r.value.value == groups[name].(limits := groups[name].limits.(memoryHigh := None))
    {
      var failing, misread := calls in faults, calls in misreads;
      calls := calls + 1;
      if failing {
        return Err(Backend);
      }
      var state := Lookup(groups, name);
      if misread && state.Some? {
        var limits := state.value.limits.(memoryHigh := None);
        state := Some(state.value.(limits := limits));
      }
      r := Ok(state);
    }

    method CreateManagedGroup(name: string) returns (r: Result<(), ActuatorError>)
      modifies this`calls, this`groups, this`operations
      ensures calls == old(calls) + 1
      ensures operations == old(operations) + [Create(name)]
      ensures r.Ok? <==> old(calls) !in faults && IsManagedName(name)
      ensures State() == if r.Ok? then old(State()).Created(name) else old(State())
    {
      var failing := calls in faults;
      calls := calls + 1;
      operations := operations + [Create(name)];
      if failing {
        return Err(Backend);
      }
      if !IsManagedName(name) {
        return Err(Blocked);
      }
      groups := groups[name := GroupState(true, NO_LIMITS, {})];
      r := Ok(());
    }

    method SetProperties(name: string, limits: Limits) returns (r: Result<(), ActuatorError>)
      modifies this`calls, this`groups, this`operations
      ensures calls == old(calls) + 1
      ensures operations == old(operations) + [Properties(name)]
      ensures r.Ok? <==> old(calls) !in faults && name in old(groups)
      ensures r.Ok? ==> State() == old(State()).WithLimits(name, limits)
      ensures r.Err? ==> State() == old(State())
    {
      var failing := calls in faults;
      calls := calls + 1;
      operations := operations + [Properties(name)];
      if failing || name !in groups {
        return Err(Backend);
      }
      groups := groups[name := groups[name].(limits := limits)];
      r := Ok(());
    }

    method AttachPid(name: string, pid: Pid) returns (r: Result<(), ActuatorError>)
      modifies this`calls, this`groups, this`placements, this`operations
      ensures calls == old(calls) + 1
      ensures operations == old(operations) + [Attach(name, pid)]
      ensures r.Ok? <==> old(calls) !in faults
      ensures State() == if r.Ok? then old(State()).Attached(name, pid) else old(State())
    {
      var failing := calls in faults;
      calls := calls + 1;
      operations := operations + [Attach(name, pid)];
      if failing {
        return Err(Backend);
      }
      var previous := Lookup(placements, pid);
      placements := placements[pid := name];
      if previous.Some? && previous.value in groups {
        var left := groups[previous.value];
        groups := groups[previous.value := left.(pids := left.pids - {pid})];
      }
      if name in groups {
        var joined := groups[name];
        groups := groups[name := joined.(pids := joined.pids + {pid})];
      }
      r := Ok(());
    }

    method ProcessStartTime(pid: Pid) returns (r: Result<Option<nat>, ActuatorError>)
      modifies this`calls
      ensures calls == old(calls) + 1
      ensures r == if old(calls) in faults then Err(Backend) else Ok(Lookup(starts, pid))
    {
      var failing := calls in faults;
      calls := calls + 1;
      r := if failing then Err(Backend) else Ok(Lookup(starts, pid));
    }

    method ProcessGroup(pid: Pid) returns (r: Result<Option<string>, ActuatorError>)
      modifies this`calls
      ensures calls == old(calls) + 1
      ensures r == if old(calls) in faults then Err(Backend) else Ok(Lookup(placements, pid))
    {
      var failing := calls in faults;
      calls := calls + 1;
      r := if failing then Err(Backend) else Ok(Lookup(placements, pid));
    }

    /** Not a call of the actuator: the process terminates. */
    method ProcessExits(pid: Pid)
      modifies this`groups, this`starts, this`placements
      ensures State() == Exited(old(State()), pid)
    {
      groups := map g | g in groups :: groups[g].(pids := groups[g].pids - {pid});
      starts, placements := starts - {pid}, placements - {pid};
    }

    method CleanupEmptyOwnedGroup(name: string) returns (r: Result<(), ActuatorError>)
      modifies this`calls, this`groups, this`operations
      ensures calls == old(calls) + 1
      ensures operations == old(operations) + [Cleanup(name)]
      ensures r.Ok? <==> old(calls) !in faults
      ensures State() == if r.Ok? then old(State()).Cleaned(name) else old(State())
    {
      var failing := calls in faults;
      calls := calls + 1;
      operations := operations + [Cleanup(name)];
      if failing {
        return Err(Backend);
      }
      if name in groups && groups[name].owned && groups[name].pids == {} {
        groups := groups - {name};
      }
      r := Ok(());
    }
  }

  /** The pending snapshots among ids 1..n, oldest first. */
  function PendingUpTo(snapshots: map<nat, Snapshot>, n: nat): seq<Snapshot> {
    if n == 0 then []
    else PendingUpTo(snapshots, n - 1)
         + if n in snapshots && snapshots[n].Pending() then [snapshots[n]] else []
  }

  lemma {:induction false} PendingUpToHolds(snapshots: map<nat, Snapshot>, n: nat)
    requires forall id | id in snapshots :: snapshots[id].id == id
    ensures forall s :: s in PendingUpTo(snapshots, n) <==>
              1 <= s.id <= n && s.id in snapshots && snapshots[s.id] == s && s.Pending()
    ensures forall i, j | 0 <= i < j < |PendingUpTo(snapshots, n)| ::
              PendingUpTo(snapshots, n)[i].id < PendingUpTo(snapshots, n)[j].id
  {
    if n > 0 {
      PendingUpToHolds(snapshots, n - 1);
      var before := PendingUpTo(snapshots, n - 1);
      forall i | 0 <= i < |before|
        ensures before[i].id < n
      {
        assert before[i] in before;
      }
    }
  }

  lemma PendingIsListed(snapshots: map<nat, Snapshot>, n: nat, pending: seq<Snapshot>)
    requires forall id | id in snapshots :: 1 <= id <= n && snapshots[id].id == id
    requires pending == PendingUpTo(snapshots, n)
    ensures Lists(pending, snapshots)
  {
    PendingUpToHolds(snapshots, n);
    forall i | 0 <= i < |pending|
      ensures pending[i].id in snapshots && snapshots[pending[i].id] == pending[i] && pending[i].Pending()
    {
      assert pending[i] in pending;
    }
  }

  class SnapshotStore {
    var nextId: nat
    var snapshots: map<nat, Snapshot>
    var managedGroups: set<string>

    ghost predicate Valid()
      reads this
    {
      forall id | id in snapshots :: 1 <= id <= nextId && snapshots[id].id == id
    }

    constructor ()
      ensures Valid() && nextId == 0 && snapshots == map[] && managedGroups == {}
    {
      nextId, snapshots, managedGroups := 0, map[], {};
    }

    function Pending(): seq<Snapshot>
      reads this
    {
      PendingUpTo(snapshots, nextId)
    }

    method Persist(snapshot: Snapshot) returns (id: nat)
      requires Valid()
      modifies this`nextId, this`snapshots
      ensures Valid()
      ensures id == nextId == old(nextId) + 1
      ensures snapshots == old(snapshots)[id := snapshot.(id := id)]
    {
      nextId := nextId + 1;
      snapshots := snapshots[nextId := snapshot.(id := nextId)];
      id := nextId;
    }

    method Update(snapshot: Snapshot) returns (r: Result<(), ActuatorError>)
      requires Valid()
      modifies this`snapshots
      ensures Valid()
      ensures r.Ok? <==> snapshot.id in old(snapshots)
      ensures snapshots == if r.Ok? then old(snapshots)[snapshot.id := snapshot] else old(snapshots)
    {
      if snapshot.id !in snapshots {
        return Err(Persistence);
      }
      snapshots := snapshots[snapshot.id := snapshot];
      r := Ok(());
    }

    method RecordManagedGroup(name: string)
      modifies this`managedGroups
      ensures managedGroups == old(managedGroups) + {name}
    {
      managedGroups := managedGroups + {name};
    }

    method RemoveManagedGroup(name: string)
      modifies this`managedGroups
      ensures managedGroups == old(managedGroups) - {name}
    {
      managedGroups := managedGroups - {name};
    }
  }

  ghost predicate OnlyRecordChanged(before: map<nat, Snapshot>, after: map<nat, Snapshot>, id: nat) {
    id in after && after == before[id := after[id]]
  }

  /** First half of a rollback: the process, if it is still the same one, goes
      back to its original group; nothing happens when that group is gone. */
  method ReturnProcess(backend: CgroupBackend, snapshot: Snapshot)
    returns (r: Result<(), ActuatorError>)
    modifies backend
    ensures backend.calls >= old(backend.calls)
    ensures r.Ok? ==>
              && (old(Live(backend.State(), snapshot)) ==> snapshot.originalGroup in old(backend.groups))
              && backend.State() == Returned(old(backend.State()), snapshot)
    ensures r.Err? ==> backend.State() == old(backend.State())
    ensures old(Live(backend.State(), snapshot)) && snapshot.originalGroup !in old(backend.groups) ==>
              r.Err? && backend.operations == old(backend.operations)
    ensures old(Live(backend.State(), snapshot)) && snapshot.originalGroup in old(backend.groups) ==>
              && (r.Err? <==> backend.FailsIn(old(backend.calls), 4))
              && (r.Ok? ==> backend.calls == old(backend.calls) + 4)
    ensures (old(backend.Quiet())
             && (old(Live(backend.State(), snapshot)) ==> snapshot.originalGroup in old(backend.groups)))
            ==> r.Ok?
  {
    var start := backend.ProcessStartTime(snapshot.pid);
    if start.Err? {
      return Err(start.error);
    }
    if start.value == Some(snapshot.startTicks) {
      var placed := backend.ProcessGroup(snapshot.pid);
      if placed.Err? {
        return Err(placed.error);
      }
      if placed.value.Some? {
        var original := backend.InspectGroup(snapshot.originalGroup);
        if original.Err? {
          return Err(original.error);
        }
        if original.value.None? {
          return Err(Blocked);
        }
        r := backend.AttachPid(snapshot.originalGroup, snapshot.pid);
        return;
      }
    }
    r := Ok(());
  }

  /** Second half: the target group gets its limits back, and goes away when it
      is ours and empty. */
  method RestoreTarget(backend: CgroupBackend, store: SnapshotStore, snapshot: Snapshot)
    returns (r: Result<(), ActuatorError>)
    requires IsManagedName(snapshot.targetGroup)
    modifies backend, store`managedGroups
    ensures backend.calls >= old(backend.calls)
    ensures backend.starts == old(backend.starts) && backend.placements == old(backend.placements)
    ensures r.Ok? ==> backend.State() == TargetRestored(old(backend.State()), snapshot)
    ensures r.Ok? ==>
              store.managedGroups ==
                if snapshot.targetGroup in old(backend.groups) && snapshot.targetGroup !in backend.groups
                then old(store.managedGroups) - {snapshot.targetGroup}
                else old(store.managedGroups)
    ensures r.Err? ==> store.managedGroups == old(store.managedGroups)
    ensures UnmanagedKept(old(backend.State()), backend.State())
    ensures snapshot.targetGroup in old(backend.groups) ==>
              if backend.FailsIn(old(backend.calls), 2) then r.Err? && backend.State() == old(backend.State())
              else LimitedIfThere(backend.State(), snapshot.targetGroup, snapshot.originalLimits)
    ensures old(backend.State().Consistent()) ==> backend.State().Consistent()
    ensures old(backend.Quiet()) ==> r.Ok?
  {
    ghost var before := backend.State();
    var target := backend.InspectGroup(snapshot.targetGroup);
    if target.Err? {
      return Err(target.error);
    }
    if target.value.Some? {
      var limited := backend.SetProperties(snapshot.targetGroup, snapshot.originalLimits);
      if limited.Err? {
        return limited;
      }
      RestorationIsSafe(before, snapshot);
      var cleaned := backend.CleanupEmptyOwnedGroup(snapshot.targetGroup);
      if cleaned.Err? {
        return cleaned;
      }
      var remaining := backend.InspectGroup(snapshot.targetGroup);
      if remaining.Err? {
        return Err(remaining.error);
      }
      if remaining.value.None? {
        store.RemoveManagedGroup(snapshot.targetGroup);
      }
    }
    r := Ok(());
  }

  /** Undo one snapshot.  Whatever calls fail: success means the whole rollback
      happened and is recorded, failure leaves the record as it was, and at no
      point does the process sit anywhere but where it was or where it belongs. */
  method RollbackOne(backend: CgroupBackend, store: SnapshotStore, snapshot: Snapshot)
    returns (r: Result<(), ActuatorError>, undone: Snapshot)
    requires store.Valid()
    modifies backend, store`snapshots, store`managedGroups
    ensures store.Valid()
    ensures backend.calls >= old(backend.calls)
    ensures snapshot.rolledBack ==>
              r.Ok? && undone == snapshot && backend.State() == old(backend.State())
              && store.snapshots == old(store.snapshots)
    // success is the complete rollback, recorded
    ensures r.Ok? && !snapshot.rolledBack ==>
              && old(RollbackAllowed(backend.State(), snapshot))
              && backend.State() == RolledBack(old(backend.State()), snapshot)
              && undone == snapshot.(rolledBack := true)
              && store.snapshots == old(store.snapshots)[snapshot.id := undone]
    // failure keeps the snapshot and never displaces a process
    ensures r.Err? ==> store.snapshots == old(store.snapshots)
    ensures r.Err? ==> SafelyInterrupted(old(backend.State()), snapshot, backend.State())
    ensures old(backend.State().Consistent()) ==> backend.State().Consistent()
    // a refused rollback touches nothing
    ensures !snapshot.rolledBack && !old(RollbackAllowed(backend.State(), snapshot)) ==>
              && r.Err?
              && backend.State() == old(backend.State())
              && backend.operations == old(backend.operations)
    // the limits are reset exactly when the first six calls do not fail
    ensures (!snapshot.rolledBack && IsManagedName(snapshot.targetGroup) && old(Live(backend.State(), snapshot))
             && snapshot.originalGroup in old(backend.groups) && snapshot.targetGroup in old(backend.groups)) ==>
              if backend.FailsIn(old(backend.calls), 6) then
                && snapshot.targetGroup in backend.groups
                && backend.groups[snapshot.targetGroup].limits == old(backend.groups[snapshot.targetGroup].limits)
              else LimitedIfThere(backend.State(), snapshot.targetGroup, snapshot.originalLimits)
    // without failing calls, an allowed rollback completes
    ensures (old(backend.Quiet())
             && old(RollbackAllowed(backend.State(), snapshot))
             && snapshot.id in old(store.snapshots)) ==> r.Ok?
  {
    undone := snapshot;
    if snapshot.rolledBack {
      return Ok(()), undone;
    }
    if !IsManagedName(snapshot.targetGroup) {
      return Err(Blocked), undone;
    }
    ghost var before := backend.State();
    r := ReturnProcess(backend, snapshot);
    if r.Err? {
      return;
    }
    ReturnedIsSafe(before, snapshot);
    ReturnedKeepsLimits(before, snapshot);
    ghost var returned := backend.State();
    r := RestoreTarget(backend, store, snapshot);
    SafeUnderGroupChanges(before, snapshot, returned, backend.State());
    if r.Err? {
      return;
    }
    undone := snapshot.(rolledBack := true);
    r := store.Update(undone);
  }

  datatype CgroupPlan = CgroupPlan(
    pid: Pid,
    startTicks: nat,
    targetGroup: string,
    limits: Limits,
    allowed: bool,
    dryRun: bool)

  /** The plan asks for a mutation the actuator is willing to attempt. */
  predicate Admissible(plan: CgroupPlan) {
    plan.allowed && IsManagedName(plan.targetGroup)
  }

  /** Everything the guards of apply look at is in order. */
  predicate Ready(w: World, capabilities: Capabilities, plan: CgroupPlan) {
    && capabilities.MutationReady()
    && plan.pid in w.starts && w.starts[plan.pid] == plan.startTicks
    && plan.pid in w.placements
  }

  /** The pending record that still knows where the process belongs. */
  ghost predicate Recorded(s: Snapshot, w: World, plan: CgroupPlan) {
    && s.Pending()
    && s.pid == plan.pid && s.startTicks == plan.startTicks
    && Live(w, s) && s.originalGroup == w.placements[plan.pid]
    && s.targetGroup == plan.targetGroup
  }

  /** The guards of apply, and the snapshot it takes before mutating. */
  method TakeSnapshot(backend: CgroupBackend, plan: CgroupPlan)
    returns (r: Result<Snapshot, ActuatorError>)
    requires Admissible(plan)
    modifies backend`calls
    ensures backend.calls > old(backend.calls)
    ensures r.Ok? ==> Ready(backend.State(), backend.capabilities, plan)
    ensures r.Ok? ==> backend.calls == old(backend.calls) + 4 && !backend.FailsIn(old(backend.calls), 4)
    ensures r.Err? && Ready(backend.State(), backend.capabilities, plan) ==> backend.FailsIn(old(backend.calls), 4)
    ensures r.Ok? && old(backend.calls) + 3 !in backend.misreads ==>
              r.value == SnapshotOf(backend.State(), 0, plan.pid, plan.targetGroup, plan.limits)
    ensures r.Ok? ==>
              var exact := SnapshotOf(backend.State(), 0, plan.pid, plan.targetGroup, plan.limits);
              r.value == exact.(originalLimits := r.value.originalLimits)
    ensures r.Ok? && backend.misreads == {} ==>
              r.value == SnapshotOf(backend.State(), 0, plan.pid, plan.targetGroup, plan.limits)
    ensures (r.Ok?
             && r.value != SnapshotOf(backend.State(), 0, plan.pid, plan.targetGroup, plan.limits)
             && old(backend.AlmostQuiet())) ==> backend.Quiet()
    ensures old(backend.Quiet()) && Ready(backend.State(), backend.capabilities, plan) ==>
              r == Ok(SnapshotOf(backend.State(), 0, plan.pid, plan.targetGroup, plan.limits))
  {
    var capabilities := backend.ReadCapabilities();
    if capabilities.Err? {
      return Err(capabilities.error);
    }
    if !capabilities.value.MutationReady() {
      return Err(Capability);
    }
    var start := backend.ProcessStartTime(plan.pid);
    if start.Err? {
      return Err(start.error);
    }
    if start.value != Some(plan.startTicks) {
      return Err(Blocked);
    }
    var original := backend.ProcessGroup(plan.pid);
    if original.Err? {
      return Err(original.error);
    }
    if original.value.None? {
      return Err(Blocked);
    }
    var target := backend.InspectGroup(plan.targetGroup);
    if target.Err? {
      return Err(target.error);
    }
    var limits := if target.value.Some? then target.value.value.limits else NO_LIMITS;
    r := Ok(Snapshot(0, plan.pid, plan.startTicks, original.value.value, plan.targetGroup,
                     limits, plan.limits, false, false, false, false));
  }

  /** Record the failure, roll back, and hand the failure on (or the failure of
      the rollback itself). */
  method Abandon(backend: CgroupBackend, store: SnapshotStore, snapshot: Snapshot, error: ActuatorError)
    returns (final: ActuatorError)
    requires store.Valid() && snapshot.id in store.snapshots && !snapshot.rolledBack
    modifies backend, store`snapshots, store`managedGroups
    ensures store.Valid() && backend.calls >= old(backend.calls)
    ensures OnlyRecordChanged(old(store.snapshots), store.snapshots, snapshot.id)
    ensures SafelyInterrupted(old(backend.State()), snapshot, backend.State())
    ensures Lookup(old(backend.placements), snapshot.pid) == Some(snapshot.originalGroup) ==>
              backend.placements == old(backend.placements)
    // either fully undone, or the record still stands
    ensures var failed := snapshot.(lastError := true);
      || (&& store.snapshots[snapshot.id] == failed.(rolledBack := true)
          && old(RollbackAllowed(backend.State(), snapshot))
          && backend.State() == RolledBack(old(backend.State()), snapshot))
      || store.snapshots[snapshot.id] == failed
    ensures old(backend.State().Consistent()) ==> backend.State().Consistent()
    ensures (IsManagedName(snapshot.targetGroup) && old(Live(backend.State(), snapshot))
             && snapshot.originalGroup in old(backend.groups) && snapshot.targetGroup in old(backend.groups)) ==>
              if backend.FailsIn(old(backend.calls), 6) then
                && snapshot.targetGroup in backend.groups
                && backend.groups[snapshot.targetGroup].limits == old(backend.groups[snapshot.targetGroup].limits)
              else LimitedIfThere(backend.State(), snapshot.targetGroup, snapshot.originalLimits)
    ensures old(backend.Quiet()) && old(RollbackAllowed(backend.State(), snapshot)) ==>
              backend.State() == RolledBack(old(backend.State()), snapshot)
  {
    var failed := snapshot.(lastError := true);
    ghost var before := backend.State();
    SameRollback(before, snapshot, failed);
    var recorded := store.Update(failed);
    var r, _ := RollbackOne(backend, store, failed);
    if Lookup(before.placements, snapshot.pid) == Some(snapshot.originalGroup) {
      SafeAtHomeMeansUnmoved(before, snapshot, backend.State());
    }
    final := if r.Err? then r.error else error;
  }

  /** Create the target group unless it is already there. */
  method EnsureTarget(backend: CgroupBackend, store: SnapshotStore, name: string)
    returns (r: Result<(), ActuatorError>)
    requires IsManagedName(name)
    modifies backend, store`managedGroups
    ensures backend.calls > old(backend.calls)
    ensures backend.State() == if r.Ok? then Prepared(old(backend.State()), name) else old(backend.State())
    ensures store.managedGroups ==
              old(store.managedGroups) + if r.Ok? && name !in old(backend.groups) then {name} else {}
    ensures r.Err? <==> backend.FailsIn(old(backend.calls), if name in old(backend.groups) then 1 else 2)
    ensures r.Ok? ==> backend.calls == old(backend.calls) + if name in old(backend.groups) then 1 else 2
    ensures old(backend.Quiet()) ==> r.Ok?
  {
    var present := backend.InspectGroup(name);
    if present.Err? {
      return Err(present.error);
    }
    if present.value.None? {
      var created := backend.CreateManagedGroup(name);
      if created.Err? {
        return created;
      }
      store.RecordManagedGroup(name);
    }
    r := Ok(());
  }

  /** Give up before the move: the process has not left its group, and unless a
      second call fails the target is as it was, or gone if it was empty. */
  method AbandonInstall(backend: CgroupBackend, store: SnapshotStore, taken: Snapshot, error: ActuatorError,
                        ghost before: World)
    returns (final: ActuatorError)
    requires store.Valid() && taken.id in store.snapshots && !taken.rolledBack && !taken.applied
    requires IsManagedName(taken.targetGroup)
    requires Lookup(before.placements, taken.pid) == Some(taken.originalGroup)
    requires || backend.State() == Prepared(before, taken.targetGroup)
             || backend.State() == Prepared(before, taken.targetGroup)
                                     .WithLimits(taken.targetGroup, taken.requestedLimits)
    modifies backend, store`snapshots, store`managedGroups
    ensures store.Valid() && backend.calls >= old(backend.calls)
    ensures OnlyRecordChanged(old(store.snapshots), store.snapshots, taken.id)
    ensures !store.snapshots[taken.id].applied
    ensures backend.placements == before.placements && OnlyMoved(before, taken.pid, backend.State())
    ensures before.Consistent() ==> backend.State().Consistent()
    ensures (old(backend.Quiet()) && before.Consistent()
             && taken.originalLimits == LimitsOf(before, taken.targetGroup)
             && taken.originalGroup != taken.targetGroup) ==>
              backend.State() == before.Cleaned(taken.targetGroup)
    ensures before.Consistent() && Lookup(before.starts, taken.pid) == Some(taken.startTicks) ==>
              if backend.FailsIn(old(backend.calls), 6) then
                && taken.targetGroup in backend.groups
                && backend.groups[taken.targetGroup].limits == old(LimitsOf(backend.State(), taken.targetGroup))
              else LimitedIfThere(backend.State(), taken.targetGroup, taken.originalLimits)
  {
    if before.Consistent() {
      PreparedKeepsConsistency(before, taken.targetGroup, taken.requestedLimits);
      if taken.originalLimits == LimitsOf(before, taken.targetGroup) && taken.originalGroup != taken.targetGroup {
        RollbackUndoesPreparation(before, taken);
      }
    }
    ghost var prepared := backend.State();
    final := Abandon(backend, store, taken, error);
    InterruptedBeforeMove(before, taken, prepared, backend.State());
  }

  /** The number of calls of an installation before the one that attaches. */
  function CallsBeforeAttach(target: string, groups: map<string, GroupState>): nat {
    if target in groups then 2 else 3
  }

  /** The limits an attempt that failed leaves on its target. */
  ghost predicate LimitsLeft(v: World, before: World, target: string, requested: Limits, stranded: bool) {
    if stranded then target in v.groups && v.groups[target].limits == requested
    else LimitedIfThere(v, target, LimitsOf(before, target))
  }

  lemma CleanedLeavesLimits(w: World, target: string, requested: Limits)
    ensures LimitsLeft(w.Cleaned(target), w, target, requested, false)
    ensures LimitsLeft(w, w, target, requested, false)
  {
  }

  /** The snapshot tells the truth about a live process elsewhere. */
  ghost predicate Truthful(w: World, taken: Snapshot) {
    && w.Consistent()
    && Lookup(w.starts, taken.pid) == Some(taken.startTicks)
    && taken.originalLimits == LimitsOf(w, taken.targetGroup)
  }

  /** What an installation that failed leaves. */
  ghost predicate NotInstalled(before: World, taken: Snapshot, v: World, snapshots: map<nat, Snapshot>) {
    && taken.id in snapshots && !snapshots[taken.id].applied
    && v.placements == before.placements
    && OnlyMoved(before, taken.pid, v)
    && (before.Consistent() ==> v.Consistent())
  }

  /** Create and limit the target; a failure to limit it is undone at once. */
  method PrepareTarget(backend: CgroupBackend, store: SnapshotStore, taken: Snapshot)
    returns (r: Result<(), ActuatorError>)
    requires store.Valid() && taken.id in store.snapshots && store.snapshots[taken.id] == taken
    requires !taken.rolledBack && !taken.applied
    requires IsManagedName(taken.targetGroup)
    requires Lookup(backend.placements, taken.pid) == Some(taken.originalGroup)
    modifies backend, store`snapshots, store`managedGroups
    ensures store.Valid() && backend.calls >= old(backend.calls)
    ensures OnlyRecordChanged(old(store.snapshots), store.snapshots, taken.id)
    ensures r.Err? <==> backend.FailsIn(old(backend.calls), CallsBeforeAttach(taken.targetGroup, old(backend.groups)))
    ensures r.Ok? ==>
              && backend.calls == old(backend.calls) + CallsBeforeAttach(taken.targetGroup, old(backend.groups))
              && backend.State() == Prepared(old(backend.State()), taken.targetGroup)
                                      .WithLimits(taken.targetGroup, taken.requestedLimits)
              && store.snapshots == old(store.snapshots)
    ensures r.Err? ==> NotInstalled(old(backend.State()), taken, backend.State(), store.snapshots)
    ensures (r.Err? && old(backend.AlmostQuiet()) && Truthful(old(backend.State()), taken)
             && taken.originalGroup != taken.targetGroup) ==>
              || backend.State() == old(backend.State())
              || backend.State() == old(backend.State().Cleaned(taken.targetGroup))
    ensures r.Err? && Truthful(old(backend.State()), taken) ==>
              LimitsLeft(backend.State(), old(backend.State()), taken.targetGroup, taken.requestedLimits, false)
  {
    ghost var before := backend.State();
    var present := EnsureTarget(backend, store, taken.targetGroup);
    if present.Err? {
      return present;
    }
    var limited := backend.SetProperties(taken.targetGroup, taken.requestedLimits);
    if limited.Err? {
      assert old(backend.AlmostQuiet()) ==> backend.Quiet();
      var error := AbandonInstall(backend, store, taken, limited.error, before);
      return Err(error);
    }
    r := Ok(());
  }

  /** Create, limit and move; any failure on the way is undone at once. */
  method Install(backend: CgroupBackend, store: SnapshotStore, taken: Snapshot)
    returns (r: Result<(), ActuatorError>)
    requires store.Valid() && taken.id in store.snapshots && store.snapshots[taken.id] == taken
    requires !taken.rolledBack && !taken.applied
    requires IsManagedName(taken.targetGroup)
    requires Lookup(backend.placements, taken.pid) == Some(taken.originalGroup)
    modifies backend, store`snapshots, store`managedGroups
    ensures store.Valid() && backend.calls >= old(backend.calls)
    ensures OnlyRecordChanged(old(store.snapshots), store.snapshots, taken.id)
    ensures r.Ok? ==>
              && backend.State() == Applied(old(backend.State()), taken.targetGroup, taken.requestedLimits, taken.pid)
              && store.snapshots == old(store.snapshots)
    ensures r.Err? ==> NotInstalled(old(backend.State()), taken, backend.State(), store.snapshots)
    ensures (r.Err? && old(backend.AlmostQuiet()) && Truthful(old(backend.State()), taken)
             && taken.originalGroup != taken.targetGroup) ==>
              || backend.State() == old(backend.State())
              || backend.State() == old(backend.State().Cleaned(taken.targetGroup))
    // requested limits stay behind without a record exactly for one pattern of failures
    ensures var attach := old(backend.calls) + CallsBeforeAttach(taken.targetGroup, old(backend.groups));
      && (r.Ok? ==> attach !in backend.faults)
      && (r.Err? && Truthful(old(backend.State()), taken) ==>
            LimitsLeft(backend.State(), old(backend.State()), taken.targetGroup, taken.requestedLimits,
                       backend.StrandsLimits(old(backend.calls), attach)))
    ensures old(backend.Quiet()) ==> r.Ok?
  {
    ghost var before := backend.State();
    r := PrepareTarget(backend, store, taken);
    if r.Err? {
      return;
    }
    var moved := backend.AttachPid(taken.targetGroup, taken.pid);
    if moved.Err? {
      assert old(backend.AlmostQuiet()) ==> backend.Quiet();
      var error := AbandonInstall(backend, store, taken, moved.error, before);
      return Err(error);
    }
  }

  /** Give up after the move: either everything is undone, or the pending record
      still stands. */
  method AbandonApplied(backend: CgroupBackend, store: SnapshotStore, applied: Snapshot, error: ActuatorError,
                        ghost before: World)
    returns (final: ActuatorError)
    requires store.Valid() && applied.id in store.snapshots && !applied.rolledBack
    requires IsManagedName(applied.targetGroup)
    requires Lookup(before.placements, applied.pid) == Some(applied.originalGroup)
    requires Lookup(before.starts, applied.pid) == Some(applied.startTicks)
    requires backend.State() == Applied(before, applied.targetGroup, applied.requestedLimits, applied.pid)
    modifies backend, store`snapshots, store`managedGroups
    ensures store.Valid()
    ensures OnlyRecordChanged(old(store.snapshots), store.snapshots, applied.id)
    ensures OnlyMoved(before, applied.pid, backend.State())
    ensures before.Consistent() ==> backend.State().Consistent()
    ensures store.snapshots[applied.id] != applied.(lastError := true) ==>
              && store.snapshots[applied.id].rolledBack
              && backend.placements[applied.pid] == applied.originalGroup
              && ((before.Consistent()
                   && applied.originalLimits == LimitsOf(before, applied.targetGroup)
                   && applied.originalGroup != applied.targetGroup) ==>
                    backend.State() == before.Cleaned(applied.targetGroup))
  {
    if before.Consistent() {
      AppliedKeepsConsistency(before, applied.targetGroup, applied.requestedLimits, applied.pid);
      if applied.originalLimits == LimitsOf(before, applied.targetGroup)
         && applied.originalGroup != applied.targetGroup {
        RollbackUndoesApply(before, applied);
      }
    }
    RolledBackFrame(backend.State(), applied);
    final := Abandon(backend, store, applied, error);
    InterruptedAfterApply(before, applied, backend.State());
  }

  /** Read the target back; if it is not what was asked for, undo. */
  method VerifyReadback(backend: CgroupBackend, store: SnapshotStore, applied: Snapshot, ghost before: World)
    returns (r: Result<Snapshot, ActuatorError>)
    requires store.Valid() && applied.id in store.snapshots && store.snapshots[applied.id] == applied
    requires applied.Pending() && IsManagedName(applied.targetGroup)
    requires Lookup(before.placements, applied.pid) == Some(applied.originalGroup)
    requires Lookup(before.starts, applied.pid) == Some(applied.startTicks)
    requires backend.State() == Applied(before, applied.targetGroup, applied.requestedLimits, applied.pid)
    modifies backend, store`snapshots, store`managedGroups
    ensures store.Valid()
    ensures OnlyRecordChanged(old(store.snapshots), store.snapshots, applied.id)
    ensures OnlyMoved(before, applied.pid, backend.State())
    ensures before.Consistent() ==> backend.State().Consistent()
    ensures r.Ok? ==>
              && backend.State() == old(backend.State())
              && r.value == applied.(verified := true)
              && store.snapshots[applied.id] == r.value
    ensures r.Err? ==>
              || store.snapshots[applied.id] == applied
              || store.snapshots[applied.id] == applied.(lastError := true)
              || (&& store.snapshots[applied.id].rolledBack
                  && backend.placements[applied.pid] == applied.originalGroup
                  && ((before.Consistent()
                       && applied.originalLimits == LimitsOf(before, applied.targetGroup)
                       && applied.originalGroup != applied.targetGroup) ==>
                        backend.State() == before.Cleaned(applied.targetGroup)))
    ensures old(backend.Quiet()) ==> r.Ok?
  {
    if before.Consistent() {
      AppliedKeepsConsistency(before, applied.targetGroup, applied.requestedLimits, applied.pid);
    }
    var readback := backend.InspectGroup(applied.targetGroup);
    if readback.Err? {
      return Err(readback.error);
    }
    if readback.value.None? {
      return Err(Verification);
    }
    var state := readback.value.value;
    if applied.pid !in state.pids || state.limits != applied.requestedLimits {
      var error := AbandonApplied(backend, store, applied, Verification, before);
      return Err(error);
    }
    var verified := applied.(verified := true);
    var recorded := store.Update(verified);
    r := Ok(verified);
  }

  /** What an attempt to apply an admissible plan may have done to the record:
      added the one snapshot, which is only pending if it is right. */
  ghost predicate OneSnapshotAdded(before: map<nat, Snapshot>, after: map<nat, Snapshot>, id: nat,
                                   w: World, plan: CgroupPlan)
  {
    && id !in before
    && (after == before || (id in after && after == before[id := after[id]]))
    && (id in after && after[id].Pending() ==> Recorded(after[id], w, plan))
  }

  /** A snapshot that only differs from the one taken in its bookkeeping still knows
      where the process belongs. */
  lemma PendingIsRecorded(taken: Snapshot, s: Snapshot, w: World, capabilities: Capabilities, plan: CgroupPlan)
    requires Ready(w, capabilities, plan)
    requires taken == SnapshotOf(w, taken.id, plan.pid, plan.targetGroup, plan.limits)
                        .(originalLimits := taken.originalLimits)
    requires s.Pending() ==>
               s == taken.(id := s.id, applied := s.applied, verified := s.verified, lastError := s.lastError)
    ensures s.Pending() ==> Recorded(s, w, plan)
  {
  }

  lemma RecordChangesAdd(a: map<nat, Snapshot>, b: map<nat, Snapshot>, c: map<nat, Snapshot>, id: nat)
    requires OnlyRecordChanged(a, b, id) && OnlyRecordChanged(b, c, id)
    ensures OnlyRecordChanged(a, c, id)
  {
  }

  lemma AttemptIsAttempted(w: World, recorded: map<nat, Snapshot>, id: nat, plan: CgroupPlan, v: World,
                           after: map<nat, Snapshot>)
    requires w.Consistent() ==> v.Consistent()
    requires OnlyMoved(w, plan.pid, v)
    requires id !in recorded && OnlyRecordChanged(recorded, after, id)
    requires after[id].Pending() ==> Recorded(after[id], w, plan)
    ensures Attempted(w, recorded, id, plan, v, after)
  {
  }

  /** What any attempt leaves, successful or not. */
  ghost predicate Attempted(w: World, recorded: map<nat, Snapshot>, id: nat, plan: CgroupPlan, v: World,
                            after: map<nat, Snapshot>)
  {
    && (w.Consistent() ==> v.Consistent())
    && OnlyMoved(w, plan.pid, v)
    && OneSnapshotAdded(recorded, after, id, w, plan)
  }

  predicate OnPendingRecord(snapshots: map<nat, Snapshot>, id: nat) {
    id in snapshots && snapshots[id].Pending()
  }

  /** Success is exactly the requested change, recorded as verified and pending. */
  ghost predicate Committed(w: World, recorded: map<nat, Snapshot>, id: nat, plan: CgroupPlan, v: World,
                            after: map<nat, Snapshot>, s: Snapshot)
  {
    && v == Applied(w, plan.targetGroup, plan.limits, plan.pid)
    && after == recorded[id := s]
    && s.Pending() && s.verified
  }

  /** Nothing happened, or only an empty target is gone, or the record stands. */
  ghost predicate UndoneOrRecorded(w: World, target: string, v: World, after: map<nat, Snapshot>, id: nat) {
    v == w || v == w.Cleaned(target) || OnPendingRecord(after, id)
  }

  /** The mutation proper: persist the snapshot, install, mark it applied, read
      back.  The ghost arguments are the state and the record it starts from, the
      number of its snapshot and that of the first call of the transaction. */
  method Mutate(backend: CgroupBackend, store: SnapshotStore, plan: CgroupPlan, taken: Snapshot,
                ghost w: World, ghost recorded: map<nat, Snapshot>, ghost id: nat, ghost first: nat)
    returns (r: Result<Snapshot, ActuatorError>)
    requires store.Valid() && Admissible(plan)
    requires w == backend.State() && recorded == store.snapshots && id == store.nextId + 1
    requires first + 4 == backend.calls && !backend.FailsIn(first, 4)
    requires Ready(w, backend.capabilities, plan)
    requires taken == SnapshotOf(w, taken.id, plan.pid, plan.targetGroup, plan.limits)
                        .(originalLimits := taken.originalLimits)
    modifies backend, store
    ensures store.Valid()
    ensures Attempted(w, recorded, id, plan, backend.State(), store.snapshots)
    ensures r.Err? ==>
              || Lookup(backend.placements, plan.pid) == Lookup(w.placements, plan.pid)
              || OnPendingRecord(store.snapshots, id)
    ensures r.Ok? ==>
              && Committed(w, recorded, id, plan, backend.State(), store.snapshots, r.value)
              && r.value == taken.(id := id, applied := true, verified := true)
    ensures r.Err? && old(backend.AlmostQuiet()) && Truthful(w, taken) && taken.originalGroup != plan.targetGroup ==>
              UndoneOrRecorded(w, plan.targetGroup, backend.State(), store.snapshots, id)
    ensures OnPendingRecord(store.snapshots, id) ==> store.snapshots[id].originalLimits == taken.originalLimits
    ensures (r.Err? && Truthful(w, taken) && taken.originalGroup != plan.targetGroup
             && !OnPendingRecord(store.snapshots, id)) ==>
              LimitsLeft(backend.State(), w, plan.targetGroup, plan.limits,
                         backend.StrandsLimits(first, first + 4 + CallsBeforeAttach(plan.targetGroup, w.groups)))
    ensures old(backend.Quiet()) ==> r.Ok?
  {
    ghost var attach := first + 4 + CallsBeforeAttach(plan.targetGroup, w.groups);
    backend.StrandsAfter(first, 4, attach);
    var number := store.Persist(taken);
    ghost var persisting := store.snapshots;
    var persisted := taken.(id := number);
    assert persisted.targetGroup == plan.targetGroup && persisted.requestedLimits == plan.limits;
    assert Truthful(w, taken) ==> Truthful(w, persisted);
    assert backend.State() == w && backend.calls == first + 4;
    var installed := Install(backend, store, persisted);
    ghost var installing := store.snapshots;
    RecordChangesAdd(recorded, persisting, installing, id);
    if installed.Err? {
      AttemptIsAttempted(w, recorded, id, plan, backend.State(), installing);
      return Err(installed.error);
    }
    var applied := persisted.(applied := true);
    var _ := store.Update(applied);
    ghost var updated := store.snapshots;
    RecordChangesAdd(recorded, installing, updated, id);
    r := VerifyReadback(backend, store, applied, w);
    RecordChangesAdd(recorded, updated, store.snapshots, id);
    PendingIsRecorded(taken, store.snapshots[id], w, backend.capabilities, plan);
    AttemptIsAttempted(w, recorded, id, plan, backend.State(), store.snapshots);
    assert (r.Err? && Truthful(w, taken) && taken.originalGroup != plan.targetGroup
            && !OnPendingRecord(store.snapshots, id)) ==>
        backend.State() == w.Cleaned(plan.targetGroup);
    assert !backend.StrandsLimits(first, attach);
    CleanedLeavesLimits(w, plan.targetGroup, plan.limits);
  }

  /** The number of the call that attaches the process. */
  function AttachCall(backend: CgroupBackend, plan: CgroupPlan): nat
    reads backend
  {
    backend.calls + 4 + CallsBeforeAttach(plan.targetGroup, backend.groups)
  }

  /** The plan is ready for a process elsewhere, and the limits it will have to put
      back are read as they are. */
  ghost predicate FairAttempt(backend: CgroupBackend, plan: CgroupPlan)
    reads backend
  {
    && Ready(backend.State(), backend.capabilities, plan)
    && backend.State().Consistent()
    && backend.placements[plan.pid] != plan.targetGroup
    && backend.calls + 3 !in backend.misreads
  }

  /** The transaction for a plan that passed the guards. */
  method Transact(backend: CgroupBackend, store: SnapshotStore, plan: CgroupPlan)
    returns (r: Result<Snapshot, ActuatorError>)
    requires store.Valid() && Admissible(plan)
    modifies backend, store
    ensures store.Valid()
    ensures Attempted(old(backend.State()), old(store.snapshots), old(store.nextId) + 1, plan, backend.State(),
                      store.snapshots)
    ensures r.Err? ==>
              || Lookup(backend.placements, plan.pid) == old(Lookup(backend.placements, plan.pid))
              || OnPendingRecord(store.snapshots, old(store.nextId) + 1)
    ensures r.Ok? ==>
              && old(Ready(backend.State(), backend.capabilities, plan))
              && Committed(old(backend.State()), old(store.snapshots), old(store.nextId) + 1, plan, backend.State(),
                           store.snapshots, r.value)
    ensures r.Ok? && backend.misreads == {} ==>
              r.value == SnapshotOf(old(backend.State()), old(store.nextId) + 1, plan.pid, plan.targetGroup,
                                    plan.limits).(applied := true, verified := true)
    ensures (r.Err? && old(backend.AlmostQuiet()) && old(backend.State().Consistent())
             && Lookup(old(backend.placements), plan.pid) != Some(plan.targetGroup)) ==>
              UndoneOrRecorded(old(backend.State()), plan.targetGroup, backend.State(), store.snapshots,
                               old(store.nextId) + 1)
    ensures OnPendingRecord(store.snapshots, old(store.nextId) + 1) && old(backend.calls) + 3 !in backend.misreads ==>
              store.snapshots[old(store.nextId) + 1].originalLimits
                == LimitsOf(old(backend.State()), plan.targetGroup)
    ensures (r.Err? && old(FairAttempt(backend, plan))
             && !OnPendingRecord(store.snapshots, old(store.nextId) + 1)) ==>
              LimitsLeft(backend.State(), old(backend.State()), plan.targetGroup, plan.limits,
                         backend.StrandsLimits(old(backend.calls), old(AttachCall(backend, plan))))
    ensures old(backend.Quiet()) && old(Ready(backend.State(), backend.capabilities, plan)) ==> r.Ok?
  {
    ghost var w, recorded, id, first := backend.State(), store.snapshots, store.nextId + 1, backend.calls;
    if backend.FailsIn(first, 4) {
      backend.StrandsAfter(first, 4, AttachCall(backend, plan));
    }
    CleanedLeavesLimits(w, plan.targetGroup, plan.limits);
    var taken := TakeSnapshot(backend, plan);
    if taken.Err? {
      return Err(taken.error);
    }
    assert old(backend.AlmostQuiet()) ==> backend.AlmostQuiet();
    assert old(backend.AlmostQuiet()) && taken.value.originalLimits != LimitsOf(w, plan.targetGroup) ==>
        backend.Quiet();
    r := Mutate(backend, store, plan, taken.value, w, recorded, id, first);
  }

  /** Move one process into its managed group, with the requested limits, or
      undo the attempt.  The postconditions hold for every schedule of failing
      and misreading calls unless they say otherwise. */
  method ApplyOne(backend: CgroupBackend, store: SnapshotStore, plan: CgroupPlan)
    returns (r: Result<Option<Snapshot>, ActuatorError>)
    requires store.Valid()
    modifies backend, store
    ensures store.Valid()
    // a dry run, or a plan that is not admissible, does nothing at all
    ensures plan.dryRun || !Admissible(plan) ==>
              && r == (if plan.dryRun then Ok(None) else Err(Blocked))
              && backend.State() == old(backend.State())
              && backend.operations == old(backend.operations)
              && store.snapshots == old(store.snapshots)
    // at most one snapshot is added, none is disturbed, nobody else moves, and no
    // group outside the managed names is gone or limited differently
    ensures Attempted(old(backend.State()), old(store.snapshots), old(store.nextId) + 1, plan, backend.State(),
                      store.snapshots)
    // an error leaves the process at home, or a pending record of where home is
    ensures r.Err? ==>
              || Lookup(backend.placements, plan.pid) == old(Lookup(backend.placements, plan.pid))
              || OnPendingRecord(store.snapshots, old(store.nextId) + 1)
    // success is exactly the requested change, recorded as verified and pending
    ensures r.Ok? && !plan.dryRun ==>
              && r.value.Some?
              && old(Ready(backend.State(), backend.capabilities, plan))
              && Committed(old(backend.State()), old(store.snapshots), old(store.nextId) + 1, plan, backend.State(),
                           store.snapshots, r.value.value)
    ensures r.Ok? && !plan.dryRun && backend.misreads == {} ==>
              r.value.value == SnapshotOf(old(backend.State()), old(store.nextId) + 1, plan.pid, plan.targetGroup,
                                          plan.limits).(applied := true, verified := true)
    // one misbehaving call anywhere: an error means untouched, undone, or recorded
    ensures (r.Err? && old(backend.AlmostQuiet()) && old(backend.State().Consistent())
             && Lookup(old(backend.placements), plan.pid) != Some(plan.targetGroup)) ==>
              UndoneOrRecorded(old(backend.State()), plan.targetGroup, backend.State(), store.snapshots,
                               old(store.nextId) + 1)
    // the record that is left pending has the limits of before; without one, the
    // requested limits stay on the target exactly when the attaching call is the
    // first to fail and one of the six calls after it fails too
    ensures OnPendingRecord(store.snapshots, old(store.nextId) + 1) && old(backend.calls) + 3 !in backend.misreads ==>
              store.snapshots[old(store.nextId) + 1].originalLimits
                == LimitsOf(old(backend.State()), plan.targetGroup)
    ensures (r.Err? && Admissible(plan) && old(FairAttempt(backend, plan))
             && !OnPendingRecord(store.snapshots, old(store.nextId) + 1)) ==>
              LimitsLeft(backend.State(), old(backend.State()), plan.targetGroup, plan.limits,
                         backend.StrandsLimits(old(backend.calls), old(AttachCall(backend, plan))))
    // and without any, an admissible plan for a live process succeeds
    ensures (old(backend.Quiet()) && !plan.dryRun && Admissible(plan)
             && old(Ready(backend.State(), backend.capabilities, plan))) ==> r.Ok?
  {
    if plan.dryRun {
      return Ok(None);
    }
    if !plan.allowed || !IsManagedName(plan.targetGroup) {
      return Err(Blocked);
    }
    var applied := Transact(backend, store, plan);
    if applied.Err? {
      return Err(applied.error);
    }
    r := Ok(Some(applied.value));
  }

  /** One step of recovery. */
  method RecoverOne(backend: CgroupBackend, store: SnapshotStore, snapshot: Snapshot,
                    ghost home: map<Pid, string>, ghost strayed: set<Pid>)
    returns (r: Result<(), ActuatorError>)
    requires store.Valid() && snapshot.Pending()
    requires snapshot.id in store.snapshots && store.snapshots[snapshot.id] == snapshot
    modifies backend, store`snapshots, store`managedGroups
    ensures store.Valid() && backend.calls >= old(backend.calls)
    ensures r.Ok? ==> backend.State() == RolledBack(old(backend.State()), snapshot)
    ensures store.snapshots ==
              if r.Ok? then old(store.snapshots)[snapshot.id := snapshot.(rolledBack := true)]
              else old(store.snapshots)
    ensures old(backend.Quiet()) ==>
              && backend.State() == Undone(old(backend.State()), snapshot)
              && (r.Ok? <==> old(RollbackAllowed(backend.State(), snapshot)))
    ensures UnmanagedKept(old(backend.State()), backend.State())
    ensures Accounted(old(backend.State()), old(store.snapshots), home, strayed) ==>
              Accounted(backend.State(), store.snapshots, home, strayed)
  {
    ghost var w, recorded := backend.State(), store.snapshots;
    if IsManagedName(snapshot.targetGroup) {
      RolledBackFrame(w, snapshot);
    }
    if Accounted(w, recorded, home, strayed) && RollbackAllowed(w, snapshot) {
      AccountedAfterRollback(w, recorded, home, strayed, snapshot.id);
    }
    var undone;
    r, undone := RollbackOne(backend, store, snapshot);
    if Accounted(w, recorded, home, strayed) && r.Err? {
      AccountedAfterInterruption(w, recorded, home, strayed, snapshot.id, backend.State());
    }
  }

  /** Without failing calls exactly the allowed rollbacks succeed, each in the world
      the earlier ones left. */
  ghost predicate AllowedSucceed(w: World, pending: seq<Snapshot>, results: seq<Result<(), ActuatorError>>) {
    && |results| == |pending|
    && forall i | 0 <= i < |pending| ::
         results[i].Ok? <==> RollbackAllowed(Recovered(w, pending[..i]), pending[i])
  }

  lemma AllowedSucceedExtends(w: World, pending: seq<Snapshot>, first: Result<(), ActuatorError>,
                              rest: seq<Result<(), ActuatorError>>)
    requires pending != [] && (first.Ok? <==> RollbackAllowed(w, pending[0]))
    requires AllowedSucceed(Undone(w, pending[0]), pending[1..], rest)
    ensures AllowedSucceed(w, pending, [first] + rest)
  {
    forall i | 0 <= i < |pending|
      ensures ([first] + rest)[i].Ok? <==> RollbackAllowed(Recovered(w, pending[..i]), pending[i])
    {
      if i > 0 {
        assert pending[..i][1..] == pending[1..][..i - 1];
        assert pending[1..][i - 1] == pending[i];
      }
    }
  }

  lemma {:induction false} RecoverableAllows(w: World, pending: seq<Snapshot>, i: nat)
    requires Recoverable(w, pending) && i < |pending|
    ensures RollbackAllowed(Recovered(w, pending[..i]), pending[i])
    decreases i
  {
    RecoverableRest(w, pending);
    if i > 0 {
      RecoverableAllows(Undone(w, pending[0]), pending[1..], i - 1);
      assert pending[..i][1..] == pending[1..][..i - 1];
    }
  }

  /** Roll back the listed snapshots in order, whatever happens to each. */
  method RollBackAll(backend: CgroupBackend, store: SnapshotStore, pending: seq<Snapshot>,
                     ghost home: map<Pid, string>, ghost strayed: set<Pid>)
    returns (results: seq<Result<(), ActuatorError>>)
    requires store.Valid() && OnRecord(pending, store.snapshots)
    modifies backend, store`snapshots, store`managedGroups
    ensures store.Valid()
    ensures |results| == |pending|
    ensures store.snapshots == Marked(old(store.snapshots), pending, results)
    ensures old(backend.Quiet()) ==>
              && backend.State() == Recovered(old(backend.State()), pending)
              && AllowedSucceed(old(backend.State()), pending, results)
    ensures UnmanagedKept(old(backend.State()), backend.State())
    ensures Accounted(old(backend.State()), old(store.snapshots), home, strayed) ==>
              Accounted(backend.State(), store.snapshots, home, strayed)
    decreases |pending|
  {
    if pending == [] {
      return [];
    }
    ghost var w, quiet := backend.State(), backend.Quiet();
    var first := RecoverOne(backend, store, pending[0], home, strayed);
    var rest := RollBackAll(backend, store, pending[1..], home, strayed);
    if quiet {
      AllowedSucceedExtends(w, pending, first, rest);
    }
    results := [first] + rest;
  }

  /** Roll back every pending snapshot, oldest first. */
  method Recover(backend: CgroupBackend, store: SnapshotStore, ghost home: map<Pid, string>, ghost strayed: set<Pid>)
    returns (results: seq<Result<(), ActuatorError>>)
    requires store.Valid()
    modifies backend, store`snapshots, store`managedGroups
    ensures store.Valid()
    // one result per pending snapshot, and the record says exactly which succeeded
    ensures |results| == |old(store.Pending())|
    ensures store.snapshots == Marked(old(store.snapshots), old(store.Pending()), results)
    ensures OnlyMarked(old(store.snapshots), store.snapshots)
    // without failing calls everything that may be undone is undone
    ensures old(backend.Quiet()) ==>
              && backend.State() == Recovered(old(backend.State()), old(store.Pending()))
              && AllowedSucceed(old(backend.State()), old(store.Pending()), results)
    ensures old(backend.Quiet()) && Recoverable(old(backend.State()), old(store.Pending())) ==> store.Pending() == []
    // with any failing calls no external group is gone or limited differently, and
    // nobody is lost track of
    ensures UnmanagedKept(old(backend.State()), backend.State())
    ensures Accounted(old(backend.State()), old(store.snapshots), home, strayed) ==>
              Accounted(backend.State(), store.snapshots, home, strayed)
  {
    ghost var w, snapshots := backend.State(), store.snapshots;
    var pending := store.Pending();
    PendingIsListed(snapshots, store.nextId, pending);
    results := RollBackAll(backend, store, pending, home, strayed);
    MarkedOnlyMarks(snapshots, pending, results);
    if AllowedSucceed(w, pending, results) && Recoverable(w, pending) {
      forall i | 0 <= i < |results|
        ensures results[i].Ok?
      {
        RecoverableAllows(w, pending, i);
      }
      NothingLeftPending(snapshots, store.nextId, results);
    }
  }

  // -------------------------------------------------------------------
  // Runs
  // -------------------------------------------------------------------

  datatype Action =
    | Apply(plan: CgroupPlan)
    | RecoverAll
    | Exit(pid: Pid)

  /** Some snapshots were marked rolled back, and that is all. */
  ghost predicate OnlyMarked(before: map<nat, Snapshot>, after: map<nat, Snapshot>) {
    && after.Keys == before.Keys
    && forall id | id in before ::
         after[id] == before[id] || (before[id].Pending() && after[id] == before[id].(rolledBack := true))
  }

  /** What one action may do to the record. */
  ghost predicate RecordStep(a: Action, before: map<nat, Snapshot>, after: map<nat, Snapshot>) {
    match a
    case Apply(plan) =>
      || after == before
      || exists id :: id !in before && OnlyRecordChanged(before, after, id)
                      && (after[id].Pending() ==> after[id].pid == plan.pid)
    case RecoverAll => OnlyMarked(before, after)
    case Exit(_) => after == before
  }

  /** The records before, between and after the actions of a script. */
  ghost predicate RecordRun(script: seq<Action>, records: seq<map<nat, Snapshot>>) {
    && |records| == |script| + 1
    && forall i | 0 <= i < |script| :: RecordStep(script[i], records[i], records[i + 1])
  }

  /** The processes that come from inside the managed groups, or had two pending
      snapshots at some time. */
  ghost function Strayed(records: seq<map<nat, Snapshot>>, home: map<Pid, string>): set<Pid> {
    set p | p in home && (IsManagedName(home[p]) || exists i :: 0 <= i < |records| && Twice(records[i], p))
  }

  /** Without anything on record, everybody is at home. */
  lemma FreshStart(w: World)
    requires w.Consistent()
    ensures Accounted(w, map[], w.placements, Strayed([map[]], w.placements))
  {
  }

  lemma StrayedGrows(records: seq<map<nat, Snapshot>>, last: map<nat, Snapshot>, home: map<Pid, string>)
    ensures Strayed(records + [last], home) == Strayed(records, home) + Doubled(last, home)
  {
    var longer := records + [last];
    forall p | p in home
      ensures p in Strayed(longer, home) <==> p in Strayed(records, home) + Doubled(last, home)
    {
      if i :| 0 <= i < |records| && Twice(records[i], p) {
        assert Twice(longer[i], p);
      }
      if Twice(last, p) {
        assert Twice(longer[|records|], p);
      }
    }
  }

  /** A process strays only by being moved while a snapshot of it is pending. */
  lemma {:induction false} StrayedWasMovedAgain(script: seq<Action>, records: seq<map<nat, Snapshot>>, k: nat, p: Pid)
    returns (j: nat)
    requires RecordRun(script, records) && k <= |script|
    requires !Twice(records[0], p) && Twice(records[k], p)
    ensures j < k && script[j].Apply? && script[j].plan.pid == p
    ensures exists id :: OfPending(records[j], id, p)
    decreases k
  {
    var before, after := records[k - 1], records[k];
    if Twice(before, p) {
      j := StrayedWasMovedAgain(script, records, k - 1, p);
    } else {
      j := k - 1;
      assert RecordStep(script[j], before, after);
      var a, b :| a != b && OfPending(after, a, p) && OfPending(after, b, p);
      assert !(OfPending(before, a, p) && OfPending(before, b, p));
      assert OfPending(before, a, p) || OfPending(before, b, p);
    }
  }

  /** One action, with any calls failing: whoever has not strayed stays accounted
      for. */
  method Perform(backend: CgroupBackend, store: SnapshotStore, action: Action, ghost home: map<Pid, string>,
                 ghost strayed: set<Pid>)
    requires store.Valid()
    requires Accounted(backend.State(), store.snapshots, home, strayed)
    modifies backend, store
    ensures store.Valid()
    ensures UnmanagedKept(old(backend.State()), backend.State())
    ensures RecordStep(action, old(store.snapshots), store.snapshots)
    ensures Accounted(backend.State(), store.snapshots, home, strayed + Doubled(store.snapshots, home))
  {
    ghost var w, recorded, id := backend.State(), store.snapshots, store.nextId + 1;
    match action {
      case Apply(plan) =>
        var _ := ApplyOne(backend, store, plan);
        ghost var wider := strayed + Doubled(store.snapshots, home);
        AccountedWider(w, recorded, home, strayed, wider);
        AccountedAfterApply(w, recorded, home, wider, plan.pid, backend.State(), store.snapshots, id);
      case RecoverAll =>
        var _ := Recover(backend, store, home, strayed);
        AccountedWider(backend.State(), store.snapshots, home, strayed, strayed + Doubled(store.snapshots, home));
      case Exit(pid) =>
        AccountedAfterExit(w, recorded, home, strayed, pid);
        backend.ProcessExits(pid);
        AccountedWider(backend.State(), store.snapshots, home, strayed, strayed + Doubled(store.snapshots, home));
    }
  }

  /** Any sequence of applies, recoveries and process exits, with any calls
      failing: at the end every process that came from outside the managed groups
      and never had two pending snapshots is accounted for, no external group is
      gone or limited differently, and one recovery in which no call fails brings
      each of those that survive home and leaves every surviving group with the
      limits the last of its rollbacks took down. */
  method Run(backend: CgroupBackend, store: SnapshotStore, script: seq<Action>, ghost home: map<Pid, string>)
    returns (ghost records: seq<map<nat, Snapshot>>)
    requires store.Valid()
    requires Accounted(backend.State(), store.snapshots, home, Strayed([store.snapshots], home))
    modifies backend, store
    ensures store.Valid()
    ensures RecordRun(script, records) && records[0] == old(store.snapshots) && records[|script|] == store.snapshots
    ensures UnmanagedKept(old(backend.State()), backend.State())
    ensures Accounted(backend.State(), store.snapshots, home, Strayed(records, home))
    ensures forall p | p in backend.placements && p !in Strayed(records, home) ::
              Lookup(Recovered(backend.State(), store.Pending()).placements, p) == Some(home[p])
    ensures forall g | g in backend.groups ::
              LimitedIfThere(Recovered(backend.State(), store.Pending()), g,
                             LimitsAfter(backend.State(), store.Pending(), g))
    ensures Strayed(records, home) == {} ==> Recoverable(backend.State(), store.Pending())
  {
    records := [store.snapshots];
    for i := 0 to |script|
      invariant store.Valid()
      invariant RecordRun(script[..i], records)
      invariant records[0] == old(store.snapshots) && records[i] == store.snapshots
      invariant UnmanagedKept(old(backend.State()), backend.State())
      invariant Accounted(backend.State(), store.snapshots, home, Strayed(records, home))
    {
      Perform(backend, store, script[i], home, Strayed(records, home));
      StrayedGrows(records, store.snapshots, home);
      records := records + [store.snapshots];
    }
    assert script[..|script|] == script;
    EveryoneCanComeHome(backend.State(), store.snapshots, store.nextId, home, Strayed(records, home));
  }

  lemma EveryoneCanComeHome(w: World, snapshots: map<nat, Snapshot>, n: nat, home: map<Pid, string>,
                            strayed: set<Pid>)
    requires forall id | id in snapshots :: 1 <= id <= n && snapshots[id].id == id
    requires Accounted(w, snapshots, home, strayed)
    ensures var pending := PendingUpTo(snapshots, n);
      && (strayed == {} ==> Recoverable(w, pending))
      && (forall p | p in w.placements && p !in strayed ::
            Lookup(Recovered(w, pending).placements, p) == Some(home[p]))
      && forall g | g in w.groups :: LimitedIfThere(Recovered(w, pending), g, LimitsAfter(w, pending, g))
  {
    var pending := PendingUpTo(snapshots, n);
    PendingIsListed(snapshots, n, pending);
    if strayed == {} {
      AccountedIsRecoverable(w, snapshots, home, pending);
    }
    forall p | p in w.placements && p !in strayed
      ensures Lookup(Recovered(w, pending).placements, p) == Some(home[p])
    {
      forall id | OfPending(snapshots, id, p)
        ensures exists i :: 0 <= i < |pending| && pending[i].id == id
      {
        var i :| 0 <= i < |pending| && pending[i] == snapshots[id];
      }
      AccountedComesHome(w, snapshots, home, strayed, pending, p);
    }
    forall g | g in w.groups
      ensures LimitedIfThere(Recovered(w, pending), g, LimitsAfter(w, pending, g))
    {
      if g in Recovered(w, pending).groups {
        forall s | s in pending
          ensures IsManagedName(s.targetGroup)
        {
          assert snapshots[s.id] == s;
        }
        RecoveredLimits(w, pending, g);
      }
    }
  }

  /** The record after recovery: a snapshot is marked rolled back exactly when
      its own rollback succeeded. */
  function Marked(snapshots: map<nat, Snapshot>, pending: seq<Snapshot>, results: seq<Result<(), ActuatorError>>)
    : map<nat, Snapshot>
    requires |pending| == |results|
    decreases |pending|
  {
    if pending == [] then snapshots
    else
      var s := pending[0];
      Marked(if results[0].Ok? then snapshots[s.id := s.(rolledBack := true)] else snapshots,
             pending[1..], results[1..])
  }

  lemma {:induction false} MarkedElsewhere(snapshots: map<nat, Snapshot>, pending: seq<Snapshot>,
                                           results: seq<Result<(), ActuatorError>>, id: nat)
    requires |pending| == |results|
    requires forall j | 0 <= j < |pending| :: pending[j].id != id
    ensures Lookup(Marked(snapshots, pending, results), id) == Lookup(snapshots, id)
    decreases |pending|
  {
    if pending != [] {
      var s := pending[0];
      MarkedElsewhere(if results[0].Ok? then snapshots[s.id := s.(rolledBack := true)] else snapshots,
                      pending[1..], results[1..], id);
    }
  }

  /** A snapshot is marked exactly when its rollback succeeded. */
  lemma {:induction false} MarkedExactly(snapshots: map<nat, Snapshot>, pending: seq<Snapshot>,
                                         results: seq<Result<(), ActuatorError>>, i: nat)
    requires |pending| == |results| && i < |pending|
    requires OnRecord(pending, snapshots)
    ensures Lookup(Marked(snapshots, pending, results), pending[i].id)
         == Some(if results[i].Ok? then pending[i].(rolledBack := true) else pending[i])
    decreases |pending|
  {
    var s := pending[0];
    var next := if results[0].Ok? then snapshots[s.id := s.(rolledBack := true)] else snapshots;
    if i == 0 {
      MarkedElsewhere(next, pending[1..], results[1..], s.id);
    } else {
      MarkedExactly(next, pending[1..], results[1..], i - 1);
    }
  }

  lemma MarkedOnlyMarks(snapshots: map<nat, Snapshot>, pending: seq<Snapshot>,
                        results: seq<Result<(), ActuatorError>>)
    requires |pending| == |results| && OnRecord(pending, snapshots)
    ensures OnlyMarked(snapshots, Marked(snapshots, pending, results))
  {
    var after := Marked(snapshots, pending, results);
    forall id
      ensures id in after <==> id in snapshots
      ensures id in snapshots ==>
                || after[id] == snapshots[id]
                || (snapshots[id].Pending() && after[id] == snapshots[id].(rolledBack := true))
    {
      if i :| 0 <= i < |pending| && pending[i].id == id {
        MarkedExactly(snapshots, pending, results, i);
      } else {
        MarkedElsewhere(snapshots, pending, results, id);
      }
    }
  }

  lemma NothingLeftPending(snapshots: map<nat, Snapshot>, n: nat, results: seq<Result<(), ActuatorError>>)
    requires forall id | id in snapshots :: 1 <= id <= n && snapshots[id].id == id
    requires |results| == |PendingUpTo(snapshots, n)|
    requires forall j | 0 <= j < |results| :: results[j].Ok?
    ensures PendingUpTo(Marked(snapshots, PendingUpTo(snapshots, n), results), n) == []
  {
    var pending := PendingUpTo(snapshots, n);
    var after := Marked(snapshots, pending, results);
    PendingIsListed(snapshots, n, pending);
    forall id | id in after
      ensures !after[id].Pending()
    {
      if id in snapshots && snapshots[id].Pending() {
        var j :| 0 <= j < |pending| && pending[j] == snapshots[id];
        MarkedExactly(snapshots, pending, results, j);
      } else {
        MarkedElsewhere(snapshots, pending, results, id);
      }
    }
    NonePending(after, n);
  }

  lemma {:induction false} NonePending(snapshots: map<nat, Snapshot>, n: nat)
    requires forall id | id in snapshots :: !snapshots[id].Pending()
    ensures PendingUpTo(snapshots, n) == []
  {
    if n > 0 {
      NonePending(snapshots, n - 1);
    }
  }
}
