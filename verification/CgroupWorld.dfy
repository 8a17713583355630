/** The cgroup state the actuator mutates, as plain values: what each backend
    operation does to it, and what one rollback amounts to.  The classes in
    CgroupActuator.dfy are proved against these functions. */
module CgroupWorld {
  import opened Wrappers

  type Pid = nat

  const FOREGROUND_GROUP := "nemor-foreground.slice"
  const BACKGROUND_GROUP := "nemor-background.slice"

  predicate IsScopeChar(c: char) {
    || 'a' <= c <= 'z'
    || 'A' <= c <= 'Z'
    || '0' <= c <= '9'
    || c == '.' || c == '_' || c == '-'
  }

  /** The names the actuator may create, limit and remove. */
  predicate IsManagedName(name: string) {
    || name == FOREGROUND_GROUP
    || name == BACKGROUND_GROUP
    || (&& (HasPrefix(name, "nemor-test-") || HasPrefix(name, "nemor-validation-"))
        && HasSuffix(name, ".scope")
        && forall i | 0 <= i < |name| :: IsScopeChar(name[i]))
  }

  /** A managed name never contains a path separator, so it denotes a direct
      child of the hierarchy root, and no absolute external path is managed. */
  lemma ManagedNamesStayInNamespace(name: string)
    requires IsManagedName(name)
    ensures '/' !in name
    ensures HasPrefix(name, "nemor-")
  {
    assert forall i | 0 <= i < |FOREGROUND_GROUP| :: IsScopeChar(FOREGROUND_GROUP[i]);
    assert forall i | 0 <= i < |BACKGROUND_GROUP| :: IsScopeChar(BACKGROUND_GROUP[i]);
    assert forall i | 0 <= i < |name| :: IsScopeChar(name[i]);
    assert "nemor-test-"[..6] == "nemor-" && "nemor-validation-"[..6] == "nemor-";
    if HasPrefix(name, "nemor-test-") {
      assert name[..6] == name[..|"nemor-test-"|][..6];
    } else if HasPrefix(name, "nemor-validation-") {
      assert name[..6] == name[..|"nemor-validation-"|][..6];
    }
  }

  /** Only letters, digits, dots, underscores and hyphens. */
  ghost predicate Plain(body: string) {
    forall c | c in body ::
      'a' <= c <= 'z' || 'A' <= c <= 'Z' || '0' <= c <= '9' || c == '.' || c == '_' || c == '-'
  }

  ghost predicate NamesScope(name: string, prefix: string, body: string) {
    name == prefix + body + ".scope" && Plain(body)
  }

  /** The managed names are the two slices, and the scopes with one of two prefixes
      and a plain body; no other name is managed. */
  lemma ManagedNamesExactly(name: string)
    ensures IsManagedName(name) <==>
              || name == "nemor-foreground.slice"
              || name == "nemor-background.slice"
              || (exists body :: NamesScope(name, "nemor-test-", body))
              || (exists body :: NamesScope(name, "nemor-validation-", body))
  {
    ScopeNamesExactly(name, "nemor-test-");
    ScopeNamesExactly(name, "nemor-validation-");
  }

  lemma ScopeNamesExactly(name: string, prefix: string)
    requires prefix == "nemor-test-" || prefix == "nemor-validation-"
    ensures (&& HasPrefix(name, prefix) && HasSuffix(name, ".scope")
             && forall i | 0 <= i < |name| :: IsScopeChar(name[i])) <==>
            exists body :: NamesScope(name, prefix, body)
  {
    if HasPrefix(name, prefix) && HasSuffix(name, ".scope") && forall i | 0 <= i < |name| :: IsScopeChar(name[i]) {
      var k := |name| - 6;
      PrefixEndsBefore(name, prefix, k);
      assert name == prefix + name[|prefix|..k] + ".scope";
      assert NamesScope(name, prefix, name[|prefix|..k]);
    }
    if body :| NamesScope(name, prefix, body) {
      ScopeIsPlain(prefix, body);
      assert name[..|prefix|] == prefix && name[|name| - 6..] == ".scope";
    }
  }

  lemma PrefixEndsBefore(name: string, prefix: string, k: nat)
    requires prefix == "nemor-test-" || prefix == "nemor-validation-"
    requires HasPrefix(name, prefix) && k < |name| && name[k..] == ".scope"
    ensures |prefix| <= k
  {
    assert name[k] == name[k..][0] == '.';
    assert forall i | 0 <= i < |prefix| :: name[i] == name[..|prefix|][i] == prefix[i];
  }

  lemma ScopeIsPlain(prefix: string, body: string)
    requires prefix == "nemor-test-" || prefix == "nemor-validation-"
    requires Plain(body)
    ensures forall i | 0 <= i < |prefix + body + ".scope"| :: IsScopeChar((prefix + body + ".scope")[i])
  {
    assert forall i | 0 <= i < |prefix| :: IsScopeChar(prefix[i]);
    assert forall i | 0 <= i < |".scope"| :: IsScopeChar(".scope"[i]);
    assert forall i | 0 <= i < |body| :: body[i] in body;
  }

  datatype Limits = Limits(memoryLow: Option<nat>, memoryHigh: Option<nat>)

  const NO_LIMITS := Limits(None, None)

  datatype GroupState = GroupState(owned: bool, limits: Limits, pids: set<Pid>)

  datatype World = World(
    groups: map<string, GroupState>,
    starts: map<Pid, nat>,
    placements: map<Pid, string>)
  {
    /** Every placed process is listed by exactly the group it is placed in,
        and that group exists. */
    ghost predicate Consistent() {
      && (forall pid | pid in placements :: placements[pid] in groups)
      && (forall g, pid | g in groups ::
            pid in groups[g].pids <==> pid in placements && placements[pid] == g)
    }

    function Created(name: string): World {
      this.(groups := groups[name := GroupState(true, NO_LIMITS, {})])
    }

    function WithLimits(name: string, limits: Limits): World
      requires name in groups
    {
      this.(groups := groups[name := groups[name].(limits := limits)])
    }

    /** Moving a process: it leaves the group it was in, then joins the other. */
    function Attached(name: string, pid: Pid): World {
      var left :=
        if pid in placements && placements[pid] in groups then
          var g := placements[pid];
          groups[g := groups[g].(pids := groups[g].pids - {pid})]
        else groups;
      var joined :=
        if name in left then left[name := left[name].(pids := left[name].pids + {pid})]
        else left;
      this.(groups := joined, placements := placements[pid := name])
    }

    predicate Removable(name: string) {
      name in groups && groups[name].owned && groups[name].pids == {}
    }

    /** Only an owned group without members disappears. */
    function Cleaned(name: string): World {
      if Removable(name) then this.(groups := groups - {name}) else this
    }
  }

  /** The durable record of one move, enough to undo it. */
  datatype Snapshot = Snapshot(
    id: nat,
    pid: Pid,
    startTicks: nat,
    originalGroup: string,
    targetGroup: string,
    originalLimits: Limits,
    requestedLimits: Limits,
    applied: bool,
    verified: bool,
    rolledBack: bool,
    lastError: bool)
  {
    predicate Pending() {
      applied && !rolledBack
    }
  }

  /** The process the snapshot speaks of is still the same live process. */
  predicate Live(w: World, s: Snapshot) {
    && s.pid in w.starts
    && w.starts[s.pid] == s.startTicks
    && s.pid in w.placements
  }

  predicate RollbackAllowed(w: World, s: Snapshot) {
    && IsManagedName(s.targetGroup)
    && (Live(w, s) ==> s.originalGroup in w.groups)
  }

  function Returned(w: World, s: Snapshot): World {
    if Live(w, s) then w.Attached(s.originalGroup, s.pid) else w
  }

  function TargetRestored(w: World, s: Snapshot): World {
    if s.targetGroup in w.groups then
      w.WithLimits(s.targetGroup, s.originalLimits).Cleaned(s.targetGroup)
    else w
  }

  /** What a completed rollback leaves. */
  function RolledBack(w: World, s: Snapshot): World {
    TargetRestored(Returned(w, s), s)
  }

  /** No group outside the managed names is gone or limited differently. */
  ghost predicate UnmanagedKept(before: World, after: World) {
    forall g | g in before.groups && !IsManagedName(g) ::
      g in after.groups && after.groups[g].limits == before.groups[g].limits
  }

  /** What an interrupted rollback may have left: all other processes where they
      were, this one where it was or home, and every external group with its limits. */
  ghost predicate SafelyInterrupted(before: World, s: Snapshot, after: World) {
    && after.starts == before.starts
    && after.placements.Keys == before.placements.Keys
    && (forall p | p in before.placements && p != s.pid :: after.placements[p] == before.placements[p])
    && (s.pid in before.placements ==>
          || after.placements[s.pid] == before.placements[s.pid]
          || after.placements[s.pid] == s.originalGroup)
    && UnmanagedKept(before, after)
  }

  lemma ReturnedIsSafe(w: World, s: Snapshot)
    ensures SafelyInterrupted(w, s, Returned(w, s))
    ensures w.Consistent() && (Live(w, s) ==> s.originalGroup in w.groups) ==> Returned(w, s).Consistent()
  {
  }

  /** The group, if it exists, has these limits. */
  predicate LimitedIfThere(w: World, g: string, limits: Limits) {
    g in w.groups ==> w.groups[g].limits == limits
  }

  lemma ReturnedKeepsLimits(w: World, s: Snapshot)
    ensures var v := Returned(w, s);
      v.groups.Keys == w.groups.Keys && forall g | g in w.groups :: v.groups[g].limits == w.groups[g].limits
  {
  }

  /** Both steps of restoring a target keep what has to be kept. */
  lemma RestorationIsSafe(w: World, s: Snapshot)
    requires IsManagedName(s.targetGroup) && s.targetGroup in w.groups
    ensures var v := w.WithLimits(s.targetGroup, s.originalLimits);
      && UnmanagedKept(w, v) && UnmanagedKept(w, v.Cleaned(s.targetGroup))
      && LimitedIfThere(v, s.targetGroup, s.originalLimits)
      && LimitedIfThere(v.Cleaned(s.targetGroup), s.targetGroup, s.originalLimits)
      && (w.Consistent() ==> v.Consistent() && v.Cleaned(s.targetGroup).Consistent())
  {
  }

  lemma SafeUnderGroupChanges(w: World, s: Snapshot, v: World, u: World)
    requires SafelyInterrupted(w, s, v)
    requires u.starts == v.starts && u.placements == v.placements && UnmanagedKept(v, u)
    ensures SafelyInterrupted(w, s, u)
  {
  }

  /** At most the one process has changed place, and every external group is there
      with its limits. */
  ghost predicate OnlyMoved(w: World, pid: Pid, v: World) {
    && v.starts == w.starts
    && UnmanagedKept(w, v)
    && v.placements.Keys == w.placements.Keys
    && (forall p | p in w.placements && p != pid :: v.placements[p] == w.placements[p])
  }

  lemma InterruptedAfterApply(w: World, s: Snapshot, v: World)
    requires s.pid in w.placements && IsManagedName(s.targetGroup)
    requires SafelyInterrupted(Applied(w, s.targetGroup, s.requestedLimits, s.pid), s, v)
    ensures OnlyMoved(w, s.pid, v)
  {
  }

  lemma InterruptedBeforeMove(w: World, s: Snapshot, u: World, v: World)
    requires IsManagedName(s.targetGroup)
    requires u == Prepared(w, s.targetGroup)
          || u == Prepared(w, s.targetGroup).WithLimits(s.targetGroup, s.requestedLimits)
    requires SafelyInterrupted(u, s, v)
    ensures OnlyMoved(w, s.pid, v)
  {
    assert UnmanagedKept(w, u);
  }

  lemma SafeAtHomeMeansUnmoved(w: World, s: Snapshot, v: World)
    requires SafelyInterrupted(w, s, v)
    requires s.pid in w.placements && w.placements[s.pid] == s.originalGroup
    ensures v.placements == w.placements
  {
  }

  /** The bookkeeping fields of a snapshot play no part in its rollback. */
  lemma SameRollback(w: World, s: Snapshot, t: Snapshot)
    requires t == s.(lastError := t.lastError, applied := t.applied)
    ensures RollbackAllowed(w, s) == RollbackAllowed(w, t)
    ensures RolledBack(w, s) == RolledBack(w, t)
    ensures RollbackAllowed(w, s) ==> SafelyInterrupted(w, s, RolledBack(w, s))
    ensures forall v :: SafelyInterrupted(w, t, v) ==> SafelyInterrupted(w, s, v)
  {
    ReturnedIsSafe(w, s);
    if IsManagedName(s.targetGroup) {
      SafeUnderGroupChanges(w, s, Returned(w, s), RolledBack(w, s));
    }
  }

  /** What a completed apply leaves: the target exists, has exactly the
      requested limits, and holds the process. */
  function Applied(w: World, target: string, limits: Limits, pid: Pid): World {
    Prepared(w, target).WithLimits(target, limits).Attached(target, pid)
  }

  function Prepared(w: World, target: string): (r: World)
    ensures target in r.groups
  {
    if target in w.groups then w else w.Created(target)
  }

  // -------------------------------------------------------------------
  // Consistency
  // -------------------------------------------------------------------

  lemma AttachedKeepsConsistency(w: World, name: string, pid: Pid)
    requires w.Consistent() && name in w.groups
    ensures w.Attached(name, pid).Consistent()
  {
  }

  lemma CleanedKeepsConsistency(w: World, name: string)
    requires w.Consistent()
    ensures w.Cleaned(name).Consistent()
  {
  }

  lemma PreparedKeepsConsistency(w: World, target: string, limits: Limits)
    requires w.Consistent()
    ensures Prepared(w, target).Consistent()
    ensures Prepared(w, target).WithLimits(target, limits).Consistent()
  {
  }

  lemma AppliedKeepsConsistency(w: World, target: string, limits: Limits, pid: Pid)
    requires w.Consistent()
    ensures Applied(w, target, limits, pid).Consistent()
  {
    PreparedKeepsConsistency(w, target, limits);
    AttachedKeepsConsistency(Prepared(w, target).WithLimits(target, limits), target, pid);
  }

  lemma RolledBackKeepsConsistency(w: World, s: Snapshot)
    requires w.Consistent() && RollbackAllowed(w, s)
    ensures RolledBack(w, s).Consistent()
  {
    var back := Returned(w, s);
    if Live(w, s) {
      AttachedKeepsConsistency(w, s.originalGroup, s.pid);
    }
    if s.targetGroup in back.groups {
      var limited := back.WithLimits(s.targetGroup, s.originalLimits);
      assert limited.Consistent();
      CleanedKeepsConsistency(limited, s.targetGroup);
    }
  }

  // -------------------------------------------------------------------
  // Apply followed by rollback
  // -------------------------------------------------------------------

  function LimitsOf(w: World, name: string): Limits {
    if name in w.groups then w.groups[name].limits else NO_LIMITS
  }

  /** The snapshot apply takes before it touches anything. */
  function SnapshotOf(w: World, id: nat, pid: Pid, target: string, limits: Limits): Snapshot
    requires pid in w.starts && pid in w.placements
  {
    Snapshot(id, pid, w.starts[pid], w.placements[pid], target,
             LimitsOf(w, target), limits, false, false, false, false)
  }

  /** Undoing an apply restores every group, member and limit, except that a
      target which had no members of its own is gone. */
  lemma RollbackUndoesApply(w: World, s: Snapshot)
    requires w.Consistent()
    requires s.pid in w.starts && s.pid in w.placements
    requires s.startTicks == w.starts[s.pid]
    requires s.originalGroup == w.placements[s.pid]
    requires s.originalGroup != s.targetGroup
    requires s.originalLimits == LimitsOf(w, s.targetGroup)
    ensures RolledBack(Applied(w, s.targetGroup, s.requestedLimits, s.pid), s)
         == w.Cleaned(s.targetGroup)
  {
    var t, o, pid := s.targetGroup, s.originalGroup, s.pid;
    var a := Applied(w, t, s.requestedLimits, pid);
    assert pid in w.groups[o].pids;
    assert o in a.groups && t in a.groups;
    assert t in w.groups ==> pid !in w.groups[t].pids;
    var back := a.Attached(o, pid);
    assert back.placements == w.placements;
    var original := if t in w.groups then w.groups[t] else GroupState(true, NO_LIMITS, {});
    assert a.groups[t].pids == original.pids + {pid};
    assert back.groups[t].pids == original.pids;
    var limited := back.WithLimits(t, s.originalLimits);
    assert limited.groups[t] == original;
    assert limited.groups[o].pids == w.groups[o].pids;
    assert limited.groups == w.groups[t := original];
    if t !in w.groups {
      assert limited.Cleaned(t).groups == w.groups;
    }
  }

  /** The same holds of an apply that stopped before the move, with or without
      the limits set. */
  lemma RollbackUndoesPreparation(w: World, s: Snapshot)
    requires w.Consistent()
    requires s.pid in w.placements && s.originalGroup == w.placements[s.pid]
    requires s.originalGroup != s.targetGroup
    requires s.originalLimits == LimitsOf(w, s.targetGroup)
    ensures var p := Prepared(w, s.targetGroup);
      && RolledBack(p, s) == w.Cleaned(s.targetGroup)
      && RolledBack(p.WithLimits(s.targetGroup, s.requestedLimits), s) == w.Cleaned(s.targetGroup)
  {
    var t := s.targetGroup;
    var p := Prepared(w, t);
    var q := p.WithLimits(t, s.requestedLimits);
    PreparedKeepsConsistency(w, t, s.requestedLimits);
    AttachedInPlace(p, s.originalGroup, s.pid);
    AttachedInPlace(q, s.originalGroup, s.pid);
    assert Returned(p, s) == p && Returned(q, s) == q;
    var original := if t in w.groups then w.groups[t] else GroupState(true, NO_LIMITS, {});
    assert p.WithLimits(t, s.originalLimits).groups == w.groups[t := original];
    assert q.WithLimits(t, s.originalLimits).groups == w.groups[t := original];
    if t !in w.groups {
      assert w.groups[t := original] - {t} == w.groups;
    }
  }

  lemma AttachedInPlace(w: World, name: string, pid: Pid)
    requires w.Consistent() && pid in w.placements && w.placements[pid] == name
    ensures w.Attached(name, pid) == w
  {
    var r := w.Attached(name, pid);
    assert r.groups[name].pids == w.groups[name].pids;
    assert r.groups == w.groups && r.placements == w.placements;
  }

  /** Rolling back twice is the same as rolling back once. */
  lemma RollbackIsIdempotent(w: World, s: Snapshot)
    requires w.Consistent() && RollbackAllowed(w, s)
    requires s.originalGroup != s.targetGroup
    ensures RolledBack(RolledBack(w, s), s) == RolledBack(w, s)
  {
    var r := RolledBack(w, s);
    RolledBackKeepsConsistency(w, s);
    RolledBackFrame(w, s);
    if Live(w, s) {
      AttachedInPlace(r, s.originalGroup, s.pid);
    }
    assert Returned(r, s) == r;
    RolledBackTarget(w, s);
    TargetAlreadyRestored(r, s);
  }

  lemma TargetAlreadyRestored(w: World, s: Snapshot)
    requires s.targetGroup in w.groups ==>
               w.groups[s.targetGroup].limits == s.originalLimits && !w.Removable(s.targetGroup)
    ensures TargetRestored(w, s) == w
  {
  }

  /** A target that survives its rollback has its original limits again and is
      not removable. */
  lemma RolledBackTarget(w: World, s: Snapshot)
    ensures var r := RolledBack(w, s);
      s.targetGroup in r.groups ==>
        r.groups[s.targetGroup].limits == s.originalLimits && !r.Removable(s.targetGroup)
  {
  }

  // -------------------------------------------------------------------
  // Recovery of many snapshots
  // -------------------------------------------------------------------

  /** Snapshots recovery may be asked to undo together: each names a managed
      target and an existing external original group, and no process has two. */
  ghost predicate Recoverable(w: World, pending: seq<Snapshot>) {
    && (forall s | s in pending ::
          && IsManagedName(s.targetGroup)
          && !IsManagedName(s.originalGroup)
          && s.originalGroup in w.groups)
    && (forall i, j | 0 <= i < j < |pending| :: pending[i].pid != pending[j].pid)
  }

  /** One rollback among others: a refused one changes nothing. */
  function Undone(w: World, s: Snapshot): World {
    if RollbackAllowed(w, s) then RolledBack(w, s) else w
  }

  /** All rollbacks, oldest snapshot first. */
  function Recovered(w: World, pending: seq<Snapshot>): World
    decreases |pending|
  {
    if pending == [] then w else Recovered(Undone(w, pending[0]), pending[1..])
  }

  lemma ReturnedFrame(w: World, s: Snapshot)
    ensures var v := Returned(w, s);
      && v.starts == w.starts
      && v.placements == (if Live(w, s) then w.placements[s.pid := s.originalGroup] else w.placements)
      && v.groups.Keys == w.groups.Keys
      && (forall g | g in w.groups ::
            v.groups[g].limits == w.groups[g].limits && v.groups[g].owned == w.groups[g].owned)
  {
  }

  lemma TargetRestoredFrame(w: World, s: Snapshot)
    ensures var v := TargetRestored(w, s);
      && v.starts == w.starts && v.placements == w.placements
      && v.groups.Keys <= w.groups.Keys
      && (forall g | g in w.groups && g != s.targetGroup :: g in v.groups && v.groups[g] == w.groups[g])
      && (s.targetGroup in v.groups ==>
            v.groups[s.targetGroup] == w.groups[s.targetGroup].(limits := s.originalLimits))
  {
  }

  /** One rollback never removes a group outside the managed names, never moves
      another process, and puts its own process back. */
  lemma RolledBackFrame(w: World, s: Snapshot)
    requires IsManagedName(s.targetGroup)
    ensures var r := RolledBack(w, s);
      && r.starts == w.starts
      && r.placements.Keys == w.placements.Keys
      && (forall p | p in w.placements && p != s.pid :: r.placements[p] == w.placements[p])
      && (s.pid in w.placements ==>
            r.placements[s.pid] == if Live(w, s) then s.originalGroup else w.placements[s.pid])
      && r.groups.Keys <= w.groups.Keys
      && (forall g | g in w.groups && !IsManagedName(g) :: g in r.groups)
      && (forall g | g in w.groups && g != s.targetGroup ::
            g in r.groups && r.groups[g].limits == w.groups[g].limits && r.groups[g].owned == w.groups[g].owned)
      && (s.targetGroup in r.groups ==> r.groups[s.targetGroup].owned == w.groups[s.targetGroup].owned)
  {
    ReturnedFrame(w, s);
    TargetRestoredFrame(Returned(w, s), s);
  }

  /** A group a rollback removes is its target, owned, and empty at that moment. */
  lemma RolledBackRemovesOnlyEmptyTargets(w: World, s: Snapshot, g: string)
    requires w.Consistent() && RollbackAllowed(w, s)
    requires g in w.groups && g !in RolledBack(w, s).groups
    ensures g == s.targetGroup && w.groups[g].owned
    ensures forall p | p in w.placements && w.placements[p] == g :: p == s.pid && Live(w, s)
  {
  }

  lemma RecoverableRest(w: World, pending: seq<Snapshot>)
    requires Recoverable(w, pending) && pending != []
    ensures Recoverable(RolledBack(w, pending[0]), pending[1..])
    ensures RollbackAllowed(w, pending[0])
  {
  }

  /** Where recovery leaves a process. */
  function HomeAfter(w: World, pending: seq<Snapshot>, p: Pid): string
    requires p in w.placements
    decreases |pending|
  {
    if pending == [] then w.placements[p]
    else if pending[0].pid == p && Live(w, pending[0]) then pending[0].originalGroup
    else HomeAfter(w, pending[1..], p)
  }

  lemma {:induction false} HomeAfterStable(w: World, v: World, pending: seq<Snapshot>, p: Pid)
    requires p in w.placements && p in v.placements
    requires w.starts == v.starts && w.placements[p] == v.placements[p]
    ensures HomeAfter(w, pending, p) == HomeAfter(v, pending, p)
    decreases |pending|
  {
    if pending != [] {
      HomeAfterStable(w, v, pending[1..], p);
    }
  }

  lemma {:induction false} HomeAfterUnmentioned(w: World, pending: seq<Snapshot>, p: Pid)
    requires p in w.placements
    requires forall s | s in pending :: s.pid != p || !Live(w, s)
    ensures HomeAfter(w, pending, p) == w.placements[p]
    decreases |pending|
  {
    if pending != [] {
      assert pending[0] in pending;
      HomeAfterUnmentioned(w, pending[1..], p);
    }
  }

  lemma {:induction false} HomeAfterMentioned(w: World, pending: seq<Snapshot>, i: nat)
    requires i < |pending| && Live(w, pending[i])
    requires forall i, j | 0 <= i < j < |pending| :: pending[i].pid != pending[j].pid
    ensures HomeAfter(w, pending, pending[i].pid) == pending[i].originalGroup
    decreases |pending|
  {
    if i > 0 {
      assert pending[0].pid != pending[i].pid;
      HomeAfterMentioned(w, pending[1..], i - 1);
    }
  }

  lemma {:induction false} RecoveredFrame(w: World, pending: seq<Snapshot>)
    requires w.Consistent() && Recoverable(w, pending)
    ensures var r := Recovered(w, pending);
      && r.Consistent()
      && r.starts == w.starts
      && r.placements.Keys == w.placements.Keys
      && r.groups.Keys <= w.groups.Keys
      && (forall g | g in w.groups && !IsManagedName(g) :: g in r.groups)
    decreases |pending|
  {
    if pending != [] {
      RecoverableRest(w, pending);
      RolledBackKeepsConsistency(w, pending[0]);
      RolledBackFrame(w, pending[0]);
      RecoveredFrame(RolledBack(w, pending[0]), pending[1..]);
    }
  }

  lemma {:induction false} RecoveredPlacement(w: World, pending: seq<Snapshot>, p: Pid)
    requires w.Consistent() && Recoverable(w, pending) && p in w.placements
    ensures p in Recovered(w, pending).placements
    ensures Recovered(w, pending).placements[p] == HomeAfter(w, pending, p)
    decreases |pending|
  {
    if pending != [] {
      var s, rest := pending[0], pending[1..];
      var v := RolledBack(w, s);
      RecoverableRest(w, pending);
      RolledBackKeepsConsistency(w, s);
      RolledBackFrame(w, s);
      RecoveredPlacement(v, rest, p);
      if p == s.pid && Live(w, s) {
        forall j | 0 <= j < |rest|
          ensures rest[j].pid != p
        {
          assert rest[j] == pending[j + 1];
        }
        HomeAfterUnmentioned(v, rest, p);
      } else {
        HomeAfterStable(w, v, rest, p);
      }
    }
  }

  /** A group recovery removes was the owned target of some snapshot, and all
      of its members went elsewhere. */
  lemma {:induction false} RecoveredRemovals(w: World, pending: seq<Snapshot>, g: string)
    requires w.Consistent() && Recoverable(w, pending)
    requires g in w.groups && g !in Recovered(w, pending).groups
    ensures w.groups[g].owned && exists s :: s in pending && s.targetGroup == g
    ensures forall p | p in w.placements && w.placements[p] == g ::
              exists s :: s in pending && s.pid == p && Live(w, s)
    decreases |pending|
  {
    if pending != [] {
      var s, rest := pending[0], pending[1..];
      var v := RolledBack(w, s);
      RecoverableRest(w, pending);
      RolledBackKeepsConsistency(w, s);
      RolledBackFrame(w, s);
      assert s in pending;
      if g in v.groups {
        RecoveredRemovals(v, rest, g);
        var t :| t in rest && t.targetGroup == g;
        assert t in pending;
      } else {
        RolledBackRemovesOnlyEmptyTargets(w, s, g);
      }
      forall p | p in w.placements && w.placements[p] == g
        ensures exists s :: s in pending && s.pid == p && Live(w, s)
      {
        if g in v.groups && v.placements[p] == g {
          var t :| t in rest && t.pid == p && Live(v, t);
          assert t in pending && Live(w, t);
        } else if g in v.groups {
          assert p == s.pid && Live(w, s);
        }
      }
    }
  }

  /** The statement a user of recovery relies on: every live process named by a
      snapshot ends in its original group, no other process moves, and no
      external group goes away. */
  lemma RecoveryBringsEveryProcessHome(w: World, pending: seq<Snapshot>)
    requires w.Consistent() && Recoverable(w, pending)
    ensures var r := Recovered(w, pending);
      && r.placements.Keys == w.placements.Keys
      && (forall i | 0 <= i < |pending| && Live(w, pending[i]) ::
            r.placements[pending[i].pid] == pending[i].originalGroup)
      && (forall p | p in w.placements && (forall s | s in pending :: s.pid != p || !Live(w, s)) ::
            r.placements[p] == w.placements[p])
      && (forall g | g in w.groups && !IsManagedName(g) :: g in r.groups)
  {
    var r := Recovered(w, pending);
    RecoveredFrame(w, pending);
    forall i | 0 <= i < |pending| && Live(w, pending[i])
      ensures r.placements[pending[i].pid] == pending[i].originalGroup
    {
      HomeAfterMentioned(w, pending, i);
      RecoveredPlacement(w, pending, pending[i].pid);
    }
    forall p | p in w.placements && (forall s | s in pending :: s.pid != p || !Live(w, s))
      ensures r.placements[p] == w.placements[p]
    {
      HomeAfterUnmentioned(w, pending, p);
      RecoveredPlacement(w, pending, p);
    }
  }

  // -------------------------------------------------------------------
  // Whole runs: nobody is ever stranded
  // -------------------------------------------------------------------

  /** The processes that have two pending snapshots. */
  ghost function Doubled(snapshots: map<nat, Snapshot>, home: map<Pid, string>): set<Pid> {
    set p | p in home && Twice(snapshots, p)
  }

  ghost predicate Twice(snapshots: map<nat, Snapshot>, p: Pid) {
    exists id, other :: id != other && OfPending(snapshots, id, p) && OfPending(snapshots, other, p)
  }

  ghost predicate OfPending(snapshots: map<nat, Snapshot>, id: nat, p: Pid) {
    id in snapshots && snapshots[id].Pending() && snapshots[id].pid == p
  }

  /** Every placed process is at home, or a pending snapshot of that very process
      says where home is, and it has no other pending snapshot.  Strayed processes
      are promised nothing. */
  ghost predicate Accounted(w: World, snapshots: map<nat, Snapshot>, home: map<Pid, string>, strayed: set<Pid>) {
    && w.Consistent()
    && (forall p | p in home && p !in strayed :: !IsManagedName(home[p]) && home[p] in w.groups)
    && (forall p | p in w.placements ::
          p in home && (p in strayed || w.placements[p] == home[p] || Excused(w, snapshots, home, p)))
    && (forall id | id in snapshots && snapshots[id].Pending() ::
          var s := snapshots[id];
          IsManagedName(s.targetGroup) && s.pid in home && (s.pid in strayed || s.originalGroup == home[s.pid]))
    && (forall p | p in home && p !in strayed :: !Twice(snapshots, p))
  }

  ghost predicate Excused(w: World, snapshots: map<nat, Snapshot>, home: map<Pid, string>, p: Pid)
    requires p in home
  {
    exists id :: Excuses(w, snapshots, home, p, id)
  }

  ghost predicate Excuses(w: World, snapshots: map<nat, Snapshot>, home: map<Pid, string>, p: Pid, id: nat)
    requires p in home
  {
    OfPending(snapshots, id, p) && snapshots[id].originalGroup == home[p] && Live(w, snapshots[id])
  }

  lemma AccountedWider(w: World, snapshots: map<nat, Snapshot>, home: map<Pid, string>, strayed: set<Pid>,
                       wider: set<Pid>)
    requires Accounted(w, snapshots, home, strayed) && strayed <= wider
    ensures Accounted(w, snapshots, home, wider)
  {
  }

  lemma AccountedAllows(w: World, snapshots: map<nat, Snapshot>, home: map<Pid, string>, strayed: set<Pid>, id: nat)
    requires Accounted(w, snapshots, home, strayed)
    requires id in snapshots && snapshots[id].Pending() && snapshots[id].pid !in strayed
    ensures RollbackAllowed(w, snapshots[id])
  {
  }

  lemma AccountedAfterInterruption(w: World, snapshots: map<nat, Snapshot>, home: map<Pid, string>, strayed: set<Pid>,
                                   id: nat, v: World)
    requires Accounted(w, snapshots, home, strayed)
    requires id in snapshots && snapshots[id].Pending()
    requires SafelyInterrupted(w, snapshots[id], v) && v.Consistent()
    ensures Accounted(v, snapshots, home, strayed)
  {
    forall p | p in v.placements && p !in strayed && v.placements[p] != home[p]
      ensures Excused(v, snapshots, home, p)
    {
      var excuse :| Excuses(w, snapshots, home, p, excuse);
      assert Excuses(v, snapshots, home, p, excuse);
    }
  }

  /** Marking a snapshot rolled back, once its process is in its original group. */
  lemma AccountedAfterMark(w: World, snapshots: map<nat, Snapshot>, home: map<Pid, string>, strayed: set<Pid>, id: nat)
    requires Accounted(w, snapshots, home, strayed)
    requires id in snapshots && snapshots[id].Pending()
    requires Live(w, snapshots[id]) && snapshots[id].pid in w.placements ==>
               w.placements[snapshots[id].pid] == snapshots[id].originalGroup
    ensures Accounted(w, snapshots[id := snapshots[id].(rolledBack := true)], home, strayed)
  {
    var after := snapshots[id := snapshots[id].(rolledBack := true)];
    forall p | p in w.placements && p !in strayed && w.placements[p] != home[p]
      ensures Excused(w, after, home, p)
    {
      var excuse :| Excuses(w, snapshots, home, p, excuse);
      assert Excuses(w, after, home, p, excuse);
    }
    forall p | p in home && p !in strayed
      ensures !Twice(after, p)
    {
      assert forall other :: OfPending(after, other, p) ==> OfPending(snapshots, other, p);
    }
  }

  lemma AccountedAfterRollback(w: World, snapshots: map<nat, Snapshot>, home: map<Pid, string>, strayed: set<Pid>,
                               id: nat)
    requires Accounted(w, snapshots, home, strayed)
    requires id in snapshots && snapshots[id].Pending() && RollbackAllowed(w, snapshots[id])
    ensures Accounted(RolledBack(w, snapshots[id]), snapshots[id := snapshots[id].(rolledBack := true)], home, strayed)
  {
    var s := snapshots[id];
    RolledBackFrame(w, s);
    RolledBackKeepsConsistency(w, s);
    AccountedAfterInterruption(w, snapshots, home, strayed, id, RolledBack(w, s));
    AccountedAfterMark(RolledBack(w, s), snapshots, home, strayed, id);
  }

  /** An attempted apply, as far as whole runs are concerned: at most its own
      process moved, at most one snapshot was added, and if the process is not
      where it was then the new snapshot is pending and says where it was. */
  ghost predicate ApplyAttempt(w: World, snapshots: map<nat, Snapshot>, pid: Pid,
                               v: World, after: map<nat, Snapshot>, id: nat)
  {
    && v.Consistent() && OnlyMoved(w, pid, v)
    && id !in snapshots
    && (after == snapshots || (id in after && after == snapshots[id := after[id]]))
    && (id in after && after[id].Pending() ==>
          && after[id].pid == pid && IsManagedName(after[id].targetGroup)
          && Lookup(w.placements, pid) == Some(after[id].originalGroup)
          && Live(w, after[id]))
    && (Lookup(v.placements, pid) == Lookup(w.placements, pid)
        || (id in after && after[id].Pending()))
  }

  lemma AccountedAfterApply(w: World, snapshots: map<nat, Snapshot>, home: map<Pid, string>, strayed: set<Pid>,
                            pid: Pid, v: World, after: map<nat, Snapshot>, id: nat)
    requires Accounted(w, snapshots, home, strayed)
    requires ApplyAttempt(w, snapshots, pid, v, after, id)
    requires forall p | p in home && p !in strayed :: !Twice(after, p)
    ensures Accounted(v, after, home, strayed)
  {
    forall p | p in v.placements && p !in strayed && v.placements[p] != home[p]
      ensures Excused(v, after, home, p)
    {
      if w.placements[p] == home[p] {
        assert Excuses(v, after, home, p, id);
      } else {
        var excuse :| Excuses(w, snapshots, home, p, excuse);
        assert Excuses(v, after, home, p, excuse);
      }
    }
    if id in after && after[id].Pending() && pid !in strayed && w.placements[pid] != home[pid] {
      var excuse :| Excuses(w, snapshots, home, pid, excuse);
      assert OfPending(after, excuse, pid) && OfPending(after, id, pid);
      assert false;
    }
  }

  /** A process that terminates. */
  function Exited(w: World, pid: Pid): World {
    World(map g | g in w.groups :: w.groups[g].(pids := w.groups[g].pids - {pid}),
          w.starts - {pid}, w.placements - {pid})
  }

  lemma AccountedAfterExit(w: World, snapshots: map<nat, Snapshot>, home: map<Pid, string>, strayed: set<Pid>, pid: Pid)
    requires Accounted(w, snapshots, home, strayed)
    ensures Accounted(Exited(w, pid), snapshots, home, strayed)
  {
    var v := Exited(w, pid);
    forall p | p in v.placements && p !in strayed && v.placements[p] != home[p]
      ensures Excused(v, snapshots, home, p)
    {
      var excuse :| Excuses(w, snapshots, home, p, excuse);
      assert Excuses(v, snapshots, home, p, excuse);
    }
  }

  /** The listed snapshots are on record, pending, each once. */
  ghost predicate OnRecord(pending: seq<Snapshot>, snapshots: map<nat, Snapshot>) {
    && (forall i | 0 <= i < |pending| ::
          pending[i].id in snapshots && snapshots[pending[i].id] == pending[i] && pending[i].Pending())
    && (forall i, j | 0 <= i < j < |pending| :: pending[i].id != pending[j].id)
  }

  /** `pending` lists exactly the pending snapshots. */
  ghost predicate Lists(pending: seq<Snapshot>, snapshots: map<nat, Snapshot>) {
    && OnRecord(pending, snapshots)
    && (forall id | id in snapshots && snapshots[id].Pending() :: snapshots[id] in pending)
  }

  /** When nobody strayed, every rollback is allowed. */
  lemma AccountedIsRecoverable(w: World, snapshots: map<nat, Snapshot>, home: map<Pid, string>, pending: seq<Snapshot>)
    requires Accounted(w, snapshots, home, {}) && Lists(pending, snapshots)
    ensures Recoverable(w, pending)
  {
    forall i, j | 0 <= i < j < |pending|
      ensures pending[i].pid != pending[j].pid
    {
      var p := pending[i].pid;
      assert snapshots[pending[i].id] == pending[i] && snapshots[pending[j].id] == pending[j];
      assert OfPending(snapshots, pending[i].id, p) && p in home && !Twice(snapshots, p);
      assert !OfPending(snapshots, pending[j].id, p);
    }
  }

  /** Every pending snapshot of one process is listed. */
  ghost predicate ListsAllOf(pending: seq<Snapshot>, snapshots: map<nat, Snapshot>, p: Pid) {
    forall id | OfPending(snapshots, id, p) :: exists i :: 0 <= i < |pending| && pending[i].id == id
  }

  lemma RestAfterRollback(pending: seq<Snapshot>, snapshots: map<nat, Snapshot>, p: Pid)
    requires pending != [] && OnRecord(pending, snapshots) && ListsAllOf(pending, snapshots, p)
    ensures var s := pending[0];
      var after := snapshots[s.id := s.(rolledBack := true)];
      OnRecord(pending[1..], after) && ListsAllOf(pending[1..], after, p)
  {
    var s, rest := pending[0], pending[1..];
    var after := snapshots[s.id := s.(rolledBack := true)];
    forall id | OfPending(after, id, p)
      ensures exists i :: 0 <= i < |rest| && rest[i].id == id
    {
      assert OfPending(snapshots, id, p);
      var i :| 0 <= i < |pending| && pending[i].id == id;
      assert pending[i] == rest[i - 1];
    }
  }

  lemma RestAfterRefusal(pending: seq<Snapshot>, snapshots: map<nat, Snapshot>, p: Pid)
    requires pending != [] && OnRecord(pending, snapshots) && ListsAllOf(pending, snapshots, p)
    requires pending[0].pid != p
    ensures OnRecord(pending[1..], snapshots) && ListsAllOf(pending[1..], snapshots, p)
  {
    forall id | OfPending(snapshots, id, p)
      ensures exists i :: 0 <= i < |pending[1..]| && pending[1..][i].id == id
    {
      var i :| 0 <= i < |pending| && pending[i].id == id;
      assert pending[i] == pending[1..][i - 1];
    }
  }

  /** Recovery from an accounted state brings every process home that has not
      strayed, whatever becomes of the others. */
  lemma {:induction false} AccountedComesHome(w: World, snapshots: map<nat, Snapshot>, home: map<Pid, string>,
                                              strayed: set<Pid>, pending: seq<Snapshot>, p: Pid)
    requires Accounted(w, snapshots, home, strayed)
    requires OnRecord(pending, snapshots) && ListsAllOf(pending, snapshots, p)
    requires p in w.placements && p !in strayed
    ensures Lookup(Recovered(w, pending).placements, p) == Some(home[p])
    decreases |pending|
  {
    if pending == [] {
      NothingListed(w, snapshots, home, p);
    } else {
      var s := pending[0];
      assert snapshots[s.id] == s && s.Pending();
      if RollbackAllowed(w, s) {
        AccountedAfterRollback(w, snapshots, home, strayed, s.id);
        RolledBackFrame(w, s);
        RestAfterRollback(pending, snapshots, p);
        AccountedComesHome(RolledBack(w, s), snapshots[s.id := s.(rolledBack := true)], home, strayed, pending[1..], p);
      } else {
        if s.pid !in strayed {
          AccountedAllows(w, snapshots, home, strayed, s.id);
        }
        RestAfterRefusal(pending, snapshots, p);
        AccountedComesHome(w, snapshots, home, strayed, pending[1..], p);
      }
    }
  }

  lemma NothingListed(w: World, snapshots: map<nat, Snapshot>, home: map<Pid, string>, p: Pid)
    requires ListsAllOf([], snapshots, p) && p in home
    ensures !Excused(w, snapshots, home, p)
  {
    assert forall id :: Excuses(w, snapshots, home, p, id) ==> OfPending(snapshots, id, p);
  }

  // -------------------------------------------------------------------
  // What repeated applies lose
  // -------------------------------------------------------------------

  /** An apply moves its process into its target and no other. */
  lemma AppliedFrame(w: World, target: string, limits: Limits, pid: Pid)
    ensures var a := Applied(w, target, limits, pid);
      && a.starts == w.starts && a.placements == w.placements[pid := target]
      && a.groups.Keys == w.groups.Keys + {target}
      && (forall g | g in w.groups :: a.groups[g].owned == w.groups[g].owned)
      && (target !in w.groups ==> a.groups[target].owned)
  {
  }

  /** The snapshot of a second apply, taken where the first one left the process. */
  function SecondSnapshot(w: World, target: string, next: string, first: Limits, second: Limits, pid: Pid, id: nat)
    : Snapshot
    requires pid in w.starts && pid in w.placements
  {
    AppliedFrame(w, target, first, pid);
    SnapshotOf(Applied(w, target, first, pid), id + 1, pid, next, second)
  }

  /** Applying twice to one process before any rollback, to the same or to another
      target, leaves a second snapshot whose original group is the first target.
      Undoing both, oldest first, brings the process home for good exactly when the
      first target had no other members and so disappeared; then the second
      snapshot can never be undone.  Otherwise undoing it moves the process back
      into the first target. */
  lemma SecondApplyCannotBeUndone(w: World, target: string, next: string, first: Limits, second: Limits, pid: Pid,
                                  id: nat)
    requires w.Consistent() && IsManagedName(target) && IsManagedName(next)
    requires pid in w.starts && pid in w.placements && w.placements[pid] != target
    ensures var s1 := SnapshotOf(w, id, pid, target, first);
      var s2 := SecondSnapshot(w, target, next, first, second, pid, id);
      var undone := RolledBack(Applied(Applied(w, target, first, pid), next, second, pid), s1);
      && Lookup(undone.placements, pid) == Some(w.placements[pid])
      && (RollbackAllowed(undone, s2) <==> target in w.groups && !w.Removable(target))
      && (RollbackAllowed(undone, s2) ==> Lookup(RolledBack(undone, s2).placements, pid) == Some(target))
  {
    var s1 := SnapshotOf(w, id, pid, target, first);
    var once := Applied(w, target, first, pid);
    var s2 := SecondSnapshot(w, target, next, first, second, pid, id);
    var twice := Applied(once, next, second, pid);
    AppliedKeepsConsistency(w, target, first, pid);
    AppliedKeepsConsistency(once, next, second, pid);
    AppliedFrame(w, target, first, pid);
    AppliedFrame(once, next, second, pid);
    RolledBackFrame(twice, s1);
    MembersAfterTwoMoves(w, target, next, first, second, pid);
    FateOfTarget(twice, s1);
    RolledBackFrame(RolledBack(twice, s1), s2);
  }

  /** Moved on, the process leaves the first target with the members it had; in the
      same target it is one member more. */
  lemma MembersAfterTwoMoves(w: World, target: string, next: string, first: Limits, second: Limits, pid: Pid)
    requires w.Consistent() && pid in w.placements && w.placements[pid] != target
    ensures var twice := Applied(Applied(w, target, first, pid), next, second, pid);
      target in twice.groups
      && twice.groups[target].pids - {pid} == if target in w.groups then w.groups[target].pids else {}
  {
    var once := Applied(w, target, first, pid);
    assert target in w.groups ==> pid !in w.groups[target].pids;
    assert once.groups[target].pids - {pid} == if target in w.groups then w.groups[target].pids else {};
    assert once.placements[pid] == target;
  }

  /** A rollback that moves its process out of the target removes the target exactly
      when it is owned and has no other member. */
  lemma FateOfTarget(w: World, s: Snapshot)
    requires w.Consistent() && Live(w, s) && s.originalGroup != s.targetGroup && s.targetGroup in w.groups
    ensures s.targetGroup in RolledBack(w, s).groups <==>
              !(w.groups[s.targetGroup].owned && w.groups[s.targetGroup].pids - {s.pid} == {})
  {
    var t, back := s.targetGroup, Returned(w, s);
    assert back.groups[t].owned == w.groups[t].owned;
    assert back.groups[t].pids == w.groups[t].pids - {s.pid};
  }

  // -------------------------------------------------------------------
  // Limits
  // -------------------------------------------------------------------

  /** The limits recovery leaves on a group: those the last pending snapshot of that
      target took down whose rollback is not refused, or the ones the group has. */
  function LimitsAfter(w: World, pending: seq<Snapshot>, g: string): Limits
    requires g in w.groups
  {
    if pending == [] then w.groups[g].limits
    else
      var last := pending[|pending| - 1];
      var init := pending[..|pending| - 1];
      if last.targetGroup == g && RollbackAllowed(Recovered(w, init), last) then last.originalLimits
      else LimitsAfter(w, init, g)
  }

  lemma {:induction false} RecoveredSplits(w: World, pending: seq<Snapshot>)
    requires pending != []
    ensures Recovered(w, pending)
         == Undone(Recovered(w, pending[..|pending| - 1]), pending[|pending| - 1])
    decreases |pending|
  {
    var init, last := pending[..|pending| - 1], pending[|pending| - 1];
    if init == [] {
      assert pending[1..] == [];
    } else {
      RecoveredSplits(Undone(w, pending[0]), pending[1..]);
      assert pending[1..][..|pending| - 2] == init[1..];
      assert init[0] == pending[0];
    }
  }

  /** Recovery leaves every group that survives it with exactly those limits. */
  lemma {:induction false} RecoveredLimits(w: World, pending: seq<Snapshot>, g: string)
    requires forall s | s in pending :: IsManagedName(s.targetGroup)
    requires g in Recovered(w, pending).groups
    ensures g in w.groups && Recovered(w, pending).groups[g].limits == LimitsAfter(w, pending, g)
    decreases |pending|
  {
    if pending != [] {
      var init, last := pending[..|pending| - 1], pending[|pending| - 1];
      RecoveredSplits(w, pending);
      RolledBackFrame(Recovered(w, init), last);
      RecoveredLimits(w, init, g);
      if last.targetGroup == g && RollbackAllowed(Recovered(w, init), last) {
        RolledBackTarget(Recovered(w, init), last);
      }
    }
  }

  /** Both rollbacks of two processes moved into one target are allowed, and the
      second snapshot took down the limits of the first move. */
  lemma SharedTargetRollbacks(w: World, target: string, first: Limits, second: Limits, p: Pid, q: Pid, id: nat)
    requires w.Consistent() && IsManagedName(target) && p != q
    requires p in w.starts && p in w.placements && w.placements[p] != target
    requires q in w.starts && q in w.placements && w.placements[q] != target
    ensures var once := Applied(w, target, first, p);
      var s1, s2 := SnapshotOf(w, id, p, target, first), SnapshotOf(once, id + 1, q, target, second);
      var twice := Applied(once, target, second, q);
      && s2.originalLimits == first && target in twice.groups
      && RollbackAllowed(twice, s1) && RollbackAllowed(Undone(twice, s1), s2)
  {
    var once := Applied(w, target, first, p);
    var twice := Applied(once, target, second, q);
    AppliedFrame(w, target, first, p);
    AppliedFrame(once, target, second, q);
    RolledBackFrame(twice, SnapshotOf(w, id, p, target, first));
  }

  /** Two processes moved into one target that outlives them: undoing both, oldest
      first, leaves the limits the first move asked for.  The limits of before come
      back exactly when the first move did not change them. */
  lemma SharedTargetKeepsFirstLimits(w: World, target: string, first: Limits, second: Limits, p: Pid, q: Pid, id: nat)
    requires w.Consistent() && IsManagedName(target) && p != q
    requires p in w.starts && p in w.placements && w.placements[p] != target
    requires q in w.starts && q in w.placements && w.placements[q] != target
    ensures var once := Applied(w, target, first, p);
      var s1, s2 := SnapshotOf(w, id, p, target, first), SnapshotOf(once, id + 1, q, target, second);
      var r := Recovered(Applied(once, target, second, q), [s1, s2]);
      target in r.groups ==>
        && r.groups[target].limits == first
        && (r.groups[target].limits == LimitsOf(w, target) <==> first == LimitsOf(w, target))
  {
    var once := Applied(w, target, first, p);
    var s1, s2 := SnapshotOf(w, id, p, target, first), SnapshotOf(once, id + 1, q, target, second);
    var twice := Applied(once, target, second, q);
    SharedTargetRollbacks(w, target, first, second, p, q, id);
    RecoveredTwo(twice, s1, s2, target);
  }

  lemma RecoveredTwo(w: World, first: Snapshot, second: Snapshot, g: string)
    requires g in w.groups && IsManagedName(first.targetGroup) && second.targetGroup == g
    requires RollbackAllowed(Undone(w, first), second)
    ensures LimitedIfThere(Recovered(w, [first, second]), g, second.originalLimits)
  {
    if g in Recovered(w, [first, second]).groups {
      RecoveredLimits(w, [first, second], g);
      LastOfTwo(w, first, second, g);
    }
  }

  lemma LastOfTwo(w: World, first: Snapshot, second: Snapshot, g: string)
    requires g in w.groups && second.targetGroup == g && RollbackAllowed(Undone(w, first), second)
    ensures LimitsAfter(w, [first, second], g) == second.originalLimits
  {
    assert [first, second][..1] == [first];
    assert Recovered(w, [first]) == Undone(w, first) by {
      assert [first][1..] == [];
    }
  }
}
