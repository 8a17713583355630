/** Fail-closed cleanup of the transient scope a run executed in.  Everything the
    cleanup asks of the system is answered by an environment that may answer
    differently every time. */
module ScopeCleanup {
  import opened Wrappers

  datatype Identity = Identity(pid: nat, startTicks: nat)

  datatype ScopePlan = ScopePlan(unitName: string, memoryMax: nat, runtimeMaxUsec: nat, identity: Identity)

  datatype ScopeState = ScopeState(
    unitName: string,
    objectPath: string,
    controlGroup: string,
    memoryMax: nat,
    runtimeMaxUsec: nat,
    activeState: string,
    subState: string,
    members: set<nat>)

  datatype ReadResult = Unreadable | Absent | Present(state: ScopeState)

  /** The start ticks found for a pid, or that reading them failed. */
  datatype TicksResult = TicksUnreadable | NoProcess | Ticks(ticks: nat)

  datatype StopResult = Stopped | NoSuchUnit | StopError

  datatype Event =
    | Probed(absent: bool)
    | ReadScope(scope: ReadResult)
    | Counted(members: Option<nat>)
    | StopRequested(outcome: StopResult)
    | Waited(removed: bool)

  predicate ExactOwnership(current: ScopeState, original: ScopeState, plan: ScopePlan) {
    && current.unitName == plan.unitName
    && current.objectPath == original.objectPath
    && current.controlGroup == original.controlGroup
    && current.memoryMax == plan.memoryMax
    && current.runtimeMaxUsec == plan.runtimeMaxUsec
    && forall pid | pid in current.members :: pid == plan.identity.pid
  }

  datatype StopAction = AlreadyAbsent | StopUnitRequested | NoSuchUnitReconciled | StopFailed

  datatype Classification =
    | Clean
    | ActiveOrMembered
    | OwnershipAmbiguous
    | StateUnreadable
    | RemovalTimeout
    | StopFailure

  datatype Evidence = Evidence(
    workerAbsent: bool,
    preStopReadable: bool,
    preStopPresent: bool,
    preStopMembers: Option<nat>,
    ownershipExact: bool,
    action: StopAction,
    noSuchUnitTyped: bool,
    finalReadable: bool,
    finalMembers: Option<nat>,
    zeroMembers: bool,
    unitRemoved: bool,
    classification: Classification)
  {
    predicate Passed() {
      && workerAbsent
      && finalReadable
      && zeroMembers
      && unitRemoved
      && classification == Clean
      && action != StopFailed
    }
  }

  class Environment {
    const ticks: nat -> TicksResult
    const scopes: nat -> ReadResult
    const counts: nat -> Option<nat>
    const stops: nat -> StopResult
    const waits: nat -> bool
    /** Everything asked so far, with the answers. */
    var trace: seq<Event>

    constructor (ticks: nat -> TicksResult, scopes: nat -> ReadResult, counts: nat -> Option<nat>,
                 stops: nat -> StopResult, waits: nat -> bool)
      ensures trace == []
    {
      this.ticks, this.scopes, this.counts, this.stops, this.waits := ticks, scopes, counts, stops, waits;
      trace := [];
    }

    /** The worker counts as absent when its pid is gone or belongs to another
        process; an unreadable answer does not count. */
    method ProbeWorker(identity: Identity) returns (absent: bool)
      modifies this`trace
      ensures trace == old(trace) + [Probed(absent)]
      ensures absent <==> match ticks(|old(trace)|)
                          case TicksUnreadable => false
                          case NoProcess => true
                          case Ticks(t) => t != identity.startTicks
    {
      match ticks(|trace|) {
        case TicksUnreadable => absent := false;
        case NoProcess => absent := true;
        case Ticks(t) => absent := t != identity.startTicks;
      }
      trace := trace + [Probed(absent)];
    }

    method ReadScopeState() returns (r: ReadResult)
      modifies this`trace
      ensures r == scopes(|old(trace)|) && trace == old(trace) + [ReadScope(r)]
    {
      r := scopes(|trace|);
      trace := trace + [ReadScope(r)];
    }

    method CountMembers() returns (n: Option<nat>)
      modifies this`trace
      ensures n == counts(|old(trace)|) && trace == old(trace) + [Counted(n)]
    {
      n := counts(|trace|);
      trace := trace + [Counted(n)];
    }

    method StopOwnedScope() returns (r: StopResult)
      modifies this`trace
      ensures r == stops(|old(trace)|) && trace == old(trace) + [StopRequested(r)]
    {
      r := stops(|trace|);
      trace := trace + [StopRequested(r)];
    }

    method WaitInactiveOrRemoved() returns (removed: bool)
      modifies this`trace
      ensures removed == waits(|old(trace)|) && trace == old(trace) + [Waited(removed)]
    {
      removed := waits(|trace|);
      trace := trace + [Waited(removed)];
    }
  }

  /** How asking for the stop went. */
  datatype StopOutcome =
    | NotRequested
    | Removed
    | TimedOut
    | NoSuch(again: ReadResult, absent: bool, members: Option<nat>)
    | Refused
  {
    function Events(): seq<Event> {
      match this
      case NotRequested => []
      case Removed => [StopRequested(Stopped), Waited(true)]
      case TimedOut => [StopRequested(Stopped), Waited(false)]
      case NoSuch(again, absent, members) =>
        [StopRequested(NoSuchUnit), ReadScope(again), Probed(absent)] + if absent then [Counted(members)] else []
      case Refused => [StopRequested(StopError)]
    }

    predicate Reconciled() {
      NoSuch? && again.Absent? && absent && members == Some(0)
    }
  }

  /** Only an exactly owned unit, with an empty cgroup and no worker, may be
      stopped. */
  predicate StopJustified(pre: ReadResult, members: Option<nat>, absent: bool, original: ScopeState, plan: ScopePlan) {
    pre.Present? && ExactOwnership(pre.state, original, plan) && members == Some(0) && absent
  }

  /** Everything one cleanup learned. */
  datatype Observations = Observations(
    wasAbsent: bool,
    pre: ReadResult,
    preMembers: Option<nat>,
    stop: StopOutcome,
    final: ReadResult,
    finalMembers: Option<nat>,
    stillAbsent: bool)
  {
    function Events(): seq<Event> {
      [Probed(wasAbsent), ReadScope(pre), Counted(preMembers)] + stop.Events()
      + [ReadScope(final), Counted(finalMembers), Probed(stillAbsent)]
    }
  }

  function Classify(preReadable: bool, finalReadable: bool, action: StopAction, timedOut: bool, exact: bool,
                    preMembers: Option<nat>, absent: bool, zeroMembers: bool, removed: bool): Classification
  {
    if !preReadable || !finalReadable then StateUnreadable
    else if action == StopFailed then
      if timedOut then RemovalTimeout
      else if !exact || preMembers.None? || preMembers.value > 0 then OwnershipAmbiguous
      else StopFailure
    else if !absent || !zeroMembers || !removed then ActiveOrMembered
    else Clean
  }

  function EvidenceOf(o: Observations, original: ScopeState, plan: ScopePlan): Evidence {
    var preReadable := !o.pre.Unreadable?;
    var exact := if o.pre.Present? then ExactOwnership(o.pre.state, original, plan) else preReadable;
    var action :=
      if o.pre.Absent? then AlreadyAbsent
      else if o.stop.Removed? then StopUnitRequested
      else if o.stop.Reconciled() then NoSuchUnitReconciled
      else StopFailed;
    Evidence(o.stillAbsent, preReadable, o.pre.Present?, o.preMembers, exact, action, o.stop.NoSuch?,
             !o.final.Unreadable?, o.finalMembers, o.finalMembers == Some(0), o.final.Absent?,
             Classify(preReadable, !o.final.Unreadable?, action, o.stop.TimedOut?, exact, o.preMembers,
                      o.stillAbsent, o.finalMembers == Some(0), o.final.Absent?))
  }

  method StopScope(env: Environment, plan: ScopePlan) returns (outcome: StopOutcome)
    modifies env`trace
    ensures env.trace == old(env.trace) + outcome.Events() && outcome != NotRequested
    ensures outcome.NoSuch? && !outcome.absent ==> outcome.members == None
  {
    var stopped := env.StopOwnedScope();
    match stopped {
      case Stopped =>
        var removed := env.WaitInactiveOrRemoved();
        outcome := if removed then Removed else TimedOut;
      case NoSuchUnit =>
        var again := env.ReadScopeState();
        var absent := env.ProbeWorker(plan.identity);
        var members: Option<nat> := None;
        if absent {
          members := env.CountMembers();
        }
        outcome := NoSuch(again, absent, members);
      case StopError => outcome := Refused;
    }
  }

  method LookBefore(env: Environment, plan: ScopePlan)
    returns (absent: bool, scope: ReadResult, members: Option<nat>)
    modifies env`trace
    ensures env.trace == old(env.trace) + [Probed(absent), ReadScope(scope), Counted(members)]
  {
    absent := env.ProbeWorker(plan.identity);
    scope := env.ReadScopeState();
    members := env.CountMembers();
  }

  method LookAfter(env: Environment, plan: ScopePlan)
    returns (scope: ReadResult, members: Option<nat>, absent: bool)
    modifies env`trace
    ensures env.trace == old(env.trace) + [ReadScope(scope), Counted(members), Probed(absent)]
  {
    scope := env.ReadScopeState();
    members := env.CountMembers();
    absent := env.ProbeWorker(plan.identity);
  }

  lemma Appended(trace: seq<Event>, a: seq<Event>, b: seq<Event>, c: seq<Event>)
    ensures trace + a + b + c == trace + (a + b + c)
  {
  }

  /** Reconcile the scope with the frozen plan: the exact sequence of questions
      asked, and the evidence drawn from the answers.  A stop is requested exactly
      when it is justified by the answers to the first three. */
  method Reconcile(env: Environment, plan: ScopePlan, original: ScopeState)
    returns (e: Evidence, ghost o: Observations)
    modifies env`trace
    ensures env.trace == old(env.trace) + o.Events()
    ensures o.stop != NotRequested <==> StopJustified(o.pre, o.preMembers, o.wasAbsent, original, plan)
    ensures e == EvidenceOf(o, original, plan)
  {
    var absent, pre, preMembers := LookBefore(env, plan);
    var preReadable := !pre.Unreadable?;
    var exact := if pre.Present? then ExactOwnership(pre.state, original, plan) else preReadable;
    var action, outcome := StopFailed, NotRequested;
    if preReadable && !pre.Present? {
      action := AlreadyAbsent;
    } else if preReadable && exact && preMembers == Some(0) && absent {
      outcome := StopScope(env, plan);
      action := if outcome.Removed? then StopUnitRequested
                else if outcome.Reconciled() then NoSuchUnitReconciled
                else StopFailed;
    }
    var final, finalMembers, stillAbsent := LookAfter(env, plan);
    o := Observations(absent, pre, preMembers, outcome, final, finalMembers, stillAbsent);
    Appended(old(env.trace), [Probed(absent), ReadScope(pre), Counted(preMembers)], outcome.Events(),
             [ReadScope(final), Counted(finalMembers), Probed(stillAbsent)]);
    var classification := Classify(preReadable, !final.Unreadable?, action, outcome.TimedOut?, exact, preMembers,
                                   stillAbsent, finalMembers == Some(0), final.Absent?);
    e := Evidence(stillAbsent, preReadable, pre.Present?, preMembers, exact, action, outcome.NoSuch?,
                  !final.Unreadable?, finalMembers, finalMembers == Some(0), final.Absent?, classification);
  }

  // -------------------------------------------------------------------
  // What the evidence is worth
  // -------------------------------------------------------------------

  function Stops(events: seq<Event>): nat {
    if events == [] then 0
    else (if events[0].StopRequested? then 1 else 0) + Stops(events[1..])
  }

  lemma {:induction false} StopsAppend(a: seq<Event>, b: seq<Event>)
    ensures Stops(a + b) == Stops(a) + Stops(b)
  {
    if a == [] {
      assert a + b == b;
    } else {
      StopsAppend(a[1..], b);
      assert (a + b)[1..] == a[1..] + b;
    }
  }

  /** However the environment changes its answers, one cleanup requests at most
      one stop, and none before the ownership, the members and the worker have
      been looked at. */
  lemma AtMostOneStop(o: Observations)
    ensures Stops(o.Events()) == if o.stop == NotRequested then 0 else 1
    ensures Stops(o.Events()[..3]) == 0
  {
    var opening := [Probed(o.wasAbsent), ReadScope(o.pre), Counted(o.preMembers)];
    var closing := [ReadScope(o.final), Counted(o.finalMembers), Probed(o.stillAbsent)];
    var middle := o.stop.Events();
    StopsAppend(opening + middle, closing);
    StopsAppend(opening, middle);
    assert o.Events()[..3] == opening;
    NoStops(opening);
    NoStops(closing);
    if o.stop != NotRequested {
      NoStops(middle[1..]);
    }
  }

  lemma {:induction false} NoStops(events: seq<Event>)
    requires forall i | 0 <= i < |events| :: !events[i].StopRequested?
    ensures Stops(events) == 0
  {
    if events != [] {
      NoStops(events[1..]);
    }
  }

  /** A stop is requested exactly of a unit that was read back with the frozen name,
      object path, control group and limits and no member but the worker, whose
      cgroup counted nobody and whose worker is gone; and ownership is exact
      exactly for such a unit, whatever was counted. */
  lemma OnlyTheFrozenUnitIsStopped(o: Observations, original: ScopeState, plan: ScopePlan)
    requires o.stop != NotRequested <==> StopJustified(o.pre, o.preMembers, o.wasAbsent, original, plan)
    ensures Stops(o.Events()) == 1 <==>
              && o.pre.Present?
              && o.pre.state.unitName == plan.unitName
              && o.pre.state.objectPath == original.objectPath
              && o.pre.state.controlGroup == original.controlGroup
              && o.pre.state.memoryMax == plan.memoryMax
              && o.pre.state.runtimeMaxUsec == plan.runtimeMaxUsec
              && o.pre.state.members <= {plan.identity.pid}
              && o.preMembers == Some(0) && o.wasAbsent
    ensures EvidenceOf(o, original, plan).ownershipExact <==>
              || o.pre.Absent?
              || (&& o.pre.Present?
                  && o.pre.state.unitName == plan.unitName
                  && o.pre.state.objectPath == original.objectPath
                  && o.pre.state.controlGroup == original.controlGroup
                  && o.pre.state.memoryMax == plan.memoryMax
                  && o.pre.state.runtimeMaxUsec == plan.runtimeMaxUsec
                  && o.pre.state.members <= {plan.identity.pid})
  {
    AtMostOneStop(o);
  }

  /** Every classification other than clean, by what was observed. */
  lemma ClassifiedExactly(o: Observations, original: ScopeState, plan: ScopePlan)
    requires o.stop != NotRequested <==> StopJustified(o.pre, o.preMembers, o.wasAbsent, original, plan)
    ensures var e := EvidenceOf(o, original, plan);
      var read := !o.pre.Unreadable? && !o.final.Unreadable?;
      && (e.classification == StateUnreadable <==> !read)
      && (e.classification == RemovalTimeout <==> read && o.stop == TimedOut)
      && (e.classification == OwnershipAmbiguous <==>
            read && o.pre.Present? && !(e.ownershipExact && o.preMembers == Some(0)))
      && (e.classification == StopFailure <==>
            && read && o.pre.Present? && e.ownershipExact && o.preMembers == Some(0)
            && (!o.wasAbsent || o.stop == Refused
                || (o.stop.NoSuch? && !(o.stop.again == Absent && o.stop.absent && o.stop.members == Some(0)))))
      && (e.classification == ActiveOrMembered <==>
            && read
            && (|| o.pre == Absent
                || o.stop == Removed
                || (o.stop.NoSuch? && o.stop.again == Absent && o.stop.absent && o.stop.members == Some(0)))
            && !(o.final == Absent && o.finalMembers == Some(0) && o.stillAbsent))
  {
  }

  /** Evidence of any origin that passes says so in every respect. */
  lemma PassedMeans(e: Evidence)
    ensures e.Passed() <==>
              && e.classification == Clean && e.action != StopFailed
              && e.workerAbsent && e.finalReadable && e.zeroMembers && e.unitRemoved
  {
  }

  /** The cleanup passes exactly when it classifies as clean. */
  lemma PassedExactlyWhenClean(o: Observations, original: ScopeState, plan: ScopePlan)
    ensures EvidenceOf(o, original, plan).Passed() <==> EvidenceOf(o, original, plan).classification == Clean
  {
  }

  /** Clean means: the unit was absent before, or it was exactly owned, empty and
      without a worker and then stopped (or found already gone, with everything
      rechecked); and in the end there is no worker, no member and no unit.
      Nothing else is clean. */
  lemma CleanExactly(o: Observations, original: ScopeState, plan: ScopePlan)
    requires o.stop != NotRequested <==> StopJustified(o.pre, o.preMembers, o.wasAbsent, original, plan)
    ensures EvidenceOf(o, original, plan).classification == Clean <==>
              && (|| o.pre.Absent?
                  || (&& StopJustified(o.pre, o.preMembers, o.wasAbsent, original, plan)
                      && (|| o.stop == Removed
                          || (o.stop.NoSuch? && o.stop.again == Absent && o.stop.absent && o.stop.members == Some(0)))))
              && o.final.Absent? && o.finalMembers == Some(0) && o.stillAbsent
  {
  }

  /** An answer that could not be had is never read as absence. */
  lemma UnreadableIsNeverClean(o: Observations, original: ScopeState, plan: ScopePlan)
    requires o.stop != NotRequested <==> StopJustified(o.pre, o.preMembers, o.wasAbsent, original, plan)
    requires o.pre.Unreadable? || o.final.Unreadable? || o.finalMembers.None?
          || (o.pre.Present? && o.preMembers.None?)
    ensures !EvidenceOf(o, original, plan).Passed()
  {
  }
}
