/** The external HOT/WARM/COLD target: one main loop, two service threads, a
    controller that writes command files, and readers that race to consume the
    descriptor.  Each event below makes at most one access to what the others
    can see, so a sequence of events is an interleaving. */
module TargetWorker {
  import opened Wrappers

  type byte = b: nat | b < 256

  const PAGE_BYTES := 4096

  function Successor(b: byte): byte { (b + 1) % 256 }

  function Predecessor(b: byte): byte { (b + 255) % 256 }

  function PageCount(zone: seq<byte>): nat {
    (|zone| + PAGE_BYTES - 1) / PAGE_BYTES
  }

  lemma PageOffsets(zone: seq<byte>, page: nat)
    ensures page < PageCount(zone) <==> page * PAGE_BYTES < |zone|
  {
  }

  /** What the content fingerprint depends on: the first byte of every page.
      The hash itself is an injection here. */
  datatype Fingerprint = Digest(sampled: seq<byte>)

  function FingerprintOf(zone: seq<byte>): Fingerprint {
    Digest(seq(PageCount(zone), (i: int) requires 0 <= i < PageCount(zone) =>
      PageOffsets(zone, i);
      zone[i * PAGE_BYTES]))
  }

  /** One whole touch, in place: every page is written, nothing changes. */
  method Touch(mapping: array<byte>) returns (pages: nat)
    modifies mapping
    ensures mapping[..] == old(mapping[..])
    ensures pages == PageCount(old(mapping[..]))
  {
    pages := 0;
    var offset := 0;
    while offset < mapping.Length
      invariant offset == pages * PAGE_BYTES
      invariant pages <= PageCount(old(mapping[..]))
      invariant mapping[..] == old(mapping[..])
    {
      mapping[offset] := Successor(mapping[offset]);
      mapping[offset] := Predecessor(mapping[offset]);
      PageOffsets(mapping[..], pages);
      pages := pages + 1;
      offset := offset + PAGE_BYTES;
    }
    PageOffsets(mapping[..], pages);
  }

  // -------------------------------------------------------------------
  // State
  // -------------------------------------------------------------------

  datatype Phase = Ready | Active | Stopped

  datatype Progress = Progress(
    phase: Phase,
    sequence: nat,
    hotCycles: nat,
    warmCycles: nat,
    hotPages: nat,
    warmPages: nat,
    coldCycles: nat,
    controlledRefaults: nat,
    fingerprints: seq<Fingerprint>)

  datatype Command =
    | Start(nonce: string)
    | RefaultCold(nonce: string)
    | Stop(nonce: string)
    | Unparseable

  datatype Slot = StartFile | RefaultFile | StopFile

  /** Where a service thread stands. */
  datatype ServicePc =
    | TestStopping
    | TestActive
    | Touching(page: nat, bumped: bool)
    | AddPages(touched: nat)
    | AddCycle
    | Exited

  datatype Service = Service(pc: ServicePc, zone: seq<byte>, cycles: nat, pages: nat)

  datatype Failure = InvalidStart | InvalidRefault | InvalidStop | BadCommand | StagedFileExists
                   | FingerprintMismatch | Io

  /** What the main thread does after a progress record is out. */
  datatype Continuation = Descriptor | Loop | Finish

  datatype MainPc =
    | Load(counter: nat, next: Continuation)
    | Stage(next: Continuation)
    | Rename(next: Continuation)
    | PublishDescriptor
    | LoopHead
    | Read(slot: Slot)
    | Remove(slot: Slot, command: Command)
    | Handle(slot: Slot, command: Command)
    | TouchCold(page: nat, bumped: bool)
    | ClearActive
    | SetStopping
    | JoinHot
    | JoinWarm
    | FinalCheck
    | Done
    | Failed(failure: Failure)

  datatype Config = Config(nonce: string, hot: seq<byte>, warm: seq<byte>, cold: seq<byte>)
  {
    function Initial(): seq<Fingerprint> {
      [FingerprintOf(hot), FingerprintOf(warm), FingerprintOf(cold)]
    }
  }

  datatype State = State(
    main: MainPc,
    // main thread
    phase: Phase,
    sequence: nat,
    coldCycles: nat,
    controlledRefaults: nat,
    cold: seq<byte>,
    loaded: seq<nat>,
    fingerprints: seq<Fingerprint>,
    // shared
    active: bool,
    stopping: bool,
    hot: Service,
    warm: Service,
    // files
    staged: Option<Progress>,
    progress: Option<Progress>,
    descriptor: bool,
    consumed: bool,
    startFile: Option<Command>,
    refaultFile: Option<Command>,
    stopFile: Option<Command>,
    // history
    published: seq<Progress>,
    consumers: nat)

  function Init(cfg: Config): State {
    State(Load(0, Descriptor), Ready, 1, 0, 0, cfg.cold, [], cfg.Initial(), false, false,
          Service(TestStopping, cfg.hot, 0, 0), Service(TestStopping, cfg.warm, 0, 0),
          None, None, false, false, None, None, None, [], 0)
  }

  // -------------------------------------------------------------------
  // Steps
  // -------------------------------------------------------------------

  datatype Event =
    | MainStep
    | MainTimesOut
    | MainIoError
    | HotStep
    | WarmStep
    | WriteCommand(slot: Slot, command: Command)
    | ConsumeDescriptor

  function ServiceStep(t: Service, active: bool, stopping: bool): Service {
    match t.pc
    case TestStopping => t.(pc := if stopping then Exited else TestActive)
    case TestActive => t.(pc := if active then Touching(0, false) else TestStopping)
    case Touching(page, bumped) =>
      if bumped then
        if page * PAGE_BYTES < |t.zone| then
          t.(zone := t.zone[page * PAGE_BYTES := Predecessor(t.zone[page * PAGE_BYTES])],
             pc := Touching(page + 1, false))
        else t
      else if page * PAGE_BYTES < |t.zone| then
        t.(zone := t.zone[page * PAGE_BYTES := Successor(t.zone[page * PAGE_BYTES])],
           pc := Touching(page, true))
      else t.(pc := AddPages(page))
    case AddPages(touched) => t.(pages := t.pages + touched, pc := AddCycle)
    case AddCycle => t.(cycles := t.cycles + 1, pc := TestStopping)
    case Exited => t
  }

  function FileOf(s: State, slot: Slot): Option<Command> {
    match slot
    case StartFile => s.startFile
    case RefaultFile => s.refaultFile
    case StopFile => s.stopFile
  }

  function WithFile(s: State, slot: Slot, file: Option<Command>): State {
    match slot
    case StartFile => s.(startFile := file)
    case RefaultFile => s.(refaultFile := file)
    case StopFile => s.(stopFile := file)
  }

  function Fail(s: State, failure: Failure): State {
    s.(main := Failed(failure))
  }

  /** The slot the loop looks at next, or the next progress record. */
  function After(s: State, slot: Slot): State {
    match slot
    case StartFile => s.(main := Read(RefaultFile))
    case RefaultFile => s.(main := Read(StopFile))
    case StopFile => s.(sequence := s.sequence + 1, loaded := [], main := Load(0, Loop))
  }

  function NonceOf(command: Command): string
    requires !command.Unparseable?
  {
    command.nonce
  }

  function HandleCommand(cfg: Config, s: State, slot: Slot, command: Command): State {
    if command.Unparseable? || NonceOf(command) != cfg.nonce then Fail(s, BadCommand)
    else
      match slot
      case StartFile =>
        if !command.Start? || s.phase != Ready then Fail(s, InvalidStart)
        else After(s.(active := true, phase := Active), StartFile)
      case RefaultFile =>
        if !command.RefaultCold? || s.phase != Active || s.controlledRefaults != 0 then Fail(s, InvalidRefault)
        else s.(main := TouchCold(0, false))
      case StopFile =>
        if !command.Stop? then Fail(s, InvalidStop)
        else s.(main := ClearActive)
  }

  /** The record the main thread composed from the counters it loaded. */
  function Composed(s: State, next: Continuation): Progress
    requires |s.loaded| == 4
  {
    Progress(if next == Finish then Stopped else s.phase, s.sequence,
             s.loaded[0], s.loaded[1], s.loaded[2], s.loaded[3],
             s.coldCycles, s.controlledRefaults, s.fingerprints)
  }

  function CounterOf(s: State, counter: nat): nat {
    if counter == 0 then s.hot.cycles
    else if counter == 1 then s.warm.cycles
    else if counter == 2 then s.hot.pages
    else s.warm.pages
  }

  function MainNext(cfg: Config, s: State): State {
    match s.main
    case Load(counter, next) =>
      s.(loaded := s.loaded + [CounterOf(s, counter)],
         main := if counter < 3 then Load(counter + 1, next) else Stage(next))
    case Stage(next) =>
      if s.staged.Some? || |s.loaded| != 4 then Fail(s, StagedFileExists)
      else s.(staged := Some(Composed(s, next)), main := Rename(next))
    case Rename(next) =>
      if s.staged.None? then Fail(s, Io)
      else
        s.(progress := s.staged, published := s.published + [s.staged.value], staged := None,
           main := match next
                   case Descriptor => PublishDescriptor
                   case Loop => LoopHead
                   case Finish => Done)
    case PublishDescriptor => s.(descriptor := true, main := LoopHead)
    case LoopHead => s.(main := Read(StartFile))
    case Read(slot) =>
      if FileOf(s, slot).None? then After(s, slot)
      else s.(main := Remove(slot, FileOf(s, slot).value))
    case Remove(slot, command) => WithFile(s, slot, None).(main := Handle(slot, command))
    case Handle(slot, command) => HandleCommand(cfg, s, slot, command)
    case TouchCold(page, bumped) =>
      if page * PAGE_BYTES < |s.cold| then
        if bumped then
          s.(cold := s.cold[page * PAGE_BYTES := Predecessor(s.cold[page * PAGE_BYTES])],
             main := TouchCold(page + 1, false))
        else
          s.(cold := s.cold[page * PAGE_BYTES := Successor(s.cold[page * PAGE_BYTES])],
             main := TouchCold(page, true))
      else After(s.(controlledRefaults := 1, coldCycles := 1), RefaultFile)
    case ClearActive => s.(active := false, main := SetStopping)
    case SetStopping => s.(stopping := true, main := JoinHot)
    case JoinHot => if s.hot.pc.Exited? then s.(main := JoinWarm) else s
    case JoinWarm => if s.warm.pc.Exited? then s.(main := FinalCheck) else s
    case FinalCheck =>
      var found := [FingerprintOf(s.hot.zone), FingerprintOf(s.warm.zone), FingerprintOf(s.cold)];
      if found != cfg.Initial() then Fail(s.(sequence := s.sequence + 1), FingerprintMismatch)
      else s.(sequence := s.sequence + 1, fingerprints := found, loaded := [], main := Load(0, Finish))
    case Done => s
    case Failed(_) => s
  }

  predicate DoesIo(m: MainPc) {
    m.Stage? || m.Rename? || m.PublishDescriptor? || m.Read? || m.Remove?
  }

  function Next(cfg: Config, s: State, e: Event): State {
    match e
    case MainStep => MainNext(cfg, s)
    case MainTimesOut => if s.main.LoopHead? then s.(main := ClearActive) else s
    case MainIoError => if DoesIo(s.main) then Fail(s, Io) else s
    case HotStep => s.(hot := ServiceStep(s.hot, s.active, s.stopping))
    case WarmStep => s.(warm := ServiceStep(s.warm, s.active, s.stopping))
    case WriteCommand(slot, command) => WithFile(s, slot, Some(command))
    case ConsumeDescriptor =>
      if s.consumed || !s.descriptor then s
      else s.(consumed := true, consumers := s.consumers + 1)
  }

  function Run(cfg: Config, events: seq<Event>): State {
    if events == [] then Init(cfg)
    else Next(cfg, Run(cfg, events[..|events| - 1]), events[|events| - 1])
  }

  // -------------------------------------------------------------------
  // What holds in every reachable state
  // -------------------------------------------------------------------

  /** The zone differs from its initial contents in at most the one byte being
      touched. */
  predicate ZoneInFlight(initial: seq<byte>, zone: seq<byte>, page: nat, bumped: bool) {
    && page <= PageCount(initial)
    && (bumped ==> page * PAGE_BYTES < |initial|)
    && zone == if bumped then initial[page * PAGE_BYTES := Successor(initial[page * PAGE_BYTES])] else initial
  }

  ghost predicate ServiceOk(t: Service, initial: seq<byte>, started: bool, stopping: bool) {
    && (t.pc.Touching? ==> ZoneInFlight(initial, t.zone, t.pc.page, t.pc.bumped))
    && (!t.pc.Touching? ==> t.zone == initial)
    && (t.pc.AddPages? ==> t.pc.touched == PageCount(initial))
    && t.pages == PageCount(initial) * (t.cycles + if t.pc.AddCycle? then 1 else 0)
    && (!started ==> (t.pc.TestStopping? || t.pc.TestActive? || t.pc.Exited?) && t.cycles == 0 && t.pages == 0)
    && (t.pc.Exited? ==> stopping)
  }

  /** A record that may have been published. */
  ghost predicate RecordOk(cfg: Config, r: Progress) {
    && r.coldCycles == r.controlledRefaults <= 1
    && PageCount(cfg.hot) * r.hotCycles <= r.hotPages
    && PageCount(cfg.warm) * r.warmCycles <= r.warmPages
    && (r.phase == Ready ==>
          && r.hotCycles == 0 && r.warmCycles == 0
          && r.hotPages == 0 && r.warmPages == 0
          && r.controlledRefaults == 0)
    && (r.phase == Stopped ==>
          && PageCount(cfg.hot) * r.hotCycles == r.hotPages
          && PageCount(cfg.warm) * r.warmCycles == r.warmPages)
    && r.fingerprints == cfg.Initial()
  }

  /** Nothing a reader can compare ever goes backwards. */
  predicate Advances(earlier: Progress, later: Progress) {
    && earlier.sequence < later.sequence
    && earlier.hotCycles <= later.hotCycles
    && earlier.warmCycles <= later.warmCycles
    && earlier.hotPages <= later.hotPages
    && earlier.warmPages <= later.warmPages
    && earlier.coldCycles <= later.coldCycles
    && earlier.controlledRefaults <= later.controlledRefaults
    && (earlier.phase != Ready ==> later.phase != Ready)
    && earlier.phase != Stopped
  }

  ghost predicate History(cfg: Config, published: seq<Progress>) {
    && (forall i | 0 <= i < |published| :: RecordOk(cfg, published[i]))
    && (forall i, j | 0 <= i < j < |published| :: Advances(published[i], published[j]))
  }

  /** The record as it would be with the counters of this moment: no later
      record can fall behind it. */
  function Current(s: State): Progress {
    Progress(s.phase, s.sequence, s.hot.cycles, s.warm.cycles, s.hot.pages, s.warm.pages,
             s.coldCycles, s.controlledRefaults, s.fingerprints)
  }

  predicate Behind(r: Progress, c: Progress) {
    && r.hotCycles <= c.hotCycles && r.warmCycles <= c.warmCycles
    && r.hotPages <= c.hotPages && r.warmPages <= c.warmPages
    && r.coldCycles <= c.coldCycles && r.controlledRefaults <= c.controlledRefaults
    && (r.phase == Active ==> c.phase == Active)
  }

  /** The main thread is between taking a new sequence number and renaming the
      record that carries it into place. */
  predicate Publishing(m: MainPc) {
    m.Load? || m.Stage? || m.Rename?
  }

  predicate AfterStopping(m: MainPc) {
    || m.JoinHot? || m.JoinWarm? || m.FinalCheck? || m.Done?
    || (Publishing(m) && m.next == Finish)
  }

  predicate Joined(m: MainPc) {
    m.FinalCheck? || m.Done? || (Publishing(m) && m.next == Finish)
  }

  ghost predicate MainOk(cfg: Config, s: State) {
    && s.phase != Stopped
    && (s.main.TouchCold? ==> s.phase == Active && s.controlledRefaults == 0
                              && ZoneInFlight(cfg.cold, s.cold, s.main.page, s.main.bumped))
    && (!s.main.TouchCold? ==> s.cold == cfg.cold)
    && s.coldCycles == s.controlledRefaults <= 1
    && (s.controlledRefaults == 1 ==> s.phase == Active)
    && (s.active ==> s.phase == Active)
    && s.fingerprints == cfg.Initial()
    && (AfterStopping(s.main) ==> s.stopping)
    && (s.main.SetStopping? || AfterStopping(s.main) ==> !s.active)
    && (s.stopping ==> AfterStopping(s.main) || s.main.Failed?)
    && (s.main.JoinWarm? ==> s.hot.pc.Exited?)
    && (Joined(s.main) ==> s.hot.pc.Exited? && s.warm.pc.Exited?)
    && (s.main.Failed? ==> s.main.failure != FingerprintMismatch && s.main.failure != StagedFileExists)
  }

  /** The counters loaded so far are no older than any published record, no
      newer than now, and each page count was loaded after its cycle count. */
  ghost predicate LoadedOk(cfg: Config, s: State) {
    var n := |s.loaded|;
    && (s.main.Load? ==> n == s.main.counter <= 3)
    && (s.main.Stage? || s.main.Rename? ==> n == 4)
    && (Publishing(s.main) ==>
          && (forall i | 0 <= i < n :: s.loaded[i] <= CounterOf(s, i))
          && (forall r | r in s.published, i | 0 <= i < n :: Published(r, i) <= s.loaded[i])
          && (n > 2 ==> PageCount(cfg.hot) * s.loaded[0] <= s.loaded[2])
          && (n > 3 ==> PageCount(cfg.warm) * s.loaded[1] <= s.loaded[3])
          && (s.main.next == Finish ==> forall i | 0 <= i < n :: s.loaded[i] == CounterOf(s, i)))
  }

  function Published(r: Progress, counter: nat): nat {
    if counter == 0 then r.hotCycles
    else if counter == 1 then r.warmCycles
    else if counter == 2 then r.hotPages
    else r.warmPages
  }

  /** The records are numbered from one without a gap. */
  ghost predicate Numbered(s: State) {
    && (forall i | 0 <= i < |s.published| :: s.published[i].sequence == i + 1)
    && (!s.main.Failed? ==> s.sequence == |s.published| + if Publishing(s.main) then 1 else 0)
  }

  ghost predicate FilesOk(cfg: Config, s: State) {
    && History(cfg, s.published)
    && (forall r | r in s.published :: Behind(r, Current(s)))
    && Numbered(s)
    && (|| s.descriptor || s.main.Failed? || s.main.PublishDescriptor?
        || (Publishing(s.main) && s.main.next == Descriptor))
    && (forall r | r in s.published :: r.phase == Stopped ==> s.main.Done?)
    && (s.progress == if s.published == [] then None else Some(s.published[|s.published| - 1]))
    && (s.descriptor ==> s.published != [])
    && (s.published == [] ==> s.main.Failed? || (Publishing(s.main) && s.main.next == Descriptor))
    && (Publishing(s.main) && s.main.next == Descriptor ==> s.phase == Ready)
    && (s.main.Rename? ==> |s.loaded| == 4 && s.staged == Some(Composed(s, s.main.next)))
    && (!s.main.Rename? && !s.main.Failed? ==> s.staged == None)
    && (s.main.Done? ==> s.progress == Some(Current(s).(phase := Stopped)))
    && s.consumers == (if s.consumed then 1 else 0)
    && (s.consumed ==> s.descriptor)
  }

  ghost predicate Inv(cfg: Config, s: State) {
    && ServiceOk(s.hot, cfg.hot, s.phase == Active, s.stopping)
    && ServiceOk(s.warm, cfg.warm, s.phase == Active, s.stopping)
    && MainOk(cfg, s)
    && LoadedOk(cfg, s)
    && FilesOk(cfg, s)
  }

  lemma InitHolds(cfg: Config)
    ensures Inv(cfg, Init(cfg))
  {
  }

  lemma ServiceStepKeepsOk(t: Service, initial: seq<byte>, active: bool, started: bool, stopping: bool)
    requires ServiceOk(t, initial, started, stopping) && (active ==> started)
    ensures var u := ServiceStep(t, active, stopping);
      && ServiceOk(u, initial, started, stopping)
      && t.cycles <= u.cycles && t.pages <= u.pages
      && (t.pc.Exited? ==> u == t)
  {
  }

  lemma ServiceStepsKeepOk(cfg: Config, s: State, e: Event)
    requires Inv(cfg, s) && (e.HotStep? || e.WarmStep?)
    ensures var t := Next(cfg, s, e);
      && ServiceOk(t.hot, cfg.hot, t.phase == Active, t.stopping)
      && ServiceOk(t.warm, cfg.warm, t.phase == Active, t.stopping)
      && (s.hot.pc.Exited? ==> t.hot == s.hot) && (s.warm.pc.Exited? ==> t.warm == s.warm)
      && (forall i | 0 <= i < 4 :: CounterOf(s, i) <= CounterOf(t, i))
  {
    ServiceStepKeepsOk(s.hot, cfg.hot, s.active, s.phase == Active, s.stopping);
    ServiceStepKeepsOk(s.warm, cfg.warm, s.active, s.phase == Active, s.stopping);
  }

  lemma ServiceStepsKeepLoaded(cfg: Config, s: State, e: Event)
    requires Inv(cfg, s) && (e.HotStep? || e.WarmStep?)
    ensures LoadedOk(cfg, Next(cfg, s, e))
  {
    ServiceStepsKeepOk(cfg, s, e);
    var t := Next(cfg, s, e);
    assert t.loaded == s.loaded && t.main == s.main && t.published == s.published;
    forall i | 0 <= i < |t.loaded| && Publishing(t.main)
      ensures t.loaded[i] <= CounterOf(t, i)
    {
      assert s.loaded[i] <= CounterOf(s, i) <= CounterOf(t, i);
    }
  }

  lemma ServiceStepsKeepFiles(cfg: Config, s: State, e: Event)
    requires Inv(cfg, s) && (e.HotStep? || e.WarmStep?)
    ensures MainOk(cfg, Next(cfg, s, e)) && FilesOk(cfg, Next(cfg, s, e))
  {
    ServiceStepsKeepOk(cfg, s, e);
    var t := Next(cfg, s, e);
    assert CounterOf(s, 0) <= CounterOf(t, 0) && CounterOf(s, 1) <= CounterOf(t, 1);
    assert CounterOf(s, 2) <= CounterOf(t, 2) && CounterOf(s, 3) <= CounterOf(t, 3);
    forall r | r in t.published
      ensures Behind(r, Current(t))
    {
      assert Behind(r, Current(s));
    }
  }

  /** Command files and the consumption marker are not part of the invariant's
      main clauses. */
  lemma WithFileKeepsInv(cfg: Config, s: State, slot: Slot, file: Option<Command>)
    requires Inv(cfg, s)
    ensures Inv(cfg, WithFile(s, slot, file))
  {
    SameForInv(cfg, s, WithFile(s, slot, file));
  }

  lemma ConsumptionKeepsInv(cfg: Config, s: State)
    requires Inv(cfg, s)
    ensures Inv(cfg, Next(cfg, s, ConsumeDescriptor))
  {
  }

  lemma SameForInv(cfg: Config, s: State, t: State)
    requires Inv(cfg, s)
    requires t == s.(startFile := t.startFile, refaultFile := t.refaultFile, stopFile := t.stopFile,
                     consumed := t.consumed, consumers := t.consumers)
    requires t.consumers == (if t.consumed then 1 else 0) && (t.consumed ==> t.descriptor)
    ensures Inv(cfg, t)
  {
  }

  lemma TimeoutKeepsInv(cfg: Config, s: State)
    requires Inv(cfg, s) && s.main.LoopHead?
    ensures Inv(cfg, s.(main := ClearActive))
  {
  }

  lemma FailKeepsInv(cfg: Config, s: State, failure: Failure)
    requires Inv(cfg, s) && !s.main.Done? && !s.main.TouchCold?
    requires failure != FingerprintMismatch && failure != StagedFileExists
    ensures Inv(cfg, Fail(s, failure))
  {
  }

  lemma MulMonotone(p: nat, a: nat, b: nat)
    requires a <= b
    ensures p * a <= p * b
  {
  }

  lemma LoadKeepsInv(cfg: Config, s: State)
    requires Inv(cfg, s) && s.main.Load?
    ensures var t := MainNext(cfg, s); MainOk(cfg, t) && LoadedOk(cfg, t)
  {
    var c := s.main.counter;
    var t := MainNext(cfg, s);
    assert MainOk(cfg, t);
    forall r | r in s.published
      ensures Published(r, c) <= CounterOf(s, c)
    {
      assert Behind(r, Current(s));
    }
    if c == 2 {
      MulMonotone(PageCount(cfg.hot), s.loaded[0], s.hot.cycles);
      MulMonotone(PageCount(cfg.hot), s.hot.cycles, s.hot.cycles + if s.hot.pc.AddCycle? then 1 else 0);
    } else if c == 3 {
      MulMonotone(PageCount(cfg.warm), s.loaded[1], s.warm.cycles);
      MulMonotone(PageCount(cfg.warm), s.warm.cycles, s.warm.cycles + if s.warm.pc.AddCycle? then 1 else 0);
    }
  }

  lemma LoadKeepsFiles(cfg: Config, s: State)
    requires Inv(cfg, s) && (s.main.Load? || s.main.Stage?)
    ensures FilesOk(cfg, MainNext(cfg, s))
  {
    var t := MainNext(cfg, s);
    assert Current(t) == Current(s) && t.published == s.published;
  }

  lemma StageKeepsMain(cfg: Config, s: State)
    requires Inv(cfg, s) && (s.main.Stage? || s.main.Rename?)
    ensures var t := MainNext(cfg, s); MainOk(cfg, t) && LoadedOk(cfg, t)
  {
  }

  /** The composed record is one that may be published, and is ahead of every
      record published before. */
  lemma ComposedIsGood(cfg: Config, s: State)
    requires Inv(cfg, s) && s.main.Rename?
    ensures RecordOk(cfg, Composed(s, s.main.next))
    ensures forall r | r in s.published :: Advances(r, Composed(s, s.main.next))
    ensures Behind(Composed(s, s.main.next), Current(s))
  {
  }

  lemma RenameKeepsFiles(cfg: Config, s: State)
    requires Inv(cfg, s) && s.main.Rename?
    ensures FilesOk(cfg, MainNext(cfg, s))
  {
    var c := Composed(s, s.main.next);
    ComposedIsGood(cfg, s);
    var t := MainNext(cfg, s);
    assert t.published == s.published + [c];
    assert forall r | r in t.published :: r in s.published || r == c;
    assert Current(t) == Current(s);
    assert History(cfg, t.published) by {
      forall i, j | 0 <= i < j < |t.published|
        ensures Advances(t.published[i], t.published[j])
      {
        assert t.published[i] in s.published;
      }
    }
  }

  /** The main thread is looking for commands. */
  predicate InLoop(m: MainPc) {
    m.PublishDescriptor? || m.LoopHead? || m.Read? || m.Remove? || m.Handle? || m.TouchCold?
  }

  lemma MoveWithinLoop(cfg: Config, s: State, m: MainPc)
    requires Inv(cfg, s) && InLoop(s.main) && !s.main.PublishDescriptor? && InLoop(m)
    requires m.TouchCold? ==> s.phase == Active && s.controlledRefaults == 0 && m.page == 0 && !m.bumped
    requires s.cold == cfg.cold
    ensures Inv(cfg, s.(main := m))
  {
    assert Current(s.(main := m)) == Current(s);
  }

  lemma NextRecordKeepsInv(cfg: Config, s: State)
    requires Inv(cfg, s) && InLoop(s.main) && !s.main.PublishDescriptor? && s.cold == cfg.cold
    ensures Inv(cfg, After(s, StopFile))
  {
  }

  lemma AfterKeepsInv(cfg: Config, s: State, slot: Slot)
    requires Inv(cfg, s) && InLoop(s.main) && !s.main.PublishDescriptor? && s.cold == cfg.cold
    ensures Inv(cfg, After(s, slot))
  {
    match slot
    case StartFile => MoveWithinLoop(cfg, s, Read(RefaultFile));
    case RefaultFile => MoveWithinLoop(cfg, s, Read(StopFile));
    case StopFile => NextRecordKeepsInv(cfg, s);
  }

  lemma ActivationKeepsInv(cfg: Config, s: State)
    requires Inv(cfg, s) && InLoop(s.main) && !s.main.TouchCold? && s.phase == Ready
    ensures Inv(cfg, s.(active := true, phase := Active))
  {
  }

  lemma RefaultKeepsInv(cfg: Config, s: State)
    requires Inv(cfg, s) && InLoop(s.main) && !s.main.PublishDescriptor? && s.phase == Active && s.cold == cfg.cold
    ensures Inv(cfg, s.(main := Read(StopFile), controlledRefaults := 1, coldCycles := 1))
  {
  }

  lemma ColdMoveKeepsInv(cfg: Config, s: State, m: MainPc, cold: seq<byte>)
    requires Inv(cfg, s) && s.main.TouchCold?
    requires m.TouchCold? && ZoneInFlight(cfg.cold, cold, m.page, m.bumped)
    ensures Inv(cfg, s.(main := m, cold := cold))
  {
  }

  lemma ColdTouchStep(cfg: Config, s: State)
    requires s.main.TouchCold? && ZoneInFlight(cfg.cold, s.cold, s.main.page, s.main.bumped)
    ensures var t := MainNext(cfg, s);
      if s.main.page * PAGE_BYTES < |s.cold| then
        && t == s.(main := t.main, cold := t.cold)
        && t.main.TouchCold? && ZoneInFlight(cfg.cold, t.cold, t.main.page, t.main.bumped)
      else
        s.cold == cfg.cold && t == s.(main := Read(StopFile), controlledRefaults := 1, coldCycles := 1)
  {
    PageOffsets(cfg.cold, s.main.page);
    PageOffsets(cfg.cold, s.main.page + 1);
  }

  lemma ColdTouchKeepsInv(cfg: Config, s: State)
    requires Inv(cfg, s) && s.main.TouchCold?
    ensures Inv(cfg, MainNext(cfg, s))
  {
    var t := MainNext(cfg, s);
    ColdTouchStep(cfg, s);
    if s.main.page * PAGE_BYTES < |s.cold| {
      ColdMoveKeepsInv(cfg, s, t.main, t.cold);
    } else {
      RefaultKeepsInv(cfg, s);
    }
  }

  lemma CommandKeepsInv(cfg: Config, s: State)
    requires Inv(cfg, s) && s.main.Handle?
    ensures Inv(cfg, MainNext(cfg, s))
  {
    var slot, command := s.main.slot, s.main.command;
    if command.Unparseable? || NonceOf(command) != cfg.nonce {
      FailKeepsInv(cfg, s, BadCommand);
    } else {
      match slot {
        case StartFile =>
          if !command.Start? || s.phase != Ready {
            FailKeepsInv(cfg, s, InvalidStart);
          } else {
            ActivationKeepsInv(cfg, s);
            AfterKeepsInv(cfg, s.(active := true, phase := Active), StartFile);
          }
        case RefaultFile =>
          if !command.RefaultCold? || s.phase != Active || s.controlledRefaults != 0 {
            FailKeepsInv(cfg, s, InvalidRefault);
          } else {
            MoveWithinLoop(cfg, s, TouchCold(0, false));
          }
        case StopFile =>
          if !command.Stop? {
            FailKeepsInv(cfg, s, InvalidStop);
          } else {
            StopKeepsInv(cfg, s);
          }
      }
    }
  }

  lemma StopKeepsInv(cfg: Config, s: State)
    requires Inv(cfg, s) && InLoop(s.main) && !s.main.PublishDescriptor? && s.cold == cfg.cold
    ensures Inv(cfg, s.(main := ClearActive))
  {
  }

  lemma LoopKeepsInv(cfg: Config, s: State)
    requires Inv(cfg, s)
    requires s.main.PublishDescriptor? || s.main.LoopHead? || s.main.Read? || s.main.Remove?
    ensures Inv(cfg, MainNext(cfg, s))
  {
    match s.main {
      case PublishDescriptor => DescriptorKeepsInv(cfg, s);
      case LoopHead => MoveWithinLoop(cfg, s, Read(StartFile));
      case Read(slot) =>
        if FileOf(s, slot).None? {
          AfterKeepsInv(cfg, s, slot);
        } else {
          MoveWithinLoop(cfg, s, Remove(slot, FileOf(s, slot).value));
        }
      case Remove(slot, command) => RemoveKeepsInv(cfg, s, slot, command);
    }
  }

  lemma DescriptorKeepsInv(cfg: Config, s: State)
    requires Inv(cfg, s) && s.main.PublishDescriptor?
    ensures Inv(cfg, s.(descriptor := true, main := LoopHead))
  {
  }

  lemma RemoveKeepsInv(cfg: Config, s: State, slot: Slot, command: Command)
    requires Inv(cfg, s) && s.main == Remove(slot, command)
    ensures Inv(cfg, WithFile(s, slot, None).(main := Handle(slot, command)))
  {
    MoveWithinLoop(cfg, s, Handle(slot, command));
    WithFileKeepsInv(cfg, s.(main := Handle(slot, command)), slot, None);
    FileAndMain(s, slot, Handle(slot, command));
  }

  lemma FileAndMain(s: State, slot: Slot, m: MainPc)
    ensures WithFile(s.(main := m), slot, None) == WithFile(s, slot, None).(main := m)
  {
  }

  lemma ClearKeepsInv(cfg: Config, s: State)
    requires Inv(cfg, s) && s.main.ClearActive?
    ensures Inv(cfg, MainNext(cfg, s))
  {
  }

  lemma StoppingKeepsInv(cfg: Config, s: State)
    requires Inv(cfg, s) && s.main.SetStopping?
    ensures Inv(cfg, MainNext(cfg, s))
  {
    assert Current(MainNext(cfg, s)) == Current(s);
  }

  lemma JoinHotKeepsInv(cfg: Config, s: State)
    requires Inv(cfg, s) && s.main.JoinHot? && s.hot.pc.Exited?
    ensures Inv(cfg, s.(main := JoinWarm))
  {
  }

  lemma JoinWarmKeepsInv(cfg: Config, s: State)
    requires Inv(cfg, s) && s.main.JoinWarm? && s.warm.pc.Exited?
    ensures Inv(cfg, s.(main := FinalCheck))
  {
  }

  lemma PublicationKeepsInv(cfg: Config, s: State)
    requires Inv(cfg, s) && Publishing(s.main)
    ensures Inv(cfg, MainNext(cfg, s))
  {
    if s.main.Load? {
      LoadStepKeepsInv(cfg, s);
    } else if s.main.Stage? {
      StageStepKeepsInv(cfg, s);
    } else {
      RenameStepKeepsInv(cfg, s);
    }
  }

  lemma LoadStepKeepsInv(cfg: Config, s: State)
    requires Inv(cfg, s) && s.main.Load?
    ensures Inv(cfg, MainNext(cfg, s))
  {
    LoadKeepsInv(cfg, s);
    LoadKeepsFiles(cfg, s);
  }

  lemma StageStepKeepsInv(cfg: Config, s: State)
    requires Inv(cfg, s) && s.main.Stage?
    ensures Inv(cfg, MainNext(cfg, s))
  {
    StageKeepsMain(cfg, s);
    LoadKeepsFiles(cfg, s);
  }

  lemma RenameStepKeepsInv(cfg: Config, s: State)
    requires Inv(cfg, s) && s.main.Rename?
    ensures Inv(cfg, MainNext(cfg, s))
  {
    StageKeepsMain(cfg, s);
    RenameKeepsFiles(cfg, s);
  }

  /** The final check finds the initial contents. */
  lemma FinalCheckPasses(cfg: Config, s: State)
    requires Inv(cfg, s) && s.main.FinalCheck?
    ensures [FingerprintOf(s.hot.zone), FingerprintOf(s.warm.zone), FingerprintOf(s.cold)] == cfg.Initial()
    ensures Inv(cfg, MainNext(cfg, s))
  {
    var t := MainNext(cfg, s);
    assert t.main == Load(0, Finish);
    assert forall r | r in t.published :: Behind(r, Current(s)) && r.sequence < t.sequence;
  }

  lemma MainKeepsInv(cfg: Config, s: State)
    requires Inv(cfg, s)
    ensures Inv(cfg, MainNext(cfg, s))
  {
    if Publishing(s.main) {
      PublicationKeepsInv(cfg, s);
    } else if s.main.Handle? {
      CommandKeepsInv(cfg, s);
    } else if s.main.TouchCold? {
      ColdTouchKeepsInv(cfg, s);
    } else if InLoop(s.main) {
      LoopKeepsInv(cfg, s);
    } else {
      MainEndKeepsInv(cfg, s);
    }
  }

  lemma MainEndKeepsInv(cfg: Config, s: State)
    requires Inv(cfg, s) && !Publishing(s.main) && !InLoop(s.main)
    ensures Inv(cfg, MainNext(cfg, s))
  {
    match s.main {
      case ClearActive => ClearKeepsInv(cfg, s);
      case SetStopping => StoppingKeepsInv(cfg, s);
      case JoinHot =>
        if s.hot.pc.Exited? {
          JoinHotKeepsInv(cfg, s);
        }
      case JoinWarm =>
        if s.warm.pc.Exited? {
          JoinWarmKeepsInv(cfg, s);
        }
      case FinalCheck => FinalCheckPasses(cfg, s);
      case _ =>
    }
  }

  lemma NextKeepsInv(cfg: Config, s: State, e: Event)
    requires Inv(cfg, s)
    ensures Inv(cfg, Next(cfg, s, e))
  {
    match e {
      case MainStep => MainKeepsInv(cfg, s);
      case MainTimesOut =>
        if s.main.LoopHead? {
          TimeoutKeepsInv(cfg, s);
        }
      case MainIoError =>
        if DoesIo(s.main) {
          FailKeepsInv(cfg, s, Io);
        }
      case HotStep =>
        ServiceStepsKeepOk(cfg, s, e);
        ServiceStepsKeepLoaded(cfg, s, e);
        ServiceStepsKeepFiles(cfg, s, e);
      case WarmStep =>
        ServiceStepsKeepOk(cfg, s, e);
        ServiceStepsKeepLoaded(cfg, s, e);
        ServiceStepsKeepFiles(cfg, s, e);
      case WriteCommand(slot, command) => WithFileKeepsInv(cfg, s, slot, Some(command));
      case ConsumeDescriptor => ConsumptionKeepsInv(cfg, s);
    }
  }

  lemma {:induction false} RunKeepsInv(cfg: Config, events: seq<Event>)
    ensures Inv(cfg, Run(cfg, events))
  {
    if events == [] {
      InitHolds(cfg);
    } else {
      RunKeepsInv(cfg, events[..|events| - 1]);
      NextKeepsInv(cfg, Run(cfg, events[..|events| - 1]), events[|events| - 1]);
    }
  }

  // -------------------------------------------------------------------
  // What a controller may rely on
  // -------------------------------------------------------------------

  /** Whatever the controller writes and however the threads interleave:
      published sequence numbers strictly increase and no counter a reader
      compares goes back. */
  lemma PublishedRecordsAdvance(cfg: Config, events: seq<Event>, i: nat, j: nat)
    requires i < j < |Run(cfg, events).published|
    ensures Advances(Run(cfg, events).published[i], Run(cfg, events).published[j])
  {
    RunKeepsInv(cfg, events);
  }

  /** The records are numbered one, two, three and so on. */
  lemma RecordsAreNumbered(cfg: Config, events: seq<Event>, s: State, i: nat)
    requires s == Run(cfg, events) && i < |s.published|
    ensures s.published[i].sequence == i + 1
  {
    assert Numbered(s) by {
      RunKeepsInv(cfg, events);
    }
  }

  /** A controller that can see the descriptor can already read a progress
      record, the latest one published; at most one reader consumes it; and a
      worker that reads commands has published the descriptor. */
  lemma DescriptorMeansProgress(cfg: Config, events: seq<Event>)
    ensures var s := Run(cfg, events);
      && (s.descriptor ==> s.progress.Some? && s.progress.value in s.published && RecordOk(cfg, s.progress.value))
      && s.consumers <= 1
      && (s.main.LoopHead? || s.main.Read? || s.main.Remove? || s.main.Handle? || s.main.Done? ==> s.descriptor)
  {
    RunKeepsInv(cfg, events);
  }

  /** Whoever reads the descriptor first consumes it; everyone after finds it
      consumed, and nothing else changes. */
  lemma FirstReaderConsumes(cfg: Config, s: State)
    ensures var t := Next(cfg, s, ConsumeDescriptor);
      && (s.descriptor && !s.consumed ==> t == s.(consumed := true, consumers := s.consumers + 1))
      && (!s.descriptor || s.consumed ==> t == s)
  {
  }

  /** An input or output error ends the worker in the middle of any of its accesses
      to files, and nowhere else. */
  lemma ErrorsEndAccesses(cfg: Config, s: State)
    ensures Next(cfg, s, MainIoError) ==
            match s.main
            case Stage(_) => s.(main := Failed(Io))
            case Rename(_) => s.(main := Failed(Io))
            case PublishDescriptor => s.(main := Failed(Io))
            case Read(_) => s.(main := Failed(Io))
            case Remove(_, _) => s.(main := Failed(Io))
            case _ => s
  {
  }

  /** Before START is accepted nothing has been touched and every record says
      so; the cold zone is refaulted at most once, and only after START. */
  lemma NothingBeforeStart(cfg: Config, events: seq<Event>)
    ensures var s := Run(cfg, events);
      && (s.phase == Ready ==>
            && s.hot.cycles == 0 && s.warm.cycles == 0 && s.hot.pages == 0 && s.warm.pages == 0
            && s.hot.zone == cfg.hot && s.warm.zone == cfg.warm && s.cold == cfg.cold)
      && s.coldCycles == s.controlledRefaults <= 1
      && (s.controlledRefaults == 1 ==> s.phase == Active)
  {
    RunKeepsInv(cfg, events);
  }

  /** Outside a touch every zone has its initial contents, so the final content
      check can never fail; nor does publication ever find a leftover staged
      file. */
  lemma ContentsSurvive(cfg: Config, events: seq<Event>)
    ensures var s := Run(cfg, events);
      && (!s.hot.pc.Touching? ==> s.hot.zone == cfg.hot)
      && (!s.warm.pc.Touching? ==> s.warm.zone == cfg.warm)
      && (!s.main.TouchCold? ==> s.cold == cfg.cold)
      && s.main != Failed(FingerprintMismatch) && s.main != Failed(StagedFileExists)
  {
    RunKeepsInv(cfg, events);
  }

  /** The last record of an orderly shutdown accounts for every page touched:
      whole cycles, nothing in flight, nothing lost. */
  lemma FinalRecordIsExact(cfg: Config, events: seq<Event>)
    ensures var s := Run(cfg, events);
      s.main.Done? ==>
        && s.progress.Some?
        && var r := s.progress.value;
        && r.phase == Stopped
        && r.hotPages == PageCount(cfg.hot) * r.hotCycles == s.hot.pages
        && r.warmPages == PageCount(cfg.warm) * r.warmCycles == s.warm.pages
        && r.fingerprints == cfg.Initial()
  {
    RunKeepsInv(cfg, events);
  }

  // -------------------------------------------------------------------
  // Progress
  // -------------------------------------------------------------------

  function ServiceSteps(t: Service, active: bool, stopping: bool, n: nat): Service
    decreases n
  {
    if n == 0 then t else ServiceSteps(ServiceStep(t, active, stopping), active, stopping, n - 1)
  }

  /** From the middle of a touch, a service thread left alone finishes the touch
      and counts it. */
  lemma {:induction false} TouchCompletes(t: Service, initial: seq<byte>, active: bool, stopping: bool)
    requires t.pc.Touching? && !t.pc.bumped && t.pc.page <= PageCount(initial) && t.zone == initial
    ensures var rest := 2 * (PageCount(initial) - t.pc.page);
      ServiceSteps(t, active, stopping, rest + 3)
        == Service(TestStopping, initial, t.cycles + 1, t.pages + PageCount(initial))
    decreases PageCount(initial) - t.pc.page
  {
    var page := t.pc.page;
    var rest := 2 * (PageCount(initial) - page);
    PageOffsets(initial, page);
    if page < PageCount(initial) {
      var up := ServiceStep(t, active, stopping);
      var down := ServiceStep(up, active, stopping);
      assert down == t.(pc := Touching(page + 1, false)) by { assert down.zone == initial; }
      assert ServiceSteps(t, active, stopping, rest + 3) == ServiceSteps(up, active, stopping, rest + 2)
          == ServiceSteps(down, active, stopping, rest + 1);
      TouchCompletes(down, initial, active, stopping);
    } else {
      var counted := ServiceStep(t, active, stopping);
      var added := ServiceStep(counted, active, stopping);
      assert ServiceSteps(t, active, stopping, 3) == ServiceSteps(counted, active, stopping, 2)
          == ServiceSteps(added, active, stopping, 1)
          == ServiceSteps(ServiceStep(added, active, stopping), active, stopping, 0);
    }
  }

  /** Allowed to work, a service thread that is between touches and left alone
      touches its whole zone and counts it, whichever flag it looks at next. */
  lemma ServiceWorksWhenActive(t: Service, initial: seq<byte>)
    requires (t.pc.TestStopping? || t.pc.TestActive?) && t.zone == initial
    ensures ServiceSteps(t, true, false, (if t.pc.TestStopping? then 5 else 4) + 2 * PageCount(initial))
         == Service(TestStopping, initial, t.cycles + 1, t.pages + PageCount(initial))
  {
    var touching := t.(pc := Touching(0, false));
    var n := 2 * PageCount(initial) + 3;
    TouchCompletes(touching, initial, true, false);
    assert ServiceSteps(t.(pc := TestActive), true, false, n + 1) == ServiceSteps(touching, true, false, n);
  }

  /** Not allowed to work, it touches and counts nothing. */
  lemma {:induction false} ServiceIdlesWhenInactive(t: Service, n: nat)
    requires t.pc.TestStopping? || t.pc.TestActive?
    ensures var u := ServiceSteps(t, false, false, n);
      (u.pc.TestStopping? || u.pc.TestActive?) && u == t.(pc := u.pc)
    decreases n
  {
    if n > 0 {
      ServiceIdlesWhenInactive(ServiceStep(t, false, false), n - 1);
    }
  }

  /** The first byte of one page of 4096 bytes is one up, modulo 256, and all else as
      it was. */
  predicate OneUp(initial: seq<byte>, zone: seq<byte>, page: nat) {
    && 4096 * page < |initial|
    && |zone| == |initial|
    && (var first: nat := initial[4096 * page];
        zone[4096 * page] == (first + 1) % 256)
    && forall i | 0 <= i < |zone| && i != 4096 * page :: zone[i] == initial[i]
  }

  /** While a page is being touched, it shows. */
  lemma TouchesShow(cfg: Config, events: seq<Event>)
    ensures var s := Run(cfg, events);
      && (s.hot.pc.Touching? && s.hot.pc.bumped ==> OneUp(cfg.hot, s.hot.zone, s.hot.pc.page))
      && (s.warm.pc.Touching? && s.warm.pc.bumped ==> OneUp(cfg.warm, s.warm.zone, s.warm.pc.page))
      && (s.main.TouchCold? && s.main.bumped ==> OneUp(cfg.cold, s.cold, s.main.page))
  {
    var s := Run(cfg, events);
    RunKeepsInv(cfg, events);
    if s.hot.pc.Touching? && s.hot.pc.bumped {
      InFlightShows(cfg.hot, s.hot.zone, s.hot.pc.page);
    }
    if s.warm.pc.Touching? && s.warm.pc.bumped {
      InFlightShows(cfg.warm, s.warm.zone, s.warm.pc.page);
    }
    if s.main.TouchCold? && s.main.bumped {
      InFlightShows(cfg.cold, s.cold, s.main.page);
    }
  }

  lemma InFlightShows(initial: seq<byte>, zone: seq<byte>, page: nat)
    requires ZoneInFlight(initial, zone, page, true)
    ensures OneUp(initial, zone, page)
  {
  }

  function MainSteps(cfg: Config, s: State, n: nat): State
    decreases n
  {
    if n == 0 then s else MainSteps(cfg, MainNext(cfg, s), n - 1)
  }

  lemma OneStep(cfg: Config, s: State, n: nat)
    requires n > 0
    ensures MainSteps(cfg, s, n) == MainSteps(cfg, MainNext(cfg, s), n - 1)
  {
  }

  /** With no command waiting, one pass of the main loop publishes exactly one
      record: the next sequence number and the counters of the moment. */
  lemma QuietPassPublishesOneRecord(cfg: Config, s: State) returns (steps: nat)
    requires Inv(cfg, s) && s.main.LoopHead?
    requires s.startFile.None? && s.refaultFile.None? && s.stopFile.None?
    ensures var t := MainSteps(cfg, s, steps);
      && t.main.LoopHead? && t.sequence == s.sequence + 1
      && t.published == s.published + [Current(s).(sequence := s.sequence + 1)]
      && t.phase == s.phase && t.active == s.active
  {
    var n: nat := 0;
    steps := n + 10;
    var s4 := s.(main := Load(0, Loop), sequence := s.sequence + 1, loaded := []);
    ThreeEmptyReads(cfg, s, n + 6);
    FourLoads(cfg, s4, Loop, n + 2);
    var counters := [s.hot.cycles, s.warm.cycles, s.hot.pages, s.warm.pages];
    var staged := s4.(main := Stage(Loop), loaded := counters);
    StageAndRename(cfg, staged, n);
    assert Composed(staged, Loop) == Current(s).(sequence := s.sequence + 1);
  }

  lemma ThreeEmptyReads(cfg: Config, s: State, n: nat)
    requires s.main.LoopHead?
    requires s.startFile.None? && s.refaultFile.None? && s.stopFile.None?
    ensures MainSteps(cfg, s, n + 4)
         == MainSteps(cfg, s.(main := Load(0, Loop), sequence := s.sequence + 1, loaded := []), n)
  {
    OneStep(cfg, s, n + 4);
    OneStep(cfg, s.(main := Read(StartFile)), n + 3);
    OneStep(cfg, s.(main := Read(RefaultFile)), n + 2);
    OneStep(cfg, s.(main := Read(StopFile)), n + 1);
  }

  lemma FourLoads(cfg: Config, s: State, next: Continuation, n: nat)
    requires s.main == Load(0, next) && s.loaded == []
    ensures MainSteps(cfg, s, n + 4)
         == MainSteps(cfg, s.(main := Stage(next),
                              loaded := [s.hot.cycles, s.warm.cycles, s.hot.pages, s.warm.pages]), n)
  {
    var h, w, hp, wp := s.hot.cycles, s.warm.cycles, s.hot.pages, s.warm.pages;
    assert s.loaded + [h] == [h] && [h] + [w] == [h, w] && [h, w] + [hp] == [h, w, hp]
        && [h, w, hp] + [wp] == [h, w, hp, wp];
    OneStep(cfg, s, n + 4);
    OneStep(cfg, s.(main := Load(1, next), loaded := [s.hot.cycles]), n + 3);
    OneStep(cfg, s.(main := Load(2, next), loaded := [s.hot.cycles, s.warm.cycles]), n + 2);
    OneStep(cfg, s.(main := Load(3, next), loaded := [s.hot.cycles, s.warm.cycles, s.hot.pages]), n + 1);
  }

  lemma StageAndRename(cfg: Config, s: State, n: nat)
    requires s.main == Stage(Loop) && s.staged.None? && |s.loaded| == 4
    ensures MainSteps(cfg, s, n + 2)
         == MainSteps(cfg, s.(main := LoopHead, progress := Some(Composed(s, Loop)),
                              published := s.published + [Composed(s, Loop)]), n)
  {
  }

  /** The commands the protocol allows at this moment, each in its own file. */
  predicate Acceptable(cfg: Config, s: State, slot: Slot, command: Command) {
    match slot
    case StartFile => command == Start(cfg.nonce) && s.phase == Ready
    case RefaultFile => command == RefaultCold(cfg.nonce) && s.phase == Active && s.controlledRefaults == 0
    case StopFile => command == Stop(cfg.nonce)
  }

  /** A waiting command file is taken away in any case, ends the worker unless it
      is acceptable, and otherwise is obeyed. */
  lemma CommandsAreObeyedOrFatal(cfg: Config, s: State, slot: Slot)
    requires Inv(cfg, s) && s.main == Read(slot) && FileOf(s, slot).Some?
    ensures var t := MainSteps(cfg, s, 3);
      && FileOf(t, slot).None?
      && (t.main.Failed? <==> !Acceptable(cfg, s, slot, FileOf(s, slot).value))
      && (!t.main.Failed? ==>
            match slot
            case StartFile => t.active && t.phase == Active && t.main == Read(RefaultFile)
            case RefaultFile => t.main == TouchCold(0, false) && t.phase == Active
            case StopFile => t.main == ClearActive)
  {
    var command := FileOf(s, slot).value;
    var taken := MainNext(cfg, s);
    var removed := MainNext(cfg, taken);
    assert taken == s.(main := Remove(slot, command));
    assert removed == WithFile(taken, slot, None).(main := Handle(slot, command));
    OneStep(cfg, s, 3);
    OneStep(cfg, taken, 2);
    OneStep(cfg, removed, 1);
    assert MainSteps(cfg, s, 3) == HandleCommand(cfg, removed, slot, command);
  }

  // -------------------------------------------------------------------
  // Shutdown
  // -------------------------------------------------------------------

  /** An acceptable STOP waits, and no other command. */
  predicate OnlyStopWaits(cfg: Config, s: State) {
    s.startFile.None? && s.refaultFile.None? && s.stopFile == Some(Stop(cfg.nonce))
  }

  /** The worker is shutting down, or will: an acceptable STOP waits or is in hand,
      and so is no command that would end the worker before. */
  predicate WillStop(cfg: Config, s: State) {
    match s.main
    case Failed(_) => false
    case Remove(slot, command) =>
      Acceptable(cfg, s, slot, command) && (slot != StopFile ==> OnlyStopWaits(cfg, s))
    case Handle(slot, command) =>
      Acceptable(cfg, s, slot, command) && (slot != StopFile ==> OnlyStopWaits(cfg, s))
    case _ =>
      || s.main.ClearActive? || s.main.SetStopping? || AfterStopping(s.main)
      || OnlyStopWaits(cfg, s)
  }

  /** Who has to move: a service thread the main thread waits for, or the main
      thread. */
  function Mover(s: State): Event {
    if s.main.JoinHot? && !s.hot.pc.Exited? then HotStep
    else if s.main.JoinWarm? && !s.warm.pc.Exited? then WarmStep
    else MainStep
  }

  function Rank(m: MainPc): nat {
    match m
    case Load(counter, next) => (if next == Finish then 8 else 48) + (if counter <= 3 then 3 - counter else 0)
    case Stage(next) => if next == Finish then 2 else 42
    case Rename(next) => if next == Finish then 1 else 41
    case PublishDescriptor => 40
    case LoopHead => 39
    case Read(slot) => if slot == StartFile then 38 else if slot == RefaultFile then 35 else 31
    case Remove(slot, _) => if slot == StartFile then 37 else if slot == RefaultFile then 34 else 30
    case Handle(slot, _) => if slot == StartFile then 36 else if slot == RefaultFile then 33 else 29
    case TouchCold(_, _) => 32
    case ClearActive => 28
    case SetStopping => 27
    case JoinHot => 26
    case JoinWarm => 25
    case FinalCheck => 24
    case Done => 0
    case Failed(_) => 0
  }

  function TouchWork(pages: nat, page: nat, bumped: bool): nat {
    if page <= pages then 2 * (pages - page) + (if bumped then 0 else 1) else 0
  }

  /** What a service thread that is told to stop has left to do. */
  function ServiceWork(t: Service, pages: nat): nat {
    match t.pc
    case TestActive => 2 * pages + 6
    case Touching(page, bumped) => TouchWork(pages, page, bumped) + 4
    case AddPages(_) => 3
    case AddCycle => 2
    case TestStopping => 1
    case Exited => 0
  }

  function Work(cfg: Config, s: State): nat {
    if s.main.TouchCold? then TouchWork(PageCount(cfg.cold), s.main.page, s.main.bumped)
    else if s.main.JoinHot? then ServiceWork(s.hot, PageCount(cfg.hot))
    else if s.main.JoinWarm? then ServiceWork(s.warm, PageCount(cfg.warm))
    else 0
  }

  lemma ServiceWorks(t: Service, initial: seq<byte>, active: bool, started: bool)
    requires ServiceOk(t, initial, started, true) && !t.pc.Exited?
    ensures ServiceWork(ServiceStep(t, active, true), PageCount(initial)) < ServiceWork(t, PageCount(initial))
  {
    if t.pc.Touching? {
      PageOffsets(initial, t.pc.page);
    }
  }

  /** The worker will still stop, and is nearer to it. */
  predicate Nearer(cfg: Config, s: State, t: State) {
    && WillStop(cfg, t)
    && (Rank(t.main) < Rank(s.main) || (Rank(t.main) == Rank(s.main) && Work(cfg, t) < Work(cfg, s)))
  }

  lemma PublishingProgresses(cfg: Config, s: State)
    requires WillStop(cfg, s) && Publishing(s.main)
    requires s.main.Load? ==> s.main.counter <= 3
    requires s.main.Stage? ==> s.staged.None? && |s.loaded| == 4
    requires s.main.Rename? ==> s.staged.Some?
    ensures Nearer(cfg, s, MainNext(cfg, s))
  {
  }

  lemma LoopProgresses(cfg: Config, s: State)
    requires WillStop(cfg, s)
    requires s.main.PublishDescriptor? || s.main.LoopHead? || s.main.Read? || s.main.ClearActive? || s.main.SetStopping?
    ensures Nearer(cfg, s, MainNext(cfg, s))
  {
  }

  lemma RemoveProgresses(cfg: Config, s: State)
    requires WillStop(cfg, s) && s.main.Remove?
    ensures Nearer(cfg, s, MainNext(cfg, s))
  {
    var slot, command := s.main.slot, s.main.command;
    var t := MainNext(cfg, s);
    assert t.main == Handle(slot, command) && t.phase == s.phase && t.controlledRefaults == s.controlledRefaults;
  }

  lemma HandleProgresses(cfg: Config, s: State)
    requires WillStop(cfg, s) && s.main.Handle?
    ensures Nearer(cfg, s, MainNext(cfg, s))
  {
    match s.main.slot {
      case StartFile => assert s.main.command == Start(cfg.nonce);
      case RefaultFile => assert s.main.command == RefaultCold(cfg.nonce);
      case StopFile => assert s.main.command == Stop(cfg.nonce);
    }
  }

  lemma ColdTouchProgresses(cfg: Config, s: State)
    requires WillStop(cfg, s) && s.main.TouchCold?
    requires ZoneInFlight(cfg.cold, s.cold, s.main.page, s.main.bumped)
    ensures Nearer(cfg, s, MainNext(cfg, s))
  {
    PageOffsets(cfg.cold, s.main.page);
  }

  lemma JoinProgresses(cfg: Config, s: State)
    requires WillStop(cfg, s) && (s.main.JoinHot? || s.main.JoinWarm?) && s.stopping
    requires ServiceOk(s.hot, cfg.hot, s.phase == Active, s.stopping)
    requires ServiceOk(s.warm, cfg.warm, s.phase == Active, s.stopping)
    ensures Nearer(cfg, s, Next(cfg, s, Mover(s)))
  {
    if s.main.JoinHot? && !s.hot.pc.Exited? {
      ServiceWorks(s.hot, cfg.hot, s.active, s.phase == Active);
    } else if s.main.JoinWarm? && !s.warm.pc.Exited? {
      ServiceWorks(s.warm, cfg.warm, s.active, s.phase == Active);
    }
  }

  lemma FinalCheckProgresses(cfg: Config, s: State)
    requires s.main.FinalCheck?
    requires [FingerprintOf(s.hot.zone), FingerprintOf(s.warm.zone), FingerprintOf(s.cold)] == cfg.Initial()
    ensures Nearer(cfg, s, MainNext(cfg, s))
  {
  }

  /** Every move brings the worker nearer to its end. */
  lemma MoverProgresses(cfg: Config, s: State)
    requires Inv(cfg, s) && WillStop(cfg, s) && !s.main.Done?
    ensures Nearer(cfg, s, Next(cfg, s, Mover(s)))
  {
    if Publishing(s.main) {
      PublishingProgresses(cfg, s);
    } else if s.main.JoinHot? || s.main.JoinWarm? {
      JoinProgresses(cfg, s);
    } else if s.main.TouchCold? {
      ColdTouchProgresses(cfg, s);
    } else if s.main.FinalCheck? {
      FinalCheckPasses(cfg, s);
      FinalCheckProgresses(cfg, s);
    } else if s.main.Remove? {
      RemoveProgresses(cfg, s);
    } else if s.main.Handle? {
      HandleProgresses(cfg, s);
    } else {
      LoopProgresses(cfg, s);
    }
  }

  /** An orderly shutdown, and its exact last record. */
  ghost predicate ShutDown(cfg: Config, t: State) {
    && t.main.Done? && !t.active && t.stopping && t.hot.pc.Exited? && t.warm.pc.Exited?
    && t.sequence == |t.published|
    && t.progress == Some(Current(t).(phase := Stopped))
    && t.hot.pages == PageCount(cfg.hot) * t.hot.cycles
    && t.warm.pages == PageCount(cfg.warm) * t.warm.cycles
    && t.fingerprints == cfg.Initial()
  }

  lemma DoneIsShutDown(cfg: Config, events: seq<Event>)
    requires Run(cfg, events).main.Done?
    ensures ShutDown(cfg, Run(cfg, events))
  {
    RunKeepsInv(cfg, events);
  }

  lemma OneMove(cfg: Config, events: seq<Event>, s: State) returns (e: Event, t: State)
    requires s == Run(cfg, events) && WillStop(cfg, s) && !s.main.Done?
    ensures t == Run(cfg, events + [e]) && Nearer(cfg, s, t)
  {
    e := Mover(s);
    t := Next(cfg, s, e);
    assert (events + [e])[..|events|] == events;
    RunKeepsInv(cfg, events);
    MoverProgresses(cfg, s);
  }

  lemma Appended(events: seq<Event>, e: Event, rest: seq<Event>)
    ensures events + ([e] + rest) == events + [e] + rest
    ensures events + [] == events
  {
  }

  lemma {:induction false} StopReachesDone(cfg: Config, events: seq<Event>, s: State) returns (schedule: seq<Event>)
    requires s == Run(cfg, events) && WillStop(cfg, s)
    ensures Run(cfg, events + schedule).main.Done?
    decreases Rank(s.main), Work(cfg, s)
  {
    if s.main.Done? {
      Appended(events, MainStep, []);
      schedule := [];
    } else {
      var e, t := OneMove(cfg, events, s);
      var rest := StopReachesDone(cfg, events + [e], t);
      Appended(events, e, rest);
      schedule := [e] + rest;
    }
  }

  /** From every reachable state in which an acceptable STOP waits, and no command
      that would end the worker before, there is a schedule that ends in an orderly
      shutdown; its last record counts whole cycles only and agrees with the
      threads. */
  lemma StopIsObeyed(cfg: Config, events: seq<Event>) returns (schedule: seq<Event>)
    requires WillStop(cfg, Run(cfg, events))
    ensures ShutDown(cfg, Run(cfg, events + schedule))
  {
    schedule := StopReachesDone(cfg, events, Run(cfg, events));
    DoneIsShutDown(cfg, events + schedule);
  }

  /** So does the end of the worker's time, whatever waits: from every reachable head
      of the loop it leads to an orderly shutdown too. */
  lemma TimeoutIsOrderly(cfg: Config, events: seq<Event>) returns (schedule: seq<Event>)
    requires Run(cfg, events).main.LoopHead?
    ensures ShutDown(cfg, Run(cfg, events + [MainTimesOut] + schedule))
  {
    assert (events + [MainTimesOut])[..|events|] == events;
    schedule := StopIsObeyed(cfg, events + [MainTimesOut]);
  }

  // -------------------------------------------------------------------
  // Work
  // -------------------------------------------------------------------

  /** What is left of a run when some of its events have happened. */
  function Replay(cfg: Config, s: State, schedule: seq<Event>): State
    decreases |schedule|
  {
    if schedule == [] then s else Replay(cfg, Next(cfg, s, schedule[0]), schedule[1..])
  }

  lemma {:induction false} RunReplays(cfg: Config, events: seq<Event>, schedule: seq<Event>)
    ensures Run(cfg, events + schedule) == Replay(cfg, Run(cfg, events), schedule)
    decreases |schedule|
  {
    if schedule == [] {
      assert events + schedule == events;
    } else {
      assert events + schedule == events + [schedule[0]] + schedule[1..];
      assert (events + [schedule[0]])[..|events|] == events;
      RunReplays(cfg, events + [schedule[0]], schedule[1..]);
    }
  }

  function Repeated(e: Event, n: nat): (r: seq<Event>)
    ensures |r| == n
  {
    if n == 0 then [] else [e] + Repeated(e, n - 1)
  }

  lemma {:induction false} ReplayHot(cfg: Config, s: State, n: nat)
    ensures Replay(cfg, s, Repeated(HotStep, n)) == s.(hot := ServiceSteps(s.hot, s.active, s.stopping, n))
    decreases n
  {
    if n > 0 {
      ReplayHot(cfg, Next(cfg, s, HotStep), n - 1);
      assert Repeated(HotStep, n)[1..] == Repeated(HotStep, n - 1);
    }
  }

  lemma {:induction false} ReplayWarm(cfg: Config, s: State, n: nat)
    ensures Replay(cfg, s, Repeated(WarmStep, n)) == s.(warm := ServiceSteps(s.warm, s.active, s.stopping, n))
    decreases n
  {
    if n > 0 {
      ReplayWarm(cfg, Next(cfg, s, WarmStep), n - 1);
      assert Repeated(WarmStep, n)[1..] == Repeated(WarmStep, n - 1);
    }
  }

  lemma {:induction false} ReplayMain(cfg: Config, s: State, n: nat)
    ensures Replay(cfg, s, Repeated(MainStep, n)) == MainSteps(cfg, s, n)
    decreases n
  {
    if n > 0 {
      ReplayMain(cfg, MainNext(cfg, s), n - 1);
      assert Repeated(MainStep, n)[1..] == Repeated(MainStep, n - 1);
    }
  }

  /** What a service thread is after one more whole cycle. */
  function CycleDone(t: Service, initial: seq<byte>): Service {
    Service(TestStopping, initial, t.cycles + 1, PageCount(initial) * (t.cycles + 1))
  }

  lemma TouchingCycle(t: Service, initial: seq<byte>) returns (n: nat)
    requires ServiceOk(t, initial, true, false) && t.pc.Touching?
    ensures ServiceSteps(t, true, false, n) == CycleDone(t, initial)
  {
    var u := PageDone(t, initial);
    n := 2 * (PageCount(initial) - u.pc.page) + 3;
    TouchCompletes(u, initial, true, false);
    if t.pc.bumped {
      OneServiceStep(t, n + 1);
      n := n + 1;
    }
  }

  lemma PageDone(t: Service, initial: seq<byte>) returns (u: Service)
    requires t.pc.Touching? && ZoneInFlight(initial, t.zone, t.pc.page, t.pc.bumped)
    ensures u == if t.pc.bumped then ServiceStep(t, true, false) else t
    ensures u.pc.Touching? && !u.pc.bumped && u.pc.page <= PageCount(initial)
    ensures u.zone == initial && u.cycles == t.cycles && u.pages == t.pages
  {
    PageOffsets(initial, t.pc.page);
    u := if t.pc.bumped then ServiceStep(t, true, false) else t;
    assert u.zone == initial;
  }

  lemma OneServiceStep(t: Service, n: nat)
    requires n > 0
    ensures ServiceSteps(t, true, false, n) == ServiceSteps(ServiceStep(t, true, false), true, false, n - 1)
  {
  }

  lemma CountingCycle(t: Service, initial: seq<byte>) returns (n: nat)
    requires ServiceOk(t, initial, true, false) && (t.pc.AddPages? || t.pc.AddCycle?)
    ensures ServiceSteps(t, true, false, n) == CycleDone(t, initial)
  {
    var u := ServiceStep(t, true, false);
    if t.pc.AddCycle? {
      n := 1;
      assert ServiceSteps(t, true, false, 1) == ServiceSteps(u, true, false, 0);
    } else {
      n := 2;
      assert ServiceSteps(t, true, false, 2) == ServiceSteps(u, true, false, 1)
          == ServiceSteps(ServiceStep(u, true, false), true, false, 0);
    }
  }

  /** From anywhere, a service thread that is allowed to work completes a cycle. */
  lemma CycleCompletes(t: Service, initial: seq<byte>) returns (n: nat)
    requires ServiceOk(t, initial, true, false)
    ensures ServiceSteps(t, true, false, n) == CycleDone(t, initial)
  {
    if t.pc.Touching? {
      n := TouchingCycle(t, initial);
    } else if t.pc.AddPages? || t.pc.AddCycle? {
      n := CountingCycle(t, initial);
    } else {
      n := (if t.pc.TestStopping? then 5 else 4) + 2 * PageCount(initial);
      ServiceWorksWhenActive(t, initial);
    }
  }

  /** No command waits or is in hand. */
  predicate Calm(s: State) {
    && s.startFile.None? && s.refaultFile.None? && s.stopFile.None?
    && (InLoop(s.main) || Publishing(s.main)) && !s.main.Remove? && !s.main.Handle?
  }

  /** How far the main thread is from the head of its loop. */
  function FromHead(m: MainPc): nat {
    match m
    case Read(slot) => if slot == StartFile then 13 else if slot == RefaultFile then 12 else 10
    case TouchCold(_, _) => 11
    case Load(counter, _) => if counter <= 3 then 9 - counter else 6
    case Stage(_) => 5
    case Rename(_) => 4
    case PublishDescriptor => 3
    case _ => 0
  }

  function ColdWork(cfg: Config, m: MainPc): nat {
    if m.TouchCold? then TouchWork(PageCount(cfg.cold), m.page, m.bumped) else 0
  }

  /** Nearer to the head of the loop, with nothing else touched. */
  predicate CalmlyNearer(cfg: Config, s: State, t: State) {
    && Calm(t) && t.stopping == s.stopping && t.active == s.active
    && t.hot == s.hot && t.warm == s.warm && s.published <= t.published
    && (FromHead(t.main) < FromHead(s.main)
        || (FromHead(t.main) == FromHead(s.main) && ColdWork(cfg, t.main) < ColdWork(cfg, s.main)))
  }

  lemma CalmPublishing(cfg: Config, s: State)
    requires Calm(s) && Publishing(s.main) && s.main.next != Finish
    requires s.main.Load? ==> s.main.counter <= 3
    requires s.main.Stage? ==> s.staged.None? && |s.loaded| == 4
    requires s.main.Rename? ==> s.staged.Some?
    ensures CalmlyNearer(cfg, s, MainNext(cfg, s))
  {
  }

  lemma CalmReading(cfg: Config, s: State)
    requires Calm(s) && (s.main.PublishDescriptor? || s.main.Read?)
    ensures CalmlyNearer(cfg, s, MainNext(cfg, s))
  {
  }

  lemma CalmTouching(cfg: Config, s: State)
    requires Calm(s) && s.main.TouchCold? && ZoneInFlight(cfg.cold, s.cold, s.main.page, s.main.bumped)
    ensures CalmlyNearer(cfg, s, MainNext(cfg, s))
  {
    PageOffsets(cfg.cold, s.main.page);
  }

  lemma CalmMove(cfg: Config, events: seq<Event>, s: State) returns (t: State)
    requires s == Run(cfg, events) && Calm(s) && !s.stopping && !s.main.LoopHead?
    ensures t == Run(cfg, events + [MainStep]) && CalmlyNearer(cfg, s, t)
  {
    t := MainNext(cfg, s);
    assert (events + [MainStep])[..|events|] == events;
    RunKeepsInv(cfg, events);
    if Publishing(s.main) {
      CalmPublishing(cfg, s);
    } else if s.main.TouchCold? {
      CalmTouching(cfg, s);
    } else {
      CalmReading(cfg, s);
    }
  }

  /** Without commands the main thread returns to the head of its loop. */
  lemma {:induction false} HeadIsReached(cfg: Config, events: seq<Event>, s: State)
    returns (schedule: seq<Event>, t: State)
    requires s == Run(cfg, events) && Calm(s) && !s.stopping
    ensures t == Run(cfg, events + schedule) && Calm(t) && t.main.LoopHead?
    ensures t.stopping == s.stopping && t.active == s.active && t.hot == s.hot && t.warm == s.warm
    ensures s.published <= t.published
    decreases FromHead(s.main), ColdWork(cfg, s.main)
  {
    if s.main.LoopHead? {
      Appended(events, MainStep, []);
      schedule, t := [], s;
    } else {
      var next := CalmMove(cfg, events, s);
      var rest;
      rest, t := HeadIsReached(cfg, events + [MainStep], next);
      Appended(events, MainStep, rest);
      schedule := [MainStep] + rest;
    }
  }

  lemma ServicesAreOk(cfg: Config, events: seq<Event>, s: State)
    requires s == Run(cfg, events) && s.active && !s.stopping
    ensures ServiceOk(s.hot, cfg.hot, true, false) && ServiceOk(s.warm, cfg.warm, true, false)
  {
    RunKeepsInv(cfg, events);
  }

  /** The record says that both threads did one more whole cycle than before, and
      that every whole cycle was one of touching all pages. */
  predicate OneMoreCycle(cfg: Config, hot: Service, warm: Service, r: Progress) {
    && r.hotCycles == hot.cycles + 1
    && r.hotPages == PageCount(cfg.hot) * (hot.cycles + 1)
    && r.warmCycles == warm.cycles + 1
    && r.warmPages == PageCount(cfg.warm) * (warm.cycles + 1)
  }

  lemma HotCompletes(cfg: Config, events: seq<Event>, s: State) returns (schedule: seq<Event>, t: State)
    requires s == Run(cfg, events) && s.active && !s.stopping && ServiceOk(s.hot, cfg.hot, true, false)
    ensures t == Run(cfg, events + schedule) && t == s.(hot := CycleDone(s.hot, cfg.hot))
  {
    var n := CycleCompletes(s.hot, cfg.hot);
    schedule, t := Repeated(HotStep, n), s.(hot := ServiceSteps(s.hot, s.active, s.stopping, n));
    ReplayHot(cfg, s, n);
    RunReplays(cfg, events, schedule);
  }

  lemma WarmCompletes(cfg: Config, events: seq<Event>, s: State) returns (schedule: seq<Event>, t: State)
    requires s == Run(cfg, events) && s.active && !s.stopping && ServiceOk(s.warm, cfg.warm, true, false)
    ensures t == Run(cfg, events + schedule) && t == s.(warm := CycleDone(s.warm, cfg.warm))
  {
    var n := CycleCompletes(s.warm, cfg.warm);
    schedule, t := Repeated(WarmStep, n), s.(warm := ServiceSteps(s.warm, s.active, s.stopping, n));
    ReplayWarm(cfg, s, n);
    RunReplays(cfg, events, schedule);
  }

  /** Left alone, both service threads complete a cycle. */
  lemma BothComplete(cfg: Config, events: seq<Event>, s: State) returns (schedule: seq<Event>, t: State)
    requires s == Run(cfg, events) && s.active && !s.stopping
    ensures t == Run(cfg, events + schedule)
    ensures t == s.(hot := CycleDone(s.hot, cfg.hot), warm := CycleDone(s.warm, cfg.warm))
  {
    ServicesAreOk(cfg, events, s);
    var first, hot := HotCompletes(cfg, events, s);
    var second;
    second, t := WarmCompletes(cfg, events + first, hot);
    Grouped(events, first, second);
    schedule := first + second;
  }

  lemma PublishFrom(cfg: Config, events: seq<Event>, s: State) returns (schedule: seq<Event>, t: State)
    requires s == Run(cfg, events) && s.main.LoopHead? && Calm(s)
    ensures t == Run(cfg, events + schedule)
    ensures s.published < t.published && t.progress == Some(Current(s).(sequence := s.sequence + 1))
  {
    RunKeepsInv(cfg, events);
    var n := QuietPassPublishesOneRecord(cfg, s);
    schedule, t := Repeated(MainStep, n), MainSteps(cfg, s, n);
    ReplayMain(cfg, s, n);
    RunReplays(cfg, events, schedule);
    LatestIsOut(cfg, events + schedule, t);
  }

  lemma LatestIsOut(cfg: Config, events: seq<Event>, t: State)
    requires t == Run(cfg, events) && t.published != []
    ensures t.progress == Some(t.published[|t.published| - 1])
  {
    RunKeepsInv(cfg, events);
  }

  /** No record published so far is as far. */
  predicate AheadOf(r: Progress, published: seq<Progress>) {
    forall earlier | earlier in published :: earlier.hotCycles < r.hotCycles && earlier.warmCycles < r.warmCycles
  }

  lemma NoneAhead(cfg: Config, events: seq<Event>, s: State, r: Progress)
    requires s == Run(cfg, events) && OneMoreCycle(cfg, s.hot, s.warm, r)
    ensures AheadOf(r, s.published)
  {
    RunKeepsInv(cfg, events);
    assert forall earlier | earlier in s.published :: Behind(earlier, Current(s));
  }

  lemma Grouped(events: seq<Event>, a: seq<Event>, b: seq<Event>)
    ensures events + (a + b) == events + a + b
  {
  }

  lemma Regrouped(events: seq<Event>, a: seq<Event>, b: seq<Event>, c: seq<Event>)
    ensures events + (a + b + c) == events + a + b + c
  {
  }

  /** From every reachable state in which the service threads may work and no
      command waits, there is a schedule that publishes a record of one more whole
      cycle of each, ahead of every record before. */
  lemma WorkIsPublished(cfg: Config, events: seq<Event>, s: State) returns (schedule: seq<Event>, t: State)
    requires s == Run(cfg, events) && s.active && !s.stopping && Calm(s)
    ensures t == Run(cfg, events + schedule)
    ensures s.published < t.published && t.progress.Some?
    ensures OneMoreCycle(cfg, s.hot, s.warm, t.progress.value) && AheadOf(t.progress.value, s.published)
  {
    var round, head := HeadIsReached(cfg, events, s);
    var work, worked := BothComplete(cfg, events + round, head);
    var last;
    last, t := PublishFrom(cfg, events + round + work, worked);
    Regrouped(events, round, work, last);
    schedule := round + work + last;
    NoneAhead(cfg, events, s, t.progress.value);
  }
}
