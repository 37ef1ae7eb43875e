/**
  The mutex of the Windows port: a static mutex sets itself up when it is first used, whichever
  thread that is. Threads interleave in atomic steps, one shared access each.
 */
module MutexProtocol {

  datatype Op = Lock | Unlock | AssertHeld

  /** Failed checks, uses of a section that is not set up, leaving a section that another thread or
      nobody is in, and AssertHeld's own check. */
  datatype Fault = UnexpectedPhase | PhaseNotOne | SectionNotReady | LeftUnheld | NotHeld

  /** Where a thread is: outside, somewhere in the lazy initialisation an operation starts with, or
      behind it. */
  datatype Pc =
    | Idle
    | TestPhase(op: Op)
    | ResetOwner(op: Op)
    | Allocate(op: Op)
    | Initialize(op: Op)
    | Publish(op: Op)
    | Spin(op: Op)
    | Proceed(op: Op)
    | RecordOwner
    | Leave
    | Crashed(fault: Fault)

  /** A critical section admits its holder again; 0 is no thread's id. */
  datatype Section = Missing | Raw | Ready(holder: nat, depth: nat)

  datatype State = State(
    dynamic: bool,
    phase: int,
    owner: nat,
    section: Section,
    allocations: nat,
    pcs: map<nat, Pc>)

  datatype Step = Call(thread: nat, op: Op) | Go(thread: nat)

  ghost predicate Holds(s: State, t: nat) {
    t != 0 && s.section.Ready? && s.section.holder == t
  }

  // ---------------------------------------------------------------- one step

  ghost predicate Enabled(s: State, step: Step) {
    && step.thread in s.pcs && step.thread != 0
    && match step
       case Call(t, op) => s.pcs[t].Idle?
       case Go(t) =>
         && !s.pcs[t].Idle? && !s.pcs[t].Crashed?
         // entering waits for the section to be free
         && (s.pcs[t] == Proceed(Lock) && s.section.Ready? ==> s.section.holder == 0 || s.section.holder == t)
  }

  ghost function At(s: State, t: nat, pc: Pc): State {
    s.(pcs := s.pcs[t := pc])
  }

  /** The compare-and-exchange from 0 to 1 and the branch on the value found. */
  ghost function AfterTest(s: State, t: nat, op: Op): State {
    if s.phase == 0 then At(s.(phase := 1), t, ResetOwner(op))
    else if s.phase == 1 then At(s, t, Spin(op))
    else if s.phase == 2 then At(s, t, Proceed(op))
    else At(s, t, Crashed(UnexpectedPhase))
  }

  ghost function AfterProceed(s: State, t: nat, op: Op): State {
    match op
    case Lock =>
      if s.section.Ready?
      then At(s.(section := Ready(t, s.section.depth + 1)), t, RecordOwner)
      else At(s, t, Crashed(SectionNotReady))
    case Unlock => At(s.(owner := 0), t, Leave)
    case AssertHeld => At(s, t, if s.owner == t then Idle else Crashed(NotHeld))
  }

  ghost function AfterLeave(s: State, t: nat): State {
    if !s.section.Ready? then At(s, t, Crashed(SectionNotReady))
    else if !Holds(s, t) || s.section.depth == 0 then At(s, t, Crashed(LeftUnheld))
    else
      var left := s.section.depth - 1;
      At(s.(section := Ready(if left == 0 then 0 else t, left)), t, Idle)
  }

  ghost function Next(s: State, step: Step): State
    requires Enabled(s, step)
  {
    match step
    case Call(t, op) => At(s, t, if s.dynamic then Proceed(op) else TestPhase(op))
    case Go(t) =>
      match s.pcs[t]
      case TestPhase(op) => AfterTest(s, t, op)
      case ResetOwner(op) => At(s.(owner := 0), t, Allocate(op))
      case Allocate(op) => At(s.(section := Raw, allocations := s.allocations + 1), t, Initialize(op))
      case Initialize(op) =>
        if s.section == Missing then At(s, t, Crashed(SectionNotReady))
        else At(s.(section := Ready(0, 0)), t, Publish(op))
      case Publish(op) =>
        if s.phase == 1 then At(s.(phase := 2), t, Proceed(op)) else At(s, t, Crashed(PhaseNotOne))
      case Spin(op) => if s.phase == 2 then At(s, t, Proceed(op)) else s
      case Proceed(op) => AfterProceed(s, t, op)
      case RecordOwner => At(s.(owner := t), t, Idle)
      case Leave => AfterLeave(s, t)
      case _ => s
  }

  // ---------------------------------------------------------------- runs

  /** How the threads use the mutex: anyhow; unlocking it only while holding it; or, besides,
      locking it only while not holding it. */
  datatype Use = AnyUse | HeldUnlocks | OneLevel

  ghost predicate Allowed(use: Use, s: State, step: Step) {
    step.Call? ==>
      && (use != AnyUse && step.op == Unlock ==> Holds(s, step.thread))
      && (use == OneLevel && step.op == Lock ==> !Holds(s, step.thread))
  }

  ghost predicate IsRun(s: State, steps: seq<Step>)
    decreases |steps|
  {
    steps == [] || (Enabled(s, steps[0]) && IsRun(Next(s, steps[0]), steps[1..]))
  }

  ghost predicate KeepsTo(use: Use, s: State, steps: seq<Step>)
    requires IsRun(s, steps)
    decreases |steps|
  {
    steps == [] || (Allowed(use, s, steps[0]) && KeepsTo(use, Next(s, steps[0]), steps[1..]))
  }

  ghost function Run(s: State, steps: seq<Step>): State
    requires IsRun(s, steps)
    decreases |steps|
  {
    if steps == [] then s else Run(Next(s, steps[0]), steps[1..])
  }

  ghost predicate AllIdle(pcs: map<nat, Pc>) {
    0 !in pcs && forall t :: t in pcs ==> pcs[t] == Idle
  }

  /** The linker clears a static mutex's type, phase and section; nothing is known of its owner field. */
  ghost predicate StaticStart(s: State) {
    !s.dynamic && s.phase == 0 && s.section == Missing && s.allocations == 0 && AllIdle(s.pcs)
  }

  /** What the constructor leaves behind. */
  ghost predicate DynamicStart(s: State) {
    s.dynamic && s.phase == 0 && s.owner == 0 && s.section == Ready(0, 0) && s.allocations == 1 && AllIdle(s.pcs)
  }

  /** From either start, however the threads interleave. */
  ghost predicate ReachedBy(use: Use, s: State, start: State, steps: seq<Step>) {
    && (StaticStart(start) || DynamicStart(start))
    && IsRun(start, steps) && KeepsTo(use, start, steps) && Run(start, steps) == s
  }

  ghost predicate Reachable(use: Use, s: State) {
    exists start, steps :: ReachedBy(use, s, start, steps)
  }

  // ---------------------------------------------------------------- what every run keeps

  ghost predicate Started(s: State) {
    s.dynamic || s.phase == 2
  }

  predicate Initializing(pc: Pc) {
    pc.ResetOwner? || pc.Allocate? || pc.Initialize? || pc.Publish?
  }

  /** Between entering and recording, or between resetting and leaving. */
  predicate Unrecorded(pc: Pc) {
    pc.RecordOwner? || pc.Leave?
  }

  ghost predicate SharedIsRight(s: State) {
    && 0 !in s.pcs
    && (s.dynamic ==> s.phase == 0)
    && 0 <= s.phase <= 2
    && (!s.dynamic && s.phase == 0 ==> s.section == Missing && s.allocations == 0)
    && (Started(s) ==>
          s.section.Ready? && s.allocations == 1 && (s.section.holder == 0 <==> s.section.depth == 0))
  }

  ghost predicate ThreadIsRight(s: State, t: nat)
    requires t in s.pcs
  {
    match s.pcs[t]
    case Idle => true
    case TestPhase(op) => !s.dynamic
    case ResetOwner(op) => !s.dynamic && s.phase == 1 && s.section == Missing && s.allocations == 0
    case Allocate(op) => !s.dynamic && s.phase == 1 && s.section == Missing && s.allocations == 0
    case Initialize(op) => !s.dynamic && s.phase == 1 && s.section == Raw && s.allocations == 1
    case Publish(op) => !s.dynamic && s.phase == 1 && s.section == Ready(0, 0) && s.allocations == 1
    case Spin(op) => !s.dynamic && s.phase >= 1
    case Proceed(op) => Started(s)
    case RecordOwner => Started(s) && Holds(s, t)
    case Leave => Started(s)
    case Crashed(fault) => Started(s) && (fault == LeftUnheld || fault == NotHeld)
  }

  ghost predicate OneInitializer(s: State) {
    && (forall t, u :: t in s.pcs && u in s.pcs && Initializing(s.pcs[t]) && Initializing(s.pcs[u]) ==> t == u)
    && (!s.dynamic && s.phase == 1 ==> exists t :: t in s.pcs && Initializing(s.pcs[t]))
  }

  /** Kept however the mutex is used. */
  ghost predicate Right(s: State) {
    && SharedIsRight(s)
    && OneInitializer(s)
    && forall t :: t in s.pcs ==> ThreadIsRight(s, t)
  }

  lemma {:induction false} StartIsRight(s: State)
    requires StaticStart(s) || DynamicStart(s)
    ensures Right(s)
  {
  }

  /** A move of t that leaves the phase alone, and t an initializer or not one, keeps the initializer. */
  lemma {:induction false} SameInitializer(s: State, s': State, t: nat, pc: Pc)
    requires OneInitializer(s) && t in s.pcs && s'.pcs == s.pcs[t := pc]
    requires s'.dynamic == s.dynamic && s'.phase == s.phase
    requires Initializing(pc) <==> Initializing(s.pcs[t])
    ensures OneInitializer(s')
  {
    forall u | u in s.pcs
      ensures Initializing(s'.pcs[u]) <==> Initializing(s.pcs[u])
    {
    }
    if !s.dynamic && s.phase == 1 {
      var u :| u in s.pcs && Initializing(s.pcs[u]);
      assert Initializing(s'.pcs[u]);
    }
  }

  lemma {:induction false} CallKeepsRight(s: State, t: nat, op: Op)
    requires Right(s) && Enabled(s, Call(t, op))
    ensures Right(Next(s, Call(t, op)))
  {
    var s' := Next(s, Call(t, op));
    SameInitializer(s, s', t, s'.pcs[t]);
    forall u | u in s.pcs && u != t
      ensures ThreadIsRight(s', u)
    {
      assert ThreadIsRight(s, u);
    }
    assert ThreadIsRight(s', t);
  }

  /** The first to test the phase becomes the initializer. */
  lemma {:induction false} FirstTestKeepsRight(s: State, t: nat, op: Op)
    requires Right(s) && Enabled(s, Go(t)) && s.pcs[t] == TestPhase(op) && s.phase == 0
    ensures Right(Next(s, Go(t)))
  {
    var s' := Next(s, Go(t));
    assert ThreadIsRight(s, t);
    forall u | u in s.pcs && u != t
      ensures !Initializing(s.pcs[u]) && ThreadIsRight(s', u)
    {
      assert ThreadIsRight(s, u);
    }
    assert Initializing(s'.pcs[t]) && ThreadIsRight(s', t);
  }

  lemma {:induction false} LaterTestKeepsRight(s: State, t: nat, op: Op)
    requires Right(s) && Enabled(s, Go(t)) && s.pcs[t] == TestPhase(op) && s.phase != 0
    ensures Right(Next(s, Go(t)))
  {
    var s' := Next(s, Go(t));
    assert ThreadIsRight(s, t);
    SameInitializer(s, s', t, s'.pcs[t]);
    forall u | u in s.pcs && u != t
      ensures ThreadIsRight(s', u)
    {
      assert ThreadIsRight(s, u);
    }
    assert ThreadIsRight(s', t);
  }

  /** Nobody else minds what the initializer does before it publishes. */
  lemma {:induction false} InitializeKeepsRight(s: State, t: nat)
    requires Right(s) && Enabled(s, Go(t)) && Initializing(s.pcs[t]) && !s.pcs[t].Publish?
    ensures Right(Next(s, Go(t)))
  {
    var s' := Next(s, Go(t));
    assert ThreadIsRight(s, t);
    SameInitializer(s, s', t, s'.pcs[t]);
    forall u | u in s'.pcs && u != t
      ensures ThreadIsRight(s', u)
    {
      assert ThreadIsRight(s, u);
      assert !Initializing(s.pcs[u]);
    }
    assert ThreadIsRight(s', t);
  }

  lemma {:induction false} PublishKeepsRight(s: State, t: nat, op: Op)
    requires Right(s) && Enabled(s, Go(t)) && s.pcs[t] == Publish(op)
    ensures Right(Next(s, Go(t)))
  {
    var s' := Next(s, Go(t));
    assert ThreadIsRight(s, t);
    forall u | u in s'.pcs
      ensures ThreadIsRight(s', u) && !Initializing(s'.pcs[u])
    {
      assert ThreadIsRight(s, u);
    }
  }

  lemma {:induction false} SpinKeepsRight(s: State, t: nat, op: Op)
    requires Right(s) && Enabled(s, Go(t)) && s.pcs[t] == Spin(op)
    ensures Right(Next(s, Go(t)))
  {
    var s' := Next(s, Go(t));
    assert ThreadIsRight(s, t);
    if s.phase == 2 {
      SameInitializer(s, s', t, s'.pcs[t]);
      forall u | u in s.pcs && u != t
        ensures ThreadIsRight(s', u)
      {
        assert ThreadIsRight(s, u);
      }
      assert ThreadIsRight(s', t);
    }
  }

  lemma {:induction false} ProceedKeepsRight(s: State, t: nat, op: Op)
    requires Right(s) && Enabled(s, Go(t)) && s.pcs[t] == Proceed(op)
    ensures Right(Next(s, Go(t)))
  {
    var s' := Next(s, Go(t));
    assert ThreadIsRight(s, t);
    SameInitializer(s, s', t, s'.pcs[t]);
    forall u | u in s'.pcs && u != t
      ensures ThreadIsRight(s', u)
    {
      assert ThreadIsRight(s, u);
    }
    assert ThreadIsRight(s', t);
  }

  lemma {:induction false} WindowKeepsRight(s: State, t: nat)
    requires Right(s) && Enabled(s, Go(t)) && Unrecorded(s.pcs[t])
    ensures Right(Next(s, Go(t)))
  {
    var s' := Next(s, Go(t));
    assert ThreadIsRight(s, t);
    SameInitializer(s, s', t, s'.pcs[t]);
    forall u | u in s'.pcs && u != t
      ensures ThreadIsRight(s', u)
    {
      assert ThreadIsRight(s, u);
    }
  }

  lemma {:induction false} GoKeepsRight(s: State, t: nat)
    requires Right(s) && Enabled(s, Go(t))
    ensures Right(Next(s, Go(t)))
  {
    match s.pcs[t]
    case TestPhase(op) =>
      if s.phase == 0 { FirstTestKeepsRight(s, t, op); } else { LaterTestKeepsRight(s, t, op); }
    case ResetOwner(_) => InitializeKeepsRight(s, t);
    case Allocate(_) => InitializeKeepsRight(s, t);
    case Initialize(_) => InitializeKeepsRight(s, t);
    case Publish(op) => PublishKeepsRight(s, t, op);
    case Spin(op) => SpinKeepsRight(s, t, op);
    case Proceed(op) => ProceedKeepsRight(s, t, op);
    case RecordOwner => WindowKeepsRight(s, t);
    case Leave => WindowKeepsRight(s, t);
  }

  lemma {:induction false} NextKeepsRight(s: State, step: Step)
    requires Right(s) && Enabled(s, step)
    ensures Right(Next(s, step))
  {
    match step
    case Call(t, op) => CallKeepsRight(s, t, op);
    case Go(t) => GoKeepsRight(s, t);
  }

  // ---------------------------------------------------------------- what is kept when nobody unlocks without holding

  /** The thread is in the lazy initialisation of an operation, or right behind it. */
  predicate Pending(pc: Pc, op: Op) {
    (pc.TestPhase? || Initializing(pc) || pc.Spin? || pc.Proceed?) && pc.op == op
  }

  ghost predicate HolderIsRight(s: State, t: nat)
    requires t in s.pcs
  {
    var pc := s.pcs[t];
    && (Pending(pc, Unlock) ==> Holds(s, t))
    && (pc.Leave? ==> Holds(s, t) && s.owner == 0)
    && (pc.Allocate? || pc.Initialize? || pc.Publish? ==> s.owner == 0)
    && (pc.Crashed? ==> pc.fault == NotHeld)
  }

  /** Only the holder is ever recorded as the owner. */
  ghost predicate HoldersAreRight(s: State) {
    && (Started(s) && s.section.Ready? ==> s.owner == 0 || s.owner == s.section.holder)
    && forall t :: t in s.pcs ==> HolderIsRight(s, t)
  }

  /** No thread is in or about to leave a section that has no holder. */
  lemma {:induction false} NobodyInside(s: State, u: nat)
    requires HoldersAreRight(s) && u in s.pcs && (s.section.Ready? ==> s.section.holder == 0)
    ensures !Pending(s.pcs[u], Unlock) && !s.pcs[u].Leave?
  {
    assert HolderIsRight(s, u);
  }

  lemma {:induction false} CallKeepsHolders(s: State, t: nat, op: Op)
    requires Right(s) && HoldersAreRight(s) && Enabled(s, Call(t, op)) && Allowed(HeldUnlocks, s, Call(t, op))
    ensures HoldersAreRight(Next(s, Call(t, op)))
  {
    var s' := Next(s, Call(t, op));
    forall u | u in s'.pcs
      ensures HolderIsRight(s', u)
    {
      assert HolderIsRight(s, u);
    }
  }

  /** The steps up to the end of the initialisation. */
  lemma {:induction false} InitializingKeepsHolders(s: State, t: nat)
    requires Right(s) && HoldersAreRight(s) && Enabled(s, Go(t))
    requires s.pcs[t].TestPhase? || s.pcs[t].Spin? || Initializing(s.pcs[t])
    ensures HoldersAreRight(Next(s, Go(t)))
  {
    var s' := Next(s, Go(t));
    assert ThreadIsRight(s, t) && HolderIsRight(s, t);
    forall u | u in s'.pcs
      ensures HolderIsRight(s', u)
    {
      assert ThreadIsRight(s, u) && HolderIsRight(s, u);
      if Initializing(s.pcs[t]) {
        NobodyInside(s, u);
      }
    }
  }

  lemma {:induction false} SectionKeepsHolders(s: State, t: nat)
    requires Right(s) && HoldersAreRight(s) && Enabled(s, Go(t))
    requires s.pcs[t].Proceed? || Unrecorded(s.pcs[t])
    ensures HoldersAreRight(Next(s, Go(t)))
  {
    var s' := Next(s, Go(t));
    assert ThreadIsRight(s, t) && HolderIsRight(s, t);
    forall u | u in s'.pcs
      ensures HolderIsRight(s', u)
    {
      assert ThreadIsRight(s, u) && HolderIsRight(s, u);
    }
  }

  lemma {:induction false} NextKeepsHolders(s: State, step: Step)
    requires Right(s) && HoldersAreRight(s) && Enabled(s, step) && Allowed(HeldUnlocks, s, step)
    ensures HoldersAreRight(Next(s, step))
  {
    match step
    case Call(t, op) => CallKeepsHolders(s, t, op);
    case Go(t) =>
      if s.pcs[t].Proceed? || Unrecorded(s.pcs[t]) {
        SectionKeepsHolders(s, t);
      } else {
        InitializingKeepsHolders(s, t);
      }
  }

  // ---------------------------------------------------------------- what is kept when, besides, nobody locks what it holds

  ghost predicate LevelIsRight(s: State, t: nat)
    requires t in s.pcs
  {
    var pc := s.pcs[t];
    && (Pending(pc, Lock) ==> !Holds(s, t))
    && (Holds(s, t) ==> s.section.depth == 1 && !pc.Crashed?)
    && (Holds(s, t) && Started(s) ==> s.owner == (if Unrecorded(pc) then 0 else t))
  }

  ghost predicate LevelsAreRight(s: State) {
    && (s.section.Ready? && s.section.holder != 0 ==> s.section.holder in s.pcs)
    && forall t :: t in s.pcs ==> LevelIsRight(s, t)
  }

  lemma {:induction false} CallKeepsLevels(s: State, t: nat, op: Op)
    requires Right(s) && HoldersAreRight(s) && LevelsAreRight(s)
    requires Enabled(s, Call(t, op)) && Allowed(OneLevel, s, Call(t, op))
    ensures LevelsAreRight(Next(s, Call(t, op)))
  {
    var s' := Next(s, Call(t, op));
    forall u | u in s'.pcs
      ensures LevelIsRight(s', u)
    {
      assert LevelIsRight(s, u);
    }
  }

  lemma {:induction false} GoKeepsLevels(s: State, t: nat)
    requires Right(s) && HoldersAreRight(s) && LevelsAreRight(s) && Enabled(s, Go(t))
    ensures LevelsAreRight(Next(s, Go(t)))
  {
    var s' := Next(s, Go(t));
    assert ThreadIsRight(s, t) && HolderIsRight(s, t) && LevelIsRight(s, t);
    forall u | u in s'.pcs && u != t
      ensures LevelIsRight(s', u)
    {
      assert ThreadIsRight(s, u) && HolderIsRight(s, u) && LevelIsRight(s, u);
    }
    assert LevelIsRight(s', t);
  }

  lemma {:induction false} NextKeepsLevels(s: State, step: Step)
    requires Right(s) && HoldersAreRight(s) && LevelsAreRight(s)
    requires Enabled(s, step) && Allowed(OneLevel, s, step)
    ensures LevelsAreRight(Next(s, step))
  {
    match step
    case Call(t, op) => CallKeepsLevels(s, t, op);
    case Go(t) => GoKeepsLevels(s, t);
  }

  // ---------------------------------------------------------------- over every run

  ghost predicate KeptBy(use: Use, s: State) {
    Right(s) && (use != AnyUse ==> HoldersAreRight(s)) && (use == OneLevel ==> LevelsAreRight(s))
  }

  lemma {:induction false} StartIsKept(use: Use, s: State)
    requires StaticStart(s) || DynamicStart(s)
    ensures KeptBy(use, s)
  {
    StartIsRight(s);
  }

  lemma {:induction false} RunKeeps(use: Use, s: State, steps: seq<Step>)
    requires KeptBy(use, s) && IsRun(s, steps) && KeepsTo(use, s, steps)
    ensures KeptBy(use, Run(s, steps))
    decreases |steps|
  {
    if steps != [] {
      NextKeepsRight(s, steps[0]);
      if use != AnyUse {
        NextKeepsHolders(s, steps[0]);
      }
      if use == OneLevel {
        NextKeepsLevels(s, steps[0]);
      }
      RunKeeps(use, Next(s, steps[0]), steps[1..]);
    }
  }

  lemma {:induction false} ReachableIsKept(use: Use, s: State)
    requires Reachable(use, s)
    ensures KeptBy(use, s)
  {
    var start, steps :| ReachedBy(use, s, start, steps);
    StartIsKept(use, start);
    RunKeeps(use, start, steps);
  }

  /** However the mutex is used: the section exists, made and set up once, by the time any operation
      gets past the lazy initialisation, and is never made again. */
  lemma {:induction false} SectionIsMadeOnce(use: Use, s: State, t: nat)
    requires Reachable(use, s) && t in s.pcs
    ensures s.allocations <= 1
    ensures Started(s) ==> s.allocations == 1 && s.section.Ready?
    ensures s.pcs[t].Proceed? || Unrecorded(s.pcs[t]) || Holds(s, t) ==> Started(s)
  {
    ReachableIsKept(use, s);
    assert ThreadIsRight(s, t);
    if !s.dynamic && s.phase == 1 {
      var u :| u in s.pcs && Initializing(s.pcs[u]);
      assert ThreadIsRight(s, u);
    }
  }

  /** However the mutex is used: the phase is never unexpected, publishing always finds it at 1, and
      the section is ready whenever it is entered or left.  What is left to fail is the caller's. */
  lemma {:induction false} InitializationNeverFails(use: Use, s: State, t: nat)
    requires Reachable(use, s) && t in s.pcs && s.pcs[t].Crashed?
    ensures s.pcs[t].fault == LeftUnheld || s.pcs[t].fault == NotHeld
  {
    ReachableIsKept(use, s);
    assert ThreadIsRight(s, t);
  }

  /** If nobody unlocks without holding, no check fails but AssertHeld's, recursive locking or not. */
  lemma {:induction false} OnlyAssertHeldFails(use: Use, s: State, t: nat)
    requires use != AnyUse && Reachable(use, s) && t in s.pcs && s.pcs[t].Crashed?
    ensures s.pcs[t] == Crashed(NotHeld)
  {
    ReachableIsKept(use, s);
    assert HolderIsRight(s, t);
  }

  /** However the mutex is used: leaving the section goes well for its holder, whatever the depth, and fails for
      everybody else. */
  lemma {:induction false} LeavingPassesIffHeld(use: Use, s: State, t: nat)
    requires Reachable(use, s) && Enabled(s, Go(t)) && s.pcs[t] == Leave
    ensures Next(s, Go(t)).pcs[t] == Idle <==> Holds(s, t)
    ensures Next(s, Go(t)).pcs[t] == Crashed(LeftUnheld) <==> !Holds(s, t)
  {
    ReachableIsKept(use, s);
    assert ThreadIsRight(s, t);
  }

  /** At most one thread is in the section or at its door from inside, recursive locking or not. */
  lemma {:induction false} HoldersExclude(use: Use, s: State, t: nat, u: nat)
    requires use != AnyUse && Reachable(use, s) && t in s.pcs && u in s.pcs
    requires Holds(s, t) || Unrecorded(s.pcs[t])
    requires Holds(s, u) || Unrecorded(s.pcs[u])
    ensures t == u
  {
    ReachableIsKept(use, s);
    assert ThreadIsRight(s, t) && ThreadIsRight(s, u);
    assert HolderIsRight(s, t) && HolderIsRight(s, u);
  }

  /** Nobody but the holder is ever recorded, so AssertHeld never passes for a thread that does not
      hold the mutex, recursive locking or not. */
  lemma {:induction false} OnlyTheHolderIsRecorded(use: Use, s: State, t: nat)
    requires use != AnyUse && Reachable(use, s) && Started(s) && t in s.pcs
    ensures s.owner == t ==> Holds(s, t)
    ensures Enabled(s, Go(t)) && s.pcs[t] == Proceed(AssertHeld) && Next(s, Go(t)).pcs[t] == Idle ==> Holds(s, t)
  {
    ReachableIsKept(use, s);
  }

  /** Without recursive locking the owner field names the holder, except between entering and
      recording it and between resetting it and leaving. */
  lemma {:induction false} OwnerNamesTheHolder(s: State, t: nat)
    requires Reachable(OneLevel, s) && Started(s) && t in s.pcs
    ensures s.owner == t <==> Holds(s, t) && !Unrecorded(s.pcs[t])
  {
    ReachableIsKept(OneLevel, s);
    assert LevelIsRight(s, t);
  }

  lemma {:induction false} AssertHeldPassesIffHeld(s: State, t: nat)
    requires Reachable(OneLevel, s) && Enabled(s, Go(t)) && s.pcs[t] == Proceed(AssertHeld)
    ensures Next(s, Go(t)).pcs[t] == Idle <==> Holds(s, t)
    ensures Next(s, Go(t)).pcs[t] == Crashed(NotHeld) <==> !Holds(s, t)
  {
    ReachableIsKept(OneLevel, s);
    assert ThreadIsRight(s, t);
    OwnerNamesTheHolder(s, t);
  }

  // ---------------------------------------------------------------- progress

  /** Steps of these two threads only, which make no new calls. */
  ghost predicate OnlyGoes(steps: seq<Step>, t: nat, u: nat) {
    forall i :: 0 <= i < |steps| ==> steps[i] == Go(t) || steps[i] == Go(u)
  }

  /** The steps lead from s to s'. */
  ghost predicate Leads(s: State, steps: seq<Step>, s': State) {
    IsRun(s, steps) && Run(s, steps) == s'
  }

  lemma {:induction false} NoSteps(s: State)
    ensures Leads(s, [], s)
  {
  }

  lemma {:induction false} StepThen(s: State, step: Step, rest: seq<Step>, s': State)
    requires Enabled(s, step) && Leads(Next(s, step), rest, s')
    ensures Leads(s, [step] + rest, s')
  {
    assert ([step] + rest)[1..] == rest;
  }

  lemma {:induction false} LeadsThen(s: State, a: seq<Step>, mid: State, b: seq<Step>, s': State)
    requires Leads(s, a, mid) && Leads(mid, b, s')
    ensures Leads(s, a + b, s')
    decreases |a|
  {
    if a == [] {
      assert a + b == b;
    } else {
      LeadsThen(Next(s, a[0]), a[1..], mid, b, s');
      StepThen(s, a[0], a[1..] + b, s');
      assert a + b == [a[0]] + (a[1..] + b);
    }
  }

  ghost function StepsLeft(pc: Pc): nat {
    match pc
    case ResetOwner(_) => 4
    case Allocate(_) => 3
    case Initialize(_) => 2
    case Publish(_) => 1
    case _ => 0
  }

  /** The initializer needs nobody else: its own next four steps at most end the initialisation, bring it behind it
      with the operation it came for, and leave the section free and the other threads where they were. */
  lemma {:induction false} InitializerFinishes(s: State, t: nat) returns (steps: seq<Step>, s': State)
    requires Right(s) && t in s.pcs && Initializing(s.pcs[t])
    ensures |steps| == StepsLeft(s.pcs[t]) <= 4 && OnlyGoes(steps, t, t) && Leads(s, steps, s')
    ensures Right(s') && Started(s') && s'.section == Ready(0, 0)
    ensures s'.pcs == s.pcs[t := Proceed(s.pcs[t].op)]
    decreases StepsLeft(s.pcs[t])
  {
    assert ThreadIsRight(s, t);
    var next := Next(s, Go(t));
    GoKeepsRight(s, t);
    if s.pcs[t].Publish? {
      steps, s' := [], next;
      NoSteps(next);
    } else {
      steps, s' := InitializerFinishes(next, t);
      assert s'.pcs == s.pcs[t := Proceed(s.pcs[t].op)];
    }
    StepThen(s, Go(t), steps, s');
    steps := [Go(t)] + steps;
  }

  /** A thread that spins leaves the loop: another one finishes the initialisation by itself, if it is not finished,
      and the next test of the phase ends the spinning. */
  lemma {:induction false} SpinningEnds(s: State, t: nat) returns (other: nat, steps: seq<Step>, s': State)
    requires Right(s) && t in s.pcs && s.pcs[t].Spin?
    ensures |steps| <= 5 && OnlyGoes(steps, t, other) && Leads(s, steps, s')
    ensures Right(s') && Started(s') && t in s'.pcs && s'.pcs[t] == Proceed(s.pcs[t].op)
    ensures s'.section == if Started(s) then s.section else Ready(0, 0)
  {
    assert ThreadIsRight(s, t);
    var before: seq<Step>, mid: State := [], s;
    other := t;
    if Started(s) {
      NoSteps(s);
    } else {
      other :| other in s.pcs && Initializing(s.pcs[other]);
      before, mid := InitializerFinishes(s, other);
    }
    s' := Next(mid, Go(t));
    GoKeepsRight(mid, t);
    NoSteps(s');
    StepThen(mid, Go(t), [], s');
    LeadsThen(s, before, mid, [Go(t)] + [], s');
    steps := before + ([Go(t)] + []);
  }

  /** However the mutex is used, the lazy initialisation ends for every thread in it: at most six steps of its own and
      of one other thread bring it behind it, with the operation it came for. */
  lemma {:induction false} InitializationEnds(use: Use, s: State, t: nat, op: Op)
    returns (other: nat, steps: seq<Step>, s': State)
    requires Reachable(use, s) && t in s.pcs && Pending(s.pcs[t], op)
    ensures |steps| <= 6 && OnlyGoes(steps, t, other) && Leads(s, steps, s')
    ensures Right(s') && Started(s') && t in s'.pcs && s'.pcs[t] == Proceed(op)
    ensures s'.section == if Started(s) then s.section else Ready(0, 0)
  {
    ReachableIsKept(use, s);
    if s.pcs[t].TestPhase? {
      assert ThreadIsRight(s, t);
      var next := Next(s, Go(t));
      GoKeepsRight(s, t);
      other, steps, s' := BehindTest(next, t, op);
      StepThen(s, Go(t), steps, s');
      steps := [Go(t)] + steps;
    } else {
      other, steps, s' := BehindTest(s, t, op);
    }
  }

  lemma {:induction false} BehindTest(s: State, t: nat, op: Op) returns (other: nat, steps: seq<Step>, s': State)
    requires Right(s) && t in s.pcs && Pending(s.pcs[t], op) && !s.pcs[t].TestPhase?
    ensures |steps| <= 5 && OnlyGoes(steps, t, other) && Leads(s, steps, s')
    ensures Right(s') && Started(s') && t in s'.pcs && s'.pcs[t] == Proceed(op)
    ensures s'.section == if Started(s) then s.section else Ready(0, 0)
  {
    assert ThreadIsRight(s, t);
    if s.pcs[t].Spin? {
      other, steps, s' := SpinningEnds(s, t);
    } else if Initializing(s.pcs[t]) {
      other := t;
      steps, s' := InitializerFinishes(s, t);
    } else {
      other, steps, s' := t, [], s;
      NoSteps(s);
    }
  }

  /** A thread that locks a mutex which is free, or not set up yet, gets it: it holds the mutex and is its recorded
      owner, after steps of its own and of one other thread. */
  lemma {:induction false} LockingSucceeds(use: Use, s: State, t: nat)
    returns (other: nat, steps: seq<Step>, s': State)
    requires Reachable(use, s) && t in s.pcs && Pending(s.pcs[t], Lock)
    requires s.section.Ready? ==> s.section.holder == 0 || s.section.holder == t
    ensures |steps| <= 8 && OnlyGoes(steps, t, other) && Leads(s, steps, s')
    ensures t in s'.pcs && s'.pcs[t] == Idle && s'.owner == t
    ensures s'.section == Ready(t, if Started(s) && s.section.Ready? then s.section.depth + 1 else 1)
  {
    ReachableIsKept(use, s);
    var before, mid;
    other, before, mid := InitializationEnds(use, s, t, Lock);
    var entered := Next(mid, Go(t));
    s' := Next(entered, Go(t));
    NoSteps(s');
    StepThen(entered, Go(t), [], s');
    StepThen(mid, Go(t), [Go(t)] + [], s');
    LeadsThen(s, before, mid, [Go(t)] + ([Go(t)] + []), s');
    steps := before + ([Go(t)] + ([Go(t)] + []));
  }

  // ---------------------------------------------------------------- recursive use

  /** A whole operation of thread t, undisturbed; a static mutex tests its phase first. */
  ghost function Alone(dynamic: bool, t: nat, op: Op): seq<Step> {
    [Call(t, op)] + Goes(if dynamic then 2 else 3, t)
  }

  ghost function Goes(n: nat, t: nat): seq<Step> {
    if n == 0 then [] else [Go(t)] + Goes(n - 1, t)
  }

  /** An operation up to the point where the initialisation is behind it. */
  lemma {:induction false} Reaches(s: State, t: nat, op: Op, s': State)
    requires Started(s) && t != 0 && t in s.pcs && s.pcs[t] == Idle
    requires Leads(At(s, t, Proceed(op)), Goes(2, t), s')
    ensures Leads(s, Alone(s.dynamic, t, op), s')
  {
    var called := Next(s, Call(t, op));
    var behind := At(s, t, Proceed(op));
    if s.dynamic {
      StepThen(s, Call(t, op), Goes(2, t), s');
    } else {
      assert Next(called, Go(t)).pcs == behind.pcs;
      StepThen(called, Go(t), Goes(2, t), s');
      StepThen(s, Call(t, op), Goes(3, t), s');
    }
  }

  lemma {:induction false} TwoGoes(s: State, t: nat, s': State)
    requires Enabled(s, Go(t)) && Enabled(Next(s, Go(t)), Go(t)) && s' == Next(Next(s, Go(t)), Go(t))
    ensures Leads(s, Goes(2, t), s')
  {
    assert Leads(s', Goes(0, t), s');
    StepThen(Next(s, Go(t)), Go(t), Goes(0, t), s');
    StepThen(s, Go(t), Goes(1, t), s');
  }

  lemma {:induction false} LocksAlone(s: State, t: nat)
    requires Started(s) && t != 0 && t in s.pcs && s.pcs[t] == Idle
    requires s.section.Ready? && (s.section.holder == 0 || s.section.holder == t)
    ensures Leads(s, Alone(s.dynamic, t, Lock), s.(section := Ready(t, s.section.depth + 1), owner := t))
  {
    var s1 := At(s, t, Proceed(Lock));
    var s' := s.(section := Ready(t, s.section.depth + 1), owner := t);
    assert Next(Next(s1, Go(t)), Go(t)).pcs == s.pcs;
    TwoGoes(s1, t, s');
    Reaches(s, t, Lock, s');
  }

  ghost function Unlocked(section: Section): Section
    requires section.Ready? && section.depth > 0
  {
    if section.depth == 1 then Ready(0, 0) else section.(depth := section.depth - 1)
  }

  lemma {:induction false} UnlocksAlone(s: State, t: nat)
    requires Started(s) && t in s.pcs && s.pcs[t] == Idle
    requires Holds(s, t) && s.section.depth > 0
    ensures Leads(s, Alone(s.dynamic, t, Unlock), s.(section := Unlocked(s.section), owner := 0))
  {
    var s1 := At(s, t, Proceed(Unlock));
    var s' := s.(section := Unlocked(s.section), owner := 0);
    assert Next(Next(s1, Go(t)), Go(t)).pcs == s.pcs;
    TwoGoes(s1, t, s');
    Reaches(s, t, Unlock, s');
  }

  /** In every reachable state: unlocking leaves the owner field right exactly when the mutex was
      locked once.  A second level of locking is admitted, but the first unlocking then forgets an
      owner that still holds. */
  lemma {:induction false} UnlockingForgetsTheOwnerIff(use: Use, s: State, t: nat)
    requires Reachable(use, s) && t in s.pcs && s.pcs[t] == Idle && Holds(s, t)
    ensures var steps := Alone(s.dynamic, t, Unlock);
      && IsRun(s, steps)
      && var s' := Run(s, steps);
      ((s'.owner == t <==> Holds(s', t)) <==> s.section.depth == 1)
  {
    SectionIsMadeOnce(use, s, t);
    ReachableIsKept(use, s);
    UnlocksAlone(s, t);
  }

  /** Such a state is reached from any state in which the mutex is free: lock twice, unlock once. */
  lemma {:induction false} RecursiveUseForgetsTheOwner(s: State, t: nat)
    requires Right(s) && Started(s) && s.section == Ready(0, 0) && t in s.pcs && s.pcs[t] == Idle
    ensures var s1 := s.(section := Ready(t, 1), owner := t);
      var s2 := s.(section := Ready(t, 2), owner := t);
      var s3 := s.(section := Ready(t, 1), owner := 0);
      && Leads(s, Alone(s.dynamic, t, Lock), s1) && Leads(s1, Alone(s.dynamic, t, Lock), s2)
      && Leads(s2, Alone(s.dynamic, t, Unlock), s3)
      && Holds(s3, t) && s3.owner != t
  {
    LocksAlone(s, t);
    LocksAlone(s.(section := Ready(t, 1), owner := t), t);
    UnlocksAlone(s.(section := Ready(t, 2), owner := t), t);
  }
}
