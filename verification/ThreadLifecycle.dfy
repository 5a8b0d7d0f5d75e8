/** The life of one successfully created thread: its entry wrapper against any
    number of threads calling StartThread, DestroyThread and WaitThread on it, in any
    order and any number of times. One step per access to the thread's fields,
    compare-exchange or system call. */
module ThreadLifecycle {
  import opened Basics
  import opened LockWord
  import Lock = LockProtocol

  datatype ThreadState = Uninitialized | Initialized | Destroyed | Started | Exited

  datatype KernelState = Unstarted | Alive | Gone

  datatype Operation = Start | Destroy | Await

  /** The statements between the lock operations. The flag tells DestroyThread from
      StartThread or WaitThread where they share code. */
  datatype Statement =
    | EnterToTest | TestState | AboutToWait | CheckState
    | RunEntrypoint | EnterToExit | SetExited | BroadcastExit | ExitThread
    | KernelStart(destroying: bool) | SetStarted | SignalChild(destroying: bool)
    | TestInitialized | SetDestroyed
    | AwaitExit(destroying: bool) | BlockedOnExit(destroying: bool) | EnterToUnmap(destroying: bool)
    | TestMapped(destroying: bool) | Unmap(destroying: bool) | ClearMapped(destroying: bool)
    | CloseHandle | Reset
    | Done

  /** Where a thread stands: in Enter or Leave with a statement to follow, holding
      the lock before a statement, or before a statement that needs no lock. */
  datatype Phase =
    | Dormant
    | Outside
    | Entering(after: Statement)
    | Inside(stmt: Statement)
    | Waiting
    | Leaving(after: Statement)
    | Outer(stmt: Statement)
    | Finished

  /** The thread's fields, what the kernel knows of it, the lock, all threads, and
      history: how often the entrypoint ran and the mirror was unmapped, and whether
      DestroyThread found the thread not started. */
  datatype Life = Life(
    state: ThreadState, isMapped: bool,
    kernel: KernelState, handleOpen: bool, aborted: bool,
    child: Handle, lock: Lock.System, phase: map<Handle, Phase>,
    entryRuns: nat, unmaps: nat, destroyedFirst: bool)

  /** One step of thread t: the operation it starts if it is outside, whether a
      blocking wait is cancelled, and the choices of the kernel. */
  datatype Move = Move(t: Handle, op: Operation, cancelled: bool, next: Option<Handle>, woken: seq<Handle>)

  predicate Init(v: Life) {
    && v.state.Initialized? && v.isMapped && v.kernel.Unstarted? && v.handleOpen && !v.aborted
    && v.entryRuns == 0 && v.unmaps == 0 && !v.destroyedFirst
    && Lock.Init(v.lock) && v.lock.pc.Keys == v.phase.Keys && v.child in v.phase
    && forall t: Handle :: t in v.phase ==> v.phase[t] == if t == v.child then Dormant else Outside
  }

  function LockEvent(v: Life, m: Move): Option<Lock.Event>
    requires m.t in v.phase && m.t in v.lock.pc
  {
    var q := v.lock.pc[m.t];
    match v.phase[m.t]
    case Outside => if m.op.Await? then None else Some(Lock.CallEnter(m.t))
    case Outer(s) => if s.EnterToTest? || s.EnterToExit? || s.EnterToUnmap? then Some(Lock.CallEnter(m.t)) else None
    case Entering(_) => if q.Held? then None else Some(Lock.Step(m.t, m.next))
    case Leaving(_) => if q.Held? then Some(Lock.CallLeave(m.t)) else Some(Lock.Step(m.t, m.next))
    case Inside(s) =>
      if s.AboutToWait? then Some(Lock.Wait(m.t, false, m.next))
      else if s.BroadcastExit? then Some(Lock.Signal(m.t, -1, m.woken))
      else if s.SignalChild? then Some(Lock.Signal(m.t, 1, m.woken))
      else None
    case _ => None
  }

  /** A system call on the thread handle that fails, which aborts the program. */
  predicate Aborts(v: Life, p: Phase) {
    match p
    case Inside(s) =>
      || (s.KernelStart? && !(v.handleOpen && v.kernel.Unstarted?))
      || (s.CloseHandle? && !v.handleOpen)
    case Outer(s) => s.AwaitExit? && !v.handleOpen
    case _ => false
  }

  predicate Enabled(v: Life, m: Move) {
    && !v.aborted
    && m.t in v.phase && m.t in v.lock.pc && !Lock.Asleep(v.lock.pc[m.t])
    && !v.phase[m.t].Dormant? && !v.phase[m.t].Finished?
    && (LockEvent(v, m).Some? ==> Lock.Enabled(v.lock, LockEvent(v, m).value))
    && (v.phase[m.t].Outer? && v.phase[m.t].stmt.BlockedOnExit? && !m.cancelled ==> v.kernel.Gone?)
  }

  function NextLock(v: Life, m: Move): Lock.System
    requires Enabled(v, m)
  {
    if LockEvent(v, m).Some? then Lock.Next(v.lock, LockEvent(v, m).value) else v.lock
  }

  /** DestroyThread goes on to close the handle, WaitThread is finished. */
  function AfterUnmap(destroying: bool): Phase {
    if destroying then Inside(CloseHandle) else Leaving(Done)
  }

  function AfterInside(v: Life, s: Statement): Phase {
    match s
    case TestState => Inside(if v.state.Initialized? then AboutToWait else CheckState)
    case AboutToWait => Waiting
    case CheckState => Leaving(if v.state.Started? then RunEntrypoint else EnterToExit)
    case SetExited => Inside(BroadcastExit)
    case BroadcastExit => Leaving(ExitThread)
    case KernelStart(destroying) => Inside(if destroying then SignalChild(true) else SetStarted)
    case SetStarted => Inside(SignalChild(false))
    case SignalChild(destroying) => Leaving(if destroying then AwaitExit(true) else Done)
    case TestInitialized => if v.state.Initialized? then Inside(SetDestroyed) else Leaving(AwaitExit(true))
    case SetDestroyed => Inside(KernelStart(true))
    case TestMapped(destroying) => if v.isMapped then Inside(Unmap(destroying)) else AfterUnmap(destroying)
    case Unmap(destroying) => Inside(ClearMapped(destroying))
    case ClearMapped(destroying) => AfterUnmap(destroying)
    case CloseHandle => Inside(Reset)
    case Reset => Leaving(Done)
    case _ => Inside(s)
  }

  function AfterOuter(m: Move, s: Statement): Phase {
    match s
    case EnterToTest => Entering(TestState)
    case RunEntrypoint => Outer(EnterToExit)
    case EnterToExit => Entering(SetExited)
    case ExitThread => Finished
    case AwaitExit(destroying) => Outer(BlockedOnExit(destroying))
    case BlockedOnExit(destroying) => Outer(if m.cancelled then AwaitExit(destroying) else EnterToUnmap(destroying))
    case EnterToUnmap(destroying) => Entering(TestMapped(destroying))
    case _ => Outer(s)
  }

  function NextPhase(v: Life, m: Move): Phase
    requires Enabled(v, m)
  {
    match v.phase[m.t]
    case Outside =>
      (match m.op
       case Start => Entering(KernelStart(false))
       case Destroy => Entering(TestInitialized)
       case Await => Outer(AwaitExit(false)))
    case Entering(s) => if v.lock.pc[m.t].Held? then Inside(s) else Entering(s)
    case Inside(s) => AfterInside(v, s)
    case Waiting => Inside(TestState)
    case Leaving(s) =>
      if m.t in NextLock(v, m).pc && NextLock(v, m).pc[m.t].Idle? then
        (if s.Done? then Outside else Outer(s))
      else Leaving(s)
    case Outer(s) => AfterOuter(m, s)
    case p => p
  }

  function NextState(v: Life, p: Phase): ThreadState {
    match p
    case Inside(SetExited) => Exited
    case Inside(SetStarted) => Started
    case Inside(SetDestroyed) => Destroyed
    case Inside(Reset) => Uninitialized
    case _ => v.state
  }

  predicate StartsChild(p: Phase) {
    p.Inside? && p.stmt.KernelStart?
  }

  function Next(v: Life, m: Move): Life
    requires Enabled(v, m)
  {
    var p := v.phase[m.t];
    if Aborts(v, p) then v.(aborted := true)
    else
      var moved := v.phase[m.t := NextPhase(v, m)];
      Life(
        NextState(v, p),
        v.isMapped && !(p.Inside? && p.stmt.ClearMapped?),
        if StartsChild(p) then Alive else if p == Outer(ExitThread) then Gone else v.kernel,
        v.handleOpen && p != Inside(CloseHandle), false,
        v.child, NextLock(v, m),
        if StartsChild(p) then moved[v.child := Outer(EnterToTest)] else moved,
        v.entryRuns + if p == Outer(RunEntrypoint) then 1 else 0,
        v.unmaps + if p.Inside? && p.stmt.Unmap? then 1 else 0,
        v.destroyedFirst || p == Inside(SetDestroyed))
  }

  // ---- The invariant

  predicate Coupled(p: Phase, q: Lock.Pc) {
    match p
    case Entering(_) => Lock.Entering(q) || q.EnterAsleep? || q.Held?
    case Inside(_) => q.Held?
    case Leaving(_) => Lock.Inside(q)
    case Waiting => false
    case _ => q.Idle?
  }

  predicate WrapperStatement(s: Statement) {
    || s.EnterToTest? || s.TestState? || s.AboutToWait? || s.CheckState?
    || s.RunEntrypoint? || s.EnterToExit? || s.SetExited? || s.BroadcastExit? || s.ExitThread?
  }

  function StatementOf(p: Phase): Statement {
    match p
    case Entering(s) => s
    case Inside(s) => s
    case Leaving(s) => s
    case Outer(s) => s
    case _ => Done
  }

  predicate BeforeTest(p: Phase) {
    p == Outer(EnterToTest) || p == Entering(TestState)
  }

  /** How often the entrypoint is to run in all. */
  function DueRuns(v: Life): nat {
    if v.destroyedFirst then 0 else 1
  }

  /** The wrapper: what it has done, and what it relies on the state to be. Its wait
      loop never has anything to wait for. */
  predicate ChildOk(v: Life, p: Phase) {
    match p
    case Dormant => v.kernel.Unstarted? && v.entryRuns == 0
    case Finished => v.kernel.Gone? && v.entryRuns == DueRuns(v)
    case Outside => false
    case Waiting => false
    case _ =>
      && v.kernel.Alive?
      && match StatementOf(p)
         case EnterToTest => p.Outer? && v.entryRuns == 0 && !v.state.Exited?
         case TestState => v.entryRuns == 0 && !v.state.Exited? && (p.Entering? || (p.Inside? && !v.state.Initialized?))
         case CheckState => v.entryRuns == 0 && !v.state.Exited? && p.Inside? && !v.state.Initialized?
         case RunEntrypoint => v.entryRuns == 0 && v.state.Started? && (p.Leaving? || p.Outer?)
         case EnterToExit => !v.state.Exited? && v.entryRuns == DueRuns(v) && (p.Leaving? || p.Outer?)
         case SetExited => !v.state.Exited? && v.entryRuns == DueRuns(v) && (p.Entering? || p.Inside?)
         case BroadcastExit => v.state.Exited? && v.entryRuns == DueRuns(v) && p.Inside?
         case ExitThread => v.state.Exited? && v.entryRuns == DueRuns(v) && (p.Leaving? || p.Outer?)
         case _ => false
  }

  /** StartThread, DestroyThread and WaitThread. */
  predicate CallerOk(v: Life, p: Phase) {
    && !p.Dormant? && !p.Finished? && !p.Waiting? && !WrapperStatement(StatementOf(p))
    && (p.Outer? ==> p.stmt.AwaitExit? || p.stmt.BlockedOnExit? || p.stmt.EnterToUnmap?)
    && (p.Leaving? ==> p.after.Done? || p.after.AwaitExit?)
    && (p.Entering? ==> p.after == KernelStart(false) || p.after.TestInitialized? || p.after.TestMapped?)
    && (p.Inside? ==> !p.stmt.Done? && !p.stmt.AwaitExit? && !p.stmt.BlockedOnExit? && !p.stmt.EnterToUnmap?)
    && match StatementOf(p)
       case SetStarted => v.state.Initialized? && v.kernel.Alive? && !v.destroyedFirst
       case SetDestroyed => v.state.Initialized? && v.kernel.Unstarted? && !v.destroyedFirst
       case KernelStart(destroying) => destroying ==> v.state.Destroyed? && v.kernel.Unstarted?
       case EnterToUnmap(_) => v.kernel.Gone?
       case TestMapped(_) => v.kernel.Gone?
       case Unmap(_) => v.kernel.Gone? && v.isMapped && v.unmaps == 0
       case ClearMapped(_) => v.kernel.Gone? && v.isMapped && v.unmaps == 1
       case CloseHandle => v.kernel.Gone? && !v.isMapped
       case Reset => v.kernel.Gone? && !v.isMapped && !v.handleOpen
       case _ => true
  }

  predicate ThreadOk(v: Life, t: Handle, p: Phase, q: Lock.Pc) {
    Coupled(p, q) && (if t == v.child then ChildOk(v, p) else CallerOk(v, p))
  }

  predicate SomeInside(phase: map<Handle, Phase>, s: Statement) {
    exists t: Handle :: t in phase && phase[t] == Inside(s)
  }

  predicate StateOk(v: Life) {
    && v.entryRuns <= 1
    && (v.destroyedFirst ==> v.entryRuns == 0 && !v.state.Initialized? && !v.state.Started?)
    && (v.state.Destroyed? ==> v.destroyedFirst)
    && (v.kernel.Unstarted? ==> v.entryRuns == 0 && (v.state.Initialized? || v.state.Destroyed?))
    && (v.kernel.Gone? ==> v.entryRuns == DueRuns(v) && (v.state.Exited? || v.state.Uninitialized?))
    && (v.state.Uninitialized? ==> !v.handleOpen)
    && (!v.handleOpen ==> v.kernel.Gone?)
    && v.unmaps <= 1 && (v.unmaps > 0 ==> v.kernel.Gone?) && (v.unmaps == 0 ==> v.isMapped)
  }

  /** The half-way states of the three multi-step updates belong to a thread that
      holds the lock in the middle of one. */
  ghost predicate HalfWay(v: Life)
    requires v.child in v.phase
  {
    && (v.state.Initialized? && !v.kernel.Unstarted? ==>
          SomeInside(v.phase, SetStarted) && BeforeTest(v.phase[v.child]))
    && (v.state.Destroyed? && v.kernel.Unstarted? ==> SomeInside(v.phase, KernelStart(true)))
    && (v.isMapped && v.unmaps == 1 ==>
          SomeInside(v.phase, ClearMapped(true)) || SomeInside(v.phase, ClearMapped(false)))
  }

  ghost predicate Inv(v: Life) {
    && Lock.Inv(v.lock) && v.lock.pc.Keys == v.phase.Keys && v.child in v.phase
    && (forall t: Handle :: t in v.phase ==> ThreadOk(v, t, v.phase[t], v.lock.pc[t]))
    && StateOk(v) && HalfWay(v)
  }

  lemma OnlyOneInside(v: Life, t: Handle, u: Handle)
    requires Inv(v) && t in v.phase && u in v.phase
    requires Lock.Inside(v.lock.pc[t]) && Lock.Inside(v.lock.pc[u])
    ensures t == u
  {
    assert Lock.ThreadOk(v.lock.image, t, v.lock.pc[t]);
    assert Lock.ThreadOk(v.lock.image, u, v.lock.pc[u]);
  }

  /** Whoever holds the lock sees no update of another thread half done. */
  lemma Settled(v: Life, t: Handle)
    requires Inv(v) && t in v.phase && v.lock.pc[t].Held?
    ensures v.state.Initialized? && !v.kernel.Unstarted? ==> v.phase[t] == Inside(SetStarted)
    ensures v.state.Destroyed? && v.kernel.Unstarted? ==> v.phase[t] == Inside(KernelStart(true))
    ensures v.isMapped && v.unmaps == 1 ==> v.phase[t].Inside? && v.phase[t].stmt.ClearMapped?
  {
    forall u: Handle | u in v.phase && v.phase[u].Inside? ensures u == t {
      assert ThreadOk(v, u, v.phase[u], v.lock.pc[u]);
      OnlyOneInside(v, u, t);
    }
  }

  lemma LockKeeps(v: Life, m: Move)
    requires Inv(v) && Enabled(v, m)
    ensures Lock.Inv(NextLock(v, m)) && NextLock(v, m).pc.Keys == v.phase.Keys
  {
    var le := LockEvent(v, m);
    if le.Some? {
      Lock.StepKeeps(v.lock, le.value);
      Lock.ThreadMoves(v.lock, le.value, m.t);
    }
  }

  lemma MoverFacts(v: Life, t: Handle)
    requires Inv(v) && t in v.phase
    ensures t in v.lock.pc && ThreadOk(v, t, v.phase[t], v.lock.pc[t]) && StateOk(v)
  {
    hide Lock.Inv, HalfWay, StateOk, ThreadOk;
  }

  /** What a step does to another thread's position in the lock: as only the wrapper
      could ever wait on the condition variable, and does not, no signal moves one. */
  lemma OthersKept(v: Life, m: Move, u: Handle)
    requires Inv(v) && Enabled(v, m) && u in v.phase && u != m.t
    ensures u in NextLock(v, m).pc
    ensures Coupled(v.phase[u], NextLock(v, m).pc[u])
    ensures Lock.Inside(NextLock(v, m).pc[u]) ==> Lock.Inside(v.lock.pc[u])
  {
    hide Inv, Lock.Next, StateOk;
    KeysAgree(v);
    MoverFacts(v, u);
    if LockEvent(v, m).Some? {
      Lock.ThreadMoves(v.lock, LockEvent(v, m).value, u);
    }
  }

  lemma KeysAgree(v: Life)
    requires Inv(v)
    ensures v.lock.pc.Keys == v.phase.Keys
  {
  }

  lemma OwnLockStep(v: Life, m: Move)
    requires Inv(v) && Enabled(v, m) && (v.phase[m.t].Entering? || v.phase[m.t].Leaving?)
    ensures m.t in NextLock(v, m).pc && Coupled(NextPhase(v, m), NextLock(v, m).pc[m.t])
  {
    hide Inv, StateOk, ChildOk, CallerOk;
    MoverFacts(v, m.t);
  }

  lemma OwnSignal(v: Life, m: Move)
    requires Inv(v) && Enabled(v, m) && v.phase[m.t].Inside?
    requires v.phase[m.t].stmt.BroadcastExit? || v.phase[m.t].stmt.SignalChild?
    ensures m.t in NextLock(v, m).pc && Coupled(NextPhase(v, m), NextLock(v, m).pc[m.t])
  {
    hide ChildOk, CallerOk, StateOk, HalfWay, Lock.Inv;
    assert ThreadOk(v, m.t, v.phase[m.t], v.lock.pc[m.t]);
    Lock.WakeAllMoves(v.lock, m.woken, m.t);
  }

  lemma OwnCoupled(v: Life, m: Move)
    requires Inv(v) && Enabled(v, m)
    ensures m.t in NextLock(v, m).pc
    ensures NextPhase(v, m).Waiting? || Coupled(NextPhase(v, m), NextLock(v, m).pc[m.t])
  {
    hide Inv, StateOk;
    MoverFacts(v, m.t);
    if v.phase[m.t].Entering? || v.phase[m.t].Leaving? {
      OwnLockStep(v, m);
    } else if v.phase[m.t].Inside? && (v.phase[m.t].stmt.BroadcastExit? || v.phase[m.t].stmt.SignalChild?) {
      OwnSignal(v, m);
    }
  }

  /** The thread that moved is where it should be. */
  lemma OwnOk(v: Life, m: Move)
    requires Inv(v) && Enabled(v, m) && !Aborts(v, v.phase[m.t])
    ensures m.t in NextLock(v, m).pc
    ensures ThreadOk(Next(v, m), m.t, NextPhase(v, m), NextLock(v, m).pc[m.t])
  {
    OwnCoupled(v, m);
    assert ThreadOk(v, m.t, v.phase[m.t], v.lock.pc[m.t]);
    if m.t == v.child {
      ChildStep(v, m);
    } else {
      CallerStep(v, m);
    }
  }

  lemma ChildStep(v: Life, m: Move)
    requires Inv(v) && Enabled(v, m) && m.t == v.child
    ensures ChildOk(Next(v, m), NextPhase(v, m))
  {
    hide CallerOk, Lock.Inv, Lock.Enabled, Lock.Next, SomeInside;
    assert ThreadOk(v, m.t, v.phase[m.t], v.lock.pc[m.t]);
    if v.lock.pc[m.t].Held? { Settled(v, m.t); }
  }

  predicate UnmapStatement(s: Statement) {
    s.TestMapped? || s.Unmap? || s.ClearMapped? || s.CloseHandle? || s.Reset?
  }

  lemma CallerFacts(v: Life, t: Handle)
    requires Inv(v) && t in v.phase && t != v.child
    ensures t in v.lock.pc && Coupled(v.phase[t], v.lock.pc[t]) && CallerOk(v, v.phase[t]) && StateOk(v)
  {
    hide Lock.Inv, HalfWay, StateOk, CallerOk, ChildOk;
    assert ThreadOk(v, t, v.phase[t], v.lock.pc[t]);
  }

  lemma CallerTests(v: Life, m: Move)
    requires Inv(v) && Enabled(v, m) && m.t != v.child && !Aborts(v, v.phase[m.t])
    requires v.phase[m.t].Inside? && v.phase[m.t].stmt.TestMapped?
    ensures CallerOk(Next(v, m), NextPhase(v, m))
  {
    hide Inv, NextPhase, Next, NextLock, LockEvent, Lock.Enabled;
    CallerFacts(v, m.t);
    InsideNext(v, m);
    Settled(v, m.t);
  }

  lemma CallerUnmaps(v: Life, m: Move)
    requires Inv(v) && Enabled(v, m) && m.t != v.child && !Aborts(v, v.phase[m.t])
    requires v.phase[m.t].Inside? && (v.phase[m.t].stmt.Unmap? || v.phase[m.t].stmt.ClearMapped?)
    ensures CallerOk(Next(v, m), NextPhase(v, m))
  {
    hide Inv, NextPhase, Next, NextLock, LockEvent, Lock.Enabled, StateOk;
    CallerFacts(v, m.t);
    InsideNext(v, m);
  }

  lemma CallerCloses(v: Life, m: Move)
    requires Inv(v) && Enabled(v, m) && m.t != v.child && !Aborts(v, v.phase[m.t])
    requires v.phase[m.t].Inside? && (v.phase[m.t].stmt.CloseHandle? || v.phase[m.t].stmt.Reset?)
    ensures CallerOk(Next(v, m), NextPhase(v, m))
  {
    hide Inv, NextPhase, Next, NextLock, LockEvent, Lock.Enabled, StateOk;
    CallerFacts(v, m.t);
    InsideNext(v, m);
  }

  lemma CallerStarts(v: Life, m: Move)
    requires Inv(v) && Enabled(v, m) && m.t != v.child && !Aborts(v, v.phase[m.t])
    requires v.phase[m.t].Inside? && !UnmapStatement(v.phase[m.t].stmt)
    ensures CallerOk(Next(v, m), NextPhase(v, m))
  {
    hide Inv, Lock.Enabled, Lock.Next;
    CallerFacts(v, m.t);
    Settled(v, m.t);
  }

  lemma CallerMoves(v: Life, m: Move)
    requires Inv(v) && Enabled(v, m) && m.t != v.child && !Aborts(v, v.phase[m.t])
    requires v.phase[m.t].Entering? || v.phase[m.t].Leaving?
    ensures CallerOk(Next(v, m), NextPhase(v, m))
  {
    hide Inv, Lock.Enabled, Lock.Next, StateOk;
    CallerFacts(v, m.t);
  }

  /** A call begins, or goes on outside of the lock: no field changes. */
  lemma OutsideNext(v: Life, m: Move)
    requires Enabled(v, m) && !Aborts(v, v.phase[m.t]) && (v.phase[m.t].Outside? || v.phase[m.t].Outer?)
    requires v.phase[m.t].Outer? ==> !v.phase[m.t].stmt.ExitThread? && !v.phase[m.t].stmt.RunEntrypoint?
    ensures Next(v, m) == v.(lock := NextLock(v, m), phase := v.phase[m.t := NextPhase(v, m)])
  {
    hide Lock.Enabled, Lock.Next;
  }

  lemma CallerOutside(v: Life, m: Move)
    requires Inv(v) && Enabled(v, m) && m.t != v.child && !Aborts(v, v.phase[m.t])
    requires v.phase[m.t].Outside? || v.phase[m.t].Outer?
    ensures CallerOk(Next(v, m), NextPhase(v, m))
  {
    hide Inv, Lock.Enabled, Next, NextLock, LockEvent, StateOk;
    CallerFacts(v, m.t);
    OutsideNext(v, m);
  }

  lemma CallerStep(v: Life, m: Move)
    requires Inv(v) && Enabled(v, m) && m.t != v.child && !Aborts(v, v.phase[m.t])
    ensures CallerOk(Next(v, m), NextPhase(v, m))
  {
    hide Inv, Next, NextPhase, Lock.Enabled, StateOk;
    CallerFacts(v, m.t);
    if v.phase[m.t].Entering? || v.phase[m.t].Leaving? {
      CallerMoves(v, m);
    } else if v.phase[m.t].Outside? || v.phase[m.t].Outer? {
      CallerOutside(v, m);
    } else if v.phase[m.t].stmt.CloseHandle? || v.phase[m.t].stmt.Reset? {
      CallerCloses(v, m);
    } else if v.phase[m.t].stmt.TestMapped? {
      CallerTests(v, m);
    } else if v.phase[m.t].stmt.Unmap? || v.phase[m.t].stmt.ClearMapped? {
      CallerUnmaps(v, m);
    } else {
      CallerStarts(v, m);
    }
  }

  /** The threads that did not move, apart from a wrapper being started. */
  lemma OtherOk(v: Life, m: Move, u: Handle)
    requires Inv(v) && Enabled(v, m) && !Aborts(v, v.phase[m.t])
    requires u in v.phase && u != m.t && !(u == v.child && StartsChild(v.phase[m.t]))
    ensures u in NextLock(v, m).pc
    ensures ThreadOk(Next(v, m), u, v.phase[u], NextLock(v, m).pc[u])
  {
    OthersKept(v, m, u);
    if u == v.child {
      OtherChildOk(v, m);
    } else {
      OtherCallerOk(v, m, u);
    }
  }

  lemma OtherChildOk(v: Life, m: Move)
    requires Inv(v) && Enabled(v, m) && !Aborts(v, v.phase[m.t])
    requires v.child != m.t && !StartsChild(v.phase[m.t])
    ensures ChildOk(Next(v, m), v.phase[v.child])
  {
    hide Lock.Inv, Lock.Enabled, Lock.Next, SomeInside;
    assert ThreadOk(v, m.t, v.phase[m.t], v.lock.pc[m.t]);
    assert ThreadOk(v, v.child, v.phase[v.child], v.lock.pc[v.child]);
  }

  lemma OtherCallerOk(v: Life, m: Move, u: Handle)
    requires Inv(v) && Enabled(v, m) && !Aborts(v, v.phase[m.t])
    requires u in v.phase && u != m.t && u != v.child
    ensures CallerOk(Next(v, m), v.phase[u])
  {
    hide Lock.Inv, Lock.Enabled, Lock.Next, HalfWay;
    assert ThreadOk(v, m.t, v.phase[m.t], v.lock.pc[m.t]);
    assert ThreadOk(v, u, v.phase[u], v.lock.pc[u]);
    if v.phase[m.t].Inside? && v.phase[u].Inside? { OnlyOneInside(v, m.t, u); }
  }

  /** The wrapper being started: it is about to enter, and the lock is not its. */
  lemma ChildStarted(v: Life, m: Move)
    requires Inv(v) && Enabled(v, m) && !Aborts(v, v.phase[m.t]) && StartsChild(v.phase[m.t])
    ensures v.child != m.t && v.child in NextLock(v, m).pc
    ensures ThreadOk(Next(v, m), v.child, Outer(EnterToTest), NextLock(v, m).pc[v.child])
  {
    assert ThreadOk(v, m.t, v.phase[m.t], v.lock.pc[m.t]);
    assert ThreadOk(v, v.child, v.phase[v.child], v.lock.pc[v.child]);
  }

  lemma StateKept(v: Life, m: Move)
    requires Inv(v) && Enabled(v, m) && !Aborts(v, v.phase[m.t])
    ensures StateOk(Next(v, m))
  {
    hide Inv, Lock.Enabled, Lock.Next, NextPhase, NextLock, LockEvent;
    MoverFacts(v, m.t);
    if v.lock.pc[m.t].Held? { Settled(v, m.t); }
  }

  lemma HalfStartKept(v: Life, m: Move)
    requires Inv(v) && Enabled(v, m) && !Aborts(v, v.phase[m.t])
    ensures v.child in Next(v, m).phase
    ensures
      var v' := Next(v, m);
      v'.state.Initialized? && !v'.kernel.Unstarted? ==>
        SomeInside(v'.phase, SetStarted) && BeforeTest(v'.phase[v.child])
  {
    hide Lock.Inv, Lock.Enabled, Lock.Next;
    var v' := Next(v, m);
    assert ThreadOk(v, m.t, v.phase[m.t], v.lock.pc[m.t]);
    assert ThreadOk(v, v.child, v.phase[v.child], v.lock.pc[v.child]);
    if v'.state.Initialized? && !v'.kernel.Unstarted? {
      if StartsChild(v.phase[m.t]) {
        assert v'.phase[m.t] == Inside(SetStarted);
      } else {
        if v.lock.pc[m.t].Held? { Settled(v, m.t); }
        var u: Handle :| u in v.phase && v.phase[u] == Inside(SetStarted);
        assert ThreadOk(v, u, v.phase[u], v.lock.pc[u]);
        assert v'.phase[u] == Inside(SetStarted);
      }
    }
  }

  lemma HalfDestroyKept(v: Life, m: Move)
    requires Inv(v) && Enabled(v, m) && !Aborts(v, v.phase[m.t])
    ensures
      var v' := Next(v, m);
      v'.state.Destroyed? && v'.kernel.Unstarted? ==> SomeInside(v'.phase, KernelStart(true))
  {
    hide Lock.Inv, Lock.Enabled, Lock.Next;
    var v' := Next(v, m);
    assert ThreadOk(v, m.t, v.phase[m.t], v.lock.pc[m.t]);
    if v'.state.Destroyed? && v'.kernel.Unstarted? {
      if v.phase[m.t] == Inside(SetDestroyed) {
        assert v'.phase[m.t] == Inside(KernelStart(true));
      } else {
        var u: Handle :| u in v.phase && v.phase[u] == Inside(KernelStart(true));
        assert v'.phase[u] == Inside(KernelStart(true));
      }
    }
  }

  lemma HalfUnmapKept(v: Life, m: Move)
    requires Inv(v) && Enabled(v, m) && !Aborts(v, v.phase[m.t])
    ensures
      var v' := Next(v, m);
      v'.isMapped && v'.unmaps == 1 ==>
        SomeInside(v'.phase, ClearMapped(true)) || SomeInside(v'.phase, ClearMapped(false))
  {
    hide Lock.Inv, Lock.Enabled, Lock.Next;
    var v' := Next(v, m);
    assert ThreadOk(v, m.t, v.phase[m.t], v.lock.pc[m.t]);
    if v'.isMapped && v'.unmaps == 1 {
      if v.unmaps == 0 {
        assert v'.phase[m.t] == Inside(ClearMapped(v.phase[m.t].stmt.destroying));
      } else {
        var u: Handle :| u in v.phase && v.phase[u].Inside? && v.phase[u].stmt.ClearMapped?;
        assert ThreadOk(v, u, v.phase[u], v.lock.pc[u]);
        assert ThreadOk(v, v.child, v.phase[v.child], v.lock.pc[v.child]);
        assert v'.phase[u] == Inside(ClearMapped(v.phase[u].stmt.destroying));
      }
    }
  }

  lemma HalfWayKept(v: Life, m: Move)
    requires Inv(v) && Enabled(v, m) && !Aborts(v, v.phase[m.t])
    ensures v.child in Next(v, m).phase && HalfWay(Next(v, m))
  {
    HalfStartKept(v, m);
    HalfDestroyKept(v, m);
    HalfUnmapKept(v, m);
  }

  lemma ThreadKept(v: Life, m: Move, u: Handle)
    requires Inv(v) && Enabled(v, m) && !Aborts(v, v.phase[m.t]) && u in v.phase
    ensures u in Next(v, m).phase && u in NextLock(v, m).pc
    ensures ThreadOk(Next(v, m), u, Next(v, m).phase[u], NextLock(v, m).pc[u])
  {
    hide Inv, ThreadOk, NextPhase, NextLock, LockEvent, Lock.Enabled;
    if StartsChild(v.phase[m.t]) { ChildStarted(v, m); }
    if u == m.t {
      OwnOk(v, m);
    } else if u != v.child || !StartsChild(v.phase[m.t]) {
      OtherOk(v, m, u);
    }
  }

  lemma ThreadsKept(v: Life, m: Move)
    requires Inv(v) && Enabled(v, m) && !Aborts(v, v.phase[m.t])
    ensures Next(v, m).lock == NextLock(v, m) && Next(v, m).phase.Keys == v.phase.Keys
    ensures forall u: Handle :: u in v.phase ==>
              u in NextLock(v, m).pc && ThreadOk(Next(v, m), u, Next(v, m).phase[u], NextLock(v, m).pc[u])
  {
    hide Inv, ThreadOk, NextPhase, NextLock, LockEvent, Lock.Enabled;
    if StartsChild(v.phase[m.t]) { ChildIsThere(v); }
    forall u: Handle | u in v.phase
      ensures u in NextLock(v, m).pc && ThreadOk(Next(v, m), u, Next(v, m).phase[u], NextLock(v, m).pc[u])
    {
      ThreadKept(v, m, u);
    }
  }

  lemma ChildIsThere(v: Life)
    requires Inv(v)
    ensures v.child in v.phase
  {
  }

  lemma AbortKeeps(v: Life)
    requires Inv(v)
    ensures Inv(v.(aborted := true))
  {
    hide Lock.Inv;
  }

  lemma StepKeeps(v: Life, m: Move)
    requires Inv(v) && Enabled(v, m)
    ensures Inv(Next(v, m))
  {
    hide Lock.Inv, NextPhase, NextState, ThreadOk, StateOk, HalfWay, Lock.Enabled, Lock.Next;
    if !Aborts(v, v.phase[m.t]) {
      LockKeeps(v, m);
      ThreadsKept(v, m);
      StateKept(v, m);
      HalfWayKept(v, m);
    } else {
      AbortKeeps(v);
    }
  }

  // ---- Runs

  ghost predicate ValidRun(v: Life, ms: seq<Move>)
    decreases |ms|
  {
    ms == [] || (Enabled(v, ms[0]) && ValidRun(Next(v, ms[0]), ms[1..]))
  }

  ghost function Run(v: Life, ms: seq<Move>): Life
    requires ValidRun(v, ms)
    decreases |ms|
  {
    if ms == [] then v else Run(Next(v, ms[0]), ms[1..])
  }

  /** Where a finished Leave goes on. */
  function AfterLeave(s: Statement): Phase {
    if s.Done? then Outside else Outer(s)
  }

  /** Where an Enter is called from, given the statement that follows it. */
  predicate EntersFor(p: Phase, op: Operation, s: Statement) {
    match s
    case KernelStart(destroying) => p.Outside? && op.Start? && !destroying
    case TestInitialized => p.Outside? && op.Destroy?
    case TestState => p == Outer(EnterToTest)
    case SetExited => p == Outer(EnterToExit)
    case TestMapped(destroying) => p == Outer(EnterToUnmap(destroying))
    case _ => false
  }

  /** The statements that only touch the thread's fields. */
  lemma InsideNext(v: Life, m: Move)
    requires Enabled(v, m) && v.phase[m.t].Inside? && !Aborts(v, v.phase[m.t])
    requires var s := v.phase[m.t].stmt; !s.AboutToWait? && !s.BroadcastExit? && !s.SignalChild? && !s.KernelStart?
    ensures var s := v.phase[m.t].stmt;
      Next(v, m) == v.(state := NextState(v, v.phase[m.t]),
                       isMapped := v.isMapped && !s.ClearMapped?,
                       handleOpen := v.handleOpen && !s.CloseHandle?,
                       phase := v.phase[m.t := AfterInside(v, s)],
                       unmaps := v.unmaps + if s.Unmap? then 1 else 0,
                       destroyedFirst := v.destroyedFirst || s.SetDestroyed?)
    ensures NextPhase(v, m) == AfterInside(v, v.phase[m.t].stmt)
  {
  }

  lemma UnmapNext(v: Life, m: Move, destroying: bool)
    requires Enabled(v, m)
    ensures v.phase[m.t] == Inside(Unmap(destroying)) ==>
      Next(v, m) == v.(phase := v.phase[m.t := Inside(ClearMapped(destroying))], unmaps := v.unmaps + 1)
    ensures v.phase[m.t] == Inside(ClearMapped(destroying)) ==>
      Next(v, m) == v.(isMapped := false, phase := v.phase[m.t := AfterUnmap(destroying)])
  {
  }

  lemma CloseNext(v: Life, m: Move)
    requires Enabled(v, m) && v.phase[m.t] == Inside(CloseHandle) && v.handleOpen
    ensures Next(v, m) == v.(handleOpen := false, phase := v.phase[m.t := Inside(Reset)])
  {
  }

  lemma DestroyNext(v: Life, m: Move)
    requires Enabled(v, m) && v.phase[m.t] == Inside(SetDestroyed)
    ensures Next(v, m) == v.(state := Destroyed, phase := v.phase[m.t := Inside(KernelStart(true))],
                             destroyedFirst := true)
  {
  }

  lemma AbortNext(v: Life, m: Move)
    requires Enabled(v, m) && Aborts(v, v.phase[m.t])
    ensures Next(v, m) == v.(aborted := true)
  {
  }

  lemma StartNext(v: Life, m: Move)
    requires Enabled(v, m) && !Aborts(v, v.phase[m.t]) && StartsChild(v.phase[m.t])
    ensures !v.aborted && v.handleOpen && v.kernel.Unstarted?
    ensures Next(v, m) == v.(kernel := Alive,
                             phase := v.phase[m.t := AfterInside(v, v.phase[m.t].stmt)][v.child := Outer(EnterToTest)])
  {
  }

  /** The two halves of a wait for the thread's exit. */
  lemma WaitNext(v: Life, m: Move)
    requires Enabled(v, m) && v.phase[m.t].Outer? && !Aborts(v, v.phase[m.t])
    requires v.phase[m.t].stmt.AwaitExit? || v.phase[m.t].stmt.BlockedOnExit?
    ensures Next(v, m) == v.(phase := v.phase[m.t := AfterOuter(m, v.phase[m.t].stmt)])
    ensures v.phase[m.t].stmt.BlockedOnExit? && !m.cancelled ==> v.kernel.Gone?
  {
  }

  /** Once the thread is gone, a blocked wait can end with success, whether or not the
      handle has been closed since; before, it cannot. */
  lemma BlockedWaitEnds(v: Life, m: Move)
    requires m.t in v.phase && m.t in v.lock.pc && v.lock.pc[m.t].Idle? && !v.aborted
    requires v.phase[m.t].Outer? && v.phase[m.t].stmt.BlockedOnExit? && !m.cancelled
    ensures Enabled(v, m) <==> v.kernel.Gone?
    ensures v.kernel.Gone? ==>
      !Next(v, m).aborted && Next(v, m).phase[m.t] == Outer(EnterToUnmap(v.phase[m.t].stmt.destroying))
  {
  }

  /** Signal and Broadcast. */
  lemma SignalNext(v: Life, m: Move)
    requires Enabled(v, m) && v.phase[m.t].Inside?
    requires v.phase[m.t].stmt.BroadcastExit? || v.phase[m.t].stmt.SignalChild?
    requires v.lock.pc[m.t].Held?
    ensures
      var e := Lock.Signal(m.t, if v.phase[m.t].stmt.BroadcastExit? then -1 else 1, m.woken);
      && Lock.Enabled(v.lock, e) && m.t in Lock.Next(v.lock, e).pc && Lock.Next(v.lock, e).pc[m.t].Held?
      && Next(v, m) == v.(lock := Lock.Next(v.lock, e), phase := v.phase[m.t := AfterInside(v, v.phase[m.t].stmt)])
  {
    Lock.WakeAllMoves(v.lock, m.woken, m.t);
  }

  lemma EnterCalled(v: Life, m: Move, s: Statement)
    requires v.lock.pc.Keys == v.phase.Keys && Enabled(v, m) && EntersFor(v.phase[m.t], m.op, s)
    ensures Lock.Enabled(v.lock, Lock.CallEnter(m.t))
    ensures Next(v, m) == v.(lock := Lock.Next(v.lock, Lock.CallEnter(m.t)), phase := v.phase[m.t := Entering(s)])
  {
  }

  lemma ThisPhaseKept(v: Life, m: Move, u: Handle)
    requires Inv(v) && Enabled(v, m) && u in v.phase && u != m.t
    requires u == v.child ==> !v.phase[u].Dormant?
    ensures u in Next(v, m).phase && Next(v, m).phase[u] == v.phase[u] && Next(v, m).child == v.child
  {
    hide Lock.Inv, Lock.Next, Lock.Enabled;
    assert ThreadOk(v, v.child, v.phase[v.child], v.lock.pc[v.child]);
  }

  lemma ThisPlaceKept(v: Life, m: Move, u: Handle)
    requires Inv(v) && Enabled(v, m) && u in v.phase && u != m.t
    ensures u in v.lock.pc && u in NextLock(v, m).pc
    ensures
      var q, q' := v.lock.pc[u], NextLock(v, m).pc[u];
      !q.CondRequeued? && !q.CondAsleep? && (q' == q || (q.EnterAsleep? && q'.EnterCas?))
  {
    hide Lock.Inv, Lock.Next, HalfWay, StateOk, ChildOk, CallerOk;
    assert ThreadOk(v, u, v.phase[u], v.lock.pc[u]);
    if u == v.child { NoWait(v); }
    if LockEvent(v, m).Some? {
      Lock.ThreadMoves(v.lock, LockEvent(v, m).value, u);
    }
  }

  lemma NoWait(v: Life)
    requires Inv(v)
    ensures !v.phase[v.child].Waiting?
  {
    assert ThreadOk(v, v.child, v.phase[v.child], v.lock.pc[v.child]);
  }

  /** Another thread's step finds this one where it is, unless this is the wrapper and
      has not been started yet. */
  lemma ThisOneKept(v: Life, m: Move, u: Handle)
    requires Inv(v) && Enabled(v, m) && u in v.phase && u != m.t
    requires u == v.child ==> !v.phase[u].Dormant?
    ensures u in v.lock.pc && u in Next(v, m).phase && Next(v, m).phase[u] == v.phase[u] && u in Next(v, m).lock.pc
    ensures
      var q, q' := v.lock.pc[u], Next(v, m).lock.pc[u];
      !q.CondRequeued? && !q.CondAsleep? && (q' == q || (q.EnterAsleep? && q'.EnterCas?))
    ensures Next(v, m).child == v.child
  {
    hide Inv, NextPhase, NextState, NextLock, Enabled;
    ThisPhaseKept(v, m, u);
    ThisPlaceKept(v, m, u);
  }

  lemma LockStepOnly(v: Life, m: Move)
    requires v.lock.pc.Keys == v.phase.Keys && Enabled(v, m)
    requires
      || (v.phase[m.t].Entering? && Lock.Entering(v.lock.pc[m.t]))
      || (v.phase[m.t].Leaving? && Lock.Running(v.lock.pc[m.t]))
    ensures LockEvent(v, m) == Some(Lock.Step(m.t, m.next))
    ensures m.t in NextLock(v, m).pc
    ensures v.phase[m.t].Entering? && Lock.Entering(v.lock.pc[m.t]) ==>
      var q := NextLock(v, m).pc[m.t]; Lock.Entering(q) || q.EnterAsleep? || q.Held?
    ensures v.lock.pc[m.t].LeaveCas? || v.lock.pc[m.t].LeaveArbitrate? ==>
      var q := NextLock(v, m).pc[m.t]; q.LeaveArbitrate? || q.Idle?
    ensures Next(v, m) ==
            if v.phase[m.t].Leaving? && NextLock(v, m).pc[m.t].Idle? then
              v.(lock := NextLock(v, m), phase := v.phase[m.t := AfterLeave(v.phase[m.t].after)])
            else v.(lock := NextLock(v, m))
  {
    Lock.ThreadMoves(v.lock, Lock.Step(m.t, m.next), m.t);
    assert v.phase[m.t := v.phase[m.t]] == v.phase;
  }

  /** One more step at the end of a run. */
  lemma {:induction false} RunSnoc(v: Life, ms: seq<Move>, m: Move)
    requires ValidRun(v, ms) && Enabled(Run(v, ms), m)
    ensures ValidRun(v, ms + [m]) && Run(v, ms + [m]) == Next(Run(v, ms), m)
    decreases |ms|
  {
    hide Enabled, Next;
    if ms == [] {
      assert ms + [m] == [m] && [m][1..] == [];
    } else {
      assert (ms + [m])[0] == ms[0] && (ms + [m])[1..] == ms[1..] + [m];
      RunSnoc(Next(v, ms[0]), ms[1..], m);
    }
  }

  /** A run from an initial state that ends in this one, which keeps the invariant. */
  ghost predicate RunsTo(start: Life, ms: seq<Move>, v: Life) {
    Inv(v) && Init(start) && ValidRun(start, ms) && Run(start, ms) == v
  }

  lemma RunGoesOn(start: Life, ms: seq<Move>, v: Life, m: Move)
    requires RunsTo(start, ms, v) && Enabled(v, m)
    ensures RunsTo(start, ms + [m], Next(v, m))
  {
    hide Enabled, Next, Inv;
    StepKeeps(v, m);
    RunSnoc(start, ms, m);
  }

  ghost predicate Reachable(v: Life) {
    exists v0: Life, ms: seq<Move> :: Init(v0) && ValidRun(v0, ms) && Run(v0, ms) == v
  }

  lemma {:induction false} RunKeeps(v: Life, ms: seq<Move>)
    requires Inv(v) && ValidRun(v, ms)
    ensures Inv(Run(v, ms))
    decreases |ms|
  {
    if ms == [] {
    } else {
      StepKeeps(v, ms[0]);
      RunKeeps(Next(v, ms[0]), ms[1..]);
    }
  }

  lemma InitInv(v: Life)
    requires Init(v)
    ensures Inv(v)
  {
    WordFacts(0);
  }

  lemma ReachableInv(v: Life)
    requires Reachable(v)
    ensures Inv(v)
  {
    var v0: Life, ms: seq<Move> :| Init(v0) && ValidRun(v0, ms) && Run(v0, ms) == v;
    InitInv(v0);
    RunKeeps(v0, ms);
  }

  // ---- Main results

  /** The entrypoint runs at most once, only after StartThread set the state, and
      never if DestroyThread found the thread not started; and by the time the thread is
      gone it has run exactly once otherwise. */
  lemma EntrypointAtMostOnce(v: Life)
    requires Reachable(v)
    ensures v.child in v.phase && v.entryRuns <= 1
    ensures v.destroyedFirst ==> v.entryRuns == 0
    ensures v.kernel.Gone? ==> v.entryRuns == if v.destroyedFirst then 0 else 1
    ensures v.phase[v.child] == Outer(RunEntrypoint) ==>
              v.entryRuns == 0 && v.state.Started? && !v.destroyedFirst
  {
    ReachableInv(v);
    assert ThreadOk(v, v.child, v.phase[v.child], v.lock.pc[v.child]);
  }

  /** Past WaitForExitThread: the caller may go on to unmap and clean up. */
  predicate PastWait(p: Phase) {
    match StatementOf(p)
    case EnterToUnmap(_) => true
    case TestMapped(_) => true
    case Unmap(_) => true
    case ClearMapped(_) => true
    case CloseHandle => true
    case Reset => true
    case _ => false
  }

  /** Once WaitForExitThread has returned, the thread is gone from the kernel and its
      state is Exited, unless a DestroyThread has closed the handle and reset it. */
  lemma ExitedAfterWait(v: Life, t: Handle)
    requires Reachable(v) && t in v.phase && t != v.child && PastWait(v.phase[t])
    ensures v.kernel.Gone? && v.child in v.phase && v.phase[v.child].Finished?
    ensures v.state.Exited? || v.state.Uninitialized?
    ensures v.handleOpen ==> v.state.Exited?
  {
    ReachableInv(v);
    assert ThreadOk(v, t, v.phase[t], v.lock.pc[t]);
    assert ThreadOk(v, v.child, v.phase[v.child], v.lock.pc[v.child]);
  }

  /** From then on, only the last statement of DestroyThread changes the state. */
  lemma ExitedUntilReset(v: Life, m: Move)
    requires Reachable(v) && Enabled(v, m) && v.kernel.Gone?
    ensures Next(v, m).kernel.Gone?
    ensures v.phase[m.t] != Inside(Reset) ==> Next(v, m).state == v.state
    ensures v.phase[m.t] == Inside(Reset) ==> !v.handleOpen && Next(v, m).state.Uninitialized?
  {
    ReachableInv(v);
    assert ThreadOk(v, m.t, v.phase[m.t], v.lock.pc[m.t]);
  }

  /** The stack mirror is unmapped at most once, only after the thread is gone. */
  lemma MirrorUnmappedOnce(v: Life)
    requires Reachable(v)
    ensures v.unmaps <= 1 && (v.unmaps == 1 ==> v.kernel.Gone?)
    ensures v.lock.image == 0 ==> (v.isMapped <==> v.unmaps == 0)
  {
    ReachableInv(v);
    forall u: Handle | u in v.phase && v.lock.image == 0 ensures !v.phase[u].Inside? {
      WordFacts(0);
      assert ThreadOk(v, u, v.phase[u], v.lock.pc[u]);
      assert Lock.ThreadOk(v.lock.image, u, v.lock.pc[u]);
    }
  }

  /** The unmapping system call finds the mirror mapped and the thread gone, and
      DestroyThread closes the handle with the mirror unmapped. */
  lemma UnmapIsSafe(v: Life, t: Handle)
    requires Reachable(v) && t in v.phase && v.phase[t].Inside?
    ensures v.phase[t].stmt.Unmap? ==> v.kernel.Gone? && v.isMapped && v.unmaps == 0
    ensures v.phase[t].stmt.CloseHandle? || v.phase[t].stmt.Reset? ==>
              v.kernel.Gone? && !v.isMapped && v.unmaps == 1
  {
    ReachableInv(v);
    assert ThreadOk(v, t, v.phase[t], v.lock.pc[t]);
  }

  /** The wait loop of the wrapper is dead code: the thread is started under the
      lock, which is given up only with the state set. */
  lemma WrapperNeverWaits(v: Life)
    requires Reachable(v)
    ensures v.child in v.phase && !v.phase[v.child].Waiting? && v.phase[v.child] != Inside(AboutToWait)
    ensures v.phase[v.child] == Inside(TestState) ==> v.state.Started? || v.state.Destroyed?
    ensures Lock.CondQueue(v.lock) == {}
  {
    ReachableInv(v);
    forall t: Handle | t in v.phase ensures ThreadOk(v, t, v.phase[t], v.lock.pc[t]) && t !in Lock.CondQueue(v.lock) {
    }
    assert ThreadOk(v, v.child, v.phase[v.child], v.lock.pc[v.child]);
  }
}
