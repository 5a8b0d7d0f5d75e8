/** Progress of a thread's life: when no abort lies ahead, a run exists in which the wrapper
    ends and every call of StartThread, WaitThread and DestroyThread returns. */
module ThreadProgress {
  import opened Basics
  import opened LockWord
  import Lock = LockProtocol
  import opened ThreadLifecycle

  // ---- What lies ahead

  /** The statements of DestroyThread. */
  predicate Destroys(s: Statement) {
    match s
    case TestInitialized => true
    case SetDestroyed => true
    case KernelStart(destroying) => destroying
    case SignalChild(destroying) => destroying
    case AwaitExit(destroying) => destroying
    case BlockedOnExit(destroying) => destroying
    case EnterToUnmap(destroying) => destroying
    case TestMapped(destroying) => destroying
    case Unmap(destroying) => destroying
    case ClearMapped(destroying) => destroying
    case CloseHandle => true
    case Reset => true
    case _ => false
  }

  /** The calls that start the thread if nobody has. */
  predicate Activates(p: Phase) {
    var s := StatementOf(p);
    s.KernelStart? || s.TestInitialized? || s.SetDestroyed?
  }

  function Activators(v: Life): set<Handle> {
    set t: Handle | t in v.phase && Activates(v.phase[t])
  }

  function Destroyers(v: Life): set<Handle> {
    set t: Handle | t in v.phase && Destroys(StatementOf(v.phase[t]))
  }

  /** No abort lies ahead: one StartThread or DestroyThread at most is about to start the
      thread, and no StartThread is under way when it has been started; one DestroyThread
      at most; and once it has closed the handle, nobody is about to wait on it. */
  predicate Tidy(v: Life) {
    && !v.aborted
    && |Destroyers(v)| <= 1
    && (v.kernel.Unstarted? ==> |Activators(v)| <= 1)
    && (!v.kernel.Unstarted? ==> forall t: Handle :: t in v.phase ==> StatementOf(v.phase[t]) != KernelStart(false))
    && (!v.handleOpen ==> forall t: Handle :: t in v.phase ==>
          var s := StatementOf(v.phase[t]); !s.AwaitExit? && (Destroys(s) ==> s.Reset?))
  }

  /** And the thread has been started, or will be. */
  predicate Orderly(v: Life) {
    Tidy(v) && (v.kernel.Unstarted? ==> |Activators(v)| == 1)
  }

  lemma InitTidy(v: Life)
    requires Init(v)
    ensures Tidy(v)
  {
    assert Destroyers(v) == {} && Activators(v) == {};
  }

  /** Which calls are in order: StartThread once, while nothing else starts the thread; one
      DestroyThread, not beside such a StartThread; WaitThread until the handle is closed. */
  lemma CallsInOrder(v: Life, m: Move)
    requires Tidy(v) && v.handleOpen && Enabled(v, m) && v.phase[m.t].Outside?
    requires m.op.Start? ==> v.kernel.Unstarted? && Activators(v) == {}
    requires m.op.Destroy? ==> Destroyers(v) == {} && (v.kernel.Unstarted? ==> Activators(v) == {})
    ensures Tidy(Next(v, m)) && (!m.op.Await? ==> Orderly(Next(v, m)))
  {
    hide Lock.Enabled, LockEvent, Next, Destroyers, Activators, NextLock, Destroys, StatementOf, Called, Aborts;
    CallNext(v, m);
    CallersAfter(v, Next(v, m), m);
    if !m.op.Start? { StartsNothing(m.op); }
  }

  lemma StartsNothing(op: Operation)
    requires !op.Start?
    ensures StatementOf(Called(op)) != KernelStart(false)
  {
  }

  function Called(op: Operation): Phase {
    match op
    case Start => Entering(KernelStart(false))
    case Destroy => Entering(TestInitialized)
    case Await => Outer(AwaitExit(false))
  }

  lemma CallNext(v: Life, m: Move)
    requires Enabled(v, m) && v.phase[m.t].Outside?
    ensures Next(v, m) == v.(lock := NextLock(v, m), phase := v.phase[m.t := Called(m.op)])
  {
    hide Lock.Enabled, Lock.Next;
  }

  lemma CallersAfter(v: Life, v': Life, m: Move)
    requires m.t in v.phase && v.phase[m.t].Outside? && v'.phase == v.phase[m.t := Called(m.op)]
    ensures Destroyers(v') == Destroyers(v) + if m.op.Destroy? then {m.t} else {}
    ensures Activators(v') == Activators(v) + if m.op.Await? then {} else {m.t}
  {
  }

  lemma NoAbort(v: Life, t: Handle)
    requires Inv(v) && Orderly(v) && t in v.phase
    ensures !Aborts(v, v.phase[t])
  {
    hide Inv;
    MoverFacts(v, t);
  }

  // ---- The distance

  function Order(s: Statement): nat {
    match s
    case EnterToTest => 21
    case TestState => 20
    case CheckState => 19
    case RunEntrypoint => 18
    case EnterToExit => 17
    case SetExited => 16
    case BroadcastExit => 15
    case ExitThread => 14
    case TestInitialized => 13
    case SetDestroyed => 12
    case KernelStart(_) => 11
    case SetStarted => 10
    case SignalChild(_) => 9
    case AwaitExit(_) => 8
    case BlockedOnExit(_) => 7
    case EnterToUnmap(_) => 6
    case TestMapped(_) => 5
    case Unmap(_) => 4
    case ClearMapped(_) => 3
    case CloseHandle => 2
    case Reset => 1
    case _ => 0
  }

  /** How far a thread is from the end of its call. */
  function Rank(p: Phase): nat {
    if p.Dormant? then 44
    else 2 * Order(StatementOf(p)) + if p.Entering? || p.Leaving? then 1 else 0
  }

  /** All that is still to be done. */
  function ToDo(v: Life): set<(Handle, nat)> {
    set t: Handle, k: nat | t in v.phase && k < Rank(v.phase[t]) :: (t, k)
  }

  lemma ToDoShrinks(v: Life, v': Life, t: Handle)
    requires v'.phase.Keys == v.phase.Keys && t in v.phase && Rank(v'.phase[t]) < Rank(v.phase[t])
    requires forall u: Handle :: u in v.phase ==> Rank(v'.phase[u]) <= Rank(v.phase[u])
    ensures ToDo(v') < ToDo(v)
  {
    hide Rank;
    var k: nat := Rank(v'.phase[t]);
    assert (t, k) in ToDo(v) && (t, k) !in ToDo(v');
  }

  function Owner(v: Life): Word {
    OwnerBits(v.lock.image)
  }

  function PcRank(q: Lock.Pc): nat {
    if q.Idle? || q.LeaveArbitrate? then 0 else if q.LeaveCas? then 1 else if q.Held? then 2 else 3
  }

  function OwnerRank(v: Life): nat {
    if Owner(v) in v.lock.pc then PcRank(v.lock.pc[Owner(v)]) else 0
  }

  /** A step towards the end: less to do, or the same with the lock further on. */
  predicate Closer(v: Life, v': Life) {
    ToDo(v') < ToDo(v) || (ToDo(v') == ToDo(v) && LockCloser(v, v'.lock))
  }

  // ---- What a step changes

  predicate StaysInLock(v: Life, m: Move)
    requires Enabled(v, m)
  {
    || (v.phase[m.t].Entering? && !v.lock.pc[m.t].Held?)
    || (v.phase[m.t].Leaving? && m.t in NextLock(v, m).pc && !NextLock(v, m).pc[m.t].Idle?)
  }

  predicate Falls(v: Life, m: Move)
    requires Enabled(v, m)
  {
    if StaysInLock(v, m) then NextPhase(v, m) == v.phase[m.t] else Rank(NextPhase(v, m)) < Rank(v.phase[m.t])
  }

  lemma LockFalls(v: Life, m: Move)
    requires Enabled(v, m) && (v.phase[m.t].Entering? || v.phase[m.t].Leaving?) && m.t in NextLock(v, m).pc
    ensures Falls(v, m)
  {
    hide Lock.Next, Lock.Enabled, Order;
  }

  /** The statements under the lock; the wait of the wrapper is not one of them. */
  predicate Proper(v: Life, s: Statement) {
    || (s.TestState? && !v.state.Initialized?)
    || s.CheckState? || s.SetExited? || s.BroadcastExit?
    || s.KernelStart? || s.SetStarted? || s.SignalChild? || s.TestInitialized? || s.SetDestroyed?
    || s.TestMapped? || s.Unmap? || s.ClearMapped? || s.CloseHandle? || s.Reset?
  }

  lemma InsideProper(v: Life, t: Handle)
    requires Inv(v) && t in v.phase && v.phase[t].Inside?
    ensures Proper(v, v.phase[t].stmt)
  {
    hide Inv, StateOk;
    MoverFacts(v, t);
  }

  lemma ProperFalls(v: Life, s: Statement)
    requires Proper(v, s)
    ensures Rank(AfterInside(v, s)) < 2 * Order(s)
  {
  }

  lemma InsideFalls(v: Life, m: Move)
    requires Inv(v) && Enabled(v, m) && v.phase[m.t].Inside?
    ensures Falls(v, m)
  {
    hide Inv, Lock.Next, Lock.Enabled, NextLock, LockEvent, AfterInside, Order, Proper;
    InsideProper(v, m.t);
    ProperFalls(v, v.phase[m.t].stmt);
  }

  lemma OuterFalls(v: Life, m: Move)
    requires Inv(v) && Enabled(v, m) && v.phase[m.t].Outer? && !m.cancelled
    ensures Falls(v, m)
  {
    hide Inv, Lock.Enabled, StateOk, NextLock, LockEvent;
    MoverFacts(v, m.t);
  }

  lemma NotWaiting(v: Life, m: Move)
    requires Inv(v) && Enabled(v, m) && !v.phase[m.t].Outside?
    ensures var p := v.phase[m.t]; p.Inside? || p.Outer? || p.Entering? || p.Leaving?
  {
    hide Inv, Lock.Enabled, StateOk;
    MoverFacts(v, m.t);
  }

  /** Unless it stays inside the lock's code, a thread gets on with its call. */
  lemma GetsOn(v: Life, m: Move)
    requires Inv(v) && Enabled(v, m) && !m.cancelled && !v.phase[m.t].Outside?
    ensures Falls(v, m)
  {
    hide Lock.Inv, Lock.Next, Lock.Enabled, LockEvent, ThreadOk, StateOk, HalfWay, Falls, NextLock;
    NotWaiting(v, m);
    LockKeeps(v, m);
    if v.phase[m.t].Inside? {
      InsideFalls(v, m);
    } else if v.phase[m.t].Outer? {
      OuterFalls(v, m);
    } else {
      LockFalls(v, m);
    }
  }

  /** The phases after a step that does not abort. */
  lemma PhasesAfter(v: Life, m: Move)
    requires Inv(v) && Enabled(v, m) && !Aborts(v, v.phase[m.t])
    ensures Next(v, m).phase.Keys == v.phase.Keys && Next(v, m).lock == NextLock(v, m) && !Next(v, m).aborted
    ensures
      var moved := v.phase[m.t := NextPhase(v, m)];
      Next(v, m).phase == if StartsChild(v.phase[m.t]) then moved[v.child := Outer(EnterToTest)] else moved
    ensures StartsChild(v.phase[m.t]) ==> m.t != v.child && v.phase[v.child].Dormant?
  {
    hide Lock.Inv, Lock.Next, Lock.Enabled, NextPhase, HalfWay;
    assert ThreadOk(v, m.t, v.phase[m.t], v.lock.pc[m.t]);
    assert ThreadOk(v, v.child, v.phase[v.child], v.lock.pc[v.child]);
  }

  lemma StepFalls(v: Life, m: Move)
    requires Inv(v) && Enabled(v, m) && !m.cancelled && !v.phase[m.t].Outside? && !Aborts(v, v.phase[m.t])
    ensures if StaysInLock(v, m) then Next(v, m).phase == v.phase else ToDo(Next(v, m)) < ToDo(v)
  {
    hide Inv, Next, NextPhase, Enabled, StaysInLock, ToDo;
    PhasesAfter(v, m);
    GetsOn(v, m);
    if StaysInLock(v, m) {
      StayersStart(v, m);
      assert v.phase[m.t := v.phase[m.t]] == v.phase;
    } else {
      ToDoShrinks(v, Next(v, m), m.t);
    }
  }

  lemma StayersStart(v: Life, m: Move)
    requires Enabled(v, m) && StaysInLock(v, m)
    ensures !StartsChild(v.phase[m.t])
  {
  }

  // ---- No step leads to an abort

  lemma Single(s: set<Handle>, t: Handle, u: Handle)
    requires |s| <= 1 && t in s && u in s
    ensures t == u
  {
    SubsetSize({t, u}, s);
  }

  /** What may become of a statement within its call. */
  predicate GoesOn(p: Phase, s': Statement) {
    var s := StatementOf(p);
    && (Destroys(s') ==> Destroys(s))
    && (s' == KernelStart(false) ==> s == KernelStart(false) && !p.Inside?)
    && (s'.AwaitExit? ==> s.AwaitExit? || (Destroys(s) && !s.Reset?))
    && (Destroys(s') && s.Reset? ==> s' == s)
  }

  lemma InsideGoesOn(v: Life, s: Statement)
    requires Proper(v, s)
    ensures GoesOn(Inside(s), StatementOf(AfterInside(v, s)))
  {
  }

  lemma StatementKept(v: Life, m: Move)
    requires Inv(v) && Enabled(v, m) && !m.cancelled && !v.phase[m.t].Outside?
    ensures GoesOn(v.phase[m.t], StatementOf(NextPhase(v, m)))
  {
    hide Inv, Lock.Next, Lock.Enabled, LockEvent, NextLock, AfterInside, Proper;
    NotWaiting(v, m);
    if v.phase[m.t].Inside? {
      InsideProper(v, m.t);
      InsideGoesOn(v, v.phase[m.t].stmt);
    }
  }

  /** As long as the thread is not started, the call that is to start it still is. */
  lemma ActivatorKept(v: Life, m: Move)
    requires Inv(v) && Enabled(v, m) && !m.cancelled && !v.phase[m.t].Outside?
    requires v.kernel.Unstarted? && !StartsChild(v.phase[m.t])
    ensures Activates(NextPhase(v, m)) <==> Activates(v.phase[m.t])
  {
    hide Lock.Inv, Lock.Next, Lock.Enabled, LockEvent, NextLock, HalfWay;
    assert ThreadOk(v, m.t, v.phase[m.t], v.lock.pc[m.t]);
    if v.lock.pc[m.t].Held? { Settled(v, m.t); }
  }

  lemma ActivatorsKept(v: Life, m: Move)
    requires Inv(v) && Orderly(v) && Enabled(v, m) && !m.cancelled && !v.phase[m.t].Outside?
    ensures Next(v, m).kernel.Unstarted? ==> |Activators(Next(v, m))| == 1
  {
    hide Inv, Lock.Enabled, NextPhase, NextLock, LockEvent;
    NoAbort(v, m.t);
    PhasesAfter(v, m);
    if Next(v, m).kernel.Unstarted? {
      ActivatorKept(v, m);
      assert Activators(Next(v, m)) == Activators(v);
    }
  }

  lemma DestroyersKept(v: Life, m: Move)
    requires Inv(v) && Orderly(v) && Enabled(v, m) && !m.cancelled && !v.phase[m.t].Outside?
    ensures |Destroyers(Next(v, m))| <= 1
  {
    hide Inv, Lock.Enabled, NextPhase, NextLock, LockEvent, Destroys, Next;
    NoAbort(v, m.t);
    PhasesAfter(v, m);
    StatementKept(v, m);
    EntersNotDestroys();
    assert Destroyers(Next(v, m)) <= Destroyers(v);
    SubsetSize(Destroyers(Next(v, m)), Destroyers(v));
  }

  lemma EntersNotDestroys()
    ensures !Destroys(EnterToTest)
  {
  }

  lemma StartersKept(v: Life, m: Move, u: Handle)
    requires Inv(v) && Orderly(v) && Enabled(v, m) && !m.cancelled && !v.phase[m.t].Outside?
    requires u in v.phase && !Next(v, m).kernel.Unstarted?
    ensures u in Next(v, m).phase && StatementOf(Next(v, m).phase[u]) != KernelStart(false)
  {
    hide Inv, Lock.Enabled, NextPhase, NextLock, LockEvent, Destroys;
    NoAbort(v, m.t);
    PhasesAfter(v, m);
    StatementKept(v, m);
    if v.kernel.Unstarted? && StatementOf(v.phase[u]) == KernelStart(false) {
      StartedBy(v, m);
      assert m.t in Activators(v) && u in Activators(v);
      Single(Activators(v), m.t, u);
    }
  }

  lemma StartedBy(v: Life, m: Move)
    requires Inv(v) && Enabled(v, m) && !Aborts(v, v.phase[m.t])
    requires v.kernel.Unstarted? && !Next(v, m).kernel.Unstarted?
    ensures StartsChild(v.phase[m.t])
  {
    hide Inv, Lock.Enabled, NextPhase, NextLock, LockEvent, StateOk;
    MoverFacts(v, m.t);
  }

  predicate AtWait(p: Phase) {
    p.Outer? && p.stmt.AwaitExit?
  }

  /** The handle is closed when nobody is about to wait on it. */
  lemma NobodyWaits(v: Life, t: Handle, u: Handle)
    requires Inv(v) && Orderly(v) && t in v.phase && u in v.phase
    requires v.phase[t] == Inside(CloseHandle) && !AtWait(v.phase[u]) && t != u
    ensures var s := StatementOf(v.phase[u]); !s.AwaitExit? && !Destroys(s)
  {
    hide Lock.Inv, HalfWay, StateOk;
    assert ThreadOk(v, t, v.phase[t], v.lock.pc[t]);
    assert ThreadOk(v, u, v.phase[u], v.lock.pc[u]);
    if Destroys(StatementOf(v.phase[u])) { Single(Destroyers(v), t, u); }
    if v.phase[u].Leaving? { OnlyOneInside(v, t, u); }
  }

  lemma ClosedKept(v: Life, m: Move, u: Handle)
    requires Inv(v) && Orderly(v) && Enabled(v, m) && !m.cancelled && !v.phase[m.t].Outside?
    requires v.phase[m.t] == Inside(CloseHandle) ==> forall t: Handle :: t in v.phase ==> !AtWait(v.phase[t])
    requires u in v.phase && !Next(v, m).handleOpen
    ensures u in Next(v, m).phase
    ensures var s := StatementOf(Next(v, m).phase[u]); !s.AwaitExit? && (Destroys(s) ==> s.Reset?)
  {
    hide Inv, Lock.Next, Lock.Enabled, NextLock, LockEvent, AtWait;
    NoAbort(v, m.t);
    PhasesAfter(v, m);
    StatementKept(v, m);
    if v.handleOpen && u != m.t { NobodyWaits(v, m.t, u); }
  }

  lemma OrderlyKept(v: Life, m: Move)
    requires Inv(v) && Orderly(v) && Enabled(v, m) && !m.cancelled && !v.phase[m.t].Outside?
    requires v.phase[m.t] == Inside(CloseHandle) ==> forall t: Handle :: t in v.phase ==> !AtWait(v.phase[t])
    ensures Orderly(Next(v, m))
  {
    hide Inv, Lock.Enabled, NextPhase, NextLock, LockEvent, Destroys, Next, Activators, Destroyers, AtWait;
    NoAbort(v, m.t);
    PhasesAfter(v, m);
    ActivatorsKept(v, m);
    DestroyersKept(v, m);
    var v' := Next(v, m);
    if !v'.kernel.Unstarted? {
      forall u: Handle | u in v'.phase ensures StatementOf(v'.phase[u]) != KernelStart(false) {
        StartersKept(v, m, u);
      }
    }
    if !v'.handleOpen {
      forall u: Handle | u in v'.phase
        ensures var s := StatementOf(v'.phase[u]); !s.AwaitExit? && (Destroys(s) ==> s.Reset?)
      {
        ClosedKept(v, m, u);
      }
    }
  }

  // ---- A step that is possible

  /** What a thread does next, with some legal choice of the kernel. */
  ghost function MoveOf(v: Life, t: Handle): Move
    requires t in v.lock.pc
  {
    Move(t, Start, false, Lock.Choose(v.lock.(pc := v.lock.pc[t := Lock.Idle])), [])
  }

  /** A statement outside of the lock, unless it waits for a thread that is not gone. */
  lemma OuterStep(v: Life, t: Handle)
    requires Inv(v) && Orderly(v) && t in v.phase && v.phase[t].Outer?
    requires v.phase[t].stmt.BlockedOnExit? ==> v.kernel.Gone?
    ensures t in v.lock.pc && Enabled(v, MoveOf(v, t)) && !StaysInLock(v, MoveOf(v, t))
  {
    hide Inv, StateOk, ChildOk, CallerOk;
    MoverFacts(v, t);
  }

  lemma NobodyQueued(v: Life)
    requires Inv(v)
    ensures Lock.CondQueue(v.lock) == {}
  {
    hide Lock.Inv, HalfWay, StateOk, ChildOk, CallerOk;
    NoWait(v);
    forall t: Handle | t in v.lock.pc ensures !v.lock.pc[t].CondAsleep? {
      assert ThreadOk(v, t, v.phase[t], v.lock.pc[t]);
    }
  }

  lemma InsideStep(v: Life, t: Handle)
    requires Inv(v) && !v.aborted && t in v.phase && v.phase[t].Inside?
    ensures t in v.lock.pc && Enabled(v, MoveOf(v, t)) && !StaysInLock(v, MoveOf(v, t))
  {
    hide Lock.Inv, HalfWay, StateOk;
    assert ThreadOk(v, t, v.phase[t], v.lock.pc[t]);
    NobodyQueued(v);
  }

  /** The owner is in one of the three places in which a thread can hold the lock. */
  lemma OwnerPlaced(v: Life)
    requires Inv(v) && v.lock.image != 0
    ensures var t := Owner(v);
      && t in v.phase && t in v.lock.pc && !v.phase[t].Outside?
      && (v.phase[t].Inside? || (v.phase[t].Entering? && (v.lock.pc[t].Held? || Lock.Entering(v.lock.pc[t])))
          || (v.phase[t].Leaving? && Lock.Inside(v.lock.pc[t])))
  {
    hide HalfWay, StateOk, ChildOk, CallerOk;
    var t := Owner(v);
    WordFacts(v.lock.image);
    assert t in v.lock.pc && t in v.phase;
    assert Lock.ThreadOk(v.lock.image, t, v.lock.pc[t]);
    assert ThreadOk(v, t, v.phase[t], v.lock.pc[t]);
  }

  ghost predicate LockFurther(v: Life, m: Move)
    requires Enabled(v, m)
  {
    StaysInLock(v, m) ==>
      NextLock(v, m).image != 0 && Owner(v) in NextLock(v, m).pc && Owner(v) in v.lock.pc
      && NextLock(v, m).image == v.lock.image && PcRank(NextLock(v, m).pc[Owner(v)]) < PcRank(v.lock.pc[Owner(v)])
  }

  lemma OwnerEnters(v: Life)
    requires Inv(v) && !v.aborted && v.lock.image != 0 && Owner(v) in v.phase && v.phase[Owner(v)].Entering?
    ensures Owner(v) in v.lock.pc && Enabled(v, MoveOf(v, Owner(v))) && LockFurther(v, MoveOf(v, Owner(v)))
  {
    hide Lock.Inv, Lock.Next, Lock.Enabled, HalfWay, StateOk, ChildOk, CallerOk;
    OwnerPlaced(v);
    var t := Owner(v);
    if !v.lock.pc[t].Held? { Lock.OwnerEnterStep(v.lock, t, MoveOf(v, t).next); }
  }

  lemma OwnerLeaves(v: Life)
    requires Inv(v) && !v.aborted && v.lock.image != 0 && Owner(v) in v.phase && v.phase[Owner(v)].Leaving?
    ensures Owner(v) in v.lock.pc && Enabled(v, MoveOf(v, Owner(v))) && LockFurther(v, MoveOf(v, Owner(v)))
  {
    hide Lock.Inv, Lock.Next, Lock.Enabled, HalfWay, StateOk, ChildOk, CallerOk;
    OwnerPlaced(v);
    Lock.OwnerLeaveStep(v.lock, Owner(v));
  }

  lemma OwnerStep(v: Life)
    requires Inv(v) && !v.aborted && v.lock.image != 0
    ensures Owner(v) in v.lock.pc && Enabled(v, MoveOf(v, Owner(v))) && LockFurther(v, MoveOf(v, Owner(v)))
    ensures Owner(v) in v.phase && !v.phase[Owner(v)].Outside?
  {
    hide Lock.Inv, Enabled, LockFurther, StaysInLock, HalfWay, StateOk, ChildOk, CallerOk;
    OwnerPlaced(v);
    if v.phase[Owner(v)].Inside? {
      InsideStep(v, Owner(v));
      NotInLock(v, MoveOf(v, Owner(v)));
    } else if v.phase[Owner(v)].Entering? {
      OwnerEnters(v);
    } else {
      OwnerLeaves(v);
    }
  }

  lemma NotInLock(v: Life, m: Move)
    requires Enabled(v, m) && !StaysInLock(v, m)
    ensures LockFurther(v, m)
  {
  }

  /** Nobody in Leave or under the lock. */
  lemma FreePlaced(v: Life, t: Handle)
    requires Inv(v) && v.lock.image == 0 && t in v.phase
    ensures !v.phase[t].Inside? && !v.phase[t].Leaving? && !v.phase[t].Waiting?
    ensures v.phase[t].Entering? ==> t in v.lock.pc && Lock.Entering(v.lock.pc[t])
  {
    hide HalfWay, StateOk, CallerOk;
    WordFacts(0);
    assert ThreadOk(v, t, v.phase[t], v.lock.pc[t]);
    assert Lock.ThreadOk(v.lock.image, t, v.lock.pc[t]);
  }

  lemma FreeStep(v: Life, t: Handle)
    requires Inv(v) && !v.aborted && v.lock.image == 0 && t in v.phase && v.phase[t].Entering?
    ensures t in v.lock.pc && Enabled(v, MoveOf(v, t)) && StaysInLock(v, MoveOf(v, t))
    ensures var s' := NextLock(v, MoveOf(v, t)); s'.image != 0 || Lock.Misled(s') < Lock.Misled(v.lock)
  {
    hide Lock.Inv, Lock.Next, Lock.Enabled, HalfWay, StateOk, ChildOk, CallerOk;
    FreePlaced(v, t);
    Lock.FreeEnterStep(v.lock, t, MoveOf(v, t).next);
  }

  // ---- The whole way

  predicate Movable(v: Life, p: Phase) {
    p.Outer? && (p.stmt.BlockedOnExit? ==> v.kernel.Gone?)
  }

  /** The wrapper has ended, and every call has returned. */
  predicate Over(v: Life) {
    && v.lock.image == 0 && v.child in v.phase
    && forall t: Handle :: t in v.phase ==> if t == v.child then v.phase[t].Finished? else v.phase[t].Outside?
  }

  lemma ThreadGone(v: Life)
    requires Inv(v) && Orderly(v) && v.lock.image == 0
    requires forall t: Handle :: t in v.phase ==> !Movable(v, v.phase[t]) && !v.phase[t].Entering?
    ensures v.phase[v.child].Finished? && v.kernel.Gone?
  {
    hide Lock.Inv, HalfWay, StateOk;
    FreePlaced(v, v.child);
    assert ThreadOk(v, v.child, v.phase[v.child], v.lock.pc[v.child]);
    if v.phase[v.child].Dormant? {
      var a: Handle :| a in Activators(v);
      ActivatorEnters(v, a);
    }
  }

  lemma ActivatorEnters(v: Life, a: Handle)
    requires Inv(v) && v.lock.image == 0 && a in v.phase && Activates(v.phase[a])
    ensures v.phase[a].Entering?
  {
    hide Lock.Inv, HalfWay, StateOk;
    FreePlaced(v, a);
    assert ThreadOk(v, a, v.phase[a], v.lock.pc[a]);
  }

  lemma NothingLeft(v: Life)
    requires Inv(v) && Orderly(v) && v.lock.image == 0
    requires forall t: Handle :: t in v.phase ==> !Movable(v, v.phase[t]) && !v.phase[t].Entering?
    ensures Over(v)
  {
    hide Lock.Inv, HalfWay, StateOk;
    ThreadGone(v);
    forall t: Handle | t in v.phase && t != v.child ensures v.phase[t].Outside? {
      FreePlaced(v, t);
      assert ThreadOk(v, t, v.phase[t], v.lock.pc[t]);
    }
  }

  /** Statements outside of the lock come first, so that nobody is about to wait on the
      handle when it is closed; then the owner; then whoever takes the free lock. */
  lemma NextMover(v: Life) returns (t: Handle)
    requires Inv(v) && Orderly(v) && !Over(v)
    ensures t in v.phase && t in v.lock.pc && !v.phase[t].Outside? && Enabled(v, MoveOf(v, t))
    ensures v.phase[t] == Inside(CloseHandle) ==> forall u: Handle :: u in v.phase ==> !AtWait(v.phase[u])
    ensures StaysInLock(v, MoveOf(v, t)) ==> LockCloser(v, NextLock(v, MoveOf(v, t)))
  {
    hide Inv, Enabled, NextLock, StaysInLock, Orderly, Over, MoveOf;
    OrderlyAlive(v);
    if u: Handle :| u in v.phase && Movable(v, v.phase[u]) {
      t := u;
      OuterStep(v, t);
    } else if v.lock.image != 0 {
      OwnerStep(v);
      t := Owner(v);
    } else if u: Handle :| u in v.phase && v.phase[u].Entering? {
      t := u;
      FreeStep(v, t);
    } else {
      NothingLeft(v);
      assert false;
    }
  }

  predicate LockCloser(v: Life, s: Lock.System) {
    if v.lock.image == 0 then s.image != 0 || Lock.Misled(s) < Lock.Misled(v.lock)
    else s.image != 0 && OwnerRank(v.(lock := s)) < OwnerRank(v)
  }

  lemma OrderlyAlive(v: Life)
    requires Orderly(v)
    ensures !v.aborted
  {
  }

  ghost predicate NoNewCalls(v: Life, ms: seq<Move>)
    requires ValidRun(v, ms)
    decreases |ms|
  {
    ms != [] ==> !v.phase[ms[0].t].Outside? && !ms[0].cancelled && NoNewCalls(Next(v, ms[0]), ms[1..])
  }

  lemma StepCloser(v: Life) returns (m: Move)
    requires Inv(v) && Orderly(v) && !Over(v)
    ensures Enabled(v, m) && !v.phase[m.t].Outside? && !m.cancelled
    ensures Inv(Next(v, m)) && Orderly(Next(v, m)) && Closer(v, Next(v, m))
  {
    hide Inv, Next, NextLock, NextPhase, StaysInLock, Orderly, Over, AtWait, ToDo, LockCloser;
    var t := NextMover(v);
    m := MoveOf(v, t);
    NoAbort(v, t);
    PhasesAfter(v, m);
    StepKeeps(v, m);
    OrderlyKept(v, m);
    StepFalls(v, m);
    if StaysInLock(v, m) { SameToDo(v, Next(v, m)); }
  }

  lemma SameToDo(v: Life, v': Life)
    requires v'.phase == v.phase
    ensures ToDo(v') == ToDo(v)
  {
    hide Rank;
  }

  lemma {:induction false} GoOn(v: Life) returns (ms: seq<Move>)
    requires Inv(v) && Orderly(v)
    ensures ValidRun(v, ms) && NoNewCalls(v, ms)
    ensures Inv(Run(v, ms)) && Orderly(Run(v, ms)) && Over(Run(v, ms))
    decreases ToDo(v), if v.lock.image == 0 then 1 else 0,
              if v.lock.image == 0 then Lock.Misled(v.lock) else {}, if v.lock.image == 0 then 0 else OwnerRank(v)
  {
    hide Inv, Next, Enabled, Orderly, Over, ToDo, Lock.Misled, PcRank;
    if Over(v) {
      ms := [];
    } else {
      var m := StepCloser(v);
      var rest := GoOn(Next(v, m));
      ms := [m] + rest;
      assert ms[1..] == rest;
    }
  }

  /** From every reachable state without an abort ahead, in which the thread has been
      started or one call is about to start it: a run exists, without any new call, at
      whose end the wrapper has ended, with the entrypoint run as it should, and every
      call of StartThread, WaitThread and DestroyThread has returned. */
  lemma ThreadEndsAndCallsReturn(v: Life) returns (ms: seq<Move>)
    requires Reachable(v) && Orderly(v)
    ensures ValidRun(v, ms) && NoNewCalls(v, ms)
    ensures
      var f := Run(v, ms);
      && !f.aborted && f.lock.image == 0 && f.child in f.phase && f.phase[f.child].Finished? && f.kernel.Gone?
      && (forall t: Handle :: t in f.phase && t != f.child ==> f.phase[t].Outside?)
      && f.entryRuns == if f.destroyedFirst then 0 else 1
  {
    hide ThreadOk, Lock.Inv, HalfWay;
    ReachableInv(v);
    ms := GoOn(v);
    Ended(Run(v, ms));
  }

  lemma Ended(v: Life)
    requires Inv(v) && v.phase[v.child].Finished?
    ensures v.kernel.Gone? && v.entryRuns == if v.destroyedFirst then 0 else 1
  {
    assert ThreadOk(v, v.child, v.phase[v.child], v.lock.pc[v.child]);
  }
}
