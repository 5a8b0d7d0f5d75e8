/** User events as clients of the lock and the condition variable: one step per
    access to is_signaled, compare-exchange or system call. */
module UserEvent {
  import opened Basics
  import opened LockWord
  import Lock = LockProtocol

  datatype Operation = Wait | Query | Signal | Clear

  /** Where a thread stands in the operation it is running. */
  datatype Phase =
    | Outside
    | Entering(op: Operation)
    | WaitTest
    | AboutToWait
    | Waiting
    | WaitClear
    | WaitStore
    | QueryRead
    | QueryClear(loaded: bool)
    | SignalTest
    | SignalSet
    | SignalWake
    | ClearWrite
    | Leaving(took: bool)

  /** The event's fields, its lock and condition variable, the threads, and history:
      how the signal started out, how often it was raised by SignalUserEvent, taken
      by a waiter or a query, and thrown away by ClearUserEvent, how many calls that
      took it have returned, and how many threads were waiting when it was raised last. */
  datatype Event = Event(
    isSignaled: bool, isAutoClear: bool,
    lock: Lock.System, phase: map<Handle, Phase>,
    initially: bool, raised: nat, taken: nat, dropped: nat, delivered: nat, queuedAtRaise: nat)

  /** One step of thread t, with the operation it starts if it is outside, and the
      choices of the kernel. */
  datatype Move = Move(t: Handle, op: Operation, next: Option<Handle>, woken: seq<Handle>)

  /** InitializeUserEvent leaves is_signaled alone, so its first value is arbitrary. */
  predicate Init(v: Event) {
    && v.initially == v.isSignaled
    && v.raised == 0 && v.taken == 0 && v.dropped == 0 && v.delivered == 0 && v.queuedAtRaise == 0
    && Lock.Init(v.lock) && v.lock.pc.Keys == v.phase.Keys
    && forall t: Handle :: t in v.phase ==> v.phase[t].Outside?
  }

  /** The lock operation the step performs, if any. */
  function LockEvent(v: Event, m: Move): Option<Lock.Event>
    requires m.t in v.phase && m.t in v.lock.pc
  {
    var q := v.lock.pc[m.t];
    match v.phase[m.t]
    case Outside => Some(Lock.CallEnter(m.t))
    case Entering(_) => if q.Held? then None else Some(Lock.Step(m.t, m.next))
    case AboutToWait => Some(Lock.Wait(m.t, false, m.next))
    case SignalWake => Some(Lock.Signal(m.t, 1, m.woken))
    case Leaving(_) => if q.Held? then Some(Lock.CallLeave(m.t)) else Some(Lock.Step(m.t, m.next))
    case _ => None
  }

  predicate Enabled(v: Event, m: Move) {
    && m.t in v.phase && m.t in v.lock.pc && !Lock.Asleep(v.lock.pc[m.t])
    && (LockEvent(v, m).Some? ==> Lock.Enabled(v.lock, LockEvent(v, m).value))
  }

  function NextLock(v: Event, m: Move): Lock.System
    requires Enabled(v, m)
  {
    if LockEvent(v, m).Some? then Lock.Next(v.lock, LockEvent(v, m).value) else v.lock
  }

  function Opening(op: Operation): Phase {
    match op
    case Wait => WaitTest
    case Query => QueryRead
    case Signal => SignalTest
    case Clear => ClearWrite
  }

  /** Leave is over once it has given the lock up. */
  predicate Returns(v: Event, m: Move)
    requires Enabled(v, m)
  {
    v.phase[m.t].Leaving? && m.t in NextLock(v, m).pc && NextLock(v, m).pc[m.t].Idle?
  }

  function NextPhase(v: Event, m: Move): Phase
    requires Enabled(v, m)
  {
    match v.phase[m.t]
    case Outside => Entering(m.op)
    case Entering(op) => if v.lock.pc[m.t].Held? then Opening(op) else Entering(op)
    case WaitTest => if v.isSignaled then WaitClear else AboutToWait
    case AboutToWait => Waiting
    case Waiting => WaitTest
    case WaitClear => if v.isSignaled && v.isAutoClear then WaitStore else Leaving(false)
    case WaitStore => Leaving(true)
    case QueryRead => QueryClear(v.isSignaled)
    case QueryClear(loaded) => Leaving(v.isAutoClear && loaded)
    case SignalTest => if v.isSignaled then Leaving(false) else SignalSet
    case SignalSet => SignalWake
    case SignalWake => Leaving(false)
    case ClearWrite => Leaving(false)
    case Leaving(took) => if Returns(v, m) then Outside else Leaving(took)
  }

  function NextSignal(v: Event, p: Phase): bool {
    if p.SignalSet? then true
    else if p.ClearWrite? || p.WaitStore? then false
    else if p.QueryClear? then v.isSignaled && !v.isAutoClear
    else v.isSignaled
  }

  function Next(v: Event, m: Move): Event
    requires Enabled(v, m)
  {
    var p := v.phase[m.t];
    Event(
      NextSignal(v, p), v.isAutoClear,
      NextLock(v, m), v.phase[m.t := NextPhase(v, m)],
      v.initially,
      v.raised + if p.SignalSet? && !v.isSignaled then 1 else 0,
      v.taken + if NextPhase(v, m).Leaving? && !p.Leaving? && NextPhase(v, m).took then 1 else 0,
      v.dropped + if p.ClearWrite? && v.isSignaled then 1 else 0,
      v.delivered + if p.Leaving? && p.took && Returns(v, m) then 1 else 0,
      if p.SignalSet? then |Lock.CondQueue(v.lock)| else v.queuedAtRaise)
  }

  // ---- The invariant

  predicate Coupled(p: Phase, q: Lock.Pc) {
    match p
    case Outside => q.Idle?
    case Entering(_) => Lock.Entering(q) || q.EnterAsleep? || q.Held?
    case Waiting => q in {Lock.CondAsleep(false), Lock.CondRequeued(false), Lock.Held}
    case Leaving(_) => Lock.Inside(q)
    case _ => q.Held?
  }

  predicate ThreadOk(v: Event, p: Phase, q: Lock.Pc) {
    && Coupled(p, q)
    && (p.WaitClear? ==> v.isSignaled)
    && (p.WaitStore? ==> v.isSignaled && v.isAutoClear)
    && (p.AboutToWait? || p.SignalSet? ==> !v.isSignaled)
    && (p.SignalWake? ==> v.isSignaled)
    && (p.QueryClear? ==> p.loaded == v.isSignaled)
  }

  /** A thread on its way to take the signal, or to wake one that will. */
  predicate OnItsWay(p: Phase, q: Lock.Pc) {
    (p.Waiting? && !q.CondAsleep?) || p.WaitTest? || p.WaitClear? || p.WaitStore? || p.SignalWake?
  }

  ghost predicate Conserved(v: Event) {
    v.taken + v.dropped + (if v.isSignaled then 1 else 0) == v.raised + (if v.initially then 1 else 0)
  }

  predicate Took(p: Phase) {
    p.Leaving? && p.took
  }

  function Takers(phase: map<Handle, Phase>): set<Handle> {
    set t: Handle | t in phase && Took(phase[t])
  }

  /** The calls that have taken a signal and not yet returned. */
  function InFlight(v: Event): set<Handle> {
    Takers(v.phase)
  }

  ghost predicate Attended(v: Event)
    requires v.lock.pc.Keys == v.phase.Keys
  {
    v.isSignaled && Lock.CondQueue(v.lock) != {} ==>
      exists t: Handle :: t in v.phase && OnItsWay(v.phase[t], v.lock.pc[t])
  }

  predicate Waking(phase: map<Handle, Phase>) {
    exists t: Handle :: t in phase && phase[t].SignalWake?
  }

  /** All who were waiting when the signal was raised last, but for the one that is woken. */
  function LeftBehind(v: Event): nat {
    if v.queuedAtRaise == 0 then 0 else v.queuedAtRaise - 1
  }

  /** While the signal is up, they still wait. */
  predicate Remaining(v: Event) {
    v.isSignaled ==> |Lock.CondQueue(v.lock)| == if Waking(v.phase) then v.queuedAtRaise else LeftBehind(v)
  }

  ghost predicate Inv(v: Event) {
    && Lock.Inv(v.lock) && v.lock.pc.Keys == v.phase.Keys
    && (forall t: Handle :: t in v.phase ==> ThreadOk(v, v.phase[t], v.lock.pc[t]))
    && v.taken == v.delivered + |InFlight(v)|
    && (v.isAutoClear ==> Conserved(v) && Attended(v))
    && Remaining(v)
  }

  lemma OnlyOneInside(v: Event, t: Handle, u: Handle)
    requires Inv(v) && t in v.phase && u in v.phase
    requires Lock.Inside(v.lock.pc[t]) && Lock.Inside(v.lock.pc[u])
    ensures t == u
  {
    assert Lock.ThreadOk(v.lock.image, t, v.lock.pc[t]);
    assert Lock.ThreadOk(v.lock.image, u, v.lock.pc[u]);
  }

  lemma LockKeeps(v: Event, m: Move)
    requires Inv(v) && Enabled(v, m)
    ensures Lock.Inv(NextLock(v, m)) && NextLock(v, m).pc.Keys == Next(v, m).phase.Keys
  {
    var le := LockEvent(v, m);
    if le.Some? {
      Lock.StepKeeps(v.lock, le.value);
      Lock.ThreadMoves(v.lock, le.value, m.t);
    }
  }

  /** What a step does to another thread. */
  lemma OthersKept(v: Event, m: Move, u: Handle)
    requires v.lock.pc.Keys == v.phase.Keys && Enabled(v, m) && u in v.phase && u != m.t
    ensures u in NextLock(v, m).pc
    ensures
      var q, q' := v.lock.pc[u], NextLock(v, m).pc[u];
      || q' == q
      || (Lock.LockAsleep(q) && q' == Lock.Resumed(q))
      || (v.phase[m.t].SignalWake? && u in m.woken && q.CondAsleep? && q' in {Lock.Held, Lock.CondRequeued(q.timed)})
  {
    hide Lock.Next, Lock.Enabled;
    if LockEvent(v, m).Some? {
      Lock.ThreadMoves(v.lock, LockEvent(v, m).value, u);
    }
  }

  lemma OwnLockStep(v: Event, m: Move)
    requires Inv(v) && Enabled(v, m) && (v.phase[m.t].Entering? || v.phase[m.t].Leaving?)
    ensures m.t in NextLock(v, m).pc && Coupled(NextPhase(v, m), NextLock(v, m).pc[m.t])
  {
    assert ThreadOk(v, v.phase[m.t], v.lock.pc[m.t]);
  }

  lemma OwnMoves(v: Event, m: Move)
    requires Inv(v) && Enabled(v, m) && !v.phase[m.t].Entering? && !v.phase[m.t].Leaving?
    ensures m.t in NextLock(v, m).pc && Coupled(NextPhase(v, m), NextLock(v, m).pc[m.t])
  {
    hide Lock.Inv, Attended, Conserved, Remaining;
    assert ThreadOk(v, v.phase[m.t], v.lock.pc[m.t]);
    if v.phase[m.t].SignalWake? {
      Lock.WakeAllMoves(v.lock, m.woken, m.t);
    }
  }

  lemma OwnFields(v: Event, m: Move)
    requires Inv(v) && Enabled(v, m)
    ensures forall q :: Coupled(NextPhase(v, m), q) ==> ThreadOk(Next(v, m), NextPhase(v, m), q)
  {
    hide Lock.Inv, Lock.Next, Lock.Enabled, Attended, Conserved, Remaining, NextLock;
    assert ThreadOk(v, v.phase[m.t], v.lock.pc[m.t]);
  }

  lemma OwnKept(v: Event, m: Move)
    requires Inv(v) && Enabled(v, m)
    ensures m.t in NextLock(v, m).pc
    ensures ThreadOk(Next(v, m), NextPhase(v, m), NextLock(v, m).pc[m.t])
  {
    hide Inv, Next, NextPhase, NextLock, ThreadOk, Coupled;
    if v.phase[m.t].Entering? || v.phase[m.t].Leaving? {
      OwnLockStep(v, m);
    } else {
      OwnMoves(v, m);
    }
    OwnFields(v, m);
  }

  /** Only the thread inside changes the signal, so what another one has read, or
      is about to rely on, stays true. */
  lemma OtherThreadKept(v: Event, m: Move, u: Handle)
    requires Inv(v) && Enabled(v, m) && u in v.phase && u != m.t
    ensures u in NextLock(v, m).pc
    ensures ThreadOk(Next(v, m), v.phase[u], NextLock(v, m).pc[u])
    ensures OnItsWay(v.phase[u], v.lock.pc[u]) ==> OnItsWay(v.phase[u], NextLock(v, m).pc[u])
  {
    assert ThreadOk(v, v.phase[u], v.lock.pc[u]);
    assert ThreadOk(v, v.phase[m.t], v.lock.pc[m.t]);
    OthersKept(v, m, u);
    if Lock.Inside(v.lock.pc[u]) && Lock.Inside(v.lock.pc[m.t]) { OnlyOneInside(v, u, m.t); }
  }

  /** Every raise adds a signal and every take or drop removes one. */
  lemma ConservedKept(v: Event, m: Move)
    requires Inv(v) && Enabled(v, m) && v.isAutoClear
    ensures Conserved(Next(v, m))
  {
    assert ThreadOk(v, v.phase[m.t], v.lock.pc[m.t]);
  }

  lemma TakersUpdate(phase: map<Handle, Phase>, t: Handle, p: Phase)
    requires t in phase
    ensures |Takers(phase[t := p])| ==
            |Takers(phase)| - (if Took(phase[t]) then 1 else 0) + (if Took(p) then 1 else 0)
  {
    hide Took;
    var rest := Takers(phase) - {t};
    if Took(phase[t]) {
      assert Takers(phase) == rest + {t};
    }
    if Took(p) {
      assert Takers(phase[t := p]) == rest + {t};
    } else {
      assert Takers(phase[t := p]) == rest;
    }
  }

  lemma InFlightKept(v: Event, m: Move)
    requires Inv(v) && Enabled(v, m)
    ensures Next(v, m).taken == Next(v, m).delivered + |InFlight(Next(v, m))|
  {
    TakersUpdate(v.phase, m.t, NextPhase(v, m));
  }

  /** A waiter is not forgotten while the signal is up. */
  lemma AttendedKept(v: Event, m: Move)
    requires Inv(v) && Enabled(v, m) && v.isAutoClear
    requires NextLock(v, m).pc.Keys == Next(v, m).phase.Keys
    ensures Attended(Next(v, m))
  {
    var v' := Next(v, m);
    assert ThreadOk(v, v.phase[m.t], v.lock.pc[m.t]);
    if v'.isSignaled && Lock.CondQueue(v'.lock) != {} {
      if v.phase[m.t].SignalSet? {
        assert v'.phase[m.t].SignalWake?;
      } else if v.phase[m.t].SignalWake? {
        SignalReachesOne(v, m);
      } else {
        QueueKept(v, m);
        var t: Handle :| t in v.phase && OnItsWay(v.phase[t], v.lock.pc[t]);
        if t != m.t {
          OtherThreadKept(v, m, t);
          assert v'.phase[t] == v.phase[t];
        } else {
          assert OnItsWay(v'.phase[t], v'.lock.pc[t]);
        }
      }
    }
  }

  lemma QueueKept(v: Event, m: Move)
    requires Inv(v) && Enabled(v, m)
    requires !v.phase[m.t].SignalWake? && !v.phase[m.t].AboutToWait?
    ensures Lock.CondQueue(NextLock(v, m)) == Lock.CondQueue(v.lock)
  {
    OwnKept(v, m);
    LockKeeps(v, m);
    assert ThreadOk(v, v.phase[m.t], v.lock.pc[m.t]);
    forall u: Handle ensures u in Lock.CondQueue(NextLock(v, m)) <==> u in Lock.CondQueue(v.lock) {
      if u in v.phase && u != m.t { OthersKept(v, m, u); }
    }
  }

  lemma SignalReachesOne(v: Event, m: Move)
    requires Inv(v) && Enabled(v, m) && v.phase[m.t].SignalWake?
    requires Lock.CondQueue(NextLock(v, m)) != {}
    ensures exists t: Handle :: t in Next(v, m).phase && t in NextLock(v, m).pc
              && OnItsWay(Next(v, m).phase[t], NextLock(v, m).pc[t])
  {
    var q := Lock.CondQueue(v.lock);
    assert |q| >= 1;
    var w := m.woken[0];
    assert w in m.woken;
    Lock.WakeAllMoves(v.lock, m.woken, w);
    assert ThreadOk(v, v.phase[m.t], v.lock.pc[m.t]) && ThreadOk(v, v.phase[w], v.lock.pc[w]);
    assert OnItsWay(Next(v, m).phase[w], NextLock(v, m).pc[w]);
  }

  lemma OneWaker(v: Event, t: Handle, u: Handle)
    requires Inv(v) && t in v.phase && u in v.phase && v.phase[t].SignalWake? && v.phase[u].SignalWake?
    ensures t == u
  {
    assert ThreadOk(v, v.phase[t], v.lock.pc[t]) && ThreadOk(v, v.phase[u], v.lock.pc[u]);
    OnlyOneInside(v, t, u);
  }

  lemma NoWakerLeft(v: Event, m: Move)
    requires Inv(v) && Enabled(v, m) && v.phase[m.t].SignalWake?
    ensures !Waking(Next(v, m).phase)
  {
    hide Inv, NextLock, LockEvent, Lock.Next, Lock.Enabled;
    forall u: Handle | u in Next(v, m).phase ensures !Next(v, m).phase[u].SignalWake? {
      if v.phase[u].SignalWake? { OneWaker(v, m.t, u); }
    }
  }

  lemma RemainingAfterWake(v: Event, m: Move)
    requires Inv(v) && Enabled(v, m) && v.phase[m.t].SignalWake?
    ensures Remaining(Next(v, m))
  {
    hide Lock.Inv, Lock.Next, Lock.Enabled, Attended, Conserved, Waking, ThreadOk, NextLock, NextPhase, LockEvent;
    WokenOne(v, m);
    NoWakerLeft(v, m);
  }

  lemma WokenOne(v: Event, m: Move)
    requires Inv(v) && Enabled(v, m) && v.phase[m.t].SignalWake?
    ensures v.isSignaled && Next(v, m).isSignaled && Waking(v.phase)
    ensures var n := |Lock.CondQueue(v.lock)|; |Lock.CondQueue(NextLock(v, m))| == if n == 0 then 0 else n - 1
  {
    hide Lock.Inv, Lock.Next, Lock.Enabled, Attended, Conserved, Remaining, Next, NextLock;
    assert ThreadOk(v, v.phase[m.t], v.lock.pc[m.t]);
    WakeIsSignal(v, m);
    SignalsOne(v.lock, m.t, m.woken);
  }

  lemma WakeIsSignal(v: Event, m: Move)
    requires Enabled(v, m) && v.phase[m.t].SignalWake?
    ensures var e := Lock.Signal(m.t, 1, m.woken);
      Lock.Enabled(v.lock, e) && NextLock(v, m) == Lock.Next(v.lock, e)
    ensures Next(v, m).isSignaled == v.isSignaled
  {
    hide Lock.Next, Lock.Enabled;
  }

  lemma SignalsOne(s: Lock.System, t: Handle, woken: seq<Handle>)
    requires Lock.Enabled(s, Lock.Signal(t, 1, woken))
    ensures var n := |Lock.CondQueue(s)|;
      |Lock.CondQueue(Lock.Next(s, Lock.Signal(t, 1, woken)))| == if n == 0 then 0 else n - 1
  {
    if woken != [] {
      assert woken == [woken[0]];
    }
  }

  lemma RemainingKept(v: Event, m: Move)
    requires Inv(v) && Enabled(v, m)
    ensures Remaining(Next(v, m))
  {
    hide Lock.Inv, Lock.Next, Lock.Enabled, Attended, Conserved;
    var v' := Next(v, m);
    assert ThreadOk(v, v.phase[m.t], v.lock.pc[m.t]);
    if v.phase[m.t].SignalWake? {
      RemainingAfterWake(v, m);
    } else if v.phase[m.t].SignalSet? {
      assert v'.phase[m.t].SignalWake?;
    } else if !v.phase[m.t].AboutToWait? {
      QueueKept(v, m);
      if Waking(v.phase) {
        var u: Handle :| u in v.phase && v.phase[u].SignalWake?;
        assert v'.phase[u].SignalWake?;
      }
    }
  }

  lemma StepKeeps(v: Event, m: Move)
    requires Inv(v) && Enabled(v, m)
    ensures Inv(Next(v, m))
  {
    var v' := Next(v, m);
    LockKeeps(v, m);
    forall u: Handle | u in v'.phase ensures ThreadOk(v', v'.phase[u], v'.lock.pc[u]) {
      if u != m.t { OtherThreadKept(v, m, u); } else { OwnKept(v, m); }
    }
    InFlightKept(v, m);
    RemainingKept(v, m);
    if v.isAutoClear {
      ConservedKept(v, m);
      AttendedKept(v, m);
    }
  }

  // ---- Runs

  ghost predicate ValidRun(v: Event, ms: seq<Move>)
    decreases |ms|
  {
    ms == [] || (Enabled(v, ms[0]) && ValidRun(Next(v, ms[0]), ms[1..]))
  }

  ghost function Run(v: Event, ms: seq<Move>): Event
    requires ValidRun(v, ms)
    decreases |ms|
  {
    if ms == [] then v else Run(Next(v, ms[0]), ms[1..])
  }

  lemma KeysKept(v: Event, m: Move)
    requires v.lock.pc.Keys == v.phase.Keys && Enabled(v, m)
    ensures Next(v, m).lock.pc.Keys == Next(v, m).phase.Keys
  {
    if LockEvent(v, m).Some? {
      Lock.ThreadMoves(v.lock, LockEvent(v, m).value, m.t);
    }
  }

  /** The lock's own code, from Enter to the owner and from Leave to the end. */
  lemma EnterSteps(v: Event, m: Move)
    requires v.lock.pc.Keys == v.phase.Keys && Enabled(v, m) && v.phase[m.t].Entering? && Lock.Entering(v.lock.pc[m.t])
    ensures var q := NextLock(v, m).pc;
      m.t in q && (Lock.Entering(q[m.t]) || q[m.t].EnterAsleep? || q[m.t].Held?)
    ensures Next(v, m).phase[m.t] == v.phase[m.t]
  {
  }

  lemma LeaveSteps(v: Event, m: Move)
    requires v.lock.pc.Keys == v.phase.Keys && Enabled(v, m) && v.phase[m.t].Leaving?
    requires v.lock.pc[m.t].LeaveCas? || v.lock.pc[m.t].LeaveArbitrate?
    ensures var q := NextLock(v, m).pc;
      && m.t in q && (q[m.t].LeaveArbitrate? || q[m.t].Idle?)
      && Next(v, m).phase[m.t] == if q[m.t].Idle? then Outside else v.phase[m.t]
  {
  }

  lemma LockStepOnly(v: Event, m: Move)
    requires v.lock.pc.Keys == v.phase.Keys && Enabled(v, m)
    requires
      || (v.phase[m.t].Entering? && !v.lock.pc[m.t].Held?)
      || (v.phase[m.t].Leaving? && Lock.Running(v.lock.pc[m.t]))
    ensures LockEvent(v, m) == Some(Lock.Step(m.t, m.next))
    ensures m.t in NextLock(v, m).pc
    ensures Next(v, m) ==
            if v.phase[m.t].Leaving? && NextLock(v, m).pc[m.t].Idle? then
              v.(lock := NextLock(v, m), phase := v.phase[m.t := Outside],
                 delivered := v.delivered + if v.phase[m.t].took then 1 else 0)
            else v.(lock := NextLock(v, m))
  {
    Lock.ThreadMoves(v.lock, Lock.Step(m.t, m.next), m.t);
    assert v.phase[m.t := v.phase[m.t]] == v.phase;
  }

  lemma SignalNext(v: Event, m: Move)
    requires Enabled(v, m) && v.phase[m.t].SignalWake? && v.lock.pc[m.t].Held?
    ensures
      var e := Lock.Signal(m.t, 1, m.woken);
      && Lock.Enabled(v.lock, e) && m.t in Lock.Next(v.lock, e).pc && Lock.Next(v.lock, e).pc[m.t].Held?
      && Next(v, m) == v.(lock := Lock.Next(v.lock, e), phase := v.phase[m.t := Leaving(false)])
  {
    Lock.WakeAllMoves(v.lock, m.woken, m.t);
  }

  /** One more step at the end of a run. */
  lemma {:induction false} RunSnoc(v: Event, ms: seq<Move>, m: Move)
    requires ValidRun(v, ms) && Enabled(Run(v, ms), m)
    ensures ValidRun(v, ms + [m]) && Run(v, ms + [m]) == Next(Run(v, ms), m)
    decreases |ms|
  {
    hide Enabled, Next;
    if ms == [] {
      assert ms + [m] == [m] && [m][1..] == [];
    } else {
      assert (ms + [m])[0] == ms[0] && (ms + [m])[1..] == ms[1..] + [m];
      RunSnoc(Next(v, ms[0]), ms[1..], m);
    }
  }

  ghost predicate Reachable(v: Event) {
    exists v0: Event, ms: seq<Move> :: Init(v0) && ValidRun(v0, ms) && Run(v0, ms) == v
  }

  lemma {:induction false} RunKeeps(v: Event, ms: seq<Move>)
    requires Inv(v) && ValidRun(v, ms)
    ensures Inv(Run(v, ms))
    decreases |ms|
  {
    if ms == [] {
    } else {
      StepKeeps(v, ms[0]);
      RunKeeps(Next(v, ms[0]), ms[1..]);
    }
  }

  lemma InitInv(v: Event)
    requires Init(v)
    ensures Inv(v)
  {
    WordFacts(0);
    assert InFlight(v) == {};
    assert Lock.CondQueue(v.lock) == {};
  }

  lemma ReachableInv(v: Event)
    requires Reachable(v)
    ensures Inv(v)
  {
    var v0: Event, ms: seq<Move> :| Init(v0) && ValidRun(v0, ms) && Run(v0, ms) == v;
    InitInv(v0);
    RunKeeps(v0, ms);
  }

  // ---- Main results

  lemma FreeMeansNobodyInside(v: Event, t: Handle)
    requires Inv(v) && v.lock.image == 0 && t in v.phase
    ensures !Lock.Inside(v.lock.pc[t]) && !Lock.LockAsleep(v.lock.pc[t])
    ensures !v.phase[t].Leaving? && !OnItsWay(v.phase[t], v.lock.pc[t])
  {
    WordFacts(0);
    assert Lock.ThreadOk(v.lock.image, t, v.lock.pc[t]);
    assert ThreadOk(v, v.phase[t], v.lock.pc[t]);
  }

  /** Signals of an auto-clear event are conserved: each one that was ever up was
      delivered to exactly one Wait or query, thrown away by a clear, or is up now.
      At most one delivery is under way, and none is when the lock is free. */
  lemma SignalsConserved(v: Event)
    requires Reachable(v) && v.isAutoClear
    ensures v.delivered + |InFlight(v)| + v.dropped + (if v.isSignaled then 1 else 0)
            == v.raised + (if v.initially then 1 else 0)
    ensures |InFlight(v)| <= 1
    ensures v.lock.image == 0 ==> InFlight(v) == {}
  {
    ReachableInv(v);
    if t: Handle :| t in InFlight(v) {
      assert ThreadOk(v, v.phase[t], v.lock.pc[t]);
      forall u: Handle | u in InFlight(v) ensures u == t {
        assert ThreadOk(v, v.phase[u], v.lock.pc[u]);
        OnlyOneInside(v, t, u);
      }
      assert InFlight(v) == {t};
      if v.lock.image == 0 { FreeMeansNobodyInside(v, t); }
    }
  }

  /** No wakeup of an auto-clear event is lost: with the lock free and the signal
      up, nobody is left waiting, even if other threads stole earlier signals. */
  lemma NoLostWakeup(v: Event)
    requires Reachable(v) && v.isAutoClear && v.lock.image == 0 && v.isSignaled
    ensures Lock.CondQueue(v.lock) == {}
  {
    ReachableInv(v);
    if Lock.CondQueue(v.lock) != {} {
      var t: Handle :| t in v.phase && OnItsWay(v.phase[t], v.lock.pc[t]);
      FreeMeansNobodyInside(v, t);
    }
  }

  /** A manual-reset event wakes one waiter a time: with the lock free and the signal up,
      all who were waiting when it was raised still wait, but for one. So nobody waits if
      and only if there was at most one. */
  lemma WaitersLeft(v: Event)
    requires Reachable(v) && v.lock.image == 0 && v.isSignaled
    ensures |Lock.CondQueue(v.lock)| == LeftBehind(v)
    ensures Lock.CondQueue(v.lock) == {} <==> v.queuedAtRaise <= 1
  {
    ReachableInv(v);
    forall t: Handle | t in v.phase ensures !v.phase[t].SignalWake? {
      FreeMeansNobodyInside(v, t);
    }
  }

  /** No step of such a run clears the signal. */
  ghost predicate NoClear(v: Event, ms: seq<Move>)
    requires ValidRun(v, ms)
    decreases |ms|
  {
    ms != [] ==> !v.phase[ms[0].t].ClearWrite? && NoClear(Next(v, ms[0]), ms[1..])
  }

  lemma SignalStays(v: Event, m: Move)
    requires Inv(v) && Enabled(v, m) && !v.isAutoClear && v.isSignaled && !Waking(v.phase)
    requires !v.phase[m.t].ClearWrite?
    ensures var v' := Next(v, m);
      && Inv(v') && !v'.isAutoClear && v'.isSignaled && !Waking(v'.phase)
      && Lock.CondQueue(v'.lock) == Lock.CondQueue(v.lock) && v'.queuedAtRaise == v.queuedAtRaise
  {
    hide Lock.Inv, Lock.Next, Lock.Enabled, Remaining;
    StepKeeps(v, m);
    assert ThreadOk(v, v.phase[m.t], v.lock.pc[m.t]);
    assert !v.phase[m.t].SignalWake?;
    QueueKept(v, m);
    NobodyWakes(v, m);
  }

  lemma NobodyWakes(v: Event, m: Move)
    requires Enabled(v, m) && !Waking(v.phase) && !v.phase[m.t].SignalSet?
    ensures !Waking(Next(v, m).phase)
  {
    forall t: Handle | t in Next(v, m).phase ensures !Next(v, m).phase[t].SignalWake? {
      assert t in v.phase;
    }
  }

  lemma {:induction false} StaysUp(v: Event, ms: seq<Move>)
    requires Inv(v) && !v.isAutoClear && v.isSignaled && !Waking(v.phase)
    requires ValidRun(v, ms) && NoClear(v, ms)
    ensures Run(v, ms).isSignaled && Lock.CondQueue(Run(v, ms).lock) == Lock.CondQueue(v.lock)
    decreases |ms|
  {
    hide Inv, Enabled, Next, Waking;
    if ms != [] {
      SignalStays(v, ms[0]);
      StaysUp(Next(v, ms[0]), ms[1..]);
    }
  }

  /** And they wait until ClearUserEvent: whatever all threads do, and however often the
      event is signalled again, none of them is woken before. */
  lemma AsleepUntilClear(v: Event, ms: seq<Move>)
    requires Reachable(v) && !v.isAutoClear && v.isSignaled && v.lock.image == 0
    requires ValidRun(v, ms) && NoClear(v, ms)
    ensures Run(v, ms).isSignaled && Lock.CondQueue(Run(v, ms).lock) == Lock.CondQueue(v.lock)
  {
    ReachableInv(v);
    forall t: Handle | t in v.phase ensures !v.phase[t].SignalWake? {
      FreeMeansNobodyInside(v, t);
    }
    StaysUp(v, ms);
  }

  /** WaitUserEvent gets past its loop only with the signal up, tests it once more with
      the same result, and on an auto-clear event takes that very signal. */
  lemma WaitTakesTheSignal(v: Event, m: Move)
    requires Reachable(v) && Enabled(v, m) && (v.phase[m.t].WaitClear? || v.phase[m.t].WaitStore?)
    ensures v.isSignaled
    ensures v.phase[m.t].WaitClear? ==>
      && Next(v, m).isSignaled && Next(v, m).taken == v.taken
      && Next(v, m).phase[m.t] == if v.isAutoClear then WaitStore else Leaving(false)
    ensures v.phase[m.t].WaitStore? ==> v.isAutoClear && !Next(v, m).isSignaled && Next(v, m).taken == v.taken + 1
  {
    ReachableInv(v);
    assert ThreadOk(v, v.phase[m.t], v.lock.pc[m.t]);
  }

  /** IsUserEventSignaled stores only what it loaded: the signal of an auto-clear event is
      taken if it was up, and any other is left as it is. */
  lemma QueryTakesTheSignal(v: Event, m: Move)
    requires Reachable(v) && Enabled(v, m) && v.phase[m.t].QueryClear?
    ensures v.phase[m.t].loaded == v.isSignaled
    ensures Next(v, m).isSignaled == (v.isSignaled && !v.isAutoClear)
    ensures Next(v, m).taken == v.taken + if v.isSignaled && v.isAutoClear then 1 else 0
    ensures Next(v, m).phase[m.t] == Leaving(v.isSignaled && v.isAutoClear)
  {
    ReachableInv(v);
    assert ThreadOk(v, v.phase[m.t], v.lock.pc[m.t]);
  }
}
