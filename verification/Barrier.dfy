/** AwaitBarrier as a client of the lock and the condition variable: one step per
    access to the barrier's fields, compare-exchange or system call, for any number
    of threads arriving any number of times. */
module Barrier {
  import opened Basics
  import opened LockWord
  import Lock = LockProtocol

  const UINT32 := 0x1_0000_0000

  /** Where a thread stands in AwaitBarrier. A ticket is the arrival's number. */
  datatype Phase =
    | Outside
    | Entering
    | Incrementing(loaded: int)
    | Comparing(ticket: nat)
    | Broadcasting(ticket: nat)
    | AboutToWait(ticket: nat)
    | Waiting(ticket: nat)
    | Leaving(ticket: nat)
    | Returned(ticket: nat)

  /** The barrier's fields, the lock and condition variable it holds, the threads,
      and two history variables: the arrivals so far, and whether the broadcast
      has happened. */
  datatype Barrier = Barrier(
    arriveCount: int, numberToWait: int,
    lock: Lock.System, phase: map<Handle, Phase>,
    arrivals: nat, released: bool)

  /** One step of thread t; the other two parameters are choices of the kernel. */
  datatype Event = Event(t: Handle, next: Option<Handle>, woken: seq<Handle>)

  predicate Init(b: Barrier) {
    && 0 <= b.numberToWait < UINT32
    && b.arriveCount == 0 && b.arrivals == 0 && !b.released
    && Lock.Init(b.lock) && b.lock.pc.Keys == b.phase.Keys
    && forall t: Handle :: t in b.phase ==> b.phase[t].Outside?
  }

  /** The lock operation the step performs, if any. */
  function LockEvent(b: Barrier, e: Event): Option<Lock.Event>
    requires e.t in b.phase && e.t in b.lock.pc
  {
    var q := b.lock.pc[e.t];
    match b.phase[e.t]
    case Outside => Some(Lock.CallEnter(e.t))
    case Returned(_) => Some(Lock.CallEnter(e.t))
    case Entering => if q.Held? then None else Some(Lock.Step(e.t, e.next))
    case Incrementing(_) => None
    case Comparing(_) => None
    case Broadcasting(_) => Some(Lock.Signal(e.t, -1, e.woken))
    case AboutToWait(_) => Some(Lock.Wait(e.t, false, e.next))
    case Waiting(_) => None
    case Leaving(_) =>
      if q.Held? then Some(Lock.CallLeave(e.t))
      else if q.Idle? then None
      else Some(Lock.Step(e.t, e.next))
  }

  predicate Enabled(b: Barrier, e: Event) {
    && e.t in b.phase && e.t in b.lock.pc && !Lock.Asleep(b.lock.pc[e.t])
    && (LockEvent(b, e).Some? ==> Lock.Enabled(b.lock, LockEvent(b, e).value))
  }

  function NextPhase(b: Barrier, t: Handle): Phase
    requires t in b.phase && t in b.lock.pc
  {
    var q := b.lock.pc[t];
    match b.phase[t]
    case Outside => Entering
    case Returned(_) => Entering
    case Entering => if q.Held? then Incrementing(b.arriveCount) else Entering
    case Incrementing(_) => Comparing(b.arrivals + 1)
    case Comparing(k) => if b.arriveCount == b.numberToWait then Broadcasting(k) else AboutToWait(k)
    case Broadcasting(k) => Leaving(k)
    case AboutToWait(k) => Waiting(k)
    case Waiting(k) => Leaving(k)
    case Leaving(k) => if q.Idle? then Returned(k) else Leaving(k)
  }

  function Next(b: Barrier, e: Event): Barrier
    requires Enabled(b, e)
  {
    var p := b.phase[e.t];
    Barrier(
      if p.Incrementing? then (p.loaded + 1) % UINT32 else b.arriveCount,
      b.numberToWait,
      if LockEvent(b, e).Some? then Lock.Next(b.lock, LockEvent(b, e).value) else b.lock,
      b.phase[e.t := NextPhase(b, e.t)],
      if p.Incrementing? then b.arrivals + 1 else b.arrivals,
      b.released || p.Broadcasting?)
  }

  // ---- The invariant

  predicate Coupled(p: Phase, q: Lock.Pc) {
    match p
    case Outside => q.Idle?
    case Returned(_) => q.Idle?
    case Entering => Lock.Entering(q) || q.EnterAsleep? || q.Held?
    case Incrementing(_) => q.Held?
    case Comparing(_) => q.Held?
    case Broadcasting(_) => q.Held?
    case AboutToWait(_) => q.Held?
    case Waiting(_) => q in {Lock.CondAsleep(false), Lock.CondRequeued(false), Lock.Held}
    case Leaving(_) => Lock.Inside(q) || q.Idle?
  }

  /** Arrived, not yet let through and not the one to let the others through. */
  predicate Counted(p: Phase, q: Lock.Pc) {
    p.Comparing? || p.Broadcasting? || p.AboutToWait? || (p.Waiting? && q.CondAsleep?)
  }

  predicate LetThrough(p: Phase, q: Lock.Pc) {
    (p.Waiting? && !q.CondAsleep?) || p.Leaving? || p.Returned?
  }

  predicate ThreadOk(b: Barrier, p: Phase, q: Lock.Pc) {
    && Coupled(p, q)
    && (p.Incrementing? ==> p.loaded == b.arriveCount)
    && (p.Comparing? || p.Broadcasting? || p.AboutToWait? ==> p.ticket == b.arrivals >= 1)
    && (p.Broadcasting? ==> b.arriveCount == b.numberToWait && !b.released)
    && (p.AboutToWait? ==> b.arriveCount != b.numberToWait)
    && (p.Waiting? ==> 1 <= p.ticket <= b.arrivals)
    && (p.Waiting? && q.CondAsleep? && b.released ==> p.ticket > b.numberToWait)
    && (LetThrough(p, q) ==> b.released && 1 <= p.ticket <= b.numberToWait)
  }

  function Pending(b: Barrier): set<Handle>
    requires b.lock.pc.Keys == b.phase.Keys
  {
    set t: Handle | t in b.phase && Counted(b.phase[t], b.lock.pc[t])
  }

  ghost predicate Inv(b: Barrier) {
    && Lock.Inv(b.lock) && b.lock.pc.Keys == b.phase.Keys
    && 0 <= b.numberToWait < UINT32
    && b.arrivals < UINT32 && b.arriveCount == b.arrivals
    && (forall t: Handle :: t in b.phase ==> ThreadOk(b, b.phase[t], b.lock.pc[t]))
    && (if b.released then
          b.arrivals >= b.numberToWait > 0 && |Pending(b)| == b.arrivals - b.numberToWait
        else
          && (b.numberToWait > 0 ==> b.arrivals <= b.numberToWait) && |Pending(b)| == b.arrivals
          && (b.arrivals == b.numberToWait > 0 ==>
                exists t: Handle :: t in b.phase && (b.phase[t].Comparing? || b.phase[t].Broadcasting?)))
  }

  /** Two threads cannot both be between Enter and Leave. */
  lemma OnlyOneHolds(b: Barrier, t: Handle, u: Handle)
    requires Inv(b) && t in b.phase && u in b.phase
    requires b.lock.pc[t].Held? && b.lock.pc[u].Held?
    ensures t == u
  {
    assert Lock.ThreadOk(b.lock.image, t, b.lock.pc[t]);
    assert Lock.ThreadOk(b.lock.image, u, b.lock.pc[u]);
  }

  lemma LockKeeps(b: Barrier, e: Event)
    requires Inv(b) && Enabled(b, e)
    ensures Lock.Inv(Next(b, e).lock) && Next(b, e).lock.pc.Keys == Next(b, e).phase.Keys
  {
    var le := LockEvent(b, e);
    if le.Some? {
      Lock.StepKeeps(b.lock, le.value);
      Lock.ThreadMoves(b.lock, le.value, e.t);
    }
  }

  /** Another thread keeps its phase, and its place among the waiters unless the
      step is the broadcast. */
  lemma OthersKept(b: Barrier, e: Event, u: Handle)
    requires b.lock.pc.Keys == b.phase.Keys && Enabled(b, e) && u in b.phase && u != e.t
    ensures u in Next(b, e).phase && Next(b, e).phase[u] == b.phase[u]
    ensures u in Next(b, e).lock.pc
    ensures
      var q, q' := b.lock.pc[u], Next(b, e).lock.pc[u];
      || q' == q
      || (Lock.LockAsleep(q) && q' == Lock.Resumed(q))
      || (b.phase[e.t].Broadcasting? && u in e.woken && q.CondAsleep? && q' in {Lock.Held, Lock.CondRequeued(q.timed)})
  {
    hide Lock.Next, Lock.Enabled;
    if LockEvent(b, e).Some? {
      Lock.ThreadMoves(b.lock, LockEvent(b, e).value, u);
    }
  }

  /** A step of the lock's own code leaves the caller where Coupled wants it. */
  lemma OwnLockStep(b: Barrier, e: Event)
    requires Inv(b) && Enabled(b, e) && (b.phase[e.t].Entering? || b.phase[e.t].Leaving?)
    ensures Coupled(NextPhase(b, e.t), Next(b, e).lock.pc[e.t])
  {
    assert ThreadOk(b, b.phase[e.t], b.lock.pc[e.t]);
  }

  lemma OwnCompares(b: Barrier, e: Event)
    requires Inv(b) && Enabled(b, e) && b.phase[e.t].Comparing?
    ensures e.t in Next(b, e).lock.pc && ThreadOk(Next(b, e), NextPhase(b, e.t), Next(b, e).lock.pc[e.t])
  {
    hide Lock.Inv;
    assert ThreadOk(b, b.phase[e.t], b.lock.pc[e.t]);
    assert e.t in Pending(b);
  }

  lemma OwnBroadcasts(b: Barrier, e: Event)
    requires Inv(b) && Enabled(b, e) && b.phase[e.t].Broadcasting?
    ensures e.t in Next(b, e).lock.pc && ThreadOk(Next(b, e), NextPhase(b, e.t), Next(b, e).lock.pc[e.t])
  {
    hide Lock.Inv;
    assert ThreadOk(b, b.phase[e.t], b.lock.pc[e.t]);
    Lock.WakeAllMoves(b.lock, e.woken, e.t);
  }

  lemma MoverFacts(b: Barrier, t: Handle)
    requires Inv(b) && t in b.phase
    ensures t in b.lock.pc && ThreadOk(b, b.phase[t], b.lock.pc[t])
  {
    hide Lock.Inv, ThreadOk;
  }

  lemma OwnMoves(b: Barrier, e: Event)
    requires Inv(b) && Enabled(b, e)
    requires !b.phase[e.t].Incrementing? && !b.phase[e.t].Comparing? && !b.phase[e.t].Broadcasting?
    ensures e.t in Next(b, e).lock.pc && ThreadOk(Next(b, e), NextPhase(b, e.t), Next(b, e).lock.pc[e.t])
  {
    hide Inv;
    MoverFacts(b, e.t);
    if b.phase[e.t].Entering? || b.phase[e.t].Leaving? {
      OwnLockStep(b, e);
    } else if b.phase[e.t].AboutToWait? {
      LateWaits(b, e.t);
    }
  }

  /** Whoever waits after the release came too late. */
  lemma LateWaits(b: Barrier, t: Handle)
    requires Inv(b) && t in b.phase && b.phase[t].AboutToWait?
    ensures b.released ==> b.phase[t].ticket > b.numberToWait
  {
    hide Lock.Inv;
    assert ThreadOk(b, b.phase[t], b.lock.pc[t]);
    assert t in Pending(b);
  }

  lemma OwnKept(b: Barrier, e: Event)
    requires Inv(b) && Enabled(b, e) && !b.phase[e.t].Incrementing?
    ensures e.t in Next(b, e).lock.pc && ThreadOk(Next(b, e), NextPhase(b, e.t), Next(b, e).lock.pc[e.t])
  {
    hide Inv, Next, NextPhase, ThreadOk, LockEvent;
    LockKeeps(b, e);
    if b.phase[e.t].Comparing? {
      OwnCompares(b, e);
    } else if b.phase[e.t].Broadcasting? {
      OwnBroadcasts(b, e);
    } else {
      OwnMoves(b, e);
    }
  }

  lemma IncrementThread(b: Barrier, e: Event, b': Barrier, u: Handle)
    requires Inv(b) && Enabled(b, e) && b.phase[e.t].Incrementing? && b.arrivals + 1 < UINT32
    requires b' == b.(arriveCount := b.arrivals + 1, arrivals := b.arrivals + 1,
                      phase := b.phase[e.t := Comparing(b.arrivals + 1)])
    requires u in b.phase
    ensures ThreadOk(b', b'.phase[u], b'.lock.pc[u])
    ensures u in Pending(b') <==> u in Pending(b) || u == e.t
    ensures u == e.t ==> u !in Pending(b)
    ensures b.phase[u].Comparing? || b.phase[u].Broadcasting? ==> false
  {
    assert ThreadOk(b, b.phase[e.t], b.lock.pc[e.t]);
    assert ThreadOk(b, b.phase[u], b.lock.pc[u]);
    if u != e.t && b.lock.pc[u].Held? { OnlyOneHolds(b, u, e.t); }
  }

  lemma IncrementKeeps(b: Barrier, e: Event)
    requires Inv(b) && Enabled(b, e) && b.phase[e.t].Incrementing? && b.arrivals + 1 < UINT32
    ensures Inv(Next(b, e))
  {
    var b' := b.(arriveCount := b.arrivals + 1, arrivals := b.arrivals + 1,
                 phase := b.phase[e.t := Comparing(b.arrivals + 1)]);
    assert Next(b, e) == b' by { assert ThreadOk(b, b.phase[e.t], b.lock.pc[e.t]); }
    IncrementedInv(b, e, b');
  }

  lemma IncrementedInv(b: Barrier, e: Event, b': Barrier)
    requires Inv(b) && Enabled(b, e) && b.phase[e.t].Incrementing? && b.arrivals + 1 < UINT32
    requires b' == b.(arriveCount := b.arrivals + 1, arrivals := b.arrivals + 1,
                      phase := b.phase[e.t := Comparing(b.arrivals + 1)])
    ensures Inv(b')
  {
    forall u: Handle | u in b'.phase
      ensures ThreadOk(b', b'.phase[u], b'.lock.pc[u])
      ensures u in Pending(b') <==> u in Pending(b) || u == e.t
      ensures !b.phase[u].Comparing? && !b.phase[u].Broadcasting?
    {
      IncrementThread(b, e, b', u);
    }
    assert e.t !in Pending(b) by { IncrementThread(b, e, b', e.t); }
    assert Pending(b') == Pending(b) + {e.t};
    assert b'.phase[e.t].Comparing?;
  }

  /** Where the broadcast leaves another thread: awake, and no longer waiting. */
  lemma BroadcastMoves(b: Barrier, e: Event, u: Handle)
    requires Inv(b) && Enabled(b, e) && b.phase[e.t].Broadcasting? && u in b.phase && u != e.t
    ensures u in Next(b, e).phase && u in Next(b, e).lock.pc && Next(b, e).phase[u] == b.phase[u]
    ensures var q, q' := b.lock.pc[u], Next(b, e).lock.pc[u];
      !q'.CondAsleep? && (q' == q || (q.CondAsleep? && q' in {Lock.Held, Lock.CondRequeued(q.timed)}))
  {
    var b' := Next(b, e);
    assert ThreadOk(b, b.phase[e.t], b.lock.pc[e.t]);
    Lock.SignalMovesExactly(b.lock, e.t, -1, e.woken);
    assert u !in Lock.CondQueue(b'.lock);
    Lock.WakeAllMoves(b.lock, e.woken, u);
  }

  lemma BroadcastThread(b: Barrier, e: Event, u: Handle)
    requires Inv(b) && Enabled(b, e) && b.phase[e.t].Broadcasting?
    requires u in b.phase && u != e.t
    ensures u in Next(b, e).phase && u in Next(b, e).lock.pc
    ensures ThreadOk(Next(b, e), Next(b, e).phase[u], Next(b, e).lock.pc[u])
    ensures !Counted(Next(b, e).phase[u], Next(b, e).lock.pc[u])
  {
    BroadcastMoves(b, e, u);
    BroadcastFields(b, e);
    hide Next, Lock.Inv, Enabled;
    assert ThreadOk(b, b.phase[e.t], b.lock.pc[e.t]);
    assert ThreadOk(b, b.phase[u], b.lock.pc[u]);
    if b.lock.pc[u].Held? { OnlyOneHolds(b, u, e.t); }
  }

  lemma BroadcastFields(b: Barrier, e: Event)
    requires Enabled(b, e) && b.phase[e.t].Broadcasting?
    ensures var b' := Next(b, e);
      && b'.released && b'.arrivals == b.arrivals && b'.arriveCount == b.arriveCount
      && b'.numberToWait == b.numberToWait
  {
  }

  lemma BroadcastKeeps(b: Barrier, e: Event)
    requires Inv(b) && Enabled(b, e) && b.phase[e.t].Broadcasting?
    ensures Inv(Next(b, e))
  {
    var b' := Next(b, e);
    LockKeeps(b, e);
    OwnKept(b, e);
    assert ThreadOk(b, b.phase[e.t], b.lock.pc[e.t]);
    forall u: Handle | u in b'.phase
      ensures ThreadOk(b', b'.phase[u], b'.lock.pc[u]) && u !in Pending(b')
    {
      if u != e.t { BroadcastThread(b, e, u); }
    }
    assert Pending(b') == {};
  }

  lemma PlainThread(b: Barrier, e: Event, u: Handle)
    requires Inv(b) && Enabled(b, e) && u in b.phase
    requires !b.phase[e.t].Incrementing? && !b.phase[e.t].Broadcasting?
    ensures u in Next(b, e).phase && u in Next(b, e).lock.pc
    ensures ThreadOk(Next(b, e), Next(b, e).phase[u], Next(b, e).lock.pc[u])
    ensures Counted(Next(b, e).phase[u], Next(b, e).lock.pc[u]) <==> Counted(b.phase[u], b.lock.pc[u])
  {
    LockKeeps(b, e);
    if u != e.t {
      assert ThreadOk(b, b.phase[u], b.lock.pc[u]);
      OthersKept(b, e, u);
    } else {
      OwnKept(b, e);
      OwnCounted(b, e);
    }
  }

  lemma PlainStepKeeps(b: Barrier, e: Event)
    requires Inv(b) && Enabled(b, e)
    requires !b.phase[e.t].Incrementing? && !b.phase[e.t].Broadcasting?
    ensures Inv(Next(b, e))
  {
    hide Next, Enabled, Lock.Inv, ThreadOk, Counted;
    var b' := Next(b, e);
    LockKeeps(b, e);
    KeysStay(b, e);
    forall u: Handle | u in b'.phase
      ensures ThreadOk(b', b'.phase[u], b'.lock.pc[u])
      ensures u in Pending(b') <==> u in Pending(b)
    {
      PlainThread(b, e, u);
    }
    assert Pending(b') == Pending(b);
    PlainFields(b, e);
    if !b.released && b.arrivals == b.numberToWait > 0 {
      var u: Handle :| u in b.phase && (b.phase[u].Comparing? || b.phase[u].Broadcasting?);
      LastStays(b, e, u);
    }
  }

  lemma KeysStay(b: Barrier, e: Event)
    requires Enabled(b, e)
    ensures Next(b, e).phase.Keys == b.phase.Keys
  {
    hide Lock.Next, Lock.Enabled;
  }

  lemma PlainFields(b: Barrier, e: Event)
    requires Enabled(b, e) && !b.phase[e.t].Incrementing? && !b.phase[e.t].Broadcasting?
    ensures Next(b, e) == b.(lock := Next(b, e).lock, phase := Next(b, e).phase)
  {
  }

  /** The thread that is to broadcast stays on its way. */
  lemma LastStays(b: Barrier, e: Event, u: Handle)
    requires Inv(b) && Enabled(b, e) && !b.phase[e.t].Incrementing? && !b.phase[e.t].Broadcasting?
    requires b.arrivals == b.numberToWait && u in b.phase && (b.phase[u].Comparing? || b.phase[u].Broadcasting?)
    ensures u in Next(b, e).phase && (Next(b, e).phase[u].Comparing? || Next(b, e).phase[u].Broadcasting?)
  {
    hide Lock.Inv;
    assert ThreadOk(b, b.phase[u], b.lock.pc[u]);
  }

  lemma OwnCounted(b: Barrier, e: Event)
    requires Inv(b) && Enabled(b, e)
    requires !b.phase[e.t].Incrementing? && !b.phase[e.t].Broadcasting?
    ensures Counted(NextPhase(b, e.t), Next(b, e).lock.pc[e.t]) <==> Counted(b.phase[e.t], b.lock.pc[e.t])
  {
    assert ThreadOk(b, b.phase[e.t], b.lock.pc[e.t]);
  }

  lemma StepKeeps(b: Barrier, e: Event)
    requires Inv(b) && Enabled(b, e) && Next(b, e).arrivals < UINT32
    ensures Inv(Next(b, e))
  {
    if b.phase[e.t].Incrementing? {
      IncrementKeeps(b, e);
    } else if b.phase[e.t].Broadcasting? {
      BroadcastKeeps(b, e);
    } else {
      PlainStepKeeps(b, e);
    }
  }

  // ---- Runs

  ghost predicate ValidRun(b: Barrier, es: seq<Event>)
    decreases |es|
  {
    es == [] || (Enabled(b, es[0]) && ValidRun(Next(b, es[0]), es[1..]))
  }

  ghost function Run(b: Barrier, es: seq<Event>): Barrier
    requires ValidRun(b, es)
    decreases |es|
  {
    if es == [] then b else Run(Next(b, es[0]), es[1..])
  }

  lemma KeysKept(b: Barrier, e: Event)
    requires b.lock.pc.Keys == b.phase.Keys && Enabled(b, e)
    ensures Next(b, e).lock.pc.Keys == Next(b, e).phase.Keys
  {
    if LockEvent(b, e).Some? {
      Lock.ThreadMoves(b.lock, LockEvent(b, e).value, e.t);
    }
  }

  /** The lock's own code, from Enter to the owner and from Leave to the end. */
  lemma EnterSteps(b: Barrier, e: Event)
    requires b.lock.pc.Keys == b.phase.Keys && Enabled(b, e) && b.phase[e.t].Entering? && Lock.Entering(b.lock.pc[e.t])
    ensures var q := Next(b, e).lock.pc;
      e.t in q && (Lock.Entering(q[e.t]) || q[e.t].EnterAsleep? || q[e.t].Held?)
  {
  }

  lemma LockStepOnly(b: Barrier, e: Event)
    requires b.lock.pc.Keys == b.phase.Keys && Enabled(b, e)
    requires
      || (b.phase[e.t].Entering? && !b.lock.pc[e.t].Held?)
      || (b.phase[e.t].Leaving? && Lock.Running(b.lock.pc[e.t]))
    ensures LockEvent(b, e) == Some(Lock.Step(e.t, e.next))
    ensures Next(b, e) == b.(lock := Lock.Next(b.lock, Lock.Step(e.t, e.next)))
  {
    assert b.phase[e.t := b.phase[e.t]] == b.phase;
  }

  lemma LeaveSteps(b: Barrier, e: Event)
    requires b.lock.pc.Keys == b.phase.Keys && Enabled(b, e) && b.phase[e.t].Leaving?
    requires b.lock.pc[e.t].LeaveCas? || b.lock.pc[e.t].LeaveArbitrate?
    ensures var q := Next(b, e).lock.pc;
      e.t in q && (q[e.t].LeaveArbitrate? || q[e.t].Idle?)
  {
  }

  /** One more step at the end of a run. */
  lemma {:induction false} RunSnoc(b: Barrier, es: seq<Event>, e: Event)
    requires ValidRun(b, es) && Enabled(Run(b, es), e)
    ensures ValidRun(b, es + [e]) && Run(b, es + [e]) == Next(Run(b, es), e)
    decreases |es|
  {
    hide Enabled, Next;
    if es == [] {
      assert es + [e] == [e] && [e][1..] == [];
    } else {
      assert (es + [e])[0] == es[0] && (es + [e])[1..] == es[1..] + [e];
      RunSnoc(Next(b, es[0]), es[1..], e);
    }
  }

  ghost predicate Reachable(b: Barrier) {
    exists b0: Barrier, es: seq<Event> :: Init(b0) && ValidRun(b0, es) && Run(b0, es) == b
  }

  lemma {:induction false} RunKeeps(b: Barrier, es: seq<Event>)
    requires ValidRun(b, es)
    ensures b.arrivals <= Run(b, es).arrivals
    ensures Inv(b) && Run(b, es).arrivals < UINT32 ==> Inv(Run(b, es))
    decreases |es|
  {
    if es == [] {
    } else {
      RunKeeps(Next(b, es[0]), es[1..]);
      if Inv(b) && Run(b, es).arrivals < UINT32 {
        StepKeeps(b, es[0]);
      }
    }
  }

  lemma InitInv(b: Barrier)
    requires Init(b)
    ensures Inv(b)
  {
    WordFacts(0);
    assert Pending(b) == {};
  }

  lemma ReachableInv(b: Barrier)
    requires Reachable(b) && b.arrivals < UINT32
    ensures Inv(b)
  {
    var b0: Barrier, es: seq<Event> :| Init(b0) && ValidRun(b0, es) && Run(b0, es) == b;
    InitInv(b0);
    RunKeeps(b0, es);
  }

  // ---- Main results

  /** Nobody gets past the barrier before the N-th arrival, and only the first N
      arrivals ever do. */
  lemma OnlyTheFirstN(b: Barrier, t: Handle)
    requires Reachable(b) && b.arrivals < UINT32 && t in b.phase
    requires b.phase[t].Leaving? || b.phase[t].Returned?
    ensures b.arrivals >= b.numberToWait && 1 <= b.phase[t].ticket <= b.numberToWait
  {
    ReachableInv(b);
    assert ThreadOk(b, b.phase[t], b.lock.pc[t]);
  }

  /** Whenever the lock is free, the condition variable's queue holds all arrivals
      if there are fewer than N of them, and exactly the late ones otherwise; so
      every one of the first N has been let through. With N zero, all wait for ever. */
  lemma QueueWhenFree(b: Barrier)
    requires Reachable(b) && b.arrivals < UINT32 && b.lock.image == 0
    ensures b.released <==> b.arrivals >= b.numberToWait > 0
    ensures |Lock.CondQueue(b.lock)| ==
            if b.arrivals < b.numberToWait then b.arrivals else b.arrivals - b.numberToWait
    ensures forall t: Handle :: t in b.phase && b.phase[t].Waiting? && b.released ==>
              t in Lock.CondQueue(b.lock) && b.phase[t].ticket > b.numberToWait
    ensures forall t: Handle :: t in b.phase ==>
              !b.phase[t].Comparing? && !b.phase[t].Broadcasting? && !b.phase[t].AboutToWait?
  {
    hide Lock.Inv, Lock.ThreadOk, ThreadOk;
    ReachableInv(b);
    forall t: Handle | t in b.phase
      ensures !Lock.Inside(b.lock.pc[t]) && !Lock.LockAsleep(b.lock.pc[t]) && ThreadOk(b, b.phase[t], b.lock.pc[t])
      ensures t in Pending(b) <==> t in Lock.CondQueue(b.lock)
      ensures !b.phase[t].Comparing? && !b.phase[t].Broadcasting? && !b.phase[t].AboutToWait?
      ensures b.phase[t].Waiting? && b.released ==>
                t in Lock.CondQueue(b.lock) && b.phase[t].ticket > b.numberToWait
    {
      FreeThread(b, t);
    }
    assert Pending(b) == Lock.CondQueue(b.lock);
  }

  lemma FreeThread(b: Barrier, t: Handle)
    requires Inv(b) && b.lock.image == 0 && t in b.phase
    ensures !Lock.Inside(b.lock.pc[t]) && !Lock.LockAsleep(b.lock.pc[t]) && ThreadOk(b, b.phase[t], b.lock.pc[t])
    ensures t in Pending(b) <==> t in Lock.CondQueue(b.lock)
    ensures !b.phase[t].Comparing? && !b.phase[t].Broadcasting? && !b.phase[t].AboutToWait?
    ensures b.phase[t].Waiting? && b.released ==> t in Lock.CondQueue(b.lock) && b.phase[t].ticket > b.numberToWait
  {
    WordFacts(0);
    assert Lock.ThreadOk(b.lock.image, t, b.lock.pc[t]);
    assert ThreadOk(b, b.phase[t], b.lock.pc[t]);
  }

  lemma CountedIsQueued(b: Barrier, t: Handle, u: Handle)
    requires Inv(b) && t in b.phase && b.lock.pc[t].Held? && u in b.phase && u != t
    ensures u in Pending(b) <==> u in Lock.CondQueue(b.lock)
  {
    hide Lock.Inv;
    MoverFacts(b, u);
    if b.lock.pc[u].Held? { OnlyOneHolds(b, t, u); }
  }

  /** The thread that broadcasts is the N-th arrival, and it does so once. */
  lemma BroadcastOnce(b: Barrier, t: Handle)
    requires Reachable(b) && b.arrivals < UINT32 && t in b.phase && b.phase[t].Broadcasting?
    ensures b.phase[t].ticket == b.arrivals == b.numberToWait && !b.released
    ensures |Lock.CondQueue(b.lock)| == b.numberToWait - 1
  {
    hide Lock.Inv;
    ReachableInv(b);
    MoverFacts(b, t);
    forall u: Handle | u in b.phase && u != t
      ensures u in Pending(b) <==> u in Lock.CondQueue(b.lock)
    {
      CountedIsQueued(b, t, u);
    }
    assert Pending(b) == Lock.CondQueue(b.lock) + {t};
  }
}
