/** Progress of user events: every call that is awake can return, a run that leaves nobody
    but the waiters of a lowered signal, and a waiter that the single wakeup leaves behind. */
module UserEventProgress {
  import opened Basics
  import opened LockWord
  import Lock = LockProtocol
  import opened UserEvent

  /** Threads that may still raise the signal and wake a waiter. */
  predicate MaySignal(p: Phase) {
    p == Entering(Signal) || p.SignalTest? || p.SignalSet? || p.SignalWake?
  }

  function Signallers(v: Event): set<Handle> {
    set t: Handle | t in v.phase && MaySignal(v.phase[t])
  }

  /** In a call, and not waiting for a signal. */
  predicate Busy(p: Phase, q: Lock.Pc) {
    !p.Outside? && !(p.Waiting? && q.CondAsleep?)
  }

  function BusyThreads(v: Event): set<Handle>
    requires v.lock.pc.Keys == v.phase.Keys
  {
    set t: Handle | t in v.phase && Busy(v.phase[t], v.lock.pc[t])
  }

  function Owner(v: Event): Word {
    OwnerBits(v.lock.image)
  }

  /** How far an owner is from having given the lock up. */
  function Rank(p: Phase, q: Lock.Pc): nat {
    match p
    case Entering(_) => if q.Held? then 10 else 11
    case Waiting => 10
    case WaitTest => 9
    case WaitClear => 8
    case WaitStore => 7
    case QueryRead => 9
    case QueryClear(_) => 8
    case SignalTest => 9
    case SignalSet => 8
    case SignalWake => 7
    case ClearWrite => 9
    case AboutToWait => 3
    case Leaving(_) => if q.Held? then 2 else if q.LeaveCas? then 1 else 0
    case Outside => 0
  }

  function OwnerRank(v: Event): nat {
    if Owner(v) in v.phase && Owner(v) in v.lock.pc then Rank(v.phase[Owner(v)], v.lock.pc[Owner(v)]) else 0
  }

  /** A step towards the end: fewer threads that may signal, or fewer that are busy, or
      the same ones closer to the end. */
  ghost predicate Closer(v: Event, v': Event)
    requires v.lock.pc.Keys == v.phase.Keys && v'.lock.pc.Keys == v'.phase.Keys
  {
    || Signallers(v') < Signallers(v)
    || (Signallers(v') == Signallers(v) && BusyThreads(v') < BusyThreads(v))
    || (&& Signallers(v') == Signallers(v) && BusyThreads(v') == BusyThreads(v)
        && if v.lock.image == 0 then v'.lock.image != 0 || Lock.Misled(v'.lock) < Lock.Misled(v.lock)
           else v'.lock.image != 0 && OwnerRank(v') < OwnerRank(v))
  }

  /** What a step does to the signallers. */
  lemma SignallersShrink(v: Event, m: Move)
    requires Enabled(v, m) && !v.phase[m.t].Outside?
    ensures Signallers(Next(v, m)) <= Signallers(v)
    ensures v.phase[m.t].SignalWake? ==> Signallers(Next(v, m)) < Signallers(v)
  {
    hide Lock.Next, Lock.Enabled, NextLock;
    var v' := Next(v, m);
    assert v.phase[m.t].SignalWake? ==> m.t in Signallers(v) && m.t !in Signallers(v');
  }

  /** And to the busy threads: nobody but a waiter who is signalled joins them. */
  lemma BusyShrink(v: Event, m: Move)
    requires Inv(v) && Enabled(v, m) && !v.phase[m.t].Outside? && !v.phase[m.t].SignalWake?
    ensures Inv(Next(v, m)) && BusyThreads(Next(v, m)) <= BusyThreads(v)
    ensures m.t in NextLock(v, m).pc && m.t in BusyThreads(v)
    ensures forall u: Handle :: u in BusyThreads(v) && u != m.t ==> u in BusyThreads(Next(v, m))
  {
    hide Lock.Inv, Lock.Next, Lock.Enabled;
    StepKeeps(v, m);
    MoverBusy(v, m);
    forall u: Handle | u in v.phase && u != m.t
      ensures u in BusyThreads(Next(v, m)) <==> u in BusyThreads(v)
    {
      OthersKept(v, m, u);
    }
  }

  lemma MoverBusy(v: Event, m: Move)
    requires v.lock.pc.Keys == v.phase.Keys && Enabled(v, m) && !v.phase[m.t].Outside?
    ensures m.t in BusyThreads(v)
  {
    hide Lock.Next, Lock.Enabled;
  }

  // ---- One step on a free lock

  lemma FreeBusyEnters(v: Event, t: Handle)
    requires Inv(v) && v.lock.image == 0 && t in BusyThreads(v)
    ensures v.phase[t].Entering? && Lock.Entering(v.lock.pc[t]) && Lock.LockQueue(v.lock) == {}
  {
    WordFacts(0);
    forall u: Handle | u in v.phase ensures !Lock.Inside(v.lock.pc[u]) && !Lock.LockAsleep(v.lock.pc[u]) {
      FreeMeansNobodyInside(v, u);
    }
    assert ThreadOk(v, v.phase[t], v.lock.pc[t]);
  }

  /** It takes the lock, or is misled no longer. */
  lemma FreeStep(v: Event, t: Handle)
    requires Inv(v) && v.lock.image == 0 && t in BusyThreads(v)
    ensures var m := Move(t, Wait, None, []);
      && Enabled(v, m) && !v.phase[t].Outside? && !v.phase[t].SignalWake?
      && (NextLock(v, m).image != 0 || Lock.Misled(NextLock(v, m)) < Lock.Misled(v.lock))
  {
    hide Lock.Inv, Lock.Next, Lock.Enabled, Lock.Misled;
    FreeBusyEnters(v, t);
    Lock.FreeEnterStep(v.lock, t, None);
  }

  // ---- One step of the owner

  lemma OwnerPlaced(v: Event)
    requires Inv(v) && v.lock.image != 0
    ensures var t := Owner(v);
      && t in v.phase && t in v.lock.pc && !Lock.Without(v.lock.pc[t]) && ThreadOk(v, v.phase[t], v.lock.pc[t])
      && !v.phase[t].Outside? && t in BusyThreads(v)
  {
    var t := Owner(v);
    WordFacts(v.lock.image);
    assert t in v.lock.pc && t in v.phase;
    assert Lock.ThreadOk(v.lock.image, t, v.lock.pc[t]);
    assert ThreadOk(v, v.phase[t], v.lock.pc[t]);
  }

  /** The lock when the owner has gone. */
  function LockWithout(v: Event, t: Handle): Lock.System
    requires t in v.lock.pc && t in v.phase
  {
    v.lock.(pc := v.lock.pc[t := if v.phase[t].AboutToWait? then Lock.CondAsleep(false) else Lock.Idle])
  }

  ghost function OwnerMove(v: Event, t: Handle): Move
    requires t in v.lock.pc && t in v.phase
  {
    Move(t, Wait, Lock.Choose(LockWithout(v, t)), AnyOf(Lock.CondQueue(v.lock)))
  }

  /** One of them, if there is any. */
  ghost function AnyOf(s: set<Handle>): (us: seq<Handle>)
    ensures us == [] <==> s == {}
    ensures us != [] ==> |us| == 1 && us[0] in s
  {
    if s == {} then [] else var u: Handle :| u in s; [u]
  }

  /** The owner gets closer to the end, or is done, or has woken somebody. */
  ghost predicate Forward(v: Event, v': Event)
    requires v.lock.pc.Keys == v.phase.Keys && v'.lock.pc.Keys == v'.phase.Keys
  {
    || Owner(v) !in BusyThreads(v')
    || (v'.lock.image != 0 && Owner(v') == Owner(v) && OwnerRank(v') < OwnerRank(v))
  }

  lemma ForwardInRank(v: Event, v': Event)
    requires v.lock.pc.Keys == v.phase.Keys && v'.lock.pc.Keys == v'.phase.Keys
    requires v.lock.image == v'.lock.image != 0
    requires Owner(v) in v.phase && Owner(v) in v'.phase
    requires var t := Owner(v); Rank(v'.phase[t], v'.lock.pc[t]) < Rank(v.phase[t], v.lock.pc[t])
    ensures Forward(v, v')
  {
    hide Rank, Busy, BusyThreads;
  }

  lemma ForwardWhenDone(v: Event, v': Event)
    requires v.lock.pc.Keys == v.phase.Keys && v'.lock.pc.Keys == v'.phase.Keys
    requires Owner(v) in v'.phase && v'.phase[Owner(v)].Outside?
    ensures Forward(v, v')
  {
    hide OwnerRank;
  }

  lemma OwnerLeaves(v: Event)
    requires Inv(v) && v.lock.image != 0
    requires Owner(v) in v.phase && Owner(v) in v.lock.pc && v.phase[Owner(v)].Leaving?
    ensures var m := OwnerMove(v, Owner(v));
      Enabled(v, m) && Next(v, m).lock.pc.Keys == Next(v, m).phase.Keys && Forward(v, Next(v, m))
  {
    hide Forward, BusyThreads, Busy, Next, NextLock, Enabled, OwnerMove, Lock.Inv;
    LeaveStep(v);
    var v' := Next(v, OwnerMove(v, Owner(v)));
    if v'.lock.pc[Owner(v)].Idle? {
      ForwardWhenDone(v, v');
    } else {
      ForwardInRank(v, v');
    }
  }

  /** One step of Leave: to the exchange, to the kernel, or out. */
  lemma LeaveStep(v: Event)
    requires Inv(v) && v.lock.image != 0
    requires Owner(v) in v.phase && Owner(v) in v.lock.pc && v.phase[Owner(v)].Leaving?
    ensures var t, m := Owner(v), OwnerMove(v, Owner(v));
      && Enabled(v, m) && Next(v, m).lock.pc.Keys == Next(v, m).phase.Keys == v.phase.Keys
      && var q, q' := v.lock.pc[t], Next(v, m).lock.pc[t];
      if q'.Idle? then Next(v, m).phase[t].Outside?
      else
        && Next(v, m).lock.image == v.lock.image && Next(v, m).phase[t] == v.phase[t]
        && ((q.Held? && q'.LeaveCas?) || (q.LeaveCas? && q'.LeaveArbitrate?))
  {
    hide Forward, BusyThreads, Busy, Rank;
    OwnerPlaced(v);
    var t, m := Owner(v), OwnerMove(v, Owner(v));
    var le := if v.lock.pc[t].Held? then Lock.CallLeave(t) else Lock.Step(t, m.next);
    Lock.OwnerLeaveStep(v.lock, t);
    LeaveInEvent(v, m, le);
    KeysKept(v, m);
  }

  lemma LeaveInEvent(v: Event, m: Move, e: Lock.Event)
    requires m.t in v.phase && m.t in v.lock.pc && v.phase[m.t].Leaving? && Lock.Inside(v.lock.pc[m.t])
    requires e == if v.lock.pc[m.t].Held? then Lock.CallLeave(m.t) else Lock.Step(m.t, m.next)
    requires Lock.Enabled(v.lock, e) && m.t in Lock.Next(v.lock, e).pc
    ensures Enabled(v, m) && Next(v, m).lock == Lock.Next(v.lock, e)
    ensures Next(v, m).phase
            == v.phase[m.t := if Lock.Next(v.lock, e).pc[m.t].Idle? then Outside else v.phase[m.t]]
  {
    hide Lock.Next, Lock.Enabled;
  }

  lemma OwnerEnters(v: Event)
    requires Inv(v) && v.lock.image != 0
    requires Owner(v) in v.phase && Owner(v) in v.lock.pc && v.phase[Owner(v)].Entering?
    ensures var m := OwnerMove(v, Owner(v));
      Enabled(v, m) && Next(v, m).lock.pc.Keys == Next(v, m).phase.Keys && Forward(v, Next(v, m))
  {
    hide Forward, BusyThreads, Busy;
    EnterStep(v);
    ForwardInRank(v, Next(v, OwnerMove(v, Owner(v))));
  }

  lemma EnterStep(v: Event)
    requires Inv(v) && v.lock.image != 0
    requires Owner(v) in v.phase && Owner(v) in v.lock.pc && v.phase[Owner(v)].Entering?
    ensures var t, m := Owner(v), OwnerMove(v, Owner(v));
      && Enabled(v, m) && Next(v, m).lock.pc.Keys == Next(v, m).phase.Keys == v.phase.Keys
      && NextLock(v, m).image == v.lock.image && NextLock(v, m).pc[t].Held?
      && Next(v, m).phase[t] == if v.lock.pc[t].Held? then Opening(v.phase[t].op) else v.phase[t]
  {
    hide Forward, BusyThreads, Busy, Rank, Lock.Inv, Lock.Next, Lock.Enabled;
    OwnerPlaced(v);
    var t := Owner(v);
    if !v.lock.pc[t].Held? { Lock.OwnerEnterStep(v.lock, t, OwnerMove(v, t).next); }
  }

  lemma OwnerWaits(v: Event)
    requires Inv(v) && v.lock.image != 0
    requires Owner(v) in v.phase && Owner(v) in v.lock.pc && v.phase[Owner(v)].AboutToWait?
    ensures var m := OwnerMove(v, Owner(v));
      Enabled(v, m) && Next(v, m).lock.pc.Keys == Next(v, m).phase.Keys && Forward(v, Next(v, m))
  {
    var t := Owner(v);
    var m := OwnerMove(v, t);
    OwnerPlaced(v);
    Lock.WaitReleasesAndEnqueues(v.lock, t, false, m.next);
    assert t in Lock.CondQueue(NextLock(v, m));
    KeysKept(v, m);
  }

  predicate IsStatement(p: Phase) {
    !p.Outside? && !p.Leaving? && !p.Entering? && !p.AboutToWait? && !p.SignalWake?
  }

  lemma OwnerStatement(v: Event)
    requires Inv(v) && v.lock.image != 0
    requires Owner(v) in v.phase && Owner(v) in v.lock.pc && IsStatement(v.phase[Owner(v)])
    ensures var m := OwnerMove(v, Owner(v));
      Enabled(v, m) && Next(v, m).lock.pc.Keys == Next(v, m).phase.Keys && Forward(v, Next(v, m))
  {
    hide Lock.Inv, Lock.Next, Lock.Enabled, Forward, BusyThreads, Busy, Next, NextPhase, Rank, Attended, Remaining;
    OwnerPlaced(v);
    var m := OwnerMove(v, Owner(v));
    MoveOf(v, Owner(v));
    StatementStep(v, m);
    ForwardInRank(v, Next(v, m));
  }

  lemma StatementStep(v: Event, m: Move)
    requires m.t in v.phase && m.t in v.lock.pc && IsStatement(v.phase[m.t]) && !Lock.Asleep(v.lock.pc[m.t])
    ensures Enabled(v, m) && Next(v, m).lock == v.lock && Next(v, m).phase == v.phase[m.t := NextPhase(v, m)]
    ensures Rank(NextPhase(v, m), v.lock.pc[m.t]) < Rank(v.phase[m.t], v.lock.pc[m.t])
  {
    hide Lock.Next, Lock.Enabled;
  }

  lemma OwnerWakes(v: Event)
    requires Inv(v) && v.lock.image != 0
    requires Owner(v) in v.phase && Owner(v) in v.lock.pc && v.phase[Owner(v)].SignalWake?
    ensures Enabled(v, OwnerMove(v, Owner(v)))
  {
    hide Lock.Inv;
    OwnerPlaced(v);
  }

  lemma OwnerGoesForward(v: Event)
    requires Inv(v) && v.lock.image != 0
    ensures Owner(v) in v.phase && Owner(v) in v.lock.pc && !v.phase[Owner(v)].Outside?
    ensures var m := OwnerMove(v, Owner(v));
      && Enabled(v, m)
      && (!v.phase[Owner(v)].SignalWake? ==>
            Next(v, m).lock.pc.Keys == Next(v, m).phase.Keys && Forward(v, Next(v, m)))
  {
    hide Lock.Inv, Next, Enabled, Forward, OwnerMove;
    OwnerPlaced(v);
    var p := v.phase[Owner(v)];
    if p.Leaving? {
      OwnerLeaves(v);
    } else if p.Entering? {
      OwnerEnters(v);
    } else if p.AboutToWait? {
      OwnerWaits(v);
    } else if p.SignalWake? {
      OwnerWakes(v);
    } else {
      OwnerStatement(v);
    }
  }

  // ---- The whole way

  /** A step towards the end, which exists as long as anybody is busy. */
  lemma StepCloser(v: Event) returns (m: Move)
    requires Inv(v) && BusyThreads(v) != {}
    ensures Enabled(v, m) && !v.phase[m.t].Outside?
    ensures Inv(Next(v, m)) && Closer(v, Next(v, m))
  {
    hide Inv, Next, Enabled, Forward, OwnerMove, Lock.Misled, OwnerRank, Busy, MaySignal;
    InvKeys(v);
    if v.lock.image == 0 {
      var t: Handle :| t in BusyThreads(v);
      m := Move(t, Wait, None, []);
      FreeStep(v, t);
    } else {
      OwnerGoesForward(v);
      m := OwnerMove(v, Owner(v));
      MoveOf(v, Owner(v));
    }
    StepKeeps(v, m);
    InvKeys(Next(v, m));
    SignallersShrink(v, m);
    if !v.phase[m.t].SignalWake? {
      BusyShrink(v, m);
      CloserBy(v, m);
    }
  }

  lemma InvKeys(v: Event)
    requires Inv(v)
    ensures v.lock.pc.Keys == v.phase.Keys
  {
  }

  lemma MoveOf(v: Event, t: Handle)
    requires t in v.lock.pc && t in v.phase
    ensures OwnerMove(v, t).t == t
  {
  }

  lemma CloserBy(v: Event, m: Move)
    requires Enabled(v, m) && v.lock.pc.Keys == v.phase.Keys && Next(v, m).lock.pc.Keys == Next(v, m).phase.Keys
    requires Signallers(Next(v, m)) <= Signallers(v) && BusyThreads(Next(v, m)) <= BusyThreads(v)
    requires m.t in BusyThreads(v)
    requires
      if v.lock.image == 0 then NextLock(v, m).image != 0 || Lock.Misled(NextLock(v, m)) < Lock.Misled(v.lock)
      else m.t == Owner(v) && Forward(v, Next(v, m))
    ensures Closer(v, Next(v, m))
  {
    hide NextPhase, Lock.Misled, OwnerRank, Busy, MaySignal, Lock.Next, Lock.Enabled, LockEvent;
  }

  /** A run in which nobody begins a new call. */
  ghost predicate NoNewCalls(v: Event, ms: seq<Move>)
    requires ValidRun(v, ms)
    decreases |ms|
  {
    ms != [] ==> !v.phase[ms[0].t].Outside? && NoNewCalls(Next(v, ms[0]), ms[1..])
  }

  lemma {:induction false} GoOn(v: Event) returns (ms: seq<Move>)
    requires Inv(v)
    ensures ValidRun(v, ms) && NoNewCalls(v, ms)
    ensures Inv(Run(v, ms)) && BusyThreads(Run(v, ms)) == {}
    decreases Signallers(v), BusyThreads(v), if v.lock.image == 0 then 1 else 0,
              if v.lock.image == 0 then Lock.Misled(v.lock) else {}, if v.lock.image == 0 then 0 else OwnerRank(v)
  {
    hide Next, Enabled, Signallers, BusyThreads, Lock.Misled, OwnerRank;
    hide Lock.Inv, ThreadOk, Conserved, Attended, Remaining;
    if BusyThreads(v) == {} {
      ms := [];
    } else {
      var m := StepCloser(v);
      var rest := GoOn(Next(v, m));
      ms := [m] + rest;
      assert ms[1..] == rest;
    }
  }

  // ---- Main results

  /** A call of ClearUserEvent that has not cleared yet. */
  predicate MayClear(p: Phase) {
    p == Entering(Clear) || p.ClearWrite?
  }

  /** The signal of a manual-reset event is up, and nobody is about to clear it. */
  predicate Up(v: Event) {
    !v.isAutoClear && v.isSignaled && forall t: Handle :: t in v.phase ==> !MayClear(v.phase[t])
  }

  lemma StepKeepsUp(v: Event, m: Move)
    requires Inv(v) && Enabled(v, m) && !v.phase[m.t].Outside? && Up(v)
    ensures Up(Next(v, m)) && Next(v, m).queuedAtRaise == v.queuedAtRaise
  {
    hide Lock.Inv, Lock.Next, Lock.Enabled, Attended, Conserved, Remaining;
    assert ThreadOk(v, v.phase[m.t], v.lock.pc[m.t]);
    assert !MayClear(v.phase[m.t]);
  }

  lemma {:induction false} RunKeepsUp(v: Event, ms: seq<Move>)
    requires Inv(v) && ValidRun(v, ms) && NoNewCalls(v, ms)
    ensures Run(v, ms).isAutoClear == v.isAutoClear
    ensures Up(v) ==> Up(Run(v, ms)) && Run(v, ms).queuedAtRaise == v.queuedAtRaise
    decreases |ms|
  {
    hide Inv, Enabled, Up, NextPhase, NextLock, NextSignal;
    if ms != [] {
      StepKeeps(v, ms[0]);
      if Up(v) { StepKeepsUp(v, ms[0]); }
      RunKeepsUp(Next(v, ms[0]), ms[1..]);
    }
  }

  /** At rest: the lock is free, and whoever is in a call waits for a signal. */
  predicate AtRest(v: Event) {
    v.lock.image == 0 && forall t: Handle :: t in v.phase ==>
      v.phase[t].Outside? || (v.phase[t].Waiting? && t in Lock.CondQueue(v.lock))
  }

  lemma NobodyBusy(v: Event)
    requires Inv(v) && BusyThreads(v) == {}
    ensures AtRest(v)
    ensures v.isAutoClear && v.isSignaled ==> Lock.CondQueue(v.lock) == {}
    ensures v.isSignaled ==> |Lock.CondQueue(v.lock)| == LeftBehind(v)
  {
    if v.lock.image != 0 { OwnerPlaced(v); }
    forall t: Handle | t in v.phase
      ensures v.phase[t].Outside? || (v.phase[t].Waiting? && v.lock.pc[t].CondAsleep?)
    {
      assert t !in BusyThreads(v);
    }
  }

  /** From every reachable state a run exists, without any new call, at whose end the
      event is at rest. If it clears itself and its signal is up then, every call has
      returned. If it is reset by hand, and its signal up with nobody about to clear it,
      all have returned but the waiters that the raise left behind. */
  lemma CallsReturn(v: Event) returns (ms: seq<Move>)
    requires Reachable(v)
    ensures ValidRun(v, ms) && NoNewCalls(v, ms)
    ensures AtRest(Run(v, ms)) && Run(v, ms).isAutoClear == v.isAutoClear
    ensures v.isAutoClear && Run(v, ms).isSignaled ==> Lock.CondQueue(Run(v, ms).lock) == {}
    ensures Up(v) ==> Run(v, ms).isSignaled && |Lock.CondQueue(Run(v, ms).lock)| == LeftBehind(v)
  {
    hide Inv, AtRest;
    ReachableInv(v);
    ms := GoOn(v);
    RunKeepsUp(v, ms);
    NobodyBusy(Run(v, ms));
  }

  // ---- A waiter left behind

  lemma StepReached(v: Event, m: Move)
    requires Reachable(v) && Enabled(v, m)
    ensures Reachable(Next(v, m))
  {
    hide Enabled, Next, Init;
    var v0: Event, ms: seq<Move> :| Init(v0) && ValidRun(v0, ms) && Run(v0, ms) == v;
    RunSnoc(v0, ms, m);
  }

  lemma {:induction false} RunReached(v: Event, ms: seq<Move>)
    requires Reachable(v) && ValidRun(v, ms)
    ensures Reachable(Run(v, ms))
    decreases |ms|
  {
    hide Enabled, Next, Reachable;
    if ms != [] {
      StepReached(v, ms[0]);
      RunReached(Next(v, ms[0]), ms[1..]);
    }
  }

  /** Nobody in the lock, and thread t about to call. */
  predicate Ready(v: Event, t: Handle) {
    && v.lock.pc.Keys == v.phase.Keys && v.lock.image == 0 && Lock.LockQueue(v.lock) == {}
    && t in v.phase && v.phase[t].Outside? && v.lock.pc[t].Idle?
  }

  /** Inside, before its first statement. */
  function Opened(v: Event, t: Handle, op: Operation): Event {
    v.(lock := Lock.System(t, v.lock.pc[t := Lock.Held]), phase := v.phase[t := Opening(op)])
  }

  /** On a free lock, Enter takes three steps. */
  lemma Enters(v: Event, t: Handle, op: Operation)
    requires Reachable(v) && Ready(v, t)
    ensures Reachable(Opened(v, t, op))
  {
    hide Reachable, Enabled, Next;
    var m := Move(t, op, None, []);
    var v1 := v.(lock := v.lock.(pc := v.lock.pc[t := Lock.EnterCas]), phase := v.phase[t := Entering(op)]);
    var v2 := v1.(lock := Lock.System(t, v1.lock.pc[t := Lock.Held]));
    var v3 := v2.(phase := v2.phase[t := Opening(op)]);
    CallsEnter(v, m, v1);
    StepReached(v, m);
    TakesLock(v1, m, v2);
    StepReached(v1, m);
    OpensCall(v2, m, v3);
    StepReached(v2, m);
    assert v2.lock.pc == v.lock.pc[t := Lock.Held];
    assert v3.phase == v.phase[t := Opening(op)];
  }

  lemma CallsEnter(v: Event, m: Move, v': Event)
    requires Ready(v, m.t)
    requires v' == v.(lock := v.lock.(pc := v.lock.pc[m.t := Lock.EnterCas]), phase := v.phase[m.t := Entering(m.op)])
    ensures Enabled(v, m) && Next(v, m) == v'
  {
  }

  lemma TakesLock(v: Event, m: Move, v': Event)
    requires v.lock.pc.Keys == v.phase.Keys && v.lock.image == 0
    requires m.t in v.phase && v.phase[m.t] == Entering(m.op) && v.lock.pc[m.t].EnterCas?
    requires v' == v.(lock := Lock.System(m.t, v.lock.pc[m.t := Lock.Held]))
    ensures Enabled(v, m) && Next(v, m) == v'
  {
    assert v.phase[m.t := v.phase[m.t]] == v.phase;
  }

  lemma OpensCall(v: Event, m: Move, v': Event)
    requires v.lock.pc.Keys == v.phase.Keys
    requires m.t in v.phase && v.phase[m.t] == Entering(m.op) && v.lock.pc[m.t].Held?
    requires v' == v.(phase := v.phase[m.t := Opening(m.op)])
    ensures Enabled(v, m) && Next(v, m) == v'
  {
    hide Lock.Next, Lock.Enabled;
  }

  /** Asleep in Wait, the lock being free. */
  function Sleeping(v: Event, t: Handle): Event {
    v.(lock := Lock.System(0, v.lock.pc[t := Lock.CondAsleep(false)]), phase := v.phase[t := Waiting])
  }

  /** With the signal down, WaitUserEvent ends up asleep. */
  lemma FallsAsleep(v: Event, t: Handle)
    requires Reachable(v) && Ready(v, t) && !v.isSignaled
    ensures Reachable(Sleeping(v, t))
  {
    hide Reachable, Enabled, Next;
    var m := Move(t, Wait, None, []);
    var v1 := Opened(v, t, Wait);
    var v2 := v1.(phase := v1.phase[t := AboutToWait]);
    Enters(v, t, Wait);
    TestFails(v1, m, v2);
    StepReached(v1, m);
    GivesUpLock(v2, m, Sleeping(v2, t), v);
    StepReached(v2, m);
    assert Sleeping(v2, t).phase == Sleeping(v, t).phase;
    assert Sleeping(v2, t).lock.pc == Sleeping(v, t).lock.pc;
  }

  lemma TestFails(v: Event, m: Move, v': Event)
    requires m.t in v.phase && m.t in v.lock.pc && v.phase[m.t].WaitTest? && v.lock.pc[m.t].Held? && !v.isSignaled
    requires v' == v.(phase := v.phase[m.t := AboutToWait])
    ensures Enabled(v, m) && Next(v, m) == v'
  {
    hide Lock.Next, Lock.Enabled;
  }

  lemma GivesUpLock(v: Event, m: Move, v': Event, before: Event)
    requires m.t in v.phase && m.t in v.lock.pc && v.phase[m.t].AboutToWait? && v.lock.pc[m.t].Held? && m.next.None?
    requires Lock.LockQueue(before.lock) == {} && v.lock.pc == before.lock.pc[m.t := Lock.Held]
    requires v' == Sleeping(v, m.t)
    ensures Enabled(v, m) && Next(v, m) == v'
  {
    var s := v.lock.(pc := v.lock.pc[m.t := Lock.CondAsleep(false)]);
    forall u: Handle | u in s.pc ensures u !in Lock.LockQueue(s) {
      assert u !in Lock.LockQueue(before.lock);
    }
  }

  /** Until it wakes somebody, SignalUserEvent with the signal down. */
  lemma Raises(v: Event, t: Handle) returns (v': Event)
    requires Reachable(v) && Ready(v, t) && !v.isSignaled && !v.isAutoClear
    ensures Reachable(v') && v'.phase == v.phase[t := SignalWake] && v'.isSignaled && !v'.isAutoClear
    ensures v'.queuedAtRaise == |Lock.CondQueue(v.lock)|
  {
    hide Reachable, Enabled, Next;
    var m := Move(t, Signal, None, []);
    var v1 := Opened(v, t, Signal);
    var v2 := v1.(phase := v1.phase[t := SignalSet]);
    v' := Raised(v2, t);
    Enters(v, t, Signal);
    SeesItDown(v1, m, v2);
    StepReached(v1, m);
    SetsIt(v2, m, v');
    StepReached(v2, m);
    assert Lock.CondQueue(v2.lock) == Lock.CondQueue(v.lock);
  }

  function Raised(v: Event, t: Handle): Event {
    v.(isSignaled := true, phase := v.phase[t := SignalWake], raised := v.raised + 1,
       queuedAtRaise := |Lock.CondQueue(v.lock)|)
  }

  lemma SeesItDown(v: Event, m: Move, v': Event)
    requires m.t in v.phase && m.t in v.lock.pc && v.phase[m.t].SignalTest? && v.lock.pc[m.t].Held? && !v.isSignaled
    requires v' == v.(phase := v.phase[m.t := SignalSet])
    ensures Enabled(v, m) && Next(v, m) == v'
  {
    hide Lock.Next, Lock.Enabled;
  }

  lemma SetsIt(v: Event, m: Move, v': Event)
    requires m.t in v.phase && m.t in v.lock.pc && v.phase[m.t].SignalSet? && v.lock.pc[m.t].Held? && !v.isSignaled
    requires v' == Raised(v, m.t)
    ensures Enabled(v, m) && Next(v, m) == v'
  {
    hide Lock.Next, Lock.Enabled;
  }

  lemma ThreeOutside() returns (v: Event)
    ensures Reachable(v) && !v.isSignaled && !v.isAutoClear && v.lock.image == 0
    ensures v.phase == map[1 := Outside, 2 := Outside, 3 := Outside]
    ensures v.lock.pc == map[1 := Lock.Idle, 2 := Lock.Idle, 3 := Lock.Idle]
  {
    v := Event(false, false, Lock.System(0, map[1 := Lock.Idle, 2 := Lock.Idle, 3 := Lock.Idle]),
               map[1 := Outside, 2 := Outside, 3 := Outside], false, 0, 0, 0, 0, 0);
    assert Init(v) && ValidRun(v, []) && Run(v, []) == v;
  }

  lemma TwoAsleep() returns (v: Event)
    ensures Reachable(v) && Ready(v, 3) && !v.isSignaled && !v.isAutoClear
    ensures v.phase == map[1 := Waiting, 2 := Waiting, 3 := Outside]
    ensures Lock.CondQueue(v.lock) == {1, 2}
  {
    hide Reachable;
    var v0 := ThreeOutside();
    FallsAsleep(v0, 1);
    FallsAsleep(Sleeping(v0, 1), 2);
    v := Sleeping(Sleeping(v0, 1), 2);
  }

  /** Two threads wait for a manual-reset event, a third signals it, and every call goes
      on as far as it can: the signal is up, the lock free, and one of the two asleep. */
  lemma WaiterLeftBehind() returns (v: Event, t: Handle)
    ensures Reachable(v) && !v.isAutoClear && v.lock.image == 0 && v.isSignaled
    ensures t in v.phase && v.phase[t].Waiting? && t in Lock.CondQueue(v.lock)
  {
    hide Reachable, Run, ValidRun, NoNewCalls;
    var asleep := TwoAsleep();
    var raised := Raises(asleep, 3);
    var ms := CallsReturn(raised);
    v := Run(raised, ms);
    RunReached(raised, ms);
    assert |Lock.CondQueue(v.lock)| == 1;
    t :| t in Lock.CondQueue(v.lock);
    SleeperWaits(v, t);
  }

  lemma SleeperWaits(v: Event, t: Handle)
    requires Reachable(v) && t in Lock.CondQueue(v.lock)
    ensures t in v.phase && v.phase[t].Waiting?
  {
    ReachableInv(v);
    assert ThreadOk(v, v.phase[t], v.lock.pc[t]);
  }
}
