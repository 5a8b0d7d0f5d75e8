/** Progress of the barrier: once N threads have arrived, the successive owners of the
    lock need only go on for every one of the first N to return. */
module BarrierProgress {
  import opened Basics
  import opened LockWord
  import Lock = LockProtocol
  import opened M = Barrier

  /** An arrival with its number. */
  predicate Arrived(p: Phase) {
    !p.Outside? && !p.Entering? && !p.Incrementing?
  }

  /** The threads that are about to arrive. */
  function Coming(b: Barrier): set<Handle> {
    set t: Handle | t in b.phase && (b.phase[t].Entering? || b.phase[t].Incrementing?)
  }

  /** A run in which nobody calls AwaitBarrier anew. */
  ghost predicate NoNewCalls(b: Barrier, es: seq<Event>)
    requires ValidRun(b, es)
    decreases |es|
  {
    es != [] ==>
      && !b.phase[es[0].t].Outside? && !b.phase[es[0].t].Returned?
      && NoNewCalls(Next(b, es[0]), es[1..])
  }

  /** What every step of such a run keeps: the number of an arrival, and room to count. */
  ghost predicate Follows(b: Barrier, b': Barrier) {
    && Inv(b') && b'.numberToWait == b.numberToWait && b.phase.Keys <= b'.phase.Keys
    && b'.arrivals + |Coming(b')| <= b.arrivals + |Coming(b)|
    && b'.arrivals >= b.arrivals
    && (b.released ==> b'.released)
    && forall u: Handle :: u in b.phase && Arrived(b.phase[u]) ==>
         Arrived(b'.phase[u]) && b'.phase[u].ticket == b.phase[u].ticket
  }

  predicate HasRoom(b: Barrier) {
    b.arrivals + |Coming(b)| < UINT32
  }

  /** A step moves its own thread only, and never towards an arrival. */
  lemma OnlyOneMoves(b: Barrier, e: Event)
    requires Enabled(b, e) && !b.phase[e.t].Outside? && !b.phase[e.t].Returned?
    ensures Next(b, e).phase == b.phase[e.t := NextPhase(b, e.t)]
    ensures NextPhase(b, e.t).Entering? || NextPhase(b, e.t).Incrementing? ==> b.phase[e.t].Entering?
    ensures Next(b, e).arrivals == b.arrivals + if b.phase[e.t].Incrementing? then 1 else 0
  {
    hide Lock.Next, Lock.Enabled;
  }

  lemma ComingStep(b: Barrier, e: Event)
    requires Inv(b) && Enabled(b, e) && !b.phase[e.t].Outside? && !b.phase[e.t].Returned?
    ensures Next(b, e).arrivals + |Coming(Next(b, e))| <= b.arrivals + |Coming(b)|
    ensures b.phase[e.t].Incrementing? ==> e.t in Coming(b) && |Coming(b)| >= 1
  {
    hide Inv, Next, NextPhase;
    OnlyOneMoves(b, e);
    var c, c' := Coming(b), Coming(Next(b, e));
    if b.phase[e.t].Incrementing? {
      assert c' == c - {e.t};
    } else {
      assert c' <= c;
      SubsetSize(c', c);
    }
  }

  lemma StepFollows(b: Barrier, e: Event)
    requires Inv(b) && HasRoom(b) && Enabled(b, e) && !b.phase[e.t].Outside? && !b.phase[e.t].Returned?
    ensures Follows(b, Next(b, e)) && HasRoom(Next(b, e))
  {
    hide Inv, Enabled, Coming, LockEvent;
    ComingStep(b, e);
    RoomToStep(b, e);
    StepKeeps(b, e);
    PhasesKept(b, e);
  }

  lemma RoomToStep(b: Barrier, e: Event)
    requires Inv(b) && HasRoom(b) && Enabled(b, e) && !b.phase[e.t].Outside? && !b.phase[e.t].Returned?
    ensures b.arrivals <= Next(b, e).arrivals < UINT32
  {
    hide Inv;
    ComingStep(b, e);
  }

  lemma PhasesKept(b: Barrier, e: Event)
    requires Inv(b) && Enabled(b, e) && !b.phase[e.t].Outside? && !b.phase[e.t].Returned?
    ensures b.phase.Keys <= Next(b, e).phase.Keys && Next(b, e).numberToWait == b.numberToWait
    ensures b.released ==> Next(b, e).released
    ensures forall u: Handle :: u in b.phase && Arrived(b.phase[u]) ==>
      Arrived(Next(b, e).phase[u]) && Next(b, e).phase[u].ticket == b.phase[u].ticket
  {
    hide Inv;
  }

  /** The broadcast has happened, or is not awaited at all. */
  predicate Past(b: Barrier) {
    b.released || b.numberToWait == 0
  }

  // ---- One step of the owner

  ghost function LockAfter(b: Barrier, t: Handle): Lock.System
    requires t in b.lock.pc && t in b.phase
  {
    b.lock.(pc := b.lock.pc[t := if b.phase[t].AboutToWait? then Lock.CondAsleep(false) else Lock.Idle])
  }

  /** What the owner does next, with some legal choice of the kernel. */
  ghost function OwnerEvent(b: Barrier, t: Handle): Event
    requires t in b.lock.pc && t in b.phase
  {
    Event(t, Lock.Choose(LockAfter(b, t)), [])
  }

  /** How far an owner is from having given the lock up. */
  function Rank(p: Phase, q: Lock.Pc): nat {
    match p
    case Entering => if q.Held? then 7 else 8
    case Incrementing(_) => 6
    case Comparing(_) => 5
    case AboutToWait(_) => 4
    case Waiting(_) => 4
    case Leaving(_) => if q.Held? then 3 else if q.LeaveCas? then 2 else 1
    case _ => 0
  }

  function Owner(b: Barrier): Word {
    OwnerBits(b.lock.image)
  }

  /** Either a sleeper was taken off the lock's queue, or the queue is the same and the
      word is free, or the same owner is closer to the end. */
  ghost predicate Closer(b: Barrier, b': Barrier)
    requires b.lock.image != 0 && Owner(b) in b.phase && Owner(b) in b.lock.pc
    requires Owner(b) in b'.phase && Owner(b) in b'.lock.pc
  {
    || Lock.LockQueue(b'.lock) < Lock.LockQueue(b.lock)
    || (Lock.LockQueue(b'.lock) == Lock.LockQueue(b.lock) && b'.lock.image == 0)
    || (Lock.LockQueue(b'.lock) == Lock.LockQueue(b.lock) && b'.lock.image != 0 && Owner(b') == Owner(b)
        && Rank(b'.phase[Owner(b)], b'.lock.pc[Owner(b)]) < Rank(b.phase[Owner(b)], b.lock.pc[Owner(b)]))
  }

  lemma OwnerPlaced(b: Barrier)
    requires Inv(b) && b.lock.image != 0
    ensures var t := Owner(b);
      && t in b.phase && t in b.lock.pc && !Lock.Without(b.lock.pc[t]) && ThreadOk(b, b.phase[t], b.lock.pc[t])
      && !b.phase[t].Outside? && !b.phase[t].Returned? && !Lock.Asleep(b.lock.pc[t])
  {
    var t := Owner(b);
    assert t in b.lock.pc && t in b.phase;
    assert Lock.ThreadOk(b.lock.image, t, b.lock.pc[t]);
    assert ThreadOk(b, b.phase[t], b.lock.pc[t]);
  }

  /** Steps of the lock's own code. */
  lemma OwnerLockStep(b: Barrier)
    requires Inv(b) && b.lock.image != 0
    requires Owner(b) in b.phase && Owner(b) in b.lock.pc
    requires var t := Owner(b); b.phase[t].Leaving? || (b.phase[t].Entering? && !b.lock.pc[t].Held?)
    ensures var e := OwnerEvent(b, Owner(b));
      && Enabled(b, e) && Owner(b) in Next(b, e).phase && Owner(b) in Next(b, e).lock.pc
      && Closer(b, Next(b, e))
  {
    var t := Owner(b);
    OwnerPlaced(b);
    Lock.OwnerAdvances(b.lock, t);
    Lock.ThreadMoves(b.lock, Lock.OwnerEvent(b.lock, t), t);
    LockEventIs(b);
  }

  lemma LockEventIs(b: Barrier)
    requires Inv(b) && b.lock.image != 0
    requires Owner(b) in b.phase && Owner(b) in b.lock.pc
    requires var t := Owner(b); b.phase[t].Leaving? || (b.phase[t].Entering? && !b.lock.pc[t].Held?)
    ensures LockEvent(b, OwnerEvent(b, Owner(b))) == Some(Lock.OwnerEvent(b.lock, Owner(b)))
  {
    OwnerPlaced(b);
  }

  /** The steps between Enter and the wait: the barrier's own, which leave the lock. */
  lemma OwnerFieldStep(b: Barrier)
    requires Inv(b) && b.lock.image != 0 && Past(b)
    requires Owner(b) in b.phase && Owner(b) in b.lock.pc
    requires var p, q := b.phase[Owner(b)], b.lock.pc[Owner(b)];
      (p.Entering? && q.Held?) || p.Incrementing? || p.Comparing? || p.Waiting?
    ensures var e := OwnerEvent(b, Owner(b));
      && Enabled(b, e) && Owner(b) in Next(b, e).phase && Owner(b) in Next(b, e).lock.pc
      && Closer(b, Next(b, e))
  {
    hide Lock.Inv;
    OwnerPlaced(b);
    if b.phase[Owner(b)].Comparing? { LateComer(b, Owner(b)); }
  }

  /** From then on, a thread that compares is none of the first N. */
  lemma LateComer(b: Barrier, t: Handle)
    requires Inv(b) && Past(b) && t in b.phase && b.phase[t].Comparing?
    ensures b.arriveCount != b.numberToWait
  {
    assert ThreadOk(b, b.phase[t], b.lock.pc[t]);
    assert t in Pending(b);
  }

  /** The wait, which hands the lock on. */
  lemma OwnerWaits(b: Barrier)
    requires Inv(b) && b.lock.image != 0
    requires Owner(b) in b.phase && Owner(b) in b.lock.pc && b.phase[Owner(b)].AboutToWait?
    ensures var e := OwnerEvent(b, Owner(b));
      && Enabled(b, e) && Owner(b) in Next(b, e).phase && Owner(b) in Next(b, e).lock.pc
      && Closer(b, Next(b, e))
  {
    var t := Owner(b);
    var e := OwnerEvent(b, t);
    OwnerPlaced(b);
    assert Lock.LockQueue(LockAfter(b, t)) == Lock.LockQueue(b.lock);
    Lock.WaitReleasesAndEnqueues(b.lock, t, false, e.next);
    Lock.ThreadMoves(b.lock, Lock.Wait(t, false, e.next), t);
    if e.next.None? {
      QueueEmpty(b, t);
    }
  }

  lemma QueueEmpty(b: Barrier, t: Handle)
    requires t in b.lock.pc && t in b.phase && Lock.LockQueue(b.lock) == {}
    ensures Lock.LockQueue(b.lock.(image := 0, pc := b.lock.pc[t := Lock.CondAsleep(false)])) == {}
  {
    forall u: Handle | u in b.lock.pc ensures u !in Lock.LockQueue(b.lock) {
    }
  }

  lemma OwnerMoves(b: Barrier)
    requires Inv(b) && b.lock.image != 0 && Past(b)
    ensures Owner(b) in b.phase && Owner(b) in b.lock.pc
    ensures !b.phase[Owner(b)].Outside? && !b.phase[Owner(b)].Returned?
    ensures var e := OwnerEvent(b, Owner(b));
      && Enabled(b, e) && Owner(b) in Next(b, e).phase && Owner(b) in Next(b, e).lock.pc
      && Closer(b, Next(b, e))
  {
    hide Lock.Inv, Closer, Enabled, Next, OwnerEvent;
    OwnerPlaced(b);
    var p, q := b.phase[Owner(b)], b.lock.pc[Owner(b)];
    if p.Leaving? || (p.Entering? && !q.Held?) {
      OwnerLockStep(b);
    } else if p.AboutToWait? {
      OwnerWaits(b);
    } else {
      OwnerFieldStep(b);
    }
  }

  // ---- The whole way

  ghost predicate Settled(b: Barrier, f: Barrier) {
    forall t: Handle :: t in b.phase && Arrived(b.phase[t]) && b.phase[t].ticket <= b.numberToWait ==>
      t in f.phase && f.phase[t] == Returned(b.phase[t].ticket)
  }

  lemma SettledBefore(a: Barrier, b: Barrier, f: Barrier)
    requires Follows(a, b) && Settled(b, f)
    ensures Settled(a, f)
  {
    hide Inv, Arrived, Coming;
  }

  function LeavingThreads(b: Barrier): set<Handle> {
    set t: Handle | t in b.phase && b.phase[t].Leaving?
  }

  /** With the lock free, whoever has been let through has given it up. */
  lemma FreeMeansOut(b: Barrier, t: Handle)
    requires Inv(b) && b.lock.image == 0 && Past(b) && t in b.phase
    ensures b.phase[t].Leaving? ==> b.lock.pc[t].Idle?
    ensures Arrived(b.phase[t]) && b.phase[t].ticket <= b.numberToWait ==> b.phase[t].Leaving? || b.phase[t].Returned?
  {
    WordFacts(0);
    assert ThreadOk(b, b.phase[t], b.lock.pc[t]);
    assert Lock.ThreadOk(b.lock.image, t, b.lock.pc[t]);
  }

  lemma ReturnStep(b: Barrier, t: Handle)
    requires Inv(b) && b.lock.image == 0 && Past(b) && t in b.phase && b.phase[t].Leaving?
    ensures var e := Event(t, None, []);
      && Enabled(b, e)
      && Next(b, e) == b.(phase := b.phase[t := Returned(b.phase[t].ticket)])
  {
    FreeMeansOut(b, t);
  }

  /** The last step of each of them. */
  lemma {:induction false} AllReturn(b: Barrier) returns (es: seq<Event>)
    requires Inv(b) && HasRoom(b) && Past(b) && b.lock.image == 0
    ensures ValidRun(b, es) && NoNewCalls(b, es)
    ensures Run(b, es).lock.image == 0 && Settled(b, Run(b, es))
    decreases LeavingThreads(b)
  {
    hide Inv, Coming, Follows, Enabled, Next;
    if t: Handle :| t in LeavingThreads(b) {
      var e := Event(t, None, []);
      ReturnStep(b, t);
      StepFollows(b, e);
      var b' := Next(b, e);
      StepInv(b, b');
      assert LeavingThreads(b') == LeavingThreads(b) - {t};
      var rest := AllReturn(b');
      es := [e] + rest;
      assert es[1..] == rest;
      SettledBefore(b, b', Run(b', rest));
    } else {
      es := [];
      forall t: Handle | t in b.phase && Arrived(b.phase[t]) && b.phase[t].ticket <= b.numberToWait
        ensures b.phase[t] == Returned(b.phase[t].ticket)
      {
        FreeMeansOut(b, t);
        assert t !in LeavingThreads(b);
      }
    }
  }

  lemma StepInv(b: Barrier, b': Barrier)
    requires Follows(b, b')
    ensures Inv(b')
  {
  }

  lemma {:induction false} OwnersGoOn(b: Barrier) returns (es: seq<Event>)
    requires Inv(b) && HasRoom(b) && Past(b)
    ensures ValidRun(b, es) && NoNewCalls(b, es)
    ensures Run(b, es).lock.image == 0 && Settled(b, Run(b, es))
    decreases Lock.LockQueue(b.lock), if b.lock.image == 0 then 0 else 1,
      if b.lock.image != 0 && Owner(b) in b.phase && Owner(b) in b.lock.pc
      then Rank(b.phase[Owner(b)], b.lock.pc[Owner(b)]) else 0
  {
    hide Inv, Coming, Follows, Enabled, Next, Rank, OwnerEvent;
    if b.lock.image == 0 {
      es := AllReturn(b);
    } else {
      OwnerMoves(b);
      var e := OwnerEvent(b, Owner(b));
      var b' := Next(b, e);
      EventOf(b, Owner(b));
      StepFollows(b, e);
      StepReleased(b, b');
      var rest := OwnersGoOn(b');
      es := [e] + rest;
      assert es[1..] == rest;
      SettledBefore(b, b', Run(b', rest));
    }
  }

  lemma EventOf(b: Barrier, t: Handle)
    requires t in b.lock.pc && t in b.phase
    ensures OwnerEvent(b, t).t == t
  {
  }

  lemma StepReleased(b: Barrier, b': Barrier)
    requires Follows(b, b') && Past(b)
    ensures Past(b') && Inv(b')
  {
  }

  lemma {:induction false} Enumerate(s: set<Handle>) returns (us: seq<Handle>)
    ensures Distinct(us) && |us| == |s| && forall u: Handle :: u in us <==> u in s
    decreases s
  {
    if u: Handle :| u in s {
      var rest := Enumerate(s - {u});
      us := [u] + rest;
    } else {
      us := [];
    }
  }

  lemma ReleaseStep(b: Barrier, t: Handle) returns (e: Event)
    requires Inv(b) && !b.released && b.arrivals == b.numberToWait && t in b.phase
    requires b.phase[t].Comparing? || b.phase[t].Broadcasting?
    ensures e.t == t && Enabled(b, e) && t in Next(b, e).phase
    ensures b.phase[t].Comparing? ==> Next(b, e).phase[t].Broadcasting? && !Next(b, e).released
                                      && Next(b, e).arrivals == b.arrivals
    ensures b.phase[t].Broadcasting? ==> Next(b, e).released
  {
    assert ThreadOk(b, b.phase[t], b.lock.pc[t]);
    var woken := Enumerate(Lock.CondQueue(b.lock));
    e := Event(t, None, woken);
  }

  /** One step in front of a run that settles everything. */
  lemma StepThen(b: Barrier, e: Event, rest: seq<Event>) returns (es: seq<Event>)
    requires Inv(b) && HasRoom(b) && Enabled(b, e) && !b.phase[e.t].Outside? && !b.phase[e.t].Returned?
    requires ValidRun(Next(b, e), rest) && NoNewCalls(Next(b, e), rest)
    requires Run(Next(b, e), rest).lock.image == 0 && Settled(Next(b, e), Run(Next(b, e), rest))
    ensures ValidRun(b, es) && NoNewCalls(b, es) && Run(b, es).lock.image == 0 && Settled(b, Run(b, es))
  {
    hide Inv, Coming, Follows, Enabled, Next;
    es := [e] + rest;
    assert es[1..] == rest;
    StepFollows(b, e);
    SettledBefore(b, Next(b, e), Run(Next(b, e), rest));
  }

  lemma {:induction false} ReleaseAndGoOn(b: Barrier, t: Handle) returns (es: seq<Event>)
    requires Inv(b) && HasRoom(b) && !b.released && b.arrivals == b.numberToWait && t in b.phase
    requires b.phase[t].Comparing? || b.phase[t].Broadcasting?
    ensures ValidRun(b, es) && NoNewCalls(b, es) && Run(b, es).lock.image == 0 && Settled(b, Run(b, es))
    decreases if b.phase[t].Comparing? then 1 else 0
  {
    hide Inv, Coming, Enabled, Next;
    var e := ReleaseStep(b, t);
    StepFollows(b, e);
    var b' := Next(b, e);
    var rest;
    if b.phase[t].Comparing? {
      rest := ReleaseAndGoOn(b', t);
    } else {
      rest := OwnersGoOn(b');
    }
    es := StepThen(b, e, rest);
  }

  /** From every reachable state in which N threads have arrived, and with room left to
      count those who are about to arrive: a run exists, without any new call, at whose
      end the lock is free and every one of the first N arrivals has returned. */
  lemma FirstNReturn(b: Barrier) returns (es: seq<Event>)
    requires Reachable(b) && b.arrivals >= b.numberToWait && HasRoom(b)
    ensures ValidRun(b, es) && NoNewCalls(b, es)
    ensures Run(b, es).lock.image == 0
    ensures forall t: Handle :: t in b.phase && Arrived(b.phase[t]) && b.phase[t].ticket <= b.numberToWait ==>
      t in Run(b, es).phase && Run(b, es).phase[t] == Returned(b.phase[t].ticket)
  {
    ReachableInv(b);
    if Past(b) {
      es := OwnersGoOn(b);
    } else {
      var t: Handle :| t in b.phase && (b.phase[t].Comparing? || b.phase[t].Broadcasting?);
      es := ReleaseAndGoOn(b, t);
    }
  }
}
