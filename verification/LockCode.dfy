/** The functions of CriticalSection and ConditionVariableImpl in their own form,
    run by one thread while the others do as they please, and proved to be runs of
    the lock protocol. */
module LockCode {
  import opened Basics
  import opened LockWord
  import opened LockProtocol

  /** One entry of a schedule: this thread's turn, or an event of another thread. */
  datatype Turn = Mine | Other(e: Event)

  /** The events that come after earlier ones. */
  function Since(trace: seq<Event>, earlier: seq<Event>): seq<Event>
    requires earlier <= trace
  {
    trace[|earlier|..]
  }

  lemma SinceSplits(a: seq<Event>, b: seq<Event>, c: seq<Event>)
    requires a <= b <= c
    ensures Since(c, a) == Since(b, a) + Since(c, b)
  {
  }

  ghost predicate Woken(t: Handle, events: seq<Event>) {
    exists e: Event :: e in events && e.Signal? && t in e.woken
  }

  lemma WokenStays(t: Handle, a: seq<Event>, b: seq<Event>)
    ensures Woken(t, a) || Woken(t, b) <==> Woken(t, a + b)
  {
    if Woken(t, a) {
      var e: Event :| e in a && e.Signal? && t in e.woken;
      assert e in a + b;
    }
    if Woken(t, b) {
      var e: Event :| e in b && e.Signal? && t in e.woken;
      assert e in a + b;
    }
  }

  /** The shared word, the positions of all threads, and the rest of an arbitrary
      finite schedule. A call whose schedule runs out returns early and says so. */
  class CriticalSection {
    var image: Word
    var pc: map<Handle, Pc>
    var schedule: seq<Turn>
    ghost var start: System
    ghost var trace: seq<Event>

    ghost function State(): System
      reads this
    {
      System(image, pc)
    }

    /** What happened since start is a run of the protocol that ends here. */
    ghost predicate Valid()
      reads this
    {
      Inv(State()) && Init(start) && ValidRun(start, trace) && Run(start, trace) == State()
    }

    /** What is proved about reachable states holds of the present one. */
    lemma IsReachable()
      requires Valid()
      ensures Reachable(State())
    {
      hide Init, ValidRun, Run, Inv;
    }

    constructor (threads: set<Handle>, schedule: seq<Turn>)
      ensures Valid() && Init(State()) && pc.Keys == threads && this.schedule == schedule
      ensures start == State() && trace == []
    {
      image := 0;
      pc := map t: Handle | t in threads :: Idle;
      this.schedule := schedule;
      start := System(0, map t: Handle | t in threads :: Idle);
      trace := [];
    }

    /** Adds one event, which took the system from before to the present state. */
    ghost method Record(before: System, e: Event)
      requires Init(start) && ValidRun(start, trace) && Run(start, trace) == before
      requires Inv(before) && Enabled(before, e) && State() == Next(before, e)
      modifies this`trace
      ensures Valid() && trace == old(trace) + [e]
    {
      StepKeeps(before, e);
      assert ValidRun(Next(before, e), [e][1..]);
      RunAppend(start, trace, [e]);
      trace := trace + [e];
    }

    /** Moves this thread to the first operation of a call. */
    method Begin(self: Handle, e: Event)
      requires Valid() && Enabled(State(), e) && e.t == self
      requires e.CallEnter? || e.CallTryEnter? || e.CallLeave?
      modifies this`pc, this`trace
      ensures Valid() && trace == old(trace) + [e]
      ensures pc == old(pc)[self := if e.CallEnter? then EnterCas else if e.CallTryEnter? then TryCas else LeaveCas]
    {
      ghost var before := State();
      pc := pc[self := if e.CallEnter? then EnterCas else if e.CallTryEnter? then TryCas else LeaveCas];
      Record(before, e);
    }

    /** An event of another thread. */
    method Perform(self: Handle, e: Event)
      requires Valid() && self in pc && Enabled(State(), e) && e.t != self
      modifies this`image, this`pc, this`trace
      ensures Valid() && self in pc && trace == old(trace) + [e]
      ensures
        || pc[self] == old(pc[self])
        || (LockAsleep(old(pc[self])) && pc[self] == Resumed(old(pc[self])))
        || (old(pc[self]).CondAsleep? && pc[self] in {Held, CondRequeued(old(pc[self]).timed)}
            && e.Signal? && self in e.woken)
    {
      ghost var before := State();
      ThreadMoves(before, e, self);
      var after := Next(System(image, pc), e);
      image, pc := after.image, after.pc;
      Record(before, e);
    }

    /** Runs the others until the scheduler picks this thread while it is awake. */
    method AwaitTurn(self: Handle) returns (mine: bool)
      requires Valid() && self in pc
      modifies this
      ensures Valid() && self in pc && start == old(start) && old(trace) <= trace
      ensures |schedule| <= old(|schedule|) && Event.Timeout(self) !in Since(trace, old(trace))
      ensures mine ==> |schedule| < old(|schedule|) && !Asleep(pc[self])
      ensures !mine ==> schedule == []
      ensures !Asleep(old(pc[self])) ==> pc[self] == old(pc[self])
      ensures old(pc[self]).EnterAsleep? ==> pc[self].EnterAsleep? || pc[self].EnterCas?
    {
      while schedule != []
        invariant Valid() && self in pc && start == old(start) && old(trace) <= trace
        invariant |schedule| <= old(|schedule|) && Event.Timeout(self) !in Since(trace, old(trace))
        invariant !Asleep(old(pc[self])) ==> pc[self] == old(pc[self])
        invariant old(pc[self]).EnterAsleep? ==> pc[self].EnterAsleep? || pc[self].EnterCas?
        decreases |schedule|
      {
        var turn := schedule[0];
        schedule := schedule[1..];
        if turn.Mine? {
          if !Asleep(pc[self]) {
            return true;
          }
        } else if turn.e.t != self && Enabled(System(image, pc), turn.e) {
          Perform(self, turn.e);
        }
      }
      mine := false;
    }

    method CompareExchange(expected: Word, desired: Word) returns (done: bool, observed: Word)
      modifies this`image
      ensures done <==> old(image) == expected
      ensures observed == old(image)
      ensures image == if done then desired else old(image)
    {
      observed := image;
      done := image == expected;
      if done {
        image := desired;
      }
    }

    /** The kernel's side of ArbitrateLock for the calling thread. */
    method ArbitrateLock(owner: Word, self: Handle)
      requires Valid() && self in pc && pc[self] == EnterArbitrate(owner)
      modifies this`pc, this`trace
      ensures Valid() && trace == old(trace) + [Step(self, None)]
      ensures pc == old(pc)[self := if image == WithListeners(owner) then EnterAsleep else EnterCas]
    {
      ghost var before := State();
      pc := pc[self := if image == WithListeners(owner) then EnterAsleep else EnterCas];
      Record(before, Step(self, None));
    }

    /** The compare-exchange that opens an attempt to enter, from 0 to the own handle. */
    method ExchangeToEnter(self: Handle) returns (done: bool, observed: Word)
      requires Valid() && self in pc && pc[self].EnterCas?
      modifies this`image, this`pc, this`trace
      ensures Valid() && self in pc && trace == old(trace) + [Step(self, None)]
      ensures observed == old(image) && (done <==> observed == 0)
      ensures pc[self] ==
              if done || OwnerBits(observed) == self then Held
              else if HasListeners(observed) then EnterArbitrate(OwnerBits(observed))
              else EnterMark(observed)
      ensures pc[self].Held? ==> OwnerBits(image) == self
    {
      ghost var before := State();
      done, observed := CompareExchange(0, self);
      WordFacts(self);
      pc := pc[self := if done || OwnerBits(observed) == self then Held
                       else if HasListeners(observed) then EnterArbitrate(OwnerBits(observed))
                       else EnterMark(observed)];
      Record(before, Step(self, None));
    }

    /** The compare-exchange that announces a sleeper. */
    method ExchangeToMark(self: Handle, observed: Word) returns (done: bool)
      requires Valid() && self in pc && pc[self] == EnterMark(observed)
      modifies this`image, this`pc, this`trace
      ensures Valid() && self in pc && trace == old(trace) + [Step(self, None)]
      ensures done <==> old(image) == observed
      ensures image == if done then observed + 0x4000_0000 else old(image)
      ensures pc[self] == if done then EnterArbitrate(observed) else EnterCas
    {
      ghost var before := State();
      assert ThreadOk(image, self, pc[self]);
      var found;
      done, found := CompareExchange(observed, WithListeners(observed));
      pc := pc[self := if done then EnterArbitrate(observed) else EnterCas];
      Record(before, Step(self, None));
    }

    /** The lost attempt: announce a sleeper unless one is announced, and arbitrate.
        Whatever happens, the thread is back before the first exchange, or asleep. */
    method Contend(self: Handle, observed: Word) returns (mine: bool)
      requires Valid() && self in pc
      requires pc[self] == if HasListeners(observed) then EnterArbitrate(OwnerBits(observed)) else EnterMark(observed)
      modifies this
      ensures Valid() && self in pc && start == old(start) && old(trace) <= trace
      ensures |schedule| <= old(|schedule|) && Event.Timeout(self) !in Since(trace, old(trace))
      ensures mine ==> |schedule| < old(|schedule|) && (pc[self].EnterCas? || pc[self].EnterAsleep?)
      ensures !mine ==> schedule == [] && Acquiring(pc[self])
    {
      mine := AwaitTurn(self);
      if !mine { return; }
      if HasListeners(observed) {
        ArbitrateLock(OwnerBits(observed), self);
      } else {
        var marked := ExchangeToMark(self, observed);
        if marked {
          mine := AwaitTurn(self);
          if !mine { return; }
          ArbitrateLock(observed, self);
        }
      }
    }

    /** The retry loop. */
    method EnterLoop(self: Handle) returns (entered: bool)
      requires Valid() && self in pc && pc[self].EnterCas?
      modifies this
      ensures Valid() && self in pc && start == old(start) && old(trace) <= trace
      ensures Event.Timeout(self) !in Since(trace, old(trace))
      ensures entered ==> pc[self].Held? && OwnerBits(image) == self
      ensures !entered ==> schedule == [] && Acquiring(pc[self])
    {
      while true
        invariant Valid() && self in pc && start == old(start) && old(trace) <= trace
        invariant Event.Timeout(self) !in Since(trace, old(trace))
        invariant pc[self].EnterCas? || pc[self].EnterAsleep?
        decreases |schedule|
      {
        var mine := AwaitTurn(self);
        if !mine { return false; }
        var won, observed := ExchangeToEnter(self);
        if won { return true; }
        if OwnerBits(observed) == self { return true; }
        mine := Contend(self, observed);
        if !mine { return false; }
      }
    }

    method Enter(self: Handle) returns (entered: bool)
      requires Valid() && self in pc && (pc[self].Idle? || pc[self].Held?)
      modifies this
      ensures Valid() && self in pc && start == old(start) && old(trace) <= trace
      ensures entered ==> pc[self].Held? && OwnerBits(image) == self
      ensures !entered ==> schedule == [] && Acquiring(pc[self])
    {
      Begin(self, CallEnter(self));
      entered := EnterLoop(self);
    }

    /** Never blocks; it fails only when another thread owns the lock. */
    method TryEnter(self: Handle) returns (finished: bool, entered: bool)
      requires Valid() && self in pc && (pc[self].Idle? || pc[self].Held?)
      modifies this
      ensures Valid() && self in pc && start == old(start) && old(trace) <= trace
      ensures finished && entered ==> pc[self].Held? && OwnerBits(image) == self
      ensures finished && !entered ==> pc[self].Idle? && image != 0 && OwnerBits(image) != self
      ensures !finished ==> schedule == [] && !entered && pc[self].TryCas?
    {
      Begin(self, CallTryEnter(self));
      finished := AwaitTurn(self);
      if !finished { return false, false; }

      ghost var before := State();
      var won, observed := CompareExchange(0, self);
      WordFacts(self);
      if won {
        pc := pc[self := Held];
        Record(before, Step(self, None));
        return true, true;
      }
      if OwnerBits(observed) == self {
        pc := pc[self := Held];
        Record(before, Step(self, None));
        return true, true;
      }
      pc := pc[self := Idle];
      Record(before, Step(self, None));
      return true, false;
    }

    /** The kernel releases the word; next is the sleeper it chose, if there is one. */
    method Release(next: Option<Handle>)
      requires KernelChoice(State(), next)
      modifies this`image, this`pc
      ensures State() == HandOver(old(State()), next)
    {
      match next
      case None => image := 0;
      case Some(u) =>
        image := if LockQueue(System(image, pc)) == {u} then u else WithListeners(u);
        pc := pc[u := Resumed(pc[u])];
    }

    /** The compare-exchange from the own handle to 0. */
    method ExchangeToLeave(self: Handle) returns (done: bool, observed: Word)
      requires Valid() && self in pc && pc[self].LeaveCas?
      modifies this`image, this`pc, this`trace
      ensures Valid() && self in pc && trace == old(trace) + [Step(self, None)]
      ensures pc[self] == if done then Idle else LeaveArbitrate
      ensures !done ==> HasListeners(observed)
    {
      ghost var before := State();
      assert ThreadOk(image, self, pc[self]);
      WordFacts(image);
      done, observed := CompareExchange(self, 0);
      pc := pc[self := if done then Idle else LeaveArbitrate];
      Record(before, Step(self, None));
    }

    /** The system call that releases the word and wakes the next sleeper. */
    method ArbitrateUnlock(self: Handle, next: System -> Option<Handle>)
      requires Valid() && self in pc && pc[self].LeaveArbitrate?
      requires forall s :: KernelChoice(s, next(s))
      modifies this`image, this`pc, this`trace
      ensures Valid() && self in pc && old(trace) <= trace && pc[self].Idle?
    {
      ghost var before := State();
      pc := pc[self := Idle];
      var chosen := next(System(image, pc));
      Release(chosen);
      Record(before, Step(self, chosen));
    }

    /** Afterwards the caller is idle and, by the invariant, not the owner; a Leave
        that is cut short still holds the lock. */
    method Leave(self: Handle, next: System -> Option<Handle>) returns (left: bool)
      requires Valid() && self in pc && pc[self].Held?
      requires forall s :: KernelChoice(s, next(s))
      modifies this
      ensures Valid() && self in pc && start == old(start) && old(trace) <= trace
      ensures left ==> pc[self].Idle? && OwnerBits(image) != self
      ensures !left ==> schedule == [] && Inside(pc[self]) && OwnerBits(image) == self
    {
      Begin(self, CallLeave(self));
      left := AwaitTurn(self);
      if left {
        var released, observed := ExchangeToLeave(self);
        if !released {
          if HasListeners(observed) {
            left := AwaitTurn(self);
            if left {
              ArbitrateUnlock(self, next);
            }
          }
        }
      }
      assert ThreadOk(image, self, pc[self]);
    }

    method IsLockedByCurrentThread(self: Handle) returns (locked: bool)
      requires Valid() && self in pc
      ensures Inside(pc[self]) ==> locked
      ensures Without(pc[self]) ==> !locked
    {
      locked := OwnerBits(image) == self;
      assert ThreadOk(image, self, pc[self]);
    }

    /** Signal and Broadcast are one system call each. */
    method SignalProcessWideKey(self: Handle, count: int, woken: seq<Handle>)
      requires Valid() && self in pc && (pc[self].Idle? || pc[self].Held?)
      requires SignalChoice(State(), count, woken)
      modifies this`image, this`pc, this`trace
      ensures Valid() && trace == old(trace) + [Event.Signal(self, count, woken)]
      ensures State() == WakeAll(old(State()), woken)
    {
      hide Init, ValidRun, Run, Inv, WakeAll;
      ghost var before := State();
      var after := WakeAll(System(image, pc), woken);
      image, pc := after.image, after.pc;
      Record(before, Event.Signal(self, count, woken));
    }

    method Signal(self: Handle, woken: seq<Handle>)
      requires Valid() && self in pc && (pc[self].Idle? || pc[self].Held?)
      requires SignalChoice(State(), 1, woken)
      modifies this`image, this`pc, this`trace
      ensures Valid() && trace == old(trace) + [Event.Signal(self, 1, woken)]
      ensures CondQueue(old(State())) != {} ==>
                exists u: Handle :: u in CondQueue(old(State())) && CondQueue(State()) == CondQueue(old(State())) - {u}
    {
      SignalProcessWideKey(self, 1, woken);
      ghost var q := CondQueue(old(State()));
      if q != {} {
        assert |q| >= 1;
        assert |woken| == 1;
        assert woken == [woken[0]] && woken[0] in woken;
        assert (set u: Handle | u in woken) == {woken[0]};
      }
    }

    method Broadcast(self: Handle, woken: seq<Handle>)
      requires Valid() && self in pc && (pc[self].Idle? || pc[self].Held?)
      requires SignalChoice(State(), -1, woken)
      modifies this`image, this`pc, this`trace
      ensures Valid() && trace == old(trace) + [Event.Signal(self, -1, woken)]
      ensures CondQueue(State()) == {}
    {
      SignalMovesExactly(State(), self, -1, woken);
      SignalProcessWideKey(self, -1, woken);
    }

    /** The entry of WaitProcessWideKeyAtomic: release and enqueue in one step. */
    method ReleaseAndEnqueue(self: Handle, timed: bool, next: System -> Option<Handle>)
      requires Valid() && self in pc && pc[self].Held?
      requires forall s :: KernelChoice(s, next(s))
      modifies this`image, this`pc, this`trace
      ensures Valid() && self in pc && pc[self] == CondAsleep(timed)
      ensures old(trace) <= trace && |trace| == |old(trace)| + 1
      ensures trace[|old(trace)|].Wait? && trace[|old(trace)|].t == self && trace[|old(trace)|].timed == timed
    {
      ghost var before := State();
      assert ThreadOk(image, self, pc[self]);
      pc := pc[self := CondAsleep(timed)];
      var chosen := next(System(image, pc));
      Release(chosen);
      Record(before, Event.Wait(self, timed, chosen));
    }

    /** What one entry of the schedule does to a waiter: its timeout strikes, or another
        thread moves. */
    method WaitTurn(self: Handle, timed: bool, turn: Turn) returns (struck: bool)
      requires Valid() && self in pc && pc[self] in {CondAsleep(timed), CondRequeued(timed)}
      modifies this`image, this`pc, this`trace
      ensures Valid() && self in pc && old(trace) <= trace
      ensures struck <==> Event.Timeout(self) in Since(trace, old(trace))
      ensures struck <==> timed && turn == Other(Event.Timeout(self))
      ensures struck ==> pc[self].EnterCas?
      ensures !struck ==> pc[self] in {CondAsleep(timed), CondRequeued(timed), Held}
      ensures !struck && old(pc[self]).CondAsleep? && !pc[self].CondAsleep? ==> Woken(self, Since(trace, old(trace)))
      ensures !struck && old(pc[self]).CondRequeued? ==> !pc[self].CondAsleep?
    {
      struck := false;
      if turn == Other(Event.Timeout(self)) && timed {
        ghost var before := State();
        pc := pc[self := EnterCas];
        Record(before, Event.Timeout(self));
        struck := true;
      } else if turn.Other? && turn.e.t != self && Enabled(System(image, pc), turn.e) {
        Perform(self, turn.e);
        assert turn.e in Since(trace, old(trace));
      }
    }

    /** True once it returned success, which it does only to the owner of the lock, after
        another thread's signal; false if it timed out. */
    method WaitProcessWideKeyAtomic(self: Handle, timed: bool, next: System -> Option<Handle>)
      returns (finished: bool, ok: bool)
      requires Valid() && self in pc && pc[self].Held?
      requires forall s :: KernelChoice(s, next(s))
      modifies this
      ensures Valid() && self in pc && start == old(start) && old(trace) < trace
      ensures trace[|old(trace)|].Wait? && trace[|old(trace)|].t == self && trace[|old(trace)|].timed == timed
      ensures finished && ok ==> pc[self].Held? && OwnerBits(image) == self
      ensures finished ==> (ok <==> Event.Timeout(self) !in Since(trace, old(trace)))
      ensures finished && ok ==> Woken(self, Since(trace, old(trace)))
      ensures finished && !ok ==> timed && pc[self].EnterCas?
      ensures !finished ==> schedule == [] && Acquiring(pc[self])
    {
      ReleaseAndEnqueue(self, timed, next);
      while Asleep(pc[self])
        invariant Valid() && self in pc && start == old(start) && old(trace) < trace
        invariant trace[|old(trace)|].Wait? && trace[|old(trace)|].t == self && trace[|old(trace)|].timed == timed
        invariant pc[self] in {CondAsleep(timed), CondRequeued(timed), Held}
        invariant Event.Timeout(self) !in Since(trace, old(trace))
        invariant !pc[self].CondAsleep? ==> Woken(self, Since(trace, old(trace)))
        decreases |schedule|
      {
        if schedule == [] { return false, false; }
        var turn := schedule[0];
        schedule := schedule[1..];
        ghost var earlier := trace;
        var struck := WaitTurn(self, timed, turn);
        SinceSplits(old(trace), earlier, trace);
        WokenStays(self, Since(earlier, old(trace)), Since(trace, earlier));
        if struck { return true, false; }
      }
      assert ThreadOk(image, self, pc[self]);
      return true, true;
    }

    /** Without a timeout the call returns in one way only: signalled, and owner. */
    method Wait(self: Handle, next: System -> Option<Handle>) returns (finished: bool)
      requires Valid() && self in pc && pc[self].Held?
      requires forall s :: KernelChoice(s, next(s))
      modifies this
      ensures Valid() && self in pc && start == old(start) && old(trace) < trace
      ensures trace[|old(trace)|].Wait? && trace[|old(trace)|].t == self && !trace[|old(trace)|].timed
      ensures finished ==> pc[self].Held? && OwnerBits(image) == self
      ensures finished ==> Woken(self, Since(trace, old(trace)))
      ensures !finished ==> schedule == [] && Acquiring(pc[self])
    {
      var ok;
      finished, ok := WaitProcessWideKeyAtomic(self, false, next);
    }

    /** Signalled or timed out, the caller owns the lock again when the call is over. The
        result tells which: false if and only if the timeout struck, and true only after
        another thread's signal. */
    method WaitTimeout(self: Handle, next: System -> Option<Handle>) returns (finished: bool, signalled: bool)
      requires Valid() && self in pc && pc[self].Held?
      requires forall s :: KernelChoice(s, next(s))
      modifies this
      ensures Valid() && self in pc && start == old(start) && old(trace) < trace
      ensures trace[|old(trace)|].Wait? && trace[|old(trace)|].t == self && trace[|old(trace)|].timed
      ensures finished ==> pc[self].Held? && OwnerBits(image) == self
      ensures finished ==> (signalled <==> Event.Timeout(self) !in Since(trace, old(trace)))
      ensures finished && signalled ==> Woken(self, Since(trace, old(trace)))
      ensures !finished ==> schedule == [] && Acquiring(pc[self])
    {
      finished, signalled := WaitProcessWideKeyAtomic(self, true, next);
      if finished && !signalled {
        ghost var earlier := trace;
        finished := EnterLoop(self);
        SinceSplits(old(trace), earlier, trace);
      }
    }
  }
}
