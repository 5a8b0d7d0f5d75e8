/** AwaitBarrier in its own form, run by one thread while the others do as they
    please, and proved to be a run of the barrier's step machine. */
module BarrierCode {
  import opened Basics
  import opened LockWord
  import Lock = LockProtocol
  import M = Barrier

  /** One entry of a schedule: this thread's turn with the kernel's choices, or a step
      of another thread. */
  datatype Turn = Mine(next: Option<Handle>, woken: seq<Handle>) | Other(e: M.Event)

  /** The barrier's fields, the positions of all threads, the two history variables of
      the machine, and the rest of an arbitrary finite schedule. A call whose schedule
      runs out returns early and says so. */
  class Barrier {
    var arrive_count: int
    const number_to_wait: int
    var lock: Lock.System
    var phase: map<Handle, M.Phase>
    var schedule: seq<Turn>
    var arrivals: nat
    var released: bool
    ghost var start: M.Barrier
    ghost var trace: seq<M.Event>

    function State(): M.Barrier
      reads this
    {
      M.Barrier(arrive_count, number_to_wait, lock, phase, arrivals, released)
    }

    /** What happened since start is a run of the machine that ends here. */
    ghost predicate Valid()
      reads this
    {
      && lock.pc.Keys == phase.Keys
      && M.Init(start) && M.ValidRun(start, trace) && M.Run(start, trace) == State()
    }

    /** InitializeBarrier() */
    constructor (number_to_wait: int, threads: set<Handle>, schedule: seq<Turn>)
      requires 0 <= number_to_wait < M.UINT32
      ensures Valid() && M.Init(State()) && phase.Keys == threads && this.number_to_wait == number_to_wait
    {
      arrive_count := 0;
      this.number_to_wait := number_to_wait;
      lock := Lock.System(0, map t: Handle | t in threads :: Lock.Idle);
      phase := map t: Handle | t in threads :: M.Outside;
      this.schedule := schedule;
      arrivals, released, trace := 0, false, [];
      start := M.Barrier(0, number_to_wait, Lock.System(0, map t: Handle | t in threads :: Lock.Idle),
                         map t: Handle | t in threads :: M.Outside, 0, false);
    }

    /** Adds one step, which took the barrier from before to the present state. */
    ghost method Record(before: M.Barrier, e: M.Event)
      requires M.Init(start) && M.ValidRun(start, trace) && M.Run(start, trace) == before
      requires before.lock.pc.Keys == before.phase.Keys
      requires M.Enabled(before, e) && State() == M.Next(before, e)
      modifies this`trace
      ensures Valid() && trace == old(trace) + [e]
    {
      hide M.Enabled, M.Next;
      M.KeysKept(before, e);
      M.RunSnoc(start, trace, e);
      trace := trace + [e];
    }

    /** A step of another thread. */
    method Perform(self: Handle, e: M.Event)
      requires Valid() && self in phase && M.Enabled(State(), e) && e.t != self
      modifies this`arrive_count, this`lock, this`phase, this`arrivals, this`released, this`trace
      ensures Valid() && old(trace) <= trace && self in phase && phase[self] == old(phase[self])
      ensures arrivals >= old(arrivals)
      ensures
        var q, q' := old(lock.pc[self]), lock.pc[self];
        || q' == q
        || (Lock.LockAsleep(q) && q' == Lock.Resumed(q))
        || (q.CondAsleep? && q' in {Lock.Held, Lock.CondRequeued(q.timed)})
    {
      hide M.Init, M.ValidRun, M.Run;
      ghost var before := State();
      M.OthersKept(before, e, self);
      var after := M.Next(State(), e);
      arrive_count, lock, phase := after.arriveCount, after.lock, after.phase;
      arrivals, released := after.arrivals, after.released;
      Record(before, e);
    }

    /** Runs the others until the scheduler picks this thread while it can move. */
    method AwaitTurn(self: Handle) returns (mine: bool, m: M.Event)
      requires Valid() && self in phase
      modifies this
      ensures Valid() && start == old(start) && old(trace) <= trace && |schedule| <= old(|schedule|)
      ensures self in phase && phase[self] == old(phase[self]) && arrivals >= old(arrivals)
      ensures mine ==> m.t == self && M.Enabled(State(), m) && |schedule| < old(|schedule|)
      ensures mine ==>
        var q := old(lock.pc[self]);
        lock.pc[self] == if Lock.Asleep(q) then Lock.Resumed(q) else q
      ensures !mine ==> schedule == []
    {
      hide M.Init, M.ValidRun, M.Run;
      m := M.Event(self, None, []);
      ghost var q := lock.pc[self];
      while schedule != []
        invariant Valid() && start == old(start) && old(trace) <= trace && |schedule| <= old(|schedule|)
        invariant self in phase && phase[self] == old(phase[self]) && arrivals >= old(arrivals)
        invariant lock.pc[self] == q || (q.EnterAsleep? && lock.pc[self].EnterCas?)
                  || (Lock.Asleep(q) && !q.EnterAsleep? && (lock.pc[self].Held? || lock.pc[self].CondRequeued?))
        decreases |schedule|
      {
        var turn := schedule[0];
        schedule := schedule[1..];
        match turn {
          case Mine(next, woken) =>
            m := M.Event(self, next, woken);
            if M.Enabled(State(), m) {
              return true, m;
            }
          case Other(e) =>
            if e.t != self && M.Enabled(State(), e) {
              Perform(self, e);
            }
        }
      }
      mine := false;
    }

    /** One step of the lock's own code. */
    method LockStep(self: Handle, m: M.Event)
      requires Valid() && m.t == self && M.Enabled(State(), m)
      requires (phase[self].Entering? && !lock.pc[self].Held?) || (phase[self].Leaving? && Lock.Running(lock.pc[self]))
      modifies this`lock, this`phase, this`trace
      ensures Valid() && old(trace) <= trace && phase == old(phase)
      ensures lock == M.Next(old(State()), m).lock
    {
      hide M.Init, M.ValidRun, M.Run;
      ghost var before := State();
      lock := Lock.Next(lock, Lock.Step(self, m.next));
      assert phase[self := phase[self]] == phase;
      M.LockStepOnly(before, m);
      Record(before, m);
    }

    method BeginEnter(self: Handle) returns (begun: bool)
      requires Valid() && self in phase && (phase[self].Outside? || phase[self].Returned?) && lock.pc[self].Idle?
      modifies this
      ensures Valid() && start == old(start) && old(trace) <= trace && self in phase
      ensures begun ==> phase[self].Entering? && lock.pc[self].EnterCas? && arrivals >= old(arrivals)
    {
      hide M.Init, M.ValidRun, M.Run;
      hide Lock.ThreadStep, Lock.HandOver, Lock.WakeAll, Lock.KernelChoice, Lock.SignalChoice;
      var mine, m := AwaitTurn(self);
      if !mine { return false; }
      ghost var before := State();
      lock := Lock.Next(lock, Lock.CallEnter(self));
      phase := phase[self := M.Entering];
      Record(before, m);
      begun := true;
    }

    /** critical_section.Enter() */
    method Enter(self: Handle) returns (entered: bool)
      requires Valid() && self in phase && (phase[self].Outside? || phase[self].Returned?) && lock.pc[self].Idle?
      modifies this
      ensures Valid() && start == old(start) && old(trace) <= trace && self in phase
      ensures entered ==> phase[self].Entering? && lock.pc[self].Held? && arrivals >= old(arrivals)
    {
      hide M.Init, M.ValidRun, M.Run, M.Next, Lock.Next;
      var mine := BeginEnter(self);
      if !mine { return false; }
      var m;
      while !lock.pc[self].Held?
        invariant Valid() && start == old(start) && old(trace) <= trace
        invariant self in phase && phase[self].Entering? && arrivals >= old(arrivals)
        invariant Lock.Entering(lock.pc[self]) || lock.pc[self].EnterAsleep? || lock.pc[self].Held?
        decreases |schedule|
      {
        mine, m := AwaitTurn(self);
        if !mine { return false; }
        M.EnterSteps(State(), m);
        LockStep(self, m);
      }
      entered := true;
    }

    /** The load of arrive_count. */
    method Load(self: Handle) returns (done: bool, loaded: int)
      requires Valid() && self in phase && phase[self].Entering? && lock.pc[self].Held?
      modifies this
      ensures Valid() && start == old(start) && old(trace) <= trace && self in phase
      ensures done ==> phase[self] == M.Incrementing(loaded) && lock.pc[self].Held? && arrivals >= old(arrivals)
    {
      hide M.Init, M.ValidRun, M.Run;
      hide Lock.ThreadStep, Lock.HandOver, Lock.WakeAll, Lock.KernelChoice, Lock.SignalChoice;
      var m;
      loaded := 0;
      done, m := AwaitTurn(self);
      if !done { return; }
      ghost var before := State();
      loaded := arrive_count;
      phase := phase[self := M.Incrementing(loaded)];
      Record(before, m);
    }

    /** The store of arrive_count. */
    method Store(self: Handle, loaded: int) returns (done: bool)
      requires Valid() && self in phase && phase[self] == M.Incrementing(loaded) && lock.pc[self].Held?
      modifies this
      ensures Valid() && start == old(start) && old(trace) <= trace && self in phase
      ensures done ==> phase[self].Comparing? && lock.pc[self].Held? && phase[self].ticket > old(arrivals)
    {
      hide M.Init, M.ValidRun, M.Run;
      hide Lock.ThreadStep, Lock.HandOver, Lock.WakeAll, Lock.KernelChoice, Lock.SignalChoice;
      var m;
      done, m := AwaitTurn(self);
      if !done { return; }
      ghost var before := State();
      arrive_count := (loaded + 1) % M.UINT32;
      arrivals := arrivals + 1;
      phase := phase[self := M.Comparing(arrivals)];
      Record(before, m);
    }

    /** arrive_count++, a load and a store */
    method Increment(self: Handle) returns (done: bool)
      requires Valid() && self in phase && phase[self].Entering? && lock.pc[self].Held?
      modifies this
      ensures Valid() && start == old(start) && old(trace) <= trace && self in phase
      ensures done ==> phase[self].Comparing? && lock.pc[self].Held? && phase[self].ticket > old(arrivals)
    {
      hide M.Init, M.ValidRun, M.Run;
      var loaded;
      done, loaded := Load(self);
      if done {
        done := Store(self, loaded);
      }
    }

    /** condition_variable.Broadcast() */
    method Broadcast(self: Handle) returns (done: bool)
      requires Valid() && self in phase && phase[self].Broadcasting? && lock.pc[self].Held?
      modifies this
      ensures Valid() && start == old(start) && old(trace) <= trace && self in phase
      ensures done ==> phase[self] == M.Leaving(old(phase[self]).ticket) && lock.pc[self].Held?
    {
      hide M.Init, M.ValidRun, M.Run;
      var mine, m := AwaitTurn(self);
      if !mine { return false; }
      ghost var before := State();
      Lock.WakeAllMoves(lock, m.woken, self);
      lock := Lock.Next(lock, Lock.Signal(self, -1, m.woken));
      released := true;
      phase := phase[self := M.Leaving(phase[self].ticket)];
      Record(before, m);
      done := true;
    }

    /** The system call that gives the lock up and waits. */
    method GoToSleep(self: Handle) returns (done: bool)
      requires Valid() && self in phase && phase[self].AboutToWait? && lock.pc[self].Held?
      modifies this
      ensures Valid() && start == old(start) && old(trace) <= trace && self in phase
      ensures done ==> phase[self] == M.Waiting(old(phase[self]).ticket) && lock.pc[self] == Lock.CondAsleep(false)
    {
      hide M.Init, M.ValidRun, M.Run;
      var m;
      done, m := AwaitTurn(self);
      if !done { return; }
      ghost var before := State();
      lock := Lock.Next(lock, Lock.Wait(self, false, m.next));
      phase := phase[self := M.Waiting(phase[self].ticket)];
      Record(before, m);
    }

    /** Its return, with the lock. */
    method WakeUp(self: Handle) returns (done: bool)
      requires Valid() && self in phase && phase[self].Waiting? && lock.pc[self] == Lock.CondAsleep(false)
      modifies this
      ensures Valid() && start == old(start) && old(trace) <= trace && self in phase
      ensures done ==> phase[self] == M.Leaving(old(phase[self]).ticket) && lock.pc[self].Held?
    {
      hide M.Init, M.ValidRun, M.Run;
      hide Lock.ThreadStep, Lock.HandOver, Lock.WakeAll, Lock.KernelChoice, Lock.SignalChoice;
      var m;
      done, m := AwaitTurn(self);
      if !done { return; }
      ghost var before := State();
      phase := phase[self := M.Leaving(phase[self].ticket)];
      Record(before, m);
    }

    /** condition_variable.Wait(&critical_section) */
    method Wait(self: Handle) returns (done: bool)
      requires Valid() && self in phase && phase[self].AboutToWait? && lock.pc[self].Held?
      modifies this
      ensures Valid() && start == old(start) && old(trace) <= trace && self in phase
      ensures done ==> phase[self] == M.Leaving(old(phase[self]).ticket) && lock.pc[self].Held?
    {
      hide M.Init, M.ValidRun, M.Run;
      done := GoToSleep(self);
      if done {
        done := WakeUp(self);
      }
    }

    method BeginLeave(self: Handle) returns (begun: bool)
      requires Valid() && self in phase && phase[self].Leaving? && lock.pc[self].Held?
      modifies this
      ensures Valid() && start == old(start) && old(trace) <= trace && self in phase
      ensures begun ==> phase[self] == old(phase[self]) && lock.pc[self].LeaveCas?
    {
      hide M.Init, M.ValidRun, M.Run;
      hide Lock.ThreadStep, Lock.HandOver, Lock.WakeAll, Lock.KernelChoice, Lock.SignalChoice;
      var mine, m := AwaitTurn(self);
      if !mine { return false; }
      ghost var before := State();
      lock := Lock.Next(lock, Lock.CallLeave(self));
      phase := phase[self := M.Leaving(phase[self].ticket)];
      Record(before, m);
      begun := true;
    }

    /** critical_section.Leave() */
    method Leave(self: Handle) returns (left: bool)
      requires Valid() && self in phase && phase[self].Leaving? && lock.pc[self].Held?
      modifies this
      ensures Valid() && start == old(start) && old(trace) <= trace && self in phase
      ensures left ==> phase[self] == M.Returned(old(phase[self]).ticket) && lock.pc[self].Idle?
    {
      hide M.Init, M.ValidRun, M.Run, M.Next, Lock.Next;
      var mine := BeginLeave(self);
      if !mine { return false; }
      var m;
      while !lock.pc[self].Idle?
        invariant Valid() && start == old(start) && old(trace) <= trace
        invariant self in phase && phase[self] == old(phase[self])
        invariant lock.pc[self].LeaveCas? || lock.pc[self].LeaveArbitrate? || lock.pc[self].Idle?
        decreases |schedule|
      {
        mine, m := AwaitTurn(self);
        if !mine { return false; }
        M.LeaveSteps(State(), m);
        LockStep(self, m);
      }
      left := Return(self);
    }

    method Return(self: Handle) returns (done: bool)
      requires Valid() && self in phase && phase[self].Leaving? && lock.pc[self].Idle?
      modifies this
      ensures Valid() && start == old(start) && old(trace) <= trace && self in phase
      ensures done ==> phase[self] == M.Returned(old(phase[self]).ticket) && lock.pc[self].Idle?
    {
      hide M.Init, M.ValidRun, M.Run;
      hide Lock.ThreadStep, Lock.HandOver, Lock.WakeAll, Lock.KernelChoice, Lock.SignalChoice;
      var mine, m := AwaitTurn(self);
      if !mine { return false; }
      ghost var before := State();
      phase := phase[self := M.Returned(phase[self].ticket)];
      Record(before, m);
      done := true;
    }

    /** if (arrive_count == number_to_wait) Broadcast() else Wait() */
    method BroadcastOrWait(self: Handle) returns (done: bool)
      requires Valid() && self in phase && phase[self].Comparing? && lock.pc[self].Held?
      modifies this
      ensures Valid() && start == old(start) && old(trace) <= trace && self in phase
      ensures done ==> phase[self] == M.Leaving(old(phase[self]).ticket) && lock.pc[self].Held?
    {
      hide M.Init, M.ValidRun, M.Run, Lock.Next, Lock.Enabled;
      var m;
      done, m := AwaitTurn(self);
      if !done { return; }
      ghost var before := State();
      if arrive_count == number_to_wait {
        phase := phase[self := M.Broadcasting(phase[self].ticket)];
        Record(before, m);
        done := Broadcast(self);
      } else {
        phase := phase[self := M.AboutToWait(phase[self].ticket)];
        Record(before, m);
        done := Wait(self);
      }
    }

    /** The call is an arrival of its own, and it returns only if it was among the
        first N, of which all have arrived. */
    method AwaitBarrier(self: Handle) returns (finished: bool)
      requires Valid() && self in phase && (phase[self].Outside? || phase[self].Returned?) && lock.pc[self].Idle?
      modifies this
      ensures Valid() && start == old(start) && old(trace) <= trace && self in phase
      ensures finished ==> phase[self].Returned? && phase[self].ticket > old(arrivals) && lock.pc[self].Idle?
      ensures finished && arrivals < M.UINT32 ==>
                arrivals >= number_to_wait && 1 <= phase[self].ticket <= number_to_wait
    {
      hide M.Init, M.ValidRun, M.Run, Lock.Next, Lock.Enabled;
      finished := Enter(self);
      if !finished { return; }
      finished := Increment(self);
      if !finished { return; }
      finished := BroadcastOrWait(self);
      if !finished { return; }
      finished := Leave(self);
      if finished {
        Returns(self);
      }
    }

    lemma Returns(self: Handle)
      requires Valid() && self in phase && phase[self].Returned?
      ensures arrivals < M.UINT32 ==> arrivals >= number_to_wait && 1 <= phase[self].ticket <= number_to_wait
    {
      hide M.Init, M.ValidRun, M.Run;
      assert M.Reachable(State());
      if arrivals < M.UINT32 {
        M.OnlyTheFirstN(State(), self);
      }
    }
  }
}
