/** The entry wrapper, StartThread, DestroyThread, WaitThread and WaitForExitThread in
    their own form, each run by one thread while the others do as they please, and
    proved to be runs of the life cycle's step machine. */
module ThreadCode {
  import opened Basics
  import opened LockWord
  import Lock = LockProtocol
  import M = ThreadLifecycle

  /** One entry of a schedule: this thread's turn with the kernel's choices, or a step
      of another thread. */
  datatype Turn = Mine(cancelled: bool, next: Option<Handle>, woken: seq<Handle>) | Other(m: M.Move)

  /** The machine's history variables. */
  datatype History = History(entryRuns: nat, unmaps: nat, destroyedFirst: bool)

  ghost predicate PassesThrough(start: M.Life, trace: seq<M.Move>, steps: nat, via: M.Life) {
    exists ms: seq<M.Move> :: steps < |ms| && ms <= trace && M.ValidRun(start, ms) && M.Run(start, ms) == via
  }

  lemma StaysPassed(start: M.Life, trace: seq<M.Move>, longer: seq<M.Move>, steps: nat, fewer: nat, via: M.Life)
    requires PassesThrough(start, trace, steps, via) && trace <= longer && fewer <= steps
    ensures PassesThrough(start, longer, fewer, via)
  {
    var ms: seq<M.Move> :| steps < |ms| && ms <= trace && M.ValidRun(start, ms) && M.Run(start, ms) == via;
    assert ms <= longer && fewer < |ms|;
  }

  /** The thread's fields, what the kernel knows of it, the positions of all threads,
      the history, and the rest of an arbitrary finite schedule. The flag stands for the
      pointer to the mapped stack as well, which is set and cleared with it. A call whose
      schedule runs out, or that is cut short by an abort, returns early and says so. */
  class Thread {
    var state: M.ThreadState
    var is_alias_thread_stack_mapped: bool
    var kernel: M.KernelState
    var handle_open: bool
    var aborted: bool
    const child: Handle
    var lock: Lock.System
    var phase: map<Handle, M.Phase>
    var history: History
    var schedule: seq<Turn>
    ghost var start: M.Life
    ghost var trace: seq<M.Move>

    function State(): M.Life
      reads this
    {
      M.Life(state, is_alias_thread_stack_mapped, kernel, handle_open, aborted, child, lock, phase,
             history.entryRuns, history.unmaps, history.destroyedFirst)
    }

    /** What happened since start is a run of the machine that ends here. */
    ghost predicate Valid()
      reads this
    {
      M.RunsTo(start, trace, State())
    }

    ghost predicate Passed(steps: nat, via: M.Life)
      reads this
    {
      PassesThrough(start, trace, steps, via)
    }

    lemma PassesNow(steps: nat)
      requires Valid() && steps < |trace|
      ensures Passed(steps, State())
    {
      assert trace <= trace;
    }

    /** A thread that CreateThread() has just made. */
    constructor (child: Handle, threads: set<Handle>, schedule: seq<Turn>)
      requires child in threads
      ensures Valid() && M.Init(State()) && phase.Keys == threads && this.child == child
    {
      state, is_alias_thread_stack_mapped, kernel := M.Initialized, true, M.Unstarted;
      handle_open, aborted := true, false;
      this.child := child;
      var places := map t: Handle | t in threads :: if t == child then M.Dormant else M.Outside;
      lock := Lock.System(0, map t: Handle | t in threads :: Lock.Idle);
      phase := places;
      history := History(0, 0, false);
      this.schedule := schedule;
      trace := [];
      start := M.Life(M.Initialized, true, M.Unstarted, true, false, child,
                      Lock.System(0, map t: Handle | t in threads :: Lock.Idle), places, 0, 0, false);
      new;
      M.InitInv(start);
    }

    /** Adds one step, which took the thread from before to the present state. */
    ghost method Record(before: M.Life, m: M.Move)
      requires M.RunsTo(start, trace, before) && M.Enabled(before, m) && State() == M.Next(before, m)
      modifies this`trace
      ensures Valid() && trace == old(trace) + [m]
    {
      hide M.RunsTo, M.Enabled, M.Next;
      M.RunGoesOn(start, trace, before, m);
      trace := trace + [m];
    }

    /** A step of another thread, which finds this one where it is: only a wrapper that
        has not been started yet can be moved. */
    method Perform(self: Handle, m: M.Move)
      requires Valid() && self in phase && M.Enabled(State(), m) && m.t != self
      requires self == child ==> !phase[self].Dormant?
      modifies this`state, this`is_alias_thread_stack_mapped, this`kernel, this`handle_open, this`aborted
      modifies this`lock, this`phase, this`history, this`trace
      ensures Valid() && old(trace) <= trace && self in phase && phase[self] == old(phase[self])
      ensures self in lock.pc && (Lock.Asleep(old(lock.pc[self])) || lock.pc[self] == old(lock.pc[self]))
      ensures Lock.Asleep(old(lock.pc[self])) ==>
                old(lock.pc[self]).EnterAsleep? && lock.pc[self] in {Lock.EnterAsleep, Lock.EnterCas}
    {
      hide M.Init, M.ValidRun, M.Run, M.Next;
      ghost var before := State();
      M.ThisOneKept(before, m, self);
      M.StepKeeps(before, m);
      var after := M.Next(State(), m);
      Assign(after);
      Record(before, m);
    }

    method Assign(after: M.Life)
      requires after.child == child
      modifies this`state, this`is_alias_thread_stack_mapped, this`kernel, this`handle_open, this`aborted
      modifies this`lock, this`phase, this`history
      ensures State() == after
    {
      state, is_alias_thread_stack_mapped, kernel := after.state, after.isMapped, after.kernel;
      handle_open, aborted := after.handleOpen, after.aborted;
      lock, phase := after.lock, after.phase;
      history := History(after.entryRuns, after.unmaps, after.destroyedFirst);
    }

    /** Runs the others until the scheduler picks this thread while it can move. */
    method AwaitTurn(self: Handle, op: M.Operation) returns (mine: bool, m: M.Move)
      requires Valid() && self in phase && (self == child ==> !phase[self].Dormant?)
      modifies this
      ensures Valid() && start == old(start) && old(trace) <= trace && |schedule| <= old(|schedule|)
      ensures self in phase && phase[self] == old(phase[self])
      ensures mine ==> m.t == self && m.op == op && M.Enabled(State(), m) && |schedule| < old(|schedule|)
      ensures mine ==> lock.pc[self] == if Lock.Asleep(old(lock.pc[self])) then Lock.EnterCas else old(lock.pc[self])
      ensures !mine ==> schedule == []
    {
      hide M.RunsTo, M.Next;
      InvKeys();
      m := M.Move(self, op, false, None, []);
      ghost var q := lock.pc[self];
      while schedule != []
        invariant Valid() && start == old(start) && old(trace) <= trace && |schedule| <= old(|schedule|)
        invariant self in phase && self in lock.pc && phase[self] == old(phase[self])
        invariant lock.pc[self] == q || (q.EnterAsleep? && lock.pc[self].EnterCas?)
        decreases |schedule|
      {
        NotWaiting(self);
        var turn := schedule[0];
        schedule := schedule[1..];
        match turn {
          case Mine(cancelled, next, woken) =>
            m := M.Move(self, op, cancelled, next, woken);
            if M.Enabled(State(), m) {
              return true, m;
            }
          case Other(other) =>
            if other.t != self && M.Enabled(State(), other) {
              Perform(self, other);
            }
        }
      }
      mine := false;
    }

    lemma InvKeys()
      requires Valid()
      ensures lock.pc.Keys == phase.Keys && child in phase
    {
      hide M.Init, M.ValidRun, M.Run;
    }

    /** Nobody ever waits on the condition variable. */
    lemma NotWaiting(self: Handle)
      requires Valid() && self in phase
      ensures self in lock.pc && !lock.pc[self].CondAsleep? && !lock.pc[self].CondRequeued?
    {
      hide M.Init, M.ValidRun, M.Run;
      assert M.ThreadOk(State(), self, phase[self], lock.pc[self]);
    }

    // ---- critical_section

    /** One step of the lock's own code. */
    method LockStep(self: Handle, m: M.Move)
      requires Valid() && m.t == self && M.Enabled(State(), m)
      requires
        || (phase[self].Entering? && Lock.Entering(lock.pc[self]))
        || (phase[self].Leaving? && Lock.Running(lock.pc[self]))
      modifies this`lock, this`phase, this`trace
      ensures Valid() && old(trace) <= trace && self in phase && self in lock.pc
      ensures old(phase[self]).Entering? ==>
        && phase[self] == old(phase[self])
        && (Lock.Entering(lock.pc[self]) || lock.pc[self].EnterAsleep? || lock.pc[self].Held?)
      ensures old(phase[self]).Leaving? && old(lock.pc[self].LeaveCas? || lock.pc[self].LeaveArbitrate?) ==>
        if lock.pc[self].Idle? then phase[self] == M.AfterLeave(old(phase[self]).after)
        else lock.pc[self].LeaveArbitrate? && phase[self] == old(phase[self])
    {
      hide M.RunsTo;
      InvKeys();
      ghost var before := State();
      M.LockStepOnly(before, m);
      lock := Lock.Next(lock, Lock.Step(self, m.next));
      if phase[self].Leaving? && lock.pc[self].Idle? {
        phase := phase[self := M.AfterLeave(phase[self].after)];
      }
      Record(before, m);
    }

    /** The call of Enter() with a statement to follow. */
    method BeginEnter(self: Handle, op: M.Operation, s: M.Statement) returns (begun: bool)
      requires Valid() && self in phase && self in lock.pc && lock.pc[self].Idle? && M.EntersFor(phase[self], op, s)
      modifies this
      ensures Valid() && start == old(start) && old(trace) <= trace && self in phase && self in lock.pc
      ensures begun ==> phase[self] == M.Entering(s) && lock.pc[self].EnterCas?
    {
      hide M.RunsTo, M.Next, M.Enabled;
      var mine, m := AwaitTurn(self, op);
      InvKeys();
      if !mine { return false; }
      ghost var before := State();
      M.EnterCalled(before, m, s);
      lock := Lock.Next(lock, Lock.CallEnter(self));
      phase := phase[self := M.Entering(s)];
      Record(before, m);
      begun := true;
    }

    method Entered(self: Handle, s: M.Statement) returns (done: bool)
      requires Valid() && self in phase && self in lock.pc && phase[self] == M.Entering(s) && lock.pc[self].Held?
      modifies this
      ensures Valid() && start == old(start) && old(trace) <= trace && self in phase && self in lock.pc
      ensures done ==> phase[self] == M.Inside(s) && lock.pc[self].Held?
    {
      hide M.RunsTo, Lock.ThreadStep, Lock.HandOver, Lock.KernelChoice;
      var mine, m := AwaitTurn(self, M.Start);
      InvKeys();
      if !mine { return false; }
      ghost var before := State();
      phase := phase[self := M.Inside(s)];
      Record(before, m);
      done := true;
    }

    /** critical_section->Enter() */
    method Enter(self: Handle, op: M.Operation, s: M.Statement) returns (entered: bool)
      requires Valid() && self in phase && self in lock.pc && lock.pc[self].Idle? && M.EntersFor(phase[self], op, s)
      modifies this
      ensures Valid() && start == old(start) && old(trace) <= trace && self in phase && self in lock.pc
      ensures entered ==> phase[self] == M.Inside(s) && lock.pc[self].Held?
    {
      hide M.RunsTo, M.Next, M.Enabled;
      entered := BeginEnter(self, op, s);
      if !entered { return; }
      var m;
      while !lock.pc[self].Held?
        invariant Valid() && start == old(start) && old(trace) <= trace
        invariant self in phase && self in lock.pc && phase[self] == M.Entering(s)
        invariant Lock.Entering(lock.pc[self]) || lock.pc[self].EnterAsleep? || lock.pc[self].Held?
        decreases |schedule|
      {
        entered, m := AwaitTurn(self, op);
        InvKeys();
        if !entered { return; }
        LockStep(self, m);
      }
      entered := Entered(self, s);
    }

    method BeginLeave(self: Handle) returns (begun: bool)
      requires Valid() && self in phase && self in lock.pc && phase[self].Leaving? && lock.pc[self].Held?
      modifies this
      ensures Valid() && start == old(start) && old(trace) <= trace && self in phase && self in lock.pc
      ensures begun ==> phase[self] == old(phase[self]) && lock.pc[self].LeaveCas?
    {
      hide M.RunsTo, Lock.ThreadStep, Lock.HandOver, Lock.KernelChoice;
      var mine, m := AwaitTurn(self, M.Start);
      InvKeys();
      if !mine { return false; }
      ghost var before := State();
      lock := Lock.Next(lock, Lock.CallLeave(self));
      assert phase[self := phase[self]] == phase;
      Record(before, m);
      begun := true;
    }

    /** critical_section->Leave() */
    method Leave(self: Handle) returns (left: bool)
      requires Valid() && self in phase && self in lock.pc && phase[self].Leaving? && lock.pc[self].Held?
      modifies this
      ensures Valid() && start == old(start) && old(trace) <= trace && self in phase && self in lock.pc
      ensures left ==> phase[self] == M.AfterLeave(old(phase[self]).after) && lock.pc[self].Idle?
    {
      hide M.RunsTo, M.Next, M.Enabled;
      ghost var s := phase[self].after;
      left := BeginLeave(self);
      if !left { return; }
      var m;
      while !lock.pc[self].Idle?
        invariant Valid() && start == old(start) && old(trace) <= trace && self in phase && self in lock.pc
        invariant
          || (phase[self] == M.Leaving(s) && (lock.pc[self].LeaveCas? || lock.pc[self].LeaveArbitrate?))
          || (phase[self] == M.AfterLeave(s) && lock.pc[self].Idle?)
        decreases |schedule|
      {
        left, m := AwaitTurn(self, M.Start);
        InvKeys();
        if !left { return; }
        LockStep(self, m);
      }
    }

    // ---- Statements

    /** A system call on the handle that fails. */
    method Abort(self: Handle, m: M.Move)
      requires Valid() && m.t == self && M.Enabled(State(), m) && M.Aborts(State(), phase[self])
      modifies this`aborted, this`trace
      ensures Valid() && aborted && trace == old(trace) + [m]
    {
      hide M.RunsTo, M.Next, M.Enabled;
      ghost var before := State();
      M.AbortNext(before, m);
      aborted := true;
      Record(before, m);
    }

    /** svc::StartThread, which aborts the program if it fails */
    method StartThreadUnsafe(self: Handle, destroying: bool) returns (done: bool)
      requires Valid() && self in phase && self in lock.pc && self != child
      requires phase[self] == M.Inside(M.KernelStart(destroying)) && lock.pc[self].Held?
      modifies this
      ensures Valid() && start == old(start) && old(trace) <= trace && self in phase && self in lock.pc
      ensures done ==> !aborted && kernel.Alive? && lock.pc[self].Held?
      ensures done ==> phase[self] == M.Inside(if destroying then M.SignalChild(true) else M.SetStarted)
    {
      hide M.RunsTo, M.Next, M.Enabled;
      var mine, m := AwaitTurn(self, M.Start);
      InvKeys();
      if !mine { return false; }
      if !(handle_open && kernel.Unstarted?) {
        Abort(self, m);
        return false;
      }
      ghost var before := State();
      M.StartNext(before, m);
      kernel := M.Alive;
      phase := phase[self := M.Inside(if destroying then M.SignalChild(true) else M.SetStarted)]
                    [child := M.Outer(M.EnterToTest)];
      Record(before, m);
      done := true;
    }

    /** thread->state = ThreadState::Started */
    method MarkStarted(self: Handle) returns (done: bool)
      requires Valid() && self in phase && self in lock.pc && self != child
      requires phase[self] == M.Inside(M.SetStarted) && lock.pc[self].Held?
      modifies this
      ensures Valid() && start == old(start) && old(trace) <= trace && self in phase && self in lock.pc
      ensures done ==> phase[self] == M.Inside(M.SignalChild(false)) && lock.pc[self].Held?
      ensures done ==> state.Started? && |trace| > |old(trace)|
    {
      hide M.RunsTo, M.Next, M.Enabled;
      var mine, m := AwaitTurn(self, M.Start);
      InvKeys();
      if !mine { return false; }
      ghost var before := State();
      M.InsideNext(before, m);
      state := M.Started;
      phase := phase[self := M.Inside(M.SignalChild(false))];
      Record(before, m);
      done := true;
    }

    /** condition_variable->Signal() */
    method SignalChild(self: Handle, destroying: bool) returns (done: bool)
      requires Valid() && self in phase && self in lock.pc && self != child
      requires phase[self] == M.Inside(M.SignalChild(destroying)) && lock.pc[self].Held?
      modifies this
      ensures Valid() && start == old(start) && old(trace) <= trace && self in phase && self in lock.pc
      ensures done ==> phase[self] == M.Leaving(if destroying then M.AwaitExit(true) else M.Done) && lock.pc[self].Held?
    {
      hide M.RunsTo, M.Next, M.Enabled, Lock.Next, Lock.Enabled;
      var mine, m := AwaitTurn(self, M.Start);
      InvKeys();
      if !mine { return false; }
      ghost var before := State();
      M.SignalNext(before, m);
      lock := Lock.Next(lock, Lock.Signal(self, 1, m.woken));
      phase := phase[self := M.Leaving(if destroying then M.AwaitExit(true) else M.Done)];
      Record(before, m);
      done := true;
    }

    /** thread->state == ThreadState::Initialized */
    method TestInitialized(self: Handle) returns (done: bool, up: bool)
      requires Valid() && self in phase && self in lock.pc && self != child
      requires phase[self] == M.Inside(M.TestInitialized) && lock.pc[self].Held?
      modifies this
      ensures Valid() && start == old(start) && old(trace) <= trace && self in phase && self in lock.pc
      ensures done ==> lock.pc[self].Held? && up == state.Initialized?
      ensures done ==> phase[self] == if up then M.Inside(M.SetDestroyed) else M.Leaving(M.AwaitExit(true))
    {
      hide M.RunsTo, M.Next, M.Enabled;
      var mine, m := AwaitTurn(self, M.Start);
      InvKeys();
      if !mine { return false, false; }
      ghost var before := State();
      M.InsideNext(before, m);
      up := state.Initialized?;
      phase := phase[self := if up then M.Inside(M.SetDestroyed) else M.Leaving(M.AwaitExit(true))];
      Record(before, m);
      done := true;
    }

    /** thread->state = ThreadState::Destroyed */
    method MarkDestroyed(self: Handle) returns (done: bool)
      requires Valid() && self in phase && self in lock.pc && self != child
      requires phase[self] == M.Inside(M.SetDestroyed) && lock.pc[self].Held?
      modifies this
      ensures Valid() && start == old(start) && old(trace) <= trace && self in phase && self in lock.pc
      ensures done ==> phase[self] == M.Inside(M.KernelStart(true)) && lock.pc[self].Held? && state.Destroyed?
    {
      hide M.RunsTo, M.Next, M.Enabled;
      var mine, m := AwaitTurn(self, M.Start);
      InvKeys();
      if !mine { return false; }
      ghost var before := State();
      M.DestroyNext(before, m);
      state := M.Destroyed;
      history := history.(destroyedFirst := true);
      phase := phase[self := M.Inside(M.KernelStart(true))];
      Record(before, m);
      done := true;
    }

    /** The call of svc::WaitSynchronization, which fails on a closed handle; that aborts
        the program. */
    method BeginWaitSynchronization(self: Handle, destroying: bool) returns (done: bool)
      requires Valid() && self in phase && self in lock.pc && self != child
      requires phase[self] == M.Outer(M.AwaitExit(destroying)) && lock.pc[self].Idle?
      modifies this
      ensures Valid() && start == old(start) && old(trace) <= trace && self in phase && self in lock.pc
      ensures |schedule| <= old(|schedule|)
      ensures done ==> phase[self] == M.Outer(M.BlockedOnExit(destroying)) && lock.pc[self].Idle? && handle_open
      ensures !done ==> schedule == [] || (aborted && !handle_open)
    {
      hide M.RunsTo, M.Next, M.Enabled;
      var mine, m := AwaitTurn(self, M.Start);
      InvKeys();
      if !mine { return false; }
      if !handle_open {
        Abort(self, m);
        return false;
      }
      ghost var before := State();
      M.WaitNext(before, m);
      phase := phase[self := M.Outer(M.BlockedOnExit(destroying))];
      Record(before, m);
      done := true;
    }

    /** Its return: with success once the thread is gone, even if the handle has been closed
        since, or early if it is cancelled. */
    method EndWaitSynchronization(self: Handle, destroying: bool) returns (done: bool, ok: bool)
      requires Valid() && self in phase && self in lock.pc && self != child
      requires phase[self] == M.Outer(M.BlockedOnExit(destroying)) && lock.pc[self].Idle?
      modifies this
      ensures Valid() && start == old(start) && old(trace) <= trace && self in phase && self in lock.pc
      ensures done ==> |schedule| < old(|schedule|) && lock.pc[self].Idle?
      ensures done && ok ==> phase[self] == M.Outer(M.EnterToUnmap(destroying)) && kernel.Gone?
      ensures done && !ok ==> phase[self] == M.Outer(M.AwaitExit(destroying))
      ensures !done ==> schedule == []
    {
      hide M.RunsTo, M.Next, M.Enabled;
      var m;
      ok := false;
      done, m := AwaitTurn(self, M.Start);
      InvKeys();
      if !done { return; }
      ghost var before := State();
      M.WaitNext(before, m);
      ok := !m.cancelled;
      phase := phase[self := M.Outer(if ok then M.EnterToUnmap(destroying) else M.AwaitExit(destroying))];
      Record(before, m);
    }

    /** It ends with success, which means that the thread is gone; or cancelled; or by
        aborting the program, which happens on a closed handle only. */
    method WaitSynchronization(self: Handle, destroying: bool) returns (done: bool, ok: bool)
      requires Valid() && self in phase && self in lock.pc && self != child
      requires phase[self] == M.Outer(M.AwaitExit(destroying)) && lock.pc[self].Idle?
      modifies this
      ensures Valid() && start == old(start) && old(trace) <= trace && self in phase && self in lock.pc
      ensures done ==> |schedule| < old(|schedule|) && lock.pc[self].Idle?
      ensures done && ok ==> phase[self] == M.Outer(M.EnterToUnmap(destroying)) && kernel.Gone?
      ensures done && !ok ==> phase[self] == M.Outer(M.AwaitExit(destroying))
      ensures !done ==> schedule == [] || (aborted && !handle_open)
    {
      hide M.RunsTo, M.Next, M.Enabled;
      ok := false;
      done := BeginWaitSynchronization(self, destroying);
      if !done { return; }
      done, ok := EndWaitSynchronization(self, destroying);
    }

    method WaitForExitThread(self: Handle, destroying: bool) returns (done: bool)
      requires Valid() && self in phase && self in lock.pc && self != child
      requires phase[self] == M.Outer(M.AwaitExit(destroying)) && lock.pc[self].Idle?
      modifies this
      ensures Valid() && start == old(start) && old(trace) <= trace && self in phase && self in lock.pc
      ensures done ==> phase[self] == M.Outer(M.EnterToUnmap(destroying)) && kernel.Gone? && lock.pc[self].Idle?
      ensures !done ==> schedule == [] || (aborted && !handle_open)
    {
      hide M.RunsTo, M.Next, M.Enabled;
      var ok := false;
      while true
        invariant Valid() && start == old(start) && old(trace) <= trace && self in phase && self in lock.pc
        invariant phase[self] == M.Outer(M.AwaitExit(destroying)) && lock.pc[self].Idle?
        decreases |schedule|
      {
        done, ok := WaitSynchronization(self, destroying);
        if !done { return; }
        if ok {
          break;
        }
      }
    }

    /** if (thread->is_alias_thread_stack_mapped) */
    method TestMapped(self: Handle, destroying: bool) returns (done: bool, up: bool)
      requires Valid() && self in phase && self in lock.pc && self != child
      requires phase[self] == M.Inside(M.TestMapped(destroying)) && lock.pc[self].Held?
      modifies this
      ensures Valid() && start == old(start) && old(trace) <= trace && self in phase && self in lock.pc
      ensures done ==> lock.pc[self].Held? && up == is_alias_thread_stack_mapped && |trace| > |old(trace)|
      ensures done ==> phase[self] == if up then M.Inside(M.Unmap(destroying)) else M.AfterUnmap(destroying)
    {
      hide M.RunsTo, M.Next, M.Enabled;
      var mine, m := AwaitTurn(self, M.Start);
      InvKeys();
      if !mine { return false, false; }
      ghost var before := State();
      M.InsideNext(before, m);
      up := is_alias_thread_stack_mapped;
      phase := phase[self := if up then M.Inside(M.Unmap(destroying)) else M.AfterUnmap(destroying)];
      Record(before, m);
      done := true;
    }

    /** svc::UnmapMemory */
    method UnmapMemory(self: Handle, destroying: bool) returns (done: bool)
      requires Valid() && self in phase && self in lock.pc && self != child
      requires phase[self] == M.Inside(M.Unmap(destroying)) && lock.pc[self].Held?
      modifies this
      ensures Valid() && start == old(start) && old(trace) <= trace && self in phase && self in lock.pc
      ensures done ==> phase[self] == M.Inside(M.ClearMapped(destroying)) && lock.pc[self].Held?
    {
      hide M.RunsTo, M.Next, M.Enabled;
      var mine, m := AwaitTurn(self, M.Start);
      InvKeys();
      if !mine { return false; }
      ghost var before := State();
      M.UnmapNext(before, m, destroying);
      history := history.(unmaps := history.unmaps + 1);
      phase := phase[self := M.Inside(M.ClearMapped(destroying))];
      Record(before, m);
      done := true;
    }

    /** thread->is_alias_thread_stack_mapped = false */
    method ClearMapped(self: Handle, destroying: bool) returns (done: bool)
      requires Valid() && self in phase && self in lock.pc && self != child
      requires phase[self] == M.Inside(M.ClearMapped(destroying)) && lock.pc[self].Held?
      modifies this
      ensures Valid() && start == old(start) && old(trace) <= trace && self in phase && self in lock.pc
      ensures done ==> phase[self] == M.AfterUnmap(destroying) && lock.pc[self].Held?
      ensures done ==> !is_alias_thread_stack_mapped && |trace| > |old(trace)|
    {
      hide M.RunsTo, M.Next, M.Enabled, M.AfterUnmap;
      var mine, m := AwaitTurn(self, M.Start);
      InvKeys();
      if !mine { return false; }
      ghost var before := State();
      M.UnmapNext(before, m, destroying);
      is_alias_thread_stack_mapped := false;
      phase := phase[self := M.AfterUnmap(destroying)];
      Record(before, m);
      done := true;
    }

    /** The mirror is unmapped afterwards, by this call or an earlier one. */
    method UnmapIfMapped(self: Handle, destroying: bool) returns (done: bool)
      requires Valid() && self in phase && self in lock.pc && self != child
      requires phase[self] == M.Inside(M.TestMapped(destroying)) && lock.pc[self].Held?
      modifies this
      ensures Valid() && start == old(start) && old(trace) <= trace && self in phase && self in lock.pc
      ensures done ==> phase[self] == M.AfterUnmap(destroying) && lock.pc[self].Held?
      ensures done ==> !is_alias_thread_stack_mapped && |trace| > |old(trace)|
    {
      hide M.RunsTo, M.Next, M.Enabled;
      var up;
      done, up := TestMapped(self, destroying);
      if !done { return; }
      if up {
        done := UnmapMemory(self, destroying);
        if !done { return; }
        done := ClearMapped(self, destroying);
      }
    }

    /** svc::CloseHandle, which aborts the program if it fails */
    method CloseHandle(self: Handle) returns (done: bool)
      requires Valid() && self in phase && self in lock.pc && self != child
      requires phase[self] == M.Inside(M.CloseHandle) && lock.pc[self].Held?
      modifies this
      ensures Valid() && start == old(start) && old(trace) <= trace && self in phase && self in lock.pc
      ensures done ==> phase[self] == M.Inside(M.Reset) && lock.pc[self].Held?
    {
      hide M.RunsTo, M.Next, M.Enabled;
      var mine, m := AwaitTurn(self, M.Start);
      InvKeys();
      if !mine { return false; }
      if !handle_open {
        Abort(self, m);
        return false;
      }
      ghost var before := State();
      M.CloseNext(before, m);
      handle_open := false;
      phase := phase[self := M.Inside(M.Reset)];
      Record(before, m);
      done := true;
    }

    /** thread->state = ThreadState::Uninitialized */
    method ResetState(self: Handle) returns (done: bool)
      requires Valid() && self in phase && self in lock.pc && self != child
      requires phase[self] == M.Inside(M.Reset) && lock.pc[self].Held?
      modifies this
      ensures Valid() && start == old(start) && old(trace) <= trace && self in phase && self in lock.pc
      ensures done ==> phase[self] == M.Leaving(M.Done) && lock.pc[self].Held? && |trace| > |old(trace)|
      ensures done ==> state.Uninitialized? && !is_alias_thread_stack_mapped
    {
      hide M.RunsTo, M.Next, M.Enabled;
      var mine, m := AwaitTurn(self, M.Start);
      InvKeys();
      if !mine { return false; }
      ghost var before := State();
      M.InsideNext(before, m);
      ResetFindsUnmapped(self);
      state := M.Uninitialized;
      phase := phase[self := M.Leaving(M.Done)];
      Record(before, m);
      done := true;
    }

    // ---- The functions

    /** A start that returns went through a state in which the kernel thread had been
        started and the state been set, under the lock. */
    method StartThread(self: Handle) returns (finished: bool, ghost via: M.Life)
      requires Valid() && self in phase && self in lock.pc && self != child
      requires phase[self].Outside? && lock.pc[self].Idle?
      modifies this
      ensures Valid() && start == old(start) && old(trace) <= trace && self in phase && self in lock.pc
      ensures finished ==> phase[self].Outside? && lock.pc[self].Idle?
      ensures finished ==>
        && Passed(|old(trace)|, via) && via.state.Started?
        && self in via.phase && via.phase[self] == M.Inside(M.SignalChild(false))
    {
      hide M.RunsTo, M.Next, M.Enabled;
      via := State();
      finished := Enter(self, M.Start, M.KernelStart(false));
      if !finished { return; }
      finished := StartThreadUnsafe(self, false);
      if !finished { return; }
      finished := MarkStarted(self);
      if !finished { return; }
      PassesNow(|old(trace)|);
      via := State();
      ghost var through := trace;
      finished := SignalChild(self, false);
      if !finished { return; }
      finished := Leave(self);
      StaysPassed(start, through, trace, |old(trace)|, |old(trace)|, via);
    }

    /** A wait that returns went through a state in which the kernel thread was gone, the
        caller inside, and the mirror unmapped. */
    method WaitThread(self: Handle) returns (finished: bool, ghost via: M.Life)
      requires Valid() && self in phase && self in lock.pc && self != child
      requires phase[self].Outside? && lock.pc[self].Idle?
      modifies this
      ensures Valid() && start == old(start) && old(trace) <= trace && self in phase && self in lock.pc
      ensures finished ==> phase[self].Outside? && lock.pc[self].Idle?
      ensures finished ==>
        && Passed(|old(trace)|, via) && self in via.phase && via.phase[self] == M.Leaving(M.Done)
        && via.kernel.Gone? && !via.isMapped && via.unmaps == 1 && (via.handleOpen ==> via.state.Exited?)
    {
      hide M.RunsTo, M.Next, M.Enabled;
      via := State();
      finished := BeginWait(self);
      if !finished { return; }
      finished := WaitForExitThread(self, false);
      if !finished { return; }
      finished := Enter(self, M.Await, M.TestMapped(false));
      if !finished { return; }
      finished := UnmapIfMapped(self, false);
      if !finished { return; }
      PassesNow(|old(trace)|);
      via := State();
      ghost var through := trace;
      UnmappedMeansGone();
      finished := Leave(self);
      StaysPassed(start, through, trace, |old(trace)|, |old(trace)|, via);
    }

    lemma UnmappedMeansGone()
      requires Valid() && !is_alias_thread_stack_mapped
      ensures kernel.Gone? && history.unmaps == 1 && (handle_open ==> state.Exited?)
    {
      hide M.Init, M.ValidRun, M.Run;
    }

    /** The call of WaitThread(). */
    method BeginWait(self: Handle) returns (done: bool)
      requires Valid() && self in phase && self in lock.pc && self != child
      requires phase[self].Outside? && lock.pc[self].Idle?
      modifies this
      ensures Valid() && start == old(start) && old(trace) <= trace && self in phase && self in lock.pc
      ensures done ==> phase[self] == M.Outer(M.AwaitExit(false)) && lock.pc[self].Idle?
    {
      hide M.RunsTo, Lock.ThreadStep, Lock.HandOver, Lock.KernelChoice;
      var mine, m := AwaitTurn(self, M.Await);
      InvKeys();
      if !mine { return false; }
      ghost var before := State();
      phase := phase[self := M.Outer(M.AwaitExit(false))];
      Record(before, m);
      done := true;
    }

    /** if (thread->state == ThreadState::Initialized) { ... }: a thread that was never
        started is started with its state Destroyed. */
    method StartDestroyed(self: Handle) returns (done: bool)
      requires Valid() && self in phase && self in lock.pc && self != child
      requires phase[self] == M.Inside(M.TestInitialized) && lock.pc[self].Held?
      modifies this
      ensures Valid() && start == old(start) && old(trace) <= trace && self in phase && self in lock.pc
      ensures done ==> phase[self] == M.Leaving(M.AwaitExit(true)) && lock.pc[self].Held?
    {
      hide M.RunsTo, M.Next, M.Enabled;
      var up;
      done, up := TestInitialized(self);
      if !done { return; }
      if up {
        done := MarkDestroyed(self);
        if !done { return; }
        done := StartThreadUnsafe(self, true);
        if !done { return; }
        done := SignalChild(self, true);
      }
    }

    /** The first half of DestroyThread(). */
    method DestroyAndWait(self: Handle) returns (done: bool)
      requires Valid() && self in phase && self in lock.pc && self != child
      requires phase[self].Outside? && lock.pc[self].Idle?
      modifies this
      ensures Valid() && start == old(start) && old(trace) <= trace && self in phase && self in lock.pc
      ensures done ==> phase[self] == M.Outer(M.EnterToUnmap(true)) && lock.pc[self].Idle?
    {
      hide M.RunsTo, M.Next, M.Enabled;
      done := Enter(self, M.Destroy, M.TestInitialized);
      if !done { return; }
      done := StartDestroyed(self);
      if !done { return; }
      done := Leave(self);
      if !done { return; }
      done := WaitForExitThread(self, true);
    }

    /** The second half of DestroyThread(). */
    method CleanUp(self: Handle) returns (done: bool)
      requires Valid() && self in phase && self in lock.pc && self != child
      requires phase[self] == M.Inside(M.TestMapped(true)) && lock.pc[self].Held?
      modifies this
      ensures Valid() && start == old(start) && old(trace) <= trace && self in phase && self in lock.pc
      ensures done ==> phase[self] == M.Leaving(M.Done) && lock.pc[self].Held? && |trace| > |old(trace)|
      ensures done ==> state.Uninitialized? && !is_alias_thread_stack_mapped
    {
      hide M.RunsTo, M.Next, M.Enabled;
      done := UnmapIfMapped(self, true);
      if !done { return; }
      done := CloseHandle(self);
      if !done { return; }
      done := ResetState(self);
    }

    /** A destruction that returns went through a state in which the thread had been
        reset, with the handle closed, the mirror unmapped and the kernel thread gone. */
    method DestroyThread(self: Handle) returns (finished: bool, ghost via: M.Life)
      requires Valid() && self in phase && self in lock.pc && self != child
      requires phase[self].Outside? && lock.pc[self].Idle?
      modifies this
      ensures Valid() && start == old(start) && old(trace) <= trace && self in phase && self in lock.pc
      ensures finished ==> phase[self].Outside? && lock.pc[self].Idle?
      ensures finished ==>
        && Passed(|old(trace)|, via) && self in via.phase && via.phase[self] == M.Leaving(M.Done)
        && via.state.Uninitialized? && !via.handleOpen && via.kernel.Gone? && !via.isMapped
    {
      hide M.RunsTo, M.Next, M.Enabled;
      via := State();
      finished := DestroyAndWait(self);
      if !finished { return; }
      finished := Enter(self, M.Destroy, M.TestMapped(true));
      if !finished { return; }
      finished := CleanUp(self);
      if !finished { return; }
      PassesNow(|old(trace)|);
      via := State();
      ghost var through := trace;
      ResetMeansClean();
      finished := Leave(self);
      StaysPassed(start, through, trace, |old(trace)|, |old(trace)|, via);
    }

    lemma ResetMeansClean()
      requires Valid() && state.Uninitialized?
      ensures !handle_open && kernel.Gone?
    {
      hide M.Init, M.ValidRun, M.Run;
    }

    lemma ResetFindsUnmapped(self: Handle)
      requires Valid() && self in phase && self != child && phase[self] == M.Inside(M.Reset)
      ensures !is_alias_thread_stack_mapped
    {
      hide M.Init, M.ValidRun, M.Run;
      assert M.ThreadOk(State(), self, phase[self], lock.pc[self]);
    }

    /** while (context->state == ThreadState::Initialized): the loop is left at once, since
        the thread is started under the lock, which is given up only with the state set. */
    method TestState(self: Handle) returns (done: bool)
      requires Valid() && self in phase && self in lock.pc && self == child
      requires phase[self] == M.Inside(M.TestState) && lock.pc[self].Held?
      modifies this
      ensures Valid() && start == old(start) && old(trace) <= trace && self in phase && self in lock.pc
      ensures done ==> phase[self] == M.Inside(M.CheckState) && lock.pc[self].Held?
    {
      hide M.RunsTo, M.Next, M.Enabled;
      var mine, m := AwaitTurn(self, M.Start);
      InvKeys();
      if !mine { return false; }
      ghost var before := State();
      M.InsideNext(before, m);
      StateIsSet();
      phase := phase[self := M.Inside(if state.Initialized? then M.AboutToWait else M.CheckState)];
      Record(before, m);
      done := true;
    }

    lemma StateIsSet()
      requires Valid() && child in phase && phase[child] == M.Inside(M.TestState)
      ensures !state.Initialized?
    {
      hide M.Init, M.ValidRun, M.Run;
      assert M.ThreadOk(State(), child, phase[child], lock.pc[child]);
    }

    /** context->state == ThreadState::Started */
    method CheckState(self: Handle) returns (done: bool, up: bool)
      requires Valid() && self in phase && self in lock.pc && self == child
      requires phase[self] == M.Inside(M.CheckState) && lock.pc[self].Held?
      modifies this
      ensures Valid() && start == old(start) && old(trace) <= trace && self in phase && self in lock.pc
      ensures done ==> lock.pc[self].Held? && up == state.Started?
      ensures done ==> phase[self] == M.Leaving(if up then M.RunEntrypoint else M.EnterToExit)
    {
      hide M.RunsTo, M.Next, M.Enabled;
      var mine, m := AwaitTurn(self, M.Start);
      InvKeys();
      if !mine { return false, false; }
      ghost var before := State();
      M.InsideNext(before, m);
      up := state.Started?;
      phase := phase[self := M.Leaving(if up then M.RunEntrypoint else M.EnterToExit)];
      Record(before, m);
      done := true;
    }

    /** context->thread_entrypoint(context->thread_argument) */
    method RunEntrypoint(self: Handle) returns (done: bool)
      requires Valid() && self in phase && self in lock.pc && self == child
      requires phase[self] == M.Outer(M.RunEntrypoint) && lock.pc[self].Idle?
      modifies this
      ensures Valid() && start == old(start) && old(trace) <= trace && self in phase && self in lock.pc
      ensures done ==> phase[self] == M.Outer(M.EnterToExit) && lock.pc[self].Idle?
    {
      hide M.RunsTo, Lock.ThreadStep, Lock.HandOver, Lock.KernelChoice;
      var mine, m := AwaitTurn(self, M.Start);
      InvKeys();
      if !mine { return false; }
      ghost var before := State();
      history := history.(entryRuns := history.entryRuns + 1);
      phase := phase[self := M.Outer(M.EnterToExit)];
      Record(before, m);
      done := true;
    }

    /** context->state = ThreadState::Exited */
    method MarkExited(self: Handle) returns (done: bool)
      requires Valid() && self in phase && self in lock.pc && self == child
      requires phase[self] == M.Inside(M.SetExited) && lock.pc[self].Held?
      modifies this
      ensures Valid() && start == old(start) && old(trace) <= trace && self in phase && self in lock.pc
      ensures done ==> phase[self] == M.Inside(M.BroadcastExit) && lock.pc[self].Held?
    {
      hide M.RunsTo, M.Next, M.Enabled;
      var mine, m := AwaitTurn(self, M.Start);
      InvKeys();
      if !mine { return false; }
      ghost var before := State();
      M.InsideNext(before, m);
      state := M.Exited;
      phase := phase[self := M.Inside(M.BroadcastExit)];
      Record(before, m);
      done := true;
    }

    /** condition_variable->Broadcast() */
    method BroadcastExit(self: Handle) returns (done: bool)
      requires Valid() && self in phase && self in lock.pc && self == child
      requires phase[self] == M.Inside(M.BroadcastExit) && lock.pc[self].Held?
      modifies this
      ensures Valid() && start == old(start) && old(trace) <= trace && self in phase && self in lock.pc
      ensures done ==> phase[self] == M.Leaving(M.ExitThread) && lock.pc[self].Held?
    {
      hide M.RunsTo, M.Next, M.Enabled, Lock.Next, Lock.Enabled;
      var mine, m := AwaitTurn(self, M.Start);
      InvKeys();
      if !mine { return false; }
      ghost var before := State();
      M.SignalNext(before, m);
      lock := Lock.Next(lock, Lock.Signal(self, -1, m.woken));
      phase := phase[self := M.Leaving(M.ExitThread)];
      Record(before, m);
      done := true;
    }

    /** svc::ExitThread() */
    method ExitThread(self: Handle) returns (done: bool)
      requires Valid() && self in phase && self in lock.pc && self == child
      requires phase[self] == M.Outer(M.ExitThread) && lock.pc[self].Idle?
      modifies this
      ensures Valid() && start == old(start) && old(trace) <= trace && self in phase && self in lock.pc
      ensures done ==> phase[self].Finished? && kernel.Gone? && lock.pc[self].Idle?
    {
      hide M.RunsTo, Lock.ThreadStep, Lock.HandOver, Lock.KernelChoice;
      var mine, m := AwaitTurn(self, M.Start);
      InvKeys();
      if !mine { return false; }
      ghost var before := State();
      kernel := M.Gone;
      phase := phase[self := M.Finished];
      Record(before, m);
      done := true;
    }

    /** Up to the entrypoint, which runs exactly if the state is Started. */
    method EnterAndRun(self: Handle) returns (done: bool)
      requires Valid() && self in phase && self in lock.pc && self == child
      requires phase[self] == M.Outer(M.EnterToTest) && lock.pc[self].Idle?
      modifies this
      ensures Valid() && start == old(start) && old(trace) <= trace && self in phase && self in lock.pc
      ensures done ==> phase[self] == M.Outer(M.EnterToExit) && lock.pc[self].Idle?
    {
      hide M.RunsTo, M.Next, M.Enabled;
      var up;
      done := Enter(self, M.Start, M.TestState);
      if !done { return; }
      done := TestState(self);
      if !done { return; }
      done, up := CheckState(self);
      if !done { return; }
      done := Leave(self);
      if !done { return; }
      if up {
        done := RunEntrypoint(self);
      }
    }

    /** _thread_entry_wrapper(): it ends with the kernel thread gone and the state Exited,
        or reset since, having run the entrypoint exactly once, or not at all if
        DestroyThread() came first. */
    method ThreadEntryWrapper(self: Handle) returns (finished: bool)
      requires Valid() && self in phase && self in lock.pc && self == child
      requires phase[self] == M.Outer(M.EnterToTest) && lock.pc[self].Idle?
      modifies this
      ensures Valid() && start == old(start) && old(trace) <= trace && self in phase && self in lock.pc
      ensures finished ==> phase[self].Finished? && kernel.Gone? && state in {M.Exited, M.Uninitialized}
      ensures finished ==> history.entryRuns == if history.destroyedFirst then 0 else 1
    {
      hide M.RunsTo, M.Next, M.Enabled;
      finished := EnterAndRun(self);
      if !finished { return; }
      finished := Enter(self, M.Start, M.SetExited);
      if !finished { return; }
      finished := MarkExited(self);
      if !finished { return; }
      finished := BroadcastExit(self);
      if !finished { return; }
      finished := Leave(self);
      if !finished { return; }
      finished := ExitThread(self);
      WrapperEnds();
    }

    lemma WrapperEnds()
      requires Valid()
      ensures kernel.Gone? ==> state in {M.Exited, M.Uninitialized}
      ensures kernel.Gone? ==> history.entryRuns == if history.destroyedFirst then 0 else 1
    {
      hide M.Init, M.ValidRun, M.Run;
    }
  }
}
