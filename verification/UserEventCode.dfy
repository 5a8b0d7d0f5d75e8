/** WaitUserEvent, IsUserEventSignaled, SignalUserEvent and ClearUserEvent in their own
    form, run by one thread while the others do as they please, and proved to be runs
    of the event's step machine. */
module UserEventCode {
  import opened Basics
  import opened LockWord
  import Lock = LockProtocol
  import M = UserEvent

  /** One entry of a schedule: this thread's turn with the kernel's choices, or a step
      of another thread. */
  datatype Turn = Mine(next: Option<Handle>, woken: seq<Handle>) | Other(m: M.Move)

  /** The machine's history variables. */
  datatype History = History(initially: bool, raised: nat, taken: nat, dropped: nat, delivered: nat,
                             queuedAtRaise: nat)

  ghost predicate PassesThrough(start: M.Event, trace: seq<M.Move>, steps: nat, via: M.Event) {
    exists es: seq<M.Move> :: steps < |es| && es <= trace && M.ValidRun(start, es) && M.Run(start, es) == via
  }

  lemma StaysPassed(start: M.Event, trace: seq<M.Move>, longer: seq<M.Move>, steps: nat, via: M.Event)
    requires PassesThrough(start, trace, steps, via) && trace <= longer
    ensures PassesThrough(start, longer, steps, via)
  {
    var es: seq<M.Move> :| steps < |es| && es <= trace && M.ValidRun(start, es) && M.Run(start, es) == via;
    assert es <= longer;
  }

  /** The event's fields, the positions of all threads, the history, and the rest of an
      arbitrary finite schedule. A call whose schedule runs out returns early and says
      so. */
  class UserEvent {
    var is_signaled: bool
    const is_auto_clear: bool
    var lock: Lock.System
    var phase: map<Handle, M.Phase>
    var history: History
    var schedule: seq<Turn>
    ghost var start: M.Event
    ghost var trace: seq<M.Move>

    function State(): M.Event
      reads this
    {
      M.Event(is_signaled, is_auto_clear, lock, phase,
              history.initially, history.raised, history.taken, history.dropped, history.delivered,
              history.queuedAtRaise)
    }

    /** What happened since start is a run of the machine that ends here. */
    ghost predicate Valid()
      reads this
    {
      && lock.pc.Keys == phase.Keys
      && M.Init(start) && M.ValidRun(start, trace) && M.Run(start, trace) == State()
    }

    /** InitializeUserEvent(): the signal is whatever the memory held before. */
    constructor (garbage: bool, is_auto_clear: bool, threads: set<Handle>, schedule: seq<Turn>)
      ensures Valid() && M.Init(State()) && phase.Keys == threads
      ensures is_signaled == garbage && this.is_auto_clear == is_auto_clear
    {
      is_signaled := garbage;
      this.is_auto_clear := is_auto_clear;
      lock := Lock.System(0, map t: Handle | t in threads :: Lock.Idle);
      phase := map t: Handle | t in threads :: M.Outside;
      history := History(garbage, 0, 0, 0, 0, 0);
      this.schedule := schedule;
      trace := [];
      start := M.Event(garbage, is_auto_clear, Lock.System(0, map t: Handle | t in threads :: Lock.Idle),
                       map t: Handle | t in threads :: M.Outside, garbage, 0, 0, 0, 0, 0);
    }

    /** The run went through a state after more than so many steps. */
    ghost predicate Passed(steps: nat, via: M.Event)
      reads this
    {
      PassesThrough(start, trace, steps, via)
    }

    lemma PassesNow(steps: nat)
      requires Valid() && steps < |trace|
      ensures Passed(steps, State())
    {
      assert trace <= trace;
    }

    lemma PassedEarlier(fewer: nat, steps: nat, via: M.Event)
      requires fewer <= steps && Passed(steps, via)
      ensures Passed(fewer, via)
    {
      var es: seq<M.Move> :| steps < |es| && es <= trace && M.ValidRun(start, es) && M.Run(start, es) == via;
      assert fewer < |es|;
    }

    /** Adds one step, which took the event from before to the present state. */
    ghost method Record(before: M.Event, m: M.Move)
      requires M.Init(start) && M.ValidRun(start, trace) && M.Run(start, trace) == before
      requires before.lock.pc.Keys == before.phase.Keys
      requires M.Enabled(before, m) && State() == M.Next(before, m)
      modifies this`trace
      ensures Valid() && trace == old(trace) + [m]
    {
      hide M.Enabled, M.Next;
      M.KeysKept(before, m);
      M.RunSnoc(start, trace, m);
      trace := trace + [m];
    }

    /** A step of another thread. */
    method Perform(self: Handle, m: M.Move)
      requires Valid() && self in phase && M.Enabled(State(), m) && m.t != self
      modifies this`is_signaled, this`lock, this`phase, this`history, this`trace
      ensures Valid() && old(trace) <= trace && self in phase && phase[self] == old(phase[self])
      ensures
        var q, q' := old(lock.pc[self]), lock.pc[self];
        || q' == q
        || (Lock.LockAsleep(q) && q' == Lock.Resumed(q))
        || (q.CondAsleep? && q' in {Lock.Held, Lock.CondRequeued(q.timed)})
    {
      hide M.Init, M.ValidRun, M.Run;
      ghost var before := State();
      M.OthersKept(before, m, self);
      var after := M.Next(State(), m);
      is_signaled, lock, phase := after.isSignaled, after.lock, after.phase;
      history := History(after.initially, after.raised, after.taken, after.dropped, after.delivered,
                         after.queuedAtRaise);
      Record(before, m);
    }

    /** Runs the others until the scheduler picks this thread while it can move. */
    method AwaitTurn(self: Handle, op: M.Operation) returns (mine: bool, m: M.Move)
      requires Valid() && self in phase
      modifies this
      ensures Valid() && start == old(start) && old(trace) <= trace && |schedule| <= old(|schedule|)
      ensures self in phase && phase[self] == old(phase[self])
      ensures mine ==> m.t == self && m.op == op && M.Enabled(State(), m) && |schedule| < old(|schedule|)
      ensures mine ==>
        var q := old(lock.pc[self]);
        lock.pc[self] == if Lock.Asleep(q) then Lock.Resumed(q) else q
      ensures !mine ==> schedule == []
    {
      hide M.Init, M.ValidRun, M.Run;
      m := M.Move(self, op, None, []);
      ghost var q := lock.pc[self];
      while schedule != []
        invariant Valid() && start == old(start) && old(trace) <= trace && |schedule| <= old(|schedule|)
        invariant self in phase && phase[self] == old(phase[self])
        invariant lock.pc[self] == q || (q.EnterAsleep? && lock.pc[self].EnterCas?)
                  || (Lock.Asleep(q) && !q.EnterAsleep? && (lock.pc[self].Held? || lock.pc[self].CondRequeued?))
        decreases |schedule|
      {
        var turn := schedule[0];
        schedule := schedule[1..];
        match turn {
          case Mine(next, woken) =>
            m := M.Move(self, op, next, woken);
            if M.Enabled(State(), m) {
              return true, m;
            }
          case Other(other) =>
            if other.t != self && M.Enabled(State(), other) {
              Perform(self, other);
            }
        }
      }
      mine := false;
    }

    /** One step of the lock's own code. */
    method LockStep(self: Handle, m: M.Move)
      requires Valid() && m.t == self && M.Enabled(State(), m)
      requires (phase[self].Entering? && !lock.pc[self].Held?) || (phase[self].Leaving? && Lock.Running(lock.pc[self]))
      modifies this`lock, this`phase, this`history, this`trace
      ensures Valid() && old(trace) <= trace
      ensures State() == M.Next(old(State()), m)
      ensures lock == M.NextLock(old(State()), m)
    {
      hide M.Init, M.ValidRun, M.Run;
      ghost var before := State();
      M.LockStepOnly(before, m);
      lock := Lock.Next(lock, Lock.Step(self, m.next));
      if phase[self].Leaving? && lock.pc[self].Idle? {
        history := history.(delivered := history.delivered + if phase[self].took then 1 else 0);
        phase := phase[self := M.Outside];
      }
      Record(before, m);
    }

    method BeginEnter(self: Handle, op: M.Operation) returns (begun: bool)
      requires Valid() && self in phase && phase[self].Outside? && lock.pc[self].Idle?
      modifies this
      ensures Valid() && start == old(start) && old(trace) <= trace && self in phase
      ensures begun ==> phase[self] == M.Entering(op) && lock.pc[self].EnterCas?
    {
      hide M.Init, M.ValidRun, M.Run;
      var mine, m := AwaitTurn(self, op);
      if !mine { return false; }
      ghost var before := State();
      lock := Lock.Next(lock, Lock.CallEnter(self));
      phase := phase[self := M.Entering(op)];
      Record(before, m);
      begun := true;
    }

    /** critical_section.Enter() */
    method Enter(self: Handle, op: M.Operation) returns (entered: bool)
      requires Valid() && self in phase && phase[self].Outside? && lock.pc[self].Idle?
      modifies this
      ensures Valid() && start == old(start) && old(trace) <= trace && self in phase
      ensures entered ==> phase[self] == M.Opening(op) && lock.pc[self].Held?
    {
      hide M.Init, M.ValidRun, M.Run, M.Next, M.NextLock;
      var mine := BeginEnter(self, op);
      if !mine { return false; }
      var m;
      while !lock.pc[self].Held?
        invariant Valid() && start == old(start) && old(trace) <= trace
        invariant self in phase && phase[self] == M.Entering(op)
        invariant Lock.Entering(lock.pc[self]) || lock.pc[self].EnterAsleep? || lock.pc[self].Held?
        decreases |schedule|
      {
        mine, m := AwaitTurn(self, op);
        if !mine { return false; }
        M.EnterSteps(State(), m);
        LockStep(self, m);
      }
      entered := Entered(self, op);
    }

    method Entered(self: Handle, op: M.Operation) returns (done: bool)
      requires Valid() && self in phase && phase[self] == M.Entering(op) && lock.pc[self].Held?
      modifies this
      ensures Valid() && start == old(start) && old(trace) <= trace && self in phase
      ensures done ==> phase[self] == M.Opening(op) && lock.pc[self].Held?
    {
      hide M.Init, M.ValidRun, M.Run;
      var mine, m := AwaitTurn(self, op);
      if !mine { return false; }
      ghost var before := State();
      phase := phase[self := M.Opening(op)];
      Record(before, m);
      done := true;
    }

    method BeginLeave(self: Handle) returns (begun: bool)
      requires Valid() && self in phase && phase[self].Leaving? && lock.pc[self].Held?
      modifies this
      ensures Valid() && start == old(start) && old(trace) <= trace && self in phase
      ensures begun ==> phase[self] == old(phase[self]) && lock.pc[self].LeaveCas?
    {
      hide M.Init, M.ValidRun, M.Run;
      var mine, m := AwaitTurn(self, M.Wait);
      if !mine { return false; }
      ghost var before := State();
      lock := Lock.Next(lock, Lock.CallLeave(self));
      assert phase[self := phase[self]] == phase;
      Record(before, m);
      begun := true;
    }

    /** critical_section.Leave() */
    method Leave(self: Handle) returns (left: bool)
      requires Valid() && self in phase && phase[self].Leaving? && lock.pc[self].Held?
      modifies this
      ensures Valid() && start == old(start) && old(trace) <= trace && self in phase
      ensures left ==> phase[self].Outside? && lock.pc[self].Idle?
    {
      hide M.Init, M.ValidRun, M.Run, M.Next, M.NextLock;
      var mine := BeginLeave(self);
      if !mine { return false; }
      var m;
      while !phase[self].Outside?
        invariant Valid() && start == old(start) && old(trace) <= trace && self in phase
        invariant
          || (phase[self].Leaving? && (lock.pc[self].LeaveCas? || lock.pc[self].LeaveArbitrate?))
          || (phase[self].Outside? && lock.pc[self].Idle?)
        decreases |schedule|
      {
        mine, m := AwaitTurn(self, M.Wait);
        if !mine { return false; }
        M.LeaveSteps(State(), m);
        LockStep(self, m);
      }
      left := true;
    }

    /** The entry of Wait: release and enqueue in one step. */
    method BeginWait(self: Handle) returns (begun: bool)
      requires Valid() && self in phase && phase[self].AboutToWait? && lock.pc[self].Held?
      modifies this
      ensures Valid() && start == old(start) && old(trace) <= trace && self in phase
      ensures |schedule| <= old(|schedule|)
      ensures begun ==> phase[self].Waiting? && lock.pc[self] == Lock.CondAsleep(false)
    {
      hide M.Init, M.ValidRun, M.Run;
      var mine, m := AwaitTurn(self, M.Wait);
      if !mine { return false; }
      ghost var before := State();
      lock := Lock.Next(lock, Lock.Wait(self, false, m.next));
      phase := phase[self := M.Waiting];
      Record(before, m);
      begun := true;
    }

    /** condition_variable.Wait(&critical_section) */
    method WaitForSignal(self: Handle) returns (done: bool)
      requires Valid() && self in phase && phase[self].AboutToWait? && lock.pc[self].Held?
      modifies this
      ensures Valid() && start == old(start) && old(trace) <= trace && self in phase
      ensures |schedule| <= old(|schedule|)
      ensures done ==> phase[self].WaitTest? && lock.pc[self].Held? && |schedule| < old(|schedule|)
    {
      hide M.Init, M.ValidRun, M.Run, Lock.Enabled, Lock.Next;
      var mine := BeginWait(self);
      if !mine { return false; }
      var m;
      mine, m := AwaitTurn(self, M.Wait);
      if !mine { return false; }
      ghost var before := State();
      phase := phase[self := M.WaitTest];
      Record(before, m);
      done := true;
    }

    /** The test of the loop: true if the signal is up. */
    method TestSignal(self: Handle) returns (mine: bool, up: bool)
      requires Valid() && self in phase && phase[self].WaitTest? && lock.pc[self].Held?
      modifies this
      ensures Valid() && start == old(start) && old(trace) <= trace && self in phase
      ensures |schedule| <= old(|schedule|)
      ensures mine ==> lock.pc[self].Held? && phase[self] == if up then M.WaitClear else M.AboutToWait
    {
      hide M.Init, M.ValidRun, M.Run;
      var m;
      up := false;
      mine, m := AwaitTurn(self, M.Wait);
      if !mine { return; }
      ghost var before := State();
      up := is_signaled;
      phase := phase[self := if up then M.WaitClear else M.AboutToWait];
      Record(before, m);
    }

    /** if (event->is_signaled && event->is_auto_clear), behind the loop: still up. */
    method TestAgain(self: Handle) returns (mine: bool, takes: bool)
      requires Valid() && self in phase && phase[self].WaitClear? && lock.pc[self].Held?
      modifies this
      ensures Valid() && start == old(start) && old(trace) <= trace && self in phase
      ensures mine ==> takes == is_auto_clear && is_signaled && lock.pc[self].Held? && |trace| > |old(trace)|
      ensures mine ==> phase[self] == if takes then M.WaitStore else M.Leaving(false)
    {
      hide M.Init, M.ValidRun, M.Run;
      var m;
      takes := false;
      mine, m := AwaitTurn(self, M.Wait);
      if !mine { return; }
      ghost var before := State();
      SignalIsUp(m);
      takes := is_signaled && is_auto_clear;
      phase := phase[self := if takes then M.WaitStore else M.Leaving(false)];
      Record(before, m);
    }

    /** event->is_signaled = false */
    method StoreTaken(self: Handle) returns (done: bool)
      requires Valid() && self in phase && phase[self].WaitStore? && lock.pc[self].Held?
      modifies this
      ensures Valid() && start == old(start) && old(trace) <= trace && self in phase
      ensures done ==> phase[self] == M.Leaving(true) && lock.pc[self].Held? && !is_signaled && |trace| > |old(trace)|
    {
      hide M.Init, M.ValidRun, M.Run;
      var mine, m := AwaitTurn(self, M.Wait);
      if !mine { return false; }
      ghost var before := State();
      is_signaled := false;
      history := history.(taken := history.taken + 1);
      phase := phase[self := M.Leaving(true)];
      Record(before, m);
      done := true;
    }

    /** Behind the loop, the signal is taken if the event clears itself. */
    method TakeSignal(self: Handle) returns (done: bool)
      requires Valid() && self in phase && phase[self].WaitClear? && lock.pc[self].Held?
      modifies this
      ensures Valid() && start == old(start) && old(trace) <= trace && self in phase
      ensures done ==> phase[self] == M.Leaving(is_auto_clear) && lock.pc[self].Held? && is_signaled == !is_auto_clear
      ensures done ==> |trace| > |old(trace)|
    {
      hide M.Init, M.ValidRun, M.Run;
      var takes;
      done, takes := TestAgain(self);
      if !done { return; }
      if takes {
        done := StoreTaken(self);
      }
    }

    lemma SignalIsUp(m: M.Move)
      requires Valid() && M.Enabled(State(), m) && phase[m.t].WaitClear?
      ensures is_signaled
    {
      hide M.Init, M.ValidRun, M.Run, M.Enabled, M.Next;
      assert M.Reachable(State());
      M.WaitTakesTheSignal(State(), m);
    }

    /** A wait that returns went through a state in which it had left the loop, with the
        signal taken exactly if the event clears itself. */
    method WaitUserEvent(self: Handle) returns (finished: bool, ghost via: M.Event)
      requires Valid() && self in phase && phase[self].Outside? && lock.pc[self].Idle?
      modifies this
      ensures Valid() && start == old(start) && old(trace) <= trace && self in phase
      ensures finished ==> phase[self].Outside? && lock.pc[self].Idle?
      ensures finished ==>
        && Passed(|old(trace)|, via) && self in via.phase
        && via.phase[self] == M.Leaving(is_auto_clear) && via.isSignaled == !is_auto_clear
    {
      hide M.Init, M.ValidRun, M.Run;
      via := State();
      finished := Enter(self, M.Wait);
      if !finished { return; }
      var up := false;
      while true
        invariant Valid() && start == old(start) && old(trace) <= trace
        invariant self in phase && phase[self].WaitTest? && lock.pc[self].Held?
        decreases |schedule|
      {
        finished, up := TestSignal(self);
        if !finished { return; }
        if up {
          break;
        }
        finished := WaitForSignal(self);
        if !finished { return; }
      }
      finished := TakeSignal(self);
      if !finished { return; }
      PassesNow(|old(trace)|);
      via := State();
      ghost var before := trace;
      finished := Leave(self);
      StaysPassed(start, before, trace, |old(trace)|, via);
    }

    /** The load and the store of a query. */
    method Query(self: Handle) returns (done: bool, signaled: bool, ghost via: M.Event)
      requires Valid() && self in phase && phase[self].QueryRead? && lock.pc[self].Held?
      modifies this
      ensures Valid() && start == old(start) && old(trace) <= trace && self in phase
      ensures done ==> phase[self] == M.Leaving(is_auto_clear && signaled) && lock.pc[self].Held?
      ensures done ==> is_signaled == (signaled && !is_auto_clear) && |trace| > |old(trace)|
      ensures done ==>
        && Passed(|old(trace)|, via) && self in via.phase
        && via.phase[self] == M.QueryClear(signaled) && via.isSignaled == signaled
    {
      hide M.Init, M.ValidRun, M.Run;
      done, signaled, via := Load(self);
      if !done { return; }
      ghost var loaded := trace;
      done := ClearQueried(self, signaled);
      if !done { return; }
      StaysPassed(start, loaded, trace, |old(trace)|, via);
    }

    /** if (event->is_auto_clear) event->is_signaled = false; */
    method ClearQueried(self: Handle, signaled: bool) returns (done: bool)
      requires Valid() && self in phase && phase[self] == M.QueryClear(signaled) && lock.pc[self].Held?
      modifies this
      ensures Valid() && start == old(start) && old(trace) <= trace && self in phase
      ensures done ==> phase[self] == M.Leaving(is_auto_clear && signaled) && lock.pc[self].Held?
      ensures done ==> is_signaled == (signaled && !is_auto_clear) && |trace| > |old(trace)|
    {
      hide M.Init, M.ValidRun, M.Run;
      var m;
      done, m := AwaitTurn(self, M.Query);
      if !done { return; }
      ghost var before := State();
      SignalIsLoaded(m);
      if is_auto_clear {
        is_signaled := false;
        history := history.(taken := history.taken + if signaled then 1 else 0);
      }
      phase := phase[self := M.Leaving(is_auto_clear && signaled)];
      Record(before, m);
    }

    lemma SignalIsLoaded(m: M.Move)
      requires Valid() && M.Enabled(State(), m) && phase[m.t].QueryClear?
      ensures phase[m.t].loaded == is_signaled
    {
      hide M.Init, M.ValidRun, M.Run, M.Next;
      assert M.Reachable(State());
      M.QueryTakesTheSignal(State(), m);
    }

    method Load(self: Handle) returns (done: bool, signaled: bool, ghost via: M.Event)
      requires Valid() && self in phase && phase[self].QueryRead? && lock.pc[self].Held?
      modifies this
      ensures Valid() && start == old(start) && old(trace) <= trace && self in phase
      ensures done ==> phase[self] == M.QueryClear(signaled) && is_signaled == signaled && lock.pc[self].Held?
      ensures done ==> via == State() && Passed(|old(trace)|, via)
    {
      hide M.Init, M.ValidRun, M.Run;
      var mine, m := AwaitTurn(self, M.Query);
      signaled, via := is_signaled, State();
      if !mine { return false, signaled, via; }
      ghost var before := State();
      phase := phase[self := M.QueryClear(signaled)];
      Record(before, m);
      PassesNow(|old(trace)|);
      via := State();
      done := true;
    }

    /** The result is the signal at the time of the load; an auto-clear event is down after
        the store, any other as it was. */
    method IsUserEventSignaled(self: Handle)
      returns (finished: bool, signaled: bool, ghost via: M.Event, ghost stored: M.Event)
      requires Valid() && self in phase && phase[self].Outside? && lock.pc[self].Idle?
      modifies this
      ensures Valid() && start == old(start) && old(trace) <= trace && self in phase
      ensures finished ==> phase[self].Outside? && lock.pc[self].Idle?
      ensures finished ==>
        && Passed(|old(trace)|, via) && self in via.phase
        && via.phase[self] == M.QueryClear(signaled) && via.isSignaled == signaled
      ensures finished ==>
        && Passed(|old(trace)|, stored) && self in stored.phase
        && stored.phase[self] == M.Leaving(is_auto_clear && signaled)
        && stored.isSignaled == (signaled && !is_auto_clear)
    {
      hide M.Init, M.ValidRun, M.Run;
      signaled, via, stored := false, State(), State();
      finished := Enter(self, M.Query);
      if !finished { return; }
      ghost var steps := |trace|;
      finished, signaled, via := Query(self);
      if !finished { return; }
      PassedEarlier(|old(trace)|, steps, via);
      PassesNow(|old(trace)|);
      stored := State();
      ghost var before := trace;
      finished := Leave(self);
      StaysPassed(start, before, trace, |old(trace)|, via);
      StaysPassed(start, before, trace, |old(trace)|, stored);
    }

    /** is_signaled = true */
    method SetSignal(self: Handle) returns (done: bool, ghost via: M.Event)
      requires Valid() && self in phase && phase[self].SignalSet? && lock.pc[self].Held?
      modifies this
      ensures Valid() && start == old(start) && old(trace) <= trace && self in phase
      ensures done ==> phase[self].SignalWake? && lock.pc[self].Held? && is_signaled
      ensures done ==> via == State() && Passed(|old(trace)|, via)
    {
      hide M.Init, M.ValidRun, M.Run;
      var mine, m := AwaitTurn(self, M.Signal);
      via := State();
      if !mine { return false, via; }
      ghost var before := State();
      history := history.(raised := history.raised + if is_signaled then 0 else 1,
                          queuedAtRaise := |Lock.CondQueue(lock)|);
      is_signaled := true;
      phase := phase[self := M.SignalWake];
      Record(before, m);
      PassesNow(|old(trace)|);
      via := State();
      done := true;
    }

    /** condition_variable.Signal() */
    method Wake(self: Handle) returns (done: bool)
      requires Valid() && self in phase && phase[self].SignalWake? && lock.pc[self].Held?
      modifies this
      ensures Valid() && start == old(start) && old(trace) <= trace && self in phase
      ensures done ==> phase[self] == M.Leaving(false) && lock.pc[self].Held?
    {
      hide M.Init, M.ValidRun, M.Run, M.Next, M.Enabled, Lock.Next, Lock.Enabled;
      var mine, m := AwaitTurn(self, M.Signal);
      if !mine { return false; }
      ghost var before := State();
      M.SignalNext(before, m);
      lock := Lock.Next(lock, Lock.Signal(self, 1, m.woken));
      phase := phase[self := M.Leaving(false)];
      Record(before, m);
      done := true;
    }

    method TestBeforeSet(self: Handle) returns (mine: bool, up: bool)
      requires Valid() && self in phase && phase[self].SignalTest? && lock.pc[self].Held?
      modifies this
      ensures Valid() && start == old(start) && old(trace) <= trace && self in phase
      ensures mine ==> lock.pc[self].Held? && up == is_signaled && |trace| > |old(trace)|
      ensures mine ==> phase[self] == if up then M.Leaving(false) else M.SignalSet
    {
      hide M.Init, M.ValidRun, M.Run;
      var m;
      mine, m := AwaitTurn(self, M.Signal);
      up := is_signaled;
      if !mine { return; }
      ghost var before := State();
      phase := phase[self := if up then M.Leaving(false) else M.SignalSet];
      Record(before, m);
    }

    /** A call that returns went through the state of its test, in which it saw the signal
        up or down; and only if it saw it down, through a state in which it had raised it
        and was about to wake a waiter. */
    method SignalUserEvent(self: Handle) returns (finished: bool, ghost seen: M.Event, ghost via: M.Event)
      requires Valid() && self in phase && phase[self].Outside? && lock.pc[self].Idle?
      modifies this
      ensures Valid() && start == old(start) && old(trace) <= trace && self in phase
      ensures finished ==> phase[self].Outside? && lock.pc[self].Idle?
      ensures finished ==>
        && Passed(|old(trace)|, seen) && self in seen.phase
        && seen.phase[self] == if seen.isSignaled then M.Leaving(false) else M.SignalSet
      ensures finished && !seen.isSignaled ==>
        Passed(|old(trace)|, via) && self in via.phase && via.phase[self].SignalWake? && via.isSignaled
    {
      hide M.Init, M.ValidRun, M.Run;
      seen, via := State(), State();
      finished := Enter(self, M.Signal);
      if !finished { return; }
      var up;
      finished, up := TestBeforeSet(self);
      if !finished { return; }
      PassesNow(|old(trace)|);
      seen := State();
      ghost var tested := trace;
      if !up {
        finished, via := SetAndWake(self);
        if !finished { return; }
        PassedEarlier(|old(trace)|, |tested|, via);
      }
      ghost var woken := trace;
      finished := Leave(self);
      StaysPassed(start, tested, trace, |old(trace)|, seen);
      if !up { StaysPassed(start, woken, trace, |old(trace)|, via); }
    }

    method SetAndWake(self: Handle) returns (done: bool, ghost via: M.Event)
      requires Valid() && self in phase && phase[self].SignalSet? && lock.pc[self].Held?
      modifies this
      ensures Valid() && start == old(start) && old(trace) <= trace && self in phase
      ensures done ==> phase[self] == M.Leaving(false) && lock.pc[self].Held?
      ensures done ==>
        Passed(|old(trace)|, via) && self in via.phase && via.phase[self].SignalWake? && via.isSignaled
    {
      hide M.Init, M.ValidRun, M.Run;
      done, via := SetSignal(self);
      if !done { return; }
      ghost var through := trace;
      done := Wake(self);
      StaysPassed(start, through, trace, |old(trace)|, via);
    }

    /** is_signaled = false */
    method ResetSignal(self: Handle) returns (done: bool)
      requires Valid() && self in phase && phase[self].ClearWrite? && lock.pc[self].Held?
      modifies this
      ensures Valid() && start == old(start) && old(trace) <= trace && self in phase
      ensures done ==> phase[self] == M.Leaving(false) && lock.pc[self].Held? && !is_signaled && |trace| > |old(trace)|
    {
      hide M.Init, M.ValidRun, M.Run;
      var mine, m := AwaitTurn(self, M.Clear);
      if !mine { return false; }
      ghost var before := State();
      history := history.(dropped := history.dropped + if is_signaled then 1 else 0);
      is_signaled := false;
      phase := phase[self := M.Leaving(false)];
      Record(before, m);
      done := true;
    }

    method ClearUserEvent(self: Handle) returns (finished: bool, ghost via: M.Event)
      requires Valid() && self in phase && phase[self].Outside? && lock.pc[self].Idle?
      modifies this
      ensures Valid() && start == old(start) && old(trace) <= trace && self in phase
      ensures finished ==> phase[self].Outside? && lock.pc[self].Idle?
      ensures finished ==>
        Passed(|old(trace)|, via) && self in via.phase && !via.isSignaled && via.phase[self] == M.Leaving(false)
    {
      hide M.Init, M.ValidRun, M.Run;
      via := State();
      finished := Enter(self, M.Clear);
      if !finished { return; }
      finished := ResetSignal(self);
      if !finished { return; }
      PassesNow(|old(trace)|);
      via := State();
      ghost var before := trace;
      finished := Leave(self);
      StaysPassed(start, before, trace, |old(trace)|, via);
    }
  }
}
