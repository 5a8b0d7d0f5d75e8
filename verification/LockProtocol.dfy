/** The 32-bit lock word of a critical section: the handle of the owning thread,
    plus one bit (bit 30) that says some thread may be asleep on the word. */
module LockWord {
  const HAS_LISTENERS := 0x4000_0000

  type Word = w: int | 0 <= w < 0x1_0000_0000

  /** word & HAS_LISTENERS, as a truth value */
  predicate HasListeners(word: Word) {
    (word / HAS_LISTENERS) % 2 == 1
  }

  /** word & ~HAS_LISTENERS */
  function OwnerBits(word: Word): Word {
    if HasListeners(word) then word - HAS_LISTENERS else word
  }

  /** word | HAS_LISTENERS */
  function WithListeners(word: Word): Word {
    if HasListeners(word) then word else word + HAS_LISTENERS
  }

  /** Kernel handles are nonzero and leave the listener bit clear. */
  type Handle = h: Word | h != 0 && !HasListeners(h) witness 1

  /** The listener bit is bit 30, and the owner what is left without it. */
  lemma ListenerBit(word: Word)
    ensures HasListeners(word) <==> word / 0x4000_0000 % 2 == 1
    ensures OwnerBits(word) == word - 0x4000_0000 * (word / 0x4000_0000 % 2)
    ensures WithListeners(word) == OwnerBits(word) + 0x4000_0000
  {
  }

  lemma WordFacts(word: Word)
    ensures OwnerBits(0) == 0 && !HasListeners(0)
    ensures HasListeners(WithListeners(word)) && WithListeners(word) != 0
    ensures OwnerBits(WithListeners(word)) == OwnerBits(word)
    ensures !HasListeners(OwnerBits(word))
    ensures !HasListeners(word) ==> OwnerBits(word) == word
    ensures HasListeners(word) ==> word == WithListeners(OwnerBits(word))
  {
  }
}

/** CriticalSection and ConditionVariableImpl at the granularity of one step per
    compare-exchange or system call, for any number of threads. */
module LockProtocol {
  import opened Basics
  import opened LockWord

  /** Where a thread stands: idle or holding the lock by its own account, about to
      execute one atomic operation, or asleep in the kernel. */
  datatype Pc =
    | Idle
    | Held
    | EnterCas
    | EnterMark(expected: Word)
    | EnterArbitrate(owner: Word)
    | EnterAsleep
    | TryCas
    | LeaveCas
    | LeaveArbitrate
    | CondAsleep(timed: bool)
    | CondRequeued(timed: bool)

  datatype System = System(image: Word, pc: map<Handle, Pc>)

  predicate LockAsleep(p: Pc) {
    p.EnterAsleep? || p.CondRequeued?
  }

  predicate Asleep(p: Pc) {
    LockAsleep(p) || p.CondAsleep?
  }

  /** Between the return of an acquiring call and the end of the releasing one. */
  predicate Inside(p: Pc) {
    p.Held? || p.LeaveCas? || p.LeaveArbitrate?
  }

  /** Positions in which a thread cannot be the owner. */
  predicate Without(p: Pc) {
    !Inside(p) && !p.EnterCas? && !p.TryCas?
  }

  function LockQueue(s: System): set<Handle> {
    set t: Handle | t in s.pc && LockAsleep(s.pc[t])
  }

  function CondQueue(s: System): set<Handle> {
    set t: Handle | t in s.pc && s.pc[t].CondAsleep?
  }

  // ---- The steps of Enter, TryEnter and Leave

  function EnterCasStep(s: System, t: Handle): System {
    if s.image == 0 then
      System(t, s.pc[t := Held])
    else if OwnerBits(s.image) == t then
      s.(pc := s.pc[t := Held])
    else if HasListeners(s.image) then
      s.(pc := s.pc[t := EnterArbitrate(OwnerBits(s.image))])
    else
      s.(pc := s.pc[t := EnterMark(s.image)])
  }

  function EnterMarkStep(s: System, t: Handle, expected: Word): System {
    if s.image == expected then
      System(WithListeners(expected), s.pc[t := EnterArbitrate(expected)])
    else
      s.(pc := s.pc[t := EnterCas])
  }

  /** ArbitrateLock: the kernel puts the caller to sleep only if the word still
      names the expected owner and carries the listener bit. */
  function EnterArbitrateStep(s: System, t: Handle, owner: Word): System {
    s.(pc := s.pc[t := if s.image == WithListeners(owner) then EnterAsleep else EnterCas])
  }

  function TryCasStep(s: System, t: Handle): System {
    if s.image == 0 then
      System(t, s.pc[t := Held])
    else
      s.(pc := s.pc[t := if OwnerBits(s.image) == t then Held else Idle])
  }

  function LeaveCasStep(s: System, t: Handle): System {
    if s.image == t then
      System(0, s.pc[t := Idle])
    else
      s.(pc := s.pc[t := if HasListeners(s.image) then LeaveArbitrate else Idle])
  }

  // ---- The kernel

  /** Which sleeper the kernel picks is up to the kernel. */
  predicate KernelChoice(s: System, next: Option<Handle>) {
    if LockQueue(s) == {} then next.None? else next.Some? && next.value in LockQueue(s)
  }

  /** Where a sleeper resumes once it is given the lock: ArbitrateLock returns into
      the retry loop of Enter, WaitProcessWideKeyAtomic returns success. */
  function Resumed(p: Pc): Pc {
    if p.EnterAsleep? then EnterCas else Held
  }

  /** ArbitrateUnlock, and the release half of WaitProcessWideKeyAtomic. */
  function HandOver(s: System, next: Option<Handle>): System
    requires KernelChoice(s, next)
  {
    match next
    case None => s.(image := 0)
    case Some(u) =>
      System(if LockQueue(s) == {u} then u else WithListeners(u), s.pc[u := Resumed(s.pc[u])])
  }

  /** SignalProcessWideKey on one waiter: it gets a free lock, or queues on it. */
  function WakeOne(s: System, u: Handle): (s': System)
    requires u in CondQueue(s)
    ensures CondQueue(s') == CondQueue(s) - {u}
    ensures s'.pc.Keys == s.pc.Keys
  {
    if s.image == 0 then
      System(u, s.pc[u := Held])
    else
      System(WithListeners(s.image), s.pc[u := CondRequeued(s.pc[u].timed)])
  }

  predicate AllWaiting(s: System, us: seq<Handle>) {
    Distinct(us) && forall u: Handle :: u in us ==> u in CondQueue(s)
  }

  function WakeAll(s: System, us: seq<Handle>): (s': System)
    requires AllWaiting(s, us)
    ensures CondQueue(s') == CondQueue(s) - (set u: Handle | u in us)
    ensures s'.pc.Keys == s.pc.Keys
    decreases |us|
  {
    if us == [] then s else WakeAll(WakeOne(s, us[0]), us[1..])
  }

  /** A count of -1 stands for all the waiters. */
  predicate SignalChoice(s: System, count: int, us: seq<Handle>) {
    && AllWaiting(s, us)
    && |us| == if count < 0 || |CondQueue(s)| <= count then |CondQueue(s)| else count
  }

  // ---- The system: any thread may call any primitive, at any time

  datatype Event =
    | CallEnter(t: Handle)
    | CallTryEnter(t: Handle)
    | CallLeave(t: Handle)
    | Step(t: Handle, next: Option<Handle>)
    | Wait(t: Handle, timed: bool, next: Option<Handle>)
    | Timeout(t: Handle)
    | Signal(t: Handle, count: int, woken: seq<Handle>)

  predicate Running(p: Pc) {
    !p.Idle? && !p.Held? && !Asleep(p)
  }

  predicate Enabled(s: System, e: Event) {
    && e.t in s.pc
    && var p := s.pc[e.t];
    match e
    case CallEnter(_) => p.Idle? || p.Held?
    case CallTryEnter(_) => p.Idle? || p.Held?
    case CallLeave(_) => p.Held?
    case Step(t, next) => Running(p) && (p.LeaveArbitrate? ==> KernelChoice(s.(pc := s.pc[t := Idle]), next))
    case Wait(t, timed, next) => p.Held? && KernelChoice(s.(pc := s.pc[t := CondAsleep(timed)]), next)
    case Timeout(_) => (p.CondAsleep? || p.CondRequeued?) && p.timed
    case Signal(_, count, woken) => (p.Idle? || p.Held?) && SignalChoice(s, count, woken)
  }

  function ThreadStep(s: System, t: Handle, next: Option<Handle>): System
    requires Enabled(s, Step(t, next))
  {
    match s.pc[t]
    case EnterCas => EnterCasStep(s, t)
    case EnterMark(expected) => EnterMarkStep(s, t, expected)
    case EnterArbitrate(owner) => EnterArbitrateStep(s, t, owner)
    case TryCas => TryCasStep(s, t)
    case LeaveCas => LeaveCasStep(s, t)
    case LeaveArbitrate => HandOver(s.(pc := s.pc[t := Idle]), next)
  }

  function Next(s: System, e: Event): System
    requires Enabled(s, e)
  {
    match e
    case CallEnter(t) => s.(pc := s.pc[t := EnterCas])
    case CallTryEnter(t) => s.(pc := s.pc[t := TryCas])
    case CallLeave(t) => s.(pc := s.pc[t := LeaveCas])
    case Step(t, next) => ThreadStep(s, t, next)
    case Wait(t, timed, next) => HandOver(s.(pc := s.pc[t := CondAsleep(timed)]), next)
    case Timeout(t) => s.(pc := s.pc[t := EnterCas])
    case Signal(_, _, woken) => WakeAll(s, woken)
  }

  // ---- The invariant

  predicate ThreadOk(image: Word, t: Handle, p: Pc) {
    && (Inside(p) ==> OwnerBits(image) == t)
    && (Without(p) ==> OwnerBits(image) != t)
    && (LockAsleep(p) || p.LeaveArbitrate? ==> HasListeners(image))
    && (p.EnterMark? ==> p.expected != 0 && !HasListeners(p.expected) && p.expected != t)
    && (p.EnterArbitrate? ==> p.owner != 0 && !HasListeners(p.owner) && p.owner != t)
  }

  ghost predicate Inv(s: System) {
    && (s.image != 0 ==> OwnerBits(s.image) in s.pc)
    && forall t: Handle :: t in s.pc ==> ThreadOk(s.image, t, s.pc[t])
  }

  lemma {:induction false} CallKeeps(s: System, e: Event)
    requires Inv(s) && Enabled(s, e)
    requires e.CallEnter? || e.CallTryEnter? || e.CallLeave? || e.Timeout?
    ensures Inv(Next(s, e))
  {
    WordFacts(s.image);
    var s' := Next(s, e);
    forall u: Handle | u in s'.pc ensures ThreadOk(s'.image, u, s'.pc[u]) {
      assert ThreadOk(s.image, u, s.pc[u]);
    }
  }

  lemma EnterCasKeeps(s: System, t: Handle)
    requires Inv(s) && t in s.pc && s.pc[t].EnterCas?
    ensures Inv(EnterCasStep(s, t))
  {
    WordFacts(s.image);
    var s' := EnterCasStep(s, t);
    forall u: Handle | u in s'.pc ensures ThreadOk(s'.image, u, s'.pc[u]) {
      assert ThreadOk(s.image, u, s.pc[u]);
    }
  }

  lemma EnterMarkKeeps(s: System, t: Handle)
    requires Inv(s) && t in s.pc && s.pc[t].EnterMark?
    ensures Inv(EnterMarkStep(s, t, s.pc[t].expected))
  {
    WordFacts(s.image);
    var s' := EnterMarkStep(s, t, s.pc[t].expected);
    forall u: Handle | u in s'.pc ensures ThreadOk(s'.image, u, s'.pc[u]) {
      assert ThreadOk(s.image, u, s.pc[u]);
      assert ThreadOk(s.image, t, s.pc[t]);
    }
  }

  lemma EnterArbitrateKeeps(s: System, t: Handle)
    requires Inv(s) && t in s.pc && s.pc[t].EnterArbitrate?
    ensures Inv(EnterArbitrateStep(s, t, s.pc[t].owner))
  {
    WordFacts(s.image);
    WordFacts(s.pc[t].owner);
    var s' := EnterArbitrateStep(s, t, s.pc[t].owner);
    forall u: Handle | u in s'.pc ensures ThreadOk(s'.image, u, s'.pc[u]) {
      assert ThreadOk(s.image, u, s.pc[u]);
    }
  }

  lemma TryCasKeeps(s: System, t: Handle)
    requires Inv(s) && t in s.pc && s.pc[t].TryCas?
    ensures Inv(TryCasStep(s, t))
  {
    WordFacts(s.image);
    var s' := TryCasStep(s, t);
    forall u: Handle | u in s'.pc ensures ThreadOk(s'.image, u, s'.pc[u]) {
      assert ThreadOk(s.image, u, s.pc[u]);
    }
  }

  lemma LeaveCasKeeps(s: System, t: Handle)
    requires Inv(s) && t in s.pc && s.pc[t].LeaveCas?
    ensures Inv(LeaveCasStep(s, t))
  {
    WordFacts(s.image);
    var s' := LeaveCasStep(s, t);
    forall u: Handle | u in s'.pc ensures ThreadOk(s'.image, u, s'.pc[u]) {
      assert ThreadOk(s.image, u, s.pc[u]);
    }
  }

  /** The owner gives the lock up, becoming idle or a sleeper on the condition
      variable, and the kernel passes it on in the same step. */
  lemma HandOverKeeps(s: System, t: Handle, p: Pc, next: Option<Handle>)
    requires Inv(s) && t in s.pc && OwnerBits(s.image) == t
    requires p.Idle? || p.CondAsleep?
    requires KernelChoice(s.(pc := s.pc[t := p]), next)
    ensures Inv(HandOver(s.(pc := s.pc[t := p]), next))
  {
    var m := s.(pc := s.pc[t := p]);
    var s' := HandOver(m, next);
    WordFacts(s.image);
    match next
    case None =>
      forall u: Handle | u in s'.pc ensures ThreadOk(s'.image, u, s'.pc[u]) {
        assert ThreadOk(s.image, u, s.pc[u]);
        assert u !in LockQueue(m);
      }
    case Some(n) =>
      WordFacts(n);
      assert n in LockQueue(m);
      forall u: Handle | u in s'.pc ensures ThreadOk(s'.image, u, s'.pc[u]) {
        assert ThreadOk(s.image, u, s.pc[u]);
        assert LockAsleep(m.pc[u]) ==> u in LockQueue(m);
      }
  }

  lemma WakeOneKeeps(s: System, u: Handle)
    requires Inv(s) && u in CondQueue(s)
    ensures Inv(WakeOne(s, u))
  {
    WordFacts(s.image);
    var s' := WakeOne(s, u);
    forall v: Handle | v in s'.pc ensures ThreadOk(s'.image, v, s'.pc[v]) {
      assert ThreadOk(s.image, v, s.pc[v]);
    }
  }

  lemma {:induction false} WakeAllKeeps(s: System, us: seq<Handle>)
    requires Inv(s) && AllWaiting(s, us)
    ensures Inv(WakeAll(s, us))
    decreases |us|
  {
    if us == [] {
    } else {
      WakeOneKeeps(s, us[0]);
      WakeAllKeeps(WakeOne(s, us[0]), us[1..]);
    }
  }

  lemma StepKeeps(s: System, e: Event)
    requires Inv(s) && Enabled(s, e)
    ensures Inv(Next(s, e))
  {
    assert ThreadOk(s.image, e.t, s.pc[e.t]);
    match e
    case Step(t, next) =>
      match s.pc[t] {
        case EnterCas => EnterCasKeeps(s, t);
        case EnterMark(_) => EnterMarkKeeps(s, t);
        case EnterArbitrate(_) => EnterArbitrateKeeps(s, t);
        case TryCas => TryCasKeeps(s, t);
        case LeaveCas => LeaveCasKeeps(s, t);
        case LeaveArbitrate => HandOverKeeps(s, t, Idle, next);
      }
    case Wait(t, timed, next) => HandOverKeeps(s, t, CondAsleep(timed), next);
    case Signal(_, _, woken) => WakeAllKeeps(s, woken);
    case _ => CallKeeps(s, e);
  }

  // ---- Runs

  ghost predicate ValidRun(s: System, es: seq<Event>)
    decreases |es|
  {
    es == [] || (Enabled(s, es[0]) && ValidRun(Next(s, es[0]), es[1..]))
  }

  ghost function Run(s: System, es: seq<Event>): System
    requires ValidRun(s, es)
    decreases |es|
  {
    if es == [] then s else Run(Next(s, es[0]), es[1..])
  }

  /** A fresh critical section: the word is zero and nobody is in a call. */
  predicate Init(s: System) {
    s.image == 0 && forall t: Handle :: t in s.pc ==> s.pc[t].Idle?
  }

  ghost predicate Reachable(s: System) {
    exists s0: System, es: seq<Event> :: Init(s0) && ValidRun(s0, es) && Run(s0, es) == s
  }

  lemma {:induction false} RunKeeps(s: System, es: seq<Event>)
    requires Inv(s) && ValidRun(s, es)
    ensures Inv(Run(s, es))
    decreases |es|
  {
    if es == [] {
    } else {
      StepKeeps(s, es[0]);
      RunKeeps(Next(s, es[0]), es[1..]);
    }
  }

  lemma ReachableInv(s: System)
    requires Reachable(s)
    ensures Inv(s)
  {
    var s0: System, es: seq<Event> :| Init(s0) && ValidRun(s0, es) && Run(s0, es) == s;
    WordFacts(0);
    RunKeeps(s0, es);
  }

  lemma {:induction false} RunAppend(s: System, es: seq<Event>, fs: seq<Event>)
    requires ValidRun(s, es) && ValidRun(Run(s, es), fs)
    ensures ValidRun(s, es + fs) && Run(s, es + fs) == Run(Run(s, es), fs)
    decreases |es|
  {
    hide Enabled, Next;
    if es == [] {
      assert es + fs == fs;
    } else {
      assert (es + fs)[0] == es[0] && (es + fs)[1..] == es[1..] + fs;
      RunAppend(Next(s, es[0]), es[1..], fs);
    }
  }

  // ---- Main results

  /** At most one thread is inside, the masked word is its handle, and the word is
      never the listener bit alone. */
  lemma MutualExclusion(s: System, t: Handle, u: Handle)
    requires Reachable(s) && t in s.pc && u in s.pc
    requires Inside(s.pc[t]) && Inside(s.pc[u])
    ensures t == u && OwnerBits(s.image) == t
    ensures s.image == t || s.image == WithListeners(t)
  {
    ReachableInv(s);
    WordFacts(s.image);
    assert ThreadOk(s.image, t, s.pc[t]) && ThreadOk(s.image, u, s.pc[u]);
  }

  lemma NeverListenersAlone(s: System)
    requires Reachable(s)
    ensures s.image != HAS_LISTENERS
    ensures s.image == 0 || exists t: Handle :: t in s.pc && OwnerBits(s.image) == t && !Without(s.pc[t])
  {
    ReachableInv(s);
    WordFacts(s.image);
    if s.image != 0 {
      var t: Handle := OwnerBits(s.image);
      assert ThreadOk(s.image, t, s.pc[t]);
    }
  }

  /** A sleeper on the lock is never forgotten: the word is the marked handle of
      another thread, awake, whose release must go through ArbitrateUnlock. */
  lemma NoLostWakeup(s: System, t: Handle) returns (owner: Handle)
    requires Reachable(s) && t in LockQueue(s)
    ensures owner != t && owner in s.pc && s.image == WithListeners(owner)
    ensures !Asleep(s.pc[owner]) && !s.pc[owner].Idle?
    ensures s.pc[owner].LeaveCas? ==> LeaveCasStep(s, owner) == s.(pc := s.pc[owner := LeaveArbitrate])
  {
    ReachableInv(s);
    WordFacts(s.image);
    assert ThreadOk(s.image, t, s.pc[t]);
    owner := OwnerBits(s.image);
    assert ThreadOk(s.image, owner, s.pc[owner]);
  }

  lemma FreeMeansNoSleepers(s: System)
    requires Reachable(s) && s.image == 0
    ensures LockQueue(s) == {}
  {
    if t: Handle :| t in LockQueue(s) {
      var owner := NoLostWakeup(s, t);
    }
  }

  predicate Entering(p: Pc) {
    p.EnterCas? || p.EnterMark? || p.EnterArbitrate?
  }

  /** A runnable thread in Enter that runs alone on a free lock owns it after at
      most two of its own steps. */
  lemma SoloEnter(s: System, t: Handle) returns (es: seq<Event>)
    requires Reachable(s) && s.image == 0 && t in s.pc && Entering(s.pc[t])
    ensures |es| <= 2 && (forall e :: e in es ==> e.Step? && e.t == t)
    ensures ValidRun(s, es)
    ensures Run(s, es) == System(t, s.pc[t := Held])
  {
    ReachableInv(s);
    assert ThreadOk(s.image, t, s.pc[t]);
    WordFacts(0);
    var step := Step(t, None);
    if s.pc[t].EnterCas? {
      es := [step];
      assert ValidRun(Next(s, step), es[1..]);
    } else {
      es := [step, step];
      var s1 := s.(pc := s.pc[t := EnterCas]);
      assert s1.pc[t := Held] == s.pc[t := Held];
      assert Next(s, step) == s1;
      assert es[1..] == [step] && es[1..][1..] == [];
      assert ValidRun(Next(s1, step), []);
      assert Run(s1, [step]) == Next(s1, step);
    }
  }

  /** How many steps of its own lie between a thread in Enter and its sleep, while
      another thread owns the lock. */
  function StepsToSleep(image: Word, p: Pc): nat {
    match p
    case EnterArbitrate(owner) => if image == WithListeners(owner) then 1 else 4
    case EnterMark(expected) => if image == expected then 2 else 4
    case _ => 3
  }

  /** A thread in Enter that runs alone on a lock another thread owns does not spin:
      after at most four steps of its own it sleeps, the word is the owner with the
      listener bit, and nothing else has changed. */
  lemma {:induction false} SoloBlocks(s: System, t: Handle) returns (es: seq<Event>)
    requires Reachable(s) && t in s.pc && Entering(s.pc[t])
    requires s.image != 0 && OwnerBits(s.image) != t
    ensures |es| <= 4 && (forall e :: e in es ==> e.Step? && e.t == t)
    ensures ValidRun(s, es)
    ensures Run(s, es) == System(OwnerBits(s.image) + 0x4000_0000, s.pc[t := EnterAsleep])
  {
    ReachableInv(s);
    es := BlockingRun(s, t);
  }

  lemma {:induction false} BlockingRun(s: System, t: Handle) returns (es: seq<Event>)
    requires Inv(s) && t in s.pc && Entering(s.pc[t])
    requires s.image != 0 && OwnerBits(s.image) != t
    ensures |es| <= StepsToSleep(s.image, s.pc[t]) && (forall e :: e in es ==> e.Step? && e.t == t)
    ensures ValidRun(s, es)
    ensures Run(s, es) == System(OwnerBits(s.image) + 0x4000_0000, s.pc[t := EnterAsleep])
    decreases StepsToSleep(s.image, s.pc[t])
  {
    assert ThreadOk(s.image, t, s.pc[t]);
    WordFacts(s.image);
    ListenerBit(s.image);
    var step := Step(t, None);
    var s1 := Next(s, step);
    assert s1.pc[t := EnterAsleep] == s.pc[t := EnterAsleep];
    var rest := [];
    if !s1.pc[t].EnterAsleep? {
      StepKeeps(s, step);
      WordFacts(OwnerBits(s.image));
      rest := BlockingRun(s1, t);
    }
    es := [step] + rest;
    assert es[1..] == rest;
  }

  /** How far the owner is from having given the lock up. */
  function Rank(p: Pc): nat {
    if p.LeaveArbitrate? then 0 else if p.LeaveCas? then 1 else if p.Held? then 2 else 3
  }

  /** A run in which only the owner of the moment moves: it finishes an Enter that is
      under way, or leaves. */
  ghost predicate OwnersOnly(s: System, es: seq<Event>)
    requires ValidRun(s, es)
    decreases |es|
  {
    es != [] ==>
      && s.image != 0 && es[0].t == OwnerBits(s.image) && (es[0].Step? || es[0].CallLeave?)
      && OwnersOnly(Next(s, es[0]), es[1..])
  }

  /** No sleeper is stranded: from every state, the successive owners finishing
      their own calls and leaving, and nobody else moving, empty the lock queue. */
  lemma {:induction false} Drain(s: System) returns (es: seq<Event>)
    requires Inv(s)
    ensures ValidRun(s, es) && OwnersOnly(s, es)
    ensures Run(s, es).image == 0 && LockQueue(Run(s, es)) == {}
    ensures CondQueue(Run(s, es)) == CondQueue(s)
    decreases LockQueue(s), if s.image == 0 then 0 else 1, if s.image == 0 then 0 else Rank(s.pc[OwnerBits(s.image)])
  {
    WordFacts(s.image);
    if s.image == 0 {
      forall u: Handle | u in s.pc ensures u !in LockQueue(s) {
        assert ThreadOk(s.image, u, s.pc[u]);
      }
      es := [];
    } else {
      var t: Handle := OwnerBits(s.image);
      assert ThreadOk(s.image, t, s.pc[t]);
      var e := OwnerEvent(s, t);
      OwnerAdvances(s, t);
      StepKeeps(s, e);
      var rest := Drain(Next(s, e));
      es := [e] + rest;
      assert es[1..] == rest;
    }
  }

  ghost function Choose(s: System): Option<Handle> {
    if LockQueue(s) == {} then None else var u: Handle :| u in LockQueue(s); Some(u)
  }

  /** What the owner does next when it only wants to be rid of the lock. */
  ghost function OwnerEvent(s: System, t: Handle): Event
    requires t in s.pc
  {
    if s.pc[t].Held? then CallLeave(t) else Step(t, Choose(s.(pc := s.pc[t := Idle])))
  }

  lemma OwnerAdvances(s: System, t: Handle)
    requires Inv(s) && s.image != 0 && t == OwnerBits(s.image)
    ensures t in s.pc && Enabled(s, OwnerEvent(s, t))
    ensures var s' := Next(s, OwnerEvent(s, t));
      && CondQueue(s') == CondQueue(s)
      && (|| LockQueue(s') < LockQueue(s)
          || (LockQueue(s') == LockQueue(s) && s'.image == 0)
          || (LockQueue(s') == LockQueue(s) && s'.image != 0 && OwnerBits(s'.image) == t
              && Rank(s'.pc[t]) < Rank(s.pc[t])))
  {
    WordFacts(s.image);
    assert ThreadOk(s.image, t, s.pc[t]);
    var e := OwnerEvent(s, t);
    var m := s.(pc := s.pc[t := Idle]);
    var s' := Next(s, e);
    if s.pc[t].LeaveArbitrate? {
      assert LockQueue(m) == LockQueue(s);
      if e.next.Some? {
        assert LockQueue(s') == LockQueue(s) - {e.next.value};
      }
    } else {
      assert LockQueue(s') == LockQueue(s);
    }
  }

  // ---- Single steps, for those who follow one thread

  /** Threads about to find out that the lock is free. */
  function Misled(s: System): set<Handle> {
    set t: Handle | t in s.pc && (s.pc[t].EnterMark? || s.pc[t].EnterArbitrate?)
  }

  /** On a free lock, a step of Enter takes it, or leads back to the first exchange. */
  lemma FreeEnterStep(s: System, t: Handle, next: Option<Handle>)
    requires Inv(s) && s.image == 0 && t in s.pc && Entering(s.pc[t])
    ensures Enabled(s, Step(t, next))
    ensures
      var s' := Next(s, Step(t, next));
      s' == System(t, s.pc[t := Held]) || (s' == s.(pc := s.pc[t := EnterCas]) && Misled(s') < Misled(s))
  {
    WordFacts(0);
    assert ThreadOk(0, t, s.pc[t]);
    var s' := Next(s, Step(t, next));
    if !s.pc[t].EnterCas? {
      if s.pc[t].EnterArbitrate? { WordFacts(s.pc[t].owner); }
      assert s' == s.(pc := s.pc[t := EnterCas]);
      assert t in Misled(s) && t !in Misled(s');
      assert Misled(s') <= Misled(s);
    }
  }

  /** Who already owns it finds that out in the first exchange. */
  lemma OwnerEnterStep(s: System, t: Handle, next: Option<Handle>)
    requires Inv(s) && s.image != 0 && t == OwnerBits(s.image) && t in s.pc && Entering(s.pc[t])
    ensures s.pc[t].EnterCas? && Enabled(s, Step(t, next))
    ensures Next(s, Step(t, next)) == s.(pc := s.pc[t := Held])
  {
    assert ThreadOk(s.image, t, s.pc[t]);
  }

  /** One step of Leave: to the exchange, to the kernel, or out. */
  lemma OwnerLeaveStep(s: System, t: Handle)
    requires Inv(s) && s.image != 0 && t in s.pc && Inside(s.pc[t])
    ensures
      var e := OwnerEvent(s, t);
      && Enabled(s, e) && t in Next(s, e).pc
      && var q, q' := s.pc[t], Next(s, e).pc[t];
      q'.Idle? || (Next(s, e).image == s.image
                   && ((q.Held? && q'.LeaveCas?) || (q.LeaveCas? && q'.LeaveArbitrate?)))
  {
    WordFacts(s.image);
    assert ThreadOk(s.image, t, s.pc[t]);
  }

  /** In a blocking acquisition: Enter, Wait or WaitTimeout. */
  predicate Acquiring(p: Pc) {
    Entering(p) || Asleep(p)
  }

  /** What an event does to one thread: nobody but the kernel moves another one, and
      the kernel moves only sleepers. */
  lemma ThreadMoves(s: System, e: Event, u: Handle)
    requires Enabled(s, e) && u in s.pc
    ensures
      var s' := Next(s, e);
      && s'.pc.Keys == s.pc.Keys
      && (u != e.t ==>
            || s'.pc[u] == s.pc[u]
            || (LockAsleep(s.pc[u]) && s'.pc[u] == Resumed(s.pc[u]))
            || (e.Signal? && u in e.woken && s.pc[u].CondAsleep? && s'.pc[u] in {Held, CondRequeued(s.pc[u].timed)}))
  {
    if e.Signal? {
      WakeAllMoves(s, e.woken, u);
    }
  }

  /** What a signal does to one thread. */
  lemma {:induction false} WakeAllMoves(s: System, us: seq<Handle>, t: Handle)
    requires AllWaiting(s, us) && t in s.pc
    ensures t !in us ==> WakeAll(s, us).pc[t] == s.pc[t]
    ensures t in us ==> s.pc[t].CondAsleep? && WakeAll(s, us).pc[t] in {Held, CondRequeued(s.pc[t].timed)}
    decreases |us|
  {
    if us == [] {
    } else {
      assert us[0] in us;
      WakeAllMoves(WakeOne(s, us[0]), us[1..], t);
    }
  }

  /** Enter, Wait and WaitTimeout return in one way only, as the owner of the lock,
      whether the thread was handed the lock, signalled, or timed out. */
  lemma AcquireEndsHolding(s: System, e: Event, t: Handle)
    requires Inv(s) && Enabled(s, e) && t in s.pc && Acquiring(s.pc[t])
    ensures t in Next(s, e).pc
    ensures
      var s' := Next(s, e);
      Acquiring(s'.pc[t]) || (s'.pc[t].Held? && OwnerBits(s'.image) == t)
  {
    StepKeeps(s, e);
    var s' := Next(s, e);
    ThreadMoves(s, e, t);
    assert ThreadOk(s'.image, t, s'.pc[t]);
  }

  /** Over a whole run, a thread that started an acquisition either is still in it
      or was, at some point of the run, its owner. */
  lemma {:induction false} AcquireOverRun(s: System, es: seq<Event>, t: Handle) returns (k: nat)
    requires Inv(s) && ValidRun(s, es) && t in s.pc && Acquiring(s.pc[t])
    ensures k <= |es| && ValidRun(s, es[..k])
    ensures t in Run(s, es[..k]).pc
    ensures
      var m := Run(s, es[..k]);
      (k == |es| && Acquiring(m.pc[t])) || (m.pc[t].Held? && OwnerBits(m.image) == t)
    decreases |es|
  {
    hide Inv, Enabled, Next;
    if es == [] {
      k := 0;
    } else {
      AcquireEndsHolding(s, es[0], t);
      StepKeeps(s, es[0]);
      var s' := Next(s, es[0]);
      if Acquiring(s'.pc[t]) {
        var j := AcquireOverRun(s', es[1..], t);
        k := j + 1;
        assert es[..k][0] == es[0] && es[..k][1..] == es[1..][..j];
      } else {
        k := 1;
        assert es[..1] == [es[0]];
        assert ValidRun(s', []);
      }
    }
  }

  /** Wait gives the lock up and joins the condition queue in one step; the lock
      goes to a sleeper if there is one and is free otherwise. */
  lemma WaitReleasesAndEnqueues(s: System, t: Handle, timed: bool, next: Option<Handle>)
    requires Inv(s) && Enabled(s, Wait(t, timed, next))
    ensures
      var s' := Next(s, Wait(t, timed, next));
      && CondQueue(s') == CondQueue(s) + {t}
      && (LockQueue(s) == {} ==> s'.image == 0)
      && (LockQueue(s) != {} ==>
            && OwnerBits(s'.image) in LockQueue(s)
            && LockQueue(s') == LockQueue(s) - {OwnerBits(s'.image)})
  {
    var m := s.(pc := s.pc[t := CondAsleep(timed)]);
    assert LockQueue(m) == LockQueue(s);
    assert CondQueue(m) == CondQueue(s) + {t};
    WordFacts(s.image);
    if next.Some? {
      WordFacts(next.value);
      var s' := Next(s, Wait(t, timed, next));
      assert LockQueue(s') == LockQueue(s) - {next.value};
      assert CondQueue(s') == CondQueue(m);
    }
  }

  /** A signal of count n moves exactly min(n, waiters) threads, and none of them is
      left behind: each owns the lock or sleeps on it under a marked word. */
  lemma SignalMovesExactly(s: System, t: Handle, count: int, woken: seq<Handle>)
    requires Inv(s) && Enabled(s, Signal(t, count, woken))
    ensures
      var s' := Next(s, Signal(t, count, woken));
      && CondQueue(s') <= CondQueue(s)
      && |CondQueue(s')| == (if count < 0 || |CondQueue(s)| <= count then 0 else |CondQueue(s)| - count)
      && (forall u: Handle :: u in CondQueue(s) - CondQueue(s') ==>
            || (s'.pc[u].Held? && OwnerBits(s'.image) == u)
            || (u in LockQueue(s') && HasListeners(s'.image)))
      && (s.image != 0 ==> OwnerBits(s'.image) == OwnerBits(s.image))
  {
    var e := Signal(t, count, woken);
    var s' := Next(s, e);
    StepKeeps(s, e);
    var gone := set u: Handle | u in woken;
    DistinctSize(woken);
    assert gone <= CondQueue(s);
    assert CondQueue(s') == CondQueue(s) - gone;
    forall u: Handle | u in gone
      ensures (s'.pc[u].Held? && OwnerBits(s'.image) == u) || (u in LockQueue(s') && HasListeners(s'.image))
    {
      WakeAllMoves(s, woken, u);
      assert ThreadOk(s'.image, u, s'.pc[u]);
    }
    if s.image != 0 {
      WakeAllKeepsOwner(s, woken);
    }
  }

  lemma {:induction false} WakeAllKeepsOwner(s: System, us: seq<Handle>)
    requires AllWaiting(s, us) && s.image != 0
    ensures WakeAll(s, us).image != 0 && OwnerBits(WakeAll(s, us).image) == OwnerBits(s.image)
    decreases |us|
  {
    WordFacts(s.image);
    if us == [] {
    } else {
      WakeAllKeepsOwner(WakeOne(s, us[0]), us[1..]);
    }
  }

  lemma {:induction false} DistinctSize(us: seq<Handle>)
    requires Distinct(us)
    ensures |set u: Handle | u in us| == |us|
  {
    if us == [] {
    } else {
      DistinctSize(us[1..]);
      assert (set u: Handle | u in us) == {us[0]} + (set u: Handle | u in us[1..]);
    }
  }
}
