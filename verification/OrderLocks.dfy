/** The per-order lock of the payment handlers.

    Every handler brackets its work with LockOrder(o) and UnlockOrder(o).  A table maps an order
    number to a reference-counted mutex; one creation lock guards the counts and the insertion and
    deletion of entries, but UnlockOrder looks the mutex up OUTSIDE that lock.  The protocol is a
    state machine: each step is one atomic action of one thread, and threads interleave freely. */
module OrderLocks {

  datatype TradeNo = TradeNo(text: string)

  datatype Mutex = Mutex(locked: bool, refCount: int)

  /** Where a thread is.  `rcm` is the mutex in its local variable; in Held it is history only
      (LockOrder returned nothing), and UnlockMutex keeps that history beside the mutex it loaded. */
  datatype Pc =
    | Idle
    | LockEnter(order: TradeNo)                 // createLock.Lock()
    | LockLoad(order: TradeNo)                  // orderLocks.Load
    | LockCreate(order: TradeNo)                // orderLocks.Store of a new mutex
    | LockCount(order: TradeNo, rcm: nat)       // refCount++
    | LockLeave(order: TradeNo, rcm: nat)       // createLock.Unlock()
    | LockWait(order: TradeNo, rcm: nat)        // mu.Lock()
    | Held(order: TradeNo, rcm: nat)            // in the critical section; next: orderLocks.Load
    | UnlockMutex(order: TradeNo, rcm: nat, held: nat) // mu.Unlock()
    | UnlockEnter(order: TradeNo, rcm: nat)     // createLock.Lock()
    | UnlockCount(order: TradeNo, rcm: nat)     // refCount--
    | UnlockCheck(order: TradeNo, rcm: nat)     // delete the entry when the count is 0
    | UnlockLeave(order: TradeNo, rcm: nat)     // createLock.Unlock()
    | Escaped(order: TradeNo, rcm: nat)         // UnlockOrder found no entry and returned

  /** `mutexes` is the heap of mutexes ever created, `pcs` the threads.  `crashed` records the
      runtime's fatal error for unlocking an unlocked mutex. */
  datatype State = State(
    orderLocks: map<TradeNo, nat>,
    mutexes: seq<Mutex>,
    createLock: bool,
    pcs: seq<Pc>,
    crashed: bool)

  predicate Init(s: State) {
    && s.orderLocks == map[] && s.mutexes == [] && !s.createLock && !s.crashed
    && forall t :: 0 <= t < |s.pcs| ==> s.pcs[t] == Idle
  }

  // ---------- Steps ----------

  predicate WellFormed(s: State) {
    && (forall o :: o in s.orderLocks ==> s.orderLocks[o] < |s.mutexes|)
    && forall t :: 0 <= t < |s.pcs| && HasMutex(s.pcs[t]) ==> s.pcs[t].rcm < |s.mutexes|
  }

  predicate HasMutex(pc: Pc) {
    !pc.Idle? && !pc.LockEnter? && !pc.LockLoad? && !pc.LockCreate?
  }

  /** Thread `t` is inside a call and its next action does not block. */
  predicate Enabled(s: State, t: nat)
    requires WellFormed(s)
  {
    && t < |s.pcs|
    && match s.pcs[t]
       case Idle => false
       case Escaped(_, _) => false
       case LockEnter(_) => !s.createLock
       case UnlockEnter(_, _) => !s.createLock
       case LockWait(_, m) => !s.mutexes[m].locked
       case _ => true
  }

  /** An idle thread calls LockOrder. */
  function Call(s: State, t: nat, order: TradeNo): State
    requires t < |s.pcs| && s.pcs[t].Idle?
  {
    s.(pcs := s.pcs[t := LockEnter(order)])
  }

  /** Where thread `t` is after its next atomic action. */
  function NextPc(s: State, pc: Pc): Pc {
    match pc
    case Idle => Idle
    case LockEnter(o) => LockLoad(o)
    case LockLoad(o) => if o in s.orderLocks then LockCount(o, s.orderLocks[o]) else LockCreate(o)
    case LockCreate(o) => LockCount(o, |s.mutexes|)
    case LockCount(o, m) => LockLeave(o, m)
    case LockLeave(o, m) => LockWait(o, m)
    case LockWait(o, m) => Held(o, m)
    case Held(o, m) => if o in s.orderLocks then UnlockMutex(o, s.orderLocks[o], m) else Escaped(o, m)
    case UnlockMutex(o, m, _) => UnlockEnter(o, m)
    case UnlockEnter(o, m) => UnlockCount(o, m)
    case UnlockCount(o, m) => UnlockCheck(o, m)
    case UnlockCheck(o, m) => UnlockLeave(o, m)
    case UnlockLeave(_, _) => Idle
    case Escaped(o, m) => pc
  }

  /** What that action does to the heap of mutexes. */
  function NextMutexes(s: State, pc: Pc): seq<Mutex>
    requires HasMutex(pc) ==> pc.rcm < |s.mutexes|
  {
    match pc
    case LockCreate(_) => s.mutexes + [Mutex(false, 0)]
    case LockCount(_, m) => s.mutexes[m := Mutex(s.mutexes[m].locked, s.mutexes[m].refCount + 1)]
    case LockWait(_, m) => s.mutexes[m := Mutex(true, s.mutexes[m].refCount)]
    case UnlockMutex(_, m, _) => s.mutexes[m := Mutex(false, s.mutexes[m].refCount)]
    case UnlockCount(_, m) => s.mutexes[m := Mutex(s.mutexes[m].locked, s.mutexes[m].refCount - 1)]
    case _ => s.mutexes
  }

  function NextTable(s: State, pc: Pc): map<TradeNo, nat>
    requires HasMutex(pc) ==> pc.rcm < |s.mutexes|
  {
    match pc
    case LockCreate(o) => s.orderLocks[o := |s.mutexes|]
    case UnlockCheck(o, m) => if s.mutexes[m].refCount == 0 then s.orderLocks - {o} else s.orderLocks
    case _ => s.orderLocks
  }

  /** The next atomic action of thread `t`.  Unlocking an unlocked mutex is fatal. */
  function Step(s: State, t: nat): State
    requires WellFormed(s) && Enabled(s, t)
  {
    var pc := s.pcs[t];
    State(
      NextTable(s, pc),
      NextMutexes(s, pc),
      if pc.LockEnter? || pc.UnlockEnter? then true
      else if pc.LockLeave? || pc.UnlockLeave? then false
      else s.createLock,
      s.pcs[t := NextPc(s, pc)],
      s.crashed || (pc.UnlockMutex? && !s.mutexes[pc.rcm].locked))
  }

  ghost predicate Next(s: State, s': State) {
    || (exists t: nat, o: TradeNo :: t < |s.pcs| && s.pcs[t].Idle? && s' == Call(s, t, o))
    || (WellFormed(s) && exists t: nat :: Enabled(s, t) && s' == Step(s, t))
  }

  /** A run of the system: any number of threads, any interleaving. */
  ghost predicate Run(run: seq<State>) {
    && |run| > 0 && Init(run[0])
    && forall i :: 0 <= i < |run| - 1 ==> Next(run[i], run[i + 1])
  }

  // ---------- The invariant ----------

  /** Waiting on, holding, or released but not yet decremented. */
  predicate Counted(pc: Pc) {
    pc.LockLeave? || pc.LockWait? || pc.Held? || pc.UnlockMutex? || pc.UnlockEnter? || pc.UnlockCount?
  }

  /** Counted, or between looking the entry up and counting, or between uncounting and the check. */
  predicate Attached(pc: Pc) {
    Counted(pc) || pc.LockCount? || pc.UnlockCheck?
  }

  predicate InsideCreateLock(pc: Pc) {
    || pc.LockLoad? || pc.LockCreate? || pc.LockCount? || pc.LockLeave?
    || pc.UnlockCount? || pc.UnlockCheck? || pc.UnlockLeave?
  }

  /** From the return of LockOrder to the mutex release in UnlockOrder. */
  predicate Critical(pc: Pc) {
    pc.Held? || pc.UnlockMutex?
  }

  function CountedOn(pcs: seq<Pc>, m: nat): (n: nat) {
    if pcs == [] then 0
    else CountedOn(pcs[1..], m) + if Counted(pcs[0]) && pcs[0].rcm == m then 1 else 0
  }

  /** Attached threads agree with the table about their mutex; UnlockOrder loads the held one. */
  predicate TableAgrees(s: State) {
    forall t :: 0 <= t < |s.pcs| ==>
      && (Attached(s.pcs[t]) ==>
            s.pcs[t].order in s.orderLocks && s.orderLocks[s.pcs[t].order] == s.pcs[t].rcm)
      && (s.pcs[t].UnlockMutex? ==> s.pcs[t].rcm == s.pcs[t].held)
      && !s.pcs[t].Escaped?
  }

  predicate TableInjective(s: State) {
    forall o, p :: o in s.orderLocks && p in s.orderLocks && s.orderLocks[o] == s.orderLocks[p] ==> o == p
  }

  /** No leak: an entry is there only while a thread is attached to its order. */
  predicate NoLeak(s: State) {
    forall o :: o in s.orderLocks ==> exists t :: 0 <= t < |s.pcs| && Attached(s.pcs[t]) && s.pcs[t].order == o
  }

  predicate RefCountsExact(s: State) {
    forall m :: 0 <= m < |s.mutexes| ==> s.mutexes[m].refCount == CountedOn(s.pcs, m)
  }

  /** Mutual exclusion: a mutex has at most one thread in its critical section. */
  predicate OneCritical(s: State) {
    forall t, u | 0 <= t < |s.pcs| && 0 <= u < |s.pcs| && Critical(s.pcs[t]) && Critical(s.pcs[u]) ::
      s.pcs[t].rcm == s.pcs[u].rcm ==> t == u
  }

  predicate LockedWhileCritical(s: State)
    requires WellFormed(s)
  {
    forall t :: 0 <= t < |s.pcs| && Critical(s.pcs[t]) ==> s.mutexes[s.pcs[t].rcm].locked
  }

  predicate LockedOnlyCritical(s: State) {
    forall m :: 0 <= m < |s.mutexes| && s.mutexes[m].locked ==>
      exists t :: 0 <= t < |s.pcs| && Critical(s.pcs[t]) && s.pcs[t].rcm == m
  }

  predicate OneInside(s: State) {
    && (forall t, u | 0 <= t < |s.pcs| && 0 <= u < |s.pcs| ::
          InsideCreateLock(s.pcs[t]) && InsideCreateLock(s.pcs[u]) ==> t == u)
    && forall t :: 0 <= t < |s.pcs| && InsideCreateLock(s.pcs[t]) ==> s.createLock
  }

  predicate CreateLockOnlyInside(s: State) {
    s.createLock ==> exists t :: 0 <= t < |s.pcs| && InsideCreateLock(s.pcs[t])
  }

  predicate CreatesMissing(s: State) {
    forall t :: 0 <= t < |s.pcs| && s.pcs[t].LockCreate? ==> s.pcs[t].order !in s.orderLocks
  }

  predicate Inv(s: State) {
    && WellFormed(s) && !s.crashed
    && TableAgrees(s) && TableInjective(s) && NoLeak(s)
    && RefCountsExact(s) && OneCritical(s) && LockedWhileCritical(s) && LockedOnlyCritical(s)
    && OneInside(s) && CreateLockOnlyInside(s) && CreatesMissing(s)
  }

  // ---------- Counting ----------

  lemma {:induction false} CountUpdate(pcs: seq<Pc>, t: nat, pc: Pc, m: nat)
    requires t < |pcs|
    ensures CountedOn(pcs[t := pc], m)
         == CountedOn(pcs, m)
            - (if Counted(pcs[t]) && pcs[t].rcm == m then 1 else 0)
            + (if Counted(pc) && pc.rcm == m then 1 else 0)
  {
    if t > 0 {
      assert pcs[t := pc][1..] == pcs[1..][t - 1 := pc];
      CountUpdate(pcs[1..], t - 1, pc, m);
    } else {
      assert pcs[t := pc][1..] == pcs[1..];
    }
  }

  lemma {:induction false} CountZero(pcs: seq<Pc>, m: nat)
    ensures CountedOn(pcs, m) == 0
       <==> forall t :: 0 <= t < |pcs| ==> !(Counted(pcs[t]) && pcs[t].rcm == m)
  {
    if pcs != [] {
      CountZero(pcs[1..], m);
      assert forall t :: 0 < t < |pcs| ==> pcs[t] == pcs[1..][t - 1];
      assert forall t :: 0 <= t < |pcs| - 1 ==> pcs[1..][t] == pcs[t + 1];
    }
  }

  // ---------- Every step keeps the invariant ----------

  lemma CallKeepsInv(s: State, t: nat, order: TradeNo)
    requires Inv(s) && t < |s.pcs| && s.pcs[t].Idle?
    ensures Inv(Call(s, t, order))
  {
    CallKeepsCounts(s, t, order);
    CallKeepsWitnesses(s, t, order);
    CallKeepsThreadFacts(s, t, order);
  }

  lemma CallKeepsThreadFacts(s: State, t: nat, order: TradeNo)
    requires t < |s.pcs| && s.pcs[t].Idle?
    requires WellFormed(s) && TableAgrees(s) && TableInjective(s) && CreatesMissing(s)
    requires OneCritical(s) && LockedWhileCritical(s) && OneInside(s)
    ensures var s' := Call(s, t, order);
      && WellFormed(s') && TableAgrees(s') && TableInjective(s') && CreatesMissing(s')
      && OneCritical(s') && LockedWhileCritical(s') && OneInside(s')
  {
  }

  lemma CallKeepsCounts(s: State, t: nat, order: TradeNo)
    requires t < |s.pcs| && s.pcs[t].Idle? && RefCountsExact(s)
    ensures RefCountsExact(Call(s, t, order))
  {
    forall m | 0 <= m < |s.mutexes|
      ensures s.mutexes[m].refCount == CountedOn(s.pcs[t := LockEnter(order)], m)
    {
      CountUpdate(s.pcs, t, LockEnter(order), m);
    }
  }

  lemma CallKeepsWitnesses(s: State, t: nat, order: TradeNo)
    requires t < |s.pcs| && s.pcs[t].Idle?
    requires NoLeak(s) && LockedOnlyCritical(s) && CreateLockOnlyInside(s)
    ensures var s' := Call(s, t, order); NoLeak(s') && LockedOnlyCritical(s') && CreateLockOnlyInside(s')
  {
    var s' := Call(s, t, order);
    forall o | o in s'.orderLocks
      ensures exists u :: 0 <= u < |s'.pcs| && Attached(s'.pcs[u]) && s'.pcs[u].order == o
    {
      var u :| 0 <= u < |s.pcs| && Attached(s.pcs[u]) && s.pcs[u].order == o;
      assert s'.pcs[u] == s.pcs[u];
    }
    forall m | 0 <= m < |s'.mutexes| && s'.mutexes[m].locked
      ensures exists u :: 0 <= u < |s'.pcs| && Critical(s'.pcs[u]) && s'.pcs[u].rcm == m
    {
      var u :| 0 <= u < |s.pcs| && Critical(s.pcs[u]) && s.pcs[u].rcm == m;
      assert s'.pcs[u] == s.pcs[u];
    }
    if s.createLock {
      var u :| 0 <= u < |s.pcs| && InsideCreateLock(s.pcs[u]);
      assert s'.pcs[u] == s.pcs[u];
    }
  }

  lemma StepKeepsCount(s: State, t: nat, m: nat)
    requires WellFormed(s) && TableAgrees(s) && Enabled(s, t) && m < |s.mutexes|
    requires s.mutexes[m].refCount == CountedOn(s.pcs, m)
    ensures Step(s, t).mutexes[m].refCount == CountedOn(Step(s, t).pcs, m)
  {
    var pc := Step(s, t).pcs[t];
    CountUpdate(s.pcs, t, pc, m);
    assert Step(s, t).pcs == s.pcs[t := pc];
  }

  /** Nobody can be counted on a mutex that does not exist yet. */
  lemma NewMutexUncounted(s: State)
    requires WellFormed(s)
    ensures CountedOn(s.pcs, |s.mutexes|) == 0
  {
    assert forall u :: 0 <= u < |s.pcs| && HasMutex(s.pcs[u]) ==> s.pcs[u].rcm != |s.mutexes|;
    CountZero(s.pcs, |s.mutexes|);
  }

  lemma StepKeepsCounts(s: State, t: nat)
    requires WellFormed(s) && TableAgrees(s) && RefCountsExact(s) && Enabled(s, t)
    ensures RefCountsExact(Step(s, t))
  {
    forall m | 0 <= m < |s.mutexes|
      ensures Step(s, t).mutexes[m].refCount == CountedOn(Step(s, t).pcs, m)
    {
      StepKeepsCount(s, t, m);
    }
    if s.pcs[t].LockCreate? {
      NewMutexUncounted(s);
      CountUpdate(s.pcs, t, Step(s, t).pcs[t], |s.mutexes|);
    }
  }

  lemma StepKeepsWellFormed(s: State, t: nat)
    requires WellFormed(s) && Enabled(s, t)
    ensures WellFormed(Step(s, t))
  {
  }

  /** When the count has reached zero, no other thread depends on the entry that is deleted. */
  lemma DeletedEntryUnused(s: State, t: nat, u: nat)
    requires WellFormed(s) && TableAgrees(s) && RefCountsExact(s) && OneInside(s)
    requires t < |s.pcs| && s.pcs[t].UnlockCheck? && s.mutexes[s.pcs[t].rcm].refCount == 0
    requires u < |s.pcs| && u != t && Attached(s.pcs[u])
    ensures s.pcs[u].order != s.pcs[t].order
  {
    CountZero(s.pcs, s.pcs[t].rcm);
    assert InsideCreateLock(s.pcs[t]);
  }

  lemma StepKeepsTableAgrees(s: State, t: nat)
    requires WellFormed(s) && TableAgrees(s) && RefCountsExact(s) && OneInside(s)
    requires CreatesMissing(s) && Enabled(s, t)
    ensures TableAgrees(Step(s, t))
  {
    var s' := Step(s, t);
    forall u | 0 <= u < |s'.pcs| && u != t && Attached(s'.pcs[u])
      ensures s'.pcs[u].order in s'.orderLocks && s'.orderLocks[s'.pcs[u].order] == s'.pcs[u].rcm
    {
      assert s'.pcs[u] == s.pcs[u];
      if s.pcs[t].UnlockCheck? && s.mutexes[s.pcs[t].rcm].refCount == 0 {
        DeletedEntryUnused(s, t, u);
      }
    }
  }

  lemma StepKeepsInjective(s: State, t: nat)
    requires WellFormed(s) && TableInjective(s) && Enabled(s, t)
    ensures TableInjective(Step(s, t))
  {
  }

  lemma StepKeepsCreatesMissing(s: State, t: nat)
    requires WellFormed(s) && CreatesMissing(s) && OneInside(s) && Enabled(s, t)
    ensures CreatesMissing(Step(s, t))
  {
    assert InsideCreateLock(s.pcs[t]) ==>
        forall u :: 0 <= u < |s.pcs| && u != t ==> !InsideCreateLock(s.pcs[u]);
  }

  /** The entry survived the check, so another thread is counted on its mutex. */
  lemma SurvivorIsCounted(s: State, t: nat) returns (w: nat)
    requires WellFormed(s) && TableAgrees(s) && TableInjective(s) && RefCountsExact(s)
    requires t < |s.pcs| && s.pcs[t].UnlockCheck? && s.mutexes[s.pcs[t].rcm].refCount != 0
    ensures w < |s.pcs| && w != t && Attached(s.pcs[w]) && s.pcs[w].order == s.pcs[t].order
  {
    CountZero(s.pcs, s.pcs[t].rcm);
    w :| 0 <= w < |s.pcs| && Counted(s.pcs[w]) && s.pcs[w].rcm == s.pcs[t].rcm;
  }

  lemma StepKeepsNoLeak(s: State, t: nat)
    requires WellFormed(s) && TableAgrees(s) && TableInjective(s) && RefCountsExact(s) && NoLeak(s)
    requires Enabled(s, t)
    ensures NoLeak(Step(s, t))
  {
    var s' := Step(s, t);
    forall o | o in s'.orderLocks
      ensures exists u :: 0 <= u < |s'.pcs| && Attached(s'.pcs[u]) && s'.pcs[u].order == o
    {
      if Attached(s'.pcs[t]) && s'.pcs[t].order == o {
      } else {
        var u :| 0 <= u < |s.pcs| && Attached(s.pcs[u]) && s.pcs[u].order == o;
        if u == t {
          u := SurvivorIsCounted(s, t);
        }
        assert s'.pcs[u] == s.pcs[u];
      }
    }
  }

  lemma StepKeepsMutualExclusion(s: State, t: nat)
    requires WellFormed(s) && TableAgrees(s) && OneCritical(s) && LockedWhileCritical(s) && !s.crashed
    requires Enabled(s, t) && WellFormed(Step(s, t))
    ensures OneCritical(Step(s, t)) && LockedWhileCritical(Step(s, t)) && !Step(s, t).crashed
  {
  }

  lemma StepKeepsLockedOnlyCritical(s: State, t: nat)
    requires WellFormed(s) && TableAgrees(s) && LockedOnlyCritical(s) && Enabled(s, t)
    ensures LockedOnlyCritical(Step(s, t))
  {
    var s' := Step(s, t);
    forall m | 0 <= m < |s'.mutexes| && s'.mutexes[m].locked
      ensures exists u :: 0 <= u < |s'.pcs| && Critical(s'.pcs[u]) && s'.pcs[u].rcm == m
    {
      if s.pcs[t].LockWait? && m == s.pcs[t].rcm {
        assert Critical(s'.pcs[t]);
      } else {
        var u :| 0 <= u < |s.pcs| && Critical(s.pcs[u]) && s.pcs[u].rcm == m;
        if u != t {
          assert s'.pcs[u] == s.pcs[u];
        } else {
          assert s'.pcs[t].UnlockMutex?;
        }
      }
    }
  }

  lemma StepKeepsCreateLock(s: State, t: nat)
    requires WellFormed(s) && OneInside(s) && CreateLockOnlyInside(s) && Enabled(s, t)
    ensures OneInside(Step(s, t)) && CreateLockOnlyInside(Step(s, t))
  {
    var s' := Step(s, t);
    if s'.createLock {
      if s.createLock {
        var u :| 0 <= u < |s.pcs| && InsideCreateLock(s.pcs[u]);
        assert u != t ==> s'.pcs[u] == s.pcs[u];
        assert InsideCreateLock(s'.pcs[u]);
      } else {
        assert InsideCreateLock(s'.pcs[t]);
      }
    }
  }

  lemma StepKeepsInv(s: State, t: nat)
    requires Inv(s) && Enabled(s, t)
    ensures Inv(Step(s, t))
  {
    StepKeepsWellFormed(s, t);
    StepKeepsTableAgrees(s, t);
    StepKeepsInjective(s, t);
    StepKeepsCreatesMissing(s, t);
    StepKeepsNoLeak(s, t);
    StepKeepsCounts(s, t);
    StepKeepsMutualExclusion(s, t);
    StepKeepsLockedOnlyCritical(s, t);
    StepKeepsCreateLock(s, t);
  }

  lemma {:induction false} RunKeepsInv(run: seq<State>, i: nat)
    requires Run(run) && i < |run|
    ensures Inv(run[i]) && |run[i].pcs| == |run[0].pcs|
  {
    if i > 0 {
      RunKeepsInv(run, i - 1);
      var s := run[i - 1];
      assert Next(s, run[i]);
      if t: nat, o: TradeNo :| t < |s.pcs| && s.pcs[t].Idle? && run[i] == Call(s, t, o) {
        CallKeepsInv(s, t, o);
      } else {
        var t: nat :| Enabled(s, t) && run[i] == Step(s, t);
        StepKeepsInv(s, t);
      }
    }
  }

  // ---------- Main results ----------

  /** In every run at most one thread is between LockOrder(o) and the mutex release. */
  lemma MutualExclusion(run: seq<State>, i: nat, t: nat, u: nat)
    requires Run(run) && i < |run| && t < |run[i].pcs| && u < |run[i].pcs|
    requires Critical(run[i].pcs[t]) && Critical(run[i].pcs[u]) && run[i].pcs[t].order == run[i].pcs[u].order
    ensures t == u
  {
    RunKeepsInv(run, i);
  }

  /** The look-up outside the creation lock finds the mutex the caller holds, and releasing it
      never meets an unlocked mutex. */
  lemma UnlockLoadsHeldMutex(run: seq<State>, i: nat, t: nat)
    requires Run(run) && i < |run| && t < |run[i].pcs|
    ensures !run[i].crashed && !run[i].pcs[t].Escaped?
    ensures var pc := run[i].pcs[t];
      pc.Held? ==> pc.order in run[i].orderLocks && run[i].orderLocks[pc.order] == pc.rcm
    ensures var pc := run[i].pcs[t];
      pc.UnlockMutex? ==> pc.rcm == pc.held < |run[i].mutexes| && run[i].mutexes[pc.rcm].locked
  {
    RunKeepsInv(run, i);
  }

  /** When nobody is inside the creation lock, an order has an entry exactly while some thread is
      counted on it, and the count is the number of threads counted on that mutex. */
  lemma EntryIffCounted(run: seq<State>, i: nat, o: TradeNo)
    requires Run(run) && i < |run| && !run[i].createLock
    ensures o in run[i].orderLocks
       <==> exists t :: 0 <= t < |run[i].pcs| && Counted(run[i].pcs[t]) && run[i].pcs[t].order == o
    ensures o in run[i].orderLocks ==>
      var m := run[i].orderLocks[o];
      m < |run[i].mutexes| && run[i].mutexes[m].refCount == CountedOn(run[i].pcs, m) > 0
  {
    RunKeepsInv(run, i);
    var s := run[i];
    assert forall t :: 0 <= t < |s.pcs| ==> !InsideCreateLock(s.pcs[t]);
    if o in s.orderLocks {
      var t :| 0 <= t < |s.pcs| && Attached(s.pcs[t]) && s.pcs[t].order == o;
      assert Counted(s.pcs[t]);
      CountZero(s.pcs, s.orderLocks[o]);
    }
  }

  /** No deadlock: while some thread is inside a call, some thread can move. */
  lemma NoDeadlock(s: State, t: nat)
    requires Inv(s) && t < |s.pcs| && !s.pcs[t].Idle?
    ensures exists u :: 0 <= u < |s.pcs| && Enabled(s, u)
  {
    if s.createLock {
      var u :| 0 <= u < |s.pcs| && InsideCreateLock(s.pcs[u]);
      assert Enabled(s, u);
    } else if s.pcs[t].LockWait? && s.mutexes[s.pcs[t].rcm].locked {
      var u :| 0 <= u < |s.pcs| && Critical(s.pcs[u]) && s.pcs[u].rcm == s.pcs[t].rcm;
      assert Enabled(s, u);
    } else {
      assert Enabled(s, t);
    }
  }

  /** Steps a thread still has to take before it is idle. */
  function Remaining(pc: Pc): nat {
    match pc
    case Idle => 0
    case LockEnter(_) => 12
    case LockLoad(_) => 11
    case LockCreate(_) => 10
    case LockCount(_, _) => 9
    case LockLeave(_, _) => 8
    case LockWait(_, _) => 7
    case Held(_, _) => 6
    case UnlockMutex(_, _, _) => 5
    case UnlockEnter(_, _) => 4
    case UnlockCount(_, _) => 3
    case UnlockCheck(_, _) => 2
    case UnlockLeave(_, _) => 1
    case Escaped(_, _) => 0
  }

  function Work(pcs: seq<Pc>): nat {
    if pcs == [] then 0 else Remaining(pcs[0]) + Work(pcs[1..])
  }

  lemma {:induction false} WorkUpdate(pcs: seq<Pc>, t: nat, pc: Pc)
    requires t < |pcs|
    ensures Work(pcs[t := pc]) == Work(pcs) - Remaining(pcs[t]) + Remaining(pc)
  {
    if t > 0 {
      assert pcs[t := pc][1..] == pcs[1..][t - 1 := pc];
      WorkUpdate(pcs[1..], t - 1, pc);
    } else {
      assert pcs[t := pc][1..] == pcs[1..];
    }
  }

  ghost predicate Draining(run: seq<State>) {
    forall i :: 0 <= i < |run| - 1 ==>
      WellFormed(run[i]) && exists t: nat :: Enabled(run[i], t) && run[i + 1] == Step(run[i], t)
  }

  lemma StepReducesWork(s: State, t: nat)
    requires WellFormed(s) && TableAgrees(s) && Enabled(s, t)
    ensures Work(Step(s, t).pcs) < Work(s.pcs)
  {
    var pc := Step(s, t).pcs[t];
    WorkUpdate(s.pcs, t, pc);
    assert Step(s, t).pcs == s.pcs[t := pc];
  }

  ghost predicate Stuck(s: State)
    requires WellFormed(s)
  {
    forall t :: 0 <= t < |s.pcs| ==> !Enabled(s, t)
  }

  predicate Quiet(s: State) {
    s.orderLocks == map[] && forall t :: 0 <= t < |s.pcs| ==> s.pcs[t].Idle?
  }

  lemma StuckIsQuiet(s: State)
    requires Inv(s) && Stuck(s)
    ensures Quiet(s)
  {
    forall t | 0 <= t < |s.pcs| ensures s.pcs[t].Idle? {
      if !s.pcs[t].Idle? { NoDeadlock(s, t); }
    }
    assert forall o :: o !in s.orderLocks;
  }

  lemma DrainStep(s: State, s': State)
    requires Inv(s) && exists t: nat :: Enabled(s, t) && s' == Step(s, t)
    ensures Inv(s') && Work(s'.pcs) < Work(s.pcs)
  {
    var t: nat :| Enabled(s, t) && s' == Step(s, t);
    StepKeepsInv(s, t);
    StepReducesWork(s, t);
  }

  lemma {:induction false} DrainingKeepsInv(run: seq<State>, i: nat)
    requires i < |run| && Inv(run[0]) && Draining(run)
    ensures Inv(run[i]) && Work(run[i].pcs) + i <= Work(run[0].pcs)
  {
    if i > 0 {
      DrainingKeepsInv(run, i - 1);
      assert run[i] == run[i - 1 + 1];
      DrainStep(run[i - 1], run[i]);
    }
  }

  /** Every schedule finishes: with no new calls, the system takes at most Work steps whatever the
      order, and where it gets stuck every thread is idle and the table is empty. */
  lemma EveryScheduleDrains(run: seq<State>)
    requires |run| > 0 && Inv(run[0]) && Draining(run)
    ensures |run| - 1 <= Work(run[0].pcs)
    ensures Inv(run[|run| - 1]) && (Stuck(run[|run| - 1]) <==> Quiet(run[|run| - 1]))
  {
    var last := run[|run| - 1];
    DrainingKeepsInv(run, |run| - 1);
    if Stuck(last) {
      StuckIsQuiet(last);
    }
  }
}
