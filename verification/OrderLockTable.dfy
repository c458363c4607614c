/** The lock table as the program holds it: mutexes are heap objects shared through the table and
    the callers' local variables.  LockOrder and UnlockOrder are the program's code for a caller that
    nobody interferes with; their contracts say that such a call is the protocol of OrderLocks run
    by one thread alone, so that what is proved there is about this code. */
module OrderLockTable {
  import opened OrderLocks

  class RefCountedMutex {
    var locked: bool
    var refCount: int

    constructor ()
      ensures !locked && refCount == 0
    {
      locked, refCount := false, 0;
    }
  }

  /** Thread `t` takes up to `k` steps, stopping where it would block. */
  ghost function Alone(s: State, t: nat, k: nat): State
    decreases k
  {
    if k == 0 || !WellFormed(s) || !Enabled(s, t) then s else Alone(Step(s, t), t, k - 1)
  }

  /** The state once `o` has an entry. */
  function Entered(s: State, o: TradeNo): (s': State)
    ensures o in s'.orderLocks
  {
    if o in s.orderLocks then s
    else s.(orderLocks := s.orderLocks[o := |s.mutexes|], mutexes := s.mutexes + [Mutex(false, 0)])
  }

  /** The state after thread `t`, about to enter LockOrder(o), has taken the free lock of `o`. */
  function Locked(s: State, t: nat, o: TradeNo): State
    requires t < |s.pcs|
    requires o in s.orderLocks ==> s.orderLocks[o] < |s.mutexes|
  {
    var e := Entered(s, o);
    var m := e.orderLocks[o];
    e.(mutexes := e.mutexes[m := Mutex(true, e.mutexes[m].refCount + 1)], pcs := s.pcs[t := Held(o, m)])
  }

  /** The state after thread `t`, holding `o`, has run UnlockOrder(o). */
  function Unlocked(s: State, t: nat, o: TradeNo): State
    requires t < |s.pcs| && o in s.orderLocks && s.orderLocks[o] < |s.mutexes|
  {
    var m := s.orderLocks[o];
    var count := s.mutexes[m].refCount - 1;
    s.(mutexes := s.mutexes[m := Mutex(false, count)],
       orderLocks := if count == 0 then s.orderLocks - {o} else s.orderLocks,
       pcs := s.pcs[t := Idle])
  }

  /** An undisturbed LockOrder is the protocol run by one thread. */
  lemma LockOrderAlone(s: State, t: nat, o: TradeNo)
    requires WellFormed(s) && t < |s.pcs| && s.pcs[t] == LockEnter(o) && !s.createLock
    requires o in s.orderLocks ==> !s.mutexes[s.orderLocks[o]].locked
    ensures Alone(s, t, if o in s.orderLocks then 5 else 6) == Locked(s, t, o)
  {
    var e := EnterAlone(s, t, o);
    CountAndLock(e, t);
    assert e.pcs[t := Held(o, e.pcs[t].rcm)] == s.pcs[t := Held(o, e.pcs[t].rcm)];
  }

  lemma EnterAlone(s: State, t: nat, o: TradeNo) returns (e: State)
    requires WellFormed(s) && t < |s.pcs| && s.pcs[t] == LockEnter(o) && !s.createLock
    ensures e == Entered(s, o).(createLock := true, pcs := s.pcs[t := LockCount(o, Entered(s, o).orderLocks[o])])
    ensures WellFormed(e) && Alone(s, t, if o in s.orderLocks then 5 else 6) == Alone(e, t, 3)
  {
    e := Step(Step(s, t), t);
    if o !in s.orderLocks {
      assert Alone(s, t, 6) == Alone(e, t, 4);
      e := Step(e, t);
    }
    assert e.pcs == s.pcs[t := LockCount(o, Entered(s, o).orderLocks[o])];
  }

  lemma CountAndLock(s: State, t: nat)
    requires WellFormed(s) && t < |s.pcs| && s.pcs[t].LockCount? && !s.mutexes[s.pcs[t].rcm].locked
    ensures var o, m := s.pcs[t].order, s.pcs[t].rcm;
      Alone(s, t, 3) == s.(mutexes := s.mutexes[m := Mutex(true, s.mutexes[m].refCount + 1)],
                           pcs := s.pcs[t := Held(o, m)], createLock := false)
  {
    var o, m := s.pcs[t].order, s.pcs[t].rcm;
    var s1 := Step(s, t);
    assert s1 == s.(mutexes := s.mutexes[m := Mutex(false, s.mutexes[m].refCount + 1)],
                    pcs := s.pcs[t := LockLeave(o, m)]);
    var s2 := Step(s1, t);
    assert s2 == s1.(createLock := false, pcs := s.pcs[t := LockWait(o, m)]);
    var s3 := Step(s2, t);
    assert s3.mutexes == s.mutexes[m := Mutex(true, s.mutexes[m].refCount + 1)];
    assert Alone(s2, t, 1) == s3;
    assert Alone(s1, t, 2) == s3;
  }

  /** The state after thread `t`, holding `o`, has released the mutex. */
  function Released(s: State, t: nat, o: TradeNo): State
    requires t < |s.pcs| && o in s.orderLocks && s.orderLocks[o] < |s.mutexes|
  {
    var m := s.orderLocks[o];
    s.(mutexes := s.mutexes[m := Mutex(false, s.mutexes[m].refCount)], pcs := s.pcs[t := UnlockEnter(o, m)])
  }

  /** The state after thread `t`, at the entry of the creation lock, has un-counted itself. */
  function Left(s: State, t: nat): State
    requires t < |s.pcs| && s.pcs[t].UnlockEnter? && s.pcs[t].rcm < |s.mutexes|
  {
    var o, m := s.pcs[t].order, s.pcs[t].rcm;
    var count := s.mutexes[m].refCount - 1;
    s.(mutexes := s.mutexes[m := Mutex(s.mutexes[m].locked, count)],
       orderLocks := if count == 0 then s.orderLocks - {o} else s.orderLocks, pcs := s.pcs[t := Idle])
  }

  /** An undisturbed UnlockOrder is the protocol run by one thread, back to Idle. */
  lemma UnlockOrderAlone(s: State, t: nat, o: TradeNo)
    requires WellFormed(s) && t < |s.pcs| && s.pcs[t].Held? && s.pcs[t].order == o && !s.createLock && !s.crashed
    requires o in s.orderLocks && s.mutexes[s.orderLocks[o]].locked
    ensures Alone(s, t, 6) == Unlocked(s, t, o)
  {
    ReleaseAlone(s, t, o);
    LeaveAlone(Released(s, t, o), t);
    ReleasedAndLeft(s, t, o);
  }

  lemma ReleasedAndLeft(s: State, t: nat, o: TradeNo)
    requires t < |s.pcs| && o in s.orderLocks && s.orderLocks[o] < |s.mutexes|
    ensures Left(Released(s, t, o), t) == Unlocked(s, t, o)
  {
    var m := s.orderLocks[o];
    var e, last := Released(s, t, o), Mutex(false, s.mutexes[m].refCount - 1);
    assert e.mutexes[m := last] == s.mutexes[m := last] && e.pcs[t := Idle] == s.pcs[t := Idle];
  }

  lemma ReleaseAlone(s: State, t: nat, o: TradeNo)
    requires WellFormed(s) && t < |s.pcs| && s.pcs[t].Held? && s.pcs[t].order == o && !s.createLock && !s.crashed
    requires o in s.orderLocks && s.mutexes[s.orderLocks[o]].locked
    ensures WellFormed(Released(s, t, o)) && Alone(s, t, 6) == Alone(Released(s, t, o), t, 4)
  {
    var e := Step(Step(s, t), t);
    assert e.pcs == s.pcs[t := UnlockEnter(o, s.orderLocks[o])];
    assert e == Released(s, t, o);
  }

  lemma LeaveAlone(s: State, t: nat)
    requires WellFormed(s) && t < |s.pcs| && s.pcs[t].UnlockEnter? && !s.createLock
    ensures Alone(s, t, 4) == Left(s, t)
  {
    var o, m := s.pcs[t].order, s.pcs[t].rcm;
    var s2 := Step(Step(s, t), t);
    assert s2.mutexes == s.mutexes[m := Mutex(s.mutexes[m].locked, s.mutexes[m].refCount - 1)];
    assert s2.pcs == s.pcs[t := UnlockCheck(o, m)];
    assert Alone(s, t, 4) == Alone(s2, t, 2);
    var s4 := Step(Step(s2, t), t);
    assert s4.pcs == s.pcs[t := Idle];
    assert Alone(s2, t, 2) == s4;
  }

  class OrderLockTable {
    var orderLocks: map<TradeNo, RefCountedMutex>
    var createLock: bool
    ghost var created: seq<RefCountedMutex>

    ghost predicate Valid()
      reads this
    {
      forall i, j :: 0 <= i < j < |created| ==> created[i] != created[j]
    }

    /** Mutex number i of the abstract heap is the i-th mutex created. */
    ghost predicate ShowsHeap(mutexes: seq<Mutex>)
      reads this, created
    {
      && |mutexes| == |created|
      && forall i :: 0 <= i < |created| ==> mutexes[i] == Mutex(created[i].locked, created[i].refCount)
    }

    ghost predicate ShowsTable(table: map<TradeNo, nat>)
      reads this
    {
      && table.Keys == orderLocks.Keys
      && forall o :: o in orderLocks ==> table[o] < |created| && created[table[o]] == orderLocks[o]
    }

    ghost predicate Shows(s: State)
      reads this, created
    {
      Valid() && ShowsHeap(s.mutexes) && ShowsTable(s.orderLocks) && s.createLock == createLock
    }

    constructor ()
      ensures Valid() && created == [] && orderLocks == map[] && !createLock
    {
      orderLocks, createLock, created := map[], false, [];
    }

    /** The mutex of an order, created and entered in the table when it has none. */
    method LoadOrCreate(tradeNo: TradeNo, ghost s: State) returns (rcm: RefCountedMutex, ghost m: nat)
      requires Shows(s)
      modifies this
      ensures Shows(Entered(s, tradeNo)) && m == Entered(s, tradeNo).orderLocks[tradeNo]
      ensures m < |created| && created[m] == rcm && createLock == old(createLock)
      ensures tradeNo in old(orderLocks) ==> rcm == old(orderLocks)[tradeNo]
      ensures tradeNo !in old(orderLocks) ==> fresh(rcm) && !rcm.locked
    {
      if tradeNo in orderLocks {
        rcm, m := orderLocks[tradeNo], s.orderLocks[tradeNo];
      } else {
        rcm := new RefCountedMutex();
        m := |created|;
        orderLocks := orderLocks[tradeNo := rcm];
        created := created + [rcm];
      }
    }

    method CountAndTake(rcm: RefCountedMutex, ghost m: nat, ghost s: State, ghost s': State)
      requires Shows(s) && createLock && m < |created| && created[m] == rcm && !rcm.locked
      requires s'.orderLocks == s.orderLocks && !s'.createLock
      requires s'.mutexes == s.mutexes[m := Mutex(true, s.mutexes[m].refCount + 1)]
      modifies this`createLock, rcm
      ensures Shows(s')
    {
      rcm.refCount := rcm.refCount + 1;
      createLock := false;
      rcm.locked := true;
    }

    method LockOrder(tradeNo: TradeNo, ghost s: State, ghost t: nat)
      requires Shows(s) && !createLock && t < |s.pcs|
      requires tradeNo in orderLocks ==> !orderLocks[tradeNo].locked
      modifies this, created
      ensures Shows(Locked(s, t, tradeNo))
    {
      createLock := true;
      var rcm, m := LoadOrCreate(tradeNo, s.(createLock := true));
      CountAndTake(rcm, m, Entered(s.(createLock := true), tradeNo), Locked(s, t, tradeNo));
    }

    method UnlockOrder(tradeNo: TradeNo, ghost s: State, ghost t: nat)
      requires Shows(s) && !createLock && t < |s.pcs|
      requires tradeNo in orderLocks ==> orderLocks[tradeNo].locked
      modifies this, created
      ensures created == old(created)
      ensures if tradeNo in s.orderLocks then Shows(Unlocked(s, t, tradeNo)) else Shows(s)
    {
      if tradeNo !in orderLocks {
        return;
      }
      var rcm := orderLocks[tradeNo];
      rcm.locked := false;
      createLock := true;
      rcm.refCount := rcm.refCount - 1;
      if rcm.refCount == 0 {
        orderLocks := orderLocks - {tradeNo};
      }
      createLock := false;
    }
  }
}
