/** Two runs of the payment handlers: one callback whose credit succeeds, and one whose credit fails. */
module TopUpRuns {
  import opened Numbers
  import opened OrderLocks
  import opened TopUps

  /** Some execution that begins at s0 comes to s. */
  ghost predicate Reachable(s0: TopUps.State, s: TopUps.State, q: real) {
    exists states: seq<TopUps.State>, actions: seq<Action> ::
      Execution(states, actions, q) && states[0] == s0 && states[|states| - 1] == s
  }

  lemma Go(s0: TopUps.State, s: TopUps.State, a: Action, s': TopUps.State, q: real)
    requires Reachable(s0, s, q) && Allowed(s, a) && Perform(s, a, q) == s'
    ensures Reachable(s0, s', q)
  {
    var states: seq<TopUps.State>, actions: seq<Action> :|
      Execution(states, actions, q) && states[0] == s0 && states[|states| - 1] == s;
    var states', actions' := states + [s'], actions + [a];
    assert Execution(states', actions', q) && states'[0] == s0 && states'[|states'| - 1] == s';
  }

  /** One thread, one pending Epay order. */
  function Fresh(o: TradeNo, row: TopUp): TopUps.State {
    TopUps.State(OrderLocks.State(map[], [], false, [Idle], false), [Finished], map[o := row], [], [], {})
  }

  lemma FreshIsReachable(o: TradeNo, row: TopUp, q: real)
    requires row.status.Pending?
    ensures Reachable(Fresh(o, row), Fresh(o, row), q)
  {
    assert Execution([Fresh(o, row)], [], q);
  }

  /** The lock state of a single thread that has created the order's mutex. */
  function Only(o: TradeNo, locked: bool, count: int, createLock: bool, pc: Pc): OrderLocks.State {
    OrderLocks.State(map[o := 0], [Mutex(locked, count)], createLock, [pc], false)
  }

  function NoLocks(createLock: bool, pc: Pc): OrderLocks.State {
    OrderLocks.State(map[], [], createLock, [pc], false)
  }

  lemma LockStep(s0: TopUps.State, s: TopUps.State, next: OrderLocks.State, q: real)
    requires Reachable(s0, s, q) && |s.jobs| == |s.locks.pcs| && WellFormed(s.locks) && Enabled(s.locks, 0)
    requires !s.locks.pcs[0].Held? && Step(s.locks, 0) == next
    ensures Reachable(s0, s.(locks := next), q)
  {
    Go(s0, s, Lock(0), s.(locks := next), q);
  }

  function Called(o: TradeNo, row: TopUp, via: string, locks: OrderLocks.State): TopUps.State {
    Fresh(o, row).(locks := locks, jobs := [Begin(EpayNotify(via))])
  }

  /** The callback arrives and creates the order's mutex. */
  lemma CreatesTheLock(o: TradeNo, row: TopUp, via: string, q: real)
    requires row.status.Pending?
    ensures Reachable(Fresh(o, row), Called(o, row, via, Only(o, false, 0, true, LockCount(o, 0))), q)
  {
    FreshIsReachable(o, row, q);
    var s0 := Fresh(o, row);
    Go(s0, s0, Call(0, o, EpayNotify(via)), Called(o, row, via, NoLocks(false, LockEnter(o))), q);
    LockStep(s0, Called(o, row, via, NoLocks(false, LockEnter(o))), NoLocks(true, LockLoad(o)), q);
    LockStep(s0, Called(o, row, via, NoLocks(true, LockLoad(o))), NoLocks(true, LockCreate(o)), q);
    LockStep(s0, Called(o, row, via, NoLocks(true, LockCreate(o))), Only(o, false, 0, true, LockCount(o, 0)), q);
  }

  /** It takes the order lock. */
  lemma TakesTheLock(o: TradeNo, row: TopUp, via: string, q: real)
    requires row.status.Pending?
    ensures Reachable(Fresh(o, row), Called(o, row, via, Only(o, true, 1, false, Held(o, 0))), q)
  {
    CreatesTheLock(o, row, via, q);
    var s0 := Fresh(o, row);
    LockStep(s0, Called(o, row, via, Only(o, false, 0, true, LockCount(o, 0))),
             Only(o, false, 1, true, LockLeave(o, 0)), q);
    LockStep(s0, Called(o, row, via, Only(o, false, 1, true, LockLeave(o, 0))),
             Only(o, false, 1, false, LockWait(o, 0)), q);
    LockStep(s0, Called(o, row, via, Only(o, false, 1, false, LockWait(o, 0))), Only(o, true, 1, false, Held(o, 0)), q);
  }

  function Paid(row: TopUp, via: string): TopUp {
    row.(status := Success, paymentMethod := via)
  }

  /** Holding the lock, with a success on the row and this job to do. */
  function Marked(o: TradeNo, row: TopUp, via: string, job: Job): TopUps.State {
    Fresh(o, Paid(row, via)).(locks := Only(o, true, 1, false, Held(o, 0)), jobs := [job])
  }

  /** It reads the row and writes it back as a success. */
  lemma MarksSuccess(o: TradeNo, row: TopUp, via: string, q: real)
    requires row.status.Pending? && row.provider.Epay?
    ensures Reachable(Fresh(o, row), Marked(o, row, via, EpayCredit(Paid(row, via))), q)
  {
    TakesTheLock(o, row, via, q);
    var s1 := Called(o, row, via, Only(o, true, 1, false, Held(o, 0)));
    var s2 := s1.(jobs := [EpayWrite(Paid(row, via))]);
    Go(Fresh(o, row), s1, Work(0, true, 0), s2, q);
    assert s2.rows[o := Paid(row, via)] == map[o := Paid(row, via)];
    Go(Fresh(o, row), s2, Work(0, true, 0), Marked(o, row, via, EpayCredit(Paid(row, via))), q);
  }

  /** After the last step of the handler: n was credited. */
  function Credited(o: TradeNo, row: TopUp, via: string, n: int): TopUps.State {
    Marked(o, row, via, Finished).(credits := [Credit(o, row.user, n as real)])
  }

  function Uncredited(o: TradeNo, row: TopUp, via: string): TopUps.State {
    Marked(o, row, via, Finished).(lost := [o])
  }

  /** The database obeys: a pending Epay order is credited, once, with the integer part of its Amount
      times the quota unit, unless that is negative, which the quota service refuses. */
  lemma CreditRun(o: TradeNo, row: TopUp, via: string, q: real, n: int)
    requires row.status.Pending? && row.provider.Epay? && IsIntegerPart(row.amount as real * q, n)
    ensures Reachable(Fresh(o, row), if n >= 0 then Credited(o, row, via, n) else Uncredited(o, row, via), q)
  {
    MarksSuccess(o, row, via, q);
    IntegerPartIsUnique(row.amount as real * q, n, EpayQuota(row.amount, q));
    Go(Fresh(o, row), Marked(o, row, via, EpayCredit(Paid(row, via))), Work(0, true, 0),
       if n >= 0 then Credited(o, row, via, n) else Uncredited(o, row, via), q);
  }

  /** The quota write is refused: the row is a success and nothing was credited. */
  lemma LossRun(o: TradeNo, row: TopUp, via: string, q: real)
    requires row.status.Pending? && row.provider.Epay?
    ensures Reachable(Fresh(o, row), Uncredited(o, row, via), q)
    ensures var s := Uncredited(o, row, via);
      s.rows[o].status.Success? && LostOf(s.lost, o) == 1 && CreditsOf(s.credits, o) == 0
  {
    MarksSuccess(o, row, via, q);
    Go(Fresh(o, row), Marked(o, row, via, EpayCredit(Paid(row, via))), Work(0, false, 0), Uncredited(o, row, via), q);
  }
}
