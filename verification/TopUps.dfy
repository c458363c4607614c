/** Payment fulfilment under the per-order lock.

    The callback handlers run on the threads of OrderLocks: a handler starts by calling LockOrder,
    works while its thread is Held, and ends by calling UnlockOrder.  Each database read, write or
    transaction is one atomic step that may fail.  EpayNotify reads a row, writes the whole row back
    and only then credits the user, as three separate steps; the other handlers use one transaction
    or a read followed by a write. */
module TopUps {
  import opened Numbers
  import opened OrderLocks

  datatype Status = Pending | Success | Failed | Expired

  datatype Provider = Epay | Stripe | Foreign(name: string)

  datatype TopUp = TopUp(
    user: nat, amount: int, money: real, provider: Provider, paymentMethod: string,
    status: Status, completeTime: int)

  /** A handler, with what the callback told it. */
  datatype Handler =
    | EpayNotify(paymentMethod: string)
    | StripeFulfil
    | StripeAsyncFailed
    | StripeExpire
    | AdminComplete

  /** What a handler does next; Finished means its deferred UnlockOrder runs. */
  datatype Job =
    | Begin(handler: Handler)
    | EpayWrite(row: TopUp)      // topUp.Update() with the row copied at the read
    | EpayCredit(row: TopUp)     // IncreaseUserQuota
    | FailWrite(row: TopUp)      // topUp.Update() of the Stripe failure handler
    | Finished

  /** One successful increase of a user's quota. */
  datatype Credit = Credit(order: TradeNo, user: nat, quota: real)

  /** `jobs[t]` belongs to thread t.  `credits` and `lost` are histories: every quota increase, and
      the orders whose increase failed after the row had become a success.  `before` holds the
      orders that were already successful when the process started. */
  datatype State = State(
    locks: OrderLocks.State,
    jobs: seq<Job>,
    rows: map<TradeNo, TopUp>,
    credits: seq<Credit>,
    lost: seq<TradeNo>,
    before: set<TradeNo>)

  // ---------- Quota arithmetic ----------

  /** Amount times the quota unit. */
  function EpayQuota(amount: int, quotaPerUnit: real): int {
    Trunc(amount as real * quotaPerUnit)
  }

  /** Recharge: the money of a Stripe order is already in quota units of one dollar. */
  function StripeQuota(money: real, quotaPerUnit: real): real {
    money * quotaPerUnit
  }

  /** ManualCompleteTopUp: Stripe orders are charged by Money, all others by Amount. */
  function AdminQuota(row: TopUp, quotaPerUnit: real): int {
    if row.provider.Stripe? then Trunc(StripeQuota(row.money, quotaPerUnit)) else EpayQuota(row.amount, quotaPerUnit)
  }

  // ---------- Steps inside the critical section ----------

  function Finish(s: State, t: nat): State
    requires t < |s.jobs|
  {
    s.(jobs := s.jobs[t := Finished])
  }

  function Become(s: State, t: nat, job: Job): State
    requires t < |s.jobs|
  {
    s.(jobs := s.jobs[t := job])
  }

  /** A transaction that marks the row successful and credits `quota` in one commit. */
  function Commit(s: State, t: nat, o: TradeNo, now: int, quota: real): State
    requires t < |s.jobs| && o in s.rows
  {
    var row := s.rows[o].(status := Success, completeTime := now);
    Finish(s, t).(rows := s.rows[o := row], credits := s.credits + [Credit(o, row.user, quota)])
  }

  predicate CanWork(s: State, t: nat) {
    && t < |s.jobs| == |s.locks.pcs| && s.locks.pcs[t].Held? && !s.jobs[t].Finished?
  }

  /** The first step of a handler that has the order lock: it reads the row and decides. */
  function BeginStep(s: State, t: nat, handler: Handler, ok: bool, now: int, quotaPerUnit: real): State
    requires CanWork(s, t)
  {
    var o := s.locks.pcs[t].order;
    if !ok || o !in s.rows || !s.rows[o].status.Pending? then Finish(s, t)
    else
      var row := s.rows[o];
      match handler
      case EpayNotify(paymentMethod) =>
        if !row.provider.Epay? then Finish(s, t)
        else Become(s, t, EpayWrite(row.(status := Success, paymentMethod := paymentMethod)))
      case StripeFulfil =>
        if !row.provider.Stripe? then Finish(s, t) else Commit(s, t, o, now, StripeQuota(row.money, quotaPerUnit))
      case StripeAsyncFailed =>
        if !row.provider.Stripe? then Finish(s, t) else Become(s, t, FailWrite(row.(status := Failed)))
      case StripeExpire =>
        if !row.provider.Stripe? then Finish(s, t) else Finish(s, t).(rows := s.rows[o := row.(status := Expired)])
      case AdminComplete =>
        if AdminQuota(row, quotaPerUnit) <= 0 then Finish(s, t)
        else Commit(s, t, o, now, AdminQuota(row, quotaPerUnit) as real)
  }

  /** The next database step of thread `t` on its order; `ok` is whether the database obeys. */
  function WorkStep(s: State, t: nat, ok: bool, now: int, quotaPerUnit: real): State
    requires CanWork(s, t)
  {
    var o := s.locks.pcs[t].order;
    match s.jobs[t]
    case Begin(handler) => BeginStep(s, t, handler, ok, now, quotaPerUnit)
    case EpayWrite(row) =>
      if !ok then Finish(s, t) else Become(s, t, EpayCredit(row)).(rows := s.rows[o := row])
    case EpayCredit(row) =>
      var quota := EpayQuota(row.amount, quotaPerUnit);
      if !ok || quota < 0 then Finish(s, t).(lost := s.lost + [o])
      else Finish(s, t).(credits := s.credits + [Credit(o, row.user, quota as real)])
    case FailWrite(row) =>
      if !ok then Finish(s, t) else Finish(s, t).(rows := s.rows[o := row])
  }

  // ---------- The whole system ----------

  datatype Action =
    | Call(t: nat, order: TradeNo, handler: Handler)   // a callback arrives
    | Lock(t: nat)                                     // a step of LockOrder or UnlockOrder
    | Work(t: nat, ok: bool, now: int)                 // a database step
    | Insert(order: TradeNo, row: TopUp)               // a user creates an order
    | Elsewhere(order: TradeNo, row: TopUp)            // code for other providers writes a row

  predicate Allowed(s: State, a: Action) {
    && |s.jobs| == |s.locks.pcs| && WellFormed(s.locks)
    && match a
       case Call(t, _, _) => t < |s.jobs| && s.locks.pcs[t].Idle?
       case Lock(t) => Enabled(s.locks, t) && (s.locks.pcs[t].Held? ==> s.jobs[t].Finished?)
       case Work(t, _, _) => CanWork(s, t)
       case Insert(o, row) => o !in s.rows && row.status.Pending?
       case Elsewhere(o, row) => o in s.rows && s.rows[o].provider.Foreign? && row.provider.Foreign?
  }

  function Perform(s: State, a: Action, quotaPerUnit: real): State
    requires Allowed(s, a)
  {
    match a
    case Call(t, o, h) => s.(locks := OrderLocks.Call(s.locks, t, o), jobs := s.jobs[t := Begin(h)])
    case Lock(t) => s.(locks := Step(s.locks, t))
    case Work(t, ok, now) => WorkStep(s, t, ok, now, quotaPerUnit)
    case Insert(o, row) => s.(rows := s.rows[o := row])
    case Elsewhere(o, row) => s.(rows := s.rows[o := row])
  }

  ghost predicate Start(s: State) {
    && Init(s.locks) && |s.jobs| == |s.locks.pcs| && s.credits == [] && s.lost == []
    && (forall t :: 0 <= t < |s.jobs| ==> s.jobs[t].Finished?)
    && forall o :: o in s.before <==> o in s.rows && s.rows[o].status.Success?
  }

  /** The state after performing the actions in order, for any interleaving of any callbacks. */
  ghost predicate Execution(states: seq<State>, actions: seq<Action>, quotaPerUnit: real) {
    && |states| == |actions| + 1 && Start(states[0])
    && forall i :: 0 <= i < |actions| ==>
         Allowed(states[i], actions[i]) && states[i + 1] == Perform(states[i], actions[i], quotaPerUnit)
  }

  // ---------- The invariant ----------

  function CreditsOf(credits: seq<Credit>, o: TradeNo): nat {
    if credits == [] then 0
    else CreditsOf(credits[..|credits| - 1], o) + if credits[|credits| - 1].order == o then 1 else 0
  }

  function LostOf(lost: seq<TradeNo>, o: TradeNo): nat {
    if lost == [] then 0 else LostOf(lost[..|lost| - 1], o) + if lost[|lost| - 1] == o then 1 else 0
  }

  function Settled(s: State, o: TradeNo): nat {
    CreditsOf(s.credits, o) + LostOf(s.lost, o)
  }

  /** Orders whose every writer takes the order lock. */
  predicate Tracked(s: State, o: TradeNo) {
    o in s.rows && !s.rows[o].provider.Foreign?
  }

  predicate Crediting(s: State, t: nat, o: TradeNo) {
    t < |s.jobs| == |s.locks.pcs| && s.locks.pcs[t].Held? && s.locks.pcs[t].order == o && s.jobs[t].EpayCredit?
  }

  /** What a thread read earlier still describes the row. */
  predicate JobFresh(s: State, t: nat)
    requires t < |s.jobs| == |s.locks.pcs|
  {
    && (s.jobs[t].EpayWrite? || s.jobs[t].EpayCredit? || s.jobs[t].FailWrite? ==> s.locks.pcs[t].Held?)
    && (s.locks.pcs[t].Held? ==>
          var o := s.locks.pcs[t].order;
          match s.jobs[t]
          case EpayWrite(row) =>
            && o in s.rows && s.rows[o].status.Pending? && s.rows[o].provider.Epay?
            && row == s.rows[o].(status := Success, paymentMethod := row.paymentMethod)
          case EpayCredit(row) =>
            && o in s.rows && s.rows[o] == row && row.status.Success? && row.provider.Epay?
            && Settled(s, o) == 0 && o !in s.before
          case FailWrite(row) =>
            && o in s.rows && s.rows[o].status.Pending? && s.rows[o].provider.Stripe?
            && row == s.rows[o].(status := Failed)
          case _ => true)
  }

  /** Each order is settled exactly once if it is a success reached in this run, and never otherwise;
      while the credit is still under way it is not settled yet. */
  predicate Balanced(s: State, o: TradeNo) {
    Tracked(s, o) ==>
      && (s.rows[o].status.Success? && o !in s.before ==>
            Settled(s, o) == 1 || (Settled(s, o) == 0 && exists t :: 0 <= t < |s.jobs| && Crediting(s, t, o)))
      && (!s.rows[o].status.Success? || o in s.before ==> Settled(s, o) == 0)
      && (o in s.before ==> s.rows[o].status.Success?)
  }

  predicate CreditRight(s: State, c: Credit, quotaPerUnit: real) {
    c.order in s.rows && !s.rows[c.order].provider.Foreign? ==>
      var row := s.rows[c.order];
      && row.status.Success? && c.user == row.user
      && (row.provider.Epay? ==> c.quota == EpayQuota(row.amount, quotaPerUnit) as real)
      && (row.provider.Stripe? ==>
            || c.quota == StripeQuota(row.money, quotaPerUnit)
            || c.quota == Trunc(StripeQuota(row.money, quotaPerUnit)) as real)
  }

  /** No two threads hold the same order. */
  predicate Exclusive(s: State) {
    forall t, u | 0 <= t < |s.locks.pcs| && 0 <= u < |s.locks.pcs| && t != u ::
      s.locks.pcs[t].Held? && s.locks.pcs[u].Held? ==> s.locks.pcs[t].order != s.locks.pcs[u].order
  }

  ghost predicate Books(s: State, quotaPerUnit: real) {
    && |s.jobs| == |s.locks.pcs|
    && (forall t :: 0 <= t < |s.jobs| ==> JobFresh(s, t))
    && (forall o :: o in s.rows ==> Balanced(s, o))
    && (forall o :: o !in s.rows ==> Settled(s, o) == 0 && o !in s.before)
    && (forall c :: c in s.credits ==> CreditRight(s, c, quotaPerUnit))
  }

  ghost predicate SafeState(s: State, quotaPerUnit: real) {
    Inv(s.locks) && Books(s, quotaPerUnit)
  }

  // ---------- Every action keeps the invariant ----------

  lemma AppendCredit(credits: seq<Credit>, c: Credit, o: TradeNo)
    ensures CreditsOf(credits + [c], o) == CreditsOf(credits, o) + if c.order == o then 1 else 0
  {
    assert (credits + [c])[..|credits|] == credits;
  }

  lemma AppendLost(lost: seq<TradeNo>, p: TradeNo, o: TradeNo)
    ensures LostOf(lost + [p], o) == LostOf(lost, o) + if p == o then 1 else 0
  {
    assert (lost + [p])[..|lost|] == lost;
  }

  /** The lock protocol provides the exclusion the handlers rely on. */
  lemma LocksGiveExclusion(s: State)
    requires Inv(s.locks)
    ensures Exclusive(s)
  {
  }

  /** What a step may do to the histories: nothing, one credit, or one loss, of its own order. */
  ghost predicate SettlesOwn(s: State, s': State, o: TradeNo) {
    || (s'.credits == s.credits && s'.lost == s.lost)
    || (s'.lost == s.lost && exists user, quota :: s'.credits == s.credits + [Credit(o, user, quota)])
    || (s'.credits == s.credits && s'.lost == s.lost + [o])
  }

  lemma BeginSettlesOwn(s: State, t: nat, h: Handler, ok: bool, now: int, q: real)
    requires CanWork(s, t)
    ensures SettlesOwn(s, BeginStep(s, t, h, ok, now, q), s.locks.pcs[t].order)
  {
  }

  lemma WorkSettlesOwn(s: State, t: nat, ok: bool, now: int, q: real)
    requires CanWork(s, t)
    ensures SettlesOwn(s, WorkStep(s, t, ok, now, q), s.locks.pcs[t].order)
  {
    if s.jobs[t].Begin? {
      BeginSettlesOwn(s, t, s.jobs[t].handler, ok, now, q);
    }
  }

  lemma SettlesAtMostOwn(s: State, s': State, o: TradeNo, p: TradeNo)
    requires SettlesOwn(s, s', o)
    ensures Settled(s', p) == Settled(s, p) + if p == o && (s'.credits != s.credits || s'.lost != s.lost) then 1 else 0
  {
    if s'.credits != s.credits {
      AppendCredit(s.credits, s'.credits[|s.credits|], p);
    } else if s'.lost != s.lost {
      AppendLost(s.lost, o, p);
    }
  }

  /** A database step settles at most its own order. */
  lemma WorkSettles(s: State, t: nat, ok: bool, now: int, q: real, p: TradeNo)
    requires CanWork(s, t)
    ensures var s' := WorkStep(s, t, ok, now, q);
      Settled(s', p) == Settled(s, p)
        + if p == s.locks.pcs[t].order && (s'.credits != s.credits || s'.lost != s.lost) then 1 else 0
  {
    WorkSettlesOwn(s, t, ok, now, q);
    SettlesAtMostOwn(s, WorkStep(s, t, ok, now, q), s.locks.pcs[t].order, p);
  }

  /** A database step touches the thread's own order only. */
  lemma WorkIsLocal(s: State, t: nat, ok: bool, now: int, q: real, p: TradeNo)
    requires CanWork(s, t) && p != s.locks.pcs[t].order
    ensures var s' := WorkStep(s, t, ok, now, q);
      && (p in s'.rows <==> p in s.rows) && (p in s.rows ==> s'.rows[p] == s.rows[p])
      && Settled(s', p) == Settled(s, p)
  {
    WorkSettles(s, t, ok, now, q, p);
  }

  lemma WorkKeepsOtherJob(s: State, t: nat, ok: bool, now: int, q: real, u: nat)
    requires Books(s, q) && Exclusive(s) && CanWork(s, t) && u < |s.jobs| && u != t
    ensures JobFresh(WorkStep(s, t, ok, now, q), u)
  {
    var s' := WorkStep(s, t, ok, now, q);
    assert JobFresh(s, u);
    assert s'.jobs[u] == s.jobs[u] && s'.locks == s.locks && s'.before == s.before;
    if s.locks.pcs[u].Held? {
      WorkIsLocal(s, t, ok, now, q, s.locks.pcs[u].order);
    }
  }

  lemma BeginKeepsOwnJob(s: State, t: nat, ok: bool, now: int, q: real)
    requires CanWork(s, t) && s.jobs[t].Begin?
    ensures JobFresh(WorkStep(s, t, ok, now, q), t)
  {
  }

  lemma WriteKeepsOwnJob(s: State, t: nat, ok: bool, now: int, q: real)
    requires CanWork(s, t) && !s.jobs[t].Begin? && JobFresh(s, t) && Balanced(s, s.locks.pcs[t].order)
    ensures JobFresh(WorkStep(s, t, ok, now, q), t)
  {
  }

  lemma WorkKeepsOwnJob(s: State, t: nat, ok: bool, now: int, q: real)
    requires Books(s, q) && Exclusive(s) && CanWork(s, t)
    ensures JobFresh(WorkStep(s, t, ok, now, q), t)
  {
    if s.jobs[t].Begin? {
      BeginKeepsOwnJob(s, t, ok, now, q);
    } else {
      assert JobFresh(s, t);
      assert s.locks.pcs[t].order in s.rows;
      WriteKeepsOwnJob(s, t, ok, now, q);
    }
  }

  lemma WorkKeepsOtherCrediting(s: State, t: nat, ok: bool, now: int, q: real, u: nat, p: TradeNo)
    requires CanWork(s, t) && p != s.locks.pcs[t].order && Crediting(s, u, p)
    ensures Crediting(WorkStep(s, t, ok, now, q), u, p)
  {
    assert u != t;
  }

  /** Balanced looks at one row, what is settled of it, and who is crediting it. */
  lemma BalancedFrame(s: State, s': State, p: TradeNo)
    requires Balanced(s, p) && p in s.rows && p in s'.rows && s'.rows[p] == s.rows[p]
    requires Settled(s', p) == Settled(s, p) && s'.before == s.before && |s'.jobs| == |s.jobs|
    requires forall u: nat :: Crediting(s, u, p) ==> Crediting(s', u, p)
    ensures Balanced(s', p)
  {
    if u :| 0 <= u < |s.jobs| && Crediting(s, u, p) {
      assert Crediting(s', u, p);
    }
  }

  lemma WorkKeepsOtherBalance(s: State, t: nat, ok: bool, now: int, q: real, p: TradeNo)
    requires Books(s, q) && Exclusive(s) && CanWork(s, t) && p in s.rows && p != s.locks.pcs[t].order
    ensures Balanced(WorkStep(s, t, ok, now, q), p)
  {
    var s' := WorkStep(s, t, ok, now, q);
    WorkIsLocal(s, t, ok, now, q, p);
    forall u: nat | Crediting(s, u, p) ensures Crediting(s', u, p) {
      WorkKeepsOtherCrediting(s, t, ok, now, q, u, p);
    }
    assert Balanced(s, p);
    BalancedFrame(s, s', p);
  }

  lemma OnlyOwnCrediting(s: State, t: nat, u: nat)
    requires Exclusive(s) && CanWork(s, t) && Crediting(s, u, s.locks.pcs[t].order)
    ensures u == t
  {
  }

  predicate OwnBalance(s: State, o: TradeNo) {
    if o in s.rows then Balanced(s, o) else Settled(s, o) == 0 && o !in s.before
  }

  lemma EpayWriteKeepsBalance(s: State, t: nat, ok: bool, now: int, q: real)
    requires Books(s, q) && Exclusive(s) && CanWork(s, t) && s.jobs[t].EpayWrite?
    ensures OwnBalance(WorkStep(s, t, ok, now, q), s.locks.pcs[t].order)
  {
    var o := s.locks.pcs[t].order;
    assert JobFresh(s, t);
    WorkSettles(s, t, ok, now, q, o);
    assert Balanced(s, o);
    if ok {
      assert Crediting(WorkStep(s, t, ok, now, q), t, o);
    }
  }

  lemma EpayCreditKeepsBalance(s: State, t: nat, ok: bool, now: int, q: real)
    requires Books(s, q) && Exclusive(s) && CanWork(s, t) && s.jobs[t].EpayCredit?
    ensures OwnBalance(WorkStep(s, t, ok, now, q), s.locks.pcs[t].order)
  {
    var o := s.locks.pcs[t].order;
    assert JobFresh(s, t);
    WorkSettles(s, t, ok, now, q, o);
    assert Balanced(s, o);
  }

  lemma FailWriteKeepsBalance(s: State, t: nat, ok: bool, now: int, q: real)
    requires Books(s, q) && Exclusive(s) && CanWork(s, t) && s.jobs[t].FailWrite?
    ensures OwnBalance(WorkStep(s, t, ok, now, q), s.locks.pcs[t].order)
  {
    var o := s.locks.pcs[t].order;
    assert JobFresh(s, t);
    WorkSettles(s, t, ok, now, q, o);
    assert Balanced(s, o);
  }

  lemma BeginKeepsBalance(s: State, t: nat, ok: bool, now: int, q: real)
    requires Books(s, q) && Exclusive(s) && CanWork(s, t) && s.jobs[t].Begin?
    ensures OwnBalance(WorkStep(s, t, ok, now, q), s.locks.pcs[t].order)
  {
    var o := s.locks.pcs[t].order;
    assert JobFresh(s, t);
    WorkSettles(s, t, ok, now, q, o);
    if o in s.rows {
      assert Balanced(s, o);
      // Nobody else is crediting this order.
      forall u | 0 <= u < |s.jobs| ensures !Crediting(s, u, o) {
        if Crediting(s, u, o) { OnlyOwnCrediting(s, t, u); }
      }
    }
  }

  lemma WorkKeepsOwnBalance(s: State, t: nat, ok: bool, now: int, q: real)
    requires Books(s, q) && Exclusive(s) && CanWork(s, t)
    ensures OwnBalance(WorkStep(s, t, ok, now, q), s.locks.pcs[t].order)
  {
    match s.jobs[t]
    case Begin(_) => BeginKeepsBalance(s, t, ok, now, q);
    case EpayWrite(_) => EpayWriteKeepsBalance(s, t, ok, now, q);
    case EpayCredit(_) => EpayCreditKeepsBalance(s, t, ok, now, q);
    case FailWrite(_) => FailWriteKeepsBalance(s, t, ok, now, q);
  }

  lemma WorkKeepsCredits(s: State, t: nat, ok: bool, now: int, q: real, c: Credit)
    requires Books(s, q) && Exclusive(s) && CanWork(s, t) && c in WorkStep(s, t, ok, now, q).credits
    ensures CreditRight(WorkStep(s, t, ok, now, q), c, q)
  {
    var o := s.locks.pcs[t].order;
    assert JobFresh(s, t);
    if c in s.credits {
      assert CreditRight(s, c, q);
      if c.order == o && o !in s.rows {
        CreditCounts(s.credits, c);
      }
      if c.order != o {
        WorkIsLocal(s, t, ok, now, q, c.order);
      }
    }
  }

  lemma {:induction false} CreditCounts(credits: seq<Credit>, c: Credit)
    requires c in credits
    ensures CreditsOf(credits, c.order) > 0
  {
    if credits[|credits| - 1] != c {
      CreditCounts(credits[..|credits| - 1], c);
    }
  }

  lemma WorkKeepsBooks(s: State, t: nat, ok: bool, now: int, q: real)
    requires Books(s, q) && Exclusive(s) && CanWork(s, t)
    ensures Books(WorkStep(s, t, ok, now, q), q)
  {
    var s' := WorkStep(s, t, ok, now, q);
    var o := s.locks.pcs[t].order;
    forall u | 0 <= u < |s'.jobs| ensures JobFresh(s', u) {
      if u == t { WorkKeepsOwnJob(s, t, ok, now, q); } else { WorkKeepsOtherJob(s, t, ok, now, q, u); }
    }
    WorkKeepsOwnBalance(s, t, ok, now, q);
    forall p | p in s'.rows ensures Balanced(s', p) {
      if p != o {
        WorkIsLocal(s, t, ok, now, q, p);
        WorkKeepsOtherBalance(s, t, ok, now, q, p);
      }
    }
    forall p | p !in s'.rows ensures Settled(s', p) == 0 && p !in s'.before {
      if p != o { WorkIsLocal(s, t, ok, now, q, p); }
    }
    forall c | c in s'.credits ensures CreditRight(s', c, q) {
      WorkKeepsCredits(s, t, ok, now, q, c);
    }
  }

  lemma BooksFrame(s: State, s': State, q: real)
    requires Books(s, q) && |s'.jobs| == |s'.locks.pcs| == |s.jobs|
    requires s'.rows == s.rows && s'.credits == s.credits && s'.lost == s.lost && s'.before == s.before
    requires forall t :: 0 <= t < |s.jobs| ==> JobFresh(s', t)
    requires forall t, o :: Crediting(s, t, o) ==> Crediting(s', t, o)
    ensures Books(s', q)
  {
    forall o | o in s'.rows ensures Balanced(s', o) {
      assert Balanced(s, o);
      if t :| 0 <= t < |s.jobs| && Crediting(s, t, o) {
        assert Crediting(s', t, o);
      }
    }
    forall o | o !in s'.rows ensures Settled(s', o) == 0 && o !in s'.before {
      assert Settled(s, o) == 0;
    }
    forall c | c in s'.credits ensures CreditRight(s', c, q) {
      assert CreditRight(s, c, q);
    }
  }

  lemma CallKeepsBooks(s: State, t: nat, o: TradeNo, h: Handler, q: real)
    requires Books(s, q) && Allowed(s, Action.Call(t, o, h))
    ensures Books(Perform(s, Action.Call(t, o, h), q), q)
  {
    var s' := Perform(s, Action.Call(t, o, h), q);
    forall u | 0 <= u < |s.jobs| ensures JobFresh(s', u) {
      assert JobFresh(s, u);
    }
    BooksFrame(s, s', q);
  }

  lemma LockKeepsBooks(s: State, t: nat, q: real)
    requires Books(s, q) && Allowed(s, Lock(t))
    ensures Books(Perform(s, Lock(t), q), q)
  {
    var s' := Perform(s, Lock(t), q);
    assert forall u :: 0 <= u < |s.jobs| && u != t ==> s'.locks.pcs[u] == s.locks.pcs[u];
    forall u | 0 <= u < |s.jobs| ensures JobFresh(s', u) {
      assert JobFresh(s, u);
    }
    BooksFrame(s, s', q);
  }

  /** Writing one row that no handler is working on and that stays unsettled, or is foreign. */
  lemma RowKeepsBooks(s: State, o: TradeNo, row: TopUp, q: real)
    requires Books(s, q)
    requires if o in s.rows then s.rows[o].provider.Foreign? && row.provider.Foreign? else row.status.Pending?
    ensures Books(s.(rows := s.rows[o := row]), q)
  {
    var s' := s.(rows := s.rows[o := row]);
    forall u | 0 <= u < |s.jobs| ensures JobFresh(s', u) {
      assert JobFresh(s, u);
    }
    forall p | p in s'.rows ensures Balanced(s', p) {
      assert p in s.rows ==> Balanced(s, p);
      assert Settled(s', p) == Settled(s, p);
      if t :| 0 <= t < |s.jobs| && Crediting(s, t, p) {
        assert Crediting(s', t, p);
      }
    }
    forall p | p !in s'.rows ensures Settled(s', p) == 0 && p !in s'.before {
      assert Settled(s, p) == 0;
    }
    forall c | c in s'.credits ensures CreditRight(s', c, q) {
      assert CreditRight(s, c, q);
      if c.order == o && o !in s.rows {
        CreditCounts(s.credits, c);
      }
    }
  }

  lemma LocksAfter(s: State, a: Action, q: real)
    requires Allowed(s, a)
    ensures Perform(s, a, q).locks ==
      if a.Call? then OrderLocks.Call(s.locks, a.t, a.order) else if a.Lock? then Step(s.locks, a.t) else s.locks
  {
  }

  lemma PerformKeepsLocks(s: State, a: Action, q: real)
    requires Inv(s.locks) && Allowed(s, a)
    ensures Inv(Perform(s, a, q).locks)
  {
    LocksAfter(s, a, q);
    if a.Call? {
      CallKeepsInv(s.locks, a.t, a.order);
    } else if a.Lock? {
      StepKeepsInv(s.locks, a.t);
    }
  }

  lemma PerformKeepsBooks(s: State, a: Action, q: real)
    requires Books(s, q) && Exclusive(s) && Allowed(s, a)
    ensures Books(Perform(s, a, q), q)
  {
    match a
    case Call(t, o, h) => CallKeepsBooks(s, t, o, h, q);
    case Lock(t) => LockKeepsBooks(s, t, q);
    case Work(t, ok, now) => WorkKeepsBooks(s, t, ok, now, q);
    case Insert(o, row) => RowKeepsBooks(s, o, row, q);
    case Elsewhere(o, row) => RowKeepsBooks(s, o, row, q);
  }

  lemma StartIsSafe(s: State, q: real)
    requires Start(s)
    ensures SafeState(s, q)
  {
  }

  lemma {:induction false} ExecutionIsSafe(states: seq<State>, actions: seq<Action>, q: real, i: nat)
    requires Execution(states, actions, q) && i < |states|
    ensures SafeState(states[i], q)
  {
    if i == 0 {
      StartIsSafe(states[0], q);
    } else {
      ExecutionIsSafe(states, actions, q, i - 1);
      assert states[i - 1 + 1] == Perform(states[i - 1], actions[i - 1], q);
      LocksGiveExclusion(states[i - 1]);
      PerformKeepsLocks(states[i - 1], actions[i - 1], q);
      PerformKeepsBooks(states[i - 1], actions[i - 1], q);
    }
  }

  // ---------- Main results ----------

  /** Whatever callbacks arrive, however often and however they interleave, an order is credited at
      most once, never before its row is a success, to the row's user and with the right quota. */
  lemma CreditedAtMostOnce(states: seq<State>, actions: seq<Action>, q: real, i: nat, o: TradeNo)
    requires Execution(states, actions, q) && i < |states| && Tracked(states[i], o)
    ensures CreditsOf(states[i].credits, o) <= 1
    ensures CreditsOf(states[i].credits, o) == 1 ==>
      var row := states[i].rows[o];
      row.status.Success? && exists c :: c in states[i].credits && c.order == o && PaysFor(c, row, q)
  {
    var s := states[i];
    ExecutionIsSafe(states, actions, q, i);
    assert Balanced(s, o);
    if CreditsOf(s.credits, o) == 1 {
      var c := CreditWitness(s.credits, o);
      assert CreditRight(s, c, q);
      CreditPays(s, c, q);
    }
  }

  /** The credit goes to the row's user.  It is the integer part of Amount times the quota unit for an
      Epay order; for a Stripe order it is Money times the quota unit, or the integer part of that when
      an administrator completed the order. */
  predicate PaysFor(c: Credit, row: TopUp, q: real) {
    && c.user == row.user
    && (row.provider.Epay? ==> IsIntegerPart(row.amount as real * q, c.quota.Floor) && c.quota == c.quota.Floor as real)
    && (row.provider.Stripe? ==>
          c.quota == row.money * q
          || (IsIntegerPart(row.money * q, c.quota.Floor) && c.quota == c.quota.Floor as real))
  }

  lemma CreditPays(s: State, c: Credit, q: real)
    requires CreditRight(s, c, q) && Tracked(s, c.order)
    ensures PaysFor(c, s.rows[c.order], q)
  {
  }

  /** With whole numbers the credit of an Epay order is their product. */
  lemma WholeQuota(n: nat, k: nat)
    ensures EpayQuota(n, k as real) == n * k
  {
    var x := n as real * k as real;
    assert x == (n * k) as real;
    IntegerPartIsUnique(x, Trunc(x), n * k);
  }

  // ---------- What each handler does when it has the lock ----------

  /** The thread finishes, and nothing else happens. */
  predicate Nothing(s: State, s': State, t: nat)
    requires t < |s.jobs|
  {
    s' == s.(jobs := s.jobs[t := Finished])
  }

  /** The handler's order, when it is there, pending, and the database answers. */
  predicate Ready(s: State, t: nat, ok: bool)
    requires CanWork(s, t)
  {
    ok && s.locks.pcs[t].order in s.rows && s.rows[s.locks.pcs[t].order].status.Pending?
  }

  /** One commit: the row becomes a success, its user is credited, and the thread finishes. */
  predicate Pays(s: State, s': State, t: nat, o: TradeNo, now: int, amount: real)
    requires t < |s.jobs| && o in s.rows
  {
    && s'.jobs == s.jobs[t := Finished] && s'.locks == s.locks && s'.lost == s.lost && s'.before == s.before
    && s'.rows == s.rows[o := s.rows[o].(status := Success, completeTime := now)]
    && s'.credits == s.credits + [Credit(o, s.rows[o].user, amount)]
  }

  /** A successful Stripe callback marks a pending Stripe order and credits it in one commit. */
  lemma StripeFulfilOutcome(s: State, t: nat, ok: bool, now: int, q: real)
    requires CanWork(s, t) && s.jobs[t] == Begin(StripeFulfil)
    ensures var o, s' := s.locks.pcs[t].order, WorkStep(s, t, ok, now, q);
      if !Ready(s, t, ok) || !s.rows[o].provider.Stripe? then Nothing(s, s', t)
      else Pays(s, s', t, o, now, s.rows[o].money * q)
  {
    if Ready(s, t, ok) {
      var o := s.locks.pcs[t].order;
      CommitPays(s, t, o, now, StripeQuota(s.rows[o].money, q));
    }
  }

  lemma CommitPays(s: State, t: nat, o: TradeNo, now: int, amount: real)
    requires t < |s.jobs| && o in s.rows
    ensures Pays(s, Commit(s, t, o, now, amount), t, o, now, amount)
  {
  }

  /** An expired session marks a pending Stripe order as expired. */
  lemma StripeExpireOutcome(s: State, t: nat, ok: bool, now: int, q: real)
    requires CanWork(s, t) && s.jobs[t] == Begin(StripeExpire)
    ensures var o, s' := s.locks.pcs[t].order, WorkStep(s, t, ok, now, q);
      if !Ready(s, t, ok) || !s.rows[o].provider.Stripe? then Nothing(s, s', t)
      else s' == s.(jobs := s.jobs[t := Finished], rows := s.rows[o := s.rows[o].(status := Expired)])
  {
  }

  /** An administrator completes a pending order of any provider if it is worth anything: Stripe orders
      by Money, others by Amount. */
  lemma AdminCompleteOutcome(s: State, t: nat, ok: bool, now: int, q: real, n: int)
    requires CanWork(s, t) && s.jobs[t] == Begin(AdminComplete)
    requires Ready(s, t, ok) ==>
      var row := s.rows[s.locks.pcs[t].order];
      IsIntegerPart(if row.provider.Stripe? then row.money * q else row.amount as real * q, n)
    ensures var o, s' := s.locks.pcs[t].order, WorkStep(s, t, ok, now, q);
      if !Ready(s, t, ok) || n <= 0 then Nothing(s, s', t)
      else Pays(s, s', t, o, now, n as real)
  {
    if Ready(s, t, ok) {
      var row := s.rows[s.locks.pcs[t].order];
      AdminQuotaIs(row, q, n);
      CommitPays(s, t, s.locks.pcs[t].order, now, AdminQuota(row, q) as real);
    }
  }

  lemma AdminQuotaIs(row: TopUp, q: real, n: int)
    requires IsIntegerPart(if row.provider.Stripe? then row.money * q else row.amount as real * q, n)
    ensures AdminQuota(row, q) == n
  {
    IntegerPartIsUnique(if row.provider.Stripe? then row.money * q else row.amount as real * q, n, AdminQuota(row, q));
  }

  /** A failed Stripe payment: the handler reads, and in a second step writes the row back as failed. */
  lemma StripeFailOutcome(s: State, t: nat, ok: bool, ok': bool, now: int, q: real)
    requires CanWork(s, t) && s.jobs[t] == Begin(StripeAsyncFailed)
    ensures var o, s' := s.locks.pcs[t].order, WorkStep(s, t, ok, now, q);
      if !Ready(s, t, ok) || !s.rows[o].provider.Stripe? then Nothing(s, s', t)
      else
        && CanWork(s', t) && s'.rows == s.rows && s'.credits == s.credits && s'.lost == s.lost
        && WorkStep(s', t, ok', now, q)
           == if ok' then s.(jobs := s.jobs[t := Finished], rows := s.rows[o := s.rows[o].(status := Failed)])
              else s.(jobs := s.jobs[t := Finished])
  {
    var s' := WorkStep(s, t, ok, now, q);
    assert s'.jobs[t := Finished] == s.jobs[t := Finished];
  }

  lemma {:induction false} CreditWitness(credits: seq<Credit>, o: TradeNo) returns (c: Credit)
    requires CreditsOf(credits, o) > 0
    ensures c in credits && c.order == o
  {
    c := credits[|credits| - 1];
    if c.order != o {
      c := CreditWitness(credits[..|credits| - 1], o);
    }
  }

  /** When no callback is in progress, an order is settled exactly once if it became a success in
      this run and not at all otherwise; the only way to miss the credit is a failed quota write. */
  lemma SettledExactlyOnce(states: seq<State>, actions: seq<Action>, q: real, i: nat, o: TradeNo)
    requires Execution(states, actions, q) && i < |states| && Tracked(states[i], o)
    requires forall t :: 0 <= t < |states[i].locks.pcs| ==> !states[i].locks.pcs[t].Held?
    ensures CreditsOf(states[i].credits, o) + LostOf(states[i].lost, o)
         == if states[i].rows[o].status.Success? && o !in states[i].before then 1 else 0
  {
    ExecutionIsSafe(states, actions, q, i);
    assert Balanced(states[i], o);
  }

  /** A settled status is final: no action of any handler changes a tracked row that is not pending. */
  lemma StatusIsAbsorbing(states: seq<State>, actions: seq<Action>, q: real, i: nat, o: TradeNo)
    requires Execution(states, actions, q) && i < |actions| && Tracked(states[i], o)
    requires !states[i].rows[o].status.Pending?
    ensures o in states[i + 1].rows && states[i + 1].rows[o] == states[i].rows[o]
  {
    var s := states[i];
    ExecutionIsSafe(states, actions, q, i);
    assert states[i + 1] == Perform(s, actions[i], q);
    if actions[i].Work? {
      assert JobFresh(s, actions[i].t);
      if s.locks.pcs[actions[i].t].order != o {
        WorkIsLocal(s, actions[i].t, actions[i].ok, actions[i].now, q, o);
      }
    }
  }

  /** The Stripe failure handler changes a row only if, at the moment of the write, it is a pending
      Stripe order, and then it changes the status and nothing else. */
  lemma StripeFailureIsGuarded(states: seq<State>, actions: seq<Action>, q: real, i: nat)
    requires Execution(states, actions, q) && i < |actions| && actions[i].Work?
    requires var job := states[i].jobs[actions[i].t]; job.FailWrite? || job == Begin(StripeAsyncFailed)
    requires states[i + 1].rows != states[i].rows
    ensures var o := states[i].locks.pcs[actions[i].t].order;
      && o in states[i].rows && states[i].rows[o].provider.Stripe? && states[i].rows[o].status.Pending?
      && states[i + 1].rows == states[i].rows[o := states[i].rows[o].(status := Failed)]
      && states[i + 1].credits == states[i].credits
  {
    ExecutionIsSafe(states, actions, q, i);
    assert states[i + 1] == Perform(states[i], actions[i], q);
    assert JobFresh(states[i], actions[i].t);
  }

  lemma PerformKeepsLost(s: State, a: Action, q: real, o: TradeNo)
    requires Allowed(s, a)
    ensures LostOf(Perform(s, a, q).lost, o) >= LostOf(s.lost, o)
  {
    var s' := Perform(s, a, q);
    if s'.lost != s.lost {
      AppendLost(s.lost, s'.lost[|s.lost|], o);
    }
  }

  lemma {:induction false} LostGrows(states: seq<State>, actions: seq<Action>, q: real, i: nat, j: nat, o: TradeNo)
    requires Execution(states, actions, q) && i <= j < |states|
    ensures LostOf(states[i].lost, o) <= LostOf(states[j].lost, o)
  {
    if i < j {
      LostGrows(states, actions, q, i, j - 1, o);
      assert states[j - 1 + 1] == Perform(states[j - 1], actions[j - 1], q);
      PerformKeepsLost(states[j - 1], actions[j - 1], q, o);
    }
  }

  /** The price of crediting after the status write: once the quota write has failed, the row is a
      success without credit and no later callback or repair ever credits it. */
  lemma LostIsNeverCredited(states: seq<State>, actions: seq<Action>, q: real, i: nat, j: nat, o: TradeNo)
    requires Execution(states, actions, q) && i <= j < |states| && Tracked(states[j], o)
    requires LostOf(states[i].lost, o) > 0
    ensures CreditsOf(states[j].credits, o) == 0 && states[j].rows[o].status.Success?
  {
    ExecutionIsSafe(states, actions, q, j);
    assert Balanced(states[j], o);
    LostGrows(states, actions, q, i, j, o);
  }
}
