/** Polling an asynchronous video task and settling its charge.

    The user was charged `quota` when the task was submitted.  Each poll may re-price a finished task
    by its token count, or refund a failed one.  Every database call may fail on its own. */
module VideoSettlement {
  import opened Numbers

  datatype Status = NotStart | Submitted | Queued | InProgress | Success | Failure | Unlisted(name: string)

  datatype Task = Task(
    status: Status, quota: int, progress: string, startTime: int, finishTime: int, failReason: string)

  /** What the upstream answered. */
  datatype Report = Report(status: Status, progress: string, url: string, reason: string, totalTokens: int)

  /** What the price tables say about the task's model and the user's group. */
  datatype Pricing = Pricing(
    modelKnown: bool, hasRatio: bool, modelRatio: real, groupKnown: bool, groupRatio: real,
    hasUserGroupRatio: bool, userGroupRatio: real)

  /** Whether each database call succeeds: the extra charge or partial refund of a re-priced task,
      the write of the task row, and the full refund of a failed task. */
  datatype Database = Database(adjusts: bool, saves: bool, refunds: bool)

  datatype Poll = Poll(report: Report, pricing: Pricing, db: Database, now: int)

  // ---------- The rules of one poll ----------

  /** An empty status counts as a failure. */
  function Effective(r: Report): Report {
    if r.status == Unlisted("") then Report(Failure, "", "", "upstream returned empty status", 0) else r
  }

  /** The price by tokens, when the task qualifies for it. */
  predicate Reprices(r: Report, p: Pricing) {
    r.totalTokens > 0 && p.modelKnown && p.hasRatio && p.modelRatio > 0.0 && p.groupKnown
  }

  function ActualQuota(r: Report, p: Pricing): int {
    var ratio := if p.hasUserGroupRatio then p.userGroupRatio else p.groupRatio;
    Trunc(r.totalTokens as real * p.modelRatio * ratio)
  }

  /** The re-pricing changes the charge and the database lets it. */
  predicate Adjusts(t: Task, poll: Poll) {
    var r := Effective(poll.report);
    && r.status.Success? && Reprices(r, poll.pricing) && ActualQuota(r, poll.pricing) != t.quota && poll.db.adjusts
  }

  predicate IsData(url: string) {
    |url| > 5 && url[..5] == "data:"
  }

  /** The task as the poll wants to store it; None-like statuses leave it alone. */
  function NextTask(t: Task, poll: Poll): Task {
    var r := Effective(poll.report);
    var t1 := t.(status := r.status);
    var t2 :=
      match r.status
      case Submitted => t1.(progress := "10%")
      case Queued => t1.(progress := "20%")
      case InProgress => t1.(progress := "30%", startTime := if t.startTime == 0 then poll.now else t.startTime)
      case Success =>
        t1.(progress := "100%", finishTime := if t.finishTime == 0 then poll.now else t.finishTime,
            failReason := if IsData(r.url) then t.failReason else r.url,
            quota := if Adjusts(t, poll) then ActualQuota(r, poll.pricing) else t.quota)
      case Failure =>
        t1.(progress := "100%", finishTime := if t.finishTime == 0 then poll.now else t.finishTime,
            failReason := r.reason)
      case _ => t;
    if !Listed(r.status) || r.status.Failure? || r.progress == "" then t2 else t2.(progress := r.progress)
  }

  predicate Listed(s: Status) {
    s.Submitted? || s.Queued? || s.InProgress? || s.Success? || s.Failure?
  }

  /** The task row and the user's balance. */
  datatype Account = Account(row: Task, balance: int)

  /** A failed task is refunded once: when it was not a failure before and its row could be saved. */
  predicate Refunds(t: Task, poll: Poll) {
    Effective(poll.report).status.Failure? && t.quota != 0 && !t.status.Failure? && poll.db.saves
  }

  function AfterPoll(a: Account, poll: Poll): Account {
    var t := a.row;
    var r := Effective(poll.report);
    if !Listed(r.status) then a
    else
      Account(
        if poll.db.saves then NextTask(t, poll) else t,
        a.balance
          - (if Adjusts(t, poll) then ActualQuota(r, poll.pricing) - t.quota else 0)
          + (if Refunds(t, poll) && poll.db.refunds && t.quota > 0 then t.quota else 0))
  }

  // ---------- Conservation ----------

  /** What the task still holds of the user's money. */
  function Held(t: Task): int {
    if t.status.Failure? then 0 else t.quota
  }

  function Wealth(a: Account): int {
    a.balance + Held(a.row)
  }

  /** The polls that create or destroy money: a failed task that comes back to life, an adjustment
      whose new charge is not saved, and a refund that the database (or a negative amount) refuses. */
  predicate Leaks(a: Account, poll: Poll) {
    var st := Effective(poll.report).status;
    if st.Failure? then Refunds(a.row, poll) && !(poll.db.refunds && a.row.quota > 0)
    else if !Listed(st) then false
    else if poll.db.saves then a.row.status.Failure? && a.row.quota != 0
    else Adjusts(a.row, poll)
  }

  /** A poll conserves balance plus held charge if and only if it is not one of those. */
  lemma ConservedIffNoLeak(a: Account, poll: Poll)
    ensures Wealth(AfterPoll(a, poll)) == Wealth(a) <==> !Leaks(a, poll)
  {
  }

  // ---------- The three failures, each at an input ----------

  /** A report of this status that carries no tokens. */
  function Plain(status: Status, db: Database): Poll {
    Poll(Report(status, "", "", "", 0), Pricing(false, false, 0.0, false, 0.0, false, 0.0), db, 1)
  }

  /** The refund of a failed task is refused: the row is a failure, so that it is never tried again. */
  lemma RefusedRefundIsLost(a: Account)
    requires a.row.quota > 0 && !a.row.status.Failure?
    ensures var refused := Plain(Failure, Database(true, true, false));
      var again := Plain(Failure, Database(true, true, true));
      && Leaks(a, refused) && Wealth(AfterPoll(a, refused)) == Wealth(a) - a.row.quota
      && AfterPoll(AfterPoll(a, refused), again).balance == a.balance
  {
  }

  /** A failed task was refunded and is reported finished after all: its charge is not taken again. */
  lemma RevivedTaskIsFree(a: Account)
    requires a.row.quota > 0 && !a.row.status.Failure?
    ensures var fails := Plain(Failure, Database(true, true, true));
      var revives := Plain(Success, Database(true, true, true));
      var failed := AfterPoll(a, fails);
      var revived := AfterPoll(failed, revives);
      && Leaks(failed, revives) && revived.row.status.Success? && revived.row.quota == a.row.quota
      && revived.balance == a.balance + a.row.quota
  {
  }

  /** The re-priced charge is taken but the row is not saved: the next poll takes it once more. */
  lemma UnsavedChargeIsTakenTwice(a: Account, poll: Poll)
    requires Adjusts(a.row, poll) && !poll.db.saves
    ensures var again := poll.(db := Database(true, true, true));
      var delta := ActualQuota(Effective(poll.report), poll.pricing) - a.row.quota;
      && Leaks(a, poll) && AfterPoll(AfterPoll(a, poll), again).balance == a.balance - delta - delta
      && AfterPoll(AfterPoll(a, poll), again).row.quota == a.row.quota + delta
  {
  }

  // ---------- Runs ----------

  function AfterPolls(a: Account, polls: seq<Poll>): Account {
    if polls == [] then a else AfterPoll(AfterPolls(a, polls[..|polls| - 1]), polls[|polls| - 1])
  }

  predicate NoLeaks(a: Account, polls: seq<Poll>) {
    forall i :: 0 <= i < |polls| ==> !Leaks(AfterPolls(a, polls[..i]), polls[i])
  }

  lemma {:induction false} RunConserves(a: Account, polls: seq<Poll>)
    requires NoLeaks(a, polls)
    ensures Wealth(AfterPolls(a, polls)) == Wealth(a)
  {
    if polls != [] {
      var init := polls[..|polls| - 1];
      assert forall i :: 0 <= i < |init| ==> init[..i] == polls[..i];
      RunConserves(a, init);
      ConservedIffNoLeak(AfterPolls(a, init), polls[|polls| - 1]);
    }
  }

  /** A user with `funds` is charged `quota` at submission. */
  function Submit(funds: int, quota: int): Account {
    Account(Task(NotStart, quota, "0%", 0, 0, ""), funds - quota)
  }

  /** Over any run without leaks the user pays nothing for a task that ended as a failure and
      exactly the charge on the row otherwise. */
  lemma NetDebit(funds: int, quota: int, polls: seq<Poll>)
    requires NoLeaks(Submit(funds, quota), polls)
    ensures var a := AfterPolls(Submit(funds, quota), polls);
      funds - a.balance == if a.row.status.Failure? then 0 else a.row.quota
  {
    RunConserves(Submit(funds, quota), polls);
  }

  /** The poll reports a finished task that qualifies for `price`: tokens times model ratio times group
      ratio, the user's own group ratio if there is one. */
  predicate IsPrice(r: Report, p: Pricing, price: real) {
    && r.status.Success? && r.totalTokens > 0 && p.modelKnown && p.hasRatio && p.modelRatio > 0.0 && p.groupKnown
    && price == r.totalTokens as real * p.modelRatio * (if p.hasUserGroupRatio then p.userGroupRatio else p.groupRatio)
  }

  /** It is charged, on its row and in the user's balance, the integer part of that. */
  lemma RepricedRow(a: Account, poll: Poll, price: real)
    requires IsPrice(poll.report, poll.pricing, price) && poll.db.saves && poll.db.adjusts
    ensures var a' := AfterPoll(a, poll);
      && a'.row.status.Success? && IsIntegerPart(price, a'.row.quota)
      && a'.balance == a.balance - (a'.row.quota - a.row.quota)
  {
  }

  /** When the last poll re-prices a finished task, the net debit of the whole run is the price by
      tokens, whatever was charged at submission and however often the task was polled. */
  lemma RepricedDebit(funds: int, quota: int, polls: seq<Poll>, price: real)
    requires NoLeaks(Submit(funds, quota), polls) && polls != []
    requires var last := polls[|polls| - 1];
      IsPrice(last.report, last.pricing, price) && last.db.saves && last.db.adjusts
    ensures IsIntegerPart(price, funds - AfterPolls(Submit(funds, quota), polls).balance)
  {
    NetDebit(funds, quota, polls);
    RepricedRow(AfterPolls(Submit(funds, quota), polls[..|polls| - 1]), polls[|polls| - 1], price);
  }

  /** A finished task without tokens, model, ratio or group keeps the charge it was submitted with. */
  lemma UnpricedIsFree(a: Account, poll: Poll)
    requires poll.report.status.Success?
    requires var p := poll.pricing;
      poll.report.totalTokens <= 0 || !p.modelKnown || !p.hasRatio || p.modelRatio <= 0.0 || !p.groupKnown
    ensures AfterPoll(a, poll).balance == a.balance && AfterPoll(a, poll).row.quota == a.row.quota
  {
  }

  /** The first report of failure, or an empty status, refunds the charge. */
  lemma FirstFailureRefunds(a: Account, poll: Poll)
    requires poll.report.status == Failure || poll.report.status == Unlisted("")
    requires !a.row.status.Failure? && a.row.quota > 0 && poll.db.saves && poll.db.refunds
    ensures AfterPoll(a, poll).balance == a.balance + a.row.quota && AfterPoll(a, poll).row.status.Failure?
  {
  }

  /** While a task is under way, or when the status is unknown, no money moves. */
  lemma UnderWayIsFree(a: Account, poll: Poll)
    requires poll.report.status != Failure && poll.report.status != Success && poll.report.status != Unlisted("")
    ensures AfterPoll(a, poll).balance == a.balance && AfterPoll(a, poll).row.quota == a.row.quota
    ensures poll.report.status.NotStart? || poll.report.status.Unlisted? ==> AfterPoll(a, poll) == a
  {
  }

  /** What a poll leaves on the row. */
  lemma SavedRow(a: Account, poll: Poll)
    requires var st := poll.report.status;
      st.Submitted? || st.Queued? || st.InProgress? || st.Success? || st.Failure?
    ensures var r, before, after := poll.report, a.row, AfterPoll(a, poll).row;
      if !poll.db.saves then after == before
      else
        && after.status == r.status
        && after.progress == (if r.status.Failure? then "100%"
                             else if r.progress != "" then r.progress
                             else if r.status.Submitted? then "10%"
                             else if r.status.Queued? then "20%"
                             else if r.status.InProgress? then "30%" else "100%")
        && after.startTime == (if r.status.InProgress? && before.startTime == 0 then poll.now else before.startTime)
        && after.finishTime == (if (r.status.Success? || r.status.Failure?) && before.finishTime == 0 then poll.now
                               else before.finishTime)
        && after.failReason == (if r.status.Failure? then r.reason
                               else if r.status.Success? && !("data:" < r.url) then r.url
                               else before.failReason)
  {
  }

  /** Times are set once: over any polls a start or finish time that is there stays. */
  lemma {:induction false} TimesAreSetOnce(a: Account, polls: seq<Poll>)
    ensures a.row.startTime != 0 ==> AfterPolls(a, polls).row.startTime == a.row.startTime
    ensures a.row.finishTime != 0 ==> AfterPolls(a, polls).row.finishTime == a.row.finishTime
  {
    if polls != [] {
      TimesAreSetOnce(a, polls[..|polls| - 1]);
    }
  }

  /** Polling a settled task again, with the same tokens and prices, charges nothing and keeps the
      charge on the row, whether or not the database obeys. */
  lemma RepollIsFree(a: Account, poll: Poll, again: Poll)
    requires poll.report.status.Success? && Reprices(poll.report, poll.pricing)
    requires poll.db.saves && poll.db.adjusts
    requires again.report == poll.report && again.pricing == poll.pricing
    ensures var settled := AfterPoll(a, poll);
      AfterPoll(settled, again).balance == settled.balance && AfterPoll(settled, again).row.quota == settled.row.quota
  {
  }

  /** Once the row is a failure, reports of failure never pay again. */
  lemma RefundedOnce(a: Account, poll: Poll)
    requires a.row.status.Failure? && Effective(poll.report).status.Failure?
    ensures AfterPoll(a, poll).balance == a.balance && AfterPoll(a, poll).row.status.Failure?
  {
  }

  /** So a failed task that is only reported failed again costs and pays nothing, however often. */
  lemma {:induction false} FailureIsFinal(a: Account, polls: seq<Poll>)
    requires a.row.status.Failure?
    requires forall i :: 0 <= i < |polls| ==> Effective(polls[i].report).status.Failure?
    ensures AfterPolls(a, polls).balance == a.balance && AfterPolls(a, polls).row.status.Failure?
  {
    if polls != [] {
      FailureIsFinal(a, polls[..|polls| - 1]);
      RefundedOnce(AfterPolls(a, polls[..|polls| - 1]), polls[|polls| - 1]);
    }
  }

  // ---------- The poller ----------

  /** updateVideoSingleTask from the upstream's answer on: the task row, the user's balance. */
  class VideoPoller {
    var row: Task
    var balance: int

    constructor (t: Task, userBalance: int)
      ensures row == t && balance == userBalance
    {
      row, balance := t, userBalance;
    }

    /** `unknown` is the error return for a status that is not listed. */
    method UpdateVideoSingleTask(poll: Poll) returns (unknown: bool)
      modifies this
      ensures Account(row, balance) == AfterPoll(old(Account(row, balance)), poll)
      ensures unknown <==> !Listed(Effective(poll.report).status)
      ensures forall price :: IsPrice(poll.report, poll.pricing, price) && poll.db.saves && poll.db.adjusts ==>
        IsIntegerPart(price, row.quota) && balance == old(balance) - (row.quota - old(row.quota))
    {
      var task := row;
      var taskResult := poll.report;
      if taskResult.status == Unlisted("") {
        taskResult := Report(Failure, "", "", "upstream returned empty status", 0);
      }
      var shouldRefund := false;
      var quota := task.quota;
      var preStatus := task.status;
      task := task.(status := taskResult.status);
      match taskResult.status {
      case Submitted => task := task.(progress := "10%");
      case Queued => task := task.(progress := "20%");
      case InProgress =>
        task := task.(progress := "30%");
        if task.startTime == 0 {
          task := task.(startTime := poll.now);
        }
      case Success =>
        task := task.(progress := "100%");
        if task.finishTime == 0 {
          task := task.(finishTime := poll.now);
        }
        if !IsData(taskResult.url) {
          task := task.(failReason := taskResult.url);
        }
        if Reprices(taskResult, poll.pricing) {
          var actualQuota := ActualQuota(taskResult, poll.pricing);
          var quotaDelta := actualQuota - task.quota;
          if quotaDelta > 0 {
            if poll.db.adjusts {
              balance := balance - quotaDelta;
              task := task.(quota := actualQuota);
            }
          } else if quotaDelta < 0 {
            if poll.db.adjusts {
              balance := balance + -quotaDelta;
              task := task.(quota := actualQuota);
            }
          }
        }
      case Failure =>
        task := task.(progress := "100%");
        if task.finishTime == 0 {
          task := task.(finishTime := poll.now);
        }
        task := task.(failReason := taskResult.reason);
        taskResult := taskResult.(progress := "100%");
        if quota != 0 {
          if !preStatus.Failure? {
            shouldRefund := true;
          }
        }
      case _ => return true;
      }
      if taskResult.progress != "" {
        task := task.(progress := taskResult.progress);
      }
      if poll.db.saves {
        row := task;
      } else {
        shouldRefund := false;
      }
      if shouldRefund {
        // The quota service refuses negative amounts.
        if quota >= 0 && poll.db.refunds {
          balance := balance + quota;
        }
      }
      return false;
    }
  }
}
