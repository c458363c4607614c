/** The in-memory rate limiter: per key a short queue of accepted timestamps stands in for the full
    log of accepted requests, and a background sweeper forgets keys that look stale. */
module RateLimiter {

  datatype Key = Key(text: string)

  /** What the callers pass for a key: at most `max` requests in any `duration` seconds. */
  datatype Limit = Limit(max: nat, duration: int)

  // ---------- The implementation's step ----------

  /** The queue of one key, if the store has one. */
  datatype Entry = Absent | Present(queue: seq<int>)

  datatype Verdict = Verdict(accepted: bool, entry: Entry)

  function Decide(e: Entry, l: Limit, now: int): Verdict
    requires e.Present? ==> e.queue != []
  {
    match e
    case Absent => Verdict(true, Present([now]))
    case Present(q) =>
      if |q| < l.max then Verdict(true, Present(q + [now]))
      else if now - q[0] >= l.duration then Verdict(true, Present(q[1..] + [now]))
      else Verdict(false, e)
  }

  /** One visit of the sweeper. */
  function Sweep(e: Entry, expiration: int, now: int): Entry {
    if e.Present? && (e.queue == [] || now - e.queue[|e.queue| - 1] > expiration) then Absent else e
  }

  // ---------- The specification: the full log ----------

  /** How many accepted requests are less than `duration` old. */
  function Recent(log: seq<int>, duration: int, now: int): nat {
    if log == [] then 0
    else Recent(log[..|log| - 1], duration, now) + if now - log[|log| - 1] < duration then 1 else 0
  }

  /** A limit of zero is treated as one: the request that creates the queue is always accepted. */
  function Capacity(l: Limit): nat {
    if l.max == 0 then 1 else l.max
  }

  predicate Admits(log: seq<int>, l: Limit, now: int) {
    Recent(log, l.duration, now) < Capacity(l)
  }

  // ---------- The two agree ----------

  predicate Sorted(log: seq<int>) {
    forall i, j :: 0 <= i < j < |log| ==> log[i] <= log[j]
  }

  predicate NotAfter(log: seq<int>, clock: int) {
    log != [] ==> log[|log| - 1] <= clock
  }

  /** Every one of the first `n` accepted requests is at least `duration` old, now and for ever. */
  predicate Expired(log: seq<int>, n: nat, duration: int, clock: int) {
    forall i :: 0 <= i < n && i < |log| ==> clock - log[i] >= duration
  }

  /** The queue is the end of the log, and whatever the log has before a queue that is not full no
      longer counts. */
  predicate Represents(e: Entry, log: seq<int>, l: Limit, clock: int) {
    && Sorted(log) && NotAfter(log, clock)
    && match e
       case Absent => Expired(log, |log|, l.duration, clock)
       case Present(q) =>
         && 1 <= |q| <= Capacity(l) && |q| <= |log| && q == log[|log| - |q|..]
         && (|q| < Capacity(l) ==> Expired(log, |log| - |q|, l.duration, clock))
  }

  /** In a sorted log the recent requests are the last ones. */
  lemma {:induction false} RecentIsSuffix(log: seq<int>, duration: int, now: int, k: nat)
    requires Sorted(log) && 1 <= k
    ensures Recent(log, duration, now) >= k <==> |log| >= k && now - log[|log| - k] < duration
  {
    if log != [] {
      var init := log[..|log| - 1];
      if now - log[|log| - 1] < duration {
        if k > 1 {
          RecentIsSuffix(init, duration, now, k - 1);
        }
      } else {
        NoneRecent(init, duration, now);
      }
    }
  }

  lemma {:induction false} NoneRecent(log: seq<int>, duration: int, now: int)
    requires Expired(log, |log|, duration, now)
    ensures Recent(log, duration, now) == 0
  {
    if log != [] {
      NoneRecent(log[..|log| - 1], duration, now);
    }
  }

  lemma AppendNow(log: seq<int>, clock: int, now: int, k: nat)
    requires Sorted(log) && NotAfter(log, clock) && clock <= now && k <= |log|
    ensures var log' := log + [now];
      Sorted(log') && NotAfter(log', now) && log'[|log'| - (k + 1)..] == log[|log| - k..] + [now]
  {
    AppendIsSorted(log, clock, now);
    AppendEnd(log, now, |log| - k);
  }

  lemma AppendIsSorted(log: seq<int>, clock: int, now: int)
    requires Sorted(log) && NotAfter(log, clock) && clock <= now
    ensures Sorted(log + [now])
  {
    forall i, j | 0 <= i < j < |log + [now]| ensures (log + [now])[i] <= (log + [now])[j] {
      if j == |log| {
        assert log[i] <= log[|log| - 1];
      }
    }
  }

  lemma AppendEnd(log: seq<int>, now: int, i: nat)
    requires i <= |log|
    ensures (log + [now])[i..] == log[i..] + [now]
  {
  }

  lemma DecisionAgrees(e: Entry, log: seq<int>, l: Limit, clock: int, now: int)
    requires Represents(e, log, l, clock) && clock <= now
    ensures Decide(e, l, now).accepted == Admits(log, l, now)
  {
    RecentIsSuffix(log, l.duration, now, Capacity(l));
    match e
    case Absent => NoneRecent(log, l.duration, now);
    case Present(q) => assert q[0] == log[|log| - |q|];
  }

  lemma ExpiredStays(log: seq<int>, n: nat, duration: int, clock: int, now: int)
    requires Expired(log, n, duration, clock) && clock <= now && n <= |log|
    ensures Expired(log + [now], n, duration, now)
  {
  }

  lemma NewQueueRepresents(log: seq<int>, l: Limit, clock: int, now: int)
    requires Represents(Absent, log, l, clock) && clock <= now
    ensures Represents(Present([now]), log + [now], l, now)
  {
    AppendNow(log, clock, now, 0);
    ExpiredStays(log, |log|, l.duration, clock, now);
  }

  lemma LongerQueueRepresents(q: seq<int>, log: seq<int>, l: Limit, clock: int, now: int)
    requires Represents(Present(q), log, l, clock) && clock <= now && |q| < l.max
    ensures Represents(Present(q + [now]), log + [now], l, now)
  {
    AppendNow(log, clock, now, |q|);
    ExpiredStays(log, |log| - |q|, l.duration, clock, now);
  }

  lemma SlidQueueRepresents(q: seq<int>, log: seq<int>, l: Limit, clock: int, now: int)
    requires Represents(Present(q), log, l, clock) && clock <= now && |q| >= l.max
    ensures Represents(Present(q[1..] + [now]), log + [now], l, now)
  {
    AppendNow(log, clock, now, |q| - 1);
    assert log[|log| - (|q| - 1)..] == q[1..];
  }

  /** One request: the queue decides what the full log decides, and still represents it. */
  lemma RequestAgrees(e: Entry, log: seq<int>, l: Limit, clock: int, now: int)
    requires Represents(e, log, l, clock) && clock <= now
    ensures Decide(e, l, now).accepted == Admits(log, l, now)
    ensures Represents(Decide(e, l, now).entry, if Admits(log, l, now) then log + [now] else log, l, now)
  {
    DecisionAgrees(e, log, l, clock, now);
    if e.Absent? {
      NewQueueRepresents(log, l, clock, now);
    } else if |e.queue| < l.max {
      LongerQueueRepresents(e.queue, log, l, clock, now);
    } else if Admits(log, l, now) {
      SlidQueueRepresents(e.queue, log, l, clock, now);
    } else {
      LaterStillRepresents(e, log, l, clock, now);
    }
  }

  /** One sweep loses nothing that still counts, when it keeps entries long enough. */
  lemma SweepAgrees(e: Entry, log: seq<int>, l: Limit, expiration: int, clock: int, now: int)
    requires Represents(e, log, l, clock) && clock <= now && l.duration <= expiration + 1
    ensures Represents(Sweep(e, expiration, now), log, l, now)
  {
    if e.Present? {
      assert e.queue[|e.queue| - 1] == log[|log| - 1];
    }
  }

  // ---------- Runs ----------

  datatype Event = Request(key: Key, now: int) | SweepAll(now: int)

  predicate Monotone(events: seq<Event>) {
    forall i, j :: 0 <= i < j < |events| ==> events[i].now <= events[j].now
  }

  /** The queue of `key` after the events; requests for other keys do not concern it. */
  function EntryAfter(events: seq<Event>, key: Key, l: Limit, expiration: int): (e: Entry)
    ensures e.Present? ==> e.queue != []
  {
    if events == [] then Absent
    else
      var before := EntryAfter(events[..|events| - 1], key, l, expiration);
      match events[|events| - 1]
      case SweepAll(now) => Sweep(before, expiration, now)
      case Request(k, now) => if k == key then Decide(before, l, now).entry else before
  }

  /** Whether the limiter accepts the request at position `i`. */
  predicate Accepts(events: seq<Event>, i: nat, l: Limit, expiration: int)
    requires i < |events| && events[i].Request?
  {
    Decide(EntryAfter(events[..i], events[i].key, l, expiration), l, events[i].now).accepted
  }

  /** The accepted timestamps of `key` according to the full-log specification. */
  function LogAfter(events: seq<Event>, key: Key, l: Limit): seq<int> {
    if events == [] then []
    else
      var log := LogAfter(events[..|events| - 1], key, l);
      var last := events[|events| - 1];
      if last.Request? && last.key == key && Admits(log, l, last.now) then log + [last.now] else log
  }

  /** The timestamps of `key` that the limiter accepts. */
  function AcceptedAfter(events: seq<Event>, key: Key, l: Limit, expiration: int): seq<int> {
    if events == [] then []
    else
      var init, last := events[..|events| - 1], events[|events| - 1];
      var accepted := AcceptedAfter(init, key, l, expiration);
      if last.Request? && last.key == key && Decide(EntryAfter(init, key, l, expiration), l, last.now).accepted
      then accepted + [last.now] else accepted
  }

  predicate SpecAccepts(events: seq<Event>, i: nat, l: Limit)
    requires i < |events| && events[i].Request?
  {
    Admits(LogAfter(events[..i], events[i].key, l), l, events[i].now)
  }

  predicate KeptLongEnough(l: Limit, expiration: int) {
    l.duration <= expiration + 1
  }

  lemma LastKeepsRepresents(events: seq<Event>, key: Key, l: Limit, expiration: int)
    requires events != [] && KeptLongEnough(l, expiration)
    requires var init := events[..|events| - 1];
      Represents(EntryAfter(init, key, l, expiration), LogAfter(init, key, l), l, events[|events| - 1].now)
    ensures Represents(EntryAfter(events, key, l, expiration), LogAfter(events, key, l), l, events[|events| - 1].now)
  {
    var init, last := events[..|events| - 1], events[|events| - 1];
    var entry, log := EntryAfter(init, key, l, expiration), LogAfter(init, key, l);
    if last.SweepAll? {
      SweepAgrees(entry, log, l, expiration, last.now, last.now);
    } else if last.key == key {
      RequestAgrees(entry, log, l, last.now, last.now);
    }
  }

  lemma {:induction false} RunRepresents(events: seq<Event>, key: Key, l: Limit, expiration: int, clock: int)
    requires Monotone(events) && KeptLongEnough(l, expiration)
    requires events != [] ==> events[|events| - 1].now <= clock
    ensures Represents(EntryAfter(events, key, l, expiration), LogAfter(events, key, l), l, clock)
  {
    if events != [] {
      var init := events[..|events| - 1];
      MonotoneInit(events);
      RunRepresents(init, key, l, expiration, events[|events| - 1].now);
      LastKeepsRepresents(events, key, l, expiration);
      LaterStillRepresents(EntryAfter(events, key, l, expiration), LogAfter(events, key, l), l,
                           events[|events| - 1].now, clock);
    }
  }

  lemma MonotoneInit(events: seq<Event>)
    requires Monotone(events) && events != []
    ensures var init := events[..|events| - 1];
      Monotone(init) && (init != [] ==> init[|init| - 1].now <= events[|events| - 1].now)
  {
  }

  lemma LaterStillRepresents(e: Entry, log: seq<int>, l: Limit, clock: int, later: int)
    requires Represents(e, log, l, clock) && clock <= later
    ensures Represents(e, log, l, later)
  {
  }

  // ---------- Main results ----------

  /** With a clock that never goes back, the limiter decides every request as the full log would,
      whenever the sweeper runs. */
  lemma RefinesFullLog(events: seq<Event>, i: nat, l: Limit, expiration: int)
    requires Monotone(events) && i < |events| && events[i].Request?
    requires KeptLongEnough(l, expiration)
    ensures Accepts(events, i, l, expiration) == SpecAccepts(events, i, l)
  {
    var key, now := events[i].key, events[i].now;
    assert Monotone(events[..i]);
    assert i > 0 ==> events[..i][i - 1] == events[i - 1];
    RunRepresents(events[..i], key, l, expiration, now);
    RequestAgrees(EntryAfter(events[..i], key, l, expiration), LogAfter(events[..i], key, l),
                  l, now, now);
  }

  lemma LogAppend(events: seq<Event>, e: Event, key: Key, l: Limit)
    ensures LogAfter(events + [e], key, l)
         == var log := LogAfter(events, key, l);
            if e.Request? && e.key == key && Admits(log, l, e.now) then log + [e.now] else log
  {
    assert (events + [e])[..|events|] == events;
  }

  lemma EntryAppend(events: seq<Event>, e: Event, key: Key, l: Limit, expiration: int)
    ensures EntryAfter(events + [e], key, l, expiration)
         == var before := EntryAfter(events, key, l, expiration);
            if e.SweepAll? then Sweep(before, expiration, e.now)
            else if e.key == key then Decide(before, l, e.now).entry else before
  {
    assert (events + [e])[..|events|] == events;
  }

  lemma AcceptedAppend(events: seq<Event>, e: Event, key: Key, l: Limit, expiration: int)
    ensures AcceptedAfter(events + [e], key, l, expiration)
         == var accepted := AcceptedAfter(events, key, l, expiration);
            if e.Request? && e.key == key && Decide(EntryAfter(events, key, l, expiration), l, e.now).accepted
            then accepted + [e.now] else accepted
  {
    assert (events + [e])[..|events|] == events;
  }

  /** What the limiter accepts is what the full log accepts. */
  lemma {:induction false} AcceptedIsLog(events: seq<Event>, key: Key, l: Limit, expiration: int)
    requires Monotone(events) && KeptLongEnough(l, expiration)
    ensures AcceptedAfter(events, key, l, expiration) == LogAfter(events, key, l)
  {
    if events != [] {
      var init, last := events[..|events| - 1], events[|events| - 1];
      AcceptedIsLog(init, key, l, expiration);
      if last.Request? && last.key == key {
        RefinesFullLog(events, |events| - 1, l, expiration);
      }
    }
  }

  predicate AllZero(log: seq<int>) {
    forall i :: 0 <= i < |log| ==> log[i] == 0
  }

  lemma {:induction false} AllRecent(log: seq<int>, duration: int, now: int)
    requires AllZero(log) && now < duration
    ensures Recent(log, duration, now) == |log|
  {
    if log != [] {
      AllRecent(log[..|log| - 1], duration, now);
    }
  }

  /** `n` requests for one key in the first second fill its queue. */
  lemma {:induction false} FillQueue(key: Key, n: nat, l: Limit, expiration: int) returns (events: seq<Event>)
    requires 0 < l.duration && 1 <= n <= l.max
    ensures forall i :: 0 <= i < |events| ==> events[i] == Request(key, 0)
    ensures var log := LogAfter(events, key, l);
      |log| == n && AllZero(log) && EntryAfter(events, key, l, expiration) == Present(log)
      && AcceptedAfter(events, key, l, expiration) == log
  {
    events := [];
    if n > 1 {
      events := FillQueue(key, n - 1, l, expiration);
    }
    var log := LogAfter(events, key, l);
    AllRecent(log, l.duration, 0);
    LogAppend(events, Request(key, 0), key, l);
    EntryAppend(events, Request(key, 0), key, l, expiration);
    AcceptedAppend(events, Request(key, 0), key, l, expiration);
    events := events + [Request(key, 0)];
  }

  /** A window that outlives the expiration can be filled, forgotten by the sweeper, and entered again. */
  lemma ShortExpirationFails(key: Key, l: Limit, expiration: nat) returns (events: seq<Event>, i: nat)
    requires l.max >= 1 && !KeptLongEnough(l, expiration)
    ensures Monotone(events) && i < |events| && events[i].Request? && events[i].key == key
    ensures Accepts(events, i, l, expiration) && !SpecAccepts(events, i, l)
    ensures !Spaced(AcceptedAfter(events, key, l, expiration), l)
  {
    var full := FillQueue(key, l.max, l, expiration);
    var late := expiration + 1;
    var swept := full + [SweepAll(late)];
    events, i := swept + [Request(key, late)], |swept|;
    assert events[..i] == swept;
    SweptAndLate(full, key, l, expiration);
  }

  /** A full queue is swept away, and the next request is accepted beside a full log. */
  lemma SweptAndLate(full: seq<Event>, key: Key, l: Limit, expiration: nat)
    requires l.max >= 1 && !KeptLongEnough(l, expiration)
    requires var log := LogAfter(full, key, l);
      && |log| == l.max && AllZero(log) && EntryAfter(full, key, l, expiration) == Present(log)
      && AcceptedAfter(full, key, l, expiration) == log
    ensures var swept, late := full + [SweepAll(expiration + 1)], Request(key, expiration + 1);
      && EntryAfter(swept, key, l, expiration) == Absent && !Admits(LogAfter(swept, key, l), l, expiration + 1)
      && !Spaced(AcceptedAfter(swept + [late], key, l, expiration), l)
  {
    var sweep, late := SweepAll(expiration + 1), Request(key, expiration + 1);
    LogAppend(full, sweep, key, l);
    EntryAppend(full, sweep, key, l, expiration);
    AcceptedAppend(full, sweep, key, l, expiration);
    AllRecent(LogAfter(full, key, l), l.duration, expiration + 1);
    AcceptedAppend(full + [sweep], late, key, l, expiration);
    var accepted := LogAfter(full, key, l) + [expiration + 1];
    assert accepted[0 + Capacity(l)] - accepted[0] == expiration + 1;
  }

  /** `max` consecutive acceptances span at least the duration. */
  predicate Spaced(log: seq<int>, l: Limit) {
    forall i :: 0 <= i && i + Capacity(l) < |log| ==> log[i + Capacity(l)] - log[i] >= l.duration
  }

  ghost predicate AlwaysExact(key: Key, l: Limit, expiration: int) {
    forall events: seq<Event>, i: nat
      | Monotone(events) && i < |events| && events[i].Request? && events[i].key == key ::
      Accepts(events, i, l, expiration) == SpecAccepts(events, i, l)
  }

  /** The exact condition on the configuration: the limiter agrees with the full log in every run if
      and only if the window is at most one second longer than the expiration. */
  lemma ExactIffKeptLongEnough(key: Key, l: Limit, expiration: nat)
    requires l.max >= 1
    ensures AlwaysExact(key, l, expiration) <==> l.duration <= expiration + 1
  {
    if KeptLongEnough(l, expiration) {
      forall events: seq<Event>, i: nat
        | Monotone(events) && i < |events| && events[i].Request? && events[i].key == key
        ensures Accepts(events, i, l, expiration) == SpecAccepts(events, i, l)
      {
        RefinesFullLog(events, i, l, expiration);
      }
    } else {
      var events, i := ShortExpirationFails(key, l, expiration);
    }
  }

  ghost predicate AlwaysSpaced(key: Key, l: Limit, expiration: int) {
    forall events: seq<Event> | Monotone(events) :: Spaced(AcceptedAfter(events, key, l, expiration), l)
  }

  /** In every run the i-th and the (i + max)-th timestamp that the limiter accepts are at least the
      duration apart, if and only if the window is at most one second longer than the expiration. */
  lemma AcceptancesAreSpaced(key: Key, l: Limit, expiration: nat)
    requires l.max >= 1
    ensures AlwaysSpaced(key, l, expiration) <==> l.duration <= expiration + 1
  {
    if KeptLongEnough(l, expiration) {
      forall events: seq<Event> | Monotone(events) ensures Spaced(AcceptedAfter(events, key, l, expiration), l) {
        AcceptedIsLog(events, key, l, expiration);
        LogIsSpaced(events, key, l);
      }
    } else {
      var events, i := ShortExpirationFails(key, l, expiration);
    }
  }

  lemma LogIsSpaced(events: seq<Event>, key: Key, l: Limit)
    requires Monotone(events)
    ensures Spaced(LogAfter(events, key, l), l)
  {
    var log := LogAfter(events, key, l);
    forall i | 0 <= i && i + Capacity(l) < |log| ensures log[i + Capacity(l)] - log[i] >= l.duration {
      LogIsSpacedAt(events, key, l, i);
    }
  }

  lemma {:induction false} LogIsSpacedAt(events: seq<Event>, key: Key, l: Limit, i: nat)
    requires Monotone(events)
    requires i + Capacity(l) < |LogAfter(events, key, l)|
    ensures var log := LogAfter(events, key, l);
      log[i + Capacity(l)] - log[i] >= l.duration
  {
    var init, last := events[..|events| - 1], events[|events| - 1];
    var log := LogAfter(init, key, l);
    LogIsSorted(init, key, l);
    var n := Capacity(l);
    if i + n < |log| {
      LogIsSpacedAt(init, key, l, i);
    } else {
      RecentIsSuffix(log, l.duration, last.now, n);
    }
  }

  lemma {:induction false} LogIsSorted(events: seq<Event>, key: Key, l: Limit)
    requires Monotone(events)
    ensures Sorted(LogAfter(events, key, l))
    ensures if events == [] then LogAfter(events, key, l) == []
            else NotAfter(LogAfter(events, key, l), events[|events| - 1].now)
  {
    if events != [] {
      var init := events[..|events| - 1];
      LogIsSorted(init, key, l);
      assert init != [] ==> init[|init| - 1] == events[|events| - 2];
    }
  }

  /** The queue is the end of the accepted timestamps, which are sorted and not in the future. */
  predicate IsTail(e: Entry, accepted: seq<int>, l: Limit, clock: int) {
    && Sorted(accepted) && NotAfter(accepted, clock)
    && (e.Present? ==>
          1 <= |e.queue| <= Capacity(l) && |e.queue| <= |accepted| && e.queue == accepted[|accepted| - |e.queue|..])
  }

  lemma NewQueueIsTail(accepted: seq<int>, l: Limit, clock: int, now: int)
    requires IsTail(Absent, accepted, l, clock) && clock <= now
    ensures IsTail(Present([now]), accepted + [now], l, now)
  {
    AppendNow(accepted, clock, now, 0);
  }

  lemma LongerQueueIsTail(q: seq<int>, accepted: seq<int>, l: Limit, clock: int, now: int)
    requires IsTail(Present(q), accepted, l, clock) && clock <= now && |q| < l.max
    ensures IsTail(Present(q + [now]), accepted + [now], l, now)
  {
    AppendNow(accepted, clock, now, |q|);
  }

  lemma SlidQueueIsTail(q: seq<int>, accepted: seq<int>, l: Limit, clock: int, now: int)
    requires IsTail(Present(q), accepted, l, clock) && clock <= now
    ensures IsTail(Present(q[1..] + [now]), accepted + [now], l, now)
  {
    AppendNow(accepted, clock, now, |q| - 1);
    assert q[1..] == accepted[|accepted| - (|q| - 1)..];
  }

  lemma TailLater(e: Entry, accepted: seq<int>, l: Limit, clock: int, later: int)
    requires IsTail(e, accepted, l, clock) && clock <= later
    ensures IsTail(e, accepted, l, later) && IsTail(Absent, accepted, l, later)
  {
  }

  lemma RequestKeepsTail(e: Entry, accepted: seq<int>, l: Limit, clock: int, now: int)
    requires IsTail(e, accepted, l, clock) && clock <= now
    ensures var v := Decide(e, l, now);
      IsTail(v.entry, if v.accepted then accepted + [now] else accepted, l, now)
  {
    TailLater(e, accepted, l, clock, now);
    if e.Absent? {
      NewQueueIsTail(accepted, l, clock, now);
    } else if |e.queue| < l.max {
      LongerQueueIsTail(e.queue, accepted, l, clock, now);
    } else {
      SlidQueueIsTail(e.queue, accepted, l, clock, now);
    }
  }

  lemma LastKeepsTail(events: seq<Event>, key: Key, l: Limit, expiration: int)
    requires events != []
    requires var init := events[..|events| - 1];
      IsTail(EntryAfter(init, key, l, expiration), AcceptedAfter(init, key, l, expiration), l, events[|events| - 1].now)
    ensures IsTail(EntryAfter(events, key, l, expiration), AcceptedAfter(events, key, l, expiration), l,
                   events[|events| - 1].now)
  {
    var init, last := events[..|events| - 1], events[|events| - 1];
    var entry, accepted := EntryAfter(init, key, l, expiration), AcceptedAfter(init, key, l, expiration);
    if last.SweepAll? {
      TailLater(entry, accepted, l, last.now, last.now);
    } else if last.key == key {
      RequestKeepsTail(entry, accepted, l, last.now, last.now);
    }
  }

  lemma {:induction false} QueueIsTail(events: seq<Event>, key: Key, l: Limit, expiration: int, clock: int)
    requires Monotone(events) && (events != [] ==> events[|events| - 1].now <= clock)
    ensures IsTail(EntryAfter(events, key, l, expiration), AcceptedAfter(events, key, l, expiration), l, clock)
  {
    if events != [] {
      var init := events[..|events| - 1];
      MonotoneInit(events);
      QueueIsTail(init, key, l, expiration, events[|events| - 1].now);
      LastKeepsTail(events, key, l, expiration);
      TailLater(EntryAfter(events, key, l, expiration), AcceptedAfter(events, key, l, expiration), l,
                events[|events| - 1].now, clock);
    }
  }

  /** In every run, whatever the expiration, the queue is short and sorted and holds the latest
      timestamps that the limiter accepted. */
  lemma QueueIsBounded(events: seq<Event>, key: Key, l: Limit, expiration: int)
    requires Monotone(events)
    ensures var e, accepted := EntryAfter(events, key, l, expiration), AcceptedAfter(events, key, l, expiration);
      && Sorted(accepted)
      && (e.Present? ==> 1 <= |e.queue| <= Capacity(l) && Sorted(e.queue)
                         && |e.queue| <= |accepted| && e.queue == accepted[|accepted| - |e.queue|..])
  {
    QueueIsTail(events, key, l, expiration, if events == [] then 0 else events[|events| - 1].now);
  }

  function OnlyKey(events: seq<Event>, key: Key): seq<Event> {
    if events == [] then []
    else
      var rest, last := OnlyKey(events[..|events| - 1], key), events[|events| - 1];
      if last.Request? && last.key != key then rest else rest + [last]
  }

  /** Requests for one key never affect another: removing them changes neither queue nor log. */
  lemma {:induction false} KeysAreIndependent(events: seq<Event>, key: Key, l: Limit, expiration: int)
    ensures EntryAfter(OnlyKey(events, key), key, l, expiration) == EntryAfter(events, key, l, expiration)
    ensures LogAfter(OnlyKey(events, key), key, l) == LogAfter(events, key, l)
  {
    if events != [] {
      var init, last := events[..|events| - 1], events[|events| - 1];
      KeysAreIndependent(init, key, l, expiration);
      if !(last.Request? && last.key != key) {
        assert OnlyKey(events, key)[..|OnlyKey(events, key)| - 1] == OnlyKey(init, key);
      }
    }
  }

  // ---------- The limiter object ----------

  class InMemoryRateLimiter {
    var store: map<Key, seq<int>>
    const expiration: int

    ghost predicate Valid()
      reads this
    {
      forall k :: k in store ==> store[k] != []
    }

    ghost function EntryOf(key: Key): Entry
      reads this
    {
      if key in store then Present(store[key]) else Absent
    }

    constructor (expirationSeconds: int)
      ensures Valid() && expiration == expirationSeconds && forall k :: EntryOf(k) == Absent
    {
      store, expiration := map[], expirationSeconds;
    }

    /** One request.  Only the requested key's queue changes, as Decide says. */
    method Request(key: Key, maxRequestNum: nat, duration: int, now: int) returns (ok: bool)
      requires Valid()
      modifies this
      ensures Valid()
      ensures ok == Decide(old(EntryOf(key)), Limit(maxRequestNum, duration), now).accepted
      ensures EntryOf(key) == Decide(old(EntryOf(key)), Limit(maxRequestNum, duration), now).entry
      ensures forall k :: k != key ==> EntryOf(k) == old(EntryOf(k))
    {
      if key in store {
        if |store[key]| < maxRequestNum {
          store := store[key := store[key] + [now]];
          return true;
        } else if now - store[key][0] >= duration {
          store := store[key := store[key][1..]];
          store := store[key := store[key] + [now]];
          return true;
        } else {
          return false;
        }
      } else {
        store := store[key := []];
        store := store[key := store[key] + [now]];
      }
      return true;
    }

    /** One round of the sweeper: every key is visited once. */
    method ClearExpiredItems(now: int)
      requires Valid()
      modifies this
      ensures Valid()
      ensures forall k :: EntryOf(k) == Sweep(old(EntryOf(k)), expiration, now)
    {
      var keys := store.Keys;
      while keys != {}
        invariant Valid() && keys <= store.Keys
        invariant forall k ::
          EntryOf(k) == if k in keys then old(EntryOf(k)) else Sweep(old(EntryOf(k)), expiration, now)
      {
        var key :| key in keys;
        keys := keys - {key};
        var queue := store[key];
        var size := |queue|;
        if size == 0 || now - queue[size - 1] > expiration {
          store := store - {key};
        }
      }
    }
  }
}
