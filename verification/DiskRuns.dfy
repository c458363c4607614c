/** Particular runs of the cache counters: runs that reach the bound of UsageIsBounded, and runs in which
    no update is interrupted by another. */
module DiskRuns {
  import opened DiskAccounting

  // ---------- The bound is reached ----------

  /** The limits of a run: the configured size, and what UsageIsBounded assumes of creations. */
  datatype Limits = Limits(max: int, n: nat, size: nat)

  /** Some run within the limits leads to s. */
  ghost predicate Reachable(s0: State, l: Limits, s: State) {
    exists events :: Run(s0, events, l.max) && Within(s0, events, l.n, l.size) && After(s0, events) == s
  }

  lemma ThenRuns(s0: State, events: Events, l: Limits, e: Event)
    requires Run(s0, events, l.max) && Within(s0, events, l.n, l.size) && Allowed(After(s0, events), e, l.max)
    requires e.action.Check? ==> e.action.size <= l.size
    requires Total(Step(After(s0, events), e).pcs, Pending) <= l.n
    ensures Run(s0, Then(events, e), l.max) && Within(s0, Then(events, e), l.n, l.size)
    ensures After(s0, Then(events, e)) == Step(After(s0, events), e)
  {
  }

  lemma Go(s0: State, l: Limits, s: State, e: Event)
    requires Reachable(s0, l, s) && Allowed(s, e, l.max)
    requires e.action.Check? ==> e.action.size <= l.size
    requires Total(Step(s, e).pcs, Pending) <= l.n
    ensures Reachable(s0, l, Step(s, e))
  {
    var events :| Run(s0, events, l.max) && Within(s0, events, l.n, l.size) && After(s0, events) == s;
    ThenRuns(s0, events, l, e);
  }

  /** A step that only moves a goroutine from one program counter to another. */
  lemma PendingMoves(pcs: seq<Pc>, t: nat, pc: Pc)
    requires t < |pcs|
    ensures Total(pcs[t := pc], Pending) == Total(pcs, Pending) - Pending(pcs[t]) + Pending(pc)
  {
    TotalUpdate(pcs, t, pc, Pending);
  }

  /** One step of goroutine t, to s'. */
  predicate Moves(s: State, t: nat, a: Action, max: int, s': State) {
    Allowed(s, Event(t, a), max) && Step(s, Event(t, a)) == s'
  }

  function At(s: State, t: nat, pc: Pc): State
    requires t < |s.pcs|
  {
    s.(pcs := s.pcs[t := pc])
  }

  function FileAdded(s: State, t: nat, c: nat): State
    requires t < |s.pcs|
  {
    At(s, t, FileOpen(c)).(files := s.files + 1, usage := s.usage + c)
  }

  lemma WriteMoves(s: State, t: nat, c: nat, max: int)
    requires t < |s.pcs| && s.pcs[t] == Checked(c)
    ensures Moves(s, t, Write(c), max, At(s, t, CountFile(c)))
  {
  }

  lemma CountFileMoves(s: State, t: nat, c: nat, max: int)
    requires t < |s.pcs|
    ensures Moves(At(s, t, CountFile(c)), t, Continue, max, At(s, t, CountBytes(c)).(files := s.files + 1))
  {
  }

  lemma CountBytesMoves(s: State, t: nat, c: nat, max: int)
    requires t < |s.pcs|
    ensures Moves(At(s, t, CountBytes(c)), t, Continue, max, At(s, t, FileOpen(c)).(usage := s.usage + c))
  {
  }

  lemma Move(s0: State, l: Limits, s: State, t: nat, a: Action, s': State)
    requires Reachable(s0, l, s) && Moves(s, t, a, l.max, s') && !a.Check?
    requires t < |s.pcs| == |s'.pcs| && Pending(s'.pcs[t]) <= Pending(s.pcs[t])
    ensures Reachable(s0, l, s')
    ensures Total(s'.pcs, Pending) == Total(s.pcs, Pending) - Pending(s.pcs[t]) + Pending(s'.pcs[t])
  {
    PendingMoves(s.pcs, t, s'.pcs[t]);
    assert s'.pcs == s.pcs[t := s'.pcs[t]];
    Go(s0, l, s, Event(t, a));
  }

  /** A goroutine finds room. */
  lemma CheckPasses(s0: State, l: Limits, s: State, t: nat, c: nat)
    requires Reachable(s0, l, s) && c <= l.size
    requires t < |s.pcs| && s.pcs[t].Idle? && s.usage + c <= l.max && Total(s.pcs, Pending) < l.n
    ensures Reachable(s0, l, At(s, t, Checked(c)))
    ensures Total(At(s, t, Checked(c)).pcs, Pending) == Total(s.pcs, Pending) + 1
  {
    PendingMoves(s.pcs, t, Checked(c));
    assert Step(s, Event(t, Check(c))) == At(s, t, Checked(c));
    Go(s0, l, s, Event(t, Check(c)));
  }

  lemma WritePasses(s0: State, l: Limits, s: State, t: nat, c: nat)
    requires Reachable(s0, l, s) && t < |s.pcs| && s.pcs[t] == Checked(c)
    ensures Reachable(s0, l, At(s, t, CountBytes(c)).(files := s.files + 1))
    ensures Total(s.pcs[t := CountBytes(c)], Pending) == Total(s.pcs, Pending)
  {
    WriteMoves(s, t, c, l.max);
    Move(s0, l, s, t, Write(c), At(s, t, CountFile(c)));
    CountFileMoves(s, t, c, l.max);
    Move(s0, l, At(s, t, CountFile(c)), t, Continue, At(s, t, CountBytes(c)).(files := s.files + 1));
  }

  /** A goroutine that found room writes and counts. */
  lemma CountOnePasses(s0: State, l: Limits, s: State, t: nat, c: nat)
    requires Reachable(s0, l, s) && t < |s.pcs| && s.pcs[t] == Checked(c)
    ensures Reachable(s0, l, FileAdded(s, t, c))
    ensures Total(FileAdded(s, t, c).pcs, Pending) == Total(s.pcs, Pending) - 1
  {
    WritePasses(s0, l, s, t, c);
    var counted := s.(files := s.files + 1);
    CountBytesMoves(counted, t, c, l.max);
    Move(s0, l, At(counted, t, CountBytes(c)), t, Continue, FileAdded(s, t, c));
  }

  /** The first k goroutines are at pc, the others where they were. */
  function Overlay(pcs: seq<Pc>, k: nat, pc: Pc): (r: seq<Pc>)
    ensures |r| == |pcs|
  {
    seq(|pcs|, i requires 0 <= i < |pcs| => if i < k then pc else pcs[i])
  }

  lemma OverlayNext(pcs: seq<Pc>, k: nat, pc: Pc)
    requires k < |pcs|
    ensures Overlay(pcs, k, pc)[k] == pcs[k] && Overlay(pcs, k, pc)[k := pc] == Overlay(pcs, k + 1, pc)
  {
  }

  lemma OverlayNone(pcs: seq<Pc>, pc: Pc)
    ensures Overlay(pcs, 0, pc) == pcs
  {
  }

  /** k goroutines find room, one after the other, before any of them counts. */
  lemma {:induction false} ChecksPass(s0: State, l: Limits, s: State, k: nat, c: nat)
    requires Reachable(s0, l, s) && c <= l.size
    requires k <= |s.pcs| && s.usage + c <= l.max && Total(s.pcs, Pending) + k <= l.n
    requires forall i :: 0 <= i < k ==> s.pcs[i].Idle?
    ensures Reachable(s0, l, s.(pcs := Overlay(s.pcs, k, Checked(c))))
    ensures Total(Overlay(s.pcs, k, Checked(c)), Pending) == Total(s.pcs, Pending) + k
  {
    OverlayNone(s.pcs, Checked(c));
    if k > 0 {
      ChecksPass(s0, l, s, k - 1, c);
      OverlayNext(s.pcs, k - 1, Checked(c));
      CheckPasses(s0, l, s.(pcs := Overlay(s.pcs, k - 1, Checked(c))), k - 1, c);
    }
  }

  function Times(k: nat, c: nat): nat {
    k * c
  }

  lemma TimesNext(k: nat, c: nat)
    ensures Times(k, c) + c == Times(k + 1, c) && Times(0, c) == 0
  {
  }

  function Counted(s: State, k: nat, c: nat): State {
    s.(files := s.files + k, usage := s.usage + Times(k, c), pcs := Overlay(s.pcs, k, FileOpen(c)))
  }

  lemma CountedNone(s: State, c: nat)
    ensures Counted(s, 0, c) == s
  {
    OverlayNone(s.pcs, FileOpen(c));
    TimesNext(0, c);
  }

  lemma CountedNext(s: State, k: nat, c: nat)
    requires k < |s.pcs|
    ensures var now := Counted(s, k, c);
      && now.pcs[k] == s.pcs[k]
      && Counted(s, k + 1, c) == FileAdded(now, k, c)
  {
    OverlayNext(s.pcs, k, FileOpen(c));
    TimesNext(k, c);
  }

  /** Then k of them write and count. */
  lemma {:induction false} CountsPass(s0: State, l: Limits, s: State, k: nat, c: nat)
    requires Reachable(s0, l, s)
    requires k <= |s.pcs| && forall i :: 0 <= i < k ==> s.pcs[i] == Checked(c)
    ensures Reachable(s0, l, Counted(s, k, c))
  {
    if k == 0 {
      CountedNone(s, c);
    } else {
      CountsPass(s0, l, s, k - 1, c);
      CountedNext(s, k - 1, c);
      CountOnePasses(s0, l, Counted(s, k - 1, c), k - 1, c);
    }
  }

  /** n creations that all find room before any of them counts add n * c to the usage. */
  lemma Rush(s0: State, l: Limits, s: State, c: nat) returns (last: State)
    requires Reachable(s0, l, s) && c <= l.size
    requires l.n <= |s.pcs| && s.usage + c <= l.max && Total(s.pcs, Pending) == 0
    requires forall i :: 0 <= i < l.n ==> s.pcs[i].Idle?
    ensures Reachable(s0, l, last) && last.usage == s.usage + Times(l.n, c)
  {
    ChecksPass(s0, l, s, l.n, c);
    var s1 := s.(pcs := Overlay(s.pcs, l.n, Checked(c)));
    CountsPass(s0, l, s1, l.n, c);
    last := Counted(s1, l.n, c);
  }

  lemma AddedOver(s: State, t: nat, pc: Pc, c: nat)
    requires t < |s.pcs|
    ensures FileAdded(At(s, t, pc), t, c) == FileAdded(s, t, c)
  {
    assert s.pcs[t := pc][t := FileOpen(c)] == s.pcs[t := FileOpen(c)];
  }

  /** One goroutine opens a file. */
  lemma OpenOne(s0: State, l: Limits, s: State, t: nat, c: nat)
    requires Reachable(s0, l, s) && c <= l.size && l.n >= 1
    requires t < |s.pcs| && s.pcs[t].Idle? && s.usage + c <= l.max && Total(s.pcs, Pending) == 0
    ensures Reachable(s0, l, FileAdded(s, t, c)) && Total(FileAdded(s, t, c).pcs, Pending) == 0
  {
    CheckPasses(s0, l, s, t, c);
    CountOnePasses(s0, l, At(s, t, Checked(c)), t, c);
    AddedOver(s, t, Checked(c), c);
  }

  /** Goroutines from t on open files of together `amount` bytes. */
  lemma {:induction false} Fill(s0: State, l: Limits, s: State, t: nat, amount: nat)
    returns (last: State)
    requires Reachable(s0, l, s) && l.size >= 1 && l.n >= 1
    requires s.usage + amount <= l.max && t + amount <= |s.pcs| && Total(s.pcs, Pending) == 0
    requires forall i :: 0 <= i < |s.pcs| ==> i >= t ==> s.pcs[i].Idle?
    ensures Reachable(s0, l, last) && last.usage == s.usage + amount && Total(last.pcs, Pending) == 0
    ensures |last.pcs| == |s.pcs| && forall i :: 0 <= i < t ==> last.pcs[i] == s.pcs[i]
    decreases amount
  {
    last := s;
    if amount > 0 {
      var c := if amount < l.size then amount else l.size;
      OpenOne(s0, l, s, t, c);
      last := FileAdded(s, t, c);
      last := Fill(s0, l, last, t + 1, amount - c);
    }
  }

  lemma CleanStrayMoves(s: State, t: nat, stray: nat, max: int)
    requires t < |s.pcs| && s.pcs[t].Idle? && s.strays == multiset{stray}
    ensures Moves(s, t, CleanStray(stray), max, At(s, t, TakeFile(stray, false)).(strays := multiset{}))
  {
  }

  lemma DipFilesMoves(s: State, t: nat, stray: nat, max: int)
    requires t < |s.pcs| && s.files == 0
    ensures Moves(At(s, t, TakeFile(stray, false)), t, Continue, max, At(s, t, ZeroFiles(stray, false)).(files := -1))
    ensures Moves(At(s, t, ZeroFiles(stray, false)).(files := -1), t, Continue, max, At(s, t, TakeBytes(stray, false)))
  {
  }

  lemma DipBytesMoves(s: State, t: nat, stray: nat, max: int)
    requires t < |s.pcs| && s.usage == 0 && stray > 0
    ensures Moves(At(s, t, TakeBytes(stray, false)), t, Continue, max, At(s, t, ZeroBytes).(usage := 0 - stray))
  {
  }

  /** One goroutine removes a stray file and takes it off the number of files. */
  lemma DipFiles(s0: State, l: Limits, t: nat, stray: nat)
    requires Initial(s0) && t < |s0.pcs| && s0.strays == multiset{stray} && stray > 0
    ensures Reachable(s0, l, At(s0, t, TakeBytes(stray, false)).(strays := multiset{}))
    ensures Total(At(s0, t, TakeBytes(stray, false)).pcs, Pending) == 0
  {
    StartReached(s0, l);
    CleanStrayMoves(s0, t, stray, l.max);
    var swept := s0.(strays := multiset{});
    Move(s0, l, s0, t, CleanStray(stray), At(swept, t, TakeFile(stray, false)));
    DipFilesMoves(swept, t, stray, l.max);
    Move(s0, l, At(swept, t, TakeFile(stray, false)), t, Continue, At(swept, t, ZeroFiles(stray, false)).(files := -1));
    Move(s0, l, At(swept, t, ZeroFiles(stray, false)).(files := -1), t, Continue,
         At(swept, t, TakeBytes(stray, false)));
  }

  /** It has yet to store 0 in the usage it made negative. */
  lemma Dip(s0: State, l: Limits, t: nat, stray: nat) returns (s: State)
    requires Initial(s0) && t < |s0.pcs| && s0.strays == multiset{stray} && stray > 0
    ensures s == At(s0, t, ZeroBytes).(usage := 0 - stray, strays := multiset{})
    ensures Reachable(s0, l, s) && Total(s.pcs, Pending) == 0
  {
    DipFiles(s0, l, t, stray);
    var swept := s0.(strays := multiset{});
    DipBytesMoves(swept, t, stray, l.max);
    s := At(swept, t, ZeroBytes).(usage := 0 - stray);
    Move(s0, l, At(swept, t, TakeBytes(stray, false)), t, Continue, s);
  }

  /** Creations as large as the configured size, or larger ones while a cleanup has made the usage
      negative, or smaller ones when other files leave room for just one of them: in each case n of
      them that check before any counts reach the bound. */
  lemma BoundIsReached(l: Limits)
    requires l.n >= 1 && l.size >= 1 && l.max >= 0
    ensures exists s0, s :: Initial(s0) && Reachable(s0, l, s) && s.usage == Bound(l.max, l.n, l.size)
  {
    assert Times(l.n, l.size) == (l.n - 1) * l.size + l.size;
    if l.size <= l.max {
      var s0 := Start(l.n + l.max - l.size, multiset{});
      StartReached(s0, l);
      var s := Fill(s0, l, s0, l.n, l.max - l.size);
      s := Rush(s0, l, s, l.size);
    } else {
      var s0 := Start(l.n + 1, multiset{l.size});
      var s := RushBelowZero(s0, l);
    }
  }

  lemma StartReached(s0: State, l: Limits)
    requires Initial(s0)
    ensures Reachable(s0, l, s0) && Total(s0.pcs, Pending) == 0
  {
    TotalOfIdle(|s0.pcs|, Pending);
    assert Run(s0, Nothing, l.max) && Within(s0, Nothing, l.n, l.size);
  }

  lemma ZeroBytesMoves(s: State, t: nat, max: int)
    requires t < |s.pcs| && s.pcs[t].ZeroBytes?
    ensures Moves(s, t, Continue, max, At(s, t, Done).(usage := 0))
  {
  }

  lemma CheckBelowZero(s0: State, l: Limits) returns (s: State)
    requires s0 == Start(l.n + 1, multiset{l.size}) && l.size >= 1 && l.max >= 0
    ensures Reachable(s0, l, s) && |s.pcs| == l.n + 1 && s.pcs[l.n].ZeroBytes?
    ensures forall i :: 0 <= i < l.n ==> s.pcs[i] == Checked(l.size)
  {
    var low := Dip(s0, l, l.n, l.size);
    ChecksPass(s0, l, low, l.n, l.size);
    s := low.(pcs := Overlay(low.pcs, l.n, Checked(l.size)));
  }

  lemma RushBelowZero(s0: State, l: Limits) returns (last: State)
    requires s0 == Start(l.n + 1, multiset{l.size}) && l.size >= 1 && l.max >= 0
    ensures Reachable(s0, l, last) && last.usage == Times(l.n, l.size)
  {
    var s1 := CheckBelowZero(s0, l);
    var s2 := At(s1, l.n, Done).(usage := 0);
    ZeroBytesMoves(s1, l.n, l.max);
    Move(s0, l, s1, l.n, Continue, s2);
    CountsPass(s0, l, s2, l.n, l.size);
    last := Counted(s2, l.n, l.size);
  }

  // ---------- One operation at a time ----------

  /** A whole call, with nobody in between. */
  datatype Op =
    | Create(t: nat, announced: nat, written: nat)
    | Buffer(t: nat, size: nat)
    | Discard(t: nat)
    | Sweep(t: nat, owner: nat, size: nat)
    | SweepStray(t: nat, size: nat)

  function First(op: Op): Action {
    match op
    case Create(_, announced, _) => Check(announced)
    case Buffer(_, size) => Keep(size)
    case Discard(_) => Close
    case Sweep(_, owner, size) => Clean(owner, size)
    case SweepStray(_, size) => CleanStray(size)
  }

  predicate Possible(s: State, op: Op, max: int) {
    Allowed(s, Event(op.t, First(op)), max) && (op.Create? ==> op.written <= op.announced)
  }

  /** The state once the counters are to be updated. */
  function Begun(s: State, op: Op): State
    requires op.t < |s.pcs|
  {
    var s' := Step(s, Event(op.t, First(op)));
    if op.Create? then Step(s', Event(op.t, Write(op.written))) else s'
  }

  function Complete(s: State, op: Op): State
    requires op.t < |s.pcs|
  {
    Undisturbed(Begun(s, op), op.t, 4)
  }

  /** Nobody is in the middle of a call. */
  predicate Settled(s: State) {
    forall t :: 0 <= t < |s.pcs| ==> s.pcs[t].Idle? || s.pcs[t].FileOpen? || s.pcs[t].BufferOpen? || s.pcs[t].Done?
  }

  predicate IsSweep(op: Op) {
    op.Sweep? || op.SweepStray?
  }

  lemma CreateEffect(s: State, op: Op, max: int)
    requires Possible(s, op, max) && op.Create?
    ensures Complete(s, op) == FileAdded(s, op.t, op.written)
  {
    var b := Begun(s, op);
    assert b == At(s, op.t, CountFile(op.written));
    CountAlone(b, op.t);
    AddedOver(s, op.t, CountFile(op.written), op.written);
  }

  /** A file of this size taken off by goroutine t. */
  function FileTaken(s: State, t: nat, size: nat): State
    requires t < |s.pcs|
  {
    At(s, t, Done).(files := AtLeastZero(s.files - 1), usage := AtLeastZero(s.usage - size))
  }

  lemma UncountEffect(s: State, op: Op, size: nat, max: int)
    requires Possible(s, op, max)
    requires (IsSweep(op) && size == op.size) || (op.Discard? && s.pcs[op.t] == FileOpen(size))
    ensures Complete(s, op)
         == FileTaken(s, op.t, size).(gone := Begun(s, op).gone, strays := Begun(s, op).strays)
    ensures op.Sweep? ==> Begun(s, op).gone == s.gone + {op.owner} && Begun(s, op).strays == s.strays
    ensures op.Discard? ==> Begun(s, op).gone == s.gone && Begun(s, op).strays == s.strays
  {
    var b := Begun(s, op);
    assert b.pcs == s.pcs[op.t := TakeFile(size, op.Discard?)];
    UncountAlone(b, op.t);
    assert b.pcs[op.t := Done] == s.pcs[op.t := Done];
  }

  lemma BufferEffect(s: State, op: Op, max: int)
    requires Possible(s, op, max) && (op.Buffer? || (op.Discard? && !s.pcs[op.t].FileOpen?))
    ensures var s' := Complete(s, op);
      && s'.files == s.files && s'.usage == s.usage && |s'.pcs| == |s.pcs|
      && s'.pcs == s.pcs[op.t := s'.pcs[op.t]] && (s'.pcs[op.t].BufferOpen? || s'.pcs[op.t].Done?)
  {
    var go := Event(op.t, Continue);
    var b := Begun(s, op);
    assert b.pcs[op.t].Done? ==> Complete(s, op) == b;
    if !b.pcs[op.t].Done? {
      var b1 := Step(b, go);
      var b2 := Step(b1, go);
      assert Undisturbed(b, op.t, 4) == Undisturbed(b1, op.t, 3) == Undisturbed(b2, op.t, 2) == b2;
    }
  }

  /** No file is open. */
  predicate NoFileOpen(s: State) {
    forall t :: 0 <= t < |s.pcs| ==> !s.pcs[t].FileOpen?
  }

  lemma {:induction false} NothingOpenIsZero(pcs: seq<Pc>)
    requires forall t :: 0 <= t < |pcs| ==> Files(pcs[t]) == 0 && Bytes(pcs[t]) == 0
    ensures Total(pcs, Files) == 0 && Total(pcs, Bytes) == 0
  {
    if pcs != [] {
      NothingOpenIsZero(pcs[..|pcs| - 1]);
    }
  }

  lemma NoFileOpenIffZero(s: State)
    requires Settled(s)
    ensures NoFileOpen(s) <==> Total(s.pcs, Files) == 0
    ensures NoFileOpen(s) ==> Total(s.pcs, Bytes) == 0
  {
    if NoFileOpen(s) {
      NothingOpenIsZero(s.pcs);
    } else {
      var t :| 0 <= t < |s.pcs| && s.pcs[t].FileOpen?;
      TotalAtLeast(s.pcs, t, Files);
    }
  }

  lemma SettledWith(s: State, s': State, t: nat, pc: Pc)
    requires Settled(s) && t < |s.pcs| && s'.pcs == s.pcs[t := pc] && (pc.FileOpen? || pc.BufferOpen? || pc.Done?)
    ensures Settled(s') && |s'.pcs| == |s.pcs|
  {
  }

  /** s' has pc for t and these counters, and is otherwise of the same length as s. */
  predicate Becomes(s: State, s': State, t: nat, pc: Pc, files: int, usage: int)
    requires t < |s.pcs|
  {
    s'.pcs == s.pcs[t := pc] && s'.files == files && s'.usage == usage
  }

  lemma CreatingIsExact(s: State, s': State, t: nat, c: nat)
    requires Settled(s) && DiskExact(s) && t < |s.pcs| && s.pcs[t].Idle?
    requires Becomes(s, s', t, FileOpen(c), s.files + 1, s.usage + c)
    ensures Settled(s') && DiskExact(s')
  {
    SettledWith(s, s', t, FileOpen(c));
    Totals(s.pcs, t, FileOpen(c));
  }

  lemma DiscardingIsExact(s: State, s': State, t: nat)
    requires Settled(s) && DiskExact(s) && t < |s.pcs| && s.pcs[t].FileOpen?
    requires Becomes(s, s', t, Done, AtLeastZero(s.files - 1), AtLeastZero(s.usage - s.pcs[t].size))
    ensures Settled(s') && DiskExact(s')
  {
    SettledWith(s, s', t, Done);
    Totals(s.pcs, t, Done);
    TotalAtLeast(s.pcs, t, Files);
    TotalAtLeast(s.pcs, t, Bytes);
  }

  lemma SweepingIsExactIffNothingOpen(s: State, s': State, t: nat, size: nat)
    requires Settled(s) && DiskExact(s) && t < |s.pcs| && s.pcs[t].Idle?
    requires Becomes(s, s', t, Done, AtLeastZero(s.files - 1), AtLeastZero(s.usage - size))
    ensures Settled(s') && (DiskExact(s') <==> NoFileOpen(s))
  {
    SettledWith(s, s', t, Done);
    Totals(s.pcs, t, Done);
    NoFileOpenIffZero(s);
  }

  lemma BufferingIsExact(s: State, s': State, t: nat, pc: Pc)
    requires Settled(s) && DiskExact(s) && t < |s.pcs| && !s.pcs[t].FileOpen?
    requires Becomes(s, s', t, pc, s.files, s.usage) && (pc.BufferOpen? || pc.Done?)
    ensures Settled(s') && DiskExact(s')
  {
    SettledWith(s, s', t, pc);
    Totals(s.pcs, t, pc);
  }

  /** What an operation does to its goroutine and to the disk counters. */
  lemma OpBecomes(s: State, op: Op, max: int)
    requires Settled(s) && Possible(s, op, max)
    ensures var s' := Complete(s, op);
      if op.Create? then Becomes(s, s', op.t, FileOpen(op.written), s.files + 1, s.usage + op.written)
      else if IsSweep(op) then Becomes(s, s', op.t, Done, AtLeastZero(s.files - 1), AtLeastZero(s.usage - op.size))
      else if op.Discard? && s.pcs[op.t].FileOpen?
      then Becomes(s, s', op.t, Done, AtLeastZero(s.files - 1), AtLeastZero(s.usage - s.pcs[op.t].size))
      else |s'.pcs| == |s.pcs| && Becomes(s, s', op.t, s'.pcs[op.t], s.files, s.usage)
           && (s'.pcs[op.t].BufferOpen? || s'.pcs[op.t].Done?)
  {
    if op.Create? {
      CreateEffect(s, op, max);
    } else if IsSweep(op) {
      UncountEffect(s, op, op.size, max);
    } else if op.Discard? && s.pcs[op.t].FileOpen? {
      UncountEffect(s, op, s.pcs[op.t].size, max);
    } else {
      BufferEffect(s, op, max);
    }
  }

  /** One operation keeps the counters exact unless it is a cleanup while a file is open. */
  lemma OpKeepsExact(s: State, op: Op, max: int)
    requires Settled(s) && DiskExact(s) && Possible(s, op, max)
    ensures Settled(Complete(s, op))
    ensures DiskExact(Complete(s, op)) <==> !IsSweep(op) || NoFileOpen(s)
  {
    OpBecomes(s, op, max);
    if op.Create? {
      CreatingIsExact(s, Complete(s, op), op.t, op.written);
    } else if IsSweep(op) {
      SweepingIsExactIffNothingOpen(s, Complete(s, op), op.t, op.size);
    } else if op.Discard? && s.pcs[op.t].FileOpen? {
      DiscardingIsExact(s, Complete(s, op), op.t);
    } else {
      BufferingIsExact(s, Complete(s, op), op.t, Complete(s, op).pcs[op.t]);
    }
  }

  lemma Totals(pcs: seq<Pc>, t: nat, pc: Pc)
    requires t < |pcs|
    ensures Total(pcs[t := pc], Files) == Total(pcs, Files) - Files(pcs[t]) + Files(pc)
    ensures Total(pcs[t := pc], Bytes) == Total(pcs, Bytes) - Bytes(pcs[t]) + Bytes(pc)
  {
    TotalUpdate(pcs, t, pc, Files);
    TotalUpdate(pcs, t, pc, Bytes);
  }

  // ---------- Sequences of operations ----------

  datatype Ops = NoOps | Next(before: Ops, last: Op)

  function AfterOps(s0: State, ops: Ops): State {
    match ops
    case NoOps => s0
    case Next(before, op) =>
      var s := AfterOps(s0, before);
      if op.t < |s.pcs| then Complete(s, op) else s
  }

  predicate AllPossible(s0: State, ops: Ops, max: int) {
    ops.Next? ==> AllPossible(s0, ops.before, max) && Possible(AfterOps(s0, ops.before), ops.last, max)
  }

  predicate ExactAfterEach(s0: State, ops: Ops) {
    DiskExact(AfterOps(s0, ops)) && (ops.Next? ==> ExactAfterEach(s0, ops.before))
  }

  /** Every cleanup takes place while no file is open. */
  predicate SweepsFindNothingOpen(s0: State, ops: Ops) {
    ops.Next? ==>
      SweepsFindNothingOpen(s0, ops.before) && (IsSweep(ops.last) ==> NoFileOpen(AfterOps(s0, ops.before)))
  }

  /** One call at a time, the disk counters are exact after every call if and only if every cleanup
      takes place while no storage has a file open. */
  lemma {:induction false} ExactIffSweepsFindNothingOpen(s0: State, ops: Ops, max: int)
    requires Initial(s0) && AllPossible(s0, ops, max)
    ensures ExactAfterEach(s0, ops) <==> SweepsFindNothingOpen(s0, ops)
    ensures ExactAfterEach(s0, ops) ==> Settled(AfterOps(s0, ops))
  {
    if ops.NoOps? {
      TotalOfIdle(|s0.pcs|, Files);
      TotalOfIdle(|s0.pcs|, Bytes);
    } else {
      ExactIffSweepsFindNothingOpen(s0, ops.before, max);
      if ExactAfterEach(s0, ops.before) {
        OpKeepsExact(AfterOps(s0, ops.before), ops.last, max);
      }
    }
  }

  /** Such a sequence of calls is a run of atomic steps. */
  lemma {:induction false} OpsAreARun(s0: State, ops: Ops, max: int) returns (events: Events)
    requires AllPossible(s0, ops, max)
    ensures Run(s0, events, max) && After(s0, events) == AfterOps(s0, ops)
  {
    events := Nothing;
    if ops.Next? {
      events := OpsAreARun(s0, ops.before, max);
      var op := ops.last;
      events := Then(events, Event(op.t, First(op)));
      if op.Create? {
        events := Then(events, Event(op.t, Write(op.written)));
      }
      events := FinishIsARun(s0, events, op.t, 4, max);
    }
  }

  lemma {:induction false} FinishIsARun(s0: State, events: Events, t: nat, steps: nat, max: int) returns (more: Events)
    requires Run(s0, events, max) && t < |After(s0, events).pcs|
    ensures Run(s0, more, max) && After(s0, more) == Undisturbed(After(s0, events), t, steps)
    decreases steps
  {
    more := events;
    if steps > 0 && AllowedAt(After(s0, events).pcs[t], Continue) {
      more := FinishIsARun(s0, Then(events, Event(t, Continue)), t, steps - 1, max);
    }
  }

  lemma Extend(s0: State, ops: Ops, op: Op, max: int, s: State, s': State)
    requires AllPossible(s0, ops, max) && AfterOps(s0, ops) == s && Possible(s, op, max) && Complete(s, op) == s'
    ensures AllPossible(s0, Next(ops, op), max) && AfterOps(s0, Next(ops, op)) == s'
  {
  }

  /** A cleanup removes the file of an open storage, and the storage is closed: its file is taken off
      twice, the second time from another storage's, whose file stays open. */
  lemma CleanedFileIsTakenTwice(a: nat, b: nat, max: int) returns (ops: Ops)
    requires a + b <= max
    ensures ops == Next(Next(Next(Next(NoOps, Create(0, a, a)), Create(1, b, b)), Sweep(2, 0, a)), Discard(0))
    ensures var s0 := Start(3, multiset{});
      && AllPossible(s0, ops, max)
      && AfterOps(s0, ops) == State(0, AtLeastZero(b - a), 0, 0, [Done, FileOpen(b), Done], {0}, multiset{})
    ensures Total([Done, FileOpen(b), Done], Files) == 1 && Total([Done, FileOpen(b), Done], Bytes) == b
  {
    var s0 := State(0, 0, 0, 0, [Idle, Idle, Idle], {}, multiset{});
    assert Start(3, multiset{}).pcs == [Idle, Idle, Idle];
    var s1 := State(1, a, 0, 0, [FileOpen(a), Idle, Idle], {}, multiset{});
    CreateEffect(s0, Create(0, a, a), max);
    assert FileAdded(s0, 0, a) == s1;
    ops := NoOps;
    Extend(s0, ops, Create(0, a, a), max, s0, s1);
    ops := Next(ops, Create(0, a, a));
    var s2 := State(2, a + b, 0, 0, [FileOpen(a), FileOpen(b), Idle], {}, multiset{});
    CreateEffect(s1, Create(1, b, b), max);
    assert FileAdded(s1, 1, b) == s2;
    Extend(s0, ops, Create(1, b, b), max, s1, s2);
    ops := Next(ops, Create(1, b, b));
    var s3 := SweepFirst(s2, a, b, max);
    Extend(s0, ops, Sweep(2, 0, a), max, s2, s3);
    ops := Next(ops, Sweep(2, 0, a));
    var s4 := DiscardFirst(s3, a, b, max);
    Extend(s0, ops, Discard(0), max, s3, s4);
    ops := Next(ops, Discard(0));
    OneLeft(b);
  }

  lemma SweepFirst(s: State, a: nat, b: nat, max: int) returns (s': State)
    requires s == State(2, a + b, 0, 0, [FileOpen(a), FileOpen(b), Idle], {}, multiset{})
    ensures s' == State(1, b, 0, 0, [FileOpen(a), FileOpen(b), Done], {0}, multiset{})
    ensures Possible(s, Sweep(2, 0, a), max) && Complete(s, Sweep(2, 0, a)) == s'
  {
    var pcs := [FileOpen(a), FileOpen(b), Done];
    assert s.pcs[2 := Done] == pcs;
    s' := FileTaken(s, 2, a).(gone := {0});
    UncountEffect(s, Sweep(2, 0, a), a, max);
    assert s.gone + {0} == {0};
  }

  lemma DiscardFirst(s: State, a: nat, b: nat, max: int) returns (s': State)
    requires s == State(1, b, 0, 0, [FileOpen(a), FileOpen(b), Done], {0}, multiset{})
    ensures s' == State(0, AtLeastZero(b - a), 0, 0, [Done, FileOpen(b), Done], {0}, multiset{})
    ensures Possible(s, Discard(0), max) && Complete(s, Discard(0)) == s'
  {
    var pcs := [Done, FileOpen(b), Done];
    assert s.pcs[0 := Done] == pcs;
    s' := FileTaken(s, 0, a);
    UncountEffect(s, Discard(0), a, max);
  }

  lemma OneLeft(b: nat)
    ensures Total([Done, FileOpen(b), Done], Files) == 1 && Total([Done, FileOpen(b), Done], Bytes) == b
  {
    var pcs := [Done, FileOpen(b), Done];
    assert pcs[..2] == [Done, FileOpen(b)] && [Done, FileOpen(b)][..1] == [Done];
    assert Total([Done], Files) == Total([Done], Bytes) == 0;
    assert Total([Done, FileOpen(b)], Files) == 1 && Total([Done, FileOpen(b)], Bytes) == b;
  }
}
