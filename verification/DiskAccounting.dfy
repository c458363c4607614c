/** The cache counters under concurrency.

    Body storages are created, closed and cleaned up by goroutines that share four atomic counters.  A
    step is one atomic access: the availability check loads the usage, counting a file is two additions,
    and un-counting it is twice "add, and if the sum is negative, store 0". */
module DiskAccounting {

  /** What a goroutine does next.  `mine` says that it is the storage's own Close that un-counts the
      file, not a cleanup. */
  datatype Pc =
    | Idle
    | Checked(size: nat)
    | CountFile(size: nat)
    | CountBytes(size: nat)
    | FileOpen(size: nat)
    | TakeFile(size: nat, mine: bool)
    | ZeroFiles(size: nat, mine: bool)
    | TakeBytes(size: nat, mine: bool)
    | ZeroBytes
    | CountBuffer(size: nat)
    | CountBufferBytes(size: nat)
    | BufferOpen(size: nat)
    | TakeBuffer(size: nat)
    | TakeBufferBytes(size: nat)
    | Done

  /** The counters, the goroutines, and the cache directory beside them: `gone` are the storages whose
      file a cleanup removed, `strays` the sizes of files that nobody counted, left by an earlier process. */
  datatype State = State(
    files: int, usage: int, buffers: int, bufferBytes: int, pcs: seq<Pc>, gone: set<nat>, strays: multiset<nat>)

  datatype Action =
    | Check(size: nat)     // IsDiskCacheAvailable(size), when it says yes
    | Write(written: nat)  // the file is written
    | Abandon              // it could not be written
    | Keep(size: nat)      // newMemoryStorage
    | Clean(owner: nat, size: nat) // a cleanup removed the file of a storage
    | CleanStray(size: nat)        // a cleanup removed a stray file
    | Close
    | Continue

  datatype Event = Event(t: nat, action: Action)

  /** A run so far, last event outermost. */
  datatype Events = Nothing | Then(before: Events, last: Event)

  predicate Allowed(s: State, e: Event, max: int) {
    e.t < |s.pcs| && AllowedAt(s.pcs[e.t], e.action)
    && match e.action
       case Check(size) => s.usage + size <= max
       case Clean(owner, size) => owner < |s.pcs| && owner !in s.gone && Stored(s.pcs[owner], size)
       case CleanStray(size) => size in s.strays
       case _ => true
  }

  /** A storage here has a file of this size in the directory; one being written may be smaller yet. */
  predicate Stored(pc: Pc, size: nat) {
    match pc
    case Checked(announced) => size <= announced
    case CountFile(written) => size == written
    case CountBytes(written) => size == written
    case FileOpen(written) => size == written
    case _ => false
  }

  predicate AllowedAt(pc: Pc, a: Action) {
    match a
    case Write(written) => pc.Checked? && written <= pc.size
    case Abandon => pc.Checked?
    case Close => pc.FileOpen? || pc.BufferOpen? || pc.Done?
    case Continue => !(pc.Idle? || pc.Checked? || pc.FileOpen? || pc.BufferOpen? || pc.Done?)
    case _ => pc.Idle?
  }

  /** The goroutine's next program counter; usage and files are the loaded counters. */
  function NextPc(pc: Pc, a: Action, files: int, usage: int): Pc {
    match a
    case Check(size) => Checked(size)
    case Write(written) => CountFile(written)
    case Abandon => Idle
    case Keep(size) => CountBuffer(size)
    case Clean(_, size) => TakeFile(size, false)
    case CleanStray(size) => TakeFile(size, false)
    case Close =>
      if pc.FileOpen? then TakeFile(pc.size, true) else if pc.BufferOpen? then TakeBuffer(pc.size) else pc
    case Continue => Advanced(pc, files, usage)
  }

  function Advanced(pc: Pc, files: int, usage: int): Pc {
    match pc
    case CountFile(size) => CountBytes(size)
    case CountBytes(size) => FileOpen(size)
    case TakeFile(size, mine) => if files - 1 < 0 then ZeroFiles(size, mine) else TakeBytes(size, mine)
    case ZeroFiles(size, mine) => TakeBytes(size, mine)
    case TakeBytes(size, mine) => if usage - size < 0 then ZeroBytes else Done
    case CountBuffer(size) => CountBufferBytes(size)
    case CountBufferBytes(size) => BufferOpen(size)
    case TakeBuffer(size) => TakeBufferBytes(size)
    case _ => Done
  }

  function NextFiles(pc: Pc, a: Action, files: int): int {
    if !a.Continue? then files
    else match pc
      case CountFile(_) => files + 1
      case TakeFile(_, _) => files - 1
      case ZeroFiles(_, _) => 0
      case _ => files
  }

  function NextUsage(pc: Pc, a: Action, usage: int): int {
    if !a.Continue? then usage
    else match pc
      case CountBytes(size) => usage + size
      case TakeBytes(size, _) => usage - size
      case ZeroBytes => 0
      case _ => usage
  }

  function NextBuffers(pc: Pc, a: Action, buffers: int): int {
    if !a.Continue? then buffers
    else match pc
      case CountBuffer(_) => buffers + 1
      case TakeBuffer(_) => buffers - 1
      case _ => buffers
  }

  function NextBufferBytes(pc: Pc, a: Action, bufferBytes: int): int {
    if !a.Continue? then bufferBytes
    else match pc
      case CountBufferBytes(size) => bufferBytes + size
      case TakeBufferBytes(size) => bufferBytes - size
      case _ => bufferBytes
  }

  function NextGone(e: Event, gone: set<nat>): set<nat> {
    match e.action
    case Clean(owner, _) => gone + {owner}
    case Abandon => gone - {e.t}
    case _ => gone
  }

  function NextStrays(e: Event, strays: multiset<nat>): multiset<nat> {
    if e.action.CleanStray? then strays - multiset{e.action.size} else strays
  }

  function Step(s: State, e: Event): State
    requires e.t < |s.pcs|
  {
    var pc := s.pcs[e.t];
    State(NextFiles(pc, e.action, s.files), NextUsage(pc, e.action, s.usage),
          NextBuffers(pc, e.action, s.buffers), NextBufferBytes(pc, e.action, s.bufferBytes),
          s.pcs[e.t := NextPc(pc, e.action, s.files, s.usage)], NextGone(e, s.gone), NextStrays(e, s.strays))
  }

  /** The process starts: nothing is counted, though the directory may hold files. */
  function Start(goroutines: nat, strays: multiset<nat>): State {
    State(0, 0, 0, 0, seq(goroutines, _ => Idle), {}, strays)
  }

  predicate Initial(s: State) {
    s == Start(|s.pcs|, s.strays)
  }

  /** The state after these events. */
  function After(s0: State, events: Events): (s: State)
    ensures |s.pcs| == |s0.pcs|
  {
    match events
    case Nothing => s0
    case Then(before, e) =>
      var s := After(s0, before);
      if e.t < |s.pcs| then Step(s, e) else s
  }

  /** The runs from s0, of any number of goroutines. */
  predicate Run(s0: State, events: Events, max: int) {
    events.Then? ==> Run(s0, events.before, max) && Allowed(After(s0, events.before), events.last, max)
  }

  // ---------- Sums over the goroutines ----------

  function Total(pcs: seq<Pc>, weight: Pc -> nat): nat {
    if pcs == [] then 0 else Total(pcs[..|pcs| - 1], weight) + weight(pcs[|pcs| - 1])
  }

  lemma {:induction false} TotalUpdate(pcs: seq<Pc>, t: nat, pc: Pc, weight: Pc -> nat)
    requires t < |pcs|
    ensures Total(pcs[t := pc], weight) == Total(pcs, weight) - weight(pcs[t]) + weight(pc)
  {
    var n := |pcs| - 1;
    if t < n {
      TotalUpdate(pcs[..n], t, pc, weight);
      assert pcs[t := pc][..n] == pcs[..n][t := pc];
    } else {
      assert pcs[t := pc][..n] == pcs[..n];
    }
  }

  lemma {:induction false} TotalOfIdle(n: nat, weight: Pc -> nat)
    requires weight(Idle) == 0
    ensures Total(seq(n, _ => Idle), weight) == 0
  {
    if n > 0 {
      assert seq(n, _ => Idle)[..n - 1] == seq(n - 1, _ => Idle);
      TotalOfIdle(n - 1, weight);
    }
  }

  lemma {:induction false} TotalAtLeast(pcs: seq<Pc>, t: nat, weight: Pc -> nat)
    requires t < |pcs|
    ensures Total(pcs, weight) >= weight(pcs[t])
  {
    if t < |pcs| - 1 {
      TotalAtLeast(pcs[..|pcs| - 1], t, weight);
    }
  }

  // ---------- What is out there ----------

  /** 1 for a file that was counted and that its owner's Close has not un-counted. */
  function Files(pc: Pc): nat {
    if pc.CountBytes? || pc.FileOpen? || (pc.TakeFile? && pc.mine) then 1 else 0
  }

  /** The size of a file whose bytes were counted and that its owner's Close has not un-counted. */
  function Bytes(pc: Pc): nat {
    if pc.FileOpen? || ((pc.TakeFile? || pc.ZeroFiles? || pc.TakeBytes?) && pc.mine) then pc.size else 0
  }

  function Buffers(pc: Pc): nat {
    if pc.CountBufferBytes? || pc.BufferOpen? || pc.TakeBuffer? then 1 else 0
  }

  function BufferBytes(pc: Pc): nat {
    if pc.BufferOpen? || pc.TakeBuffer? || pc.TakeBufferBytes? then pc.size else 0
  }

  /** 1 from the availability check until the bytes are counted. */
  function Pending(pc: Pc): nat {
    if pc.Checked? || pc.CountFile? || pc.CountBytes? then 1 else 0
  }

  function PendingBytes(pc: Pc): nat {
    if pc.Checked? || pc.CountFile? || pc.CountBytes? then pc.size else 0
  }

  // ---------- Memory buffers are counted exactly ----------

  predicate BuffersExact(s: State) {
    s.buffers == Total(s.pcs, Buffers) && s.bufferBytes == Total(s.pcs, BufferBytes)
  }

  lemma StepKeepsBuffersExact(s: State, e: Event, max: int)
    requires BuffersExact(s) && Allowed(s, e, max)
    ensures BuffersExact(Step(s, e))
  {
    var pc := s.pcs[e.t];
    var pc' := NextPc(pc, e.action, s.files, s.usage);
    TotalUpdate(s.pcs, e.t, pc', Buffers);
    TotalUpdate(s.pcs, e.t, pc', BufferBytes);
  }

  /** In every run the memory counters are the number and the size of the buffers that are open. */
  lemma {:induction false} MemoryIsExact(s0: State, events: Events, max: int)
    requires Initial(s0) && Run(s0, events, max)
    ensures BuffersExact(After(s0, events))
  {
    if events.Nothing? {
      TotalOfIdle(|s0.pcs|, Buffers);
      TotalOfIdle(|s0.pcs|, BufferBytes);
    } else {
      MemoryIsExact(s0, events.before, max);
      StepKeepsBuffersExact(After(s0, events.before), events.last, max);
    }
  }

  // ---------- Files are never over-counted ----------

  predicate NotOver(s: State) {
    s.files <= Total(s.pcs, Files) && s.usage <= Total(s.pcs, Bytes)
  }

  /** A negative counter is about to be set to 0. */
  ghost predicate NegativeIsTransient(s: State) {
    && (s.files < 0 ==> exists t :: 0 <= t < |s.pcs| && s.pcs[t].ZeroFiles?)
    && (s.usage < 0 ==> exists t :: 0 <= t < |s.pcs| && s.pcs[t].ZeroBytes?)
  }

  lemma StepKeepsNotOver(s: State, e: Event, max: int)
    requires NotOver(s) && Allowed(s, e, max)
    ensures NotOver(Step(s, e))
  {
    var pc := s.pcs[e.t];
    var pc' := NextPc(pc, e.action, s.files, s.usage);
    TotalUpdate(s.pcs, e.t, pc', Files);
    TotalUpdate(s.pcs, e.t, pc', Bytes);
  }

  lemma StepKeepsNegativeTransient(s: State, e: Event, max: int)
    requires NegativeIsTransient(s) && Allowed(s, e, max)
    ensures NegativeIsTransient(Step(s, e))
  {
    var s' := Step(s, e);
    if s'.files < 0 {
      if s'.files < s.files {
        assert s'.pcs[e.t].ZeroFiles?;
      } else {
        var t :| 0 <= t < |s.pcs| && s.pcs[t].ZeroFiles?;
        assert s'.pcs[t].ZeroFiles?;
      }
    }
    if s'.usage < 0 {
      if s'.usage < s.usage {
        assert s'.pcs[e.t].ZeroBytes?;
      } else {
        var t :| 0 <= t < |s.pcs| && s.pcs[t].ZeroBytes?;
        assert s'.pcs[t].ZeroBytes?;
      }
    }
  }

  /** In every run of creates, closes and cleanups the disk counters are at most what is open, and
      negative only while a goroutine is about to store 0. */
  lemma {:induction false} DiskIsNeverOver(s0: State, events: Events, max: int)
    requires Initial(s0) && Run(s0, events, max)
    ensures NotOver(After(s0, events)) && NegativeIsTransient(After(s0, events))
  {
    if events.Then? {
      DiskIsNeverOver(s0, events.before, max);
      StepKeepsNotOver(After(s0, events.before), events.last, max);
      StepKeepsNegativeTransient(After(s0, events.before), events.last, max);
    }
  }

  // ---------- When files are counted exactly ----------

  predicate DiskExact(s: State) {
    s.files == Total(s.pcs, Files) && s.usage == Total(s.pcs, Bytes)
  }

  /** No cleanup has gone beyond removing its file, and no counter had to be stopped at 0. */
  predicate Untouched(pc: Pc) {
    !pc.ZeroFiles? && !pc.ZeroBytes? && (pc.TakeBytes? ==> pc.mine)
  }

  predicate AllUntouched(s: State) {
    forall t :: 0 <= t < |s.pcs| ==> Untouched(s.pcs[t])
  }

  /** A cleanup takes the first thing off a counter. */
  predicate Uncounts(s: State, e: Event) {
    e.action.Continue? && e.t < |s.pcs| && s.pcs[e.t].TakeFile? && !s.pcs[e.t].mine
  }

  lemma StepKeepsDiskExact(s: State, e: Event, max: int)
    requires DiskExact(s) && AllUntouched(s) && Allowed(s, e, max) && !Uncounts(s, e)
    ensures DiskExact(Step(s, e)) && AllUntouched(Step(s, e))
  {
    var pc := s.pcs[e.t];
    var pc' := NextPc(pc, e.action, s.files, s.usage);
    TotalAtLeast(s.pcs, e.t, Files);
    TotalAtLeast(s.pcs, e.t, Bytes);
    assert Untouched(pc) && Untouched(pc');
    TotalUpdate(s.pcs, e.t, pc', Files);
    TotalUpdate(s.pcs, e.t, pc', Bytes);
  }

  lemma UncountingIsInexact(s: State, e: Event)
    requires DiskExact(s) && Uncounts(s, e)
    ensures !DiskExact(Step(s, e))
  {
    TotalUpdate(s.pcs, e.t, NextPc(s.pcs[e.t], e.action, s.files, s.usage), Files);
  }

  predicate AlwaysExact(s0: State, events: Events) {
    DiskExact(After(s0, events))
    && (events.Then? ==> AlwaysExact(s0, events.before))
  }

  predicate NeverUncounts(s0: State, events: Events) {
    events.Then? ==>
      NeverUncounts(s0, events.before)
      && !Uncounts(After(s0, events.before), events.last)
  }

  /** In every run the disk counters are at every step the number and the size of the open files if and
      only if no cleanup takes anything off them. */
  lemma {:induction false} ExactIffNothingUncounted(s0: State, events: Events, max: int)
    requires Initial(s0) && Run(s0, events, max)
    ensures AlwaysExact(s0, events) <==> NeverUncounts(s0, events)
    ensures NeverUncounts(s0, events) ==> AllUntouched(After(s0, events))
  {
    if events.Nothing? {
      TotalOfIdle(|s0.pcs|, Files);
      TotalOfIdle(|s0.pcs|, Bytes);
    } else {
      ExactIffNothingUncounted(s0, events.before, max);
      var s := After(s0, events.before);
      if NeverUncounts(s0, events.before) {
        if Uncounts(s, events.last) {
          UncountingIsInexact(s, events.last);
        } else {
          StepKeepsDiskExact(s, events.last, max);
        }
      }
    }
  }

  predicate NoCleanup(events: Events) {
    events.Then? ==> NoCleanup(events.before) && !events.last.action.Clean? && !events.last.action.CleanStray?
  }

  predicate OwnersOnly(s: State) {
    forall t :: 0 <= t < |s.pcs| && s.pcs[t].TakeFile? ==> s.pcs[t].mine
  }

  /** So without cleanups the disk counters are always exact. */
  lemma {:induction false} DiskIsExact(s0: State, events: Events, max: int)
    requires Initial(s0) && Run(s0, events, max) && NoCleanup(events)
    ensures NeverUncounts(s0, events) && OwnersOnly(After(s0, events)) && AlwaysExact(s0, events)
  {
    if events.Then? {
      DiskIsExact(s0, events.before, max);
    }
    ExactIffNothingUncounted(s0, events, max);
  }

  // ---------- The configured size is overrun by the pending creations only ----------

  /** All along the run, checked sizes are at most `size` and at most `n` creations are pending. */
  predicate Within(s0: State, events: Events, n: nat, size: nat) {
    && Total(After(s0, events).pcs, Pending) <= n
    && (events.Then? ==>
      && Within(s0, events.before, n, size)
      && (events.last.action.Check? ==> events.last.action.size <= size))
  }

  function Bound(max: int, n: nat, size: nat): int {
    (if max > size then max else size) + (n - 1) * size
  }

  predicate Small(s: State, size: nat) {
    forall t :: 0 <= t < |s.pcs| ==> PendingBytes(s.pcs[t]) <= size
  }

  lemma {:induction false} PendingAtMost(pcs: seq<Pc>, size: nat)
    requires forall t :: 0 <= t < |pcs| ==> PendingBytes(pcs[t]) <= size
    ensures Total(pcs, PendingBytes) <= Total(pcs, Pending) * size
  {
    if pcs != [] {
      PendingAtMost(pcs[..|pcs| - 1], size);
      var last := Pending(pcs[|pcs| - 1]);
      assert (Total(pcs[..|pcs| - 1], Pending) + last) * size
          == Total(pcs[..|pcs| - 1], Pending) * size + last * size;
    }
  }

  lemma StepKeepsBound(s: State, e: Event, max: int, n: nat, size: nat)
    requires s.usage + Total(s.pcs, PendingBytes) <= Bound(max, n, size) && Small(s, size) && n >= 1
    requires Allowed(s, e, max) && (e.action.Check? ==> e.action.size <= size)
    requires Total(s.pcs, Pending) <= n && Total(Step(s, e).pcs, Pending) <= n
    ensures Step(s, e).usage + Total(Step(s, e).pcs, PendingBytes) <= Bound(max, n, size) && Small(Step(s, e), size)
  {
    var pc := s.pcs[e.t];
    var pc' := NextPc(pc, e.action, s.files, s.usage);
    TotalUpdate(s.pcs, e.t, pc', Pending);
    TotalUpdate(s.pcs, e.t, pc', PendingBytes);
    PendingAtMost(s.pcs, size);
    if e.action.Check? {
      AtMostTimes(Total(s.pcs, Pending), n - 1, size);
    } else if pc.ZeroBytes? {
      AtMostTimes(Total(s.pcs, Pending), n, size);
      assert n * size == (n - 1) * size + size;
    }
  }

  lemma AtMostTimes(a: nat, b: nat, c: nat)
    requires a <= b
    ensures a * c <= b * c
  {
  }

  /** In every run with at most n pending creations of at most `size` bytes, cleanups or not, the tracked
      usage is at most the larger of max and `size`, plus (n - 1) * size. */
  lemma {:induction false} UsageIsBounded(s0: State, events: Events, max: int, n: nat, size: nat)
    requires Initial(s0) && Run(s0, events, max) && Within(s0, events, n, size) && n >= 1
    ensures var s := After(s0, events);
      s.usage <= s.usage + Total(s.pcs, PendingBytes) <= Bound(max, n, size) && Small(s, size)
  {
    if events.Nothing? {
      TotalOfIdle(|s0.pcs|, PendingBytes);
      assert (n - 1) * size >= 0;
    } else {
      UsageIsBounded(s0, events.before, max, n, size);
      StepKeepsBound(After(s0, events.before), events.last, max, n, size);
    }
  }
  // ---------- A counter update nobody interferes with ----------

  /** Goroutine t alone, to the end of the update it is in. */
  function Undisturbed(s: State, t: nat, steps: nat): State
    requires t < |s.pcs|
    decreases steps
  {
    if steps == 0 || !AllowedAt(s.pcs[t], Continue) then s
    else Undisturbed(Step(s, Event(t, Continue)), t, steps - 1)
  }

  function AtLeastZero(n: int): nat {
    if n < 0 then 0 else n
  }

  /** Alone, an un-counting takes the file away and stops at 0. */
  lemma UncountAlone(s: State, t: nat)
    requires t < |s.pcs| && s.pcs[t].TakeFile?
    ensures Undisturbed(s, t, 4)
         == s.(files := AtLeastZero(s.files - 1), usage := AtLeastZero(s.usage - s.pcs[t].size),
               pcs := s.pcs[t := Done])
  {
    var s' := TakeFileAlone(s, t);
    TakeBytesAlone(s', t, if s.files - 1 < 0 then 2 else 3);
    assert s'.pcs[t := Done] == s.pcs[t := Done];
  }

  lemma TakeFileAlone(s: State, t: nat) returns (s': State)
    requires t < |s.pcs| && s.pcs[t].TakeFile?
    ensures s' == s.(files := AtLeastZero(s.files - 1), pcs := s.pcs[t := TakeBytes(s.pcs[t].size, s.pcs[t].mine)])
    ensures Undisturbed(s, t, 4) == Undisturbed(s', t, if s.files - 1 < 0 then 2 else 3)
  {
    var go := Event(t, Continue);
    s' := Step(s, go);
    assert Undisturbed(s, t, 4) == Undisturbed(s', t, 3);
    if s.files - 1 < 0 {
      s' := Step(s', go);
      assert s'.pcs == s.pcs[t := TakeBytes(s.pcs[t].size, s.pcs[t].mine)];
    }
  }

  lemma TakeBytesAlone(s: State, t: nat, k: nat)
    requires t < |s.pcs| && s.pcs[t].TakeBytes? && 2 <= k
    ensures Undisturbed(s, t, k) == s.(usage := AtLeastZero(s.usage - s.pcs[t].size), pcs := s.pcs[t := Done])
  {
    var go := Event(t, Continue);
    var s1 := Step(s, go);
    assert Undisturbed(s, t, k) == Undisturbed(s1, t, k - 1);
    if s1.pcs[t].ZeroBytes? {
      assert Step(s1, go).pcs == s.pcs[t := Done];
      assert Undisturbed(s1, t, k - 1) == Undisturbed(Step(s1, go), t, k - 2);
    }
  }

  /** Alone, a counting adds the file. */
  lemma CountAlone(s: State, t: nat)
    requires t < |s.pcs| && s.pcs[t].CountFile?
    ensures Undisturbed(s, t, 4)
         == s.(files := s.files + 1, usage := s.usage + s.pcs[t].size, pcs := s.pcs[t := FileOpen(s.pcs[t].size)])
  {
    var a := Step(s, Event(t, Continue));
    assert Undisturbed(s, t, 4) == Undisturbed(a, t, 3);
    assert Step(a, Event(t, Continue)).pcs == s.pcs[t := FileOpen(s.pcs[t].size)];
  }
}
