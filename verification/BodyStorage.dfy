/** Request body storages: in memory or in a cache file, behind one interface.

    Body is what a storage is to its caller: content, read position, closed or not.  Both classes below
    answer every call as the functions Answered and Next say, and these do not depend on the backend but
    for one answer. */
module BodyStorage {
  import opened Numbers

  datatype Backend = Memory | Disk

  datatype Body = Body(content: seq<byte>, pos: nat, closed: bool)

  datatype Whence = FromStart | FromCurrent | FromEnd | Unknown

  datatype Op = Read(n: nat) | Seek(offset: int, whence: Whence) | GetBytes | Size | Close

  datatype Answer =
    | Got(data: seq<byte>)
    | Eof
    | Position(pos: nat)
    | BadSeek
    | All(data: seq<byte>)
    | Sized(size: nat)
    | Closed
    | StorageClosed
    | Failed

  /** Offsets are 64-bit integers; a body is smaller than that, and no position is beyond them. */
  predicate Sound(b: Body) {
    |b.content| < TWO63 && b.pos < TWO63
  }

  // ---------- The interface ----------

  /** The exact position a Seek asks for. */
  function Target(b: Body, offset: int, whence: Whence): int {
    match whence
    case FromStart => offset
    case FromCurrent => b.pos + offset
    case FromEnd => |b.content| + offset
    case Unknown => -1
  }

  /** The bytes a Read of n delivers. */
  function Ahead(b: Body, n: nat): seq<byte> {
    if b.pos >= |b.content| then []
    else if n > |b.content| - b.pos then b.content[b.pos..]
    else b.content[b.pos..b.pos + n]
  }

  predicate Reachable(b: Body, op: Op)
    requires op.Seek?
  {
    0 <= Target(b, op.offset, op.whence) < TWO63
  }

  function Answered(b: Body, op: Op, backend: Backend): Answer {
    match op
    case Size => Sized(|b.content|)
    case Close => Closed
    case GetBytes => if b.closed then StorageClosed else All(b.content)
    case Seek(offset, whence) =>
      if b.closed then StorageClosed
      else if Reachable(b, op) then Position(Target(b, offset, whence)) else BadSeek
    case Read(n) =>
      if b.closed then StorageClosed
      else if Ahead(b, n) == [] && !(n == 0 && (backend.Disk? || b.pos < |b.content|)) then Eof
      else Got(Ahead(b, n))
  }

  function Next(b: Body, op: Op): Body {
    match op
    case Size => b
    case GetBytes => b
    case Close => b.(closed := true)
    case Seek(offset, whence) => if !b.closed && Reachable(b, op) then b.(pos := Target(b, offset, whence)) else b
    case Read(n) => if b.closed then b else b.(pos := b.pos + |Ahead(b, n)|)
  }

  function After(b: Body, ops: seq<Op>): (b': Body)
    ensures b'.content == b.content
    decreases ops
  {
    if ops == [] then b else After(Next(b, ops[0]), ops[1..])
  }

  function Answers(b: Body, ops: seq<Op>, backend: Backend): (answers: seq<Answer>)
    ensures |answers| == |ops|
    decreases ops
  {
    if ops == [] then [] else [Answered(b, ops[0], backend)] + Answers(Next(b, ops[0]), ops[1..], backend)
  }

  // ---------- The backends cannot be told apart ----------

  /** A Read into an empty buffer at or behind the end of an open body. */
  predicate ProbesEnd(b: Body, op: Op) {
    op == Read(0) && !b.closed && b.pos >= |b.content|
  }

  predicate ProbesEndSomewhere(b: Body, ops: seq<Op>)
    decreases ops
  {
    ops != [] && (ProbesEnd(b, ops[0]) || ProbesEndSomewhere(Next(b, ops[0]), ops[1..]))
  }

  /** Memory and disk give the same answers to a sequence of calls exactly when none of them reads into
      an empty buffer at the end. */
  lemma {:induction false} Indistinguishable(b: Body, ops: seq<Op>)
    ensures Answers(b, ops, Memory) == Answers(b, ops, Disk) <==> !ProbesEndSomewhere(b, ops)
    decreases ops
  {
    if ops != [] {
      var b', rest := Next(b, ops[0]), ops[1..];
      Indistinguishable(b', rest);
      SameAnswer(b, ops[0]);
      assert Answers(b, ops, Memory)[1..] == Answers(b', rest, Memory);
      assert Answers(b, ops, Disk)[1..] == Answers(b', rest, Disk);
      assert Answers(b, ops, Memory)[0] == Answered(b, ops[0], Memory);
      assert Answers(b, ops, Disk)[0] == Answered(b, ops[0], Disk);
    }
  }

  lemma SameAnswer(b: Body, op: Op)
    ensures Answered(b, op, Memory) == Answered(b, op, Disk) <==> !ProbesEnd(b, op)
  {
  }

  // ---------- What callers rely on ----------

  predicate AllReads(ops: seq<Op>) {
    forall i :: 0 <= i < |ops| ==> ops[i].Read?
  }

  function Data(a: Answer): seq<byte> {
    if a.Got? then a.data else []
  }

  /** All data delivered, in order. */
  function Delivered(answers: seq<Answer>): seq<byte> {
    if answers == [] then [] else Data(answers[0]) + Delivered(answers[1..])
  }

  function Asked(ops: seq<Op>): nat
    requires AllReads(ops)
  {
    if ops == [] then 0 else ops[0].n + Asked(ops[1..])
  }

  /** Reads of any sizes deliver the content from the position on, without gap or overlap, as much as
      was asked for or is there. */
  lemma {:induction false} ReadsDeliver(b: Body, ops: seq<Op>, backend: Backend)
    requires AllReads(ops) && !b.closed
    ensures Delivered(Answers(b, ops, backend)) == Ahead(b, Asked(ops))
    ensures After(b, ops) == b.(pos := b.pos + |Ahead(b, Asked(ops))|)
    decreases ops
  {
    if ops != [] {
      var n, rest := ops[0].n, ops[1..];
      var b', answer := ReadOnce(b, n, backend);
      ReadsDeliver(b', rest, backend);
      AheadSplits(b, n, Asked(rest));
      assert Answers(b, ops, backend) == [answer] + Answers(b', rest, backend);
    }
  }

  lemma ReadOnce(b: Body, n: nat, backend: Backend) returns (b': Body, answer: Answer)
    requires !b.closed
    ensures b' == Next(b, Read(n)) == b.(pos := b.pos + |Ahead(b, n)|)
    ensures answer == Answered(b, Read(n), backend) && Data(answer) == Ahead(b, n)
  {
    b', answer := Next(b, Read(n)), Answered(b, Read(n), backend);
  }

  /** Where a Seek counts from. */
  function Origin(b: Body, whence: Whence): nat {
    match whence
    case FromCurrent => b.pos
    case FromEnd => |b.content|
    case _ => 0
  }

  /** Seeking to a position and reading n bytes gives the n bytes from there, or those that are left, and
      EOF when none are; a position that is negative or beyond 64 bits changes nothing. */
  lemma SeekThenRead(b: Body, offset: int, whence: Whence, n: nat, backend: Backend)
    requires !b.closed && n > 0
    ensures var at, len, seek := Origin(b, whence) + offset, |b.content|, Seek(offset, whence);
      if whence.Unknown? || at < 0 || at >= 0x8000_0000_0000_0000
      then Answered(b, seek, backend) == BadSeek && Next(b, seek) == b
      else
        && Answered(b, seek, backend) == Position(at)
        && Answered(Next(b, seek), Read(n), backend)
           == (if at >= len then Eof else if at + n > len then Got(b.content[at..]) else Got(b.content[at..at + n]))
        && Next(Next(b, seek), Read(n))
           == b.(pos := if at >= len then at else if at + n > len then len else at + n)
  {
  }

  lemma Halves(s: seq<byte>, i: nat, j: nat, k: nat)
    requires i <= j <= k <= |s|
    ensures s[i..k] == s[i..j] + s[j..k]
  {
  }

  /** The position a Read of n leads to, and the bytes up to it. */
  lemma AheadEnd(b: Body, n: nat) returns (end: nat)
    requires b.pos <= |b.content|
    ensures b.pos <= end <= |b.content| && Ahead(b, n) == b.content[b.pos..end] && end == b.pos + |Ahead(b, n)|
    ensures end == if n > |b.content| - b.pos then |b.content| else b.pos + n
  {
    end := b.pos + |Ahead(b, n)|;
  }

  lemma AheadSplits(b: Body, m: nat, n: nat)
    ensures Ahead(b, m + n) == Ahead(b, m) + Ahead(b.(pos := b.pos + |Ahead(b, m)|), n)
  {
    if b.pos < |b.content| {
      var mid := AheadEnd(b, m);
      var end := AheadEnd(b.(pos := mid), n);
      var both := AheadEnd(b, m + n);
      Halves(b.content, b.pos, mid, end);
    }
  }

  lemma AnswersFirst(b: Body, ops: seq<Op>, backend: Backend)
    requires ops != []
    ensures Answers(b, ops, backend) == [Answered(b, ops[0], backend)] + Answers(Next(b, ops[0]), ops[1..], backend)
    ensures After(b, ops) == After(Next(b, ops[0]), ops[1..])
  {
  }

  lemma {:induction false} AnswersAppend(b: Body, xs: seq<Op>, ys: seq<Op>, all: seq<Op>, backend: Backend)
    requires all == xs + ys
    ensures Answers(b, all, backend) == Answers(b, xs, backend) + Answers(After(b, xs), ys, backend)
    decreases xs
  {
    if xs == [] {
      assert all == ys;
    } else {
      var b' := Next(b, xs[0]);
      assert all[1..] == xs[1..] + ys;
      AnswersAppend(b', xs[1..], ys, all[1..], backend);
      AnswersFirst(b, xs, backend);
      AnswersFirst(b, all, backend);
    }
  }

  /** Asking for the bytes in between gives the content, whatever was read or sought before, and changes
      no other answer. */
  lemma BytesAnytime(b: Body, before: seq<Op>, after: seq<Op>, backend: Backend)
    ensures var answers, bytes := Answers(b, before + after, backend),
                                  if After(b, before).closed then StorageClosed else All(b.content);
      Answers(b, before + ([GetBytes] + after), backend) == answers[..|before|] + [bytes] + answers[|before|..]
  {
    AnswersAppend(b, before, after, before + after, backend);
    AnswersAppend(b, before, [GetBytes] + after, before + ([GetBytes] + after), backend);
    AnswersFirst(After(b, before), [GetBytes] + after, backend);
    assert ([GetBytes] + after)[1..] == after;
    var head, tail := Answers(b, before, backend), Answers(After(b, before), after, backend);
    assert (head + tail)[..|before|] == head && (head + tail)[|before|..] == tail;
  }

  lemma {:induction false} ClosedStays(b: Body, ops: seq<Op>, backend: Backend)
    requires b.closed
    ensures After(b, ops) == b
    ensures forall i :: 0 <= i < |ops| && !ops[i].Size? && !ops[i].Close? ==>
      Answers(b, ops, backend)[i] == StorageClosed
    decreases ops
  {
    if ops != [] {
      ClosedStays(b, ops[1..], backend);
    }
  }

  /** After Close a storage refuses everything but Size and Close, and stays closed with its content. */
  lemma ClosedForGood(b: Body, ops: seq<Op>, backend: Backend)
    ensures After(b, [Close] + ops) == Body(b.content, b.pos, true)
    ensures forall i :: 0 <= i < |ops| && !ops[i].Size? && !ops[i].Close? ==>
      Answers(b, [Close] + ops, backend)[i + 1] == StorageClosed
  {
    assert ([Close] + ops)[1..] == ops;
    AnswersFirst(b, [Close] + ops, backend);
    ClosedStays(Next(b, Close), ops, backend);
  }
}
