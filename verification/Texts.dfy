/** The string operations the model lists and key lists are built from. */
module Texts {

  /** The white space strings.TrimSpace removes. */
  predicate IsSpace(c: char) {
    || c == '\t' || c == '\n' || c == '\U{0B}' || c == '\U{0C}' || c == '\r' || c == ' '
    || c == '\U{85}' || c == '\U{A0}' || c == '\U{1680}' || '\U{2000}' <= c <= '\U{200A}'
    || c == '\U{2028}' || c == '\U{2029}' || c == '\U{202F}' || c == '\U{205F}' || c == '\U{3000}'
  }

  function TrimLeft(s: string, drop: char -> bool): string {
    if s != [] && drop(s[0]) then TrimLeft(s[1..], drop) else s
  }

  function TrimRight(s: string, drop: char -> bool): string {
    if s != [] && drop(s[|s| - 1]) then TrimRight(s[..|s| - 1], drop) else s
  }

  function Trim(s: string, drop: char -> bool): string {
    TrimRight(TrimLeft(s, drop), drop)
  }

  function TrimSpace(s: string): string {
    Trim(s, IsSpace)
  }

  predicate NoDroppedEnds(s: string, drop: char -> bool) {
    s != [] ==> !drop(s[0]) && !drop(s[|s| - 1])
  }

  /** Trimming yields a slice whose ends are kept, having removed dropped characters only. */
  lemma TrimSlice(s: string, drop: char -> bool) returns (i: nat, j: nat)
    ensures i <= j <= |s| && Trim(s, drop) == s[i..j] && NoDroppedEnds(s[i..j], drop)
    ensures forall k :: 0 <= k < i || j <= k < |s| ==> drop(s[k])
  {
    i := TrimLeftSlice(s, drop);
    j := TrimRightSlice(s[i..], drop);
    assert s[i..][..j] == s[i..i + j];
    assert forall k :: i + j <= k < |s| ==> s[k] == s[i..][k - i];
    j := i + j;
  }

  lemma {:induction false} TrimLeftSlice(s: string, drop: char -> bool) returns (i: nat)
    ensures i <= |s| && TrimLeft(s, drop) == s[i..] && (i < |s| ==> !drop(s[i]))
    ensures forall k :: 0 <= k < i ==> drop(s[k])
  {
    i := 0;
    if s != [] && drop(s[0]) {
      i := TrimLeftSlice(s[1..], drop);
      i := i + 1;
      assert forall k :: 0 < k < i ==> s[k] == s[1..][k - 1];
    }
  }

  lemma {:induction false} TrimRightSlice(s: string, drop: char -> bool) returns (j: nat)
    ensures j <= |s| && TrimRight(s, drop) == s[..j] && (j > 0 ==> !drop(s[j - 1]))
    ensures forall k :: j <= k < |s| ==> drop(s[k])
  {
    j := |s|;
    if s != [] && drop(s[|s| - 1]) {
      j := TrimRightSlice(s[..|s| - 1], drop);
      assert s[..|s| - 1][..j] == s[..j];
    } else {
      assert s[..j] == s;
    }
  }

  /** Text whose ends are kept is left alone. */
  lemma TrimFixpoint(s: string, drop: char -> bool)
    requires NoDroppedEnds(s, drop)
    ensures Trim(s, drop) == s
  {
  }

  lemma TrimSpaceIdempotent(s: string)
    ensures TrimSpace(TrimSpace(s)) == TrimSpace(s)
  {
    var i, j := TrimSlice(s, IsSpace);
    TrimFixpoint(TrimSpace(s), IsSpace);
  }

  /** strings.Split with a one-character separator. */
  function Split(s: string, sep: char): (parts: seq<string>)
    ensures |parts| >= 1
    ensures forall i :: 0 <= i < |parts| ==> sep !in parts[i]
  {
    if s == [] then [[]]
    else
      var rest := Split(s[1..], sep);
      if s[0] == sep then [[]] + rest else [[s[0]] + rest[0]] + rest[1..]
  }

  function Join(parts: seq<string>, sep: char): string {
    if |parts| == 0 then []
    else if |parts| == 1 then parts[0]
    else parts[0] + [sep] + Join(parts[1..], sep)
  }

  lemma {:induction false} SplitWhole(s: string, sep: char)
    requires sep !in s
    ensures Split(s, sep) == [s]
  {
    if s != [] {
      SplitWhole(s[1..], sep);
      assert [s[0]] + s[1..] == s;
    }
  }

  /** Joining undoes splitting. */
  lemma {:induction false} JoinSplit(s: string, sep: char)
    ensures Join(Split(s, sep), sep) == s
  {
    if s != [] {
      JoinSplit(s[1..], sep);
      var rest := Split(s[1..], sep);
      if s[0] == sep {
        assert ([[]] + rest)[1..] == rest;
      } else if |rest| > 1 {
        assert ([[s[0]] + rest[0]] + rest[1..])[1..] == rest[1..];
      }
    }
  }

  /** Each part split, one after the other. */
  function Pieces(parts: seq<string>, sep: char): seq<string> {
    if parts == [] then [] else Split(parts[0], sep) + Pieces(parts[1..], sep)
  }

  lemma SplitFirstChar(s: string, sep: char)
    requires s != []
    ensures var rest := Split(s[1..], sep);
      Split(s, sep) == if s[0] == sep then [[]] + rest else [[s[0]] + rest[0]] + rest[1..]
  {
  }

  /** Text on both sides of a separator is split on its own. */
  lemma {:induction false} SplitAcross(s: string, head: string, tail: string, sep: char)
    requires s == head + [sep] + tail
    ensures Split(s, sep) == Split(head, sep) + Split(tail, sep)
  {
    SplitFirstChar(s, sep);
    if head == [] {
      assert s[1..] == tail;
    } else {
      assert s[0] == head[0] && s[1..] == head[1..] + [sep] + tail;
      SplitAcross(s[1..], head[1..], tail, sep);
      SplitFirstChar(head, sep);
      FirstOfBoth(head[0], Split(head[1..], sep), Split(tail, sep));
    }
  }

  lemma FirstOfBoth(c: char, xs: seq<string>, ys: seq<string>)
    requires xs != []
    ensures [[]] + (xs + ys) == ([[]] + xs) + ys
    ensures [[c] + (xs + ys)[0]] + (xs + ys)[1..] == ([[c] + xs[0]] + xs[1..]) + ys
  {
  }

  lemma SplitTrailing(s: string, sep: char)
    requires s != [] && s[|s| - 1] == sep
    ensures Split(s, sep) == Split(s[..|s| - 1], sep) + [[]]
  {
    SplitAcross(s, s[..|s| - 1], [], sep);
  }

  /** Splitting what was joined splits every part. */
  lemma {:induction false} SplitOfJoin(parts: seq<string>, sep: char)
    requires parts != []
    ensures Split(Join(parts, sep), sep) == Pieces(parts, sep)
  {
    if |parts| == 1 {
      assert Pieces(parts[1..], sep) == [] && Split(parts[0], sep) + [] == Split(parts[0], sep);
    } else {
      SplitOfJoin(parts[1..], sep);
      SplitAcross(Join(parts, sep), parts[0], Join(parts[1..], sep), sep);
    }
  }

  lemma {:induction false} PiecesAppend(xs: seq<string>, ys: seq<string>, sep: char)
    ensures Pieces(xs + ys, sep) == Pieces(xs, sep) + Pieces(ys, sep)
  {
    if xs == [] {
      assert xs + ys == ys;
    } else {
      assert (xs + ys)[1..] == xs[1..] + ys;
      PiecesAppend(xs[1..], ys, sep);
    }
  }

  /** Parts without the separator are their own pieces. */
  lemma {:induction false} PiecesOfWhole(parts: seq<string>, sep: char)
    requires forall i :: 0 <= i < |parts| ==> sep !in parts[i]
    ensures Pieces(parts, sep) == parts
  {
    if parts != [] {
      SplitWhole(parts[0], sep);
      PiecesOfWhole(parts[1..], sep);
    }
  }

  /** Splitting undoes joining when no part contains the separator. */
  lemma SplitJoin(parts: seq<string>, sep: char)
    requires |parts| >= 1 && forall i :: 0 <= i < |parts| ==> sep !in parts[i]
    ensures Split(Join(parts, sep), sep) == parts
  {
    SplitOfJoin(parts, sep);
    PiecesOfWhole(parts, sep);
  }

  /** Leading parts without the separator are split off, whatever follows. */
  lemma SplitJoined(xs: seq<string>, ys: seq<string>, sep: char)
    requires ys != [] && forall i :: 0 <= i < |xs| ==> sep !in xs[i]
    ensures Split(Join(xs + ys, sep), sep) == xs + Split(Join(ys, sep), sep)
  {
    SplitOfJoin(xs + ys, sep);
    PiecesAppend(xs, ys, sep);
    PiecesOfWhole(xs, sep);
    SplitOfJoin(ys, sep);
  }

  /** A text has at least as many parts as any slice of it. */
  lemma {:induction false} SplitSlice(s: string, i: nat, j: nat, sep: char)
    requires i <= j <= |s|
    ensures |Split(s[i..j], sep)| <= |Split(s, sep)|
  {
    if i > 0 {
      assert s[1..][i - 1..j - 1] == s[i..j];
      SplitSlice(s[1..], i - 1, j - 1, sep);
    } else if j > 0 {
      assert s[..j][1..] == s[1..][..j - 1];
      SplitSlice(s[1..], 0, j - 1, sep);
    }
  }

  /** A joined text starts with its first part and ends with its last. */
  lemma {:induction false} JoinEnds(parts: seq<string>, sep: char)
    requires |parts| >= 1
    ensures parts[0] <= Join(parts, sep)
    ensures var j, l := Join(parts, sep), parts[|parts| - 1]; |l| <= |j| && j[|j| - |l|..] == l
    ensures |parts| > 1 ==> |Join(parts, sep)| > |parts[0]| && Join(parts, sep)[|parts[0]|] == sep
    ensures |parts| > 1 ==>
      var j, l := Join(parts, sep), parts[|parts| - 1]; |j| > |l| && j[|j| - |l| - 1] == sep
  {
    if |parts| > 1 {
      JoinEnds(parts[1..], sep);
      assert parts[1..][|parts| - 2] == parts[|parts| - 1];
    }
  }
}
