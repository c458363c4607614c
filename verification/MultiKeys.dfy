/** Channels with several keys.

    A channel stores its keys as one text, newline-separated or a JSON array, and beside it three
    sparse maps from key index to status, time and reason of being disabled.  The meaning of a row is
    a sequence of records; the management actions rewrite the maps and re-index them. */
module MultiKeys {
  import opened Options
  import opened NameLists
  import opened Texts

  datatype Reason = Reason(text: string)

  const ENABLED := 1
  const MANUALLY_DISABLED := 2
  const AUTO_DISABLED := 3

  /** The database row: the key text and the ChannelInfo fields. */
  datatype Row = Row(key: string, size: nat, statuses: map<nat, int>, times: map<nat, int>, reasons: map<nat, Reason>)

  /** Parses a text as a JSON array of raw elements. */
  type Json = string -> Option<seq<Name>>

  // ---------- Reading the key text ----------

  predicate Bracketed(key: string) {
    "[" <= TrimSpace(key)
  }

  predicate IsArray(key: string, json: Json) {
    Bracketed(key) && json(TrimSpace(key)).Some?
  }

  function Lines(key: string): seq<Name> {
    Names(Split(Trim(key, c => c == '\n'), '\n'))
  }

  /** Channel.GetKeys. */
  function GetKeys(key: string, json: Json): seq<Name> {
    if key == "" then []
    else if IsArray(key, json) then json(TrimSpace(key)).value
    else Lines(key)
  }

  /** The count Channel.Update stores: like GetKeys, but an empty array is read as lines. */
  function CountKeys(key: string, json: Json): nat {
    if key == "" then 0
    else if IsArray(key, json) && json(TrimSpace(key)).value != [] then |json(TrimSpace(key)).value|
    else |Lines(key)|
  }

  function JoinKeys(keys: seq<Name>): string {
    Join(TextsOf(keys), '\n')
  }

  /** Storing these keys as lines and reading them back gives these keys. */
  predicate Rereads(keys: seq<Name>, json: Json) {
    GetKeys(JoinKeys(keys), json) == keys
  }

  /** Channel.Update on a multi-key channel.  A zero value does not reach the database, so an empty
      key text leaves the stored one; the size is recounted and stale statuses are dropped. */
  function Update(stored: Row, next: Row, json: Json): Row {
    var key := if next.key != "" then next.key else stored.key;
    var size := CountKeys(key, json);
    Row(key, size, map i | i in next.statuses && i < size :: next.statuses[i], next.times, next.reasons)
  }

  // ---------- Records ----------

  datatype Record = Record(key: Name, status: int, time: Option<int>, reason: Option<Reason>)

  function RecordAt(keys: seq<Name>, statuses: map<nat, int>, times: map<nat, int>, reasons: map<nat, Reason>,
                    i: nat): Record
    requires i < |keys|
  {
    Record(keys[i], if i in statuses then statuses[i] else ENABLED,
           if i in times then Some(times[i]) else None, if i in reasons then Some(reasons[i]) else None)
  }

  function RecordsOf(keys: seq<Name>, statuses: map<nat, int>, times: map<nat, int>, reasons: map<nat, Reason>)
    : (rs: seq<Record>)
    ensures |rs| == |keys|
  {
    seq(|keys|, i requires 0 <= i < |keys| => RecordAt(keys, statuses, times, reasons, i))
  }

  function Records(row: Row, json: Json): seq<Record> {
    RecordsOf(GetKeys(row.key, json), row.statuses, row.times, row.reasons)
  }

  function KeysOf(rs: seq<Record>): seq<Name> {
    seq(|rs|, i requires 0 <= i < |rs| => rs[i].key)
  }

  predicate EmptyArray(key: string, json: Json) {
    IsArray(key, json) && json(TrimSpace(key)).value == []
  }

  /** The row is in step with its key text. */
  predicate Consistent(row: Row, json: Json) {
    row.size == |GetKeys(row.key, json)| && forall i :: i in row.statuses ==> i < row.size
  }

  // ---------- What the actions do to the records ----------

  function Enabled(r: Record): Record {
    Record(r.key, ENABLED, None, None)
  }

  function EnableAll(rs: seq<Record>): seq<Record> {
    seq(|rs|, i requires 0 <= i < |rs| => Enabled(rs[i]))
  }

  function DisableUpTo(rs: seq<Record>, n: nat): seq<Record> {
    seq(|rs|, i requires 0 <= i < |rs| =>
      if i < n && rs[i].status == ENABLED then rs[i].(status := MANUALLY_DISABLED) else rs[i])
  }

  function DisableAll(rs: seq<Record>): seq<Record> {
    DisableUpTo(rs, |rs|)
  }

  function CountOf(rs: seq<Record>, status: int): nat {
    if rs == [] then 0 else CountOf(rs[..|rs| - 1], status) + if rs[|rs| - 1].status == status then 1 else 0
  }

  function DeleteAt(rs: seq<Record>, i: nat): seq<Record>
    requires i < |rs|
  {
    rs[..i] + rs[i + 1..]
  }

  /** Keeps what is not auto-disabled; an enabled record loses its stale time and reason. */
  function DropAutoDisabled(rs: seq<Record>): seq<Record> {
    if rs == [] then []
    else
      var init, last := DropAutoDisabled(rs[..|rs| - 1]), rs[|rs| - 1];
      if last.status == AUTO_DISABLED then init
      else if last.status == ENABLED then init + [Enabled(last)]
      else init + [last]
  }

  // ---------- Reading back what was joined ----------

  predicate OneLine(k: Name) {
    '\n' !in k.text
  }

  /** Splitting a text whose ends are not the separator gives non-empty ends. */
  lemma {:induction false} SplitEnds(s: string, sep: char)
    requires s != "" && s[0] != sep && s[|s| - 1] != sep
    ensures var parts := Split(s, sep); parts[0] != "" && parts[|parts| - 1] != ""
  {
    SplitFirst(s, sep);
    SplitLast(s, sep);
  }

  lemma SplitFirst(s: string, sep: char)
    requires s != "" && s[0] != sep
    ensures Split(s, sep)[0] != ""
  {
  }

  lemma {:induction false} SplitLast(s: string, sep: char)
    requires s != "" && s[|s| - 1] != sep
    ensures var parts := Split(s, sep); parts[|parts| - 1] != ""
  {
    if |s| > 1 {
      SplitLast(s[1..], sep);
      var rest := Split(s[1..], sep);
      if s[0] != sep {
        assert Split(s, sep) == [[s[0]] + rest[0]] + rest[1..];
      }
    }
  }

  predicate EndsNotBlank(keys: seq<Name>) {
    keys != [] ==> !keys[0].Blank() && !keys[|keys| - 1].Blank()
  }

  /** Unless the joined text is read as a JSON array, keys survive storing exactly when none contains a
      newline and neither the first nor the last is empty. */
  lemma RereadsIffPlain(keys: seq<Name>, json: Json)
    requires !IsArray(JoinKeys(keys), json)
    ensures Rereads(keys, json) <==> EndsNotBlank(keys) && forall i :: 0 <= i < |keys| ==> OneLine(keys[i])
  {
    var texts, s := TextsOf(keys), JoinKeys(keys);
    var newline := (c: char) => c == '\n';
    if keys != [] && s != "" && forall i :: 0 <= i < |keys| ==> OneLine(keys[i]) {
      if EndsNotBlank(keys) {
        JoinEnds(texts, '\n');
        TrimFixpoint(s, newline);
        SplitJoin(texts, '\n');
        assert Names(texts) == keys;
      } else {
        BlankEndsAreLost(keys, s);
      }
    } else if keys != [] && s == "" {
      JoinEnds(texts, '\n');
    }
  }

  /** A key of two lines comes back as two keys. */
  lemma TwoLineKey(json: Json)
    ensures JoinKeys([Name("{\n}")]) == "{\n}" && GetKeys("{\n}", json) == [Name("{"), Name("}")]
  {
    TrimFixpoint("{\n}", IsSpace);
    TrimFixpoint("{\n}", c => c == '\n');
    SplitJoin(["{", "}"], '\n');
    assert ["{", "}"][1..] == ["}"];
    assert Join(["{", "}"], '\n') == "{" + "\n" + "}" == "{\n}";
    assert !("[" <= "{\n}");
  }

  lemma BlankEndsAreLost(keys: seq<Name>, s: string)
    requires s == JoinKeys(keys) && s != "" && keys != [] && !EndsNotBlank(keys)
    ensures Lines(s) != keys
  {
    var newline := (c: char) => c == '\n';
    var i, j := TrimSlice(s, newline);
    var t := s[i..j];
    if t != "" {
      SplitEnds(t, '\n');
    } else if |keys| == 1 {
      assert Lines(s) == [Name("")];
      assert s == keys[0].text;
    }
  }

  // ---------- What reaches the database ----------

  /** A row that was saved is in step with its key text, whatever was saved, unless that text is an
      empty JSON array. */
  lemma SavedRowIsConsistent(stored: Row, next: Row, json: Json)
    ensures var row := Update(stored, next, json); Consistent(row, json) <==> !EmptyArray(row.key, json)
  {
  }

  /** Saving new statuses changes nothing else. */
  lemma SavedStatuses(row: Row, statuses: map<nat, int>, json: Json)
    requires Consistent(row, json) && InRange(statuses, row.size) && row.size > 0
    ensures var row' := Update(row, row.(statuses := statuses), json);
      && Records(row', json) == RecordsOf(GetKeys(row.key, json), statuses, row.times, row.reasons)
      && Consistent(row', json)
  {
    assert Update(row, row.(statuses := statuses), json).statuses == statuses;
  }

  /** Saving a shorter key list means what it should exactly when some key remains and the remaining
      keys survive being stored as lines. */
  lemma SavedRecords(stored: Row, keys: seq<Name>, statuses: map<nat, int>, times: map<nat, int>,
                     reasons: map<nat, Reason>, json: Json)
    requires |keys| < |GetKeys(stored.key, json)| && InRange(statuses, |keys|)
    ensures var row := Update(stored, Row(JoinKeys(keys), |keys|, statuses, times, reasons), json);
      && (Records(row, json) == RecordsOf(keys, statuses, times, reasons) <==> keys != [] && Rereads(keys, json))
      && (keys != [] && Rereads(keys, json) ==> Consistent(row, json))
  {
    var row := Update(stored, Row(JoinKeys(keys), |keys|, statuses, times, reasons), json);
    var want := RecordsOf(keys, statuses, times, reasons);
    if JoinKeys(keys) == "" {
      assert |Records(row, json)| > |want|;
    } else if Rereads(keys, json) {
      assert row.statuses == statuses;
    } else if Records(row, json) == want {
      var found := GetKeys(row.key, json);
      forall i | 0 <= i < |keys| ensures found[i] == keys[i] {
        assert Records(row, json)[i].key == want[i].key;
      }
    }
  }

  /** What a deletion writes: the joined keys, unless they are empty, and the states by new index. */
  predicate Wrote(before: Row, after: Row, want: seq<Record>, json: Json) {
    && after.key == (if JoinKeys(KeysOf(want)) != "" then JoinKeys(KeysOf(want)) else before.key)
    && after.size == CountKeys(after.key, json)
    && InRange(after.statuses, |want|) && InRange(after.times, |want|) && InRange(after.reasons, |want|)
    && forall i :: 0 <= i < |want| ==>
         && (i < after.size ==> want[i].status == if i in after.statuses then after.statuses[i] else ENABLED)
         && want[i].time == (if i in after.times then Some(after.times[i]) else None)
         && want[i].reason == (if i in after.reasons then Some(after.reasons[i]) else None)
  }

  lemma SavingWrites(stored: Row, keys: seq<Name>, statuses: map<nat, int>, times: map<nat, int>,
                     reasons: map<nat, Reason>, want: seq<Record>, json: Json)
    requires Describes(keys, statuses, times, reasons, want) && keys == KeysOf(want)
    ensures Wrote(stored, Update(stored, Row(JoinKeys(keys), |keys|, statuses, times, reasons), json), want, json)
  {
    forall i | 0 <= i < |want| ensures want[i] == RecordAt(keys, statuses, times, reasons, i) {
    }
  }

  /** Deleting the auto-disabled keys when every key is auto-disabled deletes none: the empty key text
      does not reach the database, the cleared maps do, and every key is enabled again. */
  lemma AllAutoDisabledComesBack(before: Row, after: Row, json: Json)
    requires forall i :: 0 <= i < |Records(before, json)| ==> Records(before, json)[i].status == AUTO_DISABLED
    requires Wrote(before, after, DropAutoDisabled(Records(before, json)), json)
    ensures Records(after, json) == EnableAll(Records(before, json))
  {
    DropAll(Records(before, json));
    assert KeysOf([]) == [] && JoinKeys([]) == "";
  }

  lemma {:induction false} DropAll(rs: seq<Record>)
    requires forall i :: 0 <= i < |rs| ==> rs[i].status == AUTO_DISABLED
    ensures DropAutoDisabled(rs) == []
  {
    if rs != [] {
      DropAll(rs[..|rs| - 1]);
    }
  }

  /** Dropping removes every auto-disabled record and none of another status. */
  lemma {:induction false} DropKeepsCounts(rs: seq<Record>, status: int)
    ensures CountOf(DropAutoDisabled(rs), status) == if status == AUTO_DISABLED then 0 else CountOf(rs, status)
  {
    if rs != [] {
      var last, init := rs[|rs| - 1], DropAutoDisabled(rs[..|rs| - 1]);
      DropKeepsCounts(rs[..|rs| - 1], status);
      assert (init + [last])[..|init|] == init && (init + [Enabled(last)])[..|init|] == init;
    }
  }

  /** Each survivor is where as many survive before it, as it was, but without time and reason when it
      is enabled. */
  lemma {:induction false} DropKeepsSurvivors(rs: seq<Record>, i: nat)
    requires i < |rs| && rs[i].status != 3
    ensures var at, kept := |DropAutoDisabled(rs[..i])|, DropAutoDisabled(rs);
      && at < |kept|
      && kept[at] == if rs[i].status == 1 then rs[i].(time := None, reason := None) else rs[i]
  {
    var n := |rs| - 1;
    if i < n {
      assert rs[..n][..i] == rs[..i];
      DropKeepsSurvivors(rs[..n], i);
    }
  }

  /** Disabling all changes the status of the enabled records, and enabling all resets every record. */
  lemma AllAtOnce(rs: seq<Record>, i: nat)
    requires i < |rs|
    ensures |DisableAll(rs)| == |rs| && DisableAll(rs)[i] == if rs[i].status == 1 then rs[i].(status := 2) else rs[i]
    ensures |EnableAll(rs)| == |rs| && EnableAll(rs)[i] == Record(rs[i].key, 1, None, None)
  {
  }

  /** Deleting one record moves the later ones up by one. */
  lemma DeleteMovesUp(rs: seq<Record>, i: nat, k: nat)
    requires i < |rs| && k < |rs| && k != i
    ensures |DeleteAt(rs, i)| == |rs| - 1 && DeleteAt(rs, i)[if k < i then k else k - 1] == rs[k]
  {
  }

  /** The records of a row are its keys with what the maps say at their indices: no entry is enabled. */
  lemma RecordsShow(row: Row, json: Json, i: nat)
    requires i < |GetKeys(row.key, json)|
    ensures var rs := Records(row, json);
      && |rs| == |GetKeys(row.key, json)| && rs[i].key == GetKeys(row.key, json)[i]
      && rs[i].status == (if i in row.statuses then row.statuses[i] else 1)
      && rs[i].time == (if i in row.times then Some(row.times[i]) else None)
      && rs[i].reason == (if i in row.reasons then Some(row.reasons[i]) else None)
    ensures KeysOf(Records(row, json)) == GetKeys(row.key, json)
  {
  }

  function Having(rs: seq<Record>, status: int): set<int> {
    set i | 0 <= i < |rs| && rs[i].status == status
  }

  lemma HavingLast(rs: seq<Record>, status: int)
    requires rs != []
    ensures var n := |rs| - 1;
      Having(rs, status) == Having(rs[..n], status) + (if rs[n].status == status then {n} else {})
      && n !in Having(rs[..n], status)
  {
    var n := |rs| - 1;
    forall i ensures i in Having(rs, status)
                <==> i in Having(rs[..n], status) || (i == n && rs[n].status == status) {
      assert 0 <= i < n ==> rs[..n][i] == rs[i];
    }
  }

  /** The count of a status is the number of indices that have it. */
  lemma {:induction false} CountIsCardinality(rs: seq<Record>, status: int)
    ensures CountOf(rs, status) == |Having(rs, status)|
  {
    if rs == [] {
      assert Having(rs, status) == {};
    } else {
      CountIsCardinality(rs[..|rs| - 1], status);
      HavingLast(rs, status);
    }
  }

  /** Key text that parses as an array is its elements; one that only looks like an array is its lines. */
  lemma ArrayKeysAreElements(key: string, json: Json)
    requires key != "" && "[" <= TrimSpace(key)
    ensures json(TrimSpace(key)).Some? ==> GetKeys(key, json) == json(TrimSpace(key)).value
    ensures json(TrimSpace(key)).None? ==> JoinKeys(GetKeys(key, json)) == Trim(key, c => c == '\n')
    ensures GetKeys("", json) == []
  {
    var text := Trim(key, c => c == '\n');
    assert TextsOf(Names(Split(text, '\n'))) == Split(text, '\n');
    JoinSplit(text, '\n');
  }

  /** Plain key text is its lines, without those that are empty at either end. */
  lemma PlainKeysAreLines(key: string, json: Json)
    requires key != "" && !("[" <= TrimSpace(key))
    ensures JoinKeys(GetKeys(key, json)) == Trim(key, c => c == '\n')
    ensures forall k :: k in GetKeys(key, json) ==> '\n' !in k.text
  {
    var text := Trim(key, c => c == '\n');
    assert TextsOf(Names(Split(text, '\n'))) == Split(text, '\n');
    JoinSplit(text, '\n');
  }

  /** Nothing is dropped exactly when nothing is auto-disabled. */
  lemma {:induction false} DropShortens(rs: seq<Record>)
    ensures |DropAutoDisabled(rs)| <= |rs|
    ensures |DropAutoDisabled(rs)| == |rs| <==> forall i :: 0 <= i < |rs| ==> rs[i].status != AUTO_DISABLED
  {
    if rs != [] {
      DropShortens(rs[..|rs| - 1]);
    }
  }

  // ---------- Re-indexing ----------

  /** The maps built so far describe these records and no key that is not there yet. */
  predicate Describes(keys: seq<Name>, statuses: map<nat, int>, times: map<nat, int>, reasons: map<nat, Reason>,
                      rs: seq<Record>) {
    && RecordsOf(keys, statuses, times, reasons) == rs
    && InRange(statuses, |keys|) && InRange(times, |keys|) && InRange(reasons, |keys|)
  }

  predicate InRange<V>(m: map<nat, V>, n: nat) {
    forall i :: i in m ==> i < n
  }

  /** m with a value at n, if there is one. */
  function Put<V>(m: map<nat, V>, n: nat, v: Option<V>): map<nat, V> {
    if v.Some? then m[n := v.value] else m
  }

  lemma DescribesNext(keys: seq<Name>, statuses: map<nat, int>, times: map<nat, int>, reasons: map<nat, Reason>,
                      rs: seq<Record>, r: Record)
    requires Describes(keys, statuses, times, reasons, rs)
    ensures Describes(keys + [r.key],
                      Put(statuses, |keys|, if r.status == ENABLED then None else Some(r.status)),
                      Put(times, |keys|, r.time), Put(reasons, |keys|, r.reason), rs + [r])
  {
    var n := |keys|;
    var statuses', times', reasons' := Put(statuses, n, if r.status == ENABLED then None else Some(r.status)),
                                       Put(times, n, r.time), Put(reasons, n, r.reason);
    var got := RecordsOf(keys + [r.key], statuses', times', reasons');
    forall i | 0 <= i <= n ensures got[i] == (rs + [r])[i] {
      if i < n {
        assert rs[i] == RecordAt(keys, statuses, times, reasons, i);
      }
    }
  }

  /** The first i enabled records are disabled in these statuses, and `count` of them were enabled. */
  predicate DisabledUpTo(row: Row, json: Json, statuses: map<nat, int>, i: nat, count: nat)
    requires i <= |GetKeys(row.key, json)|
  {
    var rs := Records(row, json);
    && InRange(statuses, |rs|)
    && RecordsOf(GetKeys(row.key, json), statuses, row.times, row.reasons) == DisableUpTo(rs, i)
    && count == CountOf(rs[..i], ENABLED)
  }

  lemma DisabledFirst(row: Row, json: Json)
    requires Consistent(row, json)
    ensures DisabledUpTo(row, json, row.statuses, 0, 0)
  {
  }

  lemma DisabledNext(row: Row, json: Json, statuses: map<nat, int>, i: nat, count: nat)
    requires i < |GetKeys(row.key, json)| && DisabledUpTo(row, json, statuses, i, count)
    ensures var enabled := (if i in statuses then statuses[i] else ENABLED) == ENABLED;
      DisabledUpTo(row, json, if enabled then statuses[i := MANUALLY_DISABLED] else statuses, i + 1,
                   if enabled then count + 1 else count)
  {
    var keys, rs := GetKeys(row.key, json), Records(row, json);
    var was := RecordsOf(keys, statuses, row.times, row.reasons);
    assert RecordAt(keys, statuses, row.times, row.reasons, i) == was[i] == DisableUpTo(rs, i)[i] == rs[i];
    var enabled := (if i in statuses then statuses[i] else ENABLED) == ENABLED;
    var statuses' := if enabled then statuses[i := MANUALLY_DISABLED] else statuses;
    var got, want := RecordsOf(keys, statuses', row.times, row.reasons), DisableUpTo(rs, i + 1);
    forall k | 0 <= k < |rs| ensures got[k] == want[k] {
      assert k != i ==> got[k] == was[k] == DisableUpTo(rs, i)[k] == want[k];
    }
    assert rs[..i + 1][..i] == rs[..i];
  }

  lemma DisabledLast(row: Row, json: Json, statuses: map<nat, int>, count: nat)
    requires DisabledUpTo(row, json, statuses, |GetKeys(row.key, json)|, count)
    ensures RecordsOf(GetKeys(row.key, json), statuses, row.times, row.reasons) == DisableAll(Records(row, json))
    ensures InRange(statuses, |GetKeys(row.key, json)|) && count == CountOf(Records(row, json), ENABLED)
  {
    var rs := Records(row, json);
    assert rs[..|rs|] == rs;
  }

  // ---------- The actions ----------

  /** The loop of disable_all_keys. */
  method DisableEnabled(row: Row, json: Json) returns (statuses: map<nat, int>, disabledCount: nat)
    requires Consistent(row, json)
    ensures RecordsOf(GetKeys(row.key, json), statuses, row.times, row.reasons) == DisableAll(Records(row, json))
    ensures InRange(statuses, row.size) && disabledCount == CountOf(Records(row, json), ENABLED)
  {
    statuses, disabledCount := row.statuses, 0;
    DisabledFirst(row, json);
    for i := 0 to row.size
      invariant DisabledUpTo(row, json, statuses, i, disabledCount)
    {
      DisabledNext(row, json, statuses, i, disabledCount);
      var status := ENABLED;
      if i in statuses {
        status := statuses[i];
      }
      if status == ENABLED {
        statuses := statuses[i := MANUALLY_DISABLED];
        disabledCount := disabledCount + 1;
      }
    }
    DisabledLast(row, json, statuses, disabledCount);
  }

  /** The first i records without the k-th. */
  function WithoutUpTo(rs: seq<Record>, k: nat, i: nat): seq<Record>
    requires k < |rs| && i <= |rs|
  {
    if i <= k then rs[..i] else rs[..k] + rs[k + 1..i]
  }

  lemma WithoutNext(rs: seq<Record>, k: nat, i: nat)
    requires k < |rs| && i < |rs|
    ensures WithoutUpTo(rs, k, i + 1) == WithoutUpTo(rs, k, i) + if i == k then [] else [rs[i]]
    ensures WithoutUpTo(rs, k, |rs|) == DeleteAt(rs, k)
  {
    if i < k {
      SliceGrows(rs, 0, i);
    } else if i == k {
      assert rs[k + 1..i + 1] == [];
      assert rs[..k] + [] == rs[..k];
    } else {
      SliceGrows(rs, k + 1, i);
      assert rs[..k] + (rs[k + 1..i] + [rs[i]]) == (rs[..k] + rs[k + 1..i]) + [rs[i]];
    }
    assert rs[k + 1..|rs|] == rs[k + 1..];
  }

  lemma SliceGrows(rs: seq<Record>, from: nat, i: nat)
    requires from <= i < |rs|
    ensures rs[from..i + 1] == rs[from..i] + [rs[i]]
  {
  }

  /** The loop of delete_key. */
  method KeepOthers(row: Row, keyIndex: nat, json: Json)
    returns (remaining: seq<Name>, statuses: map<nat, int>, times: map<nat, int>, reasons: map<nat, Reason>)
    requires keyIndex < |Records(row, json)|
    ensures var want := DeleteAt(Records(row, json), keyIndex);
      Describes(remaining, statuses, times, reasons, want) && remaining == KeysOf(want)
  {
    var keys := GetKeys(row.key, json);
    remaining, statuses, times, reasons := [], map[], map[], map[];
    var newIndex := 0;
    ghost var rs, done := Records(row, json), [];
    for i := 0 to |keys|
      invariant newIndex == |remaining| && done == WithoutUpTo(rs, keyIndex, i)
      invariant Describes(remaining, statuses, times, reasons, done)
    {
      WithoutNext(rs, keyIndex, i);
      if i == keyIndex {
        continue;
      }
      assert rs[i] == RecordAt(keys, row.statuses, row.times, row.reasons, i);
      DescribesNext(remaining, statuses, times, reasons, done, rs[i]);
      done := done + [rs[i]];
      remaining := remaining + [keys[i]];
      if i in row.statuses && row.statuses[i] != ENABLED {
        statuses := statuses[newIndex := row.statuses[i]];
      }
      if i in row.times {
        times := times[newIndex := row.times[i]];
      }
      if i in row.reasons {
        reasons := reasons[newIndex := row.reasons[i]];
      }
      newIndex := newIndex + 1;
    }
    assert remaining == KeysOf(done);
  }

  /** The loop of delete_disabled_keys. */
  method KeepUsable(row: Row, json: Json)
    returns (remaining: seq<Name>, statuses: map<nat, int>, times: map<nat, int>, reasons: map<nat, Reason>,
             deletedCount: nat)
    ensures var want := DropAutoDisabled(Records(row, json));
      && Describes(remaining, statuses, times, reasons, want) && remaining == KeysOf(want)
      && deletedCount == |Records(row, json)| - |want|
  {
    var keys := GetKeys(row.key, json);
    remaining, statuses, times, reasons, deletedCount := [], map[], map[], map[], 0;
    var newIndex := 0;
    ghost var rs, done := Records(row, json), [];
    for i := 0 to |keys|
      invariant done == DropAutoDisabled(rs[..i])
      invariant newIndex == |remaining| && deletedCount == i - |done|
      invariant Describes(remaining, statuses, times, reasons, done)
    {
      assert rs[i] == RecordAt(keys, row.statuses, row.times, row.reasons, i);
      assert rs[..i + 1][..i] == rs[..i];
      var status := ENABLED;
      if i in row.statuses {
        status := row.statuses[i];
      }
      if status == AUTO_DISABLED {
        deletedCount := deletedCount + 1;
      } else {
        ghost var kept := if status == ENABLED then Enabled(rs[i]) else rs[i];
        DescribesNext(remaining, statuses, times, reasons, done, kept);
        done := done + [kept];
        remaining := remaining + [keys[i]];
        if status != ENABLED {
          statuses := statuses[newIndex := status];
          if i in row.times {
            times := times[newIndex := row.times[i]];
          }
          if i in row.reasons {
            reasons := reasons[newIndex := row.reasons[i]];
          }
        }
        newIndex := newIndex + 1;
      }
    }
    assert rs[..|rs|] == rs;
    assert remaining == KeysOf(done);
  }

  datatype Response = Done(count: nat) | Rejected(message: string) | SaveFailed

  class MultiKeyChannel {
    var row: Row

    constructor (r: Row)
      ensures row == r
    {
      row := r;
    }

    /** channel.Update(); when the database refuses, the row stays. */
    method Save(next: Row, json: Json, saves: bool) returns (ok: bool)
      modifies this
      ensures ok == saves
      ensures row == if saves then Update(old(row), next, json) else old(row)
    {
      ok := saves;
      if saves {
        row := Update(row, next, json);
      }
    }

    method DisableKey(index: Option<int>, json: Json, saves: bool) returns (r: Response)
      requires Consistent(row, json)
      modifies this
      ensures r.Rejected? <==> index.None? || index.value < 0 || index.value >= old(row).size
      ensures !r.Done? ==> row == old(row)
      ensures r.Done? ==>
        var rs := Records(old(row), json);
        Records(row, json) == rs[index.value := rs[index.value].(status := MANUALLY_DISABLED)] && Consistent(row, json)
    {
      if index.None? {
        return Rejected("key index missing");
      }
      var keyIndex := index.value;
      if keyIndex < 0 || keyIndex >= row.size {
        return Rejected("key index out of range");
      }
      var next := row.(statuses := row.statuses[keyIndex := MANUALLY_DISABLED]);
      var ok := Save(next, json, saves);
      if !ok {
        return SaveFailed;
      }
      return Done(1);
    }

    method EnableKey(index: Option<int>, json: Json, saves: bool) returns (r: Response)
      requires Consistent(row, json)
      modifies this
      ensures r.Rejected? <==> index.None? || index.value < 0 || index.value >= old(row).size
      ensures !r.Done? ==> row == old(row)
      ensures r.Done? ==>
        var rs := Records(old(row), json);
        Records(row, json) == rs[index.value := Enabled(rs[index.value])] && Consistent(row, json)
    {
      if index.None? {
        return Rejected("key index missing");
      }
      var keyIndex := index.value;
      if keyIndex < 0 || keyIndex >= row.size {
        return Rejected("key index out of range");
      }
      var next := row.(statuses := row.statuses - {keyIndex}, times := row.times - {keyIndex},
                       reasons := row.reasons - {keyIndex});
      var ok := Save(next, json, saves);
      if !ok {
        return SaveFailed;
      }
      return Done(1);
    }

    method EnableAllKeys(json: Json, saves: bool) returns (r: Response)
      requires Consistent(row, json)
      modifies this
      ensures !r.Rejected? && (!r.Done? ==> row == old(row))
      ensures r.Done? ==> Records(row, json) == EnableAll(Records(old(row), json))
      ensures r.Done? ==> r.count == |old(row).statuses| && (Consistent(row, json) <==> !EmptyArray(row.key, json))
    {
      var enabledCount := |row.statuses|;
      var next := row.(statuses := map[], times := map[], reasons := map[]);
      var ok := Save(next, json, saves);
      if !ok {
        return SaveFailed;
      }
      return Done(enabledCount);
    }

    method DisableAllKeys(json: Json, saves: bool) returns (r: Response)
      requires Consistent(row, json)
      modifies this
      ensures r.Rejected? <==> CountOf(Records(old(row), json), ENABLED) == 0
      ensures !r.Done? ==> row == old(row)
      ensures r.Done? ==> r.count == CountOf(Records(old(row), json), ENABLED)
      ensures r.Done? ==> Records(row, json) == DisableAll(Records(old(row), json)) && Consistent(row, json)
    {
      var statuses, disabledCount := DisableEnabled(row, json);
      if disabledCount == 0 {
        return Rejected("no key to disable");
      }
      SavedStatuses(row, statuses, json);
      var ok := Save(row.(statuses := statuses), json, saves);
      if !ok {
        return SaveFailed;
      }
      return Done(disabledCount);
    }

    method DeleteKey(index: Option<int>, json: Json, saves: bool) returns (r: Response)
      requires Consistent(row, json)
      modifies this
      ensures r.Rejected? <==> index.None? || index.value < 0 || index.value >= old(row).size || old(row).size == 1
      ensures !r.Done? ==> row == old(row)
      ensures r.Done? ==>
        var want := DeleteAt(Records(old(row), json), index.value);
        && Wrote(old(row), row, want, json)
        && (Records(row, json) == want <==> Rereads(KeysOf(want), json))
        && (Rereads(KeysOf(want), json) ==> Consistent(row, json))
    {
      if index.None? {
        return Rejected("key index missing");
      }
      var keyIndex := index.value;
      if keyIndex < 0 || keyIndex >= row.size {
        return Rejected("key index out of range");
      }
      var remaining, statuses, times, reasons := KeepOthers(row, keyIndex, json);
      if |remaining| == 0 {
        return Rejected("cannot delete the last key");
      }
      SavedRecords(row, remaining, statuses, times, reasons, json);
      SavingWrites(row, remaining, statuses, times, reasons, DeleteAt(Records(row, json), keyIndex), json);
      var ok := Save(Row(JoinKeys(remaining), |remaining|, statuses, times, reasons), json, saves);
      if !ok {
        return SaveFailed;
      }
      return Done(1);
    }

    method DeleteDisabledKeys(json: Json, saves: bool) returns (r: Response)
      requires Consistent(row, json)
      modifies this
      ensures r.Rejected? <==>
        forall i :: 0 <= i < |Records(old(row), json)| ==> Records(old(row), json)[i].status != AUTO_DISABLED
      ensures !r.Done? ==> row == old(row)
      ensures r.Done? ==>
        var want := DropAutoDisabled(Records(old(row), json));
        && r.count == |Records(old(row), json)| - |want|
        && Wrote(old(row), row, want, json)
        && (Records(row, json) == want <==> want != [] && Rereads(KeysOf(want), json))
        && (want != [] && Rereads(KeysOf(want), json) ==> Consistent(row, json))
    {
      var remaining, statuses, times, reasons, deletedCount := KeepUsable(row, json);
      DropShortens(Records(row, json));
      if deletedCount == 0 {
        return Rejected("no auto-disabled key");
      }
      SavedRecords(row, remaining, statuses, times, reasons, json);
      SavingWrites(row, remaining, statuses, times, reasons, DropAutoDisabled(Records(row, json)), json);
      var ok := Save(Row(JoinKeys(remaining), |remaining|, statuses, times, reasons), json, saves);
      if !ok {
        return SaveFailed;
      }
      return Done(deletedCount);
    }
  }
}
