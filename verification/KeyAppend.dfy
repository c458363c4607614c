/** Appending keys to a channel with several keys: the append branch of UpdateChannel. */
module KeyAppend {
  import opened Options
  import opened MultiKeys
  import opened NameLists
  import opened Texts

  /** An element of a parsed JSON array: a string, or anything else as the JSON text it encodes to. */
  datatype Element = Str(text: string) | Other(text: string)

  /** What the request's key text is read as: one key a line, or JSON (a service-account channel). */
  datatype Format = PlainLines | JsonKeys(elements: string -> Option<seq<Element>>)

  // ---------- Specification ----------

  /** Key text that looks like a JSON array and is none. */
  predicate Malformed(key: string, json: Json) {
    Bracketed(key) && json(TrimSpace(key)).None?
  }

  /** The keys the append branch starts from. */
  function ExistingKeys(key: string, json: Json): seq<Name> {
    if Malformed(key, json) then [] else if Bracketed(key) then json(TrimSpace(key)).value else Lines(key)
  }

  function Shown(e: Element): Name {
    match e
    case Str(text) => Name(TrimSpace(text))
    case Other(text) => Name(text)
  }

  function ShownAll(es: seq<Element>): seq<Name> {
    seq(|es|, i requires 0 <= i < |es| => Shown(es[i]))
  }

  /** The keys a request offers; None when it is rejected. */
  function Offered(text: string, format: Format): Option<seq<Name>> {
    if format.PlainLines? then Some(Names(Split(text, '\n')))
    else if !Bracketed(text) then Some([Name(text)])
    else
      var parsed := format.elements(text);
      if parsed.None? || Filter(ShownAll(parsed.value), NotBlank) == [] then None else Some(ShownAll(parsed.value))
  }

  predicate NotBlank(x: Name) {
    !x.Blank()
  }

  /** What is appended: the offered keys, trimmed, each once, without those there already. */
  function Added(existing: seq<Name>, offered: seq<Name>): seq<Name> {
    Filter(Normalize(offered), x => x !in Normalize(existing))
  }

  // ---------- The append branch ----------

  /** The lines of the request, trimmed, without blank ones. */
  method PlainKeys(text: string) returns (newKeys: seq<Name>)
    ensures Normalize(newKeys) == Normalize(Names(Split(text, '\n')))
  {
    var inputKeys := Names(Split(text, '\n'));
    newKeys := [];
    for i := 0 to |inputKeys|
      invariant Normalize(newKeys) == Normalize(inputKeys[..i])
    {
      assert inputKeys[..i + 1][..i] == inputKeys[..i];
      var key := inputKeys[i].Trimmed();
      if !key.Blank() {
        TrimSpaceIdempotent(inputKeys[i].text);
        assert (newKeys + [key])[..|newKeys|] == newKeys;
        newKeys := newKeys + [key];
      }
    }
    assert inputKeys[..|inputKeys|] == inputKeys;
  }

  /** A blank name does not matter to Filter and Normalize. */
  lemma SkipBlank(clean: seq<Name>, shown: seq<Name>, i: nat)
    requires i < |shown| && clean == Filter(shown[..i], NotBlank) && Normalize(clean) == Normalize(shown[..i])
    ensures var next := if shown[i].Blank() then clean else clean + [shown[i]];
      next == Filter(shown[..i + 1], NotBlank) && Normalize(next) == Normalize(shown[..i + 1])
  {
    assert shown[..i + 1][..i] == shown[..i];
    assert (clean + [shown[i]])[..|clean|] == clean;
    assert shown[i].Blank() ==> shown[i].Trimmed() == shown[i];
  }

  method VertexArrayKeys(parsed: Option<seq<Element>>) returns (cleanKeys: Option<seq<Name>>)
    ensures cleanKeys.None? <==> parsed.None? || Filter(ShownAll(parsed.value), NotBlank) == []
    ensures cleanKeys.Some? ==> Normalize(cleanKeys.value) == Normalize(ShownAll(parsed.value))
  {
    if parsed.None? {
      return None;
    }
    var keyArray, clean := parsed.value, [];
    ghost var shown := ShownAll(keyArray);
    for i := 0 to |keyArray|
      invariant clean == Filter(shown[..i], NotBlank)
      invariant Normalize(clean) == Normalize(shown[..i])
    {
      SkipBlank(clean, shown, i);
      var key := Shown(keyArray[i]);
      if !key.Blank() {
        clean := clean + [key];
      }
    }
    assert shown[..|shown|] == shown;
    return if clean == [] then None else Some(clean);
  }

  /** The text stored for a channel that had keys, or None when the request is rejected. */
  method AppendKeys(key: string, text: string, format: Format, json: Json) returns (stored: Option<string>)
    ensures stored.None? <==> Offered(text, format).None?
    ensures stored.Some? ==>
      var existing := ExistingKeys(key, json);
      stored.value == JoinKeys(existing + Added(existing, Offered(text, format).value))
  {
    var existingKeys := ExistingKeys(key, json);
    var newKeys;
    if format.JsonKeys? && Bracketed(text) {
      var keyArray := VertexArrayKeys(format.elements(text));
      if keyArray.None? {
        return None;
      }
      newKeys := keyArray.value;
    } else if format.JsonKeys? {
      newKeys := [Name(text)];
    } else {
      newKeys := PlainKeys(text);
    }
    var deduped := Dedupe(existingKeys, newKeys);
    AddedCongruent(existingKeys, newKeys, Offered(text, format).value);
    stored := Some(JoinKeys(existingKeys + deduped));
  }

  lemma AddedCongruent(existing: seq<Name>, xs: seq<Name>, ys: seq<Name>)
    requires Normalize(xs) == Normalize(ys)
    ensures Added(existing, xs) == Added(existing, ys)
  {
  }

  /** The loops over `seen`. */
  method Dedupe(existingKeys: seq<Name>, newKeys: seq<Name>) returns (deduped: seq<Name>)
    ensures deduped == Added(existingKeys, newKeys)
  {
    var seen: set<Name> := {};
    for i := 0 to |existingKeys|
      invariant forall x :: x in seen <==> x in Normalize(existingKeys[..i])
    {
      assert existingKeys[..i + 1][..i] == existingKeys[..i];
      var normalized := existingKeys[i].Trimmed();
      if normalized.Blank() {
        continue;
      }
      seen := seen + {normalized};
    }
    assert existingKeys[..|existingKeys|] == existingKeys;
    deduped := [];
    for i := 0 to |newKeys|
      invariant deduped == Added(existingKeys, newKeys[..i])
      invariant forall x :: x in seen <==> x in Normalize(existingKeys) || x in Normalize(newKeys[..i])
    {
      AddedNext(existingKeys, newKeys, i);
      var normalized := newKeys[i].Trimmed();
      if normalized.Blank() {
        continue;
      }
      if normalized in seen {
        continue;
      }
      seen := seen + {normalized};
      deduped := deduped + [normalized];
    }
    assert newKeys[..|newKeys|] == newKeys;
  }

  lemma AddedNext(existing: seq<Name>, keys: seq<Name>, i: nat)
    requires i < |keys|
    ensures var x, had := keys[i].Trimmed(), Normalize(keys[..i]);
      && Normalize(keys[..i + 1]) == (if x.Blank() || x in had then had else had + [x])
      && Added(existing, keys[..i + 1])
         == Added(existing, keys[..i])
            + if x.Blank() || x in had || x in Normalize(existing) then [] else [x]
  {
    assert keys[..i + 1][..i] == keys[..i];
    var x, had := keys[i].Trimmed(), Normalize(keys[..i]);
    assert (had + [x])[..|had|] == had;
  }

  // ---------- What appending keeps ----------

  /** Offering more keys only adds at the end. */
  lemma {:induction false} AddedGrows(existing: seq<Name>, offered: seq<Name>, i: nat)
    requires i <= |offered|
    ensures Added(existing, offered[..i]) <= Added(existing, offered)
  {
    if i < |offered| {
      var n := |offered| - 1;
      assert offered[..n][..i] == offered[..i] && offered[..n + 1] == offered;
      AddedGrows(existing, offered[..n], i);
      AddedNext(existing, offered, n);
    } else {
      assert offered[..i] == offered;
    }
  }

  /** Plain text offers its lines. */
  lemma PlainOffer(text: string)
    ensures Offered(text, PlainLines).Some? && JoinKeys(Offered(text, PlainLines).value) == text
    ensures forall k :: k in Offered(text, PlainLines).value ==> '\n' !in k.text
  {
    assert TextsOf(Names(Split(text, '\n'))) == Split(text, '\n');
    JoinSplit(text, '\n');
  }

  /** The key an array element stands for: a string without the white space around it, or the JSON text
      of anything else. */
  predicate StandsFor(e: Element, k: Name) {
    if e.Str? then k.text == TrimSpace(e.text) else k.text == e.text
  }

  predicate AllEmpty(es: seq<Element>) {
    forall i :: 0 <= i < |es| ==> StandsFor(es[i], Name(""))
  }

  /** JSON text that does not look like an array is one key.  An array offers the keys of its elements,
      in order, and is rejected when it does not parse or all of these are empty. */
  lemma JsonOffer(text: string, elements: string -> Option<seq<Element>>)
    ensures var offered, parsed := Offered(text, JsonKeys(elements)), elements(text);
      if !("[" <= TrimSpace(text)) then offered == Some([Name(text)])
      else
        && (offered.None? <==> parsed.None? || AllEmpty(parsed.value))
        && (offered.Some? ==> |offered.value| == |parsed.value|)
        && (offered.Some? ==> forall i :: 0 <= i < |parsed.value| ==> StandsFor(parsed.value[i], offered.value[i]))
  {
    var parsed := elements(text);
    if "[" <= TrimSpace(text) && parsed.Some? {
      var shown := ShownAll(parsed.value);
      if AllEmpty(parsed.value) {
        FilterNone(shown, NotBlank);
      } else {
        var i :| 0 <= i < |parsed.value| && !StandsFor(parsed.value[i], Name(""));
        assert shown[i] in shown && NotBlank(shown[i]);
        assert shown[i] in Filter(shown, NotBlank);
      }
    }
  }

  /** The appended keys are trimmed, not blank, distinct, none there already, and no offered key that is
      not blank is lost. */
  lemma AddedIsNew(existing: seq<Name>, offered: seq<Name>, m: Name)
    ensures Clean(Added(existing, offered))
    ensures m in Added(existing, offered) ==> m !in Normalize(existing)
    ensures (m in Added(existing, offered) || m in Normalize(existing))
       <==> !m.Blank() && exists x :: x in existing + offered && x.Trimmed() == m
  {
    NormalizeIsClean(offered);
    FilterIsClean(Normalize(offered), x => x !in Normalize(existing));
    NormalizeMember(offered, m);
    NormalizeMember(existing, m);
    assert forall x :: x in existing + offered <==> x in existing || x in offered;
  }

  // ---------- What the saved row keeps ----------

  function AllKeys(key: string, offered: seq<Name>, json: Json): seq<Name> {
    ExistingKeys(key, json) + Added(ExistingKeys(key, json), offered)
  }

  /** The row after the request is saved. */
  function Saved(row: Row, offered: seq<Name>, json: Json): Row {
    Update(row, row.(key := JoinKeys(AllKeys(row.key, offered, json))), json)
  }

  /** Stored and read again, `all` still begins with `existing`: nothing is written, or what is written
      reads as an array that does, or as lines that do. */
  predicate KeepsPrefix(existing: seq<Name>, all: seq<Name>, json: Json) {
    var text := JoinKeys(all);
    || text == ""
    || if IsArray(text, json) then existing <= json(TrimSpace(text)).value
       else EndsNotBlank(all) && OneLineEach(existing)
  }

  /** The keys that were there are a prefix of those read from the saved row if and only if none of them
      has a newline and the list does not begin or end with an empty key (or it is an array again). */
  lemma ExistingStayPrefix(row: Row, offered: seq<Name>, json: Json)
    requires row.key != "" && !Malformed(row.key, json)
    ensures GetKeys(row.key, json) <= GetKeys(Saved(row, offered, json).key, json)
       <==> KeepsPrefix(GetKeys(row.key, json), AllKeys(row.key, offered, json), json)
  {
    var existing, all := GetKeys(row.key, json), AllKeys(row.key, offered, json);
    var text := JoinKeys(all);
    if text != "" && !IsArray(text, json) && existing != [] {
      AddedEnds(existing, offered);
      if EndsNotBlank(all) && OneLineEach(existing) {
        LinesKeepPrefix(existing, Added(existing, offered));
      } else if existing <= Lines(text) {
        PrefixHasEnds(existing, Added(existing, offered));
      }
    } else if text != "" && existing == [] {
      AddedEnds(existing, offered);
    }
  }

  /** The last added key, if any, ends visibly. */
  lemma AddedEnds(existing: seq<Name>, offered: seq<Name>)
    ensures VisibleEnds(Added(existing, offered))
  {
    NormalizeIsClean(offered);
    var added := Added(existing, offered);
    FilterIsClean(Normalize(offered), x => x !in Normalize(existing));
    if added != [] {
      assert added[0] in added && added[|added| - 1] in added;
      TidyEnds(added[0]);
      TidyEnds(added[|added| - 1]);
    }
  }

  lemma TidyEnds(x: Name)
    requires Tidy(x)
    ensures x.text != "" && NoDroppedEnds(x.text, IsSpace)
  {
    var i, j := TrimSlice(x.text, IsSpace);
  }

  predicate VisibleEnds(xs: seq<Name>) {
    xs != [] ==>
      var first, last := xs[0].text, xs[|xs| - 1].text;
      first != "" && last != "" && !IsSpace(first[0]) && !IsSpace(last[|last| - 1])
  }

  lemma LinesKeepPrefix(existing: seq<Name>, added: seq<Name>)
    requires existing != [] && OneLineEach(existing) && EndsNotBlank(existing + added) && VisibleEnds(added)
    ensures existing <= Lines(JoinKeys(existing + added))
  {
    var xs, ys := TextsOf(existing), TextsOf(added);
    assert TextsOf(existing + added) == xs + ys;
    assert forall i :: 0 <= i < |xs| ==> existing[i] in existing;
    JoinedIsTrimmed(existing, added);
    if added == [] {
      SplitJoin(xs, '\n');
      assert xs + ys == xs;
    } else {
      SplitJoined(xs, ys, '\n');
    }
    assert Names(xs) == existing;
  }

  lemma JoinedEndChars(all: seq<Name>)
    requires all != [] && EndsNotBlank(all)
    ensures var text, last := JoinKeys(all), all[|all| - 1].text;
      text != "" && text[0] == all[0].text[0] && text[|text| - 1] == last[|last| - 1]
  {
    JoinEnds(TextsOf(all), '\n');
    var text, last := JoinKeys(all), all[|all| - 1].text;
    assert text[|text| - 1] == text[|text| - |last|..][|last| - 1];
  }

  lemma JoinedIsTrimmed(existing: seq<Name>, added: seq<Name>)
    requires existing != [] && OneLineEach(existing) && EndsNotBlank(existing + added) && VisibleEnds(added)
    ensures Trim(JoinKeys(existing + added), c => c == '\n') == JoinKeys(existing + added)
  {
    JoinedEndChars(existing + added);
    assert OneLine(existing[0]) && OneLine(existing[|existing| - 1]) by {
      assert existing[0] in existing && existing[|existing| - 1] in existing;
    }
    TrimFixpoint(JoinKeys(existing + added), c => c == '\n');
  }

  /** Keys that reappear as the first lines have no newlines, and the list no empty end. */
  lemma PrefixHasEnds(existing: seq<Name>, added: seq<Name>)
    requires existing != [] && existing <= Lines(JoinKeys(existing + added)) && VisibleEnds(added)
    requires JoinKeys(existing + added) != ""
    ensures OneLineEach(existing) && EndsNotBlank(existing + added)
  {
    forall x | x in existing ensures OneLine(x) {
      var k :| 0 <= k < |existing| && existing[k] == x;
      assert Lines(JoinKeys(existing + added))[k] == x;
    }
    var text := JoinKeys(existing + added);
    var i, j := TrimSlice(text, c => c == '\n');
    if text[i..j] == "" {
      OnlyNewlines(existing + added, text, i, j);
    } else {
      SplitEnds(text[i..j], '\n');
      assert existing[0] == Lines(text)[0];
      if added == [] {
        assert existing + added == existing;
        LastLineNotBlank(existing, text, i, j);
      }
    }
  }

  lemma LastLineNotBlank(existing: seq<Name>, text: string, i: nat, j: nat)
    requires existing != [] && OneLineEach(existing) && text == JoinKeys(existing) && i <= j <= |text|
    requires text[i..j] == Trim(text, c => c == '\n') && existing <= Lines(text)
    requires var parts := Split(text[i..j], '\n'); parts[|parts| - 1] != ""
    ensures !existing[|existing| - 1].Blank()
  {
    assert forall k :: 0 <= k < |existing| ==> existing[k] in existing;
    SplitJoin(TextsOf(existing), '\n');
    SplitSlice(text, i, j, '\n');
    assert |Lines(text)| <= |existing|;
  }

  lemma OnlyNewlines(all: seq<Name>, text: string, i: nat, j: nat)
    requires all != [] && text == JoinKeys(all) && i <= j <= |text| && text[i..j] == ""
    requires forall k :: 0 <= k < i || j <= k < |text| ==> text[k] == '\n'
    ensures var last := all[|all| - 1].text; forall k :: 0 <= k < |last| ==> last[k] == '\n'
  {
    JoinEnds(TextsOf(all), '\n');
    var last := all[|all| - 1].text;
    forall k | 0 <= k < |last| ensures last[k] == '\n' {
      assert text[|text| - |last|..][k] == last[k];
    }
  }

  /** Stored and read again, `all` is what it was. */
  predicate KeepsAll(all: seq<Name>, json: Json) {
    var text := JoinKeys(all);
    || text == ""
    || if IsArray(text, json) then json(TrimSpace(text)).value == all else EndsNotBlank(all) && OneLineEach(all)
  }

  /** Exactly the old keys and the added ones are read from the saved row if and only if none of all
      these has a newline and the list does not begin or end with an empty key (or it is an array again). */
  lemma AppendStoresAll(row: Row, offered: seq<Name>, json: Json)
    requires row.key != "" && !Malformed(row.key, json)
    ensures GetKeys(Saved(row, offered, json).key, json) == AllKeys(row.key, offered, json)
       <==> KeepsAll(AllKeys(row.key, offered, json), json)
  {
    var existing, all := GetKeys(row.key, json), AllKeys(row.key, offered, json);
    if JoinKeys(all) == "" {
      AddedEnds(existing, offered);
      EmptyJoinAddsNothing(existing, Added(existing, offered));
    } else if !IsArray(JoinKeys(all), json) {
      RereadsIffPlain(all, json);
      assert OneLineEach(all) <==> forall i :: 0 <= i < |all| ==> OneLine(all[i]);
    }
  }

  lemma EmptyJoinAddsNothing(existing: seq<Name>, added: seq<Name>)
    requires JoinKeys(existing + added) == "" && VisibleEnds(added)
    ensures added == []
  {
    if added != [] {
      JoinEnds(TextsOf(existing + added), '\n');
    }
  }

  // ---------- When the stored keys are no array ----------

  /** Visible, and not beginning like an array. */
  predicate PlainKey(x: Name) {
    TrimSpace(x.text) != "" && !Bracketed(x.text)
  }

  /** Keys of which the first is plain are never read as an array. */
  lemma PlainFirstIsNoArray(all: seq<Name>, json: Json)
    requires all != [] && PlainKey(all[0])
    ensures JoinKeys(all) != "" && !IsArray(JoinKeys(all), json)
  {
    var first, text := all[0].text, JoinKeys(all);
    JoinEnds(TextsOf(all), '\n');
    assert first <= text;
    var a, b := TrimSlice(first, IsSpace);
    FirstVisible(first, a);
    FirstVisible(text, a);
  }

  /** So for a channel whose first key is plain the conditions are about newlines and empty ends only. */
  lemma PlainFirstAppend(row: Row, offered: seq<Name>, json: Json)
    requires row.key != "" && !Malformed(row.key, json)
    requires GetKeys(row.key, json) != [] && PlainKey(GetKeys(row.key, json)[0])
    ensures var existing, all := GetKeys(row.key, json), AllKeys(row.key, offered, json);
      && (existing <= GetKeys(Saved(row, offered, json).key, json) <==> EndsNotBlank(all) && OneLineEach(existing))
      && (GetKeys(Saved(row, offered, json).key, json) == all <==> EndsNotBlank(all) && OneLineEach(all))
  {
    PlainFirstIsNoArray(AllKeys(row.key, offered, json), json);
    ExistingStayPrefix(row, offered, json);
    AppendStoresAll(row, offered, json);
  }

  /** Every record stays at its index, as it was, if and only if the keys stay a prefix. */
  lemma AppendKeepsRecords(row: Row, offered: seq<Name>, json: Json)
    requires Consistent(row, json) && row.key != "" && !Malformed(row.key, json)
    ensures Records(row, json) <= Records(Saved(row, offered, json), json)
       <==> KeepsPrefix(GetKeys(row.key, json), AllKeys(row.key, offered, json), json)
  {
    ExistingStayPrefix(row, offered, json);
    var row' := Saved(row, offered, json);
    var keys, keys' := GetKeys(row.key, json), GetKeys(row'.key, json);
    if keys <= keys' {
      forall i | 0 <= i < |keys| ensures Records(row, json)[i] == Records(row', json)[i] {
        assert keys[i] == keys'[i];
      }
    } else if Records(row, json) <= Records(row', json) {
      forall i | 0 <= i < |keys| ensures i < |keys'| && keys[i] == keys'[i] {
        assert Records(row, json)[i] == Records(row', json)[i];
      }
    }
  }

  /** The added records are enabled. */
  lemma AppendedAreEnabled(row: Row, offered: seq<Name>, json: Json, i: nat)
    requires Consistent(row, json) && row.key != ""
    requires row.size <= i < |Records(Saved(row, offered, json), json)|
    ensures Records(Saved(row, offered, json), json)[i].status == ENABLED
  {
  }

  /** A well-formed array of one element that spans two lines: appending nothing splits it in two. */
  lemma TwoLineElement(row: Row, json: Json)
    requires row.key == "[{\n}]" && json(row.key) == Some([Name("{\n}")])
    ensures !Malformed(row.key, json) && GetKeys(row.key, json) == [Name("{\n}")]
    ensures GetKeys(Saved(row, [], json).key, json) == [Name("{"), Name("}")]
  {
    TrimFixpoint("[{\n}]", IsSpace);
    var all := AllKeys(row.key, [], json);
    assert Added([Name("{\n}")], []) == [] && all == [Name("{\n}")];
    TwoLineKey(json);
  }

  // ---------- Malformed arrays ----------

  /** The lines these keys fall into. */
  function LinesOf(names: seq<Name>): seq<Name> {
    Names(Pieces(TextsOf(names), '\n'))
  }

  lemma LinesOfSingles(names: seq<Name>)
    requires OneLineEach(names)
    ensures LinesOf(names) == names
  {
    forall i | 0 <= i < |names| ensures '\n' !in TextsOf(names)[i] {
      assert names[i] in names;
    }
    PiecesOfWhole(TextsOf(names), '\n');
    assert Names(TextsOf(names)) == names;
  }

  lemma AddedAreLines(added: seq<Name>)
    requires added != [] && VisibleEnds(added)
    ensures JoinKeys(added) != "" && Lines(JoinKeys(added)) == LinesOf(added)
  {
    JoinedEndChars(added);
    TrimFixpoint(JoinKeys(added), c => c == '\n');
    SplitOfJoin(TextsOf(added), '\n');
  }

  /** Keys that look like an array and are none are replaced by the added ones, each as the lines it has,
      unless there are none (or they are an array themselves). */
  lemma MalformedIsReplaced(row: Row, offered: seq<Name>, json: Json)
    requires row.key != "" && Malformed(row.key, json)
    ensures var added := Added([], offered);
      GetKeys(Saved(row, offered, json).key, json)
      == if added == [] then GetKeys(row.key, json)
         else if IsArray(JoinKeys(added), json) then json(TrimSpace(JoinKeys(added))).value
         else LinesOf(added)
    ensures OneLineEach(offered) ==> LinesOf(Added([], offered)) == Added([], offered)
  {
    var added := Added([], offered);
    assert AllKeys(row.key, offered, json) == added;
    AddedEnds([], offered);
    if added != [] {
      AddedAreLines(added);
    }
    if OneLineEach(offered) {
      AddedLines([], offered);
      LinesOfSingles(added);
    }
  }

  lemma SingleAdded(x: Name)
    requires Tidy(x)
    ensures Added([], [x]) == [x]
  {
    CleanIsNormal([x]);
    FilterAll([x], y => y !in Normalize([]));
  }

  const X := Name("x")

  lemma XIsPlain(json: Json)
    ensures OneLineEach([X]) && Added([], [X]) == [X] && !IsArray(JoinKeys([X]), json)
  {
    TrimFixpoint("x", IsSpace);
    SingleAdded(X);
    assert JoinKeys([X]) == "x" && !("[" <= "x");
  }

  /** So some request always makes such keys disappear. */
  lemma MalformedIsLost(row: Row, json: Json)
    requires row.key != "" && Malformed(row.key, json)
    ensures GetKeys(Saved(row, [X], json).key, json) == [X] != GetKeys(row.key, json)
  {
    XIsPlain(json);
    MalformedIsReplaced(row, [X], json);
    BracketedIsNotX(row.key);
  }

  lemma BracketedIsNotX(key: string)
    requires Bracketed(key)
    ensures Lines(key) != [X]
  {
    var a, b := TrimSlice(key, IsSpace);
    assert key[a] == key[a..b][0] == '[';
    if Lines(key) == [X] {
      JoinedLines(key);
      assert JoinKeys([X]) == "x";
      var i, j := TrimSlice(key, c => c == '\n');
    }
  }

  predicate OneLineEach(xs: seq<Name>) {
    forall x :: x in xs ==> OneLine(x)
  }

  /** Plain keys with something visible in them always survive an append of single lines. */
  lemma PlainAppendRereads(key: string, offered: seq<Name>, json: Json)
    requires !Bracketed(key) && TrimSpace(key) != "" && OneLineEach(offered)
    ensures Rereads(GetKeys(key, json) + Added(GetKeys(key, json), offered), json)
  {
    var existing, added := GetKeys(key, json), Added(GetKeys(key, json), offered);
    var all := existing + added;
    AddedLines(existing, offered);
    VisibleLines(key);
    forall i | 0 <= i < |all| ensures OneLine(all[i]) {
      assert i >= |existing| ==> all[i] in added;
    }
    NormalizeIsClean(offered);
    assert added != [] ==> added[|added| - 1] in added;
    assert EndsNotBlank(all);
    JoinedStartsAlike(key, all);
    RereadsIffPlain(all, json);
  }

  lemma AddedLines(existing: seq<Name>, offered: seq<Name>)
    requires OneLineEach(offered)
    ensures OneLineEach(Added(existing, offered))
  {
    forall m | m in Added(existing, offered) ensures OneLine(m) {
      NormalizeMember(offered, m);
      var x :| x in offered && x.Trimmed() == m;
      var i, j := TrimSlice(x.text, IsSpace);
    }
  }

  /** Visible text has lines, and the first and the last are not empty. */
  lemma VisibleLines(key: string)
    requires TrimSpace(key) != ""
    ensures Lines(key) != [] && EndsNotBlank(Lines(key))
    ensures Lines(key) == Names(Split(Trim(key, c => c == '\n'), '\n'))
  {
    var newline := (c: char) => c == '\n';
    var i, j := TrimSlice(key, newline);
    var a, b := TrimSlice(key, IsSpace);
    assert !IsSpace(key[a]);
    assert i <= a < j;
    SplitEnds(key[i..j], '\n');
  }

  /** The joined text shows the same first visible character as the text it extends. */
  lemma JoinedStartsAlike(key: string, all: seq<Name>)
    requires TrimSpace(key) != "" && !Bracketed(key) && Lines(key) <= all
    ensures !Bracketed(JoinKeys(all))
  {
    var i, j := TrimSlice(key, c => c == '\n');
    var a, b := TrimSlice(key, IsSpace);
    assert i <= a < j;
    JoinedLines(key);
    JoinPrefix(TextsOf(Lines(key)), TextsOf(all));
    FirstVisible(key, a);
    assert forall k :: 0 <= k <= a - i ==> key[i..j][k] == key[i + k];
    assert forall k :: 0 <= k <= a - i ==> JoinKeys(all)[k] == key[i + k];
    FirstVisible(JoinKeys(all), a - i);
  }

  lemma JoinedLines(key: string)
    ensures JoinKeys(Lines(key)) == Trim(key, c => c == '\n')
  {
    var text := Trim(key, c => c == '\n');
    assert TextsOf(Names(Split(text, '\n'))) == Split(text, '\n');
    JoinSplit(text, '\n');
  }

  lemma FirstVisible(s: string, a: nat)
    requires a < |s| && !IsSpace(s[a]) && forall k :: 0 <= k < a ==> IsSpace(s[k])
    ensures TrimSpace(s) != "" && TrimSpace(s)[0] == s[a]
  {
    var c, d := TrimSlice(s, IsSpace);
    assert c == a < d;
  }

  lemma {:induction false} JoinPrefix(xs: seq<string>, ys: seq<string>)
    requires xs <= ys
    ensures Join(xs, '\n') <= Join(ys, '\n')
  {
    if |xs| > 1 {
      JoinPrefix(xs[1..], ys[1..]);
    }
  }
}
