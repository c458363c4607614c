/** Reconciling a channel's model list with the list its upstream publishes.

    Detection compares the two lists, modulo redirects and ignore rules, and stores two pending
    lists; an administrator then applies any selection of them.  Lists are ordered and free of
    duplicates; the channel's own list is stored as one comma-joined string. */
module UpstreamModels {
  import opened NameLists
  import opened Texts

  // ---------- The list algebra ----------

  function Merge(base: seq<Name>, appended: seq<Name>): seq<Name> {
    var merged := Normalize(base);
    merged + Filter(Normalize(appended), m => m !in merged)
  }

  function Subtract(base: seq<Name>, removed: seq<Name>): seq<Name> {
    var drop := Normalize(removed);
    Filter(Normalize(base), m => m !in drop)
  }

  function Intersect(base: seq<Name>, allowed: seq<Name>): seq<Name> {
    var keep := Normalize(allowed);
    Filter(Normalize(base), m => m in keep)
  }

  /** The selected changes; an addition wins over a removal of the same name. */
  function ApplySelected(origin: seq<Name>, add: seq<Name>, remove: seq<Name>): seq<Name> {
    var drop := Subtract(Normalize(remove), Normalize(add));
    Subtract(Merge(origin, Normalize(add)), drop)
  }

  /** mergeModelNames, with its set of names seen. */
  method MergeModelNames(base: seq<Name>, appended: seq<Name>) returns (merged: seq<Name>)
    ensures merged == Merge(base, appended)
  {
    var normalBase, added := Normalize(base), Normalize(appended);
    NormalizeIsClean(appended);
    merged := normalBase;
    var seen := ToSet(normalBase);
    for i := 0 to |added|
      invariant merged == normalBase + Without(added[..i], normalBase)
      invariant seen == Members(normalBase) + Members(added[..i])
    {
      MergeNext(normalBase, added, i);
      if added[i] !in seen {
        merged := merged + [added[i]];
      }
      seen := seen + {added[i]};
    }
    assert added[..|added|] == added;
    FilterCongruent(added, m => m !in normalBase, m => m !in Normalize(base));
  }

  function Members(names: seq<Name>): set<Name> {
    set m | m in names
  }

  lemma MergeNext(base: seq<Name>, added: seq<Name>, i: nat)
    requires i < |added| && Distinct(added)
    ensures added[i] in Members(base) + Members(added[..i]) <==> added[i] in base
    ensures Members(added[..i + 1]) == Members(added[..i]) + {added[i]}
    ensures Without(added[..i + 1], base) == Without(added[..i], base) + if added[i] in base then [] else [added[i]]
  {
    assert added[..i + 1][..i] == added[..i];
    assert added[..i + 1] == added[..i] + [added[i]];
    assert added[i] !in added[..i];
  }

  method ToSet(names: seq<Name>) returns (members: set<Name>)
    ensures members == Members(names)
  {
    members := {};
    for i := 0 to |names|
      invariant members == Members(names[..i])
    {
      members := members + {names[i]};
    }
    assert names[..|names|] == names;
  }

  /** subtractModelNames and intersectModelNames build the set of one list and filter the other. */
  method SubtractModelNames(base: seq<Name>, removed: seq<Name>) returns (left: seq<Name>)
    ensures left == Subtract(base, removed)
  {
    var removeSet := ToSet(Normalize(removed));
    left := Filter(Normalize(base), m => m !in removeSet);
    FilterCongruent(Normalize(base), m => m !in removeSet, m => m !in Normalize(removed));
  }

  method IntersectModelNames(base: seq<Name>, allowed: seq<Name>) returns (left: seq<Name>)
    ensures left == Intersect(base, allowed)
  {
    var allowedSet := ToSet(Normalize(allowed));
    left := Filter(Normalize(base), m => m in allowedSet);
    FilterCongruent(Normalize(base), m => m in allowedSet, m => m in Normalize(allowed));
  }

  // ---------- Detection ----------

  /** An ignore rule is a literal name or `regex:` and a pattern.  `rx(pattern, name)` is the
      regular-expression engine: true when the pattern is valid and matches. */
  type Regex = (string, Name) -> bool

  const REGEX_PREFIX := "regex:"

  predicate IsRegexRule(rule: Name) {
    REGEX_PREFIX <= rule.text
  }

  predicate RuleMatches(rule: Name, name: Name, rx: Regex) {
    if IsRegexRule(rule) then rx(TrimSpace(rule.text[|REGEX_PREFIX|..]), name) else rule == name
  }

  predicate Ignored(rules: seq<Name>, name: Name, rx: Regex) {
    exists r :: r in rules && RuleMatches(r, name, rx)
  }

  function PendingAdd(local: seq<Name>, upstream: seq<Name>, ignored: seq<Name>,
                      mapping: map<Name, Name>, rx: Regex): seq<Name>
  {
    var have, rules := Normalize(local), Normalize(ignored);
    Normalize(Filter(Normalize(upstream), m => m !in have && m !in mapping.Values && !Ignored(rules, m, rx)))
  }

  function PendingRemove(local: seq<Name>, upstream: seq<Name>, mapping: map<Name, Name>): seq<Name> {
    var published := Normalize(upstream);
    Normalize(Filter(Normalize(local), m => m !in mapping.Keys && m !in published))
  }

  // ---------- The stored model list ----------

  /** Channel.GetModels: the comma-joined string, taken apart again. */
  function GetModels(models: string): seq<Name> {
    if models == "" then [] else Names(Split(Trim(models, c => c == ','), ','))
  }

  function JoinModels(names: seq<Name>): string {
    Join(TextsOf(names), ',')
  }

  predicate HasComma(x: Name) {
    ',' in x.text
  }

  /** The models a channel has, as the code works with them. */
  function LocalModels(models: string): seq<Name> {
    Normalize(GetModels(models))
  }

  lemma LocalModelsHaveNoComma(models: string, x: Name)
    requires x in LocalModels(models)
    ensures !HasComma(x)
  {
    NormalizeMember(GetModels(models), x);
    var y :| y in GetModels(models) && y.Trimmed() == x;
    var i, j := TrimSlice(y.text, IsSpace);
    assert x.text == y.text[i..j];
  }

  /** Storing a clean list and reading it back loses nothing when no name has a comma. */
  lemma StoreAndLoad(names: seq<Name>)
    requires Clean(names) && forall x :: x in names ==> !HasComma(x)
    ensures LocalModels(JoinModels(names)) == names
  {
    var texts := TextsOf(names);
    if names != [] {
      var s := JoinModels(names);
      JoinEnds(texts, ',');
      assert Tidy(names[0]) && Tidy(names[|names| - 1]);
      assert names[0] in names && names[|names| - 1] in names;
      TrimFixpoint(s, c => c == ',');
      forall i | 0 <= i < |texts| ensures ',' !in texts[i] {
        assert names[i] in names && !HasComma(names[i]);
      }
      SplitJoin(texts, ',');
      assert Names(texts) == names;
    }
    CleanIsNormal(names);
  }

  /** What a list falls into when it is stored and read back, before it is normalized. */
  function PiecesOf(names: seq<Name>): seq<Name> {
    Names(Pieces(TextsOf(names), ','))
  }

  lemma LeadingCommaIsDropped(s: string)
    requires s != [] && s[0] == ','
    ensures Normalize(Names(Split(s, ','))) == Normalize(Names(Split(s[1..], ',')))
  {
    var rest := Split(s[1..], ',');
    assert Split(s, ',') == [[]] + rest;
    assert Names([[]] + rest) == [Name("")] + Names(rest);
    NormalizeSkipsBlank(Names(rest));
  }

  lemma {:induction false} TrimLeftKeepsNames(s: string, drop: char -> bool)
    requires forall c :: drop(c) <==> c == ','
    ensures Normalize(Names(Split(TrimLeft(s, drop), ','))) == Normalize(Names(Split(s, ',')))
  {
    if s != [] && drop(s[0]) {
      TrimLeftKeepsNames(s[1..], drop);
      LeadingCommaIsDropped(s);
    }
  }

  lemma NamesAppend(xs: seq<string>, ys: seq<string>)
    ensures Names(xs + ys) == Names(xs) + Names(ys)
  {
  }

  lemma TrailingCommaIsDropped(s: string)
    requires s != [] && s[|s| - 1] == ','
    ensures Normalize(Names(Split(s, ','))) == Normalize(Names(Split(s[..|s| - 1], ',')))
  {
    var parts := Split(s[..|s| - 1], ',');
    SplitTrailing(s, ',');
    NamesAppend(parts, [[]]);
    assert Names([[]]) == [Name("")];
    NormalizeSkipsBlank(Names(parts));
  }

  lemma {:induction false} TrimRightKeepsNames(s: string, drop: char -> bool)
    requires forall c :: drop(c) <==> c == ','
    ensures Normalize(Names(Split(TrimRight(s, drop), ','))) == Normalize(Names(Split(s, ',')))
  {
    if s != [] && drop(s[|s| - 1]) {
      TrimRightKeepsNames(s[..|s| - 1], drop);
      TrailingCommaIsDropped(s);
    }
  }

  /** Storing any list and reading it back yields its pieces, normalized. */
  lemma StoredAsPieces(names: seq<Name>)
    ensures LocalModels(JoinModels(names)) == Normalize(PiecesOf(names))
  {
    var texts, s := TextsOf(names), JoinModels(names);
    if names != [] {
      SplitOfJoin(texts, ',');
      TrimLeftKeepsNames(s, c => c == ',');
      TrimRightKeepsNames(TrimLeft(s, c => c == ','), c => c == ',');
      if s == "" {
        assert Names(Split(s, ',')) == [] + [Name("")];
        NormalizeSkipsBlank([]);
      }
    }
  }

  lemma PiecesOfBoth(xs: seq<Name>, ys: seq<Name>)
    ensures PiecesOf(xs + ys) == PiecesOf(xs) + PiecesOf(ys)
  {
    assert TextsOf(xs + ys) == TextsOf(xs) + TextsOf(ys);
    PiecesAppend(TextsOf(xs), TextsOf(ys), ',');
    NamesAppend(Pieces(TextsOf(xs), ','), Pieces(TextsOf(ys), ','));
  }

  lemma PiecesOfPlain(xs: seq<Name>, ys: seq<Name>)
    requires forall x :: x in xs ==> !HasComma(x)
    ensures PiecesOf(xs + ys) == xs + PiecesOf(ys)
  {
    PiecesOfBoth(xs, ys);
    forall i | 0 <= i < |xs| ensures ',' !in TextsOf(xs)[i] {
      assert xs[i] in xs;
    }
    PiecesOfWhole(TextsOf(xs), ',');
    assert Names(TextsOf(xs)) == xs;
  }

  lemma PieceHasNoComma(names: seq<Name>, x: Name)
    requires x in Normalize(PiecesOf(names))
    ensures !HasComma(x)
  {
    StoredAsPieces(names);
    LocalModelsHaveNoComma(JoinModels(names), x);
  }

  // ---------- Detecting and applying ----------

  datatype Settings = Settings(
    autoSync: bool, lastCheck: int, detected: seq<Name>, removed: seq<Name>, ignored: seq<Name>)

  datatype Channel = Channel(models: string, settings: Settings)

  /** What the upstream publishes, the channel's redirects, and the regular-expression engine. */
  datatype World = World(upstream: seq<Name>, mapping: map<Name, Name>, rx: Regex)

  function NextAdd(c: Channel, w: World): seq<Name> {
    PendingAdd(GetModels(c.models), w.upstream, c.settings.ignored, w.mapping, w.rx)
  }

  function NextRemove(c: Channel, w: World): seq<Name> {
    PendingRemove(GetModels(c.models), w.upstream, w.mapping)
  }

  /** A check that found the upstream list: either the additions are taken over at once, or both
      pending lists are stored. */
  function Check(c: Channel, w: World, allowAutoApply: bool, now: int): Channel {
    var add, remove := NextAdd(c, w), NextRemove(c, w);
    if allowAutoApply && c.settings.autoSync && |add| > 0 then
      var origin := LocalModels(c.models);
      var merged := Merge(origin, add);
      Channel(if |merged| > |origin| then JoinModels(merged) else c.models,
              c.settings.(lastCheck := now, detected := [], removed := remove))
    else
      c.(settings := c.settings.(lastCheck := now, detected := add, removed := remove))
  }

  datatype Selection = Selection(add: seq<Name>, ignore: seq<Name>, remove: seq<Name>)

  /** The part of a selection that is pending. */
  function ChosenAdd(c: Channel, sel: Selection): seq<Name> {
    Intersect(sel.add, Normalize(c.settings.detected))
  }

  function ChosenIgnore(c: Channel, sel: Selection): seq<Name> {
    Intersect(sel.ignore, Normalize(c.settings.detected))
  }

  function ChosenRemove(c: Channel, sel: Selection): seq<Name> {
    Subtract(Intersect(sel.remove, Normalize(c.settings.removed)), ChosenAdd(c, sel))
  }

  /** The lists the caller is told are still pending. */
  function RemainingAdd(c: Channel, sel: Selection): seq<Name> {
    Subtract(Normalize(c.settings.detected), ChosenAdd(c, sel) + ChosenIgnore(c, sel))
  }

  function RemainingRemove(c: Channel, sel: Selection): seq<Name> {
    Subtract(Normalize(c.settings.removed), ChosenRemove(c, sel))
  }

  function NextModels(c: Channel, sel: Selection): seq<Name> {
    ApplySelected(LocalModels(c.models), ChosenAdd(c, sel), ChosenRemove(c, sel))
  }

  function NextIgnored(c: Channel, sel: Selection): seq<Name> {
    var merged := Merge(c.settings.ignored, ChosenIgnore(c, sel));
    if |ChosenAdd(c, sel)| > 0 then Subtract(merged, ChosenAdd(c, sel)) else merged
  }

  function Apply(c: Channel, sel: Selection, now: int): Channel {
    var next := NextModels(c, sel);
    Channel(if next != LocalModels(c.models) then JoinModels(next) else c.models,
            c.settings.(ignored := NextIgnored(c, sel), detected := RemainingAdd(c, sel),
                        removed := RemainingRemove(c, sel), lastCheck := now))
  }

  /** The pending lists are what a check against `w` just stored. */
  predicate Fresh(c: Channel, w: World) {
    c.settings.detected == NextAdd(c, w) && c.settings.removed == NextRemove(c, w)
  }

  lemma CheckIsFresh(c: Channel, w: World, allowAutoApply: bool, now: int)
    requires !(allowAutoApply && c.settings.autoSync && |NextAdd(c, w)| > 0)
    ensures Fresh(Check(c, w, allowAutoApply, now), w)
  {
  }

  // ---------- What the operations produce ----------

  lemma PendingAreFilters(c: Channel, w: World)
    ensures var have, rules := LocalModels(c.models), Normalize(c.settings.ignored);
      NextAdd(c, w) == Filter(Normalize(w.upstream),
                              m => m !in have && m !in w.mapping.Values && !Ignored(rules, m, w.rx))
    ensures NextRemove(c, w) == Filter(LocalModels(c.models),
                                       m => m !in w.mapping.Keys && m !in Normalize(w.upstream))
    ensures Clean(NextAdd(c, w)) && Clean(NextRemove(c, w))
  {
    var have, rules := LocalModels(c.models), Normalize(c.settings.ignored);
    NormalizeIsClean(w.upstream);
    NormalizeIsClean(GetModels(c.models));
    FilterIsClean(Normalize(w.upstream), m => m !in have && m !in w.mapping.Values && !Ignored(rules, m, w.rx));
    CleanIsNormal(Filter(Normalize(w.upstream), m => m !in have && m !in w.mapping.Values && !Ignored(rules, m, w.rx)));
    FilterIsClean(have, m => m !in w.mapping.Keys && m !in Normalize(w.upstream));
    CleanIsNormal(Filter(have, m => m !in w.mapping.Keys && m !in Normalize(w.upstream)));
  }

  /** A rule that begins with `regex:` matches what its trimmed rest matches as a pattern, any other rule
      its own name only. */
  lemma RuleReads(body: string, rule: Name, name: Name, rx: Regex)
    ensures RuleMatches(Name("regex:" + body), name, rx) <==> rx(TrimSpace(body), name)
    ensures !("regex:" <= rule.text) ==> (RuleMatches(rule, name, rx) <==> rule == name)
  {
    assert ("regex:" + body)[6..] == body;
  }

  /** A rule keeps a name away: literally, or as a pattern. */
  predicate KeepsAway(rule: Name, x: Name, rx: Regex) {
    if "regex:" <= rule.text then rx(TrimSpace(rule.text[6..]), x) else rule == x
  }

  /** What detection finds: published names that are not local, nor the target of a redirect, nor kept
      away by a rule; and local names that are not published nor the source of a redirect. */
  lemma DetectedIff(c: Channel, w: World, x: Name)
    ensures x in NextAdd(c, w)
       <==> && x in Normalize(w.upstream) && x !in LocalModels(c.models) && x !in w.mapping.Values
            && forall r :: r in Normalize(c.settings.ignored) ==> !KeepsAway(r, x, w.rx)
    ensures x in NextRemove(c, w)
       <==> x in LocalModels(c.models) && x !in Normalize(w.upstream) && x !in w.mapping.Keys
  {
    PendingAreFilters(c, w);
    assert forall r :: RuleMatches(r, x, w.rx) == KeepsAway(r, x, w.rx);
  }

  /** The local models are the parts of the stored text between commas, trimmed, without blanks, each
      once, in order. */
  lemma LocalModelsAreParts(models: string)
    ensures LocalModels(models) == Normalize(Names(Split(models, ',')))
  {
    if models == "" {
      assert Names(Split(models, ',')) == [] + [Name("")];
      NormalizeSkipsBlank([]);
    } else {
      TrimLeftKeepsNames(models, c => c == ',');
      TrimRightKeepsNames(TrimLeft(models, c => c == ','), c => c == ',');
    }
  }

  /** What a check leaves: with automatic additions the local models and then the additions, and nothing
      pending to add; without them the models as they were, and both lists pending. */
  lemma CheckLeaves(c: Channel, w: World, allowAutoApply: bool, now: int)
    ensures var c' := Check(c, w, allowAutoApply, now);
      && c'.settings.lastCheck == now && c'.settings.autoSync == c.settings.autoSync
      && c'.settings.ignored == c.settings.ignored && c'.settings.removed == NextRemove(c, w)
      && if allowAutoApply && c.settings.autoSync && NextAdd(c, w) != []
         then c'.settings.detected == [] && c'.models == JoinModels(LocalModels(c.models) + NextAdd(c, w))
         else c'.settings.detected == NextAdd(c, w) && c'.models == c.models
  {
    AutoAddedAll(c, w);
  }

  /** The rules after applying: the old ones and then the newly ignored names, without the added names. */
  lemma NextIgnoredInOrder(c: Channel, sel: Selection)
    ensures NextIgnored(c, sel)
         == Filter(Merge(c.settings.ignored, ChosenIgnore(c, sel)), x => x !in ChosenAdd(c, sel))
  {
    var merged, add := Merge(c.settings.ignored, ChosenIgnore(c, sel)), ChosenAdd(c, sel);
    MergeFacts(c.settings.ignored, ChosenIgnore(c, sel));
    ChosenAreClean(c, sel);
    CleanIsNormal(merged);
    CleanIsNormal(add);
    if add == [] {
      FilterAll(merged, x => x !in add);
    } else {
      FilterCongruent(merged, x => x !in Normalize(add), x => x !in add);
    }
  }

  lemma MergeFacts(base: seq<Name>, appended: seq<Name>)
    ensures Clean(Merge(base, appended))
    ensures forall x :: x in Merge(base, appended) <==> x in Normalize(base) || x in Normalize(appended)
  {
    var merged := Normalize(base);
    NormalizeIsClean(base);
    NormalizeIsClean(appended);
    var tail := Filter(Normalize(appended), m => m !in merged);
    FilterIsClean(Normalize(appended), m => m !in merged);
    assert forall i, j :: 0 <= i < |merged| && 0 <= j < |tail| ==> merged[i] != tail[j] by {
      assert forall j :: 0 <= j < |tail| ==> tail[j] in tail;
    }
  }

  /** A merge is one list after the other, normalized. */
  lemma MergeIsBoth(base: seq<Name>, appended: seq<Name>)
    ensures Merge(base, appended) == Normalize(base + appended)
  {
    NormalizeIsClean(base);
    NormalizeHead(base, appended);
    NormalizeAppend(Normalize(base), appended);
    FilterCongruent(Normalize(appended), m => m !in Normalize(base), m => m !in Normalize(base));
  }

  lemma SubtractFacts(base: seq<Name>, removed: seq<Name>)
    ensures Clean(Subtract(base, removed))
    ensures forall x :: x in Subtract(base, removed) <==> x in Normalize(base) && x !in Normalize(removed)
  {
    NormalizeIsClean(base);
    FilterIsClean(Normalize(base), m => m !in Normalize(removed));
  }

  lemma IntersectFacts(base: seq<Name>, allowed: seq<Name>)
    ensures Clean(Intersect(base, allowed))
    ensures forall x :: x in Intersect(base, allowed) <==> x in Normalize(base) && x in Normalize(allowed)
  {
    NormalizeIsClean(base);
    FilterIsClean(Normalize(base), m => m in Normalize(allowed));
  }

  /** What is chosen of a selection is what was selected and is pending, in the order selected; a removal
      gives way to an addition of the same name. */
  lemma ChosenIff(c: Channel, sel: Selection, x: Name)
    ensures x in ChosenAdd(c, sel) <==> x in Normalize(sel.add) && x in Normalize(c.settings.detected)
    ensures x in ChosenIgnore(c, sel) <==> x in Normalize(sel.ignore) && x in Normalize(c.settings.detected)
    ensures x in ChosenRemove(c, sel)
       <==> x in Normalize(sel.remove) && x in Normalize(c.settings.removed)
            && !(x in Normalize(sel.add) && x in Normalize(c.settings.detected))
  {
    var detected, removed := Normalize(c.settings.detected), Normalize(c.settings.removed);
    NormalizeIsClean(c.settings.detected);
    NormalizeIsClean(c.settings.removed);
    CleanIsNormal(detected);
    CleanIsNormal(removed);
    IntersectFacts(sel.add, detected);
    IntersectFacts(sel.ignore, detected);
    IntersectFacts(sel.remove, removed);
    CleanIsNormal(ChosenAdd(c, sel));
    CleanIsNormal(Intersect(sel.remove, removed));
    SubtractFacts(Intersect(sel.remove, removed), ChosenAdd(c, sel));
  }

  lemma ChosenInOrder(c: Channel, sel: Selection)
    ensures ChosenAdd(c, sel) == Filter(Normalize(sel.add), x => x in Normalize(c.settings.detected))
    ensures ChosenIgnore(c, sel) == Filter(Normalize(sel.ignore), x => x in Normalize(c.settings.detected))
    ensures ChosenRemove(c, sel) == Filter(Normalize(sel.remove), x => x in ChosenRemove(c, sel))
  {
    var detected, removed := Normalize(c.settings.detected), Normalize(c.settings.removed);
    NormalizeIsClean(c.settings.detected);
    CleanIsNormal(detected);
    FilterCongruent(Normalize(sel.add), x => x in Normalize(detected), x => x in Normalize(c.settings.detected));
    FilterCongruent(Normalize(sel.ignore), x => x in Normalize(detected), x => x in Normalize(c.settings.detected));
    var some := Intersect(sel.remove, removed);
    IntersectFacts(sel.remove, removed);
    CleanIsNormal(some);
    FilterTwice(Normalize(sel.remove), x => x in Normalize(removed), x => x !in Normalize(ChosenAdd(c, sel)));
    FilterCongruent(Normalize(sel.remove),
                    m => (x => x in Normalize(removed))(m) && (x => x !in Normalize(ChosenAdd(c, sel)))(m),
                    x => x in ChosenRemove(c, sel));
  }

  lemma RemainingIff(c: Channel, sel: Selection, x: Name)
    ensures x in RemainingAdd(c, sel)
       <==> x in Normalize(c.settings.detected) && x !in Normalize(sel.add) && x !in Normalize(sel.ignore)
    ensures x in RemainingRemove(c, sel) <==> x in Normalize(c.settings.removed) && x !in ChosenRemove(c, sel)
  {
    var detected, removed := Normalize(c.settings.detected), Normalize(c.settings.removed);
    var both := ChosenAdd(c, sel) + ChosenIgnore(c, sel);
    ChosenIff(c, sel, x);
    ChosenAreClean(c, sel);
    NormalizeIsClean(c.settings.detected);
    NormalizeIsClean(c.settings.removed);
    CleanIsNormal(detected);
    CleanIsNormal(removed);
    SubtractFacts(detected, both);
    NormalizeMember(both, x);
    SubtractFacts(removed, ChosenRemove(c, sel));
    CleanIsNormal(ChosenRemove(c, sel));
    assert forall y :: y in both ==> Tidy(y);
  }

  lemma ChosenAreClean(c: Channel, sel: Selection)
    ensures Clean(ChosenAdd(c, sel)) && Clean(ChosenIgnore(c, sel)) && Clean(ChosenRemove(c, sel))
  {
    IntersectFacts(sel.add, Normalize(c.settings.detected));
    IntersectFacts(sel.ignore, Normalize(c.settings.detected));
    SubtractFacts(Intersect(sel.remove, Normalize(c.settings.removed)), ChosenAdd(c, sel));
  }

  /** The reported lists hold what was selected and was pending, and what is left of it. */
  ghost predicate AsSelected(before: Settings, sel: Selection, added: seq<Name>, removed: seq<Name>,
                             remaining: seq<Name>, remainingRemove: seq<Name>) {
    forall x: Name ::
      && (x in added <==> x in Normalize(sel.add) && x in Normalize(before.detected))
      && (x in removed <==> x in Normalize(sel.remove) && x in Normalize(before.removed) && x !in added)
      && (x in remaining <==>
            x in Normalize(before.detected) && x !in Normalize(sel.add) && x !in Normalize(sel.ignore))
      && (x in remainingRemove <==> x in Normalize(before.removed) && x !in removed)
  }

  lemma ReportedAsSelected(c: Channel, sel: Selection)
    ensures AsSelected(c.settings, sel, ChosenAdd(c, sel), ChosenRemove(c, sel),
                       RemainingAdd(c, sel), RemainingRemove(c, sel))
  {
    forall x: Name
      ensures x in ChosenAdd(c, sel) <==> x in Normalize(sel.add) && x in Normalize(c.settings.detected)
      ensures x in ChosenRemove(c, sel)
         <==> x in Normalize(sel.remove) && x in Normalize(c.settings.removed) && x !in ChosenAdd(c, sel)
      ensures x in RemainingAdd(c, sel)
         <==> x in Normalize(c.settings.detected) && x !in Normalize(sel.add) && x !in Normalize(sel.ignore)
      ensures x in RemainingRemove(c, sel) <==> x in Normalize(c.settings.removed) && x !in ChosenRemove(c, sel)
    {
      ChosenIff(c, sel, x);
      RemainingIff(c, sel, x);
    }
  }

  /** Additions win, and nothing else changes: a name is in the result exactly when it was there or
      is added, and is not removed unless it is added. */
  lemma AddWins(origin: seq<Name>, add: seq<Name>, remove: seq<Name>, x: Name)
    ensures x in ApplySelected(origin, add, remove)
       <==> (x in Normalize(origin) || x in Normalize(add)) && (x in Normalize(remove) ==> x in Normalize(add))
    ensures Clean(ApplySelected(origin, add, remove))
  {
    var nAdd, nRemove := Normalize(add), Normalize(remove);
    NormalizeIsClean(add);
    NormalizeIsClean(remove);
    CleanIsNormal(nAdd);
    CleanIsNormal(nRemove);
    var drop := Subtract(nRemove, nAdd);
    SubtractFacts(nRemove, nAdd);
    CleanIsNormal(drop);
    MergeFacts(origin, nAdd);
    CleanIsNormal(Merge(origin, nAdd));
    SubtractFacts(Merge(origin, nAdd), drop);
  }

  // ---------- The cycle: detect, apply a selection, detect again ----------

  /** The chosen lists are the selected part of what is pending. */
  lemma ChosenFacts(c: Channel, w: World, sel: Selection)
    requires Fresh(c, w)
    ensures Clean(ChosenAdd(c, sel)) && Clean(ChosenIgnore(c, sel)) && Clean(ChosenRemove(c, sel))
    ensures forall x :: x in ChosenAdd(c, sel) ==> x in NextAdd(c, w)
    ensures forall x :: x in ChosenIgnore(c, sel) ==> x in NextAdd(c, w)
    ensures forall x :: x in ChosenRemove(c, sel) ==> x in NextRemove(c, w)
  {
    PendingAreFilters(c, w);
    CleanIsNormal(NextAdd(c, w));
    CleanIsNormal(NextRemove(c, w));
    IntersectFacts(sel.add, c.settings.detected);
    IntersectFacts(sel.ignore, c.settings.detected);
    IntersectFacts(sel.remove, c.settings.removed);
    CleanIsNormal(Intersect(sel.remove, Normalize(c.settings.removed)));
    SubtractFacts(Intersect(sel.remove, Normalize(c.settings.removed)), ChosenAdd(c, sel));
  }

  /** The rules kept after applying: the old ones and the newly ignored names, minus the additions. */
  predicate KeptRule(c: Channel, sel: Selection, r: Name) {
    (r in Normalize(c.settings.ignored) || r in ChosenIgnore(c, sel)) && r !in ChosenAdd(c, sel)
  }

  lemma NextRules(c: Channel, w: World, sel: Selection)
    requires Fresh(c, w)
    ensures forall r :: r in Normalize(NextIgnored(c, sel)) <==> KeptRule(c, sel, r)
  {
    ChosenFacts(c, w, sel);
    CleanIsNormal(ChosenIgnore(c, sel));
    CleanIsNormal(ChosenAdd(c, sel));
    var merged := Merge(c.settings.ignored, ChosenIgnore(c, sel));
    MergeFacts(c.settings.ignored, ChosenIgnore(c, sel));
    CleanIsNormal(merged);
    SubtractFacts(merged, ChosenAdd(c, sel));
    CleanIsNormal(Subtract(merged, ChosenAdd(c, sel)));
  }

  lemma RemainingAreFilters(c: Channel, w: World, sel: Selection)
    requires Fresh(c, w)
    ensures RemainingAdd(c, sel)
         == Filter(NextAdd(c, w), m => m !in ChosenAdd(c, sel) && m !in ChosenIgnore(c, sel))
    ensures RemainingRemove(c, sel) == Filter(NextRemove(c, w), m => m !in ChosenRemove(c, sel))
  {
    PendingAreFilters(c, w);
    ChosenFacts(c, w, sel);
    CleanIsNormal(NextAdd(c, w));
    CleanIsNormal(NextRemove(c, w));
    CleanIsNormal(ChosenRemove(c, sel));
    var both := ChosenAdd(c, sel) + ChosenIgnore(c, sel);
    forall x ensures x in Normalize(both) <==> x in both {
      NormalizeMember(both, x);
    }
    FilterAgrees(NextAdd(c, w), m => m !in Normalize(both),
                 m => m !in ChosenAdd(c, sel) && m !in ChosenIgnore(c, sel));
    FilterAgrees(NextRemove(c, w), m => m !in Normalize(ChosenRemove(c, sel)), m => m !in ChosenRemove(c, sel));
  }

  /** The next list keeps the order of the old one and puts the additions last. */
  lemma NextModelsShape(c: Channel, w: World, sel: Selection)
    requires Fresh(c, w)
    ensures Clean(NextModels(c, sel))
    ensures NextModels(c, sel)
         == Filter(LocalModels(c.models), m => m !in ChosenRemove(c, sel)) + ChosenAdd(c, sel)
  {
    var L, add, drop := LocalModels(c.models), ChosenAdd(c, sel), ChosenRemove(c, sel);
    PendingAreFilters(c, w);
    ChosenFacts(c, w, sel);
    NormalizeIsClean(GetModels(c.models));
    CleanIsNormal(L);
    CleanIsNormal(add);
    CleanIsNormal(drop);
    FilterAll(add, m => m !in L);
    MergeFacts(L, add);
    var nDrop := Subtract(drop, add);
    FilterAll(drop, m => m !in add);
    assert nDrop == drop;
    CleanIsNormal(L + add);
    FilterAppend(L, add, m => m !in drop);
    FilterAll(add, m => m !in drop);
    SubtractFacts(L + add, drop);
  }

  lemma LocalAfterApply(c: Channel, w: World, sel: Selection, now: int)
    requires Fresh(c, w) && forall x :: x in ChosenAdd(c, sel) ==> !HasComma(x)
    ensures LocalModels(Apply(c, sel, now).models) == NextModels(c, sel)
  {
    NextModelsShape(c, w, sel);
    forall x | x in NextModels(c, sel) ensures !HasComma(x) {
      if x in LocalModels(c.models) { LocalModelsHaveNoComma(c.models, x); }
    }
    StoreAndLoad(NextModels(c, sel));
  }

  /** Published, and neither local, nor added, nor the target of a redirect. */
  predicate Open(c: Channel, w: World, sel: Selection, u: Name) {
    && u in Normalize(w.upstream) && u !in LocalModels(c.models) && u !in ChosenAdd(c, sel)
    && u !in w.mapping.Values
  }

  predicate OldIgnored(c: Channel, w: World, u: Name) {
    Ignored(Normalize(c.settings.ignored), u, w.rx)
  }

  predicate NewIgnored(c: Channel, w: World, sel: Selection, u: Name) {
    Ignored(Normalize(NextIgnored(c, sel)), u, w.rx)
  }

  predicate PendingNow(c: Channel, w: World, m: Name) {
    m !in LocalModels(c.models) && m !in w.mapping.Values && !OldIgnored(c, w, m)
  }

  predicate PendingNext(c: Channel, w: World, sel: Selection, m: Name) {
    m !in NextModels(c, sel) && m !in w.mapping.Values && !NewIgnored(c, w, sel, m)
  }

  predicate Unchosen(c: Channel, sel: Selection, m: Name) {
    m !in ChosenAdd(c, sel) && m !in ChosenIgnore(c, sel)
  }

  lemma PendingPointwise(c: Channel, w: World, sel: Selection, u: Name)
    requires Fresh(c, w) && u in Normalize(w.upstream)
    ensures PendingNext(c, w, sel, u) == (PendingNow(c, w, u) && Unchosen(c, sel, u))
       <==> (Open(c, w, sel, u) ==>
              (NewIgnored(c, w, sel, u) <==> OldIgnored(c, w, u) || u in ChosenIgnore(c, sel)))
  {
    NextModelsShape(c, w, sel);
    PendingAreFilters(c, w);
    ChosenFacts(c, w, sel);
    assert u in NextModels(c, sel) <==> u in LocalModels(c.models) || u in ChosenAdd(c, sel);
  }

  /** The next detection agrees with the reported list exactly when the kept rules ignore what the
      old rules and the selection ignored. */
  lemma RedetectAdd(c: Channel, w: World, sel: Selection, now: int)
    requires Fresh(c, w) && forall x :: x in ChosenAdd(c, sel) ==> !HasComma(x)
    ensures NextAdd(Apply(c, sel, now), w) == RemainingAdd(c, sel)
       <==> forall u :: Open(c, w, sel, u) ==>
              (NewIgnored(c, w, sel, u) <==> OldIgnored(c, w, u) || u in ChosenIgnore(c, sel))
  {
    var U := Normalize(w.upstream);
    RedetectAddFilters(c, w, sel, now);
    FilterAgrees(U, m => PendingNext(c, w, sel, m), m => PendingNow(c, w, m) && Unchosen(c, sel, m));
    forall u | u in U
      ensures PendingNext(c, w, sel, u) == (PendingNow(c, w, u) && Unchosen(c, sel, u))
         <==> (Open(c, w, sel, u) ==>
                (NewIgnored(c, w, sel, u) <==> OldIgnored(c, w, u) || u in ChosenIgnore(c, sel)))
    {
      PendingPointwise(c, w, sel, u);
    }
  }

  lemma RedetectAddFilters(c: Channel, w: World, sel: Selection, now: int)
    requires Fresh(c, w) && forall x :: x in ChosenAdd(c, sel) ==> !HasComma(x)
    ensures NextAdd(Apply(c, sel, now), w) == Filter(Normalize(w.upstream), m => PendingNext(c, w, sel, m))
    ensures RemainingAdd(c, sel)
         == Filter(Normalize(w.upstream), m => PendingNow(c, w, m) && Unchosen(c, sel, m))
  {
    var U := Normalize(w.upstream);
    PendingAreFilters(Apply(c, sel, now), w);
    LocalAfterApply(c, w, sel, now);
    var have, rules := NextModels(c, sel), Normalize(NextIgnored(c, sel));
    FilterCongruent(U, m => m !in have && m !in w.mapping.Values && !Ignored(rules, m, w.rx),
                    m => PendingNext(c, w, sel, m));
    RemainingAddFilter(c, w, sel);
  }

  lemma RemainingAddFilter(c: Channel, w: World, sel: Selection)
    requires Fresh(c, w)
    ensures RemainingAdd(c, sel)
         == Filter(Normalize(w.upstream), m => PendingNow(c, w, m) && Unchosen(c, sel, m))
  {
    var U, add, ign := Normalize(w.upstream), ChosenAdd(c, sel), ChosenIgnore(c, sel);
    NextAddFilter(c, w);
    RemainingAreFilters(c, w, sel);
    FilterCongruent(NextAdd(c, w), m => m !in add && m !in ign, m => Unchosen(c, sel, m));
    FilterTwice(U, m => PendingNow(c, w, m), m => Unchosen(c, sel, m));
    FilterCongruent(U, x => (m => PendingNow(c, w, m))(x) && (m => Unchosen(c, sel, m))(x),
                    m => PendingNow(c, w, m) && Unchosen(c, sel, m));
  }

  lemma NextAddFilter(c: Channel, w: World)
    ensures NextAdd(c, w) == Filter(Normalize(w.upstream), m => PendingNow(c, w, m))
  {
    var have, rules := LocalModels(c.models), Normalize(c.settings.ignored);
    PendingAreFilters(c, w);
    FilterCongruent(Normalize(w.upstream), m => m !in have && m !in w.mapping.Values && !Ignored(rules, m, w.rx),
                    m => PendingNow(c, w, m));
  }

  lemma RedetectRemove(c: Channel, w: World, sel: Selection, now: int)
    requires Fresh(c, w) && forall x :: x in ChosenAdd(c, sel) ==> !HasComma(x)
    ensures NextRemove(Apply(c, sel, now), w) == RemainingRemove(c, sel)
  {
    var c' := Apply(c, sel, now);
    var L, add, drop := LocalModels(c.models), ChosenAdd(c, sel), ChosenRemove(c, sel);
    var stale := (m: Name) => m !in w.mapping.Keys && m !in Normalize(w.upstream);
    var stays := (m: Name) => m !in drop;
    PendingAreFilters(c, w);
    PendingAreFilters(c', w);
    LocalAfterApply(c, w, sel, now);
    RemainingAreFilters(c, w, sel);
    NextModelsShape(c, w, sel);
    ChosenFacts(c, w, sel);
    FilterAppend(Filter(L, stays), add, stale);
    FilterNone(add, stale);
    FilterTwice(L, stays, stale);
    FilterTwice(L, stale, stays);
    FilterCongruent(L, x => stays(x) && stale(x), x => stale(x) && stays(x));
    assert NextRemove(c', w) == Filter(Filter(L, stays), stale);
    assert RemainingRemove(c, sel) == Filter(Filter(L, stale), stays);
  }

  // ---------- Main results ----------

  /** Detecting again after applying any selection reports exactly the lists the administrator was
      told remain, as sequences, if and only if no added name contains a comma: a comma splits the
      name when the stored list is read back.  (Selected names that look like regex rules are the
      subject of the next theorem.) */
  lemma RedetectIffNoComma(c: Channel, w: World, sel: Selection, now: int)
    requires Fresh(c, w)
    requires forall x :: x in ChosenAdd(c, sel) || x in ChosenIgnore(c, sel) ==> !IsRegexRule(x)
    ensures NextAdd(Apply(c, sel, now), w) == RemainingAdd(c, sel)
            && NextRemove(Apply(c, sel, now), w) == RemainingRemove(c, sel)
       <==> forall x :: x in ChosenAdd(c, sel) ==> !HasComma(x)
  {
    NextRules(c, w, sel);
    ChosenFacts(c, w, sel);
    PendingAreFilters(c, w);
    if forall x :: x in ChosenAdd(c, sel) ==> !HasComma(x) {
      forall u | Open(c, w, sel, u)
        ensures NewIgnored(c, w, sel, u) <==> OldIgnored(c, w, u) || u in ChosenIgnore(c, sel)
      {
        LiteralRulesKept(c, w, sel, u);
      }
      RedetectAdd(c, w, sel, now);
      RedetectRemove(c, w, sel, now);
    } else {
      var x :| x in ChosenAdd(c, sel) && HasComma(x);
      if NewIgnored(c, w, sel, x) {
        AddedIsIgnoredByPattern(c, w, sel, x);
      }
      CommaComesBack(c, w, sel, now, x);
    }
  }

  lemma LiteralRulesKept(c: Channel, w: World, sel: Selection, u: Name)
    requires Fresh(c, w) && Open(c, w, sel, u)
    requires forall x :: x in ChosenAdd(c, sel) || x in ChosenIgnore(c, sel) ==> !IsRegexRule(x)
    ensures NewIgnored(c, w, sel, u) <==> OldIgnored(c, w, u) || u in ChosenIgnore(c, sel)
  {
    NextRules(c, w, sel);
    if NewIgnored(c, w, sel, u) {
      var r :| r in Normalize(NextIgnored(c, sel)) && RuleMatches(r, u, w.rx);
      assert KeptRule(c, sel, r);
    }
    if OldIgnored(c, w, u) {
      var r :| r in Normalize(c.settings.ignored) && RuleMatches(r, u, w.rx);
      assert KeptRule(c, sel, r);
    }
    if u in ChosenIgnore(c, sel) {
      assert KeptRule(c, sel, u) && RuleMatches(u, u, w.rx);
    }
  }

  /** An added name with a comma is not local after being stored, so it is pending again unless a name
      chosen to be ignored silences it. */
  lemma CommaComesBack(c: Channel, w: World, sel: Selection, now: int, x: Name)
    requires Fresh(c, w) && x in ChosenAdd(c, sel) && HasComma(x) && !NewIgnored(c, w, sel, x)
    ensures x in NextAdd(Apply(c, sel, now), w) && x !in RemainingAdd(c, sel)
  {
    var c' := Apply(c, sel, now);
    ChosenFacts(c, w, sel);
    PendingAreFilters(c, w);
    PendingAreFilters(c', w);
    RemainingAreFilters(c, w, sel);
    if x in LocalModels(c'.models) {
      LocalModelsHaveNoComma(c'.models, x);
    }
  }

  /** A name chosen to be added is ignored afterwards only by a name chosen to be ignored that reads as
      a regex rule. */
  lemma AddedIsIgnoredByPattern(c: Channel, w: World, sel: Selection, x: Name)
    requires Fresh(c, w) && x in ChosenAdd(c, sel) && NewIgnored(c, w, sel, x)
    ensures exists r :: r in ChosenIgnore(c, sel) && IsRegexRule(r) && RuleMatches(r, x, w.rx)
  {
    NextRules(c, w, sel);
    ChosenFacts(c, w, sel);
    PendingAreFilters(c, w);
    var r :| r in Normalize(NextIgnored(c, sel)) && RuleMatches(r, x, w.rx);
    assert KeptRule(c, sel, r);
    assert !OldIgnored(c, w, x);
  }

  /** The stored rules treat every open name as the administrator meant: a name chosen to be ignored
      that reads as a regex rule still ends up ignored, it silences no other open name, and adding a
      name that equals a stored rule does not drop the only rule some open name depended on. */
  predicate RulesHarmless(c: Channel, w: World, sel: Selection) {
    forall u :: u in Normalize(w.upstream) && Open(c, w, sel, u) ==> HarmlessAt(c, w, sel, u)
  }

  predicate HarmlessAt(c: Channel, w: World, sel: Selection, u: Name) {
    && (u in ChosenIgnore(c, sel) && IsRegexRule(u) ==> NewIgnored(c, w, sel, u))
    && (!OldIgnored(c, w, u) && u !in ChosenIgnore(c, sel) ==>
          forall r | r in ChosenIgnore(c, sel) && r !in ChosenAdd(c, sel) && IsRegexRule(r) ::
            !RuleMatches(r, u, w.rx))
    && (forall r | r in Normalize(c.settings.ignored) && r in ChosenAdd(c, sel) && IsRegexRule(r) ::
          RuleMatches(r, u, w.rx) ==> NewIgnored(c, w, sel, u))
  }

  lemma HarmlessIffAgrees(c: Channel, w: World, sel: Selection, u: Name)
    requires Fresh(c, w) && Open(c, w, sel, u)
    ensures HarmlessAt(c, w, sel, u)
       <==> (NewIgnored(c, w, sel, u) <==> OldIgnored(c, w, u) || u in ChosenIgnore(c, sel))
  {
    NextRules(c, w, sel);
    if OldIgnored(c, w, u) {
      var r :| r in Normalize(c.settings.ignored) && RuleMatches(r, u, w.rx);
      if !IsRegexRule(r) || r !in ChosenAdd(c, sel) {
        assert KeptRule(c, sel, r);
      }
    }
    if u in ChosenIgnore(c, sel) && !IsRegexRule(u) {
      assert KeptRule(c, sel, u) && RuleMatches(u, u, w.rx);
    }
    if NewIgnored(c, w, sel, u) {
      var r :| r in Normalize(NextIgnored(c, sel)) && RuleMatches(r, u, w.rx);
      assert KeptRule(c, sel, r);
    } else {
      assert forall r :: KeptRule(c, sel, r) ==> !RuleMatches(r, u, w.rx);
    }
  }

  /** Names that look like rules: without commas, detecting again agrees if and only if the stored
      rules are harmless. */
  lemma RedetectIffRulesHarmless(c: Channel, w: World, sel: Selection, now: int)
    requires Fresh(c, w) && forall x :: x in ChosenAdd(c, sel) ==> !HasComma(x)
    ensures NextAdd(Apply(c, sel, now), w) == RemainingAdd(c, sel)
            && NextRemove(Apply(c, sel, now), w) == RemainingRemove(c, sel)
       <==> RulesHarmless(c, w, sel)
  {
    RedetectAdd(c, w, sel, now);
    RedetectRemove(c, w, sel, now);
    forall u | Open(c, w, sel, u)
      ensures HarmlessAt(c, w, sel, u)
         <==> (NewIgnored(c, w, sel, u) <==> OldIgnored(c, w, u) || u in ChosenIgnore(c, sel))
    {
      HarmlessIffAgrees(c, w, sel, u);
    }
  }

  // ---------- All selections ----------

  /** The local models that applying keeps, in order. */
  function Kept(c: Channel, sel: Selection): seq<Name> {
    Filter(LocalModels(c.models), m => m !in ChosenRemove(c, sel))
  }

  /** What the added names come back as: themselves, or the pieces of those with a comma. */
  function Arrived(c: Channel, sel: Selection): seq<Name> {
    Filter(Normalize(PiecesOf(ChosenAdd(c, sel))), m => m !in Kept(c, sel))
  }

  lemma LocalAfterAnyApply(c: Channel, w: World, sel: Selection, now: int)
    requires Fresh(c, w)
    ensures LocalModels(Apply(c, sel, now).models) == Kept(c, sel) + Arrived(c, sel)
  {
    var kept, add := Kept(c, sel), ChosenAdd(c, sel);
    NextModelsShape(c, w, sel);
    NormalizeIsClean(GetModels(c.models));
    FilterIsClean(LocalModels(c.models), m => m !in ChosenRemove(c, sel));
    forall x | x in kept ensures !HasComma(x) {
      LocalModelsHaveNoComma(c.models, x);
    }
    PiecesOfPlain(kept, add);
    NormalizeAppend(kept, PiecesOf(add));
    StoredAsPieces(NextModels(c, sel));
    if NextModels(c, sel) == LocalModels(c.models) {
      UnchangedIsItsPieces(c.models);
    }
  }

  lemma UnchangedIsItsPieces(models: string)
    ensures Normalize(PiecesOf(LocalModels(models))) == LocalModels(models)
  {
    var L := LocalModels(models);
    forall x | x in L ensures !HasComma(x) {
      LocalModelsHaveNoComma(models, x);
    }
    PiecesOfPlain(L, []);
    assert L + [] == L && PiecesOf([]) == [] && L + PiecesOf([]) == L;
    NormalizeIsClean(GetModels(models));
    CleanIsNormal(L);
  }

  /** No piece is a name that detection would want removed. */
  predicate ArrivedAreKnown(c: Channel, w: World, sel: Selection) {
    forall p :: p in Arrived(c, sel) ==> p in w.mapping.Keys || p in Normalize(w.upstream)
  }

  /** A published name that is not the target of a redirect is treated as was meant: an added name is
      there or silenced, an open one is covered exactly if it was to be ignored. */
  predicate TreatedAsMeant(c: Channel, w: World, sel: Selection, u: Name) {
    && (u in ChosenAdd(c, sel) && HasComma(u) ==> NewIgnored(c, w, sel, u))
    && (Open(c, w, sel, u) ==>
          (u in Arrived(c, sel) || NewIgnored(c, w, sel, u) <==> OldIgnored(c, w, u) || u in ChosenIgnore(c, sel)))
  }

  predicate Converges(c: Channel, w: World, sel: Selection) {
    ArrivedAreKnown(c, w, sel) && forall u :: u in Normalize(w.upstream) ==> TreatedAsMeant(c, w, sel, u)
  }

  /** What the next detection finds to add. */
  predicate FoundNext(c: Channel, w: World, sel: Selection, m: Name) {
    m !in Kept(c, sel) && m !in Arrived(c, sel) && m !in w.mapping.Values && !NewIgnored(c, w, sel, m)
  }

  lemma FoundNextFilter(c: Channel, w: World, sel: Selection, now: int)
    requires Fresh(c, w)
    ensures NextAdd(Apply(c, sel, now), w) == Filter(Normalize(w.upstream), m => FoundNext(c, w, sel, m))
  {
    var c' := Apply(c, sel, now);
    var have, rules := LocalModels(c'.models), Normalize(NextIgnored(c, sel));
    PendingAreFilters(c', w);
    LocalAfterAnyApply(c, w, sel, now);
    FilterCongruent(Normalize(w.upstream), m => m !in have && m !in w.mapping.Values && !Ignored(rules, m, w.rx),
                    m => FoundNext(c, w, sel, m));
  }

  lemma WholeAddedArrives(c: Channel, w: World, sel: Selection, x: Name)
    requires Fresh(c, w) && x in ChosenAdd(c, sel)
    ensures x !in Kept(c, sel) && (x in Arrived(c, sel) <==> !HasComma(x))
  {
    ChosenFacts(c, w, sel);
    PendingAreFilters(c, w);
    if HasComma(x) {
      if x in Normalize(PiecesOf(ChosenAdd(c, sel))) {
        PieceHasNoComma(ChosenAdd(c, sel), x);
      }
    } else {
      WholeIsPiece(ChosenAdd(c, sel), x);
    }
  }

  lemma WholeIsPiece(names: seq<Name>, x: Name)
    requires x in names && Tidy(x) && !HasComma(x)
    ensures x in Normalize(PiecesOf(names))
  {
    var i :| 0 <= i < |names| && names[i] == x;
    assert names == names[..i] + ([x] + names[i + 1..]);
    PieceOfMiddle(names[..i], x, names[i + 1..]);
    NormalizeMember(PiecesOf(names), x);
  }

  lemma PieceOfMiddle(before: seq<Name>, x: Name, after: seq<Name>)
    requires !HasComma(x)
    ensures x in PiecesOf(before + ([x] + after))
  {
    PiecesOfBoth(before, [x] + after);
    PiecesOfPlain([x], after);
  }

  lemma FoundPointwise(c: Channel, w: World, sel: Selection, u: Name)
    requires Fresh(c, w) && u in Normalize(w.upstream)
    ensures FoundNext(c, w, sel, u) == (PendingNow(c, w, u) && Unchosen(c, sel, u)) <==> TreatedAsMeant(c, w, sel, u)
  {
    PendingAreFilters(c, w);
    ChosenFacts(c, w, sel);
    assert u in Kept(c, sel) <==> u in LocalModels(c.models);
    if u in ChosenAdd(c, sel) {
      WholeAddedArrives(c, w, sel, u);
    }
  }

  lemma FoundAddIff(c: Channel, w: World, sel: Selection, now: int)
    requires Fresh(c, w)
    ensures NextAdd(Apply(c, sel, now), w) == RemainingAdd(c, sel)
       <==> forall u :: u in Normalize(w.upstream) ==> TreatedAsMeant(c, w, sel, u)
  {
    var U := Normalize(w.upstream);
    FoundNextFilter(c, w, sel, now);
    RemainingAddFilter(c, w, sel);
    FilterAgrees(U, m => FoundNext(c, w, sel, m), m => PendingNow(c, w, m) && Unchosen(c, sel, m));
    forall u | u in U
      ensures FoundNext(c, w, sel, u) == (PendingNow(c, w, u) && Unchosen(c, sel, u)) <==> TreatedAsMeant(c, w, sel, u)
    {
      FoundPointwise(c, w, sel, u);
    }
  }

  lemma FoundRemoveIff(c: Channel, w: World, sel: Selection, now: int)
    requires Fresh(c, w)
    ensures NextRemove(Apply(c, sel, now), w) == RemainingRemove(c, sel) <==> ArrivedAreKnown(c, w, sel)
  {
    var L, drop, arrived := LocalModels(c.models), ChosenRemove(c, sel), Arrived(c, sel);
    var stale := (m: Name) => m !in w.mapping.Keys && m !in Normalize(w.upstream);
    var stays := (m: Name) => m !in drop;
    PendingAreFilters(c, w);
    PendingAreFilters(Apply(c, sel, now), w);
    LocalAfterAnyApply(c, w, sel, now);
    RemainingAreFilters(c, w, sel);
    FilterAppend(Filter(L, stays), arrived, stale);
    FilterTwice(L, stays, stale);
    FilterTwice(L, stale, stays);
    FilterCongruent(L, x => stays(x) && stale(x), x => stale(x) && stays(x));
    assert NextRemove(Apply(c, sel, now), w) == Filter(Filter(L, stays), stale) + Filter(arrived, stale);
    assert RemainingRemove(c, sel) == Filter(Filter(L, stale), stays);
    assert Filter(arrived, stale) == [] <==> ArrivedAreKnown(c, w, sel) by {
      if ArrivedAreKnown(c, w, sel) {
        FilterNone(arrived, stale);
      }
    }
  }

  /** Whatever was selected, detecting again agrees with what the administrator was told if and only if
      every published name is treated as was meant and no piece of an added name is unknown. */
  lemma RedetectIff(c: Channel, w: World, sel: Selection, now: int)
    requires Fresh(c, w)
    ensures NextAdd(Apply(c, sel, now), w) == RemainingAdd(c, sel)
            && NextRemove(Apply(c, sel, now), w) == RemainingRemove(c, sel)
       <==> Converges(c, w, sel)
  {
    FoundAddIff(c, w, sel, now);
    FoundRemoveIff(c, w, sel, now);
  }

  /** Reconciliation converges: applying everything pending makes the next detection empty in both
      lists, if and only if no pending name has a comma and adding names that equal stored rules lifts
      no rule that an open name depends on. */
  lemma ApplyAllConverges(c: Channel, w: World, now: int)
    requires Fresh(c, w)
    ensures var all := Selection(c.settings.detected, [], c.settings.removed);
      NextAdd(Apply(c, all, now), w) == [] && NextRemove(Apply(c, all, now), w) == []
      <==> (forall x :: x in NextAdd(c, w) ==> !HasComma(x)) && RulesHarmless(c, w, all)
  {
    var all := Selection(c.settings.detected, [], c.settings.removed);
    ChosenAll(c, w);
    NothingRemains(c, w);
    if forall x :: x in NextAdd(c, w) ==> !HasComma(x) {
      RedetectIffRulesHarmless(c, w, all, now);
    } else {
      var x :| x in NextAdd(c, w) && HasComma(x);
      if NewIgnored(c, w, all, x) {
        AddedIsIgnoredByPattern(c, w, all, x);
      }
      CommaComesBack(c, w, all, now, x);
    }
  }

  lemma NothingRemains(c: Channel, w: World)
    requires Fresh(c, w)
    ensures var all := Selection(c.settings.detected, [], c.settings.removed);
      RemainingAdd(c, all) == [] && RemainingRemove(c, all) == []
  {
    var all := Selection(c.settings.detected, [], c.settings.removed);
    ChosenAll(c, w);
    ChosenFacts(c, w, all);
    RemainingAreFilters(c, w, all);
    FilterNone(NextAdd(c, w), m => m !in ChosenAdd(c, all) && m !in ChosenIgnore(c, all));
    FilterNone(NextRemove(c, w), m => m !in ChosenRemove(c, all));
  }

  /** Names that do not look like rules lift none. */
  lemma LiteralsAreHarmless(c: Channel, w: World)
    requires Fresh(c, w) && forall x :: x in NextAdd(c, w) ==> !IsRegexRule(x)
    ensures RulesHarmless(c, w, Selection(c.settings.detected, [], c.settings.removed))
  {
    ChosenAll(c, w);
  }

  lemma ChosenAll(c: Channel, w: World)
    requires Fresh(c, w)
    ensures var all := Selection(c.settings.detected, [], c.settings.removed);
      && ChosenAdd(c, all) == NextAdd(c, w) && ChosenIgnore(c, all) == []
      && forall x :: x in NextRemove(c, w) ==> x in ChosenRemove(c, all)
  {
    var all := Selection(c.settings.detected, [], c.settings.removed);
    PendingAreFilters(c, w);
    CleanIsNormal(NextAdd(c, w));
    CleanIsNormal(NextRemove(c, w));
    FilterAll(NextAdd(c, w), m => m in NextAdd(c, w));
    var remove := Intersect(c.settings.removed, NextRemove(c, w));
    IntersectFacts(c.settings.removed, NextRemove(c, w));
    CleanIsNormal(remove);
    CleanIsNormal(ChosenAdd(c, all));
    SubtractFacts(remove, ChosenAdd(c, all));
  }

  /** The automatic path converges too: after it takes the pending additions over, the next detection
      finds nothing to add and the same names to remove, if and only if no addition contains a comma. */
  lemma AutoSyncConverges(c: Channel, w: World, now: int)
    requires c.settings.autoSync && |NextAdd(c, w)| > 0
    ensures var c' := Check(c, w, true, now);
      NextAdd(c', w) == [] && NextRemove(c', w) == NextRemove(c, w) == c'.settings.removed
      <==> forall x :: x in NextAdd(c, w) ==> !HasComma(x)
  {
    var c' := Check(c, w, true, now);
    var L, add := LocalModels(c.models), NextAdd(c, w);
    PendingAreFilters(c, w);
    PendingAreFilters(c', w);
    NormalizeIsClean(GetModels(c.models));
    CleanIsNormal(L);
    CleanIsNormal(add);
    FilterAll(add, m => m !in L);
    MergeFacts(L, add);
    assert c'.models == JoinModels(L + add);
    if forall x :: x in add ==> !HasComma(x) {
      forall x | x in L + add ensures !HasComma(x) {
        if x in L { LocalModelsHaveNoComma(c.models, x); }
      }
      StoreAndLoad(L + add);
      AutoSyncedPending(c, c', w);
    } else {
      var x :| x in add && HasComma(x);
      if x in LocalModels(c'.models) { LocalModelsHaveNoComma(c'.models, x); }
      assert x in NextAdd(c', w);
    }
  }

  lemma AutoSyncedPending(c: Channel, c': Channel, w: World)
    requires LocalModels(c'.models) == LocalModels(c.models) + NextAdd(c, w)
    requires c'.settings.ignored == c.settings.ignored
    ensures NextAdd(c', w) == [] && NextRemove(c', w) == NextRemove(c, w)
  {
    var L, add := LocalModels(c.models), NextAdd(c, w);
    var have, rules := L + add, Normalize(c.settings.ignored);
    PendingAreFilters(c, w);
    PendingAreFilters(c', w);
    FilterNone(Normalize(w.upstream), m => m !in have && m !in w.mapping.Values && !Ignored(rules, m, w.rx));
    var stale := (m: Name) => m !in w.mapping.Keys && m !in Normalize(w.upstream);
    FilterAppend(L, add, stale);
    FilterNone(add, stale);
  }

  // ---------- Concrete failures ----------

  const EMPTY_CHANNEL := Channel("", Settings(false, 0, [], [], []))

  lemma SingletonDetected(name: Name, rx: Regex, now: int)
    requires Tidy(name)
    ensures var w := World([name], map[], rx); var c := Check(EMPTY_CHANNEL, w, false, now);
      Fresh(c, w) && NextAdd(c, w) == [name] && LocalModels(c.models) == [] && Normalize(w.upstream) == [name]
  {
    var w := World([name], map[], rx);
    var c := Check(EMPTY_CHANNEL, w, false, now);
    CheckIsFresh(EMPTY_CHANNEL, w, false, now);
    CleanIsNormal([name]);
    PendingAreFilters(c, w);
    FilterAll([name], m => m !in [] && m !in w.mapping.Values && !Ignored([], m, w.rx));
  }

  /** An upstream model called "a,b" is still pending after everything pending was applied. */
  lemma CommaExample(rx: Regex, now: int)
    ensures var w := World([Name("a,b")], map[], rx); var c := Check(EMPTY_CHANNEL, w, false, now);
      !(NextAdd(Apply(c, Selection(c.settings.detected, [], c.settings.removed), now), w) == []
        && NextRemove(Apply(c, Selection(c.settings.detected, [], c.settings.removed), now), w) == [])
  {
    var name := Name("a,b");
    var w := World([name], map[], rx);
    TrimFixpoint("a,b", IsSpace);
    SingletonDetected(name, rx, now);
    assert "a,b"[1] == ',' && HasComma(name);
    assert "a,b"[0] != "regex:"[0];
    var c := Check(EMPTY_CHANNEL, w, false, now);
    assert name in NextAdd(c, w);
    ApplyAllConverges(c, w, now);
  }

  /** An upstream model whose name starts with "regex:" cannot be ignored by name: the stored name is
      read as a pattern, which need not match it. */
  lemma RegexNameExample(name: Name, now: int)
    requires Tidy(name) && IsRegexRule(name)
    ensures var w := World([name], map[], (pattern, model) => false);
      var c := Check(EMPTY_CHANNEL, w, false, now); var sel := Selection([], [name], []);
      Fresh(c, w) && ChosenIgnore(c, sel) == [name] && NextAdd(Apply(c, sel, now), w) != RemainingAdd(c, sel)
  {
    var rx: Regex := (pattern, model) => false;
    var w := World([name], map[], rx);
    var c := Check(EMPTY_CHANNEL, w, false, now);
    var sel := Selection([], [name], []);
    SingletonDetected(name, rx, now);
    CleanIsNormal([name]);
    FilterAll([name], m => m in [name]);
    NextRules(c, w, sel);
    assert c.settings.ignored == [];
    assert forall r :: KeptRule(c, sel, r) ==> r == name && !RuleMatches(r, name, rx);
    assert Open(c, w, sel, name) && !NewIgnored(c, w, sel, name);
    RedetectAdd(c, w, sel, now);
  }

  /** A model that is published under the name of a stored rule: adding it lifts the rule, and what the
      rule kept away is pending next. */
  lemma LiftedRuleExample(r: Name, u: Name, now: int)
    requires Tidy(r) && IsRegexRule(r) && !HasComma(r) && Tidy(u) && u != r
    ensures var w := World([r, u], map[], (pattern, model) => model == u);
      var c := Check(EMPTY_CHANNEL.(settings := EMPTY_CHANNEL.settings.(ignored := [r])), w, false, now);
      var all := Selection(c.settings.detected, [], c.settings.removed);
      NextAdd(c, w) == [r] && !RulesHarmless(c, w, all) && NextAdd(Apply(c, all, now), w) != []
  {
    var w := World([r, u], map[], (pattern, model) => model == u);
    var before := EMPTY_CHANNEL.(settings := EMPTY_CHANNEL.settings.(ignored := [r]));
    var c := Check(before, w, false, now);
    var all := Selection(c.settings.detected, [], c.settings.removed);
    CheckIsFresh(before, w, false, now);
    PendingOfRuleExample(c, w, r, u);
    ChosenAll(c, w);
    NextRules(c, w, all);
    assert Open(c, w, all, u) && OldIgnored(c, w, u);
    assert forall k :: !KeptRule(c, all, k);
    assert !NewIgnored(c, w, all, u);
    assert RuleMatches(r, u, w.rx) && r in Normalize(c.settings.ignored);
    assert !HarmlessAt(c, w, all, u);
    RedetectAdd(c, w, all, now);
    NothingRemains(c, w);
  }

  lemma PendingOfRuleExample(c: Channel, w: World, r: Name, u: Name)
    requires Tidy(r) && IsRegexRule(r) && Tidy(u) && u != r
    requires c.models == "" && c.settings.ignored == [r] && w.upstream == [r, u] && w.mapping == map[]
    requires forall p, m :: w.rx(p, m) <==> m == u
    ensures NextAdd(c, w) == [r] && LocalModels(c.models) == []
    ensures Normalize([r, u]) == [r, u] && Normalize([r]) == [r]
    ensures OldIgnored(c, w, u)
  {
    CleanIsNormal([r, u]);
    CleanIsNormal([r]);
    PendingAreFilters(c, w);
    var keep := (m: Name) => m !in [] && m !in w.mapping.Values && !Ignored([r], m, w.rx);
    assert RuleMatches(r, u, w.rx) && !RuleMatches(r, r, w.rx);
    FilterFirst(r, u, keep);
  }

  lemma FilterFirst(r: Name, u: Name, keep: Name -> bool)
    requires keep(r) && !keep(u)
    ensures Filter([r, u], keep) == [r]
  {
    FilterAppend([r], [u], keep);
    FilterAll([r], keep);
    FilterNone([u], keep);
    assert [r] + [u] == [r, u];
  }

  // ---------- The channel record ----------

  datatype Outcome = Skipped | FetchFailed | StoreFailed | AbilitiesFailed | Done

  /** A channel in memory and its database row.  A failed database write leaves the row as it was. */
  class ChannelRecord {
    var channel: Channel
    var row: Channel

    constructor (c: Channel)
      ensures channel == row == c
    {
      channel, row := c, c;
    }

    /** checkAndPersistChannelUpstreamModelUpdates; `w` is absent when the upstream cannot be read. */
    method CheckAndPersist(fetched: bool, w: World, force: bool, allowAutoApply: bool, now: int,
                           minInterval: int, stores: bool, abilities: bool)
      returns (modelsChanged: bool, autoAdded: nat, outcome: Outcome)
      requires channel == row
      modifies this
      ensures outcome.Skipped? <==>
        !force && old(channel).settings.lastCheck > 0 && now - old(channel).settings.lastCheck < minInterval
      ensures outcome.Skipped? ==> channel == old(channel) && row == old(row)
      ensures !outcome.Skipped? && fetched ==> channel == Check(old(channel), w, allowAutoApply, now)
      ensures !outcome.Skipped? && !fetched ==>
        channel == old(channel).(settings := old(channel).settings.(lastCheck := now))
      ensures !outcome.Skipped? ==> row == if stores then channel else old(row)
      ensures outcome.Done? ==> (modelsChanged <==> autoAdded > 0)
      ensures outcome.Done? ==>
        autoAdded == (if allowAutoApply && old(channel).settings.autoSync then |NextAdd(old(channel), w)| else 0)
    {
      modelsChanged, autoAdded := false, 0;
      if !force && channel.settings.lastCheck > 0 && now - channel.settings.lastCheck < minInterval {
        return false, 0, Skipped;
      }
      var settings := channel.settings.(lastCheck := now);
      if !fetched {
        channel := channel.(settings := settings);
        if !stores {
          return false, 0, StoreFailed;
        }
        row := row.(settings := settings);
        return false, 0, FetchFailed;
      }
      var pendingAdd, pendingRemove := NextAdd(channel, w), NextRemove(channel, w);
      if allowAutoApply && settings.autoSync && |pendingAdd| > 0 {
        var originModels := LocalModels(channel.models);
        var mergedModels := Merge(originModels, pendingAdd);
        AutoAddedAll(channel, w);
        if |mergedModels| > |originModels| {
          channel := channel.(models := JoinModels(mergedModels));
          autoAdded := |mergedModels| - |originModels|;
          modelsChanged := true;
        }
        settings := settings.(detected := []);
      } else {
        settings := settings.(detected := pendingAdd);
      }
      settings := settings.(removed := pendingRemove);
      channel := channel.(settings := settings);
      if !stores {
        return false, autoAdded, StoreFailed;
      }
      row := Channel(if modelsChanged then channel.models else row.models, settings);
      if modelsChanged && !abilities {
        return true, autoAdded, AbilitiesFailed;
      }
      return modelsChanged, autoAdded, Done;
    }

    /** applyChannelUpstreamModelUpdates. */
    method ApplyUpdates(sel: Selection, now: int, stores: bool, abilities: bool)
      returns (added: seq<Name>, removed: seq<Name>, remaining: seq<Name>, remainingRemove: seq<Name>,
               modelsChanged: bool, outcome: Outcome)
      requires channel == row
      modifies this
      ensures channel == Apply(old(channel), sel, now)
      ensures row == if stores then channel else old(row)
      ensures outcome == if !stores then StoreFailed else if modelsChanged && !abilities then AbilitiesFailed else Done
      ensures channel.settings.lastCheck == now && channel.settings.autoSync == old(channel).settings.autoSync
      ensures NextModels(old(channel), sel) == LocalModels(old(channel).models) ==>
        channel.models == old(channel).models
      ensures stores ==> AsSelected(old(channel).settings, sel, added, removed, remaining, remainingRemove)
      ensures stores ==>
        && added == ChosenAdd(old(channel), sel) && removed == ChosenRemove(old(channel), sel)
        && remaining == RemainingAdd(old(channel), sel) && remainingRemove == RemainingRemove(old(channel), sel)
        && (modelsChanged <==> NextModels(old(channel), sel) != LocalModels(old(channel).models))
    {
      var settings := channel.settings;
      var pendingAdd := Normalize(settings.detected);
      var pendingRemove := Normalize(settings.removed);
      var addModels := Intersect(sel.add, pendingAdd);
      var ignoreModels := Intersect(sel.ignore, pendingAdd);
      var removeModels := Intersect(sel.remove, pendingRemove);
      removeModels := Subtract(removeModels, addModels);
      var originModels := LocalModels(channel.models);
      var nextModels := ApplySelected(originModels, addModels, removeModels);
      modelsChanged := nextModels != originModels;
      if modelsChanged {
        channel := channel.(models := JoinModels(nextModels));
      }
      settings := settings.(ignored := Merge(settings.ignored, ignoreModels));
      if |addModels| > 0 {
        settings := settings.(ignored := Subtract(settings.ignored, addModels));
      }
      remaining := Subtract(pendingAdd, addModels + ignoreModels);
      remainingRemove := Subtract(pendingRemove, removeModels);
      settings := settings.(detected := remaining, removed := remainingRemove, lastCheck := now);
      channel := channel.(settings := settings);
      if !stores {
        return [], [], [], [], false, StoreFailed;
      }
      row := Channel(if modelsChanged then channel.models else row.models, settings);
      ReportedAsSelected(old(channel), sel);
      return addModels, removeModels, remaining, remainingRemove, modelsChanged,
        if modelsChanged && !abilities then AbilitiesFailed else Done;
    }
  }

  /** The automatic path adds every pending name: none of them is in the list already. */
  lemma AutoAddedAll(c: Channel, w: World)
    ensures Merge(LocalModels(c.models), NextAdd(c, w)) == LocalModels(c.models) + NextAdd(c, w)
  {
    var L, add := LocalModels(c.models), NextAdd(c, w);
    PendingAreFilters(c, w);
    NormalizeIsClean(GetModels(c.models));
    CleanIsNormal(L);
    CleanIsNormal(add);
    FilterAll(add, m => m !in L);
  }
}
