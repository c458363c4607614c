/** Ordered lists of names, as the model lists and key lists are: trimmed, without blanks, without
    duplicates, filtered. */
module NameLists {
  import opened Texts

  /** A model name or a channel key. */
  datatype Name = Name(text: string) {
    function Trimmed(): Name { Name(TrimSpace(text)) }
    predicate Blank() { text == "" }
  }

  /** Trimmed, without blanks, first occurrences only. */
  function Normalize(names: seq<Name>): seq<Name> {
    if names == [] then []
    else
      var init := Normalize(names[..|names| - 1]);
      var last := names[|names| - 1].Trimmed();
      if last.Blank() || last in init then init else init + [last]
  }

  function Filter(xs: seq<Name>, keep: Name -> bool): (r: seq<Name>)
    ensures forall x :: x in r <==> x in xs && keep(x)
  {
    if xs == [] then []
    else
      var init := Filter(xs[..|xs| - 1], keep);
      if keep(xs[|xs| - 1]) then init + [xs[|xs| - 1]] else init
  }

  function Names(texts: seq<string>): seq<Name> {
    seq(|texts|, i requires 0 <= i < |texts| => Name(texts[i]))
  }

  function TextsOf(names: seq<Name>): seq<string> {
    seq(|names|, i requires 0 <= i < |names| => names[i].text)
  }

  // ---------- Facts about normalized lists ----------

  predicate Tidy(x: Name) {
    !x.Blank() && x.Trimmed() == x
  }

  predicate Distinct(xs: seq<Name>) {
    forall i, j :: 0 <= i < j < |xs| ==> xs[i] != xs[j]
  }

  /** What Normalize produces and leaves alone. */
  predicate Clean(xs: seq<Name>) {
    Distinct(xs) && forall x :: x in xs ==> Tidy(x)
  }

  lemma {:induction false} NormalizeIsClean(names: seq<Name>)
    ensures Clean(Normalize(names))
  {
    if names != [] {
      NormalizeIsClean(names[..|names| - 1]);
      TrimSpaceIdempotent(names[|names| - 1].text);
    }
  }

  lemma {:induction false} NormalizeMember(names: seq<Name>, m: Name)
    ensures m in Normalize(names) <==> !m.Blank() && exists x :: x in names && x.Trimmed() == m
  {
    if names != [] {
      NormalizeMember(names[..|names| - 1], m);
      assert forall x :: x in names <==> x in names[..|names| - 1] || x == names[|names| - 1];
    }
  }

  lemma {:induction false} CleanIsNormal(xs: seq<Name>)
    requires Clean(xs)
    ensures Normalize(xs) == xs
  {
    if xs != [] {
      CleanIsNormal(xs[..|xs| - 1]);
      assert Tidy(xs[|xs| - 1]) && xs[|xs| - 1] !in xs[..|xs| - 1];
      assert xs == xs[..|xs| - 1] + [xs[|xs| - 1]];
    }
  }

  /** Names come in the order of their first occurrence: normalizing more only adds at the end. */
  lemma {:induction false} NormalizeGrows(names: seq<Name>, i: nat)
    requires i <= |names|
    ensures Normalize(names[..i]) <= Normalize(names)
  {
    if i < |names| {
      assert names[..|names| - 1][..i] == names[..i];
      NormalizeGrows(names[..|names| - 1], i);
    } else {
      assert names[..i] == names;
    }
  }

  lemma NormalizeLast(xs: seq<Name>, ys: seq<Name>)
    requires ys != []
    ensures var had, last := Normalize(xs + ys[..|ys| - 1]), ys[|ys| - 1].Trimmed();
      Normalize(xs + ys) == if last.Blank() || last in had then had else had + [last]
  {
    assert (xs + ys)[..|xs + ys| - 1] == xs + ys[..|ys| - 1];
  }

  /** Normalizing a leading part first makes no difference. */
  lemma {:induction false} NormalizeHead(xs: seq<Name>, ys: seq<Name>)
    ensures Normalize(Normalize(xs) + ys) == Normalize(xs + ys)
  {
    if ys == [] {
      assert xs + ys == xs && Normalize(xs) + ys == Normalize(xs);
      NormalizeIsClean(xs);
      CleanIsNormal(Normalize(xs));
    } else {
      NormalizeHead(xs, ys[..|ys| - 1]);
      NormalizeLast(xs, ys);
      NormalizeLast(Normalize(xs), ys);
    }
  }

  function Without(names: seq<Name>, xs: seq<Name>): seq<Name> {
    Filter(names, m => m !in xs)
  }

  lemma InEither(xs: seq<Name>, ys: seq<Name>, x: Name)
    ensures x in xs + ys <==> x in xs || x in ys
  {
  }

  /** One more name behind xs. */
  lemma WithoutLast(xs: seq<Name>, had: seq<Name>, last: Name)
    ensures var both := xs + Without(had, xs);
      (if last.Blank() || last in both then both else both + [last])
      == xs + Without(if last.Blank() || last in had then had else had + [last], xs)
  {
    var kept := Without(had, xs);
    FilterLast(had, last, m => m !in xs);
    InEither(xs, kept, last);
    if !last.Blank() && last !in had && last !in xs {
      assert Without(had + [last], xs) == kept + [last];
    } else if !last.Blank() && last !in had {
      assert Without(had + [last], xs) == kept + [];
    }
  }

  lemma NormalizeWithout(xs: seq<Name>, ys: seq<Name>)
    requires ys != [] && Normalize(xs + ys[..|ys| - 1]) == xs + Without(Normalize(ys[..|ys| - 1]), xs)
    ensures Normalize(xs + ys) == xs + Without(Normalize(ys), xs)
  {
    NormalizeLast(xs, ys);
    WithoutLast(xs, Normalize(ys[..|ys| - 1]), ys[|ys| - 1].Trimmed());
  }

  /** A clean list stays in front; what follows is normalized and stripped of what is there. */
  lemma {:induction false} NormalizeAppend(xs: seq<Name>, ys: seq<Name>)
    requires Clean(xs)
    ensures Normalize(xs + ys) == xs + Without(Normalize(ys), xs)
  {
    if ys == [] {
      assert xs + ys == xs;
      CleanIsNormal(xs);
    } else {
      NormalizeAppend(xs, ys[..|ys| - 1]);
      NormalizeWithout(xs, ys);
    }
  }

  lemma FilterLast(xs: seq<Name>, x: Name, keep: Name -> bool)
    ensures Filter(xs + [x], keep) == Filter(xs, keep) + if keep(x) then [x] else []
  {
    assert (xs + [x])[..|xs|] == xs;
  }

  lemma {:induction false} NormalizeSkipsBlank(xs: seq<Name>)
    ensures Normalize([Name("")] + xs) == Normalize(xs) == Normalize(xs + [Name("")])
  {
    BlankIsDropped();
    assert (xs + [Name("")])[..|xs|] == xs;
    if xs == [] {
      assert [Name("")] + xs == [Name("")] && [Name("")][..0] == [];
    } else {
      var init := xs[..|xs| - 1];
      NormalizeSkipsBlank(init);
      assert ([Name("")] + xs)[..|xs|] == [Name("")] + init;
    }
  }

  lemma BlankIsDropped()
    ensures Name("").Trimmed() == Name("")
  {
  }

  lemma {:induction false} FilterIsClean(xs: seq<Name>, keep: Name -> bool)
    requires Clean(xs)
    ensures Clean(Filter(xs, keep))
  {
    if xs != [] {
      FilterIsClean(xs[..|xs| - 1], keep);
    }
  }

  lemma {:induction false} FilterTwice(xs: seq<Name>, p: Name -> bool, q: Name -> bool)
    ensures Filter(Filter(xs, p), q) == Filter(xs, x => p(x) && q(x))
  {
    if xs != [] {
      var init, last := Filter(xs[..|xs| - 1], p), xs[|xs| - 1];
      FilterTwice(xs[..|xs| - 1], p, q);
      if p(last) {
        assert (init + [last])[..|init|] == init;
      }
    }
  }

  /** Two filters of one list agree as sequences exactly when they agree on its elements. */
  lemma {:induction false} FilterAgrees(xs: seq<Name>, p: Name -> bool, q: Name -> bool)
    ensures Filter(xs, p) == Filter(xs, q) <==> forall x :: x in xs ==> p(x) == q(x)
  {
    if forall x :: x in xs ==> p(x) == q(x) {
      FilterCongruent(xs, p, q);
    } else {
      var x :| x in xs && p(x) != q(x);
      assert x in Filter(xs, p) <==> x !in Filter(xs, q);
    }
  }

  lemma {:induction false} FilterCongruent(xs: seq<Name>, p: Name -> bool, q: Name -> bool)
    requires forall x :: x in xs ==> p(x) == q(x)
    ensures Filter(xs, p) == Filter(xs, q)
  {
    if xs != [] {
      FilterCongruent(xs[..|xs| - 1], p, q);
    }
  }

  lemma {:induction false} FilterAppend(xs: seq<Name>, ys: seq<Name>, p: Name -> bool)
    ensures Filter(xs + ys, p) == Filter(xs, p) + Filter(ys, p)
  {
    if ys == [] {
      assert xs + ys == xs;
    } else {
      assert (xs + ys)[..|xs + ys| - 1] == xs + ys[..|ys| - 1];
      FilterAppend(xs, ys[..|ys| - 1], p);
    }
  }

  lemma {:induction false} FilterAll(xs: seq<Name>, p: Name -> bool)
    requires forall x :: x in xs ==> p(x)
    ensures Filter(xs, p) == xs
  {
    if xs != [] {
      var init, last := xs[..|xs| - 1], xs[|xs| - 1];
      assert xs == init + [last] && last in xs;
      FilterAll(init, p);
    }
  }

  lemma FilterNone(xs: seq<Name>, p: Name -> bool)
    requires forall x :: x in xs ==> !p(x)
    ensures Filter(xs, p) == []
  {
    if Filter(xs, p) != [] {
      assert Filter(xs, p)[0] in Filter(xs, p);
    }
  }
}
