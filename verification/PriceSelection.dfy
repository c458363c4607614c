/** Choosing one provider's price for a model out of a price list of many providers.

    The choice folds a comparison over the providers in the order of their names.  The comparison takes
    prices closer than EPSILON for equal, which is not transitive. */
module PriceSelection {
  import opened Options
  import opened RatioDiff

  /** A floating point number of the price list. */
  datatype Float = NaN | Infinite | Finite(r: real)

  datatype Cost = Cost(input: Option<Float>, output: Option<Float>, cacheRead: Option<Float>)

  /** Providers are known by the place of their name in the order of all names. */
  datatype Candidate = Candidate(provider: nat, input: real, output: Option<real>, cacheRead: Option<real>)

  predicate ValidCost(x: Float) {
    x.Finite? && x.r >= 0.0
  }

  /** There is a finite number that is not negative. */
  predicate IsCost(x: Option<Float>) {
    x.Some? && x.value.Finite? && x.value.r >= 0.0
  }

  /** A number as the price list would have it. */
  function Known(x: Option<real>): Option<Float> {
    if x.Some? then Some(Finite(x.value)) else None
  }

  /** buildModelsDevCandidate. */
  function Build(provider: nat, cost: Cost): (c: Option<Candidate>)
    ensures c.Some? <==>
      && IsCost(cost.input) && (cost.output.Some? ==> IsCost(cost.output))
      && (cost.output.Some? && cost.output.value.r > 0.0 ==> cost.input.value.r > 0.0)
    ensures c.Some? ==>
      && c.value.provider == provider && Finite(c.value.input) == cost.input.value
      && Known(c.value.output) == cost.output
      && Known(c.value.cacheRead) == if IsCost(cost.cacheRead) then cost.cacheRead else None
  {
    if cost.input.None? || !ValidCost(cost.input.value) then None
    else if cost.output.Some? && !ValidCost(cost.output.value) then None
    else if cost.input.value.r == 0.0 && cost.output.Some? && cost.output.value.r > 0.0 then None
    else
      Some(Candidate(provider, cost.input.value.r,
                     if cost.output.Some? then Some(cost.output.value.r) else None,
                     if cost.cacheRead.Some? && ValidCost(cost.cacheRead.value) then Some(cost.cacheRead.value.r)
                     else None))
  }

  /** shouldReplaceModelsDevCandidate. */
  predicate Replaces(current: Candidate, next: Candidate) {
    if (current.input > 0.0) != (next.input > 0.0) then next.input > 0.0
    else if next.input > 0.0 && !NearlyEqual(next.input, current.input) then next.input < current.input
    else next.provider < current.provider
  }

  /** The candidate left after all, in this order. */
  function Pick(cs: seq<Candidate>): (pick: Candidate)
    requires cs != []
    ensures pick in cs
  {
    var last := cs[|cs| - 1];
    if |cs| == 1 then last
    else
      var pick := Pick(cs[..|cs| - 1]);
      if Replaces(pick, last) then last else pick
  }

  // ---------- The choice ----------

  /** In the order of the provider names. */
  predicate Sorted(cs: seq<Candidate>) {
    forall i, j :: 0 <= i < j < |cs| ==> cs[i].provider < cs[j].provider
  }

  predicate NonNegative(cs: seq<Candidate>) {
    forall i :: 0 <= i < |cs| ==> cs[i].input >= 0.0
  }

  /** A price other than 0 is chosen whenever there is one, and among name-sorted providers it is less
      than every other such price plus EPSILON. */
  lemma {:induction false} PickIsCheap(cs: seq<Candidate>, k: nat)
    requires k < |cs| && NonNegative(cs) && Sorted(cs) && cs[k].input > 0.0
    ensures 0.0 < Pick(cs).input < cs[k].input + EPSILON
  {
    var n := |cs| - 1;
    if n > 0 {
      if k < n {
        PickIsCheap(cs[..n], k);
      } else {
        assert Pick(cs[..n]).input >= 0.0;
      }
    }
  }

  lemma {:induction false} PickIsNonZero(cs: seq<Candidate>, k: nat)
    requires k < |cs| && NonNegative(cs) && cs[k].input > 0.0
    ensures Pick(cs).input > 0.0
  {
    var n := |cs| - 1;
    if k < n {
      PickIsNonZero(cs[..n], k);
    }
  }

  // ---------- The order of the providers ----------

  /** Any two prices that are not 0 are equal or at least EPSILON apart. */
  predicate Separated(cs: seq<Candidate>) {
    forall i, j :: 0 <= i < |cs| && 0 <= j < |cs| ==> Apart(cs[i], cs[j])
  }

  predicate Apart(a: Candidate, b: Candidate) {
    a.input > 0.0 && b.input > 0.0 && a.input != b.input ==> !NearlyEqual(a.input, b.input)
  }

  /** A price before none, the lower before the higher, the earlier name before the later. */
  predicate Before(a: Candidate, b: Candidate) {
    if (a.input > 0.0) != (b.input > 0.0) then a.input > 0.0
    else if a.input > 0.0 && a.input != b.input then a.input < b.input
    else a.provider < b.provider
  }

  /** On separated prices the comparison is that order. */
  lemma ReplacesIsBefore(a: Candidate, b: Candidate)
    requires Apart(a, b)
    ensures Replaces(a, b) <==> Before(b, a)
  {
  }

  /** Separated prices: nothing comes before the choice. */
  lemma {:induction false} PickIsFirst(cs: seq<Candidate>, k: nat)
    requires k < |cs| && Separated(cs)
    ensures !Before(cs[k], Pick(cs))
  {
    var n := |cs| - 1;
    if n > 0 {
      var pick := Pick(cs[..n]);
      var p :| 0 <= p < n && cs[..n][p] == pick;
      assert Apart(cs[p], cs[n]);
      ReplacesIsBefore(pick, cs[n]);
      if k < n {
        PickIsFirst(cs[..n], k);
      }
    }
  }

  /** No provider twice. */
  predicate Distinct(cs: seq<Candidate>) {
    forall i, j :: 0 <= i < j < |cs| ==> cs[i].provider != cs[j].provider
  }

  /** Separated prices of distinct providers: the choice does not depend on the order. */
  lemma PickIgnoresOrder(cs: seq<Candidate>, ds: seq<Candidate>)
    requires cs != [] && multiset(cs) == multiset(ds) && Separated(cs) && Distinct(cs)
    ensures ds != [] && Pick(cs) == Pick(ds)
  {
    assert cs[0] in multiset(ds);
    assert Pick(ds) in multiset(cs) && Pick(cs) in multiset(ds);
    var i :| 0 <= i < |cs| && cs[i] == Pick(ds);
    var j :| 0 <= j < |ds| && ds[j] == Pick(cs);
    var p :| 0 <= p < |cs| && cs[p] == Pick(cs);
    PickIsFirst(cs, i);
    SeparatedEitherWay(cs, ds);
    PickIsFirst(ds, j);
    assert Apart(cs[i], cs[p]);
  }

  lemma SeparatedEitherWay(cs: seq<Candidate>, ds: seq<Candidate>)
    requires multiset(cs) == multiset(ds) && Separated(cs)
    ensures Separated(ds)
  {
    forall i, j | 0 <= i < |ds| && 0 <= j < |ds| ensures Apart(ds[i], ds[j]) {
      assert ds[i] in multiset(cs) && ds[j] in multiset(cs);
      var a :| 0 <= a < |cs| && cs[a] == ds[i];
      var b :| 0 <= b < |cs| && cs[b] == ds[j];
      assert Apart(cs[a], cs[b]);
    }
  }

  /** One of two candidates of different providers replaces the other, whoever comes first. */
  lemma OneReplacesTheOther(a: Candidate, b: Candidate)
    requires a.provider != b.provider
    ensures Replaces(a, b) <==> !Replaces(b, a)
  {
  }

  /** No other candidate replaces the k-th. */
  predicate Unbeaten(cs: seq<Candidate>, k: nat)
    requires k < |cs|
  {
    forall i :: 0 <= i < |cs| && i != k ==> !Replaces(cs[k], cs[i])
  }

  lemma {:induction false} UnbeatenIsPicked(cs: seq<Candidate>, k: nat)
    requires k < |cs| && Distinct(cs) && Unbeaten(cs, k)
    ensures Pick(cs) == cs[k]
  {
    var n := |cs| - 1;
    if k < n {
      UnbeatenIsPicked(cs[..n], k);
    } else if n > 0 {
      var pick := Pick(cs[..n]);
      var p :| 0 <= p < n && cs[..n][p] == pick;
      OneReplacesTheOther(cs[p], cs[k]);
    }
  }

  /** What is replaced at the second place is never chosen. */
  lemma {:induction false} BeatenEarlyIsLost(cs: seq<Candidate>)
    requires |cs| >= 2 && Distinct(cs) && Replaces(cs[0], cs[1])
    ensures Pick(cs) != cs[0]
  {
    var n := |cs| - 1;
    if n == 1 {
      assert cs[..1] == [cs[0]] && Pick([cs[0]]) == cs[0];
    } else {
      BeatenEarlyIsLost(cs[..n]);
    }
  }

  /** The k-th element first. */
  function Lead<T>(xs: seq<T>, k: nat): (ys: seq<T>)
    requires k < |xs|
    ensures |ys| == |xs| && ys[0] == xs[k]
  {
    [xs[k]] + xs[..k] + xs[k + 1..]
  }

  lemma LeadKeepsAll<T>(xs: seq<T>, k: nat)
    requires k < |xs|
    ensures multiset(Lead(xs, k)) == multiset(xs)
  {
    assert xs == xs[..k] + [xs[k]] + xs[k + 1..];
  }

  lemma LeadKeepsDistinct(cs: seq<Candidate>, k: nat)
    requires k < |cs| && Distinct(cs)
    ensures Distinct(Lead(cs, k))
  {
    var ds := Lead(cs, k);
    forall i | 0 <= i < |ds| ensures ds[i] == cs[if i == 0 then k else if i <= k then i - 1 else i] {
    }
  }

  ghost predicate OrderIsIrrelevant(cs: seq<Candidate>)
    requires cs != []
  {
    forall ds: seq<Candidate> | ds != [] && multiset(ds) == multiset(cs) :: Pick(ds) == Pick(cs)
  }

  /** The choice is the same in every order of the providers if and only if some candidate is replaced
      by none of the others. */
  lemma OrderIrrelevantIffUnbeaten(cs: seq<Candidate>)
    requires cs != [] && Distinct(cs)
    ensures OrderIsIrrelevant(cs) <==> exists k :: 0 <= k < |cs| && Unbeaten(cs, k)
  {
    if k :| 0 <= k < |cs| && Unbeaten(cs, k) {
      forall ds: seq<Candidate> | ds != [] && multiset(ds) == multiset(cs) ensures Pick(ds) == cs[k] {
        UnbeatenAnywhere(cs, k, ds);
      }
      UnbeatenIsPicked(cs, k);
    } else {
      var k :| 0 <= k < |cs| && cs[k] == Pick(cs);
      assert !Unbeaten(cs, k);
      var i :| 0 <= i < |cs| && i != k && Replaces(cs[k], cs[i]);
      BeatenIsAvoidable(cs, k, i);
    }
  }

  lemma BeatenIsAvoidable(cs: seq<Candidate>, k: nat, i: nat)
    requires k < |cs| && i < |cs| && i != k && Distinct(cs) && cs[k] == Pick(cs) && Replaces(cs[k], cs[i])
    ensures !OrderIsIrrelevant(cs)
  {
    var ds := FrontPair(cs, k, i);
    BeatenEarlyIsLost(ds);
  }

  /** The same candidates in an order that begins with the k-th and the i-th. */
  lemma FrontPair(cs: seq<Candidate>, k: nat, i: nat) returns (ds: seq<Candidate>)
    requires k < |cs| && i < |cs| && i != k && Distinct(cs)
    ensures |ds| == |cs| && multiset(ds) == multiset(cs) && Distinct(ds) && ds[0] == cs[k] && ds[1] == cs[i]
  {
    var second := Lead(cs, i);
    LeadKeepsAll(cs, i);
    LeadKeepsDistinct(cs, i);
    var at := if k < i then k + 1 else k;
    assert second[at] == cs[k];
    ds := Lead(second, at);
    LeadKeepsAll(second, at);
    LeadKeepsDistinct(second, at);
    assert ds[1] == second[0];
  }

  lemma UnbeatenAnywhere(cs: seq<Candidate>, k: nat, ds: seq<Candidate>)
    requires k < |cs| && Distinct(cs) && Unbeaten(cs, k) && multiset(ds) == multiset(cs) && ds != []
    ensures Pick(ds) == cs[k]
  {
    assert cs[k] in multiset(ds) && Pick(ds) in multiset(cs);
    var j :| 0 <= j < |ds| && ds[j] == cs[k];
    forall i | 0 <= i < |ds| && i != j ensures !Replaces(ds[j], ds[i]) {
      assert ds[i] in multiset(cs);
      var c :| 0 <= c < |cs| && cs[c] == ds[i];
      if c == k {
        OneReplacesItself(ds[j]);
      }
    }
    DistinctAnywhere(cs, ds);
    UnbeatenIsPicked(ds, j);
  }

  lemma OneReplacesItself(c: Candidate)
    ensures !Replaces(c, c)
  {
  }

  lemma DistinctAnywhere(cs: seq<Candidate>, ds: seq<Candidate>)
    requires Distinct(cs) && multiset(ds) == multiset(cs)
    ensures Distinct(ds)
  {
    forall i, j | 0 <= i < j < |ds| ensures ds[i].provider != ds[j].provider {
      if ds[i] == ds[j] {
        TwiceCounts(ds, i, j);
        OnceCounts(cs, ds[i]);
      } else {
        assert ds[i] in multiset(cs) && ds[j] in multiset(cs);
        var a :| 0 <= a < |cs| && cs[a] == ds[i];
        var b :| 0 <= b < |cs| && cs[b] == ds[j];
      }
    }
  }

  lemma TwiceCounts(ds: seq<Candidate>, i: nat, j: nat)
    requires i < j < |ds| && ds[i] == ds[j]
    ensures multiset(ds)[ds[i]] >= 2
  {
    assert ds == ds[..j] + [ds[j]] + ds[j + 1..];
    assert ds[i] in ds[..j];
  }

  lemma {:induction false} OnceCounts(cs: seq<Candidate>, c: Candidate)
    requires Distinct(cs)
    ensures multiset(cs)[c] <= 1
  {
    if cs != [] {
      var init, last := cs[..|cs| - 1], cs[|cs| - 1];
      OnceCounts(init, c);
      assert cs == init + [last];
      if last == c {
        assert c !in init;
      }
    }
  }

  // ---------- Who offers which price ----------

  function Prices(cs: seq<Candidate>): (ps: seq<real>)
    ensures |ps| == |cs|
  {
    seq(|cs|, i requires 0 <= i < |cs| => cs[i].input)
  }

  /** A name-sorted list in which each of these prices is offered by someone. */
  predicate Offering(cs: seq<Candidate>, prices: seq<real>) {
    Sorted(cs) && multiset(Prices(cs)) == multiset(prices)
  }

  /** The chosen price does not depend on who offers which. */
  ghost predicate OnePrice(prices: seq<real>) {
    forall a: seq<Candidate>, b: seq<Candidate> | Offering(a, prices) && Offering(b, prices) && a != [] && b != [] ::
      Pick(a).input == Pick(b).input
  }

  /** The lowest price that is not 0. */
  predicate IsLowest(prices: seq<real>, i: nat)
    requires i < |prices|
  {
    prices[i] > 0.0 && forall k :: 0 <= k < |prices| && prices[k] > 0.0 ==> prices[i] <= prices[k]
  }

  /** No price is above the lowest by less than EPSILON. */
  predicate GapClear(prices: seq<real>) {
    forall i, k :: 0 <= i < |prices| && 0 <= k < |prices| && IsLowest(prices, i) ==>
      !(prices[i] < prices[k] < prices[i] + EPSILON)
  }

  /** Over name-sorted lists the chosen price is the same whoever offers which price if and only if no
      price is above the lowest one, other than 0, by less than EPSILON; then it is the lowest. */
  lemma OnePriceIffGapClear(prices: seq<real>)
    requires forall i :: 0 <= i < |prices| ==> prices[i] >= 0.0
    ensures OnePrice(prices) <==> GapClear(prices)
    ensures GapClear(prices) ==>
      forall cs: seq<Candidate>, i: nat | Offering(cs, prices) && cs != [] && i < |prices| && IsLowest(prices, i) ::
        Pick(cs).input == prices[i]
  {
    if GapClear(prices) {
      forall cs: seq<Candidate>, i: nat | Offering(cs, prices) && cs != [] && i < |prices| && IsLowest(prices, i)
        ensures Pick(cs).input == prices[i]
      {
        ClearGapPicksLowest(cs, prices, i);
      }
      forall a: seq<Candidate>, b: seq<Candidate> | Offering(a, prices) && Offering(b, prices) && a != [] && b != []
        ensures Pick(a).input == Pick(b).input
      {
        SamePrice(a, b, prices);
      }
    } else {
      var i, k :|
        0 <= i < |prices| && 0 <= k < |prices| && IsLowest(prices, i) && prices[i] < prices[k] < prices[i] + EPSILON;
      var a := LeadingOffer(prices, i, i);
      var b := LeadingOffer(prices, k, i);
    }
  }

  lemma PriceIsOffered(cs: seq<Candidate>, prices: seq<real>, i: nat) returns (j: nat)
    requires Offering(cs, prices) && i < |prices|
    ensures j < |cs| && cs[j].input == prices[i]
  {
    assert prices[i] in multiset(Prices(cs));
    j :| 0 <= j < |cs| && Prices(cs)[j] == prices[i];
  }

  lemma OfferIsPrice(cs: seq<Candidate>, prices: seq<real>, j: nat) returns (i: nat)
    requires Offering(cs, prices) && j < |cs|
    ensures i < |prices| && cs[j].input == prices[i]
  {
    assert Prices(cs)[j] in multiset(prices);
    i :| 0 <= i < |prices| && prices[i] == Prices(cs)[j];
  }

  lemma OffersAreNonNegative(cs: seq<Candidate>, prices: seq<real>)
    requires Offering(cs, prices) && forall i :: 0 <= i < |prices| ==> prices[i] >= 0.0
    ensures NonNegative(cs)
  {
    forall j | 0 <= j < |cs| ensures cs[j].input >= 0.0 {
      var i := OfferIsPrice(cs, prices, j);
    }
  }

  lemma ClearGapPicksLowest(cs: seq<Candidate>, prices: seq<real>, i: nat)
    requires Offering(cs, prices) && cs != [] && i < |prices| && IsLowest(prices, i) && GapClear(prices)
    requires forall k :: 0 <= k < |prices| ==> prices[k] >= 0.0
    ensures Pick(cs).input == prices[i]
  {
    OffersAreNonNegative(cs, prices);
    var j := PriceIsOffered(cs, prices, i);
    PickIsCheap(cs, j);
    var p :| 0 <= p < |cs| && cs[p] == Pick(cs);
    var q := OfferIsPrice(cs, prices, p);
  }

  lemma SamePrice(a: seq<Candidate>, b: seq<Candidate>, prices: seq<real>)
    requires Offering(a, prices) && Offering(b, prices) && a != [] && b != [] && GapClear(prices)
    requires forall k :: 0 <= k < |prices| ==> prices[k] >= 0.0
    ensures Pick(a).input == Pick(b).input
  {
    if i :| 0 <= i < |prices| && prices[i] > 0.0 {
      var low := Lowest(prices, i);
      ClearGapPicksLowest(a, prices, low);
      ClearGapPicksLowest(b, prices, low);
    } else {
      var p :| 0 <= p < |a| && a[p] == Pick(a);
      var q :| 0 <= q < |b| && b[q] == Pick(b);
      var i := OfferIsPrice(a, prices, p);
      var j := OfferIsPrice(b, prices, q);
    }
  }

  lemma {:induction false} Lowest(prices: seq<real>, i: nat) returns (low: nat)
    requires i < |prices| && prices[i] > 0.0
    ensures low < |prices| && IsLowest(prices, low)
  {
    low := i;
    for k := 0 to |prices|
      invariant low < |prices| && prices[low] > 0.0
      invariant forall j :: 0 <= j < k && prices[j] > 0.0 ==> prices[low] <= prices[j]
    {
      if 0.0 < prices[k] < prices[low] {
        low := k;
      }
    }
  }

  /** Providers in the order of their names offering these prices. */
  function Listed(prices: seq<real>): (cs: seq<Candidate>)
    ensures |cs| == |prices|
  {
    seq(|prices|, i requires 0 <= i < |prices| => Candidate(i, prices[i], None, None))
  }

  /** The first of them is chosen when it is less than EPSILON above the lowest price. */
  lemma {:induction false} FirstWithinReachIsPicked(cs: seq<Candidate>, low: real)
    requires cs != [] && Sorted(cs) && 0.0 < low <= cs[0].input < low + EPSILON
    requires forall k :: 0 <= k < |cs| ==> cs[k].input == 0.0 || cs[k].input >= low
    ensures Pick(cs) == cs[0]
  {
    if |cs| > 1 {
      FirstWithinReachIsPicked(cs[..|cs| - 1], low);
    }
  }

  /** Any price within reach of the lowest is chosen when the first provider offers it. */
  lemma LeadingOffer(prices: seq<real>, k: nat, i: nat) returns (cs: seq<Candidate>)
    requires k < |prices| && i < |prices| && IsLowest(prices, i) && prices[i] <= prices[k] < prices[i] + EPSILON
    requires forall j :: 0 <= j < |prices| ==> prices[j] >= 0.0
    ensures cs != [] && Offering(cs, prices) && Pick(cs).input == prices[k]
  {
    var led := Lead(prices, k);
    LeadKeepsAll(prices, k);
    cs := Listed(led);
    assert Prices(cs) == led;
    forall j | 0 <= j < |led| ensures led[j] == 0.0 || led[j] >= prices[i] {
      assert led[j] == prices[if j == 0 then k else if j <= k then j - 1 else j];
    }
    FirstWithinReachIsPicked(cs, prices[i]);
  }

  /** Three prices within reach of each other: which one is chosen, and at which price, depends on who
      offers them. */
  lemma OrderMatters()
    ensures exists a: seq<Candidate>, b: seq<Candidate> ::
      && Sorted(a) && Sorted(b) && |a| == |b| == 3
      && multiset([a[0].input, a[1].input, a[2].input]) == multiset([b[0].input, b[1].input, b[2].input])
      && Pick(a).input != Pick(b).input
  {
    var low, mid, high := 1.0, 1.0 + 0.6 * EPSILON, 1.0 + 1.2 * EPSILON;
    var a := Offers(high, mid, low);
    var b := Offers(mid, high, low);
    PickOfThree(a);
    PickOfThree(b);
    assert Pick(a).input == low;
    assert Pick(b).input == mid;
    assert [a[0].input, a[1].input, a[2].input] == [high, mid, low];
    assert [b[0].input, b[1].input, b[2].input] == [mid, high, low];
  }

  function Offers(x: real, y: real, z: real): seq<Candidate> {
    [Candidate(0, x, None, None), Candidate(1, y, None, None), Candidate(2, z, None, None)]
  }

  lemma PickOfThree(cs: seq<Candidate>)
    requires |cs| == 3
    ensures var two := if Replaces(cs[0], cs[1]) then cs[1] else cs[0];
      Pick(cs) == if Replaces(two, cs[2]) then cs[2] else two
  {
    assert cs[..2][..1] == [cs[0]];
    assert Pick([cs[0]]) == cs[0];
  }

  // ---------- The fold over the price list ----------

  /** A provider of the list with its models' costs. */
  datatype Provider = Provider(rank: nat, models: map<Model, Cost>)

  /** The candidates for a model, in the order of the list. */
  function Candidates(providers: seq<Provider>, m: Model): seq<Candidate> {
    if providers == [] then []
    else
      var p := providers[|providers| - 1];
      Candidates(providers[..|providers| - 1], m) + Offer(p, m)
  }

  function Offer(p: Provider, m: Model): seq<Candidate> {
    if m !in p.models then []
    else match Build(p.rank, p.models[m])
      case None => []
      case Some(c) => [c]
  }

  /** The entry for a model, if any, is the choice among these candidates. */
  predicate Selects(selected: map<Model, Candidate>, m: Model, cs: seq<Candidate>) {
    (m in selected <==> cs != []) && (m in selected ==> selected[m] == Pick(cs))
  }

  method Select(providers: seq<Provider>) returns (selected: map<Model, Candidate>)
    ensures forall m :: Selects(selected, m, Candidates(providers, m))
  {
    selected := map[];
    for i := 0 to |providers|
      invariant forall m :: Selects(selected, m, Candidates(providers[..i], m))
    {
      selected := SelectFrom(providers[..i], providers[i], selected);
      assert providers[..i + 1][..i] == providers[..i];
    }
    assert providers[..|providers|] == providers;
  }

  method SelectFrom(ghost before: seq<Provider>, p: Provider, selected: map<Model, Candidate>)
    returns (next: map<Model, Candidate>)
    requires forall m :: Selects(selected, m, Candidates(before, m))
    ensures forall m :: Selects(next, m, Candidates(before, m) + Offer(p, m))
  {
    next := selected;
    var left := p.models.Keys;
    while left != {}
      invariant left <= p.models.Keys
      invariant forall m :: m in left || m !in p.models ==> Selects(next, m, Candidates(before, m))
      invariant forall m :: m in p.models && m !in left ==> Selects(next, m, Candidates(before, m) + Offer(p, m))
      decreases left
    {
      var m :| m in left;
      OfferSelects(next, Candidates(before, m), p, m);
      var candidate := Build(p.rank, p.models[m]);
      if candidate.Some? && (m !in next || Replaces(next[m], candidate.value)) {
        next := next[m := candidate.value];
      }
      left := left - {m};
    }
    assert forall m :: m !in p.models ==> Candidates(before, m) + Offer(p, m) == Candidates(before, m);
  }

  lemma OfferSelects(was: map<Model, Candidate>, cs: seq<Candidate>, p: Provider, m: Model)
    requires Selects(was, m, cs) && m in p.models
    ensures var c := Build(p.rank, p.models[m]);
      Selects(if c.Some? && (m !in was || Replaces(was[m], c.value)) then was[m := c.value] else was, m,
              cs + Offer(p, m))
  {
    var offer := Offer(p, m);
    if offer == [] {
      assert cs + offer == cs;
    } else {
      assert (cs + offer)[..|cs|] == cs;
    }
  }

  /** The candidates of a name-sorted list are themselves name-sorted, with prices that are not negative. */
  lemma {:induction false} CandidatesAreSorted(providers: seq<Provider>, m: Model)
    requires forall i, j :: 0 <= i < j < |providers| ==> providers[i].rank < providers[j].rank
    ensures Sorted(Candidates(providers, m)) && NonNegative(Candidates(providers, m))
    ensures providers != [] ==>
      forall i :: 0 <= i < |Candidates(providers, m)| ==>
        Candidates(providers, m)[i].provider <= providers[|providers| - 1].rank
  {
    if providers != [] {
      CandidatesAreSorted(providers[..|providers| - 1], m);
    }
  }

  /** So the price selected from a name-sorted list is another than 0 if any provider has one, and less
      than each of them plus EPSILON. */
  lemma SelectedIsCheap(providers: seq<Provider>, m: Model, p: nat)
    requires forall i, j :: 0 <= i < j < |providers| ==> providers[i].rank < providers[j].rank
    requires p < |providers| && Offer(providers[p], m) != [] && Offer(providers[p], m)[0].input > 0.0
    ensures Candidates(providers, m) != []
    ensures 0.0 < Pick(Candidates(providers, m)).input < Offer(providers[p], m)[0].input + EPSILON
  {
    var k := CandidateOf(providers, m, p);
    CandidatesAreSorted(providers, m);
    PickIsCheap(Candidates(providers, m), k);
  }

  /** The candidates for a model are the offers for it and nothing else. */
  lemma {:induction false} CandidateIsOffer(providers: seq<Provider>, m: Model, k: nat) returns (p: nat)
    requires k < |Candidates(providers, m)|
    ensures p < |providers| && m in providers[p].models
    ensures Build(providers[p].rank, providers[p].models[m]) == Some(Candidates(providers, m)[k])
  {
    var n := |providers| - 1;
    if k < |Candidates(providers[..n], m)| {
      p := CandidateIsOffer(providers[..n], m, k);
    } else {
      p := n;
    }
  }

  lemma {:induction false} CandidateOf(providers: seq<Provider>, m: Model, p: nat) returns (k: nat)
    requires p < |providers| && Offer(providers[p], m) != []
    ensures k < |Candidates(providers, m)| && Candidates(providers, m)[k] == Offer(providers[p], m)[0]
  {
    var n := |providers| - 1;
    if p < n {
      k := CandidateOf(providers[..n], m, p);
    } else {
      k := |Candidates(providers[..n], m)|;
    }
  }
}
