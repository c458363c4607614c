/** The difference between local prices and those of upstream channels.

    A table of (model, field) cells is built in several passes: collect the models, compare every cell of
    every channel, keep the items worth showing, find the channels that differ anywhere, and prune the
    others.  The passes are specified by the functions here and carried out by the methods below. */
module RatioDiff {

  datatype Value = Nil | Num(r: real) | Str(text: string) | Bool(b: bool)

  datatype Field =
    | ModelRatio | CompletionRatio | CacheRatio | CreateCacheRatio | ImageRatio | AudioRatio
    | AudioCompletionRatio | ModelPrice | BillingMode | BillingExpr

  datatype Model = Model(name: string)

  datatype Channel = Channel(name: string)

  type Data = map<Field, map<Model, Value>>

  datatype Item = Item(current: Value, upstreams: map<Channel, Value>, confidence: map<Channel, bool>)

  type Ratios = map<Field, Item>

  type Differences = map<Model, Ratios>

  const EPSILON := 0.000000001

  const SAME := Str("same")

  const FIELDS := {ModelRatio, CompletionRatio, CacheRatio, CreateCacheRatio, ImageRatio, AudioRatio,
                   AudioCompletionRatio, ModelPrice, BillingMode, BillingExpr}

  predicate NearlyEqual(a: real, b: real) {
    if a > b then a - b < EPSILON else b - a < EPSILON
  }

  predicate Equal(a: Value, b: Value) {
    if a.Num? && b.Num? then NearlyEqual(a.r, b.r) else a == b
  }

  // ---------- Cells ----------

  predicate Has(d: Data, f: Field, m: Model) {
    f in d && m in d[f]
  }

  /** The value of a cell; a missing one is nil. */
  function Get(d: Data, f: Field, m: Model): Value {
    if Has(d, f, m) then d[f][m] else Nil
  }

  /** What is shown of a channel's cell beside the local value. */
  function Cell(local: Value, d: Data, f: Field, m: Model): Value {
    if !Has(d, f, m) then (if local.Nil? then SAME else Nil)
    else if Equal(local, Get(d, f, m)) then SAME
    else Get(d, f, m)
  }

  predicate Differs(local: Value, d: Data, f: Field, m: Model) {
    Has(d, f, m) && !Equal(local, Get(d, f, m))
  }

  predicate Visible(v: Value) {
    v != Nil && v != SAME
  }

  /** A price list whose model and completion ratios look like defaults is not to be trusted. */
  predicate Trusted(d: Data, m: Model) {
    !(Has(d, ModelRatio, m) && Has(d, CompletionRatio, m)
      && Get(d, ModelRatio, m).Num? && Get(d, CompletionRatio, m).Num?
      && NearlyEqual(Get(d, ModelRatio, m).r, 37.5) && NearlyEqual(Get(d, CompletionRatio, m).r, 1.0))
  }

  // ---------- The passes, as functions ----------

  predicate Included(local: Data, chans: map<Channel, Data>, f: Field, m: Model) {
    if Get(local, f, m).Nil? then exists c :: c in chans && Has(chans[c], f, m)
    else exists c :: c in chans && Differs(Get(local, f, m), chans[c], f, m)
  }

  function ItemOf(local: Data, chans: map<Channel, Data>, f: Field, m: Model): Item {
    Item(Get(local, f, m), map c | c in chans :: Cell(Get(local, f, m), chans[c], f, m),
         map c | c in chans :: Trusted(chans[c], m))
  }

  function RatiosOf(local: Data, chans: map<Channel, Data>, m: Model): Ratios {
    map f | f in FIELDS && Included(local, chans, f, m) :: ItemOf(local, chans, f, m)
  }

  function ModelsOf(d: Data): set<Model> {
    set f, m | f in d && m in d[f] :: m
  }

  function AllModels(local: Data, chans: map<Channel, Data>): set<Model> {
    ModelsOf(local) + set c, m | c in chans && m in ModelsOf(chans[c]) :: m
  }

  function Built(local: Data, chans: map<Channel, Data>): Differences {
    map m | m in AllModels(local, chans) && RatiosOf(local, chans, m) != map[] :: RatiosOf(local, chans, m)
  }

  function ItemChannels(item: Item): set<Channel> {
    set c | c in item.upstreams && Visible(item.upstreams[c])
  }

  function RatiosChannels(rs: Ratios): set<Channel> {
    set f, c | f in rs && c in ItemChannels(rs[f]) :: c
  }

  function DifferentChannels(d: Differences): set<Channel> {
    set m, c | m in d && c in RatiosChannels(d[m]) :: c
  }

  function PruneItem(item: Item, keep: set<Channel>): Item {
    item.(upstreams := map c | c in item.upstreams && c in keep :: item.upstreams[c],
          confidence := map c | c in item.confidence && c in keep :: item.confidence[c])
  }

  predicate AllSame(item: Item) {
    forall c :: c in item.upstreams ==> item.upstreams[c] == SAME
  }

  function PruneRatios(rs: Ratios, keep: set<Channel>): Ratios {
    map f | f in rs && !AllSame(PruneItem(rs[f], keep)) :: PruneItem(rs[f], keep)
  }

  function Prune(d: Differences, keep: set<Channel>): Differences {
    map m | m in d && PruneRatios(d[m], keep) != map[] :: PruneRatios(d[m], keep)
  }

  function Expected(local: Data, chans: map<Channel, Data>): Differences {
    Prune(Built(local, chans), DifferentChannels(Built(local, chans)))
  }

  // ---------- What the result promises ----------

  /** The channel offers something to show that is not the local value. */
  predicate RealDifference(local: Data, d: Data, f: Field, m: Model) {
    Differs(Get(local, f, m), d, f, m) && Visible(Get(d, f, m))
  }

  ghost predicate DiffersSomewhere(local: Data, d: Data) {
    exists f, m :: RealDifference(local, d, f, m)
  }

  predicate Reported(d: Differences, f: Field, m: Model) {
    m in d && f in d[m]
  }

  lemma BuiltIffIncluded(local: Data, chans: map<Channel, Data>, f: Field, m: Model)
    ensures Reported(Built(local, chans), f, m) <==> Included(local, chans, f, m)
    ensures Included(local, chans, f, m) ==> Built(local, chans)[m][f] == ItemOf(local, chans, f, m)
  {
    if Included(local, chans, f, m) {
      assert f in FIELDS;
      if Get(local, f, m).Nil? {
        var c :| c in chans && Has(chans[c], f, m);
        assert m in ModelsOf(chans[c]);
      } else {
        assert m in ModelsOf(local);
      }
      assert f in RatiosOf(local, chans, m);
    }
  }

  lemma VisibleIffReal(local: Data, chans: map<Channel, Data>, f: Field, m: Model, c: Channel)
    requires c in chans
    ensures Visible(Cell(Get(local, f, m), chans[c], f, m)) <==> RealDifference(local, chans[c], f, m)
    ensures RealDifference(local, chans[c], f, m) ==> Included(local, chans, f, m)
  {
  }

  lemma DifferentIffSomewhere(local: Data, chans: map<Channel, Data>, c: Channel)
    ensures c in DifferentChannels(Built(local, chans)) <==> c in chans && DiffersSomewhere(local, chans[c])
  {
    var built := Built(local, chans);
    if c in DifferentChannels(built) {
      var m :| m in built && c in RatiosChannels(built[m]);
      var f :| f in built[m] && c in ItemChannels(built[m][f]);
      BuiltIsDifferent(local, chans, f, m, c);
    }
    if c in chans && DiffersSomewhere(local, chans[c]) {
      var f, m :| RealDifference(local, chans[c], f, m);
      DifferentIsBuilt(local, chans, f, m, c);
      assert c in RatiosChannels(built[m]);
    }
  }

  lemma BuiltIsDifferent(local: Data, chans: map<Channel, Data>, f: Field, m: Model, c: Channel)
    requires Reported(Built(local, chans), f, m) && c in ItemChannels(Built(local, chans)[m][f])
    ensures c in chans && RealDifference(local, chans[c], f, m)
  {
    BuiltIffIncluded(local, chans, f, m);
    VisibleIffReal(local, chans, f, m, c);
  }

  lemma DifferentIsBuilt(local: Data, chans: map<Channel, Data>, f: Field, m: Model, c: Channel)
    requires c in chans && RealDifference(local, chans[c], f, m)
    ensures Reported(Built(local, chans), f, m) && c in ItemChannels(Built(local, chans)[m][f])
  {
    VisibleIffReal(local, chans, f, m, c);
    BuiltIffIncluded(local, chans, f, m);
  }

  /** What an item of the result holds: the local value, and of exactly the channels that differ
      somewhere their cells and their trust. */
  lemma ItemIsExact(local: Data, chans: map<Channel, Data>, f: Field, m: Model, c: Channel)
    requires Reported(Expected(local, chans), f, m)
    ensures var item := Expected(local, chans)[m][f];
      && item.current == Get(local, f, m)
      && (c in item.upstreams <==> c in chans && DiffersSomewhere(local, chans[c]))
      && (c in item.confidence <==> c in item.upstreams)
      && (c in item.upstreams ==>
            item.upstreams[c] == Cell(Get(local, f, m), chans[c], f, m) && item.confidence[c] == Trusted(chans[c], m))
  {
    BuiltIffIncluded(local, chans, f, m);
    DifferentIffSomewhere(local, chans, c);
  }

  /** The result shows a value of a channel for a model and field exactly when the channel has it, it is
      not null nor "same", and it is not the local value. */
  lemma ShownIffDifferent(local: Data, chans: map<Channel, Data>, f: Field, m: Model, c: Channel, v: Value)
    requires c in chans && Visible(v)
    ensures var result := Expected(local, chans);
      (Reported(result, f, m) && c in result[m][f].upstreams && result[m][f].upstreams[c] == v)
      <==> Differs(Get(local, f, m), chans[c], f, m) && Get(chans[c], f, m) == v
  {
    var built := Built(local, chans);
    VisibleIffReal(local, chans, f, m, c);
    if Differs(Get(local, f, m), chans[c], f, m) && Get(chans[c], f, m) == v {
      StaysReported(local, chans, f, m, c);
    }
    if Reported(Expected(local, chans), f, m) {
      ItemIsExact(local, chans, f, m, c);
    }
  }

  lemma StaysReported(local: Data, chans: map<Channel, Data>, f: Field, m: Model, c: Channel)
    requires c in chans && Included(local, chans, f, m) && DiffersSomewhere(local, chans[c])
    requires Cell(Get(local, f, m), chans[c], f, m) != SAME
    ensures Reported(Expected(local, chans), f, m)
  {
    var built := Built(local, chans);
    var keep := DifferentChannels(built);
    BuiltIffIncluded(local, chans, f, m);
    DifferentIffSomewhere(local, chans, c);
    assert c in PruneItem(built[m][f], keep).upstreams;
    assert f in PruneRatios(built[m], keep);
  }

  ghost predicate SomeRealDifference(local: Data, chans: map<Channel, Data>, f: Field, m: Model) {
    exists c :: c in chans && RealDifference(local, chans[c], f, m)
  }

  predicate SomeDiffers(local: Data, chans: map<Channel, Data>, f: Field, m: Model) {
    exists c :: c in chans && Differs(Get(local, f, m), chans[c], f, m)
  }

  /** A channel that differs somewhere has nothing, or null, here. */
  ghost predicate SomeAbsent(local: Data, chans: map<Channel, Data>, f: Field, m: Model) {
    exists c :: c in chans && Get(chans[c], f, m) == Nil && DiffersSomewhere(local, chans[c])
  }

  /** A channel that differs somewhere has a cell here that is not "same". */
  ghost predicate SomeKept(local: Data, chans: map<Channel, Data>, f: Field, m: Model) {
    exists c :: c in chans && Cell(Get(local, f, m), chans[c], f, m) != SAME && DiffersSomewhere(local, chans[c])
  }

  lemma ReportedIffKept(local: Data, chans: map<Channel, Data>, f: Field, m: Model)
    ensures Reported(Expected(local, chans), f, m) <==> Included(local, chans, f, m) && SomeKept(local, chans, f, m)
  {
    if Reported(Expected(local, chans), f, m) {
      BuiltIffIncluded(local, chans, f, m);
      var item := Expected(local, chans)[m][f];
      var c :| c in item.upstreams && item.upstreams[c] != SAME;
      ItemIsExact(local, chans, f, m, c);
    } else if Included(local, chans, f, m) && SomeKept(local, chans, f, m) {
      var c :| c in chans && Cell(Get(local, f, m), chans[c], f, m) != SAME && DiffersSomewhere(local, chans[c]);
      StaysReported(local, chans, f, m, c);
    }
  }

  lemma KeptHasReason(local: Data, chans: map<Channel, Data>, f: Field, m: Model)
    requires Included(local, chans, f, m) && SomeKept(local, chans, f, m)
    ensures HasReason(local, chans, f, m)
  {
    var c :| c in chans && Cell(Get(local, f, m), chans[c], f, m) != SAME && DiffersSomewhere(local, chans[c]);
    VisibleIffReal(local, chans, f, m, c);
  }

  lemma ReasonIsKept(local: Data, chans: map<Channel, Data>, f: Field, m: Model)
    requires HasReason(local, chans, f, m)
    ensures Included(local, chans, f, m) && SomeKept(local, chans, f, m)
  {
    if SomeRealDifference(local, chans, f, m) {
      var c :| c in chans && RealDifference(local, chans[c], f, m);
      VisibleIffReal(local, chans, f, m, c);
    } else {
      var c :| c in chans && Get(chans[c], f, m) == Nil && DiffersSomewhere(local, chans[c]);
      assert Cell(Get(local, f, m), chans[c], f, m) == Nil;
    }
  }

  ghost predicate HasReason(local: Data, chans: map<Channel, Data>, f: Field, m: Model) {
    || SomeRealDifference(local, chans, f, m)
    || (Get(local, f, m) != Nil && SomeDiffers(local, chans, f, m) && SomeAbsent(local, chans, f, m))
  }

  /** A cell is reported exactly when some channel really differs there, or when a null or "same" of one
      channel passes for a difference and another channel, different elsewhere, has nothing to show. */
  lemma ReportedIff(local: Data, chans: map<Channel, Data>, f: Field, m: Model)
    ensures Reported(Expected(local, chans), f, m) <==> HasReason(local, chans, f, m)
  {
    ReportedIffKept(local, chans, f, m);
    if HasReason(local, chans, f, m) {
      ReasonIsKept(local, chans, f, m);
    } else if Included(local, chans, f, m) && SomeKept(local, chans, f, m) {
      KeptHasReason(local, chans, f, m);
    }
  }

  /** No upstream value is null or the word "same". */
  ghost predicate Clean(chans: map<Channel, Data>) {
    forall c, f, m :: c in chans && Has(chans[c], f, m) ==> Visible(Get(chans[c], f, m))
  }

  /** From clean upstreams every item built really differs somewhere, and pruning deletes none. */
  lemma CleanLosesNothing(local: Data, chans: map<Channel, Data>, f: Field, m: Model)
    requires Clean(chans)
    ensures Reported(Built(local, chans), f, m) <==> SomeRealDifference(local, chans, f, m)
    ensures Reported(Expected(local, chans), f, m) <==> SomeRealDifference(local, chans, f, m)
    ensures SomeDiffers(local, chans, f, m) <==> SomeRealDifference(local, chans, f, m)
  {
    BuiltIffIncluded(local, chans, f, m);
    ReportedIff(local, chans, f, m);
    CleanDiffersReally(local, chans, f, m);
  }

  lemma CleanDiffersReally(local: Data, chans: map<Channel, Data>, f: Field, m: Model)
    requires Clean(chans)
    ensures SomeDiffers(local, chans, f, m) <==> SomeRealDifference(local, chans, f, m)
    ensures Included(local, chans, f, m) <==> SomeDiffers(local, chans, f, m)
  {
    if c :| c in chans && Has(chans[c], f, m) && Get(local, f, m) == Nil {
      assert Differs(Get(local, f, m), chans[c], f, m);
    }
    if c :| c in chans && Differs(Get(local, f, m), chans[c], f, m) {
      assert RealDifference(local, chans[c], f, m);
    }
  }

  predicate ShownAt(d: Differences, f: Field, m: Model, c: Channel) {
    Reported(d, f, m) && c in d[m][f].upstreams && Visible(d[m][f].upstreams[c])
  }

  lemma ShownAtIff(local: Data, chans: map<Channel, Data>, f: Field, m: Model, c: Channel)
    requires c in chans
    ensures ShownAt(Expected(local, chans), f, m, c) <==> RealDifference(local, chans[c], f, m)
  {
    if ShownAt(Expected(local, chans), f, m, c) {
      ShownIffDifferent(local, chans, f, m, c, Expected(local, chans)[m][f].upstreams[c]);
    }
    if RealDifference(local, chans[c], f, m) {
      ShownIffDifferent(local, chans, f, m, c, Get(chans[c], f, m));
    }
  }

  ghost predicate AllShown(local: Data, chans: map<Channel, Data>) {
    forall f, m, c :: c in chans && Differs(Get(local, f, m), chans[c], f, m) ==>
      ShownAt(Expected(local, chans), f, m, c)
  }

  ghost predicate NoneHidden(local: Data, chans: map<Channel, Data>) {
    forall f, m, c :: c in chans && Differs(Get(local, f, m), chans[c], f, m) ==> Visible(Get(chans[c], f, m))
  }

  /** The result is complete exactly when no upstream value that differs is null or the word "same". */
  lemma CompleteIffNoneHidden(local: Data, chans: map<Channel, Data>)
    ensures AllShown(local, chans) <==> NoneHidden(local, chans)
  {
    forall f, m, c | c in chans && Differs(Get(local, f, m), chans[c], f, m)
      ensures ShownAt(Expected(local, chans), f, m, c) <==> Visible(Get(chans[c], f, m)) {
      ShownAtIff(local, chans, f, m, c);
    }
  }

  predicate BothNumbers(x: Value, y: Value) {
    x.Num? && y.Num?
  }

  /** On the result, a channel's number beside a local number is shown exactly when they are 1e-9 or more
      apart; any other value that can be shown, exactly when it is not the local value itself. */
  lemma ShownIffApart(local: Data, chans: map<Channel, Data>, f: Field, m: Model, c: Channel, x: Value, y: Value)
    requires c in chans && f in chans[c] && m in chans[c][f] && chans[c][f][m] == y && y != Nil && y != Str("same")
    requires x == if f in local && m in local[f] then local[f][m] else Nil
    ensures var d := Expected(local, chans);
      var shown := m in d && f in d[m] && c in d[m][f].upstreams && d[m][f].upstreams[c] == y;
      && (BothNumbers(x, y) ==> (shown <==> !(-0.000000001 < x.r - y.r < 0.000000001)))
      && (!BothNumbers(x, y) ==> (shown <==> x != y))
  {
    ShownIffDifferent(local, chans, f, m, c, y);
  }

  /** The channel has a number less than 1e-9 from `value` for this field and model. */
  predicate HasNumberNear(d: Data, f: Field, m: Model, value: real) {
    f in d && m in d[f] && d[f][m].Num? && -0.000000001 < d[f][m].r - value < 0.000000001
  }

  lemma TrustedIff(d: Data, m: Model)
    ensures Trusted(d, m) <==> !(HasNumberNear(d, ModelRatio, m, 37.5) && HasNumberNear(d, CompletionRatio, m, 1.0))
  {
  }

  /** A channel is marked as not to be trusted for a model exactly when its model ratio is 37.5 and its
      completion ratio is 1, each up to 1e-9. */
  lemma DistrustedIff(local: Data, chans: map<Channel, Data>, f: Field, m: Model, c: Channel)
    requires Reported(Expected(local, chans), f, m) && c in Expected(local, chans)[m][f].confidence
    ensures c in chans
    ensures !Expected(local, chans)[m][f].confidence[c]
       <==> HasNumberNear(chans[c], ModelRatio, m, 37.5) && HasNumberNear(chans[c], CompletionRatio, m, 1.0)
  {
    ItemIsExact(local, chans, f, m, c);
    TrustedIff(chans[c], m);
  }

  /** A null beside a local value keeps the item, though it shows nothing, when the channel differs
      elsewhere. */
  lemma NullKeepsItem(local: Data, chans: map<Channel, Data>, f: Field, m: Model, c: Channel)
    requires Get(local, f, m) != Nil && c in chans && Has(chans[c], f, m) && Get(chans[c], f, m) == Nil
    requires DiffersSomewhere(local, chans[c])
    ensures var d := Expected(local, chans);
      Reported(d, f, m) && c in d[m][f].upstreams && d[m][f].upstreams[c] == Nil
  {
    NullIsIncluded(local, chans, f, m, c);
    StaysReported(local, chans, f, m, c);
    ItemIsExact(local, chans, f, m, c);
  }

  lemma NullIsIncluded(local: Data, chans: map<Channel, Data>, f: Field, m: Model, c: Channel)
    requires Get(local, f, m) != Nil && c in chans && Has(chans[c], f, m) && Get(chans[c], f, m) == Nil
    ensures Included(local, chans, f, m) && Cell(Get(local, f, m), chans[c], f, m) == Nil
  {
    assert Differs(Get(local, f, m), chans[c], f, m);
  }

  /** One channel with a null, or the word "same", where the local price is 1: a difference that the
      result does not show. */
  lemma HiddenDifference(m: Model, c: Channel, v: Value)
    requires v == Nil || v == SAME
    ensures var local, chans := map[ModelRatio := map[m := Num(1.0)]], map[c := map[ModelRatio := map[m := v]]];
      && Differs(Get(local, ModelRatio, m), chans[c], ModelRatio, m)
      && !ShownAt(Expected(local, chans), ModelRatio, m, c) && !AllShown(local, chans)
  {
    var local, chans := map[ModelRatio := map[m := Num(1.0)]], map[c := map[ModelRatio := map[m := v]]];
    ShownAtIff(local, chans, ModelRatio, m, c);
  }

  // ---------- The passes, carried out ----------

  // Maps are gone through in any order, as the program does.

  method CollectModels(local: Data, chans: map<Channel, Data>) returns (all: set<Model>)
    ensures all == AllModels(local, chans)
  {
    all := FieldModels(local);
    var left, done: map<Channel, Data> := chans.Keys, map[];
    while left != {}
      invariant left <= chans.Keys && done.Keys == chans.Keys - left && forall c :: c in done ==> done[c] == chans[c]
      invariant all == AllModels(local, done)
      decreases left
    {
      var c :| c in left;
      var models := FieldModels(chans[c]);
      all := all + models;
      left, done := left - {c}, done[c := chans[c]];
    }
    assert done == chans;
  }

  method FieldModels(d: Data) returns (models: set<Model>)
    ensures models == ModelsOf(d)
  {
    models := {};
    var left := d.Keys;
    while left != {}
      invariant left <= d.Keys
      invariant models == set f, m | f in d.Keys - left && m in d[f] :: m
      decreases left
    {
      var f :| f in left;
      models := models + d[f].Keys;
      left := left - {f};
    }
  }

  /** One item: the values of all channels beside the local one. */
  method BuildItem(local: Data, chans: map<Channel, Data>, f: Field, m: Model) returns (item: Item, wanted: bool)
    ensures wanted <==> Included(local, chans, f, m)
    ensures item == ItemOf(local, chans, f, m)
  {
    var localValue := Get(local, f, m);
    var upstreams, hasUpstreamValue, hasDifference := CompareAll(localValue, chans, f, m);
    var confidence := Confidences(chans, m);
    item := Item(localValue, upstreams, confidence);
    wanted := if localValue != Nil then hasDifference else hasUpstreamValue;
    IncludedAsSets(local, chans, f, m);
  }

  method CompareAll(localValue: Value, chans: map<Channel, Data>, f: Field, m: Model)
    returns (upstreams: map<Channel, Value>, hasUpstreamValue: bool, hasDifference: bool)
    ensures upstreams == map c | c in chans :: Cell(localValue, chans[c], f, m)
    ensures hasUpstreamValue == (With(chans, f, m) != {})
    ensures localValue != Nil ==> hasDifference == (Differing(localValue, chans, f, m) != {})
  {
    upstreams, hasUpstreamValue, hasDifference := map[], false, false;
    var left := chans.Keys;
    while left != {}
      invariant left <= chans.Keys && upstreams.Keys == chans.Keys - left
      invariant forall c :: c in upstreams ==> upstreams[c] == Cell(localValue, chans[c], f, m)
      invariant hasUpstreamValue == (With(chans, f, m) - left != {})
      invariant localValue != Nil ==> hasDifference == (Differing(localValue, chans, f, m) - left != {})
      decreases left
    {
      var c :| c in left;
      var value, has, differs := CompareCell(localValue, chans[c], f, m);
      hasUpstreamValue := hasUpstreamValue || has;
      hasDifference := hasDifference || differs;
      upstreams := upstreams[c := value];
      FlagsNext(localValue, chans, f, m, left, c);
      left := left - {c};
    }
  }

  function With(chans: map<Channel, Data>, f: Field, m: Model): set<Channel> {
    set c | c in chans && Has(chans[c], f, m)
  }

  function Differing(localValue: Value, chans: map<Channel, Data>, f: Field, m: Model): set<Channel> {
    set c | c in chans && Differs(localValue, chans[c], f, m)
  }

  lemma FlagsNext(localValue: Value, chans: map<Channel, Data>, f: Field, m: Model, left: set<Channel>, c: Channel)
    requires c in left && c in chans
    ensures With(chans, f, m) - (left - {c}) != {} <==> With(chans, f, m) - left != {} || Has(chans[c], f, m)
    ensures var differing := Differing(localValue, chans, f, m);
      differing - (left - {c}) != {} <==> differing - left != {} || Differs(localValue, chans[c], f, m)
  {
    OneMore(With(chans, f, m), left, c);
    OneMore(Differing(localValue, chans, f, m), left, c);
  }

  lemma OneMore(s: set<Channel>, left: set<Channel>, c: Channel)
    requires c in left
    ensures s - (left - {c}) != {} <==> s - left != {} || c in s
  {
    if x :| x in s - left {
      assert x in s - (left - {c});
    } else if c in s {
      assert c in s - (left - {c});
    }
  }

  lemma IncludedAsSets(local: Data, chans: map<Channel, Data>, f: Field, m: Model)
    ensures Included(local, chans, f, m)
       <==> (if Get(local, f, m).Nil? then With(chans, f, m) else Differing(Get(local, f, m), chans, f, m)) != {}
  {
    if Included(local, chans, f, m) {
      if Get(local, f, m).Nil? {
        var c :| c in chans && Has(chans[c], f, m);
        assert c in With(chans, f, m);
      } else {
        var c :| c in chans && Differs(Get(local, f, m), chans[c], f, m);
        assert c in Differing(Get(local, f, m), chans, f, m);
      }
    }
  }

  method CompareCell(localValue: Value, d: Data, f: Field, m: Model) returns (value: Value, has: bool, differs: bool)
    ensures value == Cell(localValue, d, f, m) && (has <==> Has(d, f, m))
    ensures differs ==> Differs(localValue, d, f, m)
    ensures localValue != Nil && Differs(localValue, d, f, m) ==> differs
  {
    value, has, differs := Nil, Has(d, f, m), false;
    if has {
      value := d[f][m];
      if localValue != Nil && !Equal(localValue, value) {
        differs := true;
      } else if Equal(localValue, value) {
        value := SAME;
      }
    }
    if value == Nil && localValue == Nil {
      value := SAME;
    }
    if localValue == Nil && value != Nil && value != SAME {
      differs := true;
    }
  }

  /** The confidence pass, for one model. */
  method Confidences(chans: map<Channel, Data>, m: Model) returns (confidence: map<Channel, bool>)
    ensures confidence == map c | c in chans :: Trusted(chans[c], m)
  {
    confidence := map[];
    var left := chans.Keys;
    while left != {}
      invariant left <= chans.Keys && confidence.Keys == chans.Keys - left
      invariant forall c :: c in confidence ==> confidence[c] == Trusted(chans[c], m)
      decreases left
    {
      var c :| c in left;
      var trusted := Trust(chans[c], m);
      confidence := confidence[c := trusted];
      left := left - {c};
    }
  }

  method Trust(d: Data, m: Model) returns (trusted: bool)
    ensures trusted == Trusted(d, m)
  {
    trusted := true;
    if ModelRatio in d && d[ModelRatio] != map[] && CompletionRatio in d && d[CompletionRatio] != map[] {
      if m in d[ModelRatio] && m in d[CompletionRatio] {
        var ratio, completion := d[ModelRatio][m], d[CompletionRatio][m];
        if ratio.Num? && completion.Num? && NearlyEqual(ratio.r, 37.5) && NearlyEqual(completion.r, 1.0) {
          trusted := false;
        }
      }
    }
  }

  method BuildRatios(local: Data, chans: map<Channel, Data>, m: Model) returns (rs: Ratios)
    ensures rs == RatiosOf(local, chans, m)
  {
    rs := map[];
    var left := FIELDS;
    while left != {}
      invariant left <= FIELDS && forall f :: f in rs <==> f in FIELDS - left && Included(local, chans, f, m)
      invariant forall f :: f in rs ==> rs[f] == ItemOf(local, chans, f, m)
      decreases left
    {
      var f :| f in left;
      var item, wanted := BuildItem(local, chans, f, m);
      if wanted {
        rs := rs[f := item];
      }
      left := left - {f};
    }
  }

  method BuildAll(local: Data, chans: map<Channel, Data>) returns (d: Differences)
    ensures d == Built(local, chans)
  {
    var all := CollectModels(local, chans);
    d := map[];
    var left := all;
    while left != {}
      invariant left <= all && forall m :: m in d <==> m in all - left && RatiosOf(local, chans, m) != map[]
      invariant forall m :: m in d ==> d[m] == RatiosOf(local, chans, m)
      decreases left
    {
      var m :| m in left;
      var rs := BuildRatios(local, chans, m);
      if rs != map[] {
        d := d[m := rs];
      }
      left := left - {m};
    }
  }

  method FindDifferent(d: Differences) returns (different: set<Channel>)
    ensures different == DifferentChannels(d)
  {
    different := {};
    var left := d.Keys;
    while left != {}
      invariant left <= d.Keys && different == set m, c | m in d.Keys - left && c in RatiosChannels(d[m]) :: c
      decreases left
    {
      var m :| m in left;
      var some := FindInRatios(d[m]);
      different := different + some;
      left := left - {m};
    }
  }

  method FindInRatios(rs: Ratios) returns (different: set<Channel>)
    ensures different == RatiosChannels(rs)
  {
    different := {};
    var left := rs.Keys;
    while left != {}
      invariant left <= rs.Keys && different == set f, c | f in rs.Keys - left && c in ItemChannels(rs[f]) :: c
      decreases left
    {
      var f :| f in left;
      different := different + ItemChannels(rs[f]);
      left := left - {f};
    }
  }

  method PruneAll(d: Differences, keep: set<Channel>) returns (pruned: Differences)
    ensures pruned == Prune(d, keep)
  {
    pruned := d;
    var left := d.Keys;
    while left != {}
      invariant left <= d.Keys && left <= pruned.Keys && forall m :: m in left ==> pruned[m] == d[m]
      invariant PrunedExcept(d, keep, pruned, left)
      decreases left
    {
      var m :| m in left;
      var rs := PruneModel(d[m], keep);
      PrunedNext(d, keep, pruned, left, m);
      pruned := if rs == map[] then pruned - {m} else pruned[m := rs];
      left := left - {m};
    }
    PrunedLast(d, keep, pruned);
  }

  lemma PrunedLast(d: Differences, keep: set<Channel>, pruned: Differences)
    requires PrunedExcept(d, keep, pruned, {})
    ensures pruned == Prune(d, keep)
  {
    assert pruned.Keys == Prune(d, keep).Keys;
  }

  lemma PrunedNext(d: Differences, keep: set<Channel>, pruned: Differences, left: set<Model>, m: Model)
    requires PrunedExcept(d, keep, pruned, left) && m in left && m in d
    ensures var rs := PruneRatios(d[m], keep);
      PrunedExcept(d, keep, if rs == map[] then pruned - {m} else pruned[m := rs], left - {m})
  {
  }

  predicate PrunedExcept(d: Differences, keep: set<Channel>, pruned: Differences, left: set<Model>) {
    && (forall m :: m in pruned && m !in left ==>
          m in d && PruneRatios(d[m], keep) != map[] && pruned[m] == PruneRatios(d[m], keep))
    && (forall m :: m in d && m !in left && PruneRatios(d[m], keep) != map[] ==> m in pruned)
  }

  method PruneModel(rs: Ratios, keep: set<Channel>) returns (pruned: Ratios)
    ensures pruned == PruneRatios(rs, keep)
  {
    pruned := rs;
    var left := rs.Keys;
    while left != {}
      invariant left <= rs.Keys && left <= pruned.Keys && forall f :: f in left ==> pruned[f] == rs[f]
      invariant forall f :: f in pruned.Keys - left <==> f in rs.Keys - left && !AllSame(PruneItem(rs[f], keep))
      invariant forall f :: f in pruned.Keys - left ==> pruned[f] == PruneItem(rs[f], keep)
      decreases left
    {
      var f :| f in left;
      var item := PruneItem(rs[f], keep);
      pruned := if AllSame(item) then pruned - {f} else pruned[f := item];
      left := left - {f};
    }
  }

  method BuildDifferences(local: Data, chans: map<Channel, Data>) returns (d: Differences)
    ensures d == Expected(local, chans)
  {
    var built := BuildAll(local, chans);
    var different := FindDifferent(built);
    d := PruneAll(built, different);
  }
}
