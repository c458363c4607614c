/** The paged, filtered listing of a channel's keys: the get_key_status action. */
module KeyPages {
  import opened Options
  import opened MultiKeys

  datatype KeyStatus = KeyStatus(index: nat, status: int, disabledTime: int, reason: Reason)

  datatype Listing = Listing(keys: seq<KeyStatus>, total: nat, page: int, pageSize: int, totalPages: int,
                             enabledCount: nat, manualDisabledCount: nat, autoDisabledCount: nat)

  // ---------- Specification ----------

  /** What the listing shows of the i-th record: no time or reason while it is enabled. */
  function Show(r: Record, i: nat): KeyStatus {
    if r.status == ENABLED then KeyStatus(i, ENABLED, 0, Reason(""))
    else KeyStatus(i, r.status, if r.time.Some? then r.time.value else 0,
                   if r.reason.Some? then r.reason.value else Reason(""))
  }

  predicate Matches(r: Record, status: Option<int>) {
    status.Some? ==> r.status == status.value
  }

  /** The records of a status, in order, with their indices. */
  function Selected(rs: seq<Record>, status: Option<int>): seq<KeyStatus> {
    if rs == [] then []
    else
      var n := |rs| - 1;
      Selected(rs[..n], status) + if Matches(rs[n], status) then [Show(rs[n], n)] else []
  }

  /** The k-th slice of `size` elements, counting from 1. */
  function Slice<T>(xs: seq<T>, k: nat, size: nat): seq<T>
    requires k >= 1
  {
    var start := (k - 1) * size;
    if start >= |xs| then [] else if start + size > |xs| then xs[start..] else xs[start..start + size]
  }

  function Slices<T>(xs: seq<T>, pages: nat, size: nat): seq<T> {
    if pages == 0 then [] else Slices(xs, pages - 1, size) + Slice(xs, pages, size)
  }

  // ---------- The action ----------

  method GetKeyStatus(row: Row, json: Json, status: Option<int>, page: int, pageSize: int) returns (r: Listing)
    ensures r.total == |Selected(Records(row, json), status)|
    ensures r.pageSize == if pageSize <= 0 then 50 else pageSize
    ensures r.total <= r.totalPages * r.pageSize && r.totalPages >= 1
    ensures if r.total == 0 then r.totalPages == 1 else (r.totalPages - 1) * r.pageSize < r.total
    ensures r.page == if page <= 0 then 1 else if page > r.totalPages then r.totalPages else page
    ensures r.page >= 1 && r.keys == Slice(Selected(Records(row, json), status), r.page, r.pageSize)
    ensures r.enabledCount == CountOf(Records(row, json), ENABLED)
    ensures r.manualDisabledCount == CountOf(Records(row, json), MANUALLY_DISABLED)
    ensures r.autoDisabledCount == CountOf(Records(row, json), AUTO_DISABLED)
  {
    var page, pageSize := page, pageSize;
    if page <= 0 {
      page := 1;
    }
    if pageSize <= 0 {
      pageSize := 50;
    }
    var all, enabled, manual, auto := ListKeys(row, json);
    var filtered := all;
    if status.Some? {
      filtered := ByStatus(all, Records(row, json), status.value);
    }
    var keys, shown, totalPages := Paginate(filtered, page, pageSize);
    r := Listing(keys, |filtered|, shown, pageSize, totalPages, enabled, manual, auto);
  }

  /** The least number of pages that holds everything, but one page for nothing. */
  predicate IsPageCount(pages: int, total: nat, size: int) {
    pages >= 1 && total <= pages * size && (total > 0 ==> (pages - 1) * size < total) && (total == 0 ==> pages == 1)
  }

  method Paginate<T>(filtered: seq<T>, wanted: nat, pageSize: nat) returns (keys: seq<T>, page: nat, totalPages: int)
    requires wanted >= 1 && pageSize >= 1
    ensures IsPageCount(totalPages, |filtered|, pageSize)
    ensures page == if wanted > totalPages then totalPages else wanted
    ensures page >= 1 && keys == Slice(filtered, page, pageSize)
  {
    page, totalPages := wanted, CeilDiv(|filtered|, pageSize);
    if totalPages == 0 {
      totalPages := 1;
    }
    if page > totalPages {
      page := totalPages;
    }
    keys := PageData(filtered, page, pageSize);
  }

  method PageData<T>(filtered: seq<T>, page: nat, pageSize: nat) returns (keys: seq<T>)
    requires page >= 1
    ensures keys == Slice(filtered, page, pageSize)
  {
    keys := [];
    var start := (page - 1) * pageSize;
    var end := start + pageSize;
    if end > |filtered| {
      end := |filtered|;
    }
    if start < |filtered| {
      keys := filtered[start..end];
    }
  }

  function CeilDiv(total: nat, size: nat): (pages: nat)
    requires size >= 1
    ensures (pages - 1) * size < total <= pages * size
    ensures pages == 0 <==> total == 0
  {
    assert total + size - 1 == (total + size - 1) / size * size + (total + size - 1) % size;
    (total + size - 1) / size
  }

  method ListKeys(row: Row, json: Json)
    returns (all: seq<KeyStatus>, enabledCount: nat, manualDisabledCount: nat, autoDisabledCount: nat)
    ensures all == Selected(Records(row, json), None)
    ensures enabledCount == CountOf(Records(row, json), ENABLED)
    ensures manualDisabledCount == CountOf(Records(row, json), MANUALLY_DISABLED)
    ensures autoDisabledCount == CountOf(Records(row, json), AUTO_DISABLED)
  {
    var keys := GetKeys(row.key, json);
    all, enabledCount, manualDisabledCount, autoDisabledCount := [], 0, 0, 0;
    ghost var rs := Records(row, json);
    for i := 0 to |keys|
      invariant all == Selected(rs[..i], None)
      invariant enabledCount == CountOf(rs[..i], ENABLED)
      invariant manualDisabledCount == CountOf(rs[..i], MANUALLY_DISABLED)
      invariant autoDisabledCount == CountOf(rs[..i], AUTO_DISABLED)
    {
      assert rs[..i + 1][..i] == rs[..i];
      var status, disabledTime, reason := ENABLED, 0, Reason("");
      if i in row.statuses {
        status := row.statuses[i];
      }
      if status == 1 {
        enabledCount := enabledCount + 1;
      } else if status == 2 {
        manualDisabledCount := manualDisabledCount + 1;
      } else if status == 3 {
        autoDisabledCount := autoDisabledCount + 1;
      }
      if status != 1 {
        if i in row.times {
          disabledTime := row.times[i];
        }
        if i in row.reasons {
          reason := row.reasons[i];
        }
      }
      all := all + [KeyStatus(i, status, disabledTime, reason)];
    }
    assert rs[..|rs|] == rs;
  }

  method ByStatus(all: seq<KeyStatus>, ghost rs: seq<Record>, status: int) returns (filtered: seq<KeyStatus>)
    requires all == Selected(rs, None)
    ensures filtered == Selected(rs, Some(status))
  {
    filtered := [];
    AllAreListed(rs);
    for i := 0 to |all|
      invariant filtered == Selected(rs[..i], Some(status))
    {
      assert rs[..i + 1][..i] == rs[..i];
      if all[i].status == status {
        filtered := filtered + [all[i]];
      }
    }
    assert rs[..|rs|] == rs;
  }

  lemma {:induction false} AllAreListed(rs: seq<Record>)
    ensures var all := Selected(rs, None);
      |all| == |rs| && forall i :: 0 <= i < |rs| ==> all[i] == Show(rs[i], i)
  {
    if rs != [] {
      AllAreListed(rs[..|rs| - 1]);
    }
  }

  // ---------- Pages ----------

  /** Pages 1 to totalPages, one after the other, are the filtered list. */
  lemma PagesAreTheList<T>(xs: seq<T>, pages: nat, size: nat)
    requires |xs| <= pages * size
    ensures Slices(xs, pages, size) == xs
  {
    SlicesArePrefix(xs, pages, size);
  }

  lemma {:induction false} SlicesArePrefix<T>(xs: seq<T>, pages: nat, size: nat)
    ensures Slices(xs, pages, size) == xs[..Smaller(|xs|, pages * size)]
  {
    if pages > 0 {
      SlicesArePrefix(xs, pages - 1, size);
      assert pages * size == (pages - 1) * size + size;
    }
  }

  function Smaller(a: nat, b: nat): nat {
    if a < b then a else b
  }

  /** The filtered list shows only records of the status asked for, each under its own index with its
      status, and its time and reason if it is not enabled. */
  lemma {:induction false} SelectedShows(rs: seq<Record>, status: Option<int>, k: nat)
    requires k < |Selected(rs, status)|
    ensures var shown := Selected(rs, status)[k];
      shown.index < |rs| && (status.Some? ==> rs[shown.index].status == status.value) && IsShown(rs[shown.index], shown)
  {
    var n := |rs| - 1;
    if k < |Selected(rs[..n], status)| {
      SelectedShows(rs[..n], status, k);
    }
  }

  predicate IsShown(r: Record, shown: KeyStatus) {
    && shown.status == r.status
    && shown.disabledTime == (if r.status != 1 && r.time.Some? then r.time.value else 0)
    && shown.reason == (if r.status != 1 && r.reason.Some? then r.reason.value else Reason(""))
  }

  /** Indices ascend, so that no record is shown twice. */
  lemma {:induction false} SelectedAscends(rs: seq<Record>, status: Option<int>, k: nat, l: nat)
    requires k < l < |Selected(rs, status)|
    ensures Selected(rs, status)[k].index < Selected(rs, status)[l].index
  {
    var n := |rs| - 1;
    if l < |Selected(rs[..n], status)| {
      SelectedAscends(rs[..n], status, k, l);
    } else {
      SelectedShows(rs[..n], status, k);
    }
  }

  /** Every record of the status asked for is shown. */
  lemma {:induction false} SelectedFinds(rs: seq<Record>, status: Option<int>, i: nat) returns (k: nat)
    requires i < |rs| && (status.Some? ==> rs[i].status == status.value)
    ensures k < |Selected(rs, status)| && Selected(rs, status)[k].index == i && IsShown(rs[i], Selected(rs, status)[k])
  {
    var n := |rs| - 1;
    if i < n {
      k := SelectedFinds(rs[..n], status, i);
    } else {
      k := |Selected(rs[..n], status)|;
    }
  }

  /** The number listed under a status is the count reported for it. */
  lemma {:induction false} SelectedIsCounted(rs: seq<Record>, status: int)
    ensures |Selected(rs, Some(status))| == CountOf(rs, status)
  {
    if rs != [] {
      SelectedIsCounted(rs[..|rs| - 1], status);
    }
  }
}
