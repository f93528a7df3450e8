// The older manager page (js/manager.js) over the chrome.storage copy of the
// cache: loading the list, sorting, searching and paging it, importing a
// backup in trusted or safe mode, and expiring or deleting entries.
//
// `storage` is the object under CACHE_KEY (the empty map when it is
// missing) and `writes` counts the `chrome.storage.local.set` calls. The
// search box value, the clock and the user's confirmation are parameters;
// the HTML of a rendering is reduced to the `View` it is built from.

module LegacyManager {

  import opened Common
  import opened Records
  import Config
  import Sorting
  import opened ManagerView

  /** A stored value the list shows: one with a name. */
  predicate Listable(v: Raw)
  {
    NameOf(v) != ""
  }

  /** The list row of an entry; `id` is its handle. */
  function RowOf(id: string, v: Raw): (r: Row)
    ensures r.id == id && r.name == NameOf(v) && r.subs == SubsOf(v) && r.ts == TsOf(v)
  {
    Row(id, NameOf(v), SubsOf(v), TsOf(v))
  }

  /**
   * The rows `loadData` builds, following the enumeration order `order` of
   * the keys (a key of `order` outside the store has no row).
   */
  function Rows(raw: map<string, Raw>, order: seq<string>): (rows: seq<Row>)
    ensures |rows| <= |order|
    ensures forall r :: r in rows ==> r.id in raw && Listable(raw[r.id]) && r == RowOf(r.id, raw[r.id])
  {
    if order == [] then []
    else
      var n := |order| - 1;
      var rest := Rows(raw, order[..n]);
      if order[n] in raw && Listable(raw[order[n]]) then rest + [RowOf(order[n], raw[order[n]])] else rest
  }

  /** Every listable entry gets a row. */
  lemma {:induction false} RowsComplete(raw: map<string, Raw>, order: seq<string>, k: string)
    requires forall x :: x in order ==> x in raw
    requires k in order && Listable(raw[k])
    ensures RowOf(k, raw[k]) in Rows(raw, order)
  {
    var n := |order| - 1;
    if order[n] != k {
      assert k in order[..n] by {
        var i :| 0 <= i < |order| && order[i] == k;
        assert i < n && order[..n][i] == k;
      }
      RowsComplete(raw, order[..n], k);
    }
  }

  /** `validRaw`: the listable entries, unchanged. */
  function ValidRaw(raw: map<string, Raw>): (v: map<string, Raw>)
    ensures forall k :: k in v <==> k in raw && Listable(raw[k])
    ensures forall k :: k in v ==> v[k] == raw[k]
  {
    map k | k in raw && Listable(raw[k]) :: raw[k]
  }

  /** When nothing is dropped, the cleaned store is the store. */
  lemma ValidRawSameSize(raw: map<string, Raw>)
    ensures |ValidRaw(raw)| == |raw| <==> ValidRaw(raw) == raw
  {
    var v := ValidRaw(raw);
    if |v| == |raw| {
      forall k | k in raw ensures k in v {
        if k !in v {
          SubsetSize(v.Keys, raw.Keys - {k});
          assert false;
        }
      }
      assert v.Keys == raw.Keys;
    }
  }

  /** `now - TTL - 60000`: one minute past expiry. */
  function ImportForcedTs(now: int): int
  {
    now - Config.TTL - 60000
  }

  /**
   * The `finalizeImport` timestamp: in safe mode the forced one; in trusted
   * mode the original (`ts || now`) unless it lies in the future or the
   * entry has subscribers.
   */
  function FinalTs(entry: Raw, isTrusted: bool, now: int): (ts: int)
    ensures !isTrusted ==> ts == ImportForcedTs(now)
    ensures SubsOf(entry) > 0 ==> ts == ImportForcedTs(now)
    ensures ts <= now
    ensures isTrusted && SubsOf(entry) <= 0 && TsOf(entry) != 0 && TsOf(entry) <= now ==> ts == TsOf(entry)
    ensures isTrusted && SubsOf(entry) <= 0 && TsOf(entry) == 0 ==> ts == now
    ensures isTrusted && TsOf(entry) != 0 && TsOf(entry) > now ==> ts == ImportForcedTs(now)
  {
    if isTrusted then
      var originTs := if TsOf(entry) != 0 then TsOf(entry) else now;
      var hasSubs := SubsOf(entry) > 0;
      if originTs > now then ImportForcedTs(now)
      else if hasSubs then ImportForcedTs(now)
      else originTs
    else ImportForcedTs(now)
  }

  /** `cleanData`: each named imported entry as `{ name, subs || 0, ts: finalTs }`. */
  function CleanImport(data: map<string, Raw>, isTrusted: bool, now: int): map<string, Raw>
  {
    map k | k in data && Listable(data[k]) :: Entry(NameOf(data[k]), SubsOf(data[k]), FinalTs(data[k], isTrusted, now))
  }

  /** Exactly the named entries are kept, each rebuilt from its name, subscribers and final timestamp. */
  lemma CleanImportEntries(data: map<string, Raw>, isTrusted: bool, now: int)
    ensures var c := CleanImport(data, isTrusted, now);
      (forall k :: k in c <==> k in data && Listable(data[k])) &&
      (forall k :: k in c ==> c[k] == Entry(NameOf(data[k]), SubsOf(data[k]), FinalTs(data[k], isTrusted, now)))
  {
  }

  /** The number of valid entries `handleImport` counts and shows. */
  function ImportCount(data: map<string, Raw>): (n: nat)
    ensures n <= |data|
  {
    var ks := set k | k in data && Listable(data[k]);
    assert ks <= data.Keys;
    SubsetSize(ks, data.Keys);
    |ks|
  }

  lemma SubsetSize<T>(a: set<T>, b: set<T>)
    requires a <= b
    ensures |a| <= |b|
  {
    assert b == a + (b - a);
  }

  /** The loop of `finalizeImport` that builds `cleanData` key by key. */
  method CleanLoop(data: map<string, Raw>, isTrusted: bool, now: int) returns (cleanData: map<string, Raw>)
    ensures cleanData == CleanImport(data, isTrusted, now)
  {
    cleanData := map[];
    var todo := data.Keys;
    while todo != {}
      invariant todo <= data.Keys
      invariant forall k :: k in cleanData <==> k in data && k !in todo && Listable(data[k])
      invariant forall k :: k in cleanData ==>
        cleanData[k] == Entry(NameOf(data[k]), SubsOf(data[k]), FinalTs(data[k], isTrusted, now))
      decreases todo
    {
      var key :| key in todo;
      var entry := data[key];
      if Listable(entry) {
        cleanData := cleanData[key := Entry(NameOf(entry), SubsOf(entry), FinalTs(entry, isTrusted, now))];
      }
      todo := todo - {key};
    }
  }

  /** The count shown before the import is the number of entries it writes. */
  lemma ImportCountIsWritten(data: map<string, Raw>, isTrusted: bool, now: int)
    ensures |CleanImport(data, isTrusted, now)| == ImportCount(data)
  {
    assert CleanImport(data, isTrusted, now).Keys == set k | k in data && Listable(data[k]);
  }

  /** `raw[id].ts = pastTime`: an object gets the timestamp; a string cannot take it. */
  function Touched(v: Raw, pastTime: int): (r: Raw)
    ensures v.Entry? ==> r == v.(ts := pastTime)
    ensures !v.Entry? ==> r == v
  {
    if v.Entry? then v.(ts := pastTime) else v
  }

  /** `Date.now() - TTL - 10000` */
  function PastTime(now: int): int
  {
    now - Config.TTL - 10000
  }

  /** The store after `batchExpire(ids)`. */
  function ExpireAll(raw: map<string, Raw>, ids: set<string>, pastTime: int): (r: map<string, Raw>)
    ensures r.Keys == raw.Keys
    ensures forall k :: k in r ==> r[k] == (if k in ids && Truthy(raw[k]) then Touched(raw[k], pastTime) else raw[k])
  {
    map k | k in raw :: if k in ids && Truthy(raw[k]) then Touched(raw[k], pastTime) else raw[k]
  }

  /** The store after `batchDelete(ids)`: only truthy entries are deleted. */
  function DeleteAll(raw: map<string, Raw>, ids: set<string>): (r: map<string, Raw>)
    ensures forall k :: k in r <==> k in raw && !(k in ids && Truthy(raw[k]))
    ensures forall k :: k in r ==> r[k] == raw[k]
  {
    map k | k in raw && !(k in ids && Truthy(raw[k])) :: raw[k]
  }

  /** Whether a batch touches anything: some id names a truthy entry. */
  predicate AnyTruthy(raw: map<string, Raw>, ids: set<string>)
  {
    exists k :: k in ids && k in raw && Truthy(raw[k])
  }

  /** An entry the page expires shows as expired right away, and stays listed. */
  lemma ExpiredShowsExpired(v: Raw, now: int)
    requires v.Entry?
    ensures ExpiryStatus(now, TsOf(Touched(v, PastTime(now))), Config.TTL) == Expired
    ensures Listable(v) ==> Listable(Touched(v, PastTime(now)))
  {
  }

  /** A backup imported in safe mode shows every imported row as expired. */
  lemma SafeImportShowsExpired(data: map<string, Raw>, now: int, k: string)
    requires k in CleanImport(data, false, now)
    ensures ExpiryStatus(now, TsOf(CleanImport(data, false, now)[k]), Config.TTL) == Expired
  {
  }

  /** The `for ... of Object.entries(raw)` loop of `loadData`. */
  method LoadLoop(raw: map<string, Raw>, order: seq<string>) returns (rows: seq<Row>, validRaw: map<string, Raw>)
    requires forall k :: k in order <==> k in raw
    ensures rows == Rows(raw, order)
    ensures validRaw == ValidRaw(raw)
  {
    validRaw := map[];
    rows := [];
    var i := 0;
    while i < |order|
      invariant 0 <= i <= |order|
      invariant rows == Rows(raw, order[..i])
      invariant validRaw == ListableIn(raw, IdSet(order[..i]))
    {
      var id := order[i];
      assert id in order;
      RowsStep(raw, order, i);
      assert order[..i + 1] == order[..i] + [order[i]];
      var data := raw[id];
      IdSetAppend(order[..i], id);
      ListableStep(raw, IdSet(order[..i]), id);
      if Listable(data) {
        validRaw := validRaw[id := data];
        rows := rows + [RowOf(id, data)];
      }
      i := i + 1;
    }
    assert order[..i] == order;
    ListableInAll(raw, order);
  }

  /** One more handle in `loadData`: its row, if listable, is appended. */
  lemma RowsStep(raw: map<string, Raw>, order: seq<string>, i: nat)
    requires i < |order| && order[i] in raw
    ensures Rows(raw, order[..i + 1]) ==
      Rows(raw, order[..i]) + if Listable(raw[order[i]]) then [RowOf(order[i], raw[order[i]])] else []
  {
    assert order[..i + 1][..i] == order[..i];
  }

  /** The listable entries among `ids`, unchanged. */
  function ListableIn(raw: map<string, Raw>, ids: set<string>): map<string, Raw>
  {
    map k | k in raw && k in ids && Listable(raw[k]) :: raw[k]
  }

  lemma ListableStep(raw: map<string, Raw>, ids: set<string>, id: string)
    requires id in raw
    ensures ListableIn(raw, ids + {id}) ==
      if Listable(raw[id]) then ListableIn(raw, ids)[id := raw[id]] else ListableIn(raw, ids)
  {
  }

  lemma ListableInAll(raw: map<string, Raw>, order: seq<string>)
    requires forall k :: k in order <==> k in raw
    ensures ListableIn(raw, IdSet(order)) == ValidRaw(raw)
  {
  }

  /** The `forEach` of `batchExpire`: the new store and whether it changed. */
  method ExpireLoop(raw: map<string, Raw>, ids: seq<string>, pastTime: int) returns (r: map<string, Raw>, changed: bool)
    ensures r == ExpireAll(raw, (set id | id in ids), pastTime)
    ensures changed <==> AnyTruthy(raw, (set id | id in ids))
  {
    r, changed := raw, false;
    var i := 0;
    while i < |ids|
      invariant 0 <= i <= |ids|
      invariant r == ExpireAll(raw, IdSet(ids[..i]), pastTime)
      invariant changed <==> AnyTruthy(raw, IdSet(ids[..i]))
    {
      assert ids[..i + 1] == ids[..i] + [ids[i]];
      var id := ids[i];
      IdSetAppend(ids[..i], id);
      ExpireStep(raw, IdSet(ids[..i]), id, pastTime, r);
      if id in r && Truthy(r[id]) {
        r := r[id := Touched(r[id], pastTime)];
        changed := true;
      }
      i := i + 1;
    }
    assert ids[..i] == ids;
  }

  /** The ids of a selection, as a set. */
  function IdSet(ids: seq<string>): set<string>
  {
    set id | id in ids
  }

  lemma IdSetAppend(ids: seq<string>, id: string)
    ensures IdSet(ids + [id]) == IdSet(ids) + {id}
  {
    forall x ensures x in IdSet(ids + [id]) <==> x in IdSet(ids) + {id} {
      assert x in ids + [id] <==> x in ids || x == id;
    }
  }

  /** One more id in `batchExpire`: its entry, if truthy, is touched, and the change flag follows. */
  lemma ExpireStep(raw: map<string, Raw>, s: set<string>, id: string, pastTime: int, r: map<string, Raw>)
    requires r == ExpireAll(raw, s, pastTime)
    ensures ExpireAll(raw, s + {id}, pastTime) ==
      if id in r && Truthy(r[id]) then r[id := Touched(r[id], pastTime)] else r
    ensures AnyTruthy(raw, s + {id}) <==> AnyTruthy(raw, s) || (id in r && Truthy(r[id]))
  {
    if id in raw {
      assert Truthy(r[id]) == Truthy(raw[id]);
      assert Truthy(raw[id]) ==> Touched(r[id], pastTime) == Touched(raw[id], pastTime);
    }
    if AnyTruthy(raw, s + {id}) && !(id in r && Truthy(r[id])) {
      var k :| k in s + {id} && k in raw && Truthy(raw[k]);
      assert k != id;
    }
  }

  /** The `forEach` of `batchDelete`: the new store and whether it changed. */
  method DeleteLoop(raw: map<string, Raw>, ids: seq<string>) returns (r: map<string, Raw>, changed: bool)
    ensures r == DeleteAll(raw, (set id | id in ids))
    ensures changed <==> AnyTruthy(raw, (set id | id in ids))
  {
    r, changed := raw, false;
    var i := 0;
    while i < |ids|
      invariant 0 <= i <= |ids|
      invariant r == DeleteAll(raw, (set id | id in ids[..i]))
      invariant changed <==> AnyTruthy(raw, (set id | id in ids[..i]))
    {
      assert ids[..i + 1] == ids[..i] + [ids[i]];
      var id := ids[i];
      if id in r && Truthy(r[id]) {
        r := r - {id};
        changed := true;
      }
      i := i + 1;
    }
    assert ids[..i] == ids;
  }

  /**
   * Without a search term the in-place sort is harmless to a re-rendering
   * with the same order: sorting the already sorted `allData` again gives the
   * same rows.
   */
  lemma RerenderIsStable(all: seq<Row>, page: int, input: string, cfg: SortConfig)
    requires SearchTerm(input) == ""
    ensures ManagerView.Render(ManagerView.Render(all, page, input, cfg).rows, page, input, cfg).rows ==
      ManagerView.Render(all, page, input, cfg).rows
  {
    var rows := ManagerView.Render(all, page, input, cfg).rows;
    Sorting.SortBySortedIsIdentity(rows, (a: Row, b: Row) => Le(cfg, a, b));
  }

  class Manager {
    var allData: seq<Row>
    var currentPage: int
    var sortConfig: SortConfig
    /** `pendingImportData`: the parsed backup waiting for the mode choice. */
    var pendingImport: Option<map<string, Raw>>
    /** The object under CACHE_KEY in chrome.storage.local. */
    var storage: map<string, Raw>
    /** The number of `chrome.storage.local.set` calls made. */
    var writes: nat

    constructor (stored: map<string, Raw>)
      ensures allData == [] && currentPage == 1 && sortConfig == INITIAL_SORT
      ensures pendingImport == None && storage == stored && writes == 0
    {
      allData, currentPage, sortConfig := [], 1, INITIAL_SORT;
      pendingImport, storage, writes := None, stored, 0;
    }

    /**
     * `renderData()`: filter, sort, clamp the current page and slice it.
     * Without a search term the sort runs on `allData` itself, which keeps
     * the sorted order.
     */
    method RenderData(input: string) returns (v: View)
      modifies this`allData, this`currentPage
      ensures v == ManagerView.Render(old(allData), old(currentPage), input, sortConfig)
      ensures currentPage == v.page
      ensures SearchTerm(input) == "" ==> allData == v.rows
      ensures SearchTerm(input) != "" ==> allData == old(allData)
    {
      var term := SearchTerm(input);
      var filtered := Filter(allData, term);
      var sorted := SortRows(filtered, sortConfig);
      var totalPages := TotalPages(|sorted|);
      var page := ClampPage(currentPage, totalPages);
      v := View(sorted, totalPages, page, PageSlice(sorted, page));
      assert v == ManagerView.Render(allData, currentPage, input, sortConfig);
      // the sort works on `allData` itself when nothing filtered it
      if term == "" {
        allData := sorted;
      }
      currentPage := page;
    }

    /**
     * `loadData()`: one row per listable entry in enumeration order; when
     * an entry was dropped, the store is rewritten without it; then the
     * list is rendered.
     */
    method LoadData(order: seq<string>, input: string) returns (v: View)
      requires Distinct(order) && forall k :: k in order <==> k in storage
      modifies this`allData, this`currentPage, this`storage, this`writes
      ensures storage == ValidRaw(old(storage))
      ensures writes == old(writes) + (if |ValidRaw(old(storage))| != |old(storage)| then 1 else 0)
      ensures v == ManagerView.Render(Rows(old(storage), order), old(currentPage), input, sortConfig)
      ensures currentPage == v.page
      ensures SearchTerm(input) == "" ==> allData == v.rows
      ensures SearchTerm(input) != "" ==> allData == Rows(old(storage), order)
    {
      var raw := storage;
      var rows, validRaw := LoadLoop(raw, order);
      allData := rows;
      if |raw| != |validRaw| {
        storage := validRaw;
        writes := writes + 1;
      } else {
        ValidRawSameSize(raw);
      }
      v := RenderData(input);
    }

    /** A click on a column header. */
    method HandleSort(key: SortKey, input: string) returns (v: View)
      modifies this`allData, this`currentPage, this`sortConfig
      ensures sortConfig == NextSort(old(sortConfig), key)
      ensures v == ManagerView.Render(old(allData), old(currentPage), input, sortConfig)
      ensures currentPage == v.page
      ensures SearchTerm(input) == "" ==> allData == v.rows
      ensures SearchTerm(input) != "" ==> allData == old(allData)
    {
      sortConfig := NextSort(sortConfig, key);
      v := RenderData(input);
    }

    /** The debounced search input: back to the first page. */
    method Search(input: string) returns (v: View)
      modifies this`allData, this`currentPage
      ensures v == ManagerView.Render(old(allData), 1, input, sortConfig)
      ensures currentPage == v.page
    {
      currentPage := 1;
      v := RenderData(input);
    }

    /** The previous-page button: nothing on the first page. */
    method PrevPage(input: string) returns (v: Option<View>)
      modifies this`allData, this`currentPage
      ensures old(currentPage) <= 1 ==> v == None && currentPage == old(currentPage) && allData == old(allData)
      ensures old(currentPage) > 1 ==>
        v == Some(ManagerView.Render(old(allData), old(currentPage) - 1, input, sortConfig)) &&
        currentPage == v.value.page
    {
      if currentPage > 1 {
        currentPage := currentPage - 1;
        var view := RenderData(input);
        v := Some(view);
      } else {
        v := None;
      }
    }

    /** The next-page button; the rendering clamps the page back on the last one. */
    method NextPage(input: string) returns (v: View)
      modifies this`allData, this`currentPage
      ensures v == ManagerView.Render(old(allData), old(currentPage) + 1, input, sortConfig)
      ensures currentPage == v.page
    {
      currentPage := currentPage + 1;
      v := RenderData(input);
    }

    /**
     * The parsed backup is kept for the mode choice when it holds a valid
     * entry; the returned count is the number shown.
     */
    method HandleImport(dataToImport: map<string, Raw>) returns (count: nat)
      modifies this`pendingImport
      ensures count == ImportCount(dataToImport)
      ensures count > 0 ==> pendingImport == Some(dataToImport)
      ensures count == 0 ==> pendingImport == old(pendingImport)
    {
      count := ImportCount(dataToImport);
      if count > 0 {
        pendingImport := Some(dataToImport);
      }
    }

    /**
     * `finalizeImport(isTrusted)`: the cleaned entries replace the stored
     * ones with the same key, everything else is kept.
     */
    method FinalizeImport(isTrusted: bool, now: int) returns (validCount: nat)
      modifies this`storage, this`writes, this`pendingImport
      ensures old(pendingImport).None? ==>
        validCount == 0 && storage == old(storage) && writes == old(writes) && pendingImport == None
      ensures old(pendingImport).Some? ==>
        storage == old(storage) + CleanImport(old(pendingImport).value, isTrusted, now)
      ensures old(pendingImport).Some? ==>
        validCount == |CleanImport(old(pendingImport).value, isTrusted, now)|
      ensures old(pendingImport).Some? ==> writes == old(writes) + 1 && pendingImport == None
    {
      if pendingImport.None? {
        return 0;
      }
      var data := pendingImport.value;
      var cleanData := CleanLoop(data, isTrusted, now);
      validCount := |cleanData|;
      storage := storage + cleanData;
      writes := writes + 1;
      pendingImport := None;
    }

    method CancelImport()
      modifies this`pendingImport
      ensures pendingImport == None
    {
      pendingImport := None;
    }

    /** `expireItem(id)`: a truthy entry is rewritten with the past timestamp. */
    method ExpireItem(id: string, now: int)
      modifies this`storage, this`writes
      ensures !Live(old(storage), id) ==> storage == old(storage) && writes == old(writes)
      ensures Live(old(storage), id) ==>
        storage == old(storage)[id := Touched(old(storage)[id], PastTime(now))] &&
        writes == old(writes) + 1
    {
      if id in storage && Truthy(storage[id]) {
        storage := storage[id := Touched(storage[id], PastTime(now))];
        writes := writes + 1;
      }
    }

    /** `batchExpire()` over the checked ids. */
    method BatchExpire(ids: seq<string>, now: int)
      modifies this`storage, this`writes
      ensures storage == ExpireAll(old(storage), (set id | id in ids), PastTime(now))
      ensures writes == old(writes) + (if AnyTruthy(old(storage), (set id | id in ids)) then 1 else 0)
    {
      if |ids| == 0 {
        assert storage == ExpireAll(storage, {}, PastTime(now));
        return;
      }
      var raw, changed := ExpireLoop(storage, ids, PastTime(now));
      if changed {
        storage := raw;
        writes := writes + 1;
      }
    }

    /** `deleteItem(id)`: a truthy entry is removed. */
    method DeleteItem(id: string)
      modifies this`storage, this`writes
      ensures !Live(old(storage), id) ==> storage == old(storage) && writes == old(writes)
      ensures Live(old(storage), id) ==> storage == old(storage) - {id} && writes == old(writes) + 1
    {
      if id in storage && Truthy(storage[id]) {
        storage := storage - {id};
        writes := writes + 1;
      }
    }

    /** `batchDelete()` over the checked ids, once the user confirms. */
    method BatchDelete(ids: seq<string>, confirmed: bool)
      modifies this`storage, this`writes
      ensures ids == [] || !confirmed ==> storage == old(storage) && writes == old(writes)
      ensures ids != [] && confirmed ==>
        storage == DeleteAll(old(storage), (set id | id in ids)) &&
        writes == old(writes) + (if AnyTruthy(old(storage), (set id | id in ids)) then 1 else 0)
    {
      if |ids| == 0 || !confirmed {
        return;
      }
      var raw, changed := DeleteLoop(storage, ids);
      if changed {
        storage := raw;
        writes := writes + 1;
      }
    }

    /** The clear button: once confirmed, CACHE_KEY is removed from the storage. */
    method ClearAll(confirmed: bool)
      modifies this`storage
      ensures confirmed ==> storage == map[]
      ensures !confirmed ==> storage == old(storage)
    {
      if confirmed {
        storage := map[];
      }
    }
  }

  /** Live,as the legacy cache defines it: present and truthy. */
  predicate Live(data: map<string, Raw>, k: string)
  {
    k in data && Truthy(data[k])
  }
}
