// The manager page (pages/manager/manager.js) over the storage service of
// data_manager.js: it keeps the list `getAllList` returned, renders it with
// the shared sort, search and paging rules, and hands imports, deletions,
// expiries and the clearing of the store to the service.
//
// Each action ends with `loadData()`, which becomes a separate call of
// `LoadData` here. The search box value, the clock, the stored settings and
// the user's confirmations are parameters.

module ManagerPage {

  import opened Common
  import opened Records
  import Config
  import Sorting
  import opened ManagerView
  import DataManager

  /** The list row of a `getAllList` item, without the computed columns. */
  function RowOfItem(item: DataManager.ListItem): (r: Row)
    ensures r.id == item.id && r.name == item.name && r.subs == item.subs && r.ts == item.ts
  {
    Row(item.id, item.name, item.subs, item.ts)
  }

  function RowsOfItems(items: seq<DataManager.ListItem>): (rows: seq<Row>)
    ensures |rows| == |items|
    ensures forall i :: 0 <= i < |items| ==> rows[i] == RowOfItem(items[i])
  {
    seq(|items|, i requires 0 <= i < |items| => RowOfItem(items[i]))
  }

  /** The number of valid backup entries `handleImportFile` counts. */
  function ValidCount(data: seq<(string, Raw)>): (n: nat)
    ensures n <= |data|
    ensures n == 0 <==> forall p :: p in data ==> NameOf(p.1) == ""
  {
    if data == [] then 0
    else
      assert forall p :: p in data <==> p == data[0] || p in data[1..] by {
        assert data == [data[0]] + data[1..];
      }
      (if NameOf(data[0].1) != "" then 1 else 0) + ValidCount(data[1..])
  }

  /**
   * The status column as written: expiry against the static seven-day TTL,
   * not the configured `ttlDays` the list's `isExpired` uses.
   */
  function StatusAsWritten(now: int, item: DataManager.ListItem): (s: Status)
    ensures s == Expired <==> now - item.ts > Config.TTL
  {
    ExpiryStatus(now, item.ts, Config.TTL)
  }

  /** The status column against the configured TTL, as the list computes expiry. */
  function StatusFor(now: int, item: DataManager.ListItem, settings: DataManager.Settings): (s: Status)
    ensures s == Expired <==> now - item.ts > settings.ttlDays * Config.DAY_MS
  {
    ExpiryStatus(now, item.ts, settings.ttlDays * Config.DAY_MS)
  }

  /**
   * With the default settings an entry refreshed eight days ago is listed as
   * not expired, while the status column as written shows it expired.
   */
  lemma StatusDisagreesWithList()
    ensures var s := DataManager.GetSettings(None);
      var item := DataManager.ToListItem("@a", Entry("A", 0, 0), 8 * Config.DAY_MS, s);
      item.Some? && !item.value.isExpired && StatusAsWritten(8 * Config.DAY_MS, item.value) == Expired
  {
  }

  /** The corrected status column agrees with the list's `isExpired` for every item. */
  lemma StatusForAgreesWithList(handle: string, data: Raw, now: int, settings: DataManager.Settings)
    requires DataManager.ToListItem(handle, data, now, settings).Some?
    ensures var item := DataManager.ToListItem(handle, data, now, settings).value;
      StatusFor(now, item, settings) == Expired <==> item.isExpired
  {
  }

  class Page {
    var allData: seq<Row>
    var currentPage: int
    var sortConfig: SortConfig
    var pendingImport: Option<seq<(string, Raw)>>
    /** The storage service. */
    const dm: DataManager.Store

    constructor (service: DataManager.Store)
      ensures allData == [] && currentPage == 1 && sortConfig == INITIAL_SORT
      ensures pendingImport == None && dm == service
    {
      allData, currentPage, sortConfig := [], 1, INITIAL_SORT;
      pendingImport := None;
      dm := service;
    }

    /**
     * `renderData()`: filter, sort, clamp the current page and slice it.
     * Without a search term the sort runs on `allData` itself.
     */
    method RenderData(input: string) returns (v: View)
      modifies this`allData, this`currentPage
      ensures v == ManagerView.Render(old(allData), old(currentPage), input, sortConfig)
      ensures currentPage == v.page
      ensures SearchTerm(input) == "" ==> allData == v.rows
      ensures SearchTerm(input) != "" ==> allData == old(allData)
    {
      var term := SearchTerm(input);
      var filtered := Filter(allData, term);
      var sorted := SortRows(filtered, sortConfig);
      var totalPages := TotalPages(|sorted|);
      var page := ClampPage(currentPage, totalPages);
      v := View(sorted, totalPages, page, PageSlice(sorted, page));
      assert v == ManagerView.Render(allData, currentPage, input, sortConfig);
      // the sort works on `allData` itself when nothing filtered it
      if term == "" {
        allData := sorted;
      }
      currentPage := page;
    }

    /** `loadData()`: the service's list, newest first, then rendered. */
    method LoadData(entries: seq<(string, Raw)>, readOk: bool, stored: Option<DataManager.StoredSettings>,
                    now: int, input: string) returns (v: View)
      requires DataManager.Enumerates(entries, dm.db)
      modifies this`allData, this`currentPage
      ensures !readOk ==> v == ManagerView.Render([], old(currentPage), input, sortConfig)
      ensures readOk ==>
        var list := Sorting.SortBy(DataManager.Listed(entries, now, DataManager.GetSettings(stored)),
                                   DataManager.NewerFirst);
        v == ManagerView.Render(RowsOfItems(list), old(currentPage), input, sortConfig)
      ensures currentPage == v.page
    {
      var list := dm.GetAllList(entries, readOk, stored, now);
      allData := RowsOfItems(list);
      v := RenderData(input);
    }

    /** A click on a column header. */
    method HandleSort(key: SortKey, input: string) returns (v: View)
      modifies this`allData, this`currentPage, this`sortConfig
      ensures sortConfig == NextSort(old(sortConfig), key)
      ensures v == ManagerView.Render(old(allData), old(currentPage), input, sortConfig)
      ensures currentPage == v.page
    {
      sortConfig := NextSort(sortConfig, key);
      v := RenderData(input);
    }

    /** The debounced search input: back to the first page. */
    method Search(input: string) returns (v: View)
      modifies this`allData, this`currentPage
      ensures v == ManagerView.Render(old(allData), 1, input, sortConfig)
      ensures currentPage == v.page
    {
      currentPage := 1;
      v := RenderData(input);
    }

    /** The previous-page button: nothing on the first page. */
    method PrevPage(input: string) returns (v: Option<View>)
      modifies this`allData, this`currentPage
      ensures old(currentPage) <= 1 ==> v == None && currentPage == old(currentPage) && allData == old(allData)
      ensures old(currentPage) > 1 ==>
        v == Some(ManagerView.Render(old(allData), old(currentPage) - 1, input, sortConfig)) &&
        currentPage == v.value.page
    {
      if currentPage > 1 {
        currentPage := currentPage - 1;
        var view := RenderData(input);
        v := Some(view);
      } else {
        v := None;
      }
    }

    /** The next-page button; the rendering clamps the page on the last one. */
    method NextPage(input: string) returns (v: View)
      modifies this`allData, this`currentPage
      ensures v == ManagerView.Render(old(allData), old(currentPage) + 1, input, sortConfig)
      ensures currentPage == v.page
    {
      currentPage := currentPage + 1;
      v := RenderData(input);
    }

    /**
     * The parsed backup data: kept for the mode choice when it holds a
     * valid entry; with none the import fails and nothing is kept.
     */
    method HandleImportFile(dataToImport: seq<(string, Raw)>) returns (count: nat)
      modifies this`pendingImport
      ensures count == ValidCount(dataToImport)
      ensures count > 0 ==> pendingImport == Some(dataToImport)
      ensures count == 0 ==> pendingImport == old(pendingImport)
    {
      count := ValidCount(dataToImport);
      if count > 0 {
        pendingImport := Some(dataToImport);
      }
    }

    /** `finalizeImport(isTrusted)`: the service merges the pending data. */
    method FinalizeImport(isTrusted: bool, stored: Option<DataManager.StoredSettings>, now: int, readOk: bool)
      returns (count: nat)
      requires pendingImport.Some? ==> Distinct(DataManager.Keys(pendingImport.value))
      modifies this`pendingImport, dm
      ensures old(pendingImport).None? ==>
        count == 0 && pendingImport == None && dm.db == old(dm.db) && dm.sent == old(dm.sent)
      ensures old(pendingImport).Some? ==>
        var forcedTs := DataManager.ForcedExpiredTs(now, DataManager.GetSettings(stored));
        var cs := DataManager.Candidates(old(pendingImport).value, isTrusted, now, forcedTs);
        var w := DataManager.ToWrite(cs, DataManager.LocalValues(old(dm.db), DataManager.Keys(cs), readOk));
        count == |w| && dm.db == DataManager.PutAll(old(dm.db), w) && pendingImport == None &&
        dm.sent == old(dm.sent) + (if w == [] then [] else [DataManager.CacheInvalidate(DataManager.Keys(w))])
    {
      if pendingImport.None? {
        return 0;
      }
      count := dm.ImportData(pendingImport, isTrusted, stored, now, readOk);
      pendingImport := None;
    }

    /** The cancel button closes the dialog; the pending data stays. */
    method CancelImport()
      ensures pendingImport == old(pendingImport)
    {
    }

    /** A row's delete button. */
    method DeleteItem(id: string)
      modifies dm
      ensures dm.db == old(dm.db) - {id} && dm.sent == old(dm.sent) + [DataManager.CacheInvalidate([id])]
    {
      dm.DeleteItems([id]);
      assert (set x | x in [id]) == {id};
    }

    /** A row's expire button. */
    method ExpireItem(id: string, stored: Option<DataManager.StoredSettings>, now: int)
      modifies dm
      ensures dm.sent == old(dm.sent) + [DataManager.CacheInvalidate([id])]
      ensures dm.db == old(dm.db)[id := DataManager.Expired(if id in old(dm.db) then old(dm.db)[id] else Absent,
                                                           DataManager.ForcedExpiredTs(now, DataManager.GetSettings(stored)))]
    {
      dm.ExpireItems([id], stored, now);
    }

    /** `batchDelete()`: the checked ids, once the user confirms. */
    method BatchDelete(ids: seq<string>, confirmed: bool)
      modifies dm
      ensures ids == [] || !confirmed ==> dm.db == old(dm.db) && dm.sent == old(dm.sent)
      ensures ids != [] && confirmed ==>
        dm.db == old(dm.db) - (set id | id in ids) && dm.sent == old(dm.sent) + [DataManager.CacheInvalidate(ids)]
    {
      if |ids| == 0 {
        return;
      }
      if confirmed {
        dm.DeleteItems(ids);
      }
    }

    /** `batchExpire()`: the checked ids. */
    method BatchExpire(ids: seq<string>, stored: Option<DataManager.StoredSettings>, now: int)
      modifies dm
      ensures ids == [] ==> dm.db == old(dm.db) && dm.sent == old(dm.sent)
      ensures ids != [] ==> dm.sent == old(dm.sent) + [DataManager.CacheInvalidate(ids)]
      ensures ids != [] ==> forall k :: k in dm.db <==> k in old(dm.db) || k in ids
      ensures forall k :: k in ids ==>
        k in dm.db && dm.db[k] == DataManager.Expired(if k in old(dm.db) then old(dm.db)[k] else Absent,
                                                      DataManager.ForcedExpiredTs(now, DataManager.GetSettings(stored)))
      ensures forall k :: k in old(dm.db) && k !in ids ==> k in dm.db && dm.db[k] == old(dm.db)[k]
    {
      if |ids| > 0 {
        dm.ExpireItems(ids, stored, now);
      }
    }

    /** The clear button, once the user confirms. */
    method ClearAllData(confirmed: bool)
      modifies dm
      ensures !confirmed ==> dm.db == old(dm.db) && dm.sent == old(dm.sent)
      ensures confirmed ==> dm.db == map[] && dm.sent == old(dm.sent) + [DataManager.CacheClearMem]
    {
      if confirmed {
        dm.ClearAll();
      }
    }
  }
}
