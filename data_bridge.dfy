// The content script's data bridge (js/content/data_bridge.js): it asks the
// background for the cached record, shows it, and requests a fetch when
// there is none (high priority) or it is stale (low priority, forced
// refresh); the fetch answer is filtered before it reaches the callback.
//
// The messages' answers, the clock and the page's HTML-entity decoder are
// parameters.

module DataBridge {

  import opened Common
  import opened Records
  import Config
  import BgFetcher
  import Background

  /** What the callback receives: `{ name, subs, isExpired }`. */
  datatype CachedData = CachedData(name: string, subs: int, isExpired: bool)

  /**
   * `queryCache` as written: null stays null; otherwise the record is stale
   * when more than TTL has passed since `ts || 0`. The answer the background
   * builds from a running fetch has no `ts`, so it counts as stale.
   */
  function QueryCacheAsWritten(response: Background.Reply, now: int): (r: Option<CachedData>)
    ensures response.Null? <==> r.None?
    ensures response.Stored? ==>
      r == Some(CachedData(NameField(response.record), SubsOf(response.record),
                           now - TsOf(response.record) > Config.TTL))
    ensures response.Fetched? ==> r == Some(CachedData(response.name, response.subs, now > Config.TTL))
  {
    match response
    case Null => None
    case Stored(v) => Some(CachedData(NameField(v), SubsOf(v), now - TsOf(v) > Config.TTL))
    case Fetched(name, subs) => Some(CachedData(name, subs, now - 0 > Config.TTL))
  }

  /**
   * `queryCache` as evidently intended: a stored record is stale when more
   * than TTL has passed since `ts || 0`; the answer of a running fetch, which
   * the background marks `isExpired: false`, is fresh.
   */
  function QueryCache(response: Background.Reply, now: int): (r: Option<CachedData>)
    ensures response.Null? <==> r.None?
    ensures response.Stored? ==>
      r.Some? && r.value.name == NameField(response.record) && r.value.subs == SubsOf(response.record) &&
      (r.value.isExpired <==> now - TsOf(response.record) > Config.TTL)
    ensures response.Fetched? ==> r == Some(CachedData(response.name, response.subs, false))
  {
    match response
    case Null => None
    case Stored(v) => Some(CachedData(NameField(v), SubsOf(v), now - TsOf(v) > Config.TTL))
    case Fetched(name, subs) => Some(CachedData(name, subs, false))
  }

  /** A `FETCH_CHANNEL_INFO` request. */
  datatype FetchRequest = FetchRequest(handle: string, priority: string, refresh: bool)

  /** `fetchBackground(handle, priority, ...)`: `refresh` is set for the low priority only. */
  function FetchFor(handle: string, priority: string): (q: FetchRequest)
    ensures q.handle == handle && q.priority == priority && (q.refresh <==> priority == "low")
  {
    FetchRequest(handle, priority, priority == "low")
  }

  /**
   * What `getData` does: whether it asks the cache, the data it passes to
   * the callback at once, and the fetch it requests.
   */
  datatype Plan = Plan(queried: bool, immediate: seq<CachedData>, fetch: Option<FetchRequest>)

  /** `getData(handle, callback)` given the answer of `queryCache`. */
  function GetData(handle: string, cached: Option<CachedData>): (p: Plan)
    ensures handle == "" ==> p == Plan(false, [], None)
    ensures handle != "" && cached.Some? && !cached.value.isExpired ==> p == Plan(true, [cached.value], None)
    ensures handle != "" && cached.Some? && cached.value.isExpired ==>
      p == Plan(true, [cached.value], Some(FetchRequest(handle, "low", true)))
    ensures handle != "" && cached.None? ==> p == Plan(true, [], Some(FetchRequest(handle, "high", false)))
  {
    if handle == "" then Plan(false, [], None)
    else if cached.Some? then
      if !cached.value.isExpired then Plan(true, [cached.value], None)
      else Plan(true, [cached.value], Some(FetchFor(handle, "low")))
    else Plan(true, [], Some(FetchFor(handle, "high")))
  }

  /** A fetch is requested exactly when there is no fresh cached record. */
  lemma FetchIffNotFresh(handle: string, cached: Option<CachedData>)
    requires handle != ""
    ensures GetData(handle, cached).fetch.Some? <==> cached.None? || cached.value.isExpired
    ensures |GetData(handle, cached).immediate| <= 1
    ensures GetData(handle, cached).fetch.Some? ==>
      (GetData(handle, cached).fetch.value.refresh <==> cached.Some?)
  {
  }

  /**
   * The `FETCH_CHANNEL_INFO` answer handler: nothing on a messaging error, a
   * missing answer or a failed result, nor when the decoded name is
   * "YouTube"; otherwise fresh data with the decoded name.
   */
  function OnFetchResponse(lastError: bool, response: Option<BgFetcher.FetchResult>,
                           decode: string -> string): (r: Option<CachedData>)
    ensures lastError || response.None? || response.value.Error? ==> r.None?
    ensures r.Some? ==>
      response.Some? && response.value.Success? &&
      r.value == CachedData(decode(response.value.nameRaw), response.value.subs, false) &&
      r.value.name != "YouTube"
    ensures (!lastError && response.Some? && response.value.Success? &&
             decode(response.value.nameRaw) != "YouTube") ==> r.Some?
  {
    if lastError || response.None? || response.value.Error? then None
    else
      var finalName := decode(response.value.nameRaw);
      if finalName == "YouTube" then None
      else Some(CachedData(finalName, response.value.subs, false))
  }

  /**
   * As written, a handle asked for while its fetch is running is answered
   * with the fetched data and then fetched once more, at low priority with a
   * forced refresh.
   */
  lemma InFlightAnswerFetchesAgain(handle: string, name: string, subs: int, now: int)
    requires handle != "" && now > Config.TTL
    ensures GetData(handle, QueryCacheAsWritten(Background.Fetched(name, subs), now)).fetch ==
      Some(FetchRequest(handle, "low", true))
  {
  }

  /** With the corrected bridge that answer is final: no second fetch. */
  lemma InFlightAnswerIsFinal(handle: string, name: string, subs: int, now: int)
    requires handle != ""
    ensures GetData(handle, QueryCache(Background.Fetched(name, subs), now)) ==
      Plan(true, [CachedData(name, subs, false)], None)
  {
  }
}
