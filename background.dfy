// The service worker's message handling (js/background/background.js): the
// lookup cascade that answers CACHE_GET (memory, then a fetch already
// running for the handle, then the disk), and which action each message
// type leads to.
//
// The three sources are parameters: the memory map of the cache, the
// awaited result of the running fetch task for the handle (None when there
// is none) and the awaited `BgCache.get` answer.

module Background {

  import opened Common
  import opened Records
  import BgFetcher

  /**
   * What `handleCacheGet` answers: `null`, a stored record, or the result of
   * the running fetch as `{ name, subs, isExpired: false }` (which has no
   * `ts`).
   */
  datatype Reply = Null | Stored(record: Raw) | Fetched(name: string, subs: int)

  /**
   * The lookup cascade: an empty handle gets null; a memory entry answers
   * first; a running task answers next, with its data on success and null on
   * failure; then a truthy disk answer; otherwise null.
   */
  function HandleCacheGet(handle: string, memory: map<string, Raw>,
                          running: Option<BgFetcher.FetchResult>, diskData: Option<Raw>): (r: Reply)
    ensures handle == "" ==> r == Null
    ensures handle != "" && handle in memory ==> r == Stored(memory[handle])
    ensures handle != "" && handle !in memory && running.Some? ==>
      (running.value.Success? ==> r == Fetched(running.value.nameRaw, running.value.subs)) &&
      (running.value.Error? ==> r == Null)
    ensures handle != "" && handle !in memory && running.None? ==>
      r == (if diskData.Some? && Truthy(diskData.value) then Stored(diskData.value) else Null)
  {
    if handle == "" then Null
    else if handle in memory then Stored(memory[handle])
    else if running.Some? then
      match running.value
      case Success(name, subs) => Fetched(name, subs)
      case Error(_, _) => Null
    else if diskData.Some? && Truthy(diskData.value) then Stored(diskData.value)
    else Null
  }

  /**
   * The answer is null exactly when the handle is empty, or the source that
   * decides fails: the running task failed, or, with no task, every source
   * missed.
   */
  lemma NullOnlyOnMiss(handle: string, memory: map<string, Raw>,
                       running: Option<BgFetcher.FetchResult>, diskData: Option<Raw>)
    ensures HandleCacheGet(handle, memory, running, diskData) == Null <==>
      handle == "" ||
      (handle !in memory && running.Some? && running.value.Error?) ||
      (handle !in memory && running.None? && !(diskData.Some? && Truthy(diskData.value)))
  {
  }

  /** The disk is consulted only when neither memory nor a running task answers. */
  lemma DiskIsLast(handle: string, memory: map<string, Raw>,
                   running: Option<BgFetcher.FetchResult>, d1: Option<Raw>, d2: Option<Raw>)
    requires handle == "" || handle in memory || running.Some?
    ensures HandleCacheGet(handle, memory, running, d1) == HandleCacheGet(handle, memory, running, d2)
  {
  }

  /** The messages the service worker understands; `priority` and `refresh` may be missing. */
  datatype Request =
    | CacheGet(handle: string)
    | CacheSet(handle: string, data: Raw)
    | GetCacheCount
    | FetchChannelInfo(handle: string, priority: Option<string>, refresh: Option<bool>)
    | ResetBurstQuota
    | Other

  /** What the listener starts for a message from the tab `tab` (None for an extension page). */
  datatype Action =
    | AnswerCacheGet(handle: string)
    | StoreAndAck(handle: string, data: Raw)
    | AnswerCount
    | StartFetch(handle: string, priority: BgFetcher.Priority, forceRefresh: bool, tabId: Option<int>)
    | ResetQuota(tab: int)
    | NoAction

  /**
   * The routing decision and whether the response channel is kept open
   * (`return true`) for an asynchronous answer. A missing priority takes
   * `fetch`'s default 'high', a missing refresh its default false.
   */
  function Route(request: Request, tab: Option<int>): (r: (Action, bool))
    ensures request.CacheGet? ==> r == (AnswerCacheGet(request.handle), true)
    ensures request.CacheSet? ==> r == (StoreAndAck(request.handle, request.data), false)
    ensures request.GetCacheCount? ==> r == (AnswerCount, true)
    ensures request.FetchChannelInfo? ==>
      r.1 && r.0.StartFetch? && r.0.handle == request.handle && r.0.tabId == tab &&
      (r.0.priority == BgFetcher.High <==> request.priority.None? || request.priority.value == "high") &&
      (r.0.forceRefresh <==> request.refresh == Some(true))
    ensures request.ResetBurstQuota? ==>
      !r.1 && (tab.None? ==> r.0 == NoAction) && (tab.Some? ==> r.0 == ResetQuota(tab.value))
    ensures request.Other? ==> r == (NoAction, false)
  {
    match request
    case CacheGet(h) => (AnswerCacheGet(h), true)
    case CacheSet(h, d) => (StoreAndAck(h, d), false)
    case GetCacheCount => (AnswerCount, true)
    case FetchChannelInfo(h, p, refresh) =>
      var priority := if p.Some? then p.value else "high";
      var force := if refresh.Some? then refresh.value else false;
      (StartFetch(h, BgFetcher.PriorityOf(priority), force, tab), true)
    case ResetBurstQuota =>
      (if tab.Some? then ResetQuota(tab.value) else NoAction, false)
    case Other => (NoAction, false)
  }
}
