# YT Nickname Restoration Assistant — a Dafny model of its core

The browser extension replaces YouTube `@handles` in comments and live chat
with the channel's display name and subscriber count. This project models,
in Dafny, the logic that decides where an answer comes from and when the
network may be asked, and proves properties of that model:

- **the fetch scheduler and its circuit breaker** (`js/background/bg_fetcher.js`,
  and the older `js/fetcher.js`): the high and low FIFO queues, the
  coalescing of requests per handle, the consumer loop that prefers the high
  queue, the pacing delay, and the error counter that trips the breaker and
  is cleared by the cool-down (`bg_fetcher.dfy`, `legacy_fetcher.dfy`);
- **the cache manager** (`js/background/bg_cache.js`, and the older
  `js/bg_cache.js`): the memory map bounded at 1000 entries with
  insertion-order eviction, the write buffer flushed at 50 entries or by the
  debounce timer, the memory → buffer → disk read order with copy-in, the
  migration of version-1 records, and the older cache's dirty-key overlay
  and save merge (`bg_cache.dfy`, `legacy_cache.dfy`);
- **the data manager** (`pages/manager/data_manager.js`): the settings
  defaults, the listing with expiry and days until deletion, deletion,
  forced expiry, and the import merge with its trusted and safe time stamps
  (`data_manager.dfy`);
- **the two manager pages** (`pages/manager/manager.js`, `js/manager.js`):
  sort toggling, the search filter, the stable sort, pagination clamping, the
  expiry status, and the page handlers over their module state
  (`manager_view.dfy`, `sorting.dfy`, `manager_page.dfy`, `legacy_manager.dfy`);
- **the smaller rule sets**: the cache-lookup cascade and the message routing
  of the service worker (`background.dfy`), the content script's
  cache-first, stale-while-refresh bridge (`data_bridge.dfy`), the two page
  scanners with their handle extraction, skip rules, flag protocol,
  truncation and waiting sets (`scanner.dfy`, `main_scanner.dfy`), language
  choice and lookup (`i18n.dfy`), and HTML and regular-expression escaping
  (`utils.dfy`).

`config.dfy` holds the constants of `js/shared/config.js`; `records.dfy`
holds the stored value (`Raw`: absent, a bare string from the oldest format,
or a `{ name, subs, ts }` record) and JavaScript's truthiness rules for it;
`common.dfy` holds an `Option` type and string helpers.

Browser storage (IndexedDB through idb-keyval, `chrome.storage.local`) is a
`map` from handle to stored value. Timers are methods the caller invokes when
the timer fires (`Tick`, `WaitElapsed`, `CoolDownElapsed`, `OnBatchTimer`).
The clock, random jitter, network outcomes, the SHA-256 digest and the
answers of asynchronous lookups are parameters. Objects whose fields the
source updates are classes with `modifies` frames; the collections they
mutate are `seq`, `set` and `map` fields. The pure rules are functions, and
lemmas relate them to one another.

## Model

| member | source | states |
|---|---|---|
| Config.SpeedPreset | js/shared/config.js:44-47 | exactly the modes NORMAL and SLOW are presets, each with a positive lower bound no larger than its upper bound (1200-2500 ms and 3500-6000 ms) |
| Records.NameOf | pages/manager/data_manager.js:44 | the display name of a stored value: a record's non-empty name field, a bare string itself, and nothing for a missing value |
| Records.Truthy | pages/manager/data_manager.js:43 | a missing value is falsy, a string is truthy exactly when non-empty, and every object is truthy |
| Records.NameField | pages/manager/data_manager.js:44 | a record's `name` field, and "" for a bare string or a missing value, which have none |
| Records.SubsOf | pages/manager/data_manager.js:65 | a record's `subs`, and 0 for a bare string or a missing value |
| Records.TsOf | pages/manager/data_manager.js:47 | a record's `ts`, and 0 for a bare string or a missing value |
| Background.HandleCacheGet | js/background/background.js:61-98 | an empty handle gets null; a memory entry answers first; a running fetch answers next, with its name and count on success and null on failure; only then is a truthy disk value returned, and otherwise null |
| Background.NullOnlyOnMiss | js/background/background.js:61-98 | the answer is null exactly when the handle is empty, the running fetch failed, or there is no running fetch and neither memory nor disk has a value |
| Background.DiskIsLast | js/background/background.js:67-90 | the disk answer cannot change the reply once the handle is empty, in memory, or has a running fetch |
| Background.Route | js/background/background.js:21-58 | CACHE_GET, GET_CACHE_COUNT and FETCH_CHANNEL_INFO keep the channel open and CACHE_SET does not; a fetch gets the high priority exactly when none or 'high' is given, and a forced refresh exactly when `refresh` is true; RESET_BURST_QUOTA acts only for a tab; anything else does nothing |
| BgCache.Remove | js/background/bg_cache.js:164 | deleting a key from the `Map`'s key order leaves exactly the other keys, still distinct, and one fewer when the key was present; an absent key leaves the order as it is, and deleting the first key drops just the head |
| BgCache.RemoveAt | js/background/bg_cache.js:164 | removing a present key from a distinct key order cuts it out at its position, and the other keys keep their relative order |
| BgCache.MemDelete | js/background/bg_cache.js:170 | `memoryCache.delete`: the key is gone, every other entry is kept, and the key order is the old order with that key removed |
| BgCache.MemPut | js/background/bg_cache.js:166 | `memoryCache.set`: the entry is added or replaced; a new key goes to the end of the order and an existing key keeps the order as it is |
| BgCache.SetMem | js/background/bg_cache.js:161-167 | `setMemory`: the item is stored under the handle; a map already at 1000 entries first evicts the head of its insertion order, even when the handle is already present; the size never exceeds 1000; every other surviving entry is unchanged; the new order is the old one, less the evicted head, with a new handle appended at the end |
| BgCache.FullMapEvictsEvenOnUpdate | js/background/bg_cache.js:162-166 | updating a present handle in a full map still evicts the oldest other entry and leaves 999 entries |
| BgCache.MigrateValue | js/background/bg_cache.js:56-60 | a version-1 value is migrated exactly when it has a name; a bare string becomes a record with 0 subscribers stamped `now`; a record keeps its fields and gets `now` only when its time stamp is missing |
| BgCache.WarmUp | js/background/bg_cache.js:55-64 | warming memory with the migrated values keeps the `Map` consistent and within 1000 entries |
| BgCache.Migrated | js/background/bg_cache.js:59-61 | the migration writes exactly the named legacy handles, each with its migrated value |
| BgCache.Restrict | js/background/bg_cache.js:66-67 | the writes that landed: exactly the migrated entries whose write succeeded, with their values |
| BgCache.MigrationLoop | js/background/bg_cache.js:55-64 | the migration loop collects exactly `Migrated` as its writes and leaves memory as `WarmUp` says, within 1000 entries |
| BgCache.Cache.constructor | js/background/bg_cache.js:6-15 | empty memory and write buffer, no timer, the stored disk and legacy store |
| BgCache.Cache.GetCount | js/background/bg_cache.js:23-32 | the number of keys on disk, or 0 when reading the keys fails |
| BgCache.Cache.Get | js/background/bg_cache.js:84-108 | an empty handle is a miss; memory answers first, then the write buffer, then the disk; a truthy disk value is copied into memory; a failed or empty disk read answers null and changes nothing |
| BgCache.Cache.SetMemory | js/background/bg_cache.js:161-167 | memory becomes `SetMem` of the old memory |
| BgCache.Cache.Set | js/background/bg_cache.js:111-132 | an empty handle or falsy data is ignored; otherwise the normalised item (`subs` default 0, `ts` default now) goes to memory and the buffer, and a buffer reaching 50 entries is flushed to disk at once while a smaller one restarts the timer |
| BgCache.Cache.ScheduleFlush | js/background/bg_cache.js:134-137 | the debounce timer is armed |
| BgCache.Cache.Tick | js/background/bg_cache.js:136 | the timer's flush empties the buffer, disarms the timer and, if the write succeeds, adds the buffered entries to disk |
| BgCache.Cache.FlushToDisk | js/background/bg_cache.js:139-159 | an empty buffer changes nothing; otherwise the buffer is emptied and the timer cleared whether or not the write succeeds, and only a successful write adds the entries to disk |
| BgCache.Cache.Delete | js/background/bg_cache.js:169-173 | the handle is removed from memory, from the buffer and from disk, and nothing else changes |
| BgCache.Cache.Clear | js/background/bg_cache.js:175-179 | memory, buffer and disk are all emptied |
| BgCache.Cache.TryMigrateFromV1 | js/background/bg_cache.js:35-81 | memory is warmed with the migrated values; the disk gains the migrated entries whose writes landed; the legacy store is removed only when every write landed, and kept otherwise |
| BgCache.SetThenGet | js/background/bg_cache.js:111-121 | a value just set is read back, from memory, as its normalised record |
| BgFetcher.PriorityOf | js/background/bg_fetcher.js:58-62 | exactly the string `'high'` selects the high queue; every other priority value selects the low one |
| BgFetcher.DoNetworkFetch | js/background/bg_fetcher.js:119-160 | an empty handle fails as an invalid handle; HTTP 429 is the only answer that calls the circuit breaker, and it yields the 429 error; a login or consent redirect yields a 429 error without calling the breaker; success happens exactly when the answer is OK and not redirected and the page parser found a name, and it carries the parsed name and count |
| BgFetcher.CacheGate | js/background/bg_fetcher.js:39-46 | corrected gate: the cache answers exactly when no refresh is forced and the awaited lookup found a truthy value, and then the answer is the stored name and count |
| BgFetcher.AsWrittenGateAnswersMisses | js/background/bg_fetcher.js:40-45 | as written, a cache miss without a forced refresh is still answered as a success with an empty name and no count, although the corrected gate would go to the network |
| BgFetcher.Pause | js/background/bg_fetcher.js:112-113 | the random pause between requests lies between the lower and the upper bound of the current delay setting |
| BgFetcher.UpdatedDelay | js/background/bg_fetcher.js:26-33 | a known speed preset replaces the delay bounds with that preset's own; an unknown mode keeps them |
| BgFetcher.AsWrittenPresetRemovesPause | js/background/bg_fetcher.js:29-112 | as written, after any known preset is selected the pause read through the upper-case field names is 0 ms, although the preset's lower bound is positive |
| BgFetcher.Broadcast | js/background/bg_fetcher.js:99-106 | every waiting promise, in registration order, receives the same result |
| BgFetcher.Fetcher.constructor | js/background/bg_fetcher.js:7-13 | empty queues, no tasks, a closed circuit with error count 0, an idle loop and the default delay of 1500-3000 ms |
| BgFetcher.Fetcher.UpdateSpeedMode | js/background/bg_fetcher.js:26-33 | only the delay changes, and it changes as `UpdatedDelay` says |
| BgFetcher.Fetcher.Fetch | js/background/bg_fetcher.js:35-69 | a cache answer resolves the caller at once and changes nothing else; a handle already in flight only gains the caller as a waiter; a new handle becomes a task with one waiter at the back of the queue its priority names, and an idle loop with a closed circuit starts fetching the head of the queues; the one-task-per-handle invariant is kept |
| BgFetcher.Fetcher.Enlist | js/background/bg_fetcher.js:56-62 | a new handle gets a waiter list holding only its caller and joins the back of the queue its priority names; the other queue is untouched and the two queues stay disjoint and duplicate-free |
| BgFetcher.Fetcher.ProcessQueue | js/background/bg_fetcher.js:71-80 | a running loop, an open circuit or empty queues change nothing; otherwise the loop starts fetching the head of the high queue, or of the low queue when the high queue is empty |
| BgFetcher.Fetcher.Advance | js/background/bg_fetcher.js:77-80 | the loop stops, and clears the running flag, when the circuit is open or both queues are empty; otherwise the next handle is the head of the high queue, or of the low queue when the high queue is empty |
| BgFetcher.Fetcher.TriggerCircuitBreaker | js/background/bg_fetcher.js:163-178 | the error count grows by one; at the threshold of 3 the circuit opens and one cool-down timer is armed; below it nothing else changes |
| BgFetcher.Fetcher.NetworkDone | js/background/bg_fetcher.js:86-113 | the result is the classified network outcome; every waiter of the handle receives it; the task is dropped and the pause starts; a success is written to the cache and resets the error count; a failure writes nothing, and only a 429 counts toward the breaker |
| BgFetcher.Fetcher.WaitElapsed | js/background/bg_fetcher.js:113-116 | after the pause the loop test runs again: it stops on an open circuit or empty queues, and otherwise takes the next handle, high queue first |
| BgFetcher.Fetcher.CoolDownElapsed | js/background/bg_fetcher.js:172-177 | the timer closes the circuit, resets the error count and restarts an idle loop on the queued handles |
| BgFetcher.CoalescingScenario | js/background/bg_fetcher.js:49-53 | two requests for the same handle while it is in flight make one network request, and both callers receive the same result |
| BgFetcher.LoginRedirect | js/background/bg_fetcher.js:142 | the response was redirected to a login page exactly when its URL contains "google.com/accounts" or "consent.youtube.com" |
| BgFetcher.CacheGateAsWritten | js/background/bg_fetcher.js:39-45 | as written, a fetch without `forceRefresh` is answered at once with an empty success, whatever the cache holds; with `forceRefresh` the gate is passed |
| BgFetcher.PauseAsWritten | js/background/bg_fetcher.js:112 | as written, the pause is `MIN + k` while `DELAY` has its initial upper-case fields, and 0 ms (the `NaN` wait) once a preset has replaced them |
| DataManager.GetSettings | pages/manager/data_manager.js:14-24 | missing or zero settings fall back to 15 TTL days and 30 deletion days, field by field; set fields are kept |
| DataManager.ToListItem | pages/manager/data_manager.js:42-69 | a row exists exactly for a truthy value with a name; it carries the handle, name, subscribers and time stamp; it is expired exactly when more than `ttlDays` have passed; an expired row counts the days until `ts + deleteDays`, rounded up, and a fresh row counts 0 |
| DataManager.ExpiredDaysBound | pages/manager/data_manager.js:50-59 | an expired row never shows more than `deleteDays - ttlDays` days until deletion |
| DataManager.ForcedExpiryListing | pages/manager/data_manager.js:117-131 | an entry expired by the forced time stamp is listed as expired, under its own name, with exactly `deleteDays - ttlDays` days until deletion |
| DataManager.Listed | pages/manager/data_manager.js:42-70 | every row comes from a stored entry, and there are no more rows than entries |
| DataManager.ListedComplete | pages/manager/data_manager.js:42-70 | every stored entry that has a row is listed |
| DataManager.VerifyChecksum | pages/manager/data_manager.js:260-264 | a backup without `meta` or `data` fails; otherwise it passes exactly when the digest of its data equals the stored checksum |
| DataManager.Expired | pages/manager/data_manager.js:123-131 | a falsy value stays missing; a bare string becomes a record with 0 subscribers and the forced time stamp; a record keeps its fields and gets the forced time stamp |
| DataManager.ImportTs | pages/manager/data_manager.js:175-186 | safe mode always uses the forced time stamp, and so does an entry with subscribers or from the future; a trusted entry otherwise keeps its own time stamp, or gets `now` when it has none; no imported time stamp lies in the future |
| DataManager.Candidate | pages/manager/data_manager.js:171-191 | an imported entry is a candidate exactly when it has a name; the candidate record has that name, its subscribers (0 when missing) and the imported time stamp |
| DataManager.PutAll | pages/manager/data_manager.js:247-251 | `setMany`: the store afterwards has exactly the old keys and the written ones |
| DataManager.PutAllValues | pages/manager/data_manager.js:247-251 | after writing pairs with distinct keys, every written key holds its written value |
| DataManager.PutAllOthers | pages/manager/data_manager.js:247-251 | keys that were not written keep their old values |
| DataManager.Candidates | pages/manager/data_manager.js:168-192 | no more candidates than imported entries |
| DataManager.ToWrite | pages/manager/data_manager.js:205-242 | no more writes than candidates |
| DataManager.CandidatesSafeTs | pages/manager/data_manager.js:184-186 | in safe mode every candidate is a record with the forced time stamp |
| DataManager.CandidatesFrom | pages/manager/data_manager.js:170-191 | every candidate comes from an imported entry with the same key |
| DataManager.CandidatesNamed | pages/manager/data_manager.js:173-194 | there are no candidates exactly when no imported entry has a name |
| DataManager.CandidateKeys | pages/manager/data_manager.js:170-191 | the candidates' keys are distinct and are all keys of the imported data |
| DataManager.ToWriteKeys | pages/manager/data_manager.js:205-242 | the writes have distinct keys and are all candidates |
| DataManager.ToWriteFrom | pages/manager/data_manager.js:208-242 | every write is a candidate whose local value it is allowed to overwrite |
| DataManager.ToWriteProtects | pages/manager/data_manager.js:220-233 | a local record with subscribers, or newer than the candidate, is never overwritten |
| DataManager.ToWriteReplaces | pages/manager/data_manager.js:213-216 | a candidate whose local value is missing or a bare string is always written |
| DataManager.LocalValues | pages/manager/data_manager.js:197-203 | `getMany`: each key's stored value, or undefined for every key when the read fails |
| DataManager.BuildCandidates | pages/manager/data_manager.js:168-192 | the candidates loop computes exactly `Candidates` |
| DataManager.SelectWrites | pages/manager/data_manager.js:205-242 | the comparison loop computes exactly `ToWrite` |
| DataManager.Store.constructor | pages/manager/data_manager.js:9-11 | the store starts with the given contents and no messages sent |
| DataManager.Store.GetAllList | pages/manager/data_manager.js:27-80 | a failed read gives []; otherwise the list is a permutation of the rows of the stored entries, sorted newest first |
| DataManager.Store.DeleteItems | pages/manager/data_manager.js:96-107 | no ids change nothing; otherwise exactly those keys are deleted and one invalidation for them is sent |
| DataManager.Store.ExpireItems | pages/manager/data_manager.js:109-136 | no ids change nothing; otherwise every listed key gets `Expired` of its value with the forced time stamp of the current settings, every other key is untouched, and one invalidation is sent |
| DataManager.Store.ClearAll | pages/manager/data_manager.js:138-141 | the store is emptied and a memory-clear message is sent |
| DataManager.Store.ImportData | pages/manager/data_manager.js:158-258 | no data imports nothing; otherwise exactly the candidates that overwrite their local values are written, their number is returned, and one invalidation for their keys is sent when there are any |
| DataManager.ImportWrites | pages/manager/data_manager.js:168-257 | the import writes each key at most once, and every written pair is a candidate built from an imported entry with that key |
| DataManager.ImportStores | pages/manager/data_manager.js:244-257 | after the import every written key holds its candidate and every other key keeps its old value |
| DataManager.NewerFirst | pages/manager/data_manager.js:73 | `a` may precede `b` in the list exactly when `b` is not newer, by the comparator `b.ts - a.ts` |
| DataManager.ForcedExpiredTs | pages/manager/data_manager.js:164-165 | the forced time stamp lies `ttlDays` days and ten more minutes before now |
| Sorting.Insert | pages/manager/manager.js:78-84 | inserting keeps every element and adds exactly the new one |
| Sorting.SortBy | pages/manager/manager.js:78-84 | `Array.prototype.sort` with a comparator: the result is a permutation of the input |
| Sorting.InsertSorted | pages/manager/manager.js:78-84 | inserting into a sorted sequence keeps it sorted, for any total preorder |
| Sorting.SortBySorted | pages/manager/manager.js:78-84 | for a total preorder the sorted result is ordered by it |
| Sorting.SortByConstant | pages/manager/manager.js:78-84 | a comparator that always answers 0 keeps the input order, as a stable sort does |
| Sorting.SortBySortedIsIdentity | pages/manager/manager.js:78-84 | sorting an already sorted sequence leaves it as it is |
| ManagerView.NextSort | pages/manager/manager.js:276-285 | the clicked column becomes the sort key; the same column flips the direction; a new column starts descending exactly for `subs` and `ts` |
| ManagerView.NextSortTwice | pages/manager/manager.js:276-285 | clicking the current column twice restores the sort configuration |
| ManagerView.StrCmp | pages/manager/manager.js:82 | string comparison by code points answers -1, 0 or 1, and 0 exactly for equal strings |
| ManagerView.StrCmpAntisymmetric | pages/manager/manager.js:82 | swapping the strings negates the comparison |
| ManagerView.StrCmpTransitive | pages/manager/manager.js:82 | the string order chains |
| ManagerView.Compare | pages/manager/manager.js:78-84 | an unknown column compares every pair as equal; numeric columns compare by difference, negated for a descending sort |
| ManagerView.CompareIsPreorder | pages/manager/manager.js:78-84 | every sort configuration orders all rows as a total preorder |
| ManagerView.SortRows | pages/manager/manager.js:78-84 | the sorted rows are a permutation of the filtered rows, ordered by the configuration's comparator |
| ManagerView.OtherKeyKeepsOrder | pages/manager/manager.js:78-84 | sorting by an unknown column leaves the rows in their order |
| ManagerView.SearchTerm | pages/manager/manager.js:64 | the trimmed, lower-cased search term is no longer than the input |
| ManagerView.Filter | pages/manager/manager.js:69-76 | without a term every row is kept; with one, exactly the rows whose lower-cased id or name contains it |
| ManagerView.FilterKeepsOrder | pages/manager/manager.js:69-76 | filtering keeps the rows in their order: it distributes over concatenation |
| ManagerView.TotalPages | pages/manager/manager.js:86-87 | at least one page; for a non-empty list exactly enough pages of 15 to hold every row |
| ManagerView.ClampPage | pages/manager/manager.js:88-89 | the current page is clamped into [1, totalPages] and kept when it already lies there |
| ManagerView.PageSlice | pages/manager/manager.js:91-92 | a page holds at most 15 rows, each at its offset in the list, and a full 15 when the list reaches past the page |
| ManagerView.PagesCoverList | pages/manager/manager.js:86-92 | every row of the list is on page `i / 15 + 1`, which exists, at position `i % 15` |
| ManagerView.ExpiryStatus | pages/manager/manager.js:110-122 | expired exactly when more than the TTL has passed; otherwise the time left rounded up to hours (at most 24) or, exactly when more than 24 hours are left, `floor(hours / 24)` days, the day count pinned by the time left lying between `days * 24 - 1` and `days * 24 + 23` hours |
| ManagerView.ExpiryWithinTtl | pages/manager/manager.js:110-122 | with the 7-day TTL and a time stamp that is not in the future, the status never shows more than 7 days |
| ManagerView.Render | pages/manager/manager.js:62-92 | the rendered list is a permutation of the filtered rows, ordered by the sort configuration; the page count fits the list, the current page is the requested one clamped into it, and the page rows are the 15-row slice of the list at that page |
| ManagerView.Le | pages/manager/manager.js:78-84 | `a` may precede `b` exactly when the sort's comparator gives at most 0 for them |
| ManagerView.Matches | pages/manager/manager.js:72-75 | a row matches the term exactly when its lower-cased id or its lower-cased name contains it |
| ManagerPage.RowOfItem | pages/manager/manager.js:109-141 | a row shows the item's id, name, subscribers and time stamp |
| ManagerPage.RowsOfItems | pages/manager/manager.js:54 | one row per listed item, in the same order |
| ManagerPage.ValidCount | pages/manager/manager.js:192-196 | the number of backup entries with a name; 0 exactly when no entry has one |
| ManagerPage.StatusAsWritten | pages/manager/manager.js:107-110 | as written, the status column calls an item expired exactly when more than the static 7-day TTL has passed |
| ManagerPage.StatusFor | pages/manager/manager.js:107-110 | corrected status column: expired exactly when more than the configured `ttlDays` have passed |
| ManagerPage.StatusDisagreesWithList | pages/manager/manager.js:107-110 | with the default 15-day settings, an entry refreshed 8 days ago is listed as not expired while the status column as written shows it expired |
| ManagerPage.StatusForAgreesWithList | pages/manager/manager.js:107-110 | the corrected status column shows "expired" exactly when the list marks the item expired |
| ManagerPage.Page.constructor | pages/manager/manager.js:36-40 | no data, page 1, sorted by id ascending, no pending import |
| ManagerPage.Page.RenderData | pages/manager/manager.js:62-156 | the view is `Render` of the data, page, search input and sort; the current page becomes the clamped page; without a search term the stored list itself ends up sorted, with one it is left as it was |
| ManagerPage.Page.LoadData | pages/manager/manager.js:53-60 | the view renders the service's list, newest first, or an empty list when the read fails |
| ManagerPage.Page.HandleSort | pages/manager/manager.js:276-285 | the sort configuration advances as `NextSort` says and the list is rendered with it |
| ManagerPage.Page.Search | pages/manager/manager.js:353-359 | a new search renders from page 1 |
| ManagerPage.Page.PrevPage | pages/manager/manager.js:360-365 | on page 1 nothing happens; otherwise the previous page is rendered |
| ManagerPage.Page.NextPage | pages/manager/manager.js:366-369 | the next page is rendered, and the rendering clamps it to the last page |
| ManagerPage.Page.HandleImportFile | pages/manager/manager.js:171-206 | the valid entries are counted; data with at least one is kept for the mode choice, data with none is refused and the pending import is unchanged |
| ManagerPage.Page.FinalizeImport | pages/manager/manager.js:208-216 | without pending data nothing happens and no message is sent; otherwise the service merges it in the chosen mode, the count of writes is returned, one cache invalidation naming the written keys is sent when something was written, and the pending data is dropped |
| ManagerPage.Page.CancelImport | pages/manager/manager.js:345-348 | cancelling closes the dialog and keeps the pending data |
| ManagerPage.Page.DeleteItem | pages/manager/manager.js:218-221 | the row's key is deleted and one invalidation for it is sent |
| ManagerPage.Page.ExpireItem | pages/manager/manager.js:222-225 | the row's value is rewritten with the forced time stamp and one invalidation for it is sent |
| ManagerPage.Page.BatchDelete | pages/manager/manager.js:226-233 | no checked rows or no confirmation change nothing; otherwise exactly the checked keys are deleted and invalidated |
| ManagerPage.Page.BatchExpire | pages/manager/manager.js:234-240 | every checked key is force-expired, every other key is untouched, and one invalidation is sent when any is checked |
| ManagerPage.Page.ClearAllData | pages/manager/manager.js:241-246 | only a confirmed clear empties the store and clears the background's memory |
| LegacyManager.RowOf | js/manager.js:72-81 | a row carries the handle, the display name, and the subscribers and time stamp (0 when missing) |
| LegacyManager.Rows | js/manager.js:72-82 | every row comes from a stored entry with a name, rebuilt from it, and there are no more rows than keys |
| LegacyManager.RowsComplete | js/manager.js:72-82 | every stored entry with a name gets its row |
| LegacyManager.ValidRaw | js/manager.js:72-80 | the cleaned store keeps exactly the entries with a name, unchanged |
| LegacyManager.ValidRawSameSize | js/manager.js:85-87 | the size test detects a change: the cleaned store has the store's size exactly when nothing was dropped |
| LegacyManager.FinalTs | js/manager.js:393-414 | safe mode and entries with subscribers or from the future get the time stamp one minute past expiry; a trusted entry otherwise keeps its own time stamp, or gets `now` when it has none; the result never lies in the future |
| LegacyManager.CleanImportEntries | js/manager.js:387-422 | the cleaned import holds exactly the named entries, each rebuilt from its name, its subscribers (0 when missing) and its final time stamp |
| LegacyManager.ImportCount | js/manager.js:349-353 | the count of valid entries is at most the number of entries |
| LegacyManager.CleanLoop | js/manager.js:387-422 | the loop builds exactly the cleaned import |
| LegacyManager.ImportCountIsWritten | js/manager.js:349-422 | the count shown before the import equals the number of entries the import writes |
| LegacyManager.Touched | js/manager.js:450 | setting `ts` changes a record's time stamp only; a bare string is left as it is |
| LegacyManager.ExpireAll | js/manager.js:465-472 | batch expiry keeps every key, touches exactly the checked truthy entries and leaves the others unchanged |
| LegacyManager.DeleteAll | js/manager.js:488-494 | batch deletion removes exactly the checked truthy entries and leaves the others unchanged |
| LegacyManager.ExpiredShowsExpired | js/manager.js:446-454 | an expired record shows as expired at once and is still listed |
| LegacyManager.SafeImportShowsExpired | js/manager.js:411-414 | every entry imported in safe mode shows as expired |
| LegacyManager.LoadLoop | js/manager.js:72-82 | the load loop builds exactly `Rows` and `ValidRaw` |
| LegacyManager.ExpireLoop | js/manager.js:465-472 | the expiry loop computes `ExpireAll`, and reports a change exactly when some checked id names a truthy entry |
| LegacyManager.DeleteLoop | js/manager.js:488-494 | the deletion loop computes `DeleteAll`, and reports a change exactly when some checked id names a truthy entry |
| LegacyManager.RerenderIsStable | js/manager.js:147-168 | without a search term, rendering the already sorted list again gives the same rows |
| LegacyManager.Manager.constructor | js/manager.js:40-49 | no data, page 1, sorted by id ascending, no pending import, the stored object |
| LegacyManager.Manager.RenderData | js/manager.js:139-179 | the view is `Render` of the data, page, search input and sort; the current page becomes the clamped page; without a search term the stored list itself ends up sorted |
| LegacyManager.Manager.LoadData | js/manager.js:64-95 | the store is cleaned to its named entries and written back only when something was dropped; the rendered rows are those of the named entries in enumeration order |
| LegacyManager.Manager.HandleSort | js/manager.js:98-112 | the sort configuration advances as `NextSort` says and the list is rendered with it |
| LegacyManager.Manager.Search | js/manager.js:553-559 | a new search renders from page 1 |
| LegacyManager.Manager.PrevPage | js/manager.js:561-566 | on page 1 nothing happens; otherwise the previous page is rendered |
| LegacyManager.Manager.NextPage | js/manager.js:568-571 | the next page is rendered, and the rendering clamps it to the last page |
| LegacyManager.Manager.HandleImport | js/manager.js:349-364 | the valid entries are counted; data with at least one is kept for the mode choice, data with none is refused and the pending import is unchanged |
| LegacyManager.Manager.FinalizeImport | js/manager.js:376-436 | without pending data nothing happens; otherwise the cleaned entries replace the stored ones with the same keys, every other stored entry is kept, one write is made, the count of cleaned entries is returned and the pending data is dropped |
| LegacyManager.Manager.CancelImport | js/manager.js:439-443 | cancelling drops the pending data |
| LegacyManager.Manager.ExpireItem | js/manager.js:446-454 | a present, truthy entry is touched with the past time stamp and written back; any other id changes nothing |
| LegacyManager.Manager.BatchExpire | js/manager.js:457-476 | the store becomes `ExpireAll` of the checked ids, and is written once exactly when one of them names a truthy entry |
| LegacyManager.Manager.DeleteItem | js/manager.js:512-520 | a present, truthy entry is deleted and the store written back; any other id changes nothing |
| LegacyManager.Manager.BatchDelete | js/manager.js:479-497 | no checked rows or no confirmation change nothing; otherwise the store becomes `DeleteAll` of the checked ids, written once exactly when one of them names a truthy entry |
| LegacyManager.Manager.ClearAll | js/manager.js:580-584 | a confirmed clear removes the stored object; an unconfirmed one changes nothing |
| LegacyManager.ImportForcedTs | js/manager.js:383 | the forced import time stamp lies one minute before the moment the TTL ran out |
| LegacyManager.CleanImport | js/manager.js:385-422 | exactly the named imported entries, each rebuilt from its name, its subscribers or 0, and `FinalTs` as its time stamp |
| LegacyManager.PastTime | js/manager.js:465 | the batch-expiry time stamp lies ten seconds before the moment the TTL ran out |
| LegacyCache.Normalised | js/bg_cache.js:33-47 | a stored value is kept exactly when it has a name; a bare string becomes a record with 0 subscribers and time stamp 0; a record is kept as it is |
| LegacyCache.Clean | js/bg_cache.js:31-48 | the cleaned copy holds exactly the named stored values, each normalised |
| LegacyCache.Overlay | js/bg_cache.js:52-57 | every listed handle whose in-memory value is truthy takes that value; every other key keeps the base value, and no other key appears |
| LegacyCache.CleanLoop | js/bg_cache.js:32-48 | the load loop computes exactly `Clean` |
| LegacyCache.OverlayLoop | js/bg_cache.js:109-114 | the merge loop computes exactly `Overlay` |
| LegacyCache.Cache.constructor | js/bg_cache.js:6-12 | empty memory, not loaded, nothing dirty, no timer, no save waiting and none holding the lock |
| LegacyCache.Cache.LoadFromDisk | js/bg_cache.js:27-66 | memory becomes the cleaned disk copy with every dirty handle keeping its truthy in-memory value, and the cache is loaded |
| LegacyCache.Cache.Get | js/bg_cache.js:69-71 | a value is returned exactly when the in-memory value is truthy, and then it is that value |
| LegacyCache.Cache.Set | js/bg_cache.js:74-92 | a falsy handle or info is ignored; otherwise the handle's record becomes `{ name, subs, ts: now }` with a missing subscriber count as 0, the handle is dirty and the save is scheduled |
| LegacyCache.Cache.Tick | js/bg_cache.js:91 | the timer fires and runs the save: with dirty handles a save waits for the lock with a snapshot of them |
| LegacyCache.Cache.SaveToDisk | js/bg_cache.js:95-102 | nothing happens without dirty handles; otherwise a snapshot of them waits for the lock |
| LegacyCache.Cache.SaveGranted | js/bg_cache.js:102-117 | once no save holds the lock, the oldest waiting save gets it: its snapshot handles with truthy in-memory values are merged into a fresh read of the disk, which is written when the write succeeds and kept otherwise, and the snapshot then awaits its write callback |
| LegacyCache.Cache.SaveWritten | js/bg_cache.js:117-124 | the write callback drops exactly the snapshot handles from the dirty set, whether or not the write landed, and releases the lock |
| LegacyCache.Cache.CacheGet | js/bg_cache.js:133-148 | before the first load an empty memory is filled with the raw disk copy and a non-empty one is kept; afterwards the cache is loaded and the answer is `get(handle)` |
| LegacyCache.Cache.CacheSet | js/bg_cache.js:151-155 | the message sets the value as `set` does and always reports success |
| LegacyCache.SetDuringSaveScenario | js/bg_cache.js:95-124 | a handle set while an earlier save waits for the lock is still dirty after that save, and the saved handle is on disk and no longer dirty |
| LegacyCache.SetDuringWriteScenario | js/bg_cache.js:109-119 | a handle set again between the merge and the write callback is no longer dirty, while the disk keeps the earlier value and memory the newer one |
| LegacyFetcher.PerformFetch | js/fetcher.js:124-241 | only HTTP 429 counts as rate limiting; other non-OK statuses and exceptions other than the abort count one error; a channel is returned exactly when the page yielded a decoded name other than "YouTube", with that name and the subscriber count |
| LegacyFetcher.Backoff | js/fetcher.js:105 | one second of back-off per counted error, none without errors |
| LegacyFetcher.CallbackCall | js/fetcher.js:93-97 | a task with a callback calls it once with its handle and the result; a task without one calls nothing |
| LegacyFetcher.CacheWrite | js/fetcher.js:92 | a success writes its channel to the name cache once; a failure writes nothing |
| LegacyFetcher.TripRule | js/fetcher.js:245-259 | a task trips the breaker exactly when it is rate-limited while at least one error is already counted; other failures add one error and never trip it; a rate limit adds two; a success clears the count |
| LegacyFetcher.LandTask | js/fetcher.js:85-98 | ending the in-flight task keeps the one-task-per-handle invariant, whether or not its handle is forgotten |
| LegacyFetcher.Fetcher.constructor | js/fetcher.js:7-33 | empty queues, no handles requested, an idle loop, the breaker off with no errors, and the pause range 1500-3000 ms |
| LegacyFetcher.Fetcher.SetSpeedMode | js/fetcher.js:36-45 | a known preset replaces the pause range with its own bounds; an unknown mode keeps the range |
| LegacyFetcher.Fetcher.Enqueue | js/fetcher.js:48-63 | an active breaker or an already requested handle changes nothing; otherwise the handle is recorded and its task appended to the low queue for a background update or the high queue otherwise, and an idle loop starts on it at once |
| LegacyFetcher.Fetcher.Push | js/fetcher.js:52-60 | the handle is recorded and the task appended to the queue its priority names |
| LegacyFetcher.Fetcher.StartQueue | js/fetcher.js:66-79 | a running loop, an active breaker or empty queues change nothing; otherwise the loop starts on the head of the high queue, or of the low queue when the high queue is empty |
| LegacyFetcher.Fetcher.Advance | js/fetcher.js:75-79 | the loop stops when the breaker is active or both queues are empty; otherwise the next task is the head of the high queue, or of the low queue when the high queue is empty |
| LegacyFetcher.Fetcher.HandleRateLimit | js/fetcher.js:245-259 | a rate limit adds two errors; at the threshold of 3 the breaker turns on and one cool-down timer is armed |
| LegacyFetcher.Fetcher.Settle | js/fetcher.js:83-98 | the result is the page outcome's; errors are counted as `ErrorsAfter` says and the breaker trips as `Trips` says; a success is cached and its handle stays requested, a failure forgets the handle; the callback, if any, is called once with the result |
| LegacyFetcher.Fetcher.FetchDone | js/fetcher.js:83-117 | the task settles as `Settle` says; then, when tasks remain, the loop pauses for the random base plus the back-off of the new error count, and otherwise it stops |
| LegacyFetcher.Fetcher.Continue | js/fetcher.js:105-120 | with tasks queued the loop pauses for the base plus the back-off; with none it stops |
| LegacyFetcher.Fetcher.WaitElapsed | js/fetcher.js:116-118 | after the pause the loop test runs again: it stops on an active breaker or empty queues, and otherwise takes the next task, high queue first |
| LegacyFetcher.Fetcher.CoolDownElapsed | js/fetcher.js:254-258 | the timer turns the breaker off, clears the error count and restarts an idle loop on the queued tasks |
| LegacyFetcher.SuccessIsRememberedScenario | js/fetcher.js:50-96 | a handle fetched successfully stays requested, so a later request for it is ignored and its callback never called |
| LegacyFetcher.ErrorsAfter | js/fetcher.js:85-89 | after a task the error count is 0 on success, 2 more after HTTP 429, 1 more after a counted failure, and unchanged otherwise |
| LegacyFetcher.Trips | js/fetcher.js:247-250 | a task trips the breaker exactly when it was rate-limited and the count, raised by 2, reaches the threshold of 3 |
| DataBridge.QueryCacheAsWritten | js/content/data_bridge.js:40-61 | as written: no answer gives null; a stored record is stale exactly when more than the TTL has passed since its time stamp; an answer built from a running fetch has no time stamp, is read as stamped at 0 and so counts as stale once the clock is past the TTL |
| DataBridge.QueryCache | js/content/data_bridge.js:40-61 | corrected: no answer gives null; a stored record keeps its name and subscribers and is stale exactly when more than the TTL has passed; a running fetch's answer is fresh, as the background marks it |
| DataBridge.FetchFor | js/content/data_bridge.js:64-73 | the fetch request carries the handle and the priority, and forces a refresh exactly for the low priority |
| DataBridge.GetData | js/content/data_bridge.js:15-37 | an empty handle does nothing; a fresh record is shown and not fetched; a stale record is shown and then fetched at low priority with a forced refresh; a miss is fetched at high priority |
| DataBridge.FetchIffNotFresh | js/content/data_bridge.js:23-36 | a fetch is requested exactly when there is no fresh record; at most one record is shown at once; the refresh is forced exactly when a stale record exists |
| DataBridge.OnFetchResponse | js/content/data_bridge.js:74-96 | a messaging error, a missing answer or a failed result gives nothing; a success passes fresh data with the decoded name to the callback, unless that name is "YouTube" |
| DataBridge.InFlightAnswerFetchesAgain | js/content/data_bridge.js:50-51 | as written, a handle whose fetch is running is answered with the fetched data and then, for any clock past the TTL, fetched a second time at low priority |
| DataBridge.InFlightAnswerIsFinal | js/content/data_bridge.js:50-51 | with the corrected bridge that answer is shown as fresh and nothing more is fetched |
| Scanner.FindMode | js/content/scanner.js:285-286 | no mode exactly when no selector matches; otherwise the mode of the first matching selector, with every earlier selector not matching |
| Scanner.EmbeddedHandle | js/content/scanner.js:294-296 | the EMBEDDED match is '@' and one or more `[\w\-\.]` characters read from the text; there is no match exactly when no '@' in the text is followed by such a character |
| Scanner.WrapperHandle | js/content/scanner.js:297-299 | the WRAPPER match exists exactly when the text starts with '@' and a non-space; it is a prefix of the text without spaces, ending at the text's end or before a space |
| Scanner.HandleOf | js/content/scanner.js:292-302 | STANDARD accepts exactly the texts `isHandle` accepts and returns the text itself; WRAPPER and EMBEDDED use their matches; every handle starts with '@' and has at least two characters |
| Scanner.FirstLine | js/content/scanner.js:334 | the handle passed on contains no line break, is no longer than the original, and is the handle itself when it has no line break |
| Scanner.Truncate | js/content/scanner.js:370-373 | a name of at most `maxLength` code points is kept; a longer one becomes its first `maxLength` code points followed by "..." |
| Scanner.TruncateBounds | js/content/scanner.js:370-373 | a display name has at most `maxLength + 3` code points and starts with the name's first `maxLength` code points |
| Scanner.TruncateChanges | js/content/scanner.js:370-373 | the display name differs from the full name (so the STANDARD renderer attaches the full name) exactly when the name is too long and does not already end in "..." at the cut |
| Scanner.ElementHandle | js/content/scanner.js:285-302 | an element with no matching selector has no handle; otherwise its handle is that of its mode applied to its trimmed text |
| Scanner.HandleInText | js/content/scanner.js:288-302 | the handle any mode extracts from an element's trimmed text occurs in the element's text |
| Scanner.RenderingOf | js/content/scanner.js:366-418 | the renderer is the element's mode, STANDARD when it has none, and it receives the handle, the truncated and the full name, the subscriber count and the staleness mark |
| Scanner.Node.constructor | js/content/scanner.js:285-319 | a new element has no mode, no target, no marks and no rendering |
| Scanner.PageScanner.constructor | js/content/scanner.js:7-26 | the queue is empty, the timer is not armed, `maxLength` is the default 20 and the selector table is `targetConfigs` |
| Scanner.PageScanner.ApplySettings | js/content/scanner.js:160-174 | a present, non-zero `maxLength` setting replaces the current one; otherwise it stays |
| Scanner.PageScanner.HandleMutations | js/content/scanner.js:205-239 | the relevant nodes join the queue, and the timer is armed exactly when it was armed already or something was queued |
| Scanner.PageScanner.OnBatchTimer | js/content/scanner.js:241-247 | when the timer fires, exactly the queued nodes still connected are scanned, the queue is empty and the timer disarmed |
| Scanner.PageScanner.ProcessNode | js/content/scanner.js:284-325 | no matching selector changes nothing; otherwise the element records its mode, and a handle is requested exactly when there is one and the element does not already show it fresh or fetch it; a requested handle is its first line and marks the element's target and its fetch; a STANDARD element without a handle that is not yet rewritten loses its expiry mark, and no other path touches it |
| Scanner.PageScanner.UpdateElement | js/content/scanner.js:333-341 | the handle's first line becomes the element's target, the element is marked as fetching, and that line is what `getData` is asked for |
| Scanner.PageScanner.OnData | js/content/scanner.js:341-363 | an element that left the page or was retargeted is not touched; null data only clears the fetch mark; data goes to the renderer, the fetch mark stays exactly when the data is stale, and only a STANDARD element takes the data's expiry mark |
| Scanner.PageScanner.ApplyUpdate | js/content/scanner.js:366-418 | the renderer of the element's mode shows the truncated name and marks the element rewritten, except that STANDARD skips a disconnected element and EMBEDDED skips one already rewritten or whose text no longer contains the handle; the element's own expiry mark becomes the data's only in STANDARD mode |
| Scanner.PageScanner.ProcessMutationQueue | js/content/scanner.js:249-256 | the queue is emptied and exactly its connected nodes are scanned |
| Scanner.PlainHandleKept | js/content/scanner.js:294-296 | a handle made only of `[\w\-\.]` characters is its own trim, its own first line and its own EMBEDDED match |
| Scanner.PinnedBadgeHandle | js/content/scanner.js:26-33 | the pinned-comment badge, the first selector, is read in the EMBEDDED mode, and a label that is a plain handle yields that handle |
| Scanner.FreshRescanScenario | js/content/scanner.js:306-312 | an element rewritten with fresh data is not requested again on the next scan of the same handle |
| Scanner.StaleRescanScenario | js/content/scanner.js:313-318 | an element rewritten with stale data keeps its fetch mark and is not requested again while the refresh is under way |
| Scanner.WrapperStaleScenario | js/content/ui.js:80-135 | a WRAPPER element rewritten with stale data whose refresh then fails (no expiry mark of its own, no fetch mark) is still left alone on the next scan of the same handle |
| Scanner.IsHandle | js/content/scanner.js:328-330 | a text is a handle exactly when it is '@' followed by one or more characters, none of them white space |
| Scanner.EffectiveMode | js/content/scanner.js:375 | the element's recorded mode, or STANDARD when it has none |
| Scanner.Rewrites | js/content/ui.js:80-153 | the renderer rewrites the element: STANDARD only when it is connected, WRAPPER always, EMBEDDED only when it is not yet rewritten and its text still contains the handle |
| Scanner.MarksElement | js/content/scanner.js:398-416 | the expiry mark lands on the element itself only in STANDARD mode, when the element is connected or its name was truncated |
| Scanner.Node.Skips | js/content/scanner.js:306-318 | an element rewritten for the same handle is skipped exactly when its data is fresh or a fetch for it is under way |
| MainScanner.HandleRulesDiffer | js/main.js:273-276 | the older handle rule accepts everything the newer one does and also handles with white space in them, such as "@a b" |
| MainScanner.Classify | js/main.js:211-270 | the text is mixed exactly when it starts with a WRAPPER handle and has more after it, and then splits into that handle and a suffix starting with a space; otherwise it is a bare handle exactly when `isHandle` accepts it; otherwise it is marked exactly when the element has an `rnHandle` |
| MainScanner.MixedNeedsOnlyMoreText | js/main.js:217-218 | the white-space test on the character after the handle always succeeds, since the handle ends only at a space |
| MainScanner.MixedSplits | js/main.js:217-224 | a handle without spaces followed by a suffix that starts with a space is read as exactly that handle and that suffix |
| MainScanner.PlanFor | js/main.js:278-294 | with the lookup awaited nothing throws, a cached record is shown, a fetch is started exactly when the record is missing or stale, and the fetch runs in the background exactly when a record exists |
| MainScanner.AsWrittenNeverFetches | js/main.js:282-293 | as written, `queueForUpdate` never starts a fetch and throws, even for a handle that is not cached, where the corrected plan fetches at once |
| MainScanner.DelayFor | js/main.js:308-315 | a background fetch waits between 3000 and 6000 ms; a foreground fetch does not wait |
| MainScanner.Applied | js/main.js:327-343 | an element locked on another handle receives nothing; any other element receives one rendering with the truncated name |
| MainScanner.Node.constructor | js/main.js:211-270 | a new element has its text and marks, and no target, suffix or rendering |
| MainScanner.LegacyScanner.constructor | js/main.js:7-17 | no handle waits for a fetch, no fetch has been requested and `maxLength` is the default 20 |
| MainScanner.LegacyScanner.Waiting | js/main.js:297-300 | the elements waiting for a handle: the handle's set, and none when it has no entry |
| MainScanner.LegacyScanner.ApplySettings | js/main.js:65-77 | a present, non-zero `maxLength` setting replaces the current one; otherwise it stays |
| MainScanner.LegacyScanner.ApplyUpdate | js/main.js:327-343 | an element locked on another handle is not touched; otherwise it gets one more rendering, with the name truncated to `maxLength` |
| MainScanner.LegacyScanner.FetchData | js/main.js:296-316 | the element joins the handle's waiting set, created when missing, and one fetch is logged with its delay |
| MainScanner.LegacyScanner.QueueForUpdate | js/main.js:278-294 | the element is locked on the handle; a cached record is rendered; a missing or stale one is fetched as `PlanFor` says, and no fetch is logged otherwise |
| MainScanner.LegacyScanner.ProcessNode | js/main.js:211-270 | the reading is `Classify` of the trimmed text; a handle is queued exactly when the skip rule for its reading does not hold; the suffix mark is set for mixed lines and cleared for bare handles; a skipped element and the scanner's state stay unchanged |
| MainScanner.LegacyScanner.FlushUpdates | js/main.js:318-325 | the handle's waiting entry is removed; with data every waiting element gets it through the retarget guard; without data nothing is rendered |
| MainScanner.SharedFetchScenario | js/main.js:296-325 | two elements showing the same uncached handle share one waiting set; the answer renders both the same way and removes the set |
| MainScanner.IsHandle | js/main.js:273-276 | a text is a handle exactly when it starts with '@' and has at least two characters, white space allowed |
| MainScanner.Skips | js/main.js:230-262 | a mixed line is skipped when it is rewritten for the same handle, a bare or marked handle when its element shows its fresh name, and a plain name always |
| MainScanner.QueuePlanAsWritten | js/main.js:282-293 | as written, whatever the cache holds, nothing is rendered, no fetch is requested and `applyUpdate` throws |
| I18n.ChosenLangIsSupported | js/shared/i18n.js:25-48 | without a saved language `init` picks one of "zh-CN", "zh-TW", "ja" and "en"; once that language is saved, it is kept whatever the UI language becomes |
| I18n.SimplifiedOnlyFor | js/shared/i18n.js:31-33 | Simplified Chinese is picked exactly for the UI languages "zh-CN" and "zh-SG" |
| I18n.Dictionary | js/shared/i18n.js:58 | the current language's dictionary, else the Traditional Chinese one, else an empty one |
| I18n.LookupIsEntryOrKey | js/shared/i18n.js:58-68 | `t` never fails: its text is an entry for the key in some dictionary, or the key itself |
| I18n.Placeholder | js/shared/i18n.js:72 | a parameter's placeholder is its name in braces |
| I18n.NoPlaceholderUnchanged | js/shared/i18n.js:71-73 | a text without '{' comes back unchanged, whatever the parameters |
| I18n.SelfSubstitutionUnchanged | js/shared/i18n.js:71-73 | parameters whose values are their own placeholders leave the text unchanged |
| I18n.Translator.constructor | js/shared/i18n.js:7-11 | the current language starts as "en" and the dictionaries are the given ones |
| I18n.Translator.Init | js/shared/i18n.js:14-53 | the chosen language becomes current and is returned: the saved one if any, else the one the UI language maps to |
| I18n.Translator.T | js/shared/i18n.js:56-75 | the text is the looked-up text with every parameter's placeholder replaced everywhere, parameter by parameter; without parameters it is the looked-up text |
| I18n.ChooseLang | js/shared/i18n.js:20-48 | a saved language wins; otherwise "zh-CN" for the UI languages zh-CN and zh-SG, "zh-TW" for any other "zh" language, "ja" for a "ja" language and "en" for the rest |
| I18n.Lookup | js/shared/i18n.js:58-68 | the key's entry in the current dictionary, else its entry in the Traditional Chinese one, else the key |
| I18n.SubstituteAll | js/shared/i18n.js:71-73 | each parameter in turn replaces every occurrence of its placeholder, the first parameter first |
| Utils.EscapeHtml | js/shared/utils.js:67-68 | a missing or empty string escapes to "" |
| Utils.EscapeIsCharwise | js/shared/utils.js:71-75 | the five chained replacements, `&` first, escape every character on its own: each of the five becomes its entity and every other character stays |
| Utils.EscapeHtmlIsInert | js/shared/utils.js:67-76 | escaped text contains no '<', '>', '"' or '\'' |
| Utils.EscapeHtmlAmpsStartEntities | js/shared/utils.js:67-76 | every '&' in escaped text begins one of the five entities, so no stray ampersand is left |
| Utils.EscapeHtmlPlain | js/shared/utils.js:67-76 | text without any of the five characters passes unchanged |
| Utils.AsWrittenDecodeWithoutAmp | js/shared/utils.js:51-58 | the fallback decoder leaves text without an ampersand unchanged |
| Utils.AsWrittenKeepsEscapedApostrophe | js/shared/utils.js:51-58 | as written, `escapeHtml` turns "'" into "&#039;", which the fallback decoder (looking for "&#39;") leaves as it is |
| Utils.AsWrittenDecodesTwice | js/shared/utils.js:51-58 | as written, the escape of the text "&lt;" decodes to "<", not back to "&lt;", as `&amp;` is replaced first |
| Utils.DecodeEscapeRoundTrip | js/shared/utils.js:51-58 | the corrected decoder, reading entities left to right, undoes `escapeHtml` on every text |
| Utils.ParserDecode | js/shared/utils.js:35-46 | an empty input gives ""; otherwise the parser's text, unless it is empty or the parse throws, in which case the input itself |
| Utils.EscapeRegExp | js/shared/utils.js:62-64 | the escaped string is longer by one backslash for each metacharacter, and a string without metacharacters is unchanged |
| Utils.EscapeRegExpRoundTrip | js/utils.js:38-40 | the escaped string is a pattern for literal text, and the text it matches is the original string |
| Utils.DecodeAsWritten | js/shared/utils.js:51-58 | as written, "" for an empty input, otherwise the five chained replacements, `&amp;` first and `&#39;` last |
| Utils.Decode | js/shared/utils.js:51-58 | the corrected decoder: one left-to-right pass turning each entity, both apostrophe spellings included, into its character once and keeping every other character |

## Left out

- Network I/O: the bodies of `doNetworkFetch` and `performFetch` (the request, the abort timers of 20 s and 25 s, the streaming reader and its 3 MB cut-off) and `fetchChannelInfo` of `js/background.js`. Their outcome is a datatype parameter.
- Page parsing: `YTParser.parse` and the `ytInitialData` extraction rely on `JSON.parse`, lazy regular expressions and an external page format; their result is part of the outcome parameter.
- `parseSubsString` and `formatBytes`: both use floating point.
- The SHA-256 checksum: `verifyChecksum` takes the digest of the data as a parameter and compares it with the stored one.
- Timers and `async`/`await`: each timer's firing is an explicit step method (`Tick`, `WaitElapsed`, `CoolDownElapsed`, `OnBatchTimer`). The network round trips of the fetchers (`NetworkDone`, `FetchDone`), the scanners' data callbacks (`OnData`, `FlushUpdates`) and the legacy save are split at their suspension points. Every other `async` method is a single atomic step, so a call that runs during one of its `await`s is not captured. The members below are such single steps. `Math.random` jitter is a parameter within its range.
- BgCache.Cache.Get: the disk read and the copy into memory are one step. In `js/background/bg_cache.js:99-101`, a `set` of the same handle made while `idbKeyval.get` is pending is overwritten in memory by the older disk value; the model does not show this.
- BgCache.Cache.FlushToDisk: the snapshot, the buffer clear and the disk write are one step. A `get` made during the write, for a handle already evicted from memory, finds it in neither place and misses; the model does not show this.
- BgCache.Cache.Delete: the memory and buffer removal and the disk delete are one step. A `get` made during the delete can read the old disk value back into memory; the model does not show this.
- BgCache.Cache.Clear: the same race as `Delete`, for every handle.
- BgCache.Cache.TryMigrateFromV1: the storage read, the writes and the removal of the version-1 store are one step, so calls during the migration are not interleaved.
- DataManager.Store and ManagerPage.Page methods: each awaited service call is one step, so the page's own state cannot change between a request and its answer.
- `navigator.locks` and cross-context messaging: concurrency. The locked save in `js/bg_cache.js` is three steps: a request (`SaveToDisk`), the lock grant with its read callback, which merges and writes (`SaveGranted`), and the write callback (`SaveWritten`). Other calls may run between any two of them. The grant is modelled as exclusive: it waits until no save holds the lock.
- idb-keyval and `chrome.storage`: modelled as maps. A storage call that fails is a boolean parameter where the source handles the failure.
- `resetQuota` and `getRunningTask`, which `js/background/background.js` calls and `js/background/bg_fetcher.js` does not define: the running task is given by an oracle parameter, and no burst quota is invented.
- The DOM and the UI: `MutationObserver`, `scanDeep` and shadow-DOM traversal, the tooltip manager's renderers and badge thresholds (`js/ui.js`, `js/content/ui.js`), the popups, the manual pages, the scraper test page and `Logger`. A selector match is a function parameter, the relevance test of added nodes is a parameter to `HandleMutations`, and a rendering is recorded as the arguments the renderer receives. Of the renderers of `js/content/ui.js`, the model keeps only their effect on the scanned element's `rnReplaced` and `rnExpired` marks and their early returns.
- Scanner.PageScanner.ProcessNode: when a STANDARD element shows no handle, a tooltip is attached to it. Of that attach, only the cleared expiry mark is recorded; the tooltip fields are UI and are left out.
- MainScanner.Node: the renderers rewrite `textContent`, `rnName` and `rnHandle` and set the `rnReplaced` and `rnExpired` marks (js/ui.js:80-84, 96-99, 130-131), and the plain-text attach clears `rnExpired` (js/main.js:268); all of these are constants of the node, so `MainScanner.Skips` only ever sees the marks an element was created with, and the model does not follow an element through a rewrite.
- `handleMutations` of `js/main.js`: its batching is the same as that of `js/content/scanner.js`, which is modelled.
- Scanner.PageScanner.ApplySettings and MainScanner.LegacyScanner.ApplySettings take the `maxLength` setting already parsed; `parseInt` giving `NaN` or a negative value is not modelled.
- `init`, `triggerBurstReset`, `setupUrlListener` and the start of observation: wiring of browser events.
- I18n.Translator.T: the parameters are a sequence of pairs in order. It does not model that `Object.keys` lists integer-like keys first, that a key containing regular-expression metacharacters makes a different pattern, or that `$` in a value is a replacement pattern. `render` is DOM code.
- `escapeHtml` with `document` present uses `innerHTML`, which is browser code; the `DOMParser` decoder is `Utils.ParserDecode`, with the parser's text as a parameter.
- Records: an absent number is read as 0. JavaScript's `undefined > x` is false even for negative `x`, while `0 > x` is true; this differs only for negative subscriber counts and time stamps.
- ManagerView.StrCmp: code-point order replaces `localeCompare`, and `toLowerCase` folds ASCII letters only.
- `js/cache.js` is a message proxy that repeats the bridge's `queryCache`, so it is not modelled separately.
- The manager pages' import file handling: reading and `JSON.parse`, the confirm shown when the checksum does not match, and the alerts. `HandleImportFile` and `HandleImport` take the parsed file.
- `generateBackup` and the export download, `highlightText`, `updatePaginationUI`, the 5 s auto-refresh of the manager page, and its reload on `storage.onChanged`: presentation and wiring.
- The idb-keyval `update` on a missing or falsy value stores `undefined` under the key; the model stores `Absent` there, which every reader treats as missing. The listing skips such a key, as the source's listing skips a falsy value.
- LegacyManager.Manager.ExpireItem: with a bare-string value, the source's property assignment is silently ignored and the unchanged map is still written, which `Touched` models. Aliasing between the page's `allData` and the written object is not modelled.

## Findings

| source | as written | input that shows it | evidently intended | confidence | as-written member | corrected member |
|---|---|---|---|---|---|---|
| js/background/bg_fetcher.js:39-45 | the cache check tests the value of `BgCache.get(handle)`, which is a promise and always truthy | any handle not in the cache, without `forceRefresh`: it is answered at once as a success with an undefined name, and never fetched | await the lookup and answer only a real record; fetch on a miss | not executed | BgFetcher.AsWrittenGateAnswersMisses | BgFetcher.CacheGate |
| js/background/bg_fetcher.js:29,112 | `updateSpeedMode` stores the preset as `min`/`max`, while `processQueue` computes the pause from `MIN`/`MAX` | any `updateSpeedMode("NORMAL")` or `("SLOW")`: the pause becomes `NaN`, which `setTimeout` treats as 0 ms | keep the preset's bounds under the names the pause reads, so it stays in [MIN, MAX]; `BgFetcher.Fetcher.NetworkDone` takes its pause within these bounds, so the class runs the corrected pause | not executed | BgFetcher.AsWrittenPresetRemovesPause | BgFetcher.UpdatedDelay |
| js/main.js:282-293 | `queueForUpdate` tests the value of the asynchronous `NameCache.get`, a promise and always truthy, and passes it to `applyUpdate` | any handle, cached or not: `applyUpdate` spreads the undefined `name` and throws, so no fetch is ever requested | await the lookup: render a record, refresh it in the background when stale, fetch at once when missing | not executed | MainScanner.AsWrittenNeverFetches | MainScanner.PlanFor |
| js/shared/utils.js:51-58 | the fallback decoder replaces `&amp;` first and recognises `&#39;`, while `escapeHtml` writes `&#039;` | `escapeHtml("'")` is `&#039;`, which decodes to itself; `escapeHtml("&lt;")` is `&amp;lt;`, which decodes to `<` | decode each entity once, left to right, including `&#039;`, so that decoding undoes escaping | not executed | Utils.AsWrittenKeepsEscapedApostrophe | Utils.DecodeEscapeRoundTrip |
| pages/manager/manager.js:107-111 | the status column compares the age with the fixed 7-day `DataManager.TTL`, while the list's `isExpired` uses the configured TTL days (15 by default) | a record 8 days old with default settings: the list says fresh, the status column says expired | compute the status from the same configured TTL as the list | not executed | ManagerPage.StatusDisagreesWithList | ManagerPage.StatusForAgreesWithList |
| js/content/data_bridge.js:50-51 | `queryCache` recomputes `isExpired` from `response.ts`, and the answer built from a running fetch (js/background/background.js:75-82) has no `ts` and says `isExpired: false` | a handle whose fetch is running, at any time past the TTL: the answer counts as stale, so `getData` requests a second, low-priority refresh | keep the background's `isExpired: false` for such an answer | not executed | DataBridge.InFlightAnswerFetchesAgain | DataBridge.InFlightAnswerIsFinal |
