// The older background cache (js/bg_cache.js): the whole store held as one
// object in memory, a set of dirty handles not yet saved, a debounced save
// that merges the dirty handles into a fresh read of chrome.storage under a
// lock, and a reload that keeps dirty values over the disk copy.
//
// chrome.storage is the map `disk` (the object under CACHE_KEY, empty when
// absent). The locked save is three steps: the request, which waits with its
// snapshot of dirty handles in `saves`; the lock grant together with the
// read callback, which merges and issues the write; and the write callback,
// which clears the snapshot's dirty marks and releases the lock. Other calls
// may run between any two of them.

module LegacyCache {

  import opened Common
  import opened Records

  const SAVE_DELAY: int := 2000
  const LOCK_NAME: string := "yt_realname_storage_lock"

  /**
   * The `loadFromDisk` rule for one stored value: a bare string becomes
   * `{ name, subs: 0, ts: 0 }`, an object is kept as it is, and a value
   * without a name is dropped.
   */
  function Normalised(v: Raw): (e: Option<Raw>)
    ensures e.Some? <==> NameOf(v) != ""
    ensures e.Some? && v.Bare? ==> e.value == Entry(v.text, 0, 0)
    ensures e.Some? && v.Entry? ==> e.value == v
  {
    match v
    case Absent => None
    case Bare(t) => if t != "" then Some(Entry(t, 0, 0)) else None
    case Entry(n, _, _) => if n != "" then Some(v) else None
  }

  /** `cleanData`: every stored value normalised, the unnamed ones dropped. */
  function Clean(raw: map<string, Raw>): (c: map<string, Raw>)
    ensures forall k :: k in c <==> k in raw && NameOf(raw[k]) != ""
    ensures forall k :: k in c ==> Some(c[k]) == Normalised(raw[k])
  {
    map k | k in raw && Normalised(raw[k]).Some? :: Normalised(raw[k]).value
  }

  /** Whether `data[k]` is truthy. */
  predicate Live(data: map<string, Raw>, k: string)
  {
    k in data && Truthy(data[k])
  }

  /**
   * `base` with every key of `keys` whose in-memory value is truthy set to
   * that value. This is both the dirty overlay of `loadFromDisk` and the
   * merge of `saveToDisk`.
   */
  function Overlay(base: map<string, Raw>, data: map<string, Raw>, keys: set<string>): (r: map<string, Raw>)
    ensures forall k :: k in keys && Live(data, k) ==> k in r && r[k] == data[k]
    ensures forall k :: !(k in keys && Live(data, k)) ==> (k in r <==> k in base)
    ensures forall k :: k in r && !(k in keys && Live(data, k)) ==> r[k] == base[k]
  {
    map k | k in base.Keys + keys && (k in base || Live(data, k)) ::
      if k in keys && Live(data, k) then data[k] else base[k]
  }

  /** The `for ... of Object.entries(raw)` loop of `loadFromDisk`. */
  method CleanLoop(raw: map<string, Raw>) returns (clean: map<string, Raw>)
    ensures clean == Clean(raw)
  {
    clean := map[];
    var todo := raw.Keys;
    while todo != {}
      invariant todo <= raw.Keys
      invariant forall k :: k in clean <==> k in raw && k !in todo && NameOf(raw[k]) != ""
      invariant forall k :: k in clean ==> Some(clean[k]) == Normalised(raw[k])
      decreases todo
    {
      var key :| key in todo;
      match Normalised(raw[key]) {
        case Some(entry) => clean := clean[key := entry];
        case None =>
      }
      todo := todo - {key};
    }
  }

  /**
   * A `forEach` over `keys` copying each truthy `data[key]` into `base`, as
   * the dirty overlay and the save merge do.
   */
  method OverlayLoop(base: map<string, Raw>, data: map<string, Raw>, keys: set<string>)
    returns (r: map<string, Raw>)
    ensures r == Overlay(base, data, keys)
  {
    r := base;
    var todo := keys;
    while todo != {}
      invariant todo <= keys
      invariant forall k :: k in keys - todo && Live(data, k) ==> k in r && r[k] == data[k]
      invariant forall k :: !(k in keys - todo && Live(data, k)) ==> (k in r <==> k in base)
      invariant forall k :: k in r && !(k in keys - todo && Live(data, k)) ==> r[k] == base[k]
      decreases todo
    {
      var key :| key in todo;
      if Live(data, key) {
        r := r[key := data[key]];
      }
      todo := todo - {key};
    }
  }

  class Cache {
    /** `BgCache.data` */
    var data: map<string, Raw>
    var isLoaded: bool
    /** `dirtySet`: handles set since their last save. */
    var dirty: set<string>
    /** Whether the debounced save is scheduled. */
    var timerArmed: bool
    /** The object under CACHE_KEY in chrome.storage.local. */
    var disk: map<string, Raw>
    /** Saves waiting for the storage lock, each with its snapshot of dirty handles. */
    var saves: seq<set<string>>
    /** The snapshot of the save holding the lock, whose write callback is still to come. */
    var writing: Option<set<string>>

    constructor (stored: map<string, Raw>)
      ensures data == map[] && !isLoaded && dirty == {} && !timerArmed
      ensures disk == stored && saves == [] && writing.None?
    {
      data, isLoaded, dirty, timerArmed := map[], false, {}, false;
      disk, saves, writing := stored, [], None;
    }

    /**
     * `loadFromDisk()` (at start-up and on every external change of the
     * store): the cleaned disk copy, with each dirty handle keeping its
     * truthy in-memory value.
     */
    method LoadFromDisk()
      modifies this`data, this`isLoaded
      ensures data == Overlay(Clean(disk), old(data), dirty)
      ensures isLoaded
    {
      var clean := CleanLoop(disk);
      data := OverlayLoop(clean, data, dirty);
      isLoaded := true;
    }

    /** `get(handle)`: the stored value when it is truthy, else `null`. */
    function Get(handle: string): (r: Option<Raw>)
      reads this
      ensures r.Some? <==> Live(data, handle)
      ensures r.Some? ==> r.value == data[handle]
    {
      if Live(data, handle) then Some(data[handle]) else None
    }

    /**
     * `set(handle, info)`: ignored for a falsy handle or info; otherwise the
     * record `{ name, subs || 0, ts: now }` replaces the old one, the handle
     * becomes dirty and the save is (re)scheduled.
     */
    method Set(handle: string, info: Raw, now: int)
      modifies this`data, this`dirty, this`timerArmed
      ensures handle == "" || !Truthy(info) ==>
        data == old(data) && dirty == old(dirty) && timerArmed == old(timerArmed)
      ensures handle != "" && Truthy(info) ==>
        data == old(data)[handle := Entry(NameField(info), SubsOf(info), now)] &&
        dirty == old(dirty) + {handle} && timerArmed
    {
      if handle == "" || !Truthy(info) {
        return;
      }
      data := data[handle := Entry(NameField(info), SubsOf(info), now)];
      dirty := dirty + {handle};
      timerArmed := true;
    }

    /** The save timer fires. */
    method Tick()
      requires timerArmed
      modifies this`timerArmed, this`saves
      ensures !timerArmed
      ensures old(dirty) == {} ==> saves == old(saves)
      ensures old(dirty) != {} ==> saves == old(saves) + [old(dirty)]
    {
      timerArmed := false;
      SaveToDisk();
    }

    /**
     * `saveToDisk()`: nothing to do when no handle is dirty; otherwise the
     * dirty handles are snapshotted and the lock requested.
     */
    method SaveToDisk()
      modifies this`saves
      ensures dirty == {} ==> saves == old(saves)
      ensures dirty != {} ==> saves == old(saves) + [dirty]
    {
      if dirty == {} {
        return;
      }
      saves := saves + [dirty];
    }

    /**
     * The lock is granted to the oldest waiting save once no save holds it,
     * and the read callback runs: the store is read afresh, the snapshot
     * handles whose in-memory value is truthy are merged into it and the
     * write is issued, landing when `writeOk`. The lock stays held until the
     * write callback.
     */
    method SaveGranted(writeOk: bool)
      requires saves != [] && writing.None?
      modifies this`disk, this`saves, this`writing
      ensures writeOk ==> disk == Overlay(old(disk), data, old(saves[0]))
      ensures !writeOk ==> disk == old(disk)
      ensures saves == old(saves[1..]) && writing == Some(old(saves[0]))
    {
      var snapshot := saves[0];
      var merged := OverlayLoop(disk, data, snapshot);
      if writeOk {
        disk := merged;
      }
      saves := saves[1..];
      writing := Some(snapshot);
    }

    /**
     * The write callback: the snapshot handles leave the dirty set, even
     * when the write failed, and the lock is released.
     */
    method SaveWritten()
      requires writing.Some?
      modifies this`dirty, this`writing
      ensures dirty == old(dirty) - old(writing.value)
      ensures writing.None?
    {
      dirty := dirty - writing.value;
      writing := None;
    }

    /**
     * A `CACHE_GET` message. Before the first load has completed, the raw
     * store is taken as it is, and only when `data` is still empty; the
     * answer is `get(handle)`.
     */
    method CacheGet(handle: string) returns (r: Option<Raw>)
      modifies this`data, this`isLoaded
      ensures isLoaded
      ensures old(isLoaded) ==> data == old(data)
      ensures !old(isLoaded) && old(data) == map[] ==> data == disk
      ensures !old(isLoaded) && old(data) != map[] ==> data == old(data)
      ensures r == Get(handle)
    {
      if !isLoaded {
        if |data| == 0 {
          data := disk;
        }
        isLoaded := true;
      }
      r := Get(handle);
    }

    /** A `CACHE_SET` message. */
    method CacheSet(handle: string, info: Raw, now: int) returns (success: bool)
      modifies this`data, this`dirty, this`timerArmed
      ensures success
      ensures handle == "" || !Truthy(info) ==> data == old(data) && dirty == old(dirty)
      ensures handle != "" && Truthy(info) ==>
        data == old(data)[handle := Entry(NameField(info), SubsOf(info), now)] &&
        dirty == old(dirty) + {handle}
    {
      Set(handle, info, now);
      success := true;
    }
  }

  /**
   * A handle set while an earlier save waits for the lock stays dirty once
   * that save completes; the saved handle leaves the dirty set and is on
   * disk.
   */
  method SetDuringSaveScenario() returns (carolDirty: bool, bobDirty: bool, saved: Option<Raw>)
    ensures carolDirty && !bobDirty
    ensures saved == Some(Entry("Bob", 5, 1000))
  {
    var c := new Cache(map[]);
    c.Set("@bob", Entry("Bob", 5, 0), 1000);
    c.Tick();
    c.Set("@carol", Entry("Carol", 0, 0), 1500);
    c.SaveGranted(true);
    c.SaveWritten();
    carolDirty, bobDirty := "@carol" in c.dirty, "@bob" in c.dirty;
    saved := if "@bob" in c.disk then Some(c.disk["@bob"]) else None;
  }

  /**
   * A handle set again between the merge and the write callback loses its
   * dirty mark: the disk keeps the value merged before, memory holds the
   * newer one, and no later save picks the handle up until it is set once
   * more.
   */
  method SetDuringWriteScenario() returns (bobDirty: bool, onDisk: Option<Raw>, inMemory: Option<Raw>)
    ensures !bobDirty
    ensures onDisk == Some(Entry("Bob", 5, 1000))
    ensures inMemory == Some(Entry("Bob", 6, 1500))
  {
    var c := new Cache(map[]);
    c.Set("@bob", Entry("Bob", 5, 0), 1000);
    c.Tick();
    c.SaveGranted(true);
    c.Set("@bob", Entry("Bob", 6, 0), 1500);
    c.SaveWritten();
    bobDirty := "@bob" in c.dirty;
    onDisk := if "@bob" in c.disk then Some(c.disk["@bob"]) else None;
    inMemory := c.Get("@bob");
  }
}
