// The background cache (js/background/bg_cache.js): a bounded in-memory
// `Map` with insertion-order eviction, a buffer of writes not yet on disk
// that is flushed on a size ceiling or a debounce timer, IndexedDB as the
// disk, and the one-off migration of the version-1 store in chrome.storage.
//
// The disk is a map from handle to stored value; a failed disk read or write
// is a boolean input. The debounce timer is `timerArmed` and its firing the
// `Tick` method.

module BgCache {

  import opened Common
  import opened Records

  const MAX_MEM_SIZE: nat := 1000
  const SAVE_DELAY: int := 2000
  const BATCH_LIMIT: nat := 50

  /** A JavaScript `Map`: its keys in insertion order and the value of each. */
  datatype Mem = Mem(order: seq<string>, items: map<string, Raw>)

  ghost predicate MemValid(m: Mem)
  {
    Distinct(m.order) && (forall k :: k in m.items <==> k in m.order)
  }

  const EMPTY_MEM: Mem := Mem([], map[])

  /** Removing a key never grows a map. */
  lemma BufferShrinks(m: map<string, Raw>, k: string)
    ensures |m - {k}| <= |m|
  {
    if k in m {
      assert m.Keys == (m - {k}).Keys + {k};
    } else {
      assert m - {k} == m;
    }
  }

  /** The keys of `s` without `k`. */
  function Remove(s: seq<string>, k: string): (r: seq<string>)
    ensures forall x :: x in r <==> x in s && x != k
    ensures Distinct(s) ==> Distinct(r) && |r| == if k in s then |s| - 1 else |s|
    ensures k !in s ==> r == s
    ensures Distinct(s) && s != [] && s[0] == k ==> r == s[1..]
  {
    DistinctHead(s);
    if s == [] then []
    else if s[0] == k then Remove(s[1..], k)
    else [s[0]] + Remove(s[1..], k)
  }

  /** Removing the key at `p` cuts it out where it stands: the other keys keep their relative order. */
  lemma {:induction false} RemoveAt(s: seq<string>, k: string, p: nat)
    requires Distinct(s) && p < |s| && s[p] == k
    ensures Remove(s, k) == s[..p] + s[p + 1..]
  {
    DistinctHead(s);
    if p == 0 {
      assert s[..0] + s[1..] == s[1..];
    } else {
      var t := s[1..];
      assert s[0] != s[p] && t[p - 1] == k;
      RemoveAt(t, k, p - 1);
      assert t[..p - 1] == s[1..p] && t[p..] == s[p + 1..];
      calc {
        Remove(s, k);
        [s[0]] + Remove(t, k);
        [s[0]] + (s[1..p] + s[p + 1..]);
        { assert [s[0]] + s[1..p] == s[..p]; }
        s[..p] + s[p + 1..];
      }
    }
  }

  /** `map.delete(k)`: the key leaves the map and the order, the other keys keep their order. */
  function MemDelete(m: Mem, k: string): (r: Mem)
    requires MemValid(m)
    ensures MemValid(r)
    ensures r.items == m.items - {k}
    ensures r.order == Remove(m.order, k)
    ensures |r.order| == if k in m.items then |m.order| - 1 else |m.order|
  {
    Mem(Remove(m.order, k), m.items - {k})
  }

  /** `map.set(k, v)`: a new key goes last, an existing key keeps its place. */
  function MemPut(m: Mem, k: string, v: Raw): (r: Mem)
    requires MemValid(m)
    ensures MemValid(r)
    ensures r.items == m.items[k := v]
    ensures r.order == if k in m.items then m.order else m.order + [k]
    ensures |r.order| == if k in m.items then |m.order| else |m.order| + 1
  {
    if k in m.items then Mem(m.order, m.items[k := v])
    else Mem(m.order + [k], m.items[k := v])
  }

  /**
   * `setMemory(handle, item)`: when the map is full, the earliest-inserted
   * key is evicted first, whichever key is being set; then `handle` is set.
   */
  function SetMem(m: Mem, h: string, item: Raw): (r: Mem)
    requires MemValid(m)
    ensures MemValid(r)
    ensures h in r.items && r.items[h] == item
    ensures |m.order| <= MAX_MEM_SIZE ==> |r.order| <= MAX_MEM_SIZE
    ensures |m.order| < MAX_MEM_SIZE ==> r.items == m.items[h := item]
    ensures |m.order| >= MAX_MEM_SIZE ==> r.items == (m.items - {m.order[0]})[h := item]
    ensures forall k :: k in r.items && k != h ==> k in m.items && r.items[k] == m.items[k]
    ensures |m.order| < MAX_MEM_SIZE ==> r.order == if h in m.items then m.order else m.order + [h]
    ensures |m.order| >= MAX_MEM_SIZE ==>
      r.order == if h in m.items && h != m.order[0] then m.order[1..] else m.order[1..] + [h]
  {
    var m1 := if |m.order| >= MAX_MEM_SIZE then MemDelete(m, m.order[0]) else m;
    MemPut(m1, h, item)
  }

  /**
   * Eviction ignores whether the key is already present: on a full map,
   * re-setting a key other than the oldest one shrinks the map by one and
   * drops the oldest key.
   */
  lemma FullMapEvictsEvenOnUpdate(m: Mem, h: string, item: Raw)
    requires MemValid(m) && |m.order| == MAX_MEM_SIZE
    requires h in m.items && h != m.order[0]
    ensures m.order[0] !in SetMem(m, h, item).items
    ensures |SetMem(m, h, item).order| == MAX_MEM_SIZE - 1
  {
  }

  /**
   * The version-1 migration of one stored value: a bare string becomes a
   * record with no subscribers and time stamp 0, a value without a name is
   * skipped, and a missing time stamp becomes `now`.
   */
  function MigrateValue(v: Raw, now: int): (r: Option<Raw>)
    ensures r.Some? <==> NameOf(v) != ""
    ensures v.Bare? && v.text != "" ==> r == Some(Entry(v.text, 0, now))
    ensures v.Entry? && v.name != "" ==>
      r == Some(Entry(v.name, v.subs, if v.ts == 0 then now else v.ts))
  {
    var entry := if v.Bare? then Entry(v.text, 0, 0) else v;
    if entry.Entry? && entry.name != "" then
      Some(if entry.ts == 0 then entry.(ts := now) else entry)
    else None
  }

  /** The memory warm-up of the migration loop, over the first handles of `order`. */
  function WarmUp(m: Mem, order: seq<string>, legacy: map<string, Raw>, now: int): (r: Mem)
    requires MemValid(m) && forall k :: k in order ==> k in legacy
    ensures MemValid(r)
    ensures |m.order| <= MAX_MEM_SIZE ==> |r.order| <= MAX_MEM_SIZE
  {
    if order == [] then m
    else
      var prev := WarmUp(m, order[..|order| - 1], legacy, now);
      var h := order[|order| - 1];
      match MigrateValue(legacy[h], now)
      case Some(e) => SetMem(prev, h, e)
      case None => prev
  }

  /** The records the migration writes: every named legacy value, migrated. */
  function Migrated(legacy: map<string, Raw>, now: int): (w: map<string, Raw>)
    ensures forall k :: k in w <==> k in legacy && NameOf(legacy[k]) != ""
    ensures forall k :: k in w ==> Some(w[k]) == MigrateValue(legacy[k], now)
  {
    map k | k in legacy && MigrateValue(legacy[k], now).Some? :: MigrateValue(legacy[k], now).value
  }

  /** The part of `w` whose keys are in `keys`. */
  function Restrict(w: map<string, Raw>, keys: set<string>): (r: map<string, Raw>)
    ensures forall k :: k in r <==> k in w && k in keys
    ensures forall k :: k in r ==> r[k] == w[k]
  {
    map k | k in w && k in keys :: w[k]
  }

  /**
   * The `for` loop of `tryMigrateFromV1`: it collects the write of every
   * named value and warms each into the memory map, in `order`.
   */
  method MigrationLoop(m0: Mem, order: seq<string>, lg: map<string, Raw>, now: int)
    returns (mem: Mem, writes: map<string, Raw>)
    requires MemValid(m0) && |m0.order| <= MAX_MEM_SIZE
    requires forall k :: k in lg <==> k in order
    ensures MemValid(mem) && |mem.order| <= MAX_MEM_SIZE
    ensures mem == WarmUp(m0, order, lg, now)
    ensures writes == Migrated(lg, now)
  {
    mem, writes := m0, map[];
    var i := 0;
    while i < |order|
      invariant 0 <= i <= |order|
      invariant forall k :: k in order[..i] ==> k in lg
      invariant MemValid(mem) && |mem.order| <= MAX_MEM_SIZE
      invariant mem == WarmUp(m0, order[..i], lg, now)
      invariant forall k :: k in writes <==> k in order[..i] && NameOf(lg[k]) != ""
      invariant forall k :: k in writes ==> Some(writes[k]) == MigrateValue(lg[k], now)
    {
      var h := order[i];
      assert order[..i + 1][..i] == order[..i];
      assert order[..i + 1] == order[..i] + [h];
      match MigrateValue(lg[h], now) {
        case Some(e) =>
          writes := writes[h := e];
          mem := SetMem(mem, h, e);
        case None =>
      }
      i := i + 1;
    }
    assert order[..i] == order;
  }

  class Cache {
    var mem: Mem
    var pending: map<string, Raw>
    var disk: map<string, Raw>
    var timerArmed: bool
    /** The version-1 store under CACHE_KEY in chrome.storage; empty when absent. */
    var legacy: map<string, Raw>

    ghost predicate Valid()
      reads this
    {
      MemValid(mem) && |mem.order| <= MAX_MEM_SIZE && |pending| < BATCH_LIMIT
    }

    constructor (storedDisk: map<string, Raw>, storedLegacy: map<string, Raw>)
      ensures Valid()
      ensures mem == EMPTY_MEM && pending == map[] && !timerArmed
      ensures disk == storedDisk && legacy == storedLegacy
    {
      mem, pending, timerArmed := EMPTY_MEM, map[], false;
      disk, legacy := storedDisk, storedLegacy;
    }

    /** `getCount()`: the number of keys on disk, 0 when the read fails. */
    method GetCount(readOk: bool) returns (n: nat)
      ensures readOk ==> n == |disk.Keys|
      ensures !readOk ==> n == 0
    {
      n := if readOk then |disk.Keys| else 0;
    }

    /**
     * `get(handle)`: memory first, then the write buffer, then the disk; a
     * disk hit is copied into memory. `readOk` says whether the disk read
     * succeeded; a failed read answers null.
     */
    method Get(handle: string, readOk: bool) returns (r: Option<Raw>)
      requires Valid()
      modifies this`mem
      ensures Valid()
      ensures handle == "" ==> r == None && mem == old(mem)
      ensures handle != "" && handle in old(mem.items) ==>
        r == Some(old(mem.items[handle])) && mem == old(mem)
      ensures handle != "" && handle !in old(mem.items) && handle in pending ==>
        r == Some(pending[handle]) && mem == old(mem)
      ensures (handle != "" && handle !in old(mem.items) && handle !in pending &&
        readOk && handle in disk && Truthy(disk[handle])) ==>
        r == Some(disk[handle]) && mem == SetMem(old(mem), handle, disk[handle])
      ensures (handle != "" && handle !in old(mem.items) && handle !in pending &&
        !(readOk && handle in disk && Truthy(disk[handle]))) ==>
        r == None && mem == old(mem)
    {
      if handle == "" {
        return None;
      }
      if handle in mem.items {
        return Some(mem.items[handle]);
      }
      if handle in pending {
        return Some(pending[handle]);
      }
      if readOk && handle in disk && Truthy(disk[handle]) {
        SetMemory(handle, disk[handle]);
        return Some(disk[handle]);
      }
      return None;
    }

    /** `setMemory(handle, item)` */
    method SetMemory(handle: string, item: Raw)
      requires Valid()
      modifies this`mem
      ensures Valid()
      ensures mem == SetMem(old(mem), handle, item)
    {
      mem := SetMem(mem, handle, item);
    }

    /**
     * `set(handle, data)` at time `now`: the item goes to memory and to the
     * write buffer; a full buffer is flushed at once (with `writeOk` as the
     * outcome of the write), otherwise the debounce timer is restarted.
     */
    method Set(handle: string, data: Raw, now: int, writeOk: bool)
      requires Valid()
      modifies this
      ensures Valid()
      ensures legacy == old(legacy)
      ensures handle == "" || !Truthy(data) ==>
        mem == old(mem) && pending == old(pending) && disk == old(disk) && timerArmed == old(timerArmed)
      ensures handle != "" && Truthy(data) ==>
        var item := Entry(NameField(data), SubsOf(data), if TsOf(data) != 0 then TsOf(data) else now);
        mem == SetMem(old(mem), handle, item) &&
        mem.items[handle] == item &&
        if |old(pending)[handle := item]| >= BATCH_LIMIT then
          pending == map[] && !timerArmed &&
          disk == (if writeOk then old(disk) + old(pending)[handle := item] else old(disk))
        else
          pending == old(pending)[handle := item] && timerArmed && disk == old(disk)
    {
      if handle == "" || !Truthy(data) {
        return;
      }
      var item := Entry(NameField(data), SubsOf(data), if TsOf(data) != 0 then TsOf(data) else now);
      SetMemory(handle, item);
      pending := pending[handle := item];
      if |pending| >= BATCH_LIMIT {
        FlushToDisk(writeOk);
      } else {
        ScheduleFlush();
      }
    }

    /** `scheduleFlush()`: restart the debounce timer. */
    method ScheduleFlush()
      modifies this`timerArmed
      ensures timerArmed
    {
      timerArmed := true;
    }

    /** The debounce timer fires. */
    method Tick(writeOk: bool)
      requires Valid() && timerArmed
      modifies this
      ensures Valid()
      ensures !timerArmed && pending == map[]
      ensures mem == old(mem) && legacy == old(legacy)
      ensures disk == if writeOk then old(disk) + old(pending) else old(disk)
    {
      timerArmed := false;
      FlushToDisk(writeOk);
    }

    /**
     * `flushToDisk()`: nothing on an empty buffer; otherwise the buffer's
     * snapshot is written in one transaction (all of it when `writeOk`,
     * none of it otherwise) and the buffer is left empty either way.
     */
    method FlushToDisk(writeOk: bool)
      modifies this
      ensures mem == old(mem) && legacy == old(legacy)
      ensures old(pending) == map[] ==> pending == old(pending) && disk == old(disk) && timerArmed == old(timerArmed)
      ensures old(pending) != map[] ==>
        pending == map[] && !timerArmed &&
        disk == if writeOk then old(disk) + old(pending) else old(disk)
    {
      if pending == map[] {
        return;
      }
      var entries := pending;
      pending := map[];
      timerArmed := false;
      if writeOk {
        disk := disk + entries;
      }
    }

    /** `delete(handle)`: gone from memory, buffer and disk. */
    method Delete(handle: string)
      requires Valid()
      modifies this
      ensures Valid()
      ensures mem == MemDelete(old(mem), handle)
      ensures pending == old(pending) - {handle} && disk == old(disk) - {handle}
      ensures timerArmed == old(timerArmed) && legacy == old(legacy)
    {
      mem := MemDelete(mem, handle);
      BufferShrinks(pending, handle);
      pending := pending - {handle};
      disk := disk - {handle};
    }

    /** `clear()`: memory, buffer and disk all empty. */
    method Clear()
      modifies this
      ensures Valid()
      ensures mem == EMPTY_MEM && pending == map[] && disk == map[]
      ensures timerArmed == old(timerArmed) && legacy == old(legacy)
    {
      mem, pending, disk := EMPTY_MEM, map[], map[];
    }

    /**
     * `tryMigrateFromV1()` at time `now`. `order` is the order of
     * `Object.entries` over the legacy store, and `landed` the handles whose
     * disk write succeeded. Every named value is migrated to disk and warmed
     * into memory; the legacy store is removed only when every write landed.
     */
    method TryMigrateFromV1(order: seq<string>, now: int, landed: set<string>)
      requires Valid()
      requires Distinct(order) && forall k :: k in legacy <==> k in order
      modifies this
      ensures Valid()
      ensures mem == WarmUp(old(mem), order, old(legacy), now)
      ensures disk == old(disk) + Restrict(Migrated(old(legacy), now), landed)
      ensures legacy == if Migrated(old(legacy), now).Keys <= landed then map[] else old(legacy)
      ensures pending == old(pending) && timerArmed == old(timerArmed)
    {
      // An absent or empty store runs the loop zero times and changes nothing.
      var m, writes := MigrationLoop(mem, order, legacy, now);
      mem := m;
      disk := disk + Restrict(writes, landed);
      if writes.Keys <= landed {
        legacy := map[];
      }
    }
  }

  /** Right after `set(h, d)` with a non-empty handle and data, `get(h)` answers the new item from memory. */
  method SetThenGet(c: Cache, h: string, d: Raw, now: int, writeOk: bool, readOk: bool) returns (r: Option<Raw>)
    requires c.Valid() && h != "" && Truthy(d)
    modifies c
    ensures r == Some(Entry(NameField(d), SubsOf(d), if TsOf(d) != 0 then TsOf(d) else now))
  {
    c.Set(h, d, now, writeOk);
    r := c.Get(h, readOk);
  }
}
