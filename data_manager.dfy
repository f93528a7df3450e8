// The manager page's storage service (pages/manager/data_manager.js) over
// the IndexedDB store of idb-keyval: the settings defaults, the list with
// expiry columns, delete, forced expiry, the backup import merge and the
// checksum test.
//
// The store is the map `db`; the `CACHE_INVALIDATE` and `CACHE_CLEAR_MEM`
// messages sent to the background are recorded in `sent`. The settings read
// from chrome.storage, the clock and the hash are parameters.

module DataManager {

  import opened Common
  import opened Records
  import Config
  import Sorting

  const MINUTE_MS: int := 60 * 1000

  /** The stored settings object; 0 stands for a missing or zero field. */
  datatype StoredSettings = StoredSettings(ttlDays: int, deleteDays: int)

  datatype Settings = Settings(ttlDays: int, deleteDays: int)

  /** `_getSettings()`: `ttlDays || 15`, `deleteDays || 30`. */
  function GetSettings(stored: Option<StoredSettings>): (s: Settings)
    ensures stored.None? ==> s == Settings(Config.DEFAULT_TTL_DAYS, Config.DEFAULT_DELETE_DAYS)
    ensures stored.Some? && stored.value.ttlDays != 0 ==> s.ttlDays == stored.value.ttlDays
    ensures stored.Some? && stored.value.ttlDays == 0 ==> s.ttlDays == Config.DEFAULT_TTL_DAYS
    ensures stored.Some? && stored.value.deleteDays != 0 ==> s.deleteDays == stored.value.deleteDays
    ensures stored.Some? && stored.value.deleteDays == 0 ==> s.deleteDays == Config.DEFAULT_DELETE_DAYS
  {
    var raw := if stored.Some? then stored.value else StoredSettings(0, 0);
    Settings(if raw.ttlDays != 0 then raw.ttlDays else Config.DEFAULT_TTL_DAYS,
             if raw.deleteDays != 0 then raw.deleteDays else Config.DEFAULT_DELETE_DAYS)
  }

  /** A row of `getAllList`. */
  datatype ListItem = ListItem(id: string, name: string, subs: int, ts: int,
                               isExpired: bool, daysUntilDelete: int)

  /**
   * The row for one stored value, or None when the value is falsy or has no
   * name. Expired means more than `ttlDays` since `ts` (0 when missing); an
   * expired row shows the whole days, rounded up, until `ts + deleteDays`.
   */
  function ToListItem(handle: string, data: Raw, now: int, s: Settings): (r: Option<ListItem>)
    ensures r.Some? <==> Truthy(data) && NameOf(data) != ""
    ensures r.Some? ==>
      r.value.id == handle && r.value.name == NameOf(data) &&
      r.value.subs == SubsOf(data) && r.value.ts == TsOf(data)
    ensures r.Some? ==> (r.value.isExpired <==> now - TsOf(data) > s.ttlDays * Config.DAY_MS)
    ensures r.Some? && !r.value.isExpired ==> r.value.daysUntilDelete == 0
    ensures r.Some? && r.value.isExpired ==>
      var remaining := TsOf(data) + s.deleteDays * Config.DAY_MS - now;
      (r.value.daysUntilDelete - 1) * Config.DAY_MS < remaining <= r.value.daysUntilDelete * Config.DAY_MS
  {
    if !Truthy(data) || NameOf(data) == "" then None
    else
      var ts := TsOf(data);
      var isExpired := now - ts > s.ttlDays * Config.DAY_MS;
      var days := if isExpired then CeilDiv(ts + s.deleteDays * Config.DAY_MS - now, Config.DAY_MS) else 0;
      Some(ListItem(handle, NameOf(data), SubsOf(data), ts, isExpired, days))
  }

  /**
   * An expired row is due for deletion within `deleteDays - ttlDays` days:
   * its count never exceeds that difference.
   */
  lemma {:induction false} ExpiredDaysBound(handle: string, data: Raw, now: int, s: Settings)
    requires ToListItem(handle, data, now, s).Some? && ToListItem(handle, data, now, s).value.isExpired
    ensures ToListItem(handle, data, now, s).value.daysUntilDelete <= s.deleteDays - s.ttlDays
  {
    var it := ToListItem(handle, data, now, s).value;
    var remaining := TsOf(data) + s.deleteDays * Config.DAY_MS - now;
    assert remaining < (s.deleteDays - s.ttlDays) * Config.DAY_MS;
    assert (it.daysUntilDelete - 1) * Config.DAY_MS < (s.deleteDays - s.ttlDays) * Config.DAY_MS;
  }

  /**
   * A forced expiry shows the entry as expired, ten minutes past its TTL,
   * with `deleteDays - ttlDays` days left before deletion.
   */
  lemma {:induction false} ForcedExpiryListing(handle: string, v: Raw, now: int, s: Settings)
    requires NameOf(v) != ""
    ensures var item := ToListItem(handle, Expired(v, ForcedExpiredTs(now, s)), now, s);
      item.Some? && item.value.isExpired && item.value.name == NameOf(v) &&
      item.value.daysUntilDelete == s.deleteDays - s.ttlDays
  {
    var e := Expired(v, ForcedExpiredTs(now, s));
    var item := ToListItem(handle, e, now, s).value;
    var remaining := TsOf(e) + s.deleteDays * Config.DAY_MS - now;
    var d := s.deleteDays - s.ttlDays;
    assert remaining == d * Config.DAY_MS - 10 * MINUTE_MS;
    assert (item.daysUntilDelete - 1) * Config.DAY_MS < d * Config.DAY_MS;
    assert (d - 1) * Config.DAY_MS < item.daysUntilDelete * Config.DAY_MS;
  }

  /** The rows in store order, before sorting. */
  function Listed(entries: seq<(string, Raw)>, now: int, s: Settings): (r: seq<ListItem>)
    ensures |r| <= |entries|
    ensures forall x :: x in r ==> exists e :: e in entries && ToListItem(e.0, e.1, now, s) == Some(x)
  {
    if entries == [] then []
    else
      var rest := Listed(entries[..|entries| - 1], now, s);
      var last := entries[|entries| - 1];
      assert forall e :: e in entries[..|entries| - 1] ==> e in entries;
      match ToListItem(last.0, last.1, now, s)
      case Some(x) => rest + [x]
      case None => rest
  }

  /** Every stored value that has a row is listed. */
  lemma {:induction false} ListedComplete(entries: seq<(string, Raw)>, now: int, s: Settings, i: nat)
    requires i < |entries| && ToListItem(entries[i].0, entries[i].1, now, s).Some?
    ensures ToListItem(entries[i].0, entries[i].1, now, s).value in Listed(entries, now, s)
  {
    var n := |entries| - 1;
    if i < n {
      assert entries[..n][i] == entries[i];
      ListedComplete(entries[..n], now, s, i);
    }
  }

  /** `(a, b) => b.ts - a.ts`: newest first. */
  predicate NewerFirst(a: ListItem, b: ListItem)
  {
    b.ts - a.ts <= 0
  }

  /**
   * A `DataManager` over the IndexedDB store `db`. `sent` collects the
   * invalidation messages sent to the background.
   */
  datatype Message = CacheInvalidate(handles: seq<string>) | CacheClearMem

  /** A backup file: `meta` with its checksum, and `data`. */
  datatype Backup = Backup(meta: Option<string>, data: Option<map<string, Raw>>)

  /** `verifyChecksum(json)` with the SHA-256 digest given as `hash`. */
  function VerifyChecksum(json: Backup, hash: map<string, Raw> -> string): (ok: bool)
    ensures json.meta.None? || json.data.None? ==> !ok
    ensures json.meta.Some? && json.data.Some? ==> (ok <==> hash(json.data.value) == json.meta.value)
  {
    if json.meta.None? || json.data.None? then false
    else hash(json.data.value) == json.meta.value
  }

  /**
   * The `expireItems` updater: a falsy value stays undefined (and is stored
   * as such), a bare string is upgraded, an object keeps its fields with the
   * new `ts`.
   */
  function Expired(val: Raw, forcedTs: int): (r: Raw)
    ensures !Truthy(val) ==> r == Absent
    ensures val.Bare? && Truthy(val) ==> r == Entry(val.text, 0, forcedTs)
    ensures val.Entry? ==> r == val.(ts := forcedTs)
  {
    match val
    case Absent => Absent
    case Bare(t) => if t != "" then Entry(t, 0, forcedTs) else Absent
    case Entry(n, subs, _) => Entry(n, subs, forcedTs)
  }

  /** `now - ttlDays * day - 10 minutes`: the entry expired ten minutes ago. */
  function ForcedExpiredTs(now: int, s: Settings): int
  {
    now - s.ttlDays * Config.DAY_MS - 10 * MINUTE_MS
  }

  /**
   * The timestamp an imported entry gets: in safe mode always the forced
   * one; in trusted mode the original (`ts || now`) unless it lies in the
   * future or the entry has subscribers.
   */
  function ImportTs(entry: Raw, isTrusted: bool, now: int, forcedTs: int): (ts: int)
    ensures !isTrusted ==> ts == forcedTs
    ensures SubsOf(entry) > 0 ==> ts == forcedTs
    ensures forcedTs <= now ==> ts <= now
    ensures isTrusted && SubsOf(entry) <= 0 && TsOf(entry) != 0 && TsOf(entry) <= now ==> ts == TsOf(entry)
    ensures isTrusted && SubsOf(entry) <= 0 && TsOf(entry) == 0 ==> ts == now
    ensures isTrusted && TsOf(entry) != 0 && TsOf(entry) > now ==> ts == forcedTs
  {
    if isTrusted then
      var originTs := if TsOf(entry) != 0 then TsOf(entry) else now;
      var hasSubs := SubsOf(entry) > 0;
      if originTs > now || hasSubs then forcedTs else originTs
    else forcedTs
  }

  /**
   * The candidate record for an imported value, or None when it has no
   * name (`val || {}`, then `name || string`).
   */
  function Candidate(val: Raw, isTrusted: bool, now: int, forcedTs: int): (c: Option<Raw>)
    ensures c.Some? <==> NameOf(val) != ""
    ensures c.Some? ==> c.value == Entry(NameOf(val), SubsOf(val), ImportTs(val, isTrusted, now, forcedTs))
  {
    if NameOf(val) == "" then None
    else Some(Entry(NameOf(val), SubsOf(val), ImportTs(val, isTrusted, now, forcedTs)))
  }

  /**
   * Whether the candidate replaces the local value: always when the local
   * value is falsy or a bare string (which has neither `subs` nor `ts`);
   * never when it has subscribers or a newer timestamp.
   */
  predicate Overwrites(local: Raw, candidate: Raw)
  {
    match local
    case Absent => true
    case Bare(_) => true
    case Entry(_, subs, ts) => !(subs > 0) && !(ts > TsOf(candidate))
  }

  /** The keys of a sequence of pairs. */
  function Keys<V>(ps: seq<(string, V)>): (ks: seq<string>)
    ensures |ks| == |ps|
    ensures forall i :: 0 <= i < |ps| ==> ks[i] == ps[i].0
  {
    if ps == [] then [] else [ps[0].0] + Keys(ps[1..])
  }

  lemma KeysAppend<V>(ps: seq<(string, V)>, p: (string, V))
    ensures Keys(ps + [p]) == Keys(ps) + [p.0]
  {
  }

  /** `setMany(entries)`: each pair stored in turn. */
  function PutAll(db: map<string, Raw>, ps: seq<(string, Raw)>): (r: map<string, Raw>)
    ensures forall k :: k in r <==> k in db || k in Keys(ps)
    decreases |ps|
  {
    if ps == [] then db
    else
      assert forall k :: k in Keys(ps) <==> k == ps[0].0 || k in Keys(ps[1..]) by {
        assert Keys(ps) == [ps[0].0] + Keys(ps[1..]);
      }
      PutAll(db[ps[0].0 := ps[0].1], ps[1..])
  }

  lemma {:induction false} PutAllAppend(db: map<string, Raw>, ps: seq<(string, Raw)>, p: (string, Raw))
    ensures PutAll(db, ps + [p]) == PutAll(db, ps)[p.0 := p.1]
    decreases |ps|
  {
    if ps != [] {
      assert (ps + [p])[1..] == ps[1..] + [p];
      PutAllAppend(db[ps[0].0 := ps[0].1], ps[1..], p);
    }
  }

  /** Storing distinct keys leaves each key with its own pair's value. */
  lemma {:induction false} PutAllValue(db: map<string, Raw>, ps: seq<(string, Raw)>, i: nat)
    requires Distinct(Keys(ps)) && i < |ps|
    ensures PutAll(db, ps)[ps[i].0] == ps[i].1
  {
    var n := |ps| - 1;
    var init, last := ps[..n], ps[n];
    assert ps == init + [last];
    PutAllAppend(db, init, last);
    if i < n {
      assert init[i] == ps[i];
      DistinctKeysPrefix(ps, n);
      PutAllValue(db, init, i);
      assert Keys(ps)[i] == ps[i].0 && Keys(ps)[n] == last.0;
    }
  }

  /** A prefix of pairs with distinct keys has distinct keys. */
  lemma {:induction false} DistinctKeysPrefix<V>(ps: seq<(string, V)>, n: nat)
    requires Distinct(Keys(ps)) && n <= |ps|
    ensures Distinct(Keys(ps[..n]))
  {
    var ks := Keys(ps[..n]);
    forall i, j | 0 <= i < j < n ensures ks[i] != ks[j] {
      assert ks[i] == ps[i].0 == Keys(ps)[i];
      assert ks[j] == ps[j].0 == Keys(ps)[j];
    }
  }

  /** With distinct keys, the last pair's key is no earlier pair's key. */
  lemma {:induction false} LastKeyNotInPrefix<V>(ps: seq<(string, V)>)
    requires Distinct(Keys(ps)) && ps != []
    ensures forall p :: p in ps[..|ps| - 1] ==> p.0 != ps[|ps| - 1].0
  {
    var n := |ps| - 1;
    forall p | p in ps[..n] ensures p.0 != ps[n].0 {
      var i :| 0 <= i < n && ps[..n][i] == p;
      assert Keys(ps)[i] == p.0 && Keys(ps)[n] == ps[n].0;
    }
  }

  /**
   * The candidates loop of `importData`: every named entry with its record,
   * in order.
   */
  function Candidates(entries: seq<(string, Raw)>, isTrusted: bool, now: int, forcedTs: int)
    : (cs: seq<(string, Raw)>)
    ensures |cs| <= |entries|
  {
    if entries == [] then []
    else
      var rest := Candidates(entries[..|entries| - 1], isTrusted, now, forcedTs);
      var last := entries[|entries| - 1];
      match Candidate(last.1, isTrusted, now, forcedTs)
      case Some(c) => rest + [(last.0, c)]
      case None => rest
  }

  /** The merge loop: the candidates that overwrite their local value. */
  function ToWrite(cs: seq<(string, Raw)>, locals: seq<Raw>): (w: seq<(string, Raw)>)
    requires |locals| == |cs|
    ensures |w| <= |cs|
  {
    if cs == [] then []
    else
      var n := |cs| - 1;
      var rest := ToWrite(cs[..n], locals[..n]);
      if Overwrites(locals[n], cs[n].1) then rest + [cs[n]] else rest
  }

  lemma {:induction false} CandidatesSafeTs(entries: seq<(string, Raw)>, now: int, forcedTs: int)
    ensures forall c :: c in Candidates(entries, false, now, forcedTs) ==> c.1.Entry? && c.1.ts == forcedTs
  {
    if entries != [] {
      CandidatesSafeTs(entries[..|entries| - 1], now, forcedTs);
    }
  }

  /** Every candidate comes from an imported entry with the same key. */
  lemma {:induction false} CandidatesFrom(entries: seq<(string, Raw)>, isTrusted: bool, now: int, forcedTs: int)
    ensures forall c :: c in Candidates(entries, isTrusted, now, forcedTs) ==>
      exists e :: e in entries && e.0 == c.0 && Candidate(e.1, isTrusted, now, forcedTs) == Some(c.1)
  {
    if entries != [] {
      var init := entries[..|entries| - 1];
      CandidatesFrom(init, isTrusted, now, forcedTs);
      assert forall e :: e in init ==> e in entries;
      assert entries[|entries| - 1] in entries;
    }
  }

  lemma {:induction false} CandidatesNamed(entries: seq<(string, Raw)>, isTrusted: bool, now: int, forcedTs: int)
    ensures Candidates(entries, isTrusted, now, forcedTs) == [] <==>
      forall e :: e in entries ==> NameOf(e.1) == ""
  {
    if entries != [] {
      var init := entries[..|entries| - 1];
      CandidatesNamed(init, isTrusted, now, forcedTs);
      assert entries == init + [entries[|entries| - 1]];
      assert forall e :: e in entries <==> e in init || e == entries[|entries| - 1];
      if Candidate(entries[|entries| - 1].1, isTrusted, now, forcedTs).Some? {
        assert Candidates(entries, isTrusted, now, forcedTs) != [];
      }
    }
  }

  lemma {:induction false} CandidateKeys(entries: seq<(string, Raw)>, isTrusted: bool, now: int, forcedTs: int)
    requires Distinct(Keys(entries))
    ensures Distinct(Keys(Candidates(entries, isTrusted, now, forcedTs)))
    ensures forall k :: k in Keys(Candidates(entries, isTrusted, now, forcedTs)) ==> k in Keys(entries)
  {
    if entries != [] {
      var init := entries[..|entries| - 1];
      var last := entries[|entries| - 1];
      DistinctKeysPrefix(entries, |entries| - 1);
      CandidateKeys(init, isTrusted, now, forcedTs);
      var rest := Candidates(init, isTrusted, now, forcedTs);
      match Candidate(last.1, isTrusted, now, forcedTs) {
        case Some(c) =>
          KeysAppend(rest, (last.0, c));
          LastKeyNotInPrefix(entries);
          forall i | 0 <= i < |init| ensures Keys(init)[i] != last.0 {
            assert init[i] in init;
          }
          DistinctSnoc(Keys(rest), last.0);
        case None =>
      }
    }
  }

  lemma {:induction false} ToWriteKeys(cs: seq<(string, Raw)>, locals: seq<Raw>)
    requires |locals| == |cs| && Distinct(Keys(cs))
    ensures Distinct(Keys(ToWrite(cs, locals)))
    ensures forall p :: p in ToWrite(cs, locals) ==> p in cs
  {
    if cs != [] {
      var n := |cs| - 1;
      DistinctKeysPrefix(cs, n);
      ToWriteKeys(cs[..n], locals[..n]);
      var rest := ToWrite(cs[..n], locals[..n]);
      assert forall p :: p in cs[..n] ==> p in cs;
      if Overwrites(locals[n], cs[n].1) {
        KeysAppend(rest, cs[n]);
        LastKeyNotInPrefix(cs);
        forall k | 0 <= k < |rest| ensures Keys(rest)[k] != cs[n].0 {
          assert rest[k] in rest;
        }
        DistinctSnoc(Keys(rest), cs[n].0);
      }
    }
  }

  /** `getMany(keys)`: the local value of each key, undefined when the read fails. */
  function LocalValues(db: map<string, Raw>, keys: seq<string>, readOk: bool): (vs: seq<Raw>)
    ensures |vs| == |keys|
    ensures forall i :: 0 <= i < |keys| ==>
      vs[i] == (if readOk && keys[i] in db then db[keys[i]] else Absent)
  {
    seq(|keys|, i requires 0 <= i < |keys| => if readOk && keys[i] in db then db[keys[i]] else Absent)
  }

  /** The candidates loop of `importData`. */
  method BuildCandidates(entries: seq<(string, Raw)>, isTrusted: bool, now: int, forcedTs: int)
    returns (candidates: seq<(string, Raw)>)
    ensures candidates == Candidates(entries, isTrusted, now, forcedTs)
  {
    candidates := [];
    var i := 0;
    while i < |entries|
      invariant 0 <= i <= |entries|
      invariant candidates == Candidates(entries[..i], isTrusted, now, forcedTs)
    {
      assert entries[..i + 1][..i] == entries[..i];
      match Candidate(entries[i].1, isTrusted, now, forcedTs) {
        case Some(c) => candidates := candidates + [(entries[i].0, c)];
        case None =>
      }
      i := i + 1;
    }
    assert entries[..i] == entries;
  }

  /** The comparison loop of `importData` over the candidates and their local values. */
  method SelectWrites(candidates: seq<(string, Raw)>, locals: seq<Raw>) returns (toWrite: seq<(string, Raw)>)
    requires |locals| == |candidates|
    ensures toWrite == ToWrite(candidates, locals)
  {
    toWrite := [];
    var j := 0;
    while j < |candidates|
      invariant 0 <= j <= |candidates|
      invariant toWrite == ToWrite(candidates[..j], locals[..j])
    {
      assert candidates[..j + 1][..j] == candidates[..j];
      assert locals[..j + 1][..j] == locals[..j];
      if Overwrites(locals[j], candidates[j].1) {
        toWrite := toWrite + [candidates[j]];
      }
      j := j + 1;
    }
    assert candidates[..j] == candidates && locals[..j] == locals;
  }

  /** `entries` lists every key of `db` once, with its value. */
  ghost predicate Enumerates(entries: seq<(string, Raw)>, db: map<string, Raw>)
  {
    Distinct(Keys(entries)) &&
    (forall k :: k in db <==> k in Keys(entries)) &&
    (forall i :: 0 <= i < |entries| ==> entries[i].0 in db && db[entries[i].0] == entries[i].1)
  }

  class Store {
    /** The IndexedDB object store. */
    var db: map<string, Raw>
    /** The messages sent to the background, in order. */
    var sent: seq<Message>

    constructor (stored: map<string, Raw>)
      ensures db == stored && sent == []
    {
      db, sent := stored, [];
    }

    /**
     * `getAllList()`: one row per stored value that is truthy and named,
     * newest first; [] when the read fails. `entries` is the store in the
     * order `entries()` returns it.
     */
    method GetAllList(entries: seq<(string, Raw)>, readOk: bool, stored: Option<StoredSettings>, now: int)
      returns (list: seq<ListItem>)
      requires Enumerates(entries, db)
      ensures !readOk ==> list == []
      ensures readOk ==> multiset(list) == multiset(Listed(entries, now, GetSettings(stored)))
      ensures readOk ==> Sorting.SortedBy(list, NewerFirst)
      ensures readOk ==> list == Sorting.SortBy(Listed(entries, now, GetSettings(stored)), NewerFirst)
    {
      if !readOk {
        return [];
      }
      var s := GetSettings(stored);
      list := [];
      var i := 0;
      while i < |entries|
        invariant 0 <= i <= |entries|
        invariant list == Listed(entries[..i], now, s)
      {
        assert entries[..i + 1][..i] == entries[..i];
        match ToListItem(entries[i].0, entries[i].1, now, s) {
          case Some(item) => list := list + [item];
          case None =>
        }
        i := i + 1;
      }
      assert entries[..i] == entries;
      Sorting.SortBySorted(list, NewerFirst);
      list := Sorting.SortBy(list, NewerFirst);
    }

    /** `deleteItems(ids)`: nothing for no ids; otherwise delete them and invalidate. */
    method DeleteItems(ids: seq<string>)
      modifies this
      ensures ids == [] ==> db == old(db) && sent == old(sent)
      ensures ids != [] ==> db == old(db) - (set id | id in ids) && sent == old(sent) + [CacheInvalidate(ids)]
    {
      if |ids| == 0 {
        return;
      }
      db := db - (set id | id in ids);
      sent := sent + [CacheInvalidate(ids)];
    }

    /**
     * `expireItems(ids)`: every listed key is rewritten by the updater with
     * the forced timestamp of the current settings, then invalidated.
     */
    method ExpireItems(ids: seq<string>, stored: Option<StoredSettings>, now: int)
      modifies this
      ensures ids == [] ==> db == old(db) && sent == old(sent)
      ensures ids != [] ==> sent == old(sent) + [CacheInvalidate(ids)]
      ensures ids != [] ==> forall k :: k in db <==> k in old(db) || k in ids
      ensures ids != [] ==> forall k :: k in ids ==>
        db[k] == Expired(if k in old(db) then old(db)[k] else Absent, ForcedExpiredTs(now, GetSettings(stored)))
      ensures forall k :: k in old(db) && k !in ids ==> db[k] == old(db)[k]
    {
      if |ids| == 0 {
        return;
      }
      var forcedTs := ForcedExpiredTs(now, GetSettings(stored));
      var d := db;
      var i := 0;
      while i < |ids|
        invariant 0 <= i <= |ids|
        invariant forall k :: k in d <==> k in db || k in ids[..i]
        invariant forall k :: k in ids[..i] ==> d[k] == Expired(if k in db then db[k] else Absent, forcedTs)
        invariant forall k :: k in db && k !in ids[..i] ==> d[k] == db[k]
      {
        var id := ids[i];
        assert ids[..i + 1] == ids[..i] + [id];
        var val := if id in d then d[id] else Absent;
        d := d[id := Expired(val, forcedTs)];
        i := i + 1;
      }
      assert ids[..i] == ids;
      db := d;
      sent := sent + [CacheInvalidate(ids)];
    }

    /** `clearAll()` */
    method ClearAll()
      modifies this
      ensures db == map[] && sent == old(sent) + [CacheClearMem]
    {
      db := map[];
      sent := sent + [CacheClearMem];
    }

    /**
     * `importData(dataToImport, isTrusted)`: build the candidates, read their
     * local values (`readOk` false: the read failed and every value is
     * undefined), keep the candidates that overwrite, write them and
     * invalidate their keys. Returns the number written.
     */
    method ImportData(dataToImport: Option<seq<(string, Raw)>>, isTrusted: bool,
                      stored: Option<StoredSettings>, now: int, readOk: bool)
      returns (count: nat)
      requires dataToImport.Some? ==> Distinct(Keys(dataToImport.value))
      modifies this
      ensures dataToImport.None? ==> count == 0 && db == old(db) && sent == old(sent)
      ensures dataToImport.Some? ==>
        var forcedTs := ForcedExpiredTs(now, GetSettings(stored));
        var cs := Candidates(dataToImport.value, isTrusted, now, forcedTs);
        var w := ToWrite(cs, LocalValues(old(db), Keys(cs), readOk));
        count == |w| && db == PutAll(old(db), w) &&
        sent == old(sent) + (if w == [] then [] else [CacheInvalidate(Keys(w))])
    {
      if dataToImport.None? {
        return 0;
      }
      var entries := dataToImport.value;
      var forcedTs := ForcedExpiredTs(now, GetSettings(stored));
      var candidates := BuildCandidates(entries, isTrusted, now, forcedTs);
      if |candidates| == 0 {
        return 0;
      }
      var locals := LocalValues(db, Keys(candidates), readOk);
      var toWrite := SelectWrites(candidates, locals);
      if |toWrite| == 0 {
        return 0;
      }
      db := PutAll(db, toWrite);
      sent := sent + [CacheInvalidate(Keys(toWrite))];
      count := |toWrite|;
    }
  }

  /**
   * What the import writes: each key once, and every written pair is a
   * candidate, built from an imported entry with that key.
   */
  lemma {:induction false} ImportWrites(db: map<string, Raw>, entries: seq<(string, Raw)>, isTrusted: bool,
                     now: int, forcedTs: int, readOk: bool)
    requires Distinct(Keys(entries))
    ensures var cs := Candidates(entries, isTrusted, now, forcedTs);
      var w := ToWrite(cs, LocalValues(db, Keys(cs), readOk));
      Distinct(Keys(w)) && (forall p :: p in w ==> p in cs) &&
      (forall p :: p in w ==>
        exists e :: e in entries && e.0 == p.0 && Candidate(e.1, isTrusted, now, forcedTs) == Some(p.1))
  {
    var cs := Candidates(entries, isTrusted, now, forcedTs);
    CandidateKeys(entries, isTrusted, now, forcedTs);
    CandidatesFrom(entries, isTrusted, now, forcedTs);
    ToWriteKeys(cs, LocalValues(db, Keys(cs), readOk));
  }

  /**
   * After the import the store holds every written pair, and every key
   * that was not written keeps its old value.
   */
  lemma {:induction false} ImportStores(db: map<string, Raw>, entries: seq<(string, Raw)>, isTrusted: bool,
                     now: int, forcedTs: int, readOk: bool)
    requires Distinct(Keys(entries))
    ensures var cs := Candidates(entries, isTrusted, now, forcedTs);
      var w := ToWrite(cs, LocalValues(db, Keys(cs), readOk));
      (forall i :: 0 <= i < |w| ==> PutAll(db, w)[w[i].0] == w[i].1) &&
      (forall k :: k in PutAll(db, w) && k !in Keys(w) ==> k in db && PutAll(db, w)[k] == db[k])
  {
    var cs := Candidates(entries, isTrusted, now, forcedTs);
    var w := ToWrite(cs, LocalValues(db, Keys(cs), readOk));
    CandidateKeys(entries, isTrusted, now, forcedTs);
    ToWriteKeys(cs, LocalValues(db, Keys(cs), readOk));
    PutAllValues(db, w);
    PutAllOthers(db, w);
  }

  /** Storing distinct keys leaves every key with its own pair's value. */
  lemma {:induction false} PutAllValues(db: map<string, Raw>, ps: seq<(string, Raw)>)
    requires Distinct(Keys(ps))
    ensures forall i :: 0 <= i < |ps| ==> PutAll(db, ps)[ps[i].0] == ps[i].1
  {
    forall i | 0 <= i < |ps| ensures PutAll(db, ps)[ps[i].0] == ps[i].1 {
      PutAllValue(db, ps, i);
    }
  }

  lemma {:induction false} PutAllOthers(db: map<string, Raw>, ps: seq<(string, Raw)>)
    ensures forall k :: k in PutAll(db, ps) && k !in Keys(ps) ==> k in db && PutAll(db, ps)[k] == db[k]
    decreases |ps|
  {
    if ps != [] {
      PutAllOthers(db[ps[0].0 := ps[0].1], ps[1..]);
      assert Keys(ps) == [ps[0].0] + Keys(ps[1..]);
    }
  }

  /** Every write is a candidate at some position whose local value it overwrites. */
  lemma {:induction false} ToWriteFrom(cs: seq<(string, Raw)>, locals: seq<Raw>)
    requires |locals| == |cs|
    ensures forall p :: p in ToWrite(cs, locals) ==>
      exists j :: 0 <= j < |cs| && cs[j] == p && Overwrites(locals[j], cs[j].1)
  {
    if cs != [] {
      var n := |cs| - 1;
      ToWriteFrom(cs[..n], locals[..n]);
      forall p | p in ToWrite(cs, locals)
        ensures exists j :: 0 <= j < |cs| && cs[j] == p && Overwrites(locals[j], cs[j].1)
      {
        if p in ToWrite(cs[..n], locals[..n]) {
          var j :| 0 <= j < n && cs[..n][j] == p && Overwrites(locals[..n][j], cs[..n][j].1);
          assert cs[j] == p && locals[j] == locals[..n][j];
        } else {
          assert p == cs[n];
        }
      }
    }
  }

  /**
   * A local record with subscribers, or newer than the candidate, survives:
   * it is never among the writes.
   */
  lemma {:induction false} ToWriteProtects(cs: seq<(string, Raw)>, locals: seq<Raw>, i: nat)
    requires |locals| == |cs| && i < |cs| && Distinct(Keys(cs))
    ensures locals[i].Entry? && (locals[i].subs > 0 || locals[i].ts > TsOf(cs[i].1)) ==>
      cs[i].0 !in Keys(ToWrite(cs, locals))
  {
    if locals[i].Entry? && (locals[i].subs > 0 || locals[i].ts > TsOf(cs[i].1)) {
      var w := ToWrite(cs, locals);
      ToWriteFrom(cs, locals);
      forall p | p in w ensures p.0 != cs[i].0 {
        var j :| 0 <= j < |cs| && cs[j] == p && Overwrites(locals[j], cs[j].1);
        assert j != i;
        assert Keys(cs)[j] == p.0 && Keys(cs)[i] == cs[i].0;
      }
      assert forall k :: 0 <= k < |w| ==> Keys(w)[k] == w[k].0 && w[k] in w;
    }
  }

  /** Any other local value (missing, falsy or a bare string) is always replaced. */
  lemma {:induction false} ToWriteReplaces(cs: seq<(string, Raw)>, locals: seq<Raw>, i: nat)
    requires |locals| == |cs| && i < |cs|
    ensures !locals[i].Entry? ==> cs[i] in ToWrite(cs, locals)
  {
    var n := |cs| - 1;
    if i < n && !locals[i].Entry? {
      ToWriteReplaces(cs[..n], locals[..n], i);
    }
  }
}
