// The list rules shared by both manager pages (js/manager.js and
// pages/manager/manager.js): the sort-column toggle, the sort comparator,
// the search filter, pagination and the expiry status column.

module ManagerView {

  import opened Common
  import Config
  import Sorting

  const ITEMS_PER_PAGE: nat := 15

  /** A list row: `{ id, name, subs, ts }`. */
  datatype Row = Row(id: string, name: string, subs: int, ts: int)

  /** The `data-sort` key of a column header; `Other` is any other key. */
  datatype SortKey = Id | Name | Subs | Ts | Other(key: string)

  datatype Direction = Asc | Desc

  datatype SortConfig = SortConfig(key: SortKey, direction: Direction)

  const INITIAL_SORT: SortConfig := SortConfig(Id, Asc)

  /**
   * `handleSort(key)`: the same column flips the direction; a new column
   * starts descending for `subs` and `ts`, ascending otherwise.
   */
  function NextSort(cfg: SortConfig, key: SortKey): (r: SortConfig)
    ensures r.key == key
    ensures cfg.key == key ==> r.direction != cfg.direction
    ensures cfg.key != key ==> (r.direction == Desc <==> key == Subs || key == Ts)
  {
    if cfg.key == key then
      SortConfig(key, if cfg.direction == Asc then Desc else Asc)
    else
      SortConfig(key, if key == Subs || key == Ts then Desc else Asc)
  }

  /** Clicking the same header twice restores the direction. */
  lemma NextSortTwice(cfg: SortConfig)
    ensures NextSort(NextSort(cfg, cfg.key), cfg.key) == cfg
  {
  }

  /**
   * String comparison by Unicode code points: -1, 0 or 1. It stands in for
   * `localeCompare`.
   */
  function StrCmp(a: string, b: string): (c: int)
    ensures -1 <= c <= 1
    ensures c == 0 <==> a == b
  {
    if a == [] && b == [] then 0
    else if a == [] then -1
    else if b == [] then 1
    else if a[0] < b[0] then -1
    else if a[0] > b[0] then 1
    else
      assert a == [a[0]] + a[1..] && b == [b[0]] + b[1..];
      StrCmp(a[1..], b[1..])
  }

  lemma {:induction false} StrCmpAntisymmetric(a: string, b: string)
    ensures StrCmp(a, b) == -StrCmp(b, a)
  {
    if a != [] && b != [] && a[0] == b[0] {
      StrCmpAntisymmetric(a[1..], b[1..]);
    }
  }

  lemma {:induction false} StrCmpTransitive(a: string, b: string, c: string)
    requires StrCmp(a, b) <= 0 && StrCmp(b, c) <= 0
    ensures StrCmp(a, c) <= 0
  {
    if a != [] && b != [] && c != [] && a[0] == b[0] && b[0] == c[0] {
      StrCmpTransitive(a[1..], b[1..], c[1..]);
    }
  }

  /**
   * The comparator of `renderData`: strings by `StrCmp`, numbers by their
   * difference, a missing field by `NaN`, which the sort takes as 0; the
   * result is negated for a descending sort.
   */
  function Compare(cfg: SortConfig, a: Row, b: Row): (c: int)
    ensures cfg.key.Other? ==> c == 0
    ensures cfg.key == Subs && cfg.direction == Asc ==> c == a.subs - b.subs
    ensures cfg.key == Ts && cfg.direction == Desc ==> c == b.ts - a.ts
  {
    var comp := match cfg.key
      case Id => StrCmp(a.id, b.id)
      case Name => StrCmp(a.name, b.name)
      case Subs => a.subs - b.subs
      case Ts => a.ts - b.ts
      case Other(_) => 0;
    if cfg.direction == Asc then comp else -comp
  }

  /** `a` may precede `b` in the sorted list. */
  predicate Le(cfg: SortConfig, a: Row, b: Row)
  {
    Compare(cfg, a, b) <= 0
  }

  /** Every sort configuration orders the rows consistently. */
  lemma CompareIsPreorder(cfg: SortConfig)
    ensures Sorting.TotalPreorder((a: Row, b: Row) => Le(cfg, a, b))
  {
    var le := (a: Row, b: Row) => Le(cfg, a, b);
    forall a: Row, b: Row ensures le(a, b) || le(b, a) {
      StrCmpAntisymmetric(a.id, b.id);
      StrCmpAntisymmetric(a.name, b.name);
    }
    forall a: Row, b: Row, c: Row | le(a, b) && le(b, c) ensures le(a, c) {
      match cfg.key {
        case Id =>
          if cfg.direction == Asc {
            StrCmpTransitive(a.id, b.id, c.id);
          } else {
            StrCmpAntisymmetric(a.id, b.id);
            StrCmpAntisymmetric(b.id, c.id);
            StrCmpAntisymmetric(a.id, c.id);
            StrCmpTransitive(c.id, b.id, a.id);
          }
        case Name =>
          if cfg.direction == Asc {
            StrCmpTransitive(a.name, b.name, c.name);
          } else {
            StrCmpAntisymmetric(a.name, b.name);
            StrCmpAntisymmetric(b.name, c.name);
            StrCmpAntisymmetric(a.name, c.name);
            StrCmpTransitive(c.name, b.name, a.name);
          }
        case Subs =>
        case Ts =>
        case Other(_) =>
      }
    }
  }

  /** `filteredData.sort(...)` */
  function SortRows(rows: seq<Row>, cfg: SortConfig): (r: seq<Row>)
    ensures multiset(r) == multiset(rows)
    ensures Sorting.SortedBy(r, (a: Row, b: Row) => Le(cfg, a, b))
  {
    CompareIsPreorder(cfg);
    Sorting.SortBySorted(rows, (a: Row, b: Row) => Le(cfg, a, b));
    Sorting.SortBy(rows, (a: Row, b: Row) => Le(cfg, a, b))
  }

  /** An unknown sort key leaves the rows in their order. */
  lemma OtherKeyKeepsOrder(rows: seq<Row>, cfg: SortConfig)
    requires cfg.key.Other?
    ensures SortRows(rows, cfg) == rows
  {
    Sorting.SortByConstant(rows, (a: Row, b: Row) => Le(cfg, a, b));
  }

  /** The search term: the input trimmed and lower-cased. */
  function SearchTerm(input: string): (t: string)
    ensures |t| <= |input|
  {
    TrimBounds(input);
    ToLower(Trim(input))
  }

  predicate Matches(term: string, r: Row)
  {
    Contains(ToLower(r.id), term) || Contains(ToLower(r.name), term)
  }

  /**
   * The search filter: without a term every row is kept; otherwise exactly
   * the rows whose lower-cased id or name contains the term, in order.
   */
  function Filter(rows: seq<Row>, term: string): (r: seq<Row>)
    ensures term == "" ==> r == rows
    ensures term != "" ==> forall x :: x in r <==> x in rows && Matches(term, x)
    ensures |r| <= |rows|
  {
    if term == "" then rows
    else if rows == [] then []
    else
      var rest := Filter(rows[1..], term);
      assert forall x :: x in rows <==> x == rows[0] || x in rows[1..] by {
        assert rows == [rows[0]] + rows[1..];
      }
      if Matches(term, rows[0]) then [rows[0]] + rest else rest
  }

  /** Filtering keeps the order of the rows: it distributes over concatenation. */
  lemma {:induction false} FilterKeepsOrder(a: seq<Row>, b: seq<Row>, term: string)
    ensures Filter(a + b, term) == Filter(a, term) + Filter(b, term)
  {
    if term != "" && a != [] {
      assert (a + b)[0] == a[0] && (a + b)[1..] == a[1..] + b;
      FilterKeepsOrder(a[1..], b, term);
      if Matches(term, a[0]) {
        assert Filter(a + b, term) == [a[0]] + Filter(a[1..] + b, term);
        assert Filter(a, term) == [a[0]] + Filter(a[1..], term);
      } else {
        assert Filter(a + b, term) == Filter(a[1..] + b, term);
        assert Filter(a, term) == Filter(a[1..], term);
      }
    } else if term != "" {
      assert a + b == b;
    }
  }

  /** `Math.ceil(totalItems / ITEMS_PER_PAGE) || 1` */
  function TotalPages(n: nat): (p: int)
    ensures p >= 1
    ensures n > 0 ==> (p - 1) * ITEMS_PER_PAGE < n <= p * ITEMS_PER_PAGE
    ensures n == 0 ==> p == 1
  {
    if n == 0 then 1 else CeilDiv(n, ITEMS_PER_PAGE)
  }

  /** The clamp of `currentPage` into [1, totalPages]. */
  function ClampPage(page: int, totalPages: int): (p: int)
    requires totalPages >= 1
    ensures 1 <= p <= totalPages
    ensures 1 <= page <= totalPages ==> p == page
    ensures page > totalPages ==> p == totalPages
    ensures page < 1 ==> p == 1
  {
    var q := if page > totalPages then totalPages else page;
    if q < 1 then 1 else q
  }

  /** `slice((page - 1) * 15, (page - 1) * 15 + 15)` */
  function PageSlice(rows: seq<Row>, page: int): (r: seq<Row>)
    requires page >= 1
    ensures |r| <= ITEMS_PER_PAGE
    ensures forall k :: 0 <= k < |r| ==>
      (page - 1) * ITEMS_PER_PAGE + k < |rows| && r[k] == rows[(page - 1) * ITEMS_PER_PAGE + k]
    ensures (page - 1) * ITEMS_PER_PAGE + ITEMS_PER_PAGE <= |rows| ==> |r| == ITEMS_PER_PAGE
  {
    var start := (page - 1) * ITEMS_PER_PAGE;
    var s := if start < |rows| then start else |rows|;
    var e := if start + ITEMS_PER_PAGE < |rows| then start + ITEMS_PER_PAGE else |rows|;
    rows[s..e]
  }

  /**
   * Every row of the filtered, sorted list is on exactly one page, at its
   * position within the page.
   */
  lemma {:induction false} PagesCoverList(rows: seq<Row>, i: nat)
    requires i < |rows|
    ensures var p := i / ITEMS_PER_PAGE + 1;
      1 <= p <= TotalPages(|rows|) &&
      i % ITEMS_PER_PAGE < |PageSlice(rows, p)| &&
      PageSlice(rows, p)[i % ITEMS_PER_PAGE] == rows[i]
  {
    var p := i / ITEMS_PER_PAGE + 1;
    assert (p - 1) * ITEMS_PER_PAGE + i % ITEMS_PER_PAGE == i;
    assert (p - 1) * ITEMS_PER_PAGE <= i;
  }

  /** The status column. */
  datatype Status = Expired | HoursLeft(hours: int) | DaysLeft(days: int)

  /**
   * Expired when more than `ttl` has passed since `ts`; otherwise the time
   * left rounded up to hours, shown in whole days when above 24 hours.
   */
  function ExpiryStatus(now: int, ts: int, ttl: int): (s: Status)
    ensures s == Expired <==> now - ts > ttl
    ensures s.HoursLeft? ==> 0 <= s.hours <= 24
    ensures s.HoursLeft? ==> (s.hours - 1) * Config.HOUR_MS < ttl - (now - ts) <= s.hours * Config.HOUR_MS
    ensures s.DaysLeft? <==> now - ts <= ttl && ttl - (now - ts) > 24 * Config.HOUR_MS
    ensures s.DaysLeft? ==>
      s.days >= 1 && (s.days * 24 - 1) * Config.HOUR_MS < ttl - (now - ts) <= (s.days * 24 + 23) * Config.HOUR_MS
  {
    if now - ts > ttl then Expired
    else
      var timeLeft := if ttl - (now - ts) > 0 then ttl - (now - ts) else 0;
      var hoursLeft := CeilDiv(timeLeft, Config.HOUR_MS);
      if hoursLeft > 24 then DaysLeft(hoursLeft / 24) else HoursLeft(hoursLeft)
  }

  /** With the seven-day TTL and a timestamp not in the future, at most 7 days are shown. */
  lemma ExpiryWithinTtl(now: int, ts: int)
    requires ts <= now
    ensures var s := ExpiryStatus(now, ts, Config.TTL);
      s.DaysLeft? ==> s.days <= 7
  {
    var s := ExpiryStatus(now, ts, Config.TTL);
    if s.DaysLeft? {
      var timeLeft := Config.TTL - (now - ts);
      var hoursLeft := CeilDiv(timeLeft, Config.HOUR_MS);
      assert hoursLeft <= 168 by {
        assert timeLeft <= 168 * Config.HOUR_MS;
        assert (hoursLeft - 1) * Config.HOUR_MS < 168 * Config.HOUR_MS;
      }
    }
  }

  /** One rendering: the filtered and sorted rows, the pages and the clamped page. */
  datatype View = View(rows: seq<Row>, totalPages: int, page: int, pageRows: seq<Row>)

  function Render(all: seq<Row>, page: int, input: string, cfg: SortConfig): (v: View)
    ensures multiset(v.rows) == multiset(Filter(all, SearchTerm(input)))
    ensures v.totalPages == TotalPages(|v.rows|)
    ensures 1 <= v.page <= v.totalPages
    ensures Sorting.SortedBy(v.rows, (a: Row, b: Row) => Le(cfg, a, b))
    ensures v.page == ClampPage(page, v.totalPages)
    ensures v.pageRows == PageSlice(v.rows, v.page)
    ensures |v.pageRows| <= ITEMS_PER_PAGE
    ensures forall x :: x in v.pageRows ==> x in v.rows
  {
    var rows := SortRows(Filter(all, SearchTerm(input)), cfg);
    var total := TotalPages(|rows|);
    var p := ClampPage(page, total);
    View(rows, total, p, PageSlice(rows, p))
  }
}
