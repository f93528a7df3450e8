// The values the extension keeps under a channel handle, in every store it
// uses (IndexedDB, chrome.storage, the in-memory maps, backups), and the
// JavaScript truthiness and defaulting rules applied to them.

module Records {

  /**
   * A stored value as JavaScript sees it: missing (`undefined` or `null`),
   * a bare string (the version-1 format), or an object with the usual
   * `{ name, subs, ts }` fields. In an `Entry`, the empty name stands for a
   * missing or empty `name` field and 0 for a missing `subs` or `ts` field,
   * so that `x.name || ...` and `x.ts || ...` read the same as in the source.
   */
  datatype Raw = Absent | Bare(text: string) | Entry(name: string, subs: int, ts: int)

  /** `if (value)`: objects are always truthy, strings when non-empty. */
  predicate Truthy(v: Raw)
  {
    match v
    case Absent => false
    case Bare(t) => t != ""
    case Entry(_, _, _) => true
  }

  /** `value.name`, with "" for a missing field (a string has no `name`). */
  function NameField(v: Raw): string
  {
    if v.Entry? then v.name else ""
  }

  /** `value.subs || 0` */
  function SubsOf(v: Raw): int
  {
    if v.Entry? then v.subs else 0
  }

  /** `value.ts || 0` */
  function TsOf(v: Raw): int
  {
    if v.Entry? then v.ts else 0
  }

  /**
   * `value.name || (typeof value === "string" ? value : null)`: the display
   * name of a stored value in either format, "" when it has none.
   */
  function NameOf(v: Raw): (n: string)
    ensures v.Entry? && v.name != "" ==> n == v.name
    ensures v.Bare? ==> n == v.text
    ensures v.Absent? ==> n == ""
  {
    match v
    case Absent => ""
    case Bare(t) => t
    case Entry(n, _, _) => n
  }
}
