// The older content-script scanner (js/main.js): how an element's text is
// classified (a handle followed by text, a bare handle, an element already
// marked with a handle, or a plain name), when a rewritten element is
// skipped, the per-handle map of elements waiting for a fetch, and the
// guarded, truncated rendering.
//
// The element's `dataset` is a set of fields of `Node`; the renderer of the
// tooltip manager is recorded as the rendering it is asked for. The cache
// lookup and the fetch are parameters and a log of requests; the random
// jitter is a parameter in [0, 1).

module MainScanner {

  import opened Common
  import Scanner
  import Config
  import DataBridge

  /** `isHandle(text)`: starts with '@' and has at least two characters; spaces are allowed. */
  predicate IsHandle(t: string)
  {
    StartsWith(t, "@") && |t| >= 2
  }

  /** The two handle rules differ: this one accepts white space, the newer scanner's does not. */
  lemma HandleRulesDiffer()
    ensures IsHandle("@a b") && !Scanner.IsHandle("@a b")
    ensures forall t :: Scanner.IsHandle(t) ==> IsHandle(t)
  {
    assert IsWhitespace("@a b"[2]);
  }

  /** How `processNode` reads an element. */
  datatype Reading =
    | Mixed(handle: string, suffix: string)   // a handle, white space and more text (a poll line)
    | Pure(handle: string)                    // the text is a handle
    | Marked(handle: string)                  // the element carries `rnHandle`
    | Plain                                   // a display name: only the tooltip is attached

  /**
   * The case analysis of `processNode` on the trimmed text and the
   * `rnHandle` mark ("" when there is none).
   */
  function Classify(rawText: string, rnHandle: string): (r: Reading)
    ensures r.Mixed? <==>
      Scanner.WrapperHandle(rawText).Some? && |rawText| > |Scanner.WrapperHandle(rawText).value|
    ensures r.Mixed? ==> rawText == r.handle + r.suffix && r.suffix != [] && r.suffix[0] == ' ' && ' ' !in r.handle
    ensures r.Pure? <==>
      !(Scanner.WrapperHandle(rawText).Some? && |rawText| > |Scanner.WrapperHandle(rawText).value|) && IsHandle(rawText)
    ensures r.Pure? ==> r.handle == rawText
    ensures r.Marked? <==> !r.Mixed? && !IsHandle(rawText) && rnHandle != ""
    ensures r.Marked? ==> r.handle == rnHandle
  {
    var m := Scanner.WrapperHandle(rawText);
    if m.Some? && |rawText| > |m.value| && IsWhitespace(rawText[|m.value|]) then
      assert rawText == m.value + rawText[|m.value|..];
      Mixed(m.value, rawText[|m.value|..])
    else if IsHandle(rawText) then Pure(rawText)
    else if rnHandle != "" then Marked(rnHandle)
    else Plain
  }

  /**
   * The white-space test on the character after the handle never fails: the
   * handle run stops only at a space.
   */
  lemma MixedNeedsOnlyMoreText(rawText: string)
    requires Scanner.WrapperHandle(rawText).Some?
    requires |rawText| > |Scanner.WrapperHandle(rawText).value|
    ensures IsWhitespace(rawText[|Scanner.WrapperHandle(rawText).value|])
  {
  }

  /** A handle followed by a space and a suffix is read as that handle and that suffix. */
  lemma {:induction false} MixedSplits(h: string, suffix: string, rnHandle: string)
    requires |h| >= 2 && h[0] == '@' && ' ' !in h
    requires suffix != [] && suffix[0] == ' '
    ensures Classify(h + suffix, rnHandle) == Mixed(h, suffix)
  {
    var t := h + suffix;
    assert t[1] == h[1] && h[1] != ' ';
    var m := Scanner.WrapperHandle(t);
    assert t[|h|] == ' ';
    assert |m.value| >= |h| by {
      forall k | 0 <= k < |h| ensures t[k] != ' ' {
        assert t[k] == h[k];
      }
    }
    assert m.value == h;
  }

  /**
   * When `processNode` leaves an element alone: a mixed line already
   * rewritten for the same handle, a bare or marked handle whose element
   * shows its fresh name, and a plain name always.
   */
  predicate Skips(r: Reading, replaced: bool, target: Option<string>, showsFreshName: bool)
  {
    match r
    case Mixed(h, _) => replaced && target == Some(h)
    case Pure(_) => showsFreshName
    case Marked(_) => showsFreshName
    case Plain => true
  }

  /** The awaited answer of `NameCache.get`: `{ name, subs, isExpired }` or null. */
  type Lookup = Option<DataBridge.CachedData>

  /** What `queueForUpdate` starts: the immediate rendering, the fetch (background or not), a throw. */
  datatype QueuePlan = QueuePlan(rendered: Lookup, fetch: Option<bool>, throws: bool)

  /**
   * `queueForUpdate` as written: `NameCache.get` is asynchronous, so the
   * answer checked is a pending promise, always truthy; `applyUpdate` then
   * spreads its undefined `name` and throws before any fetch is requested.
   */
  function QueuePlanAsWritten(lookup: Lookup): QueuePlan
  {
    QueuePlan(None, None, true)
  }

  /**
   * `queueForUpdate` with the lookup awaited: a cached record is rendered
   * and, when stale, refreshed in the background; without one the handle is
   * fetched at once.
   */
  function PlanFor(lookup: Lookup): (p: QueuePlan)
    ensures !p.throws
    ensures p.rendered == lookup
    ensures p.fetch.Some? <==> lookup.None? || lookup.value.isExpired
    ensures p.fetch.Some? ==> (p.fetch.value <==> lookup.Some?)
  {
    match lookup
    case Some(d) => QueuePlan(Some(d), if d.isExpired then Some(true) else None, false)
    case None => QueuePlan(None, Some(false), false)
  }

  /** As written, no handle is ever fetched, not even one that is not cached. */
  lemma AsWrittenNeverFetches(lookup: Lookup)
    ensures QueuePlanAsWritten(lookup).fetch.None? && QueuePlanAsWritten(lookup).throws
    ensures PlanFor(None).fetch == Some(false)
  {
  }

  /** The rendering `applyUpdate` asks `renderText` for. */
  datatype Rendering = Rendering(handle: string, displayName: string, fullName: string, subs: int, isExpired: bool)

  /** A `NameFetcher.enqueue` call and the delay it was scheduled with. */
  datatype FetchCall = FetchCall(handle: string, background: bool, delay: real)

  /** The delay of a fetch: 3000 ms plus up to 3000 ms of jitter in the background, none otherwise. */
  function DelayFor(isBackground: bool, random: real): (d: real)
    requires 0.0 <= random < 1.0
    ensures isBackground ==> 3000.0 <= d < 6000.0
    ensures !isBackground ==> d == 0.0
  {
    if isBackground then 3000.0 + random * 3000.0 else 0.0
  }

  class Node {
    var connected: bool
    /** The element's text; the renderer's rewriting of it is not modelled. */
    const textContent: string
    /** `rnReplaced === "yes"` */
    var replaced: bool
    /** `rnExpired === "true"` */
    var expired: bool
    /** `rnName`, "" when missing; set by the renderer, fixed here */
    const rnName: string
    /** `rnHandle`, "" when missing; set by the renderer, fixed here */
    const rnHandle: string
    /** `rnTargetHandle` */
    var target: Option<string>
    /** `rnSuffix` */
    var suffix: Option<string>
    /** The renderings asked for, oldest first. */
    var shown: seq<Rendering>

    constructor (isConnected: bool, text: string, name: string, mark: string)
      ensures connected == isConnected && textContent == text && rnName == name && rnHandle == mark
      ensures !replaced && !expired && target.None? && suffix.None? && shown == []
    {
      connected, textContent, rnName, rnHandle := isConnected, text, name, mark;
      replaced, expired, target, suffix, shown := false, false, None, None, [];
    }

    /**
     * The skip rule for a bare or marked handle: rewritten, fresh, and still
     * showing the cached name (a recycled element shows something else).
     */
    predicate ShowsFreshName()
      reads this`replaced, this`expired
    {
      replaced && !expired && textContent == rnName
    }
  }

  class LegacyScanner {
    /** `pendingUpdates`: the elements waiting for each handle's fetch. */
    var pending: map<string, set<Node>>
    /** The fetches requested, oldest first. */
    var fetches: seq<FetchCall>
    var maxLength: nat

    constructor ()
      ensures pending == map[] && fetches == [] && maxLength == Config.DEFAULT_MAX_LENGTH
    {
      pending, fetches, maxLength := map[], [], Config.DEFAULT_MAX_LENGTH;
    }

    /** The elements waiting for `handle`. */
    function Waiting(handle: string): (s: set<Node>)
      reads this`pending
      ensures handle !in pending ==> s == {}
      ensures handle in pending ==> s == pending[handle]
    {
      if handle in pending then pending[handle] else {}
    }

    /** The stored or changed `maxLength` setting, already parsed: a missing or zero value is ignored. */
    method ApplySettings(stored: Option<nat>)
      modifies this`maxLength
      ensures stored.Some? && stored.value != 0 ==> maxLength == stored.value
      ensures stored.None? || stored.value == 0 ==> maxLength == old(maxLength)
    {
      if stored.Some? && stored.value != 0 {
        maxLength := stored.value;
      }
    }

    /**
     * `applyUpdate(el, handle, data)`: nothing when the element is locked on
     * another handle; otherwise it asks for the truncated name.
     */
    method ApplyUpdate(el: Node, handle: string, data: DataBridge.CachedData)
      modifies el`shown
      ensures old(el.target).Some? && old(el.target).value != handle ==> el.shown == old(el.shown)
      ensures old(el.target).None? || old(el.target).value == handle ==>
        el.shown == old(el.shown) +
          [Rendering(handle, Scanner.Truncate(data.name, maxLength), data.name, data.subs, data.isExpired)]
    {
      if el.target.Some? && el.target.value != handle {
        return;
      }
      var displayName := data.name;
      var fullName := data.name;
      if |displayName| > maxLength {
        displayName := displayName[..maxLength] + "...";
      }
      el.shown := el.shown + [Rendering(handle, displayName, fullName, data.subs, data.isExpired)];
    }

    /**
     * `fetchData(handle, el, isBackground)`: the element joins the handle's
     * waiting set, created when missing, and the fetch is scheduled.
     */
    method FetchData(handle: string, el: Node, isBackground: bool, random: real)
      requires 0.0 <= random < 1.0
      modifies this`pending, this`fetches
      ensures pending == old(pending)[handle := old(Waiting(handle)) + {el}]
      ensures fetches == old(fetches) + [FetchCall(handle, isBackground, DelayFor(isBackground, random))]
    {
      if handle !in pending {
        pending := pending[handle := {}];
      }
      pending := pending[handle := pending[handle] + {el}];
      fetches := fetches + [FetchCall(handle, isBackground, DelayFor(isBackground, random))];
    }

    /**
     * `queueForUpdate(handle, el)` with the awaited lookup: the element is
     * locked on the handle, a cached record is rendered, and a missing or
     * stale one is fetched.
     */
    method QueueForUpdate(handle: string, el: Node, lookup: Lookup, random: real)
      requires 0.0 <= random < 1.0
      modifies el`target, el`shown, this`pending, this`fetches
      ensures el.target == Some(handle)
      ensures lookup.Some? ==>
        el.shown == old(el.shown) + [Rendering(handle, Scanner.Truncate(lookup.value.name, maxLength),
                                               lookup.value.name, lookup.value.subs, lookup.value.isExpired)]
      ensures lookup.None? ==> el.shown == old(el.shown)
      ensures PlanFor(lookup).fetch.None? ==> pending == old(pending) && fetches == old(fetches)
      ensures PlanFor(lookup).fetch.Some? ==>
        var background := PlanFor(lookup).fetch.value;
        pending == old(pending)[handle := old(Waiting(handle)) + {el}] &&
        fetches == old(fetches) + [FetchCall(handle, background, DelayFor(background, random))]
    {
      el.target := Some(handle);
      if lookup.Some? {
        ApplyUpdate(el, handle, lookup.value);
        if lookup.value.isExpired {
          FetchData(handle, el, true, random);
        }
      } else {
        FetchData(handle, el, false, random);
      }
    }

    /**
     * `processNode(el)`: classify the trimmed text; a mixed line stores its
     * suffix and is skipped when already rewritten for the same handle; a
     * bare or marked handle is skipped while the element shows its fresh
     * name; everything else is queued. Returns the reading and the handle
     * queued.
     */
    method ProcessNode(el: Node, lookup: Lookup, random: real) returns (reading: Reading, queued: Option<string>)
      requires 0.0 <= random < 1.0
      modifies el`suffix, el`target, el`shown, this`pending, this`fetches
      ensures reading == Classify(Trim(el.textContent), el.rnHandle)
      ensures queued.Some? <==> !Skips(reading, el.replaced, old(el.target), old(el.ShowsFreshName()))
      ensures queued.Some? ==> queued.value == reading.handle && el.target == queued
      ensures queued.Some? && lookup.None? ==> el.shown == old(el.shown)
      ensures queued.Some? && lookup.Some? ==>
        el.shown == old(el.shown) + [Rendering(queued.value, Scanner.Truncate(lookup.value.name, maxLength),
                                               lookup.value.name, lookup.value.subs, lookup.value.isExpired)]
      ensures reading.Mixed? ==> el.suffix == Some(reading.suffix)
      ensures reading.Pure? ==> el.suffix == None
      ensures !reading.Mixed? && !reading.Pure? ==> el.suffix == old(el.suffix)
      ensures queued.None? ==>
        el.target == old(el.target) && el.shown == old(el.shown) && pending == old(pending) && fetches == old(fetches)
      ensures queued.Some? ==>
        var fetch := PlanFor(lookup).fetch;
        (fetch.None? ==> pending == old(pending) && fetches == old(fetches)) &&
        (fetch.Some? ==>
          pending == old(pending)[queued.value := old(Waiting(queued.value)) + {el}] &&
          fetches == old(fetches) + [FetchCall(queued.value, fetch.value, DelayFor(fetch.value, random))])
    {
      var rawText := Trim(el.textContent);
      reading := Classify(rawText, el.rnHandle);
      // the suffix bookkeeping comes first and does not affect the skip rule
      var showsFresh := el.ShowsFreshName();
      if reading.Mixed? {
        el.suffix := Some(reading.suffix);
      } else if reading.Pure? && el.suffix.Some? {
        el.suffix := None;
      }
      if Skips(reading, el.replaced, el.target, showsFresh) {
        return reading, None;
      }
      QueueForUpdate(reading.handle, el, lookup, random);
      queued := Some(reading.handle);
    }

    /**
     * `flushUpdates(handle, data)`: with data, every element waiting for the
     * handle gets it (each through the retarget guard); in every case the
     * handle's entry is removed.
     */
    method FlushUpdates(handle: string, data: Lookup)
      modifies this`pending, Waiting(handle)`shown
      ensures pending == old(pending) - {handle}
      ensures data.None? ==> forall n :: n in old(Waiting(handle)) ==> n.shown == old(n.shown)
      ensures data.Some? ==> forall n :: n in old(Waiting(handle)) ==>
        n.shown == old(n.shown) + Applied(n.target, handle, data.value, maxLength)
    {
      var elements := Waiting(handle);
      if data.Some? {
        var todo := elements;
        while todo != {}
          invariant todo <= elements
          invariant pending == old(pending) && elements == old(Waiting(handle))
          invariant forall n :: n in todo ==> n.shown == old(n.shown)
          invariant forall n :: n in elements - todo ==>
            n.shown == old(n.shown) + Applied(n.target, handle, data.value, maxLength)
          invariant forall n :: n in elements ==> n.target == old(n.target)
          decreases todo
        {
          var n :| n in todo;
          ApplyUpdate(n, handle, data.value);
          todo := todo - {n};
        }
      }
      pending := pending - {handle};
    }
  }

  /** The renderings `applyUpdate` adds to an element locked on `target`. */
  function Applied(target: Option<string>, handle: string, data: DataBridge.CachedData, maxLength: nat): (r: seq<Rendering>)
    ensures target.Some? && target.value != handle ==> r == []
    ensures target.None? || target.value == handle ==>
      r == [Rendering(handle, Scanner.Truncate(data.name, maxLength), data.name, data.subs, data.isExpired)]
  {
    if target.Some? && target.value != handle then []
    else [Rendering(handle, Scanner.Truncate(data.name, maxLength), data.name, data.subs, data.isExpired)]
  }

  /**
   * Two elements showing the same uncached handle share one waiting set;
   * when the fetch answers, both are rendered and the set is gone.
   */
  method SharedFetchScenario(handle: string, data: DataBridge.CachedData)
    returns (a: Node, b: Node, s: LegacyScanner)
    requires IsHandle(handle) && !IsWhitespace(handle[0]) && !IsWhitespace(handle[|handle| - 1])
    requires Scanner.WrapperHandle(handle).Some? ==> |handle| <= |Scanner.WrapperHandle(handle).value|
    ensures handle !in s.pending
    ensures |a.shown| == 1 && |b.shown| == 1 && a.shown == b.shown
    ensures |s.fetches| == 2 && s.fetches[0].handle == handle && !s.fetches[0].background
  {
    s := new LegacyScanner();
    a := new Node(true, handle, "", "");
    b := new Node(true, handle, "", "");
    Scanner.TrimKeeps(handle);
    assert Classify(handle, "") == Pure(handle);
    var ra, qa := s.ProcessNode(a, None, 0.0);
    assert a.target == Some(handle) && a.shown == [];
    var rb, qb := s.ProcessNode(b, None, 0.0);
    assert b.target == Some(handle) && b.shown == [] && a.shown == [];
    assert s.Waiting(handle) == {a, b};
    s.FlushUpdates(handle, Some(data));
    assert a.shown == Applied(Some(handle), handle, data, s.maxLength);
    assert b.shown == Applied(Some(handle), handle, data, s.maxLength);
  }
}
