// The page scanner of the content script (js/content/scanner.js): which
// handle an element shows, when an element already rewritten is skipped,
// the per-element flags that guard the asynchronous update, the truncation
// of the displayed name, and the batching of mutated nodes.
//
// An element is a `Node` object with the flags its `dataset` carries; the
// DOM traversal (`scanDeep`), the selectors' matching and the renderers of
// the tooltip manager are outside the model: `matches` stands for
// `el.matches`, and a rendering is recorded in `shown`.

module Scanner {

  import opened Common
  import Config
  import DataBridge

  /** The render modes `"1"`, `"2"` and `"3"`. */
  datatype Mode = Standard | Wrapper | Embedded

  datatype TargetConfig = TargetConfig(sel: string, mode: Mode)

  /** `targetConfigs`, in order: the first matching selector decides the mode. */
  const TARGET_CONFIGS: seq<TargetConfig> := [
    TargetConfig("ytd-pinned-comment-badge-renderer #label", Embedded),
    TargetConfig("yt-live-chat-banner-redirect-renderer #banner-text span", Embedded),
    TargetConfig("yt-gift-message-view-model #author-name", Standard),
    TargetConfig("yt-live-chat-banner-poll-renderer #metadata-text", Wrapper),
    TargetConfig("yt-live-chat-poll-header-renderer .metadata", Wrapper),
    TargetConfig("ytd-comment-renderer #author-text span", Standard),
    TargetConfig("ytd-comment-view-model #author-text span", Standard),
    TargetConfig("ytd-comment-view-model h3 > a", Standard),
    TargetConfig("ytd-author-comment-badge-renderer #text", Standard),
    TargetConfig("yt-live-chat-ticker-paid-message-item-renderer #text", Standard),
    TargetConfig("yt-live-chat-ticker-sponsor-item-renderer #text", Standard),
    TargetConfig("yt-live-chat-pinned-message-renderer #author-name", Standard),
    TargetConfig("yt-live-chat-text-message-renderer #author-name", Standard),
    TargetConfig("yt-live-chat-paid-message-renderer #author-name", Standard),
    TargetConfig("yt-live-chat-author-chip #author-name", Standard),
    TargetConfig("yt-live-chat-membership-item-renderer #author-name", Standard),
    TargetConfig("ytd-sponsorships-live-chat-gift-purchase-announcement-renderer #author-name", Standard),
    TargetConfig("ytd-sponsorships-live-chat-gift-redemption-announcement-renderer #author-name", Standard),
    TargetConfig("yt-live-chat-call-for-questions-renderer #author-name", Standard)
  ]

  /** `targetConfigs.find(c => el.matches(c.sel))`, as the mode of the found config. */
  function FindMode(configs: seq<TargetConfig>, matches: string -> bool): (m: Option<Mode>)
    ensures m.None? <==> forall i :: 0 <= i < |configs| ==> !matches(configs[i].sel)
    ensures m.Some? ==>
      exists i :: 0 <= i < |configs| && matches(configs[i].sel) && configs[i].mode == m.value &&
        forall j :: 0 <= j < i ==> !matches(configs[j].sel)
  {
    if configs == [] then None
    else if matches(configs[0].sel) then Some(configs[0].mode)
    else
      var r := FindMode(configs[1..], matches);
      assert forall i :: 1 <= i < |configs| ==> configs[i] == configs[1..][i - 1];
      if r.Some? then
        var i :| 0 <= i < |configs[1..]| && matches(configs[1..][i].sel) && configs[1..][i].mode == r.value &&
          forall j :: 0 <= j < i ==> !matches(configs[1..][j].sel);
        assert matches(configs[i + 1].sel) && configs[i + 1].mode == r.value;
        assert forall j :: 0 <= j < i + 1 ==> !matches(configs[j].sel) by {
          forall j | 0 <= j < i + 1 ensures !matches(configs[j].sel) {
            if j > 0 {
              assert configs[j] == configs[1..][j - 1];
            }
          }
        }
        r
      else r
  }

  /** `/^@[^\s]+$/`: '@' and then one or more characters, none of them whitespace. */
  predicate IsHandle(t: string)
  {
    |t| >= 2 && t[0] == '@' && forall i :: 1 <= i < |t| ==> !IsWhitespace(t[i])
  }

  /** `\w` */
  predicate WordChar(c: char)
  {
    ('a' <= c <= 'z') || ('A' <= c <= 'Z') || ('0' <= c <= '9') || c == '_'
  }

  /** `[\w\-\.]` */
  predicate EmbeddedChar(c: char)
  {
    WordChar(c) || c == '-' || c == '.'
  }

  /** The length of the longest run of characters satisfying the mode's class from `i` on. */
  function RunLength(s: string, i: nat, wrapper: bool): (n: nat)
    requires i <= |s|
    ensures i + n <= |s|
    ensures forall k :: i <= k < i + n ==> (if wrapper then s[k] != ' ' else EmbeddedChar(s[k]))
    ensures i + n < |s| ==> !(if wrapper then s[i + n] != ' ' else EmbeddedChar(s[i + n]))
    decreases |s| - i
  {
    if i < |s| && (if wrapper then s[i] != ' ' else EmbeddedChar(s[i])) then 1 + RunLength(s, i + 1, wrapper)
    else 0
  }

  /** Where the first match of `@[\w\-\.]+` starts at or after `from`. */
  function EmbeddedStart(s: string, from: nat): (r: Option<nat>)
    requires from <= |s|
    ensures r.Some? ==> from <= r.value && r.value + 1 < |s| && s[r.value] == '@' && EmbeddedChar(s[r.value + 1])
    ensures r.Some? ==> forall k :: from <= k < r.value ==> !(k + 1 < |s| && s[k] == '@' && EmbeddedChar(s[k + 1]))
    ensures r.None? ==> forall k :: from <= k < |s| ==> !(k + 1 < |s| && s[k] == '@' && EmbeddedChar(s[k + 1]))
    decreases |s| - from
  {
    if from == |s| then None
    else if from + 1 < |s| && s[from] == '@' && EmbeddedChar(s[from + 1]) then Some(from)
    else EmbeddedStart(s, from + 1)
  }

  /** EMBEDDED: the first `@[\w\-\.]+` anywhere in the text. */
  function EmbeddedHandle(text: string): (h: Option<string>)
    ensures h.Some? ==> |h.value| >= 2 && h.value[0] == '@' && Contains(text, h.value)
    ensures h.Some? ==> forall k :: 1 <= k < |h.value| ==> EmbeddedChar(h.value[k])
    ensures h.None? <==> forall k :: 0 <= k < |text| - 1 ==> !(text[k] == '@' && EmbeddedChar(text[k + 1]))
  {
    match EmbeddedStart(text, 0)
    case None => None
    case Some(i) =>
      var n := RunLength(text, i + 1, false);
      assert text[i..i + 1 + n] <= text[i..];
      Some(text[i..i + 1 + n])
  }

  /** WRAPPER: `^(@[^ ]+)`, the leading '@' and the characters up to the first space. */
  function WrapperHandle(text: string): (h: Option<string>)
    ensures h.Some? <==> |text| >= 2 && text[0] == '@' && text[1] != ' '
    ensures h.Some? ==> h.value <= text && ' ' !in h.value
    ensures h.Some? ==> |h.value| == |text| || text[|h.value|] == ' '
  {
    if |text| >= 2 && text[0] == '@' && text[1] != ' ' then
      var n := RunLength(text, 1, true);
      Some(text[..1 + n])
    else None
  }

  /** The handle an element of the given mode shows in its trimmed text. */
  function HandleOf(mode: Mode, rawText: string): (h: Option<string>)
    ensures mode == Standard ==> (h.Some? <==> IsHandle(rawText)) && (h.Some? ==> h.value == rawText)
    ensures mode == Wrapper ==> h == WrapperHandle(rawText)
    ensures mode == Embedded ==> h == EmbeddedHandle(rawText)
    ensures h.Some? ==> |h.value| >= 2 && h.value[0] == '@'
  {
    match mode
    case Embedded => EmbeddedHandle(rawText)
    case Wrapper => WrapperHandle(rawText)
    case Standard => if IsHandle(rawText) then Some(rawText) else None
  }

  /** `handle.split("\n")[0].trim()` when the handle spans lines. */
  function FirstLine(s: string): (r: string)
    ensures '\n' !in r
    ensures '\n' !in s ==> r == s
    ensures |r| <= |s|
  {
    if '\n' in s then
      var i := FirstIndex(s, '\n');
      TrimBounds(s[..i]);
      TrimNoNewline(s[..i]);
      Trim(s[..i])
    else s
  }

  function FirstIndex(s: string, c: char): (i: nat)
    requires c in s
    ensures i < |s| && s[i] == c && c !in s[..i]
  {
    if s[0] == c then 0
    else
      assert c in s[1..] by {
        var k :| 0 <= k < |s| && s[k] == c;
        assert s[1..][k - 1] == c;
      }
      var j := FirstIndex(s[1..], c);
      assert s[..j + 1] == [s[0]] + s[1..][..j];
      j + 1
  }

  lemma TrimNoNewline(s: string)
    requires '\n' !in s
    ensures '\n' !in Trim(s)
  {
    var t := TrimStart(s);
    SuffixPrefixLacks(s, t, TrimEnd(t), '\n');
  }

  /** A prefix of a suffix of a text lacks every character the text lacks. */
  lemma SuffixPrefixLacks(s: string, t: string, r: string, c: char)
    requires c !in s
    requires |t| <= |s| && t == s[|s| - |t|..]
    requires |r| <= |t| && r == t[..|r|]
    ensures c !in r
  {
    forall k | 0 <= k < |r| ensures r[k] != c {
      assert r[k] == t[k];
      assert t[k] == s[|s| - |t| + k];
    }
  }

  /** Text with no white space at either end is its own trim. */
  lemma TrimKeeps(s: string)
    requires s == [] || (!IsWhitespace(s[0]) && !IsWhitespace(s[|s| - 1]))
    ensures Trim(s) == s
  {
    assert TrimStart(s) == s;
  }

  /**
   * The display name: the name itself when it has at most `maxLength` code
   * points, otherwise its first `maxLength` code points and "...".
   */
  function Truncate(name: string, maxLength: nat): (d: string)
    ensures |name| <= maxLength ==> d == name
    ensures |name| > maxLength ==> d == name[..maxLength] + "..."
  {
    if |name| > maxLength then name[..maxLength] + "..." else name
  }

  /** A display name has at most `maxLength + 3` code points and starts like the name. */
  lemma TruncateBounds(name: string, maxLength: nat)
    ensures |Truncate(name, maxLength)| <= maxLength + 3
    ensures |Truncate(name, maxLength)| <= |name| || |name| > maxLength
    ensures var d := Truncate(name, maxLength); var k := if |name| < maxLength then |name| else maxLength;
      name[..k] <= d
  {
  }

  /**
   * The display name differs from the full name, and the full name goes to
   * the tooltip, exactly when the name is longer than `maxLength` and does
   * not already end in "..." right after the cut.
   */
  lemma TruncateChanges(name: string, maxLength: nat)
    ensures Truncate(name, maxLength) != name <==> |name| > maxLength && name[maxLength..] != "..."
  {
    if |name| > maxLength {
      assert name == name[..maxLength] + name[maxLength..];
      if name[..maxLength] + "..." == name {
        assert name[maxLength..] == (name[..maxLength] + "...")[maxLength..];
      }
    }
  }

  /** The handle an element shows: the mode of its first matching selector applied to its trimmed text. */
  function ElementHandle(configs: seq<TargetConfig>, matches: string -> bool, text: string): (h: Option<string>)
    ensures FindMode(configs, matches).None? ==> h.None?
    ensures FindMode(configs, matches).Some? ==> h == HandleOf(FindMode(configs, matches).value, Trim(text))
  {
    var mode := FindMode(configs, matches);
    if mode.None? then None else HandleOf(mode.value, Trim(text))
  }

  /** The handle an element yields occurs in the element's text. */
  lemma HandleInText(configs: seq<TargetConfig>, matches: string -> bool, text: string)
    requires ElementHandle(configs, matches, text).Some?
    ensures Contains(text, ElementHandle(configs, matches, text).value)
  {
    var mode := FindMode(configs, matches).value;
    var r := Trim(text);
    var h := HandleOf(mode, r).value;
    var i: nat := 0;
    if mode == Embedded {
      i :| 0 <= i <= |r| && h <= r[i..];
    }
    InTrimmed(text, h, i);
  }

  /** A piece of the trimmed text is a piece of the text. */
  lemma InTrimmed(text: string, h: string, i: nat)
    requires i <= |Trim(text)| && h <= Trim(text)[i..]
    ensures Contains(text, h)
  {
    var t := TrimStart(text);
    var r := TrimEnd(t);
    var off := |text| - |t|;
    forall k | 0 <= k < |h| ensures h[k] == text[off + i + k] {
      assert h[k] == r[i + k] == t[i + k];
    }
    assert h <= text[off + i..];
  }

  /**
   * What a renderer of the tooltip manager puts into an element: the
   * renderer chosen by the mode, the handle, the (truncated) display name,
   * the full name, the subscriber count and the staleness mark.
   */
  datatype Rendering = Rendering(mode: Mode, handle: string, displayName: string, fullName: string,
                                 subs: int, isExpired: bool)

  /** The rendering `applyUpdate` asks for: the element's mode, STANDARD when it has none. */
  function RenderingOf(mode: Option<Mode>, handle: string, data: DataBridge.CachedData, maxLength: nat): (r: Rendering)
    ensures r.mode == (if mode.Some? then mode.value else Standard)
    ensures r.handle == handle && r.fullName == data.name && r.subs == data.subs && r.isExpired == data.isExpired
    ensures r.displayName == Truncate(data.name, maxLength)
  {
    Rendering(if mode.Some? then mode.value else Standard, handle, Truncate(data.name, maxLength), data.name,
              data.subs, data.isExpired)
  }

  /** `el.dataset.rnMode || STANDARD` */
  function EffectiveMode(mode: Option<Mode>): Mode
  {
    if mode.Some? then mode.value else Standard
  }

  /**
   * Whether the renderer of the mode rewrites the scanned element: STANDARD
   * only a connected one, WRAPPER always, EMBEDDED only one not yet
   * rewritten whose text still contains the handle.
   */
  predicate Rewrites(mode: Mode, connected: bool, replaced: bool, text: string, handle: string)
  {
    match mode
    case Standard => connected
    case Wrapper => true
    case Embedded => !replaced && Contains(text, handle)
  }

  /**
   * Whether the expiry mark lands on the scanned element itself: only in
   * STANDARD mode, by the renderer when the element is connected and by the
   * extra full-name attach when the name was truncated. The other renderers
   * attach the data to an inner node.
   */
  predicate MarksElement(mode: Mode, connected: bool, truncated: bool)
  {
    mode == Standard && (connected || truncated)
  }

  /** An element and the flags of its `dataset`. */
  class Node {
    var connected: bool
    var mode: Option<Mode>
    /** `rnReplaced === "yes"`: a renderer has rewritten the element. */
    var replaced: bool
    /** `rnExpired === "true"` */
    var expired: bool
    /** `rnFetching === "true"` */
    var fetching: bool
    /** `rnTargetHandle` */
    var target: Option<string>
    /** The last rendering. */
    var shown: Option<Rendering>

    constructor (isConnected: bool)
      ensures connected == isConnected && mode.None? && !replaced && !expired && !fetching
      ensures target.None? && shown.None?
    {
      connected := isConnected;
      mode, replaced, expired, fetching, target, shown := None, false, false, false, None, None;
    }

    /**
     * The skip rule for an element already rewritten for `handle`: its data
     * is fresh, or a fetch for it is still under way.
     */
    predicate Skips(handle: string)
      reads this`replaced, this`expired, this`fetching, this`target
    {
      replaced && target == Some(handle) && (!expired || fetching)
    }
  }

  class PageScanner {
    /** The nodes queued by the mutation observer. */
    var queue: set<Node>
    /** Whether the batch timer is pending. */
    var timerArmed: bool
    var maxLength: nat
    /** `this.targetConfigs` */
    const configs: seq<TargetConfig>

    constructor ()
      ensures queue == {} && !timerArmed && maxLength == Config.DEFAULT_MAX_LENGTH && configs == TARGET_CONFIGS
    {
      queue, timerArmed, maxLength, configs := {}, false, Config.DEFAULT_MAX_LENGTH, TARGET_CONFIGS;
    }

    /**
     * The stored or changed `maxLength` setting, already parsed: a missing
     * or zero value leaves the current length.
     */
    method ApplySettings(stored: Option<nat>)
      modifies this`maxLength
      ensures stored.Some? && stored.value != 0 ==> maxLength == stored.value
      ensures stored.None? || stored.value == 0 ==> maxLength == old(maxLength)
    {
      if stored.Some? && stored.value != 0 {
        maxLength := stored.value;
      }
    }

    /**
     * `handleMutations`: the relevant added nodes and the parents of
     * changed targets join the queue, and the batch timer is armed if it is
     * not already.
     */
    method HandleMutations(relevant: set<Node>)
      modifies this`queue, this`timerArmed
      ensures queue == old(queue) + relevant
      ensures timerArmed == (old(timerArmed) || relevant != {})
    {
      queue := queue + relevant;
      if relevant != {} && !timerArmed {
        timerArmed := true;
      }
    }

    /** The batch timer fires: the queue is processed and the timer disarmed. */
    method OnBatchTimer() returns (scanned: set<Node>)
      modifies this`queue, this`timerArmed
      ensures queue == {} && !timerArmed
      ensures scanned == set n | n in old(queue) && n.connected
    {
      scanned := ProcessMutationQueue();
      timerArmed := false;
    }

    /**
     * `processNode(el)` for an element whose text is `text`: the config
     * decides the mode, the mode the handle; an element that skips the
     * handle stays as it is, otherwise the update starts. Returns the
     * handle passed to `getData`, if any.
     */
    method ProcessNode(el: Node, matches: string -> bool, text: string) returns (requested: Option<string>)
      modifies el`mode, el`target, el`fetching, el`expired
      ensures FindMode(configs, matches).None? ==> requested.None? && unchanged(el)
      ensures FindMode(configs, matches).Some? ==> el.mode == FindMode(configs, matches)
      ensures requested.Some? <==>
        ElementHandle(configs, matches, text).Some? && !old(el.Skips(ElementHandle(configs, matches, text).value))
      ensures requested.Some? ==>
        requested == Some(FirstLine(ElementHandle(configs, matches, text).value)) && el.target == requested && el.fetching
      ensures requested.None? ==> el.target == old(el.target) && el.fetching == old(el.fetching)
      ensures FindMode(configs, matches) == Some(Standard) && ElementHandle(configs, matches, text).None? && !old(el.replaced)
        ==> !el.expired
      ensures el.expired == old(el.expired) ||
        (FindMode(configs, matches) == Some(Standard) && ElementHandle(configs, matches, text).None? && !old(el.replaced))
    {
      var mode := FindMode(configs, matches);
      if mode.None? {
        return None;
      }
      var rawText := Trim(text);
      el.mode := mode;
      var handle := HandleOf(mode.value, rawText);
      if handle.None? {
        // the bare-text attach of a STANDARD element clears its expiry mark
        if mode.value == Standard && !el.replaced {
          el.expired := false;
        }
        return None;
      }
      if |handle.value| <= 1 {
        return None;
      }
      if el.replaced {
        if !el.expired && el.target == handle {
          return None;
        }
        if el.fetching && el.target == handle {
          return None;
        }
      }
      requested := UpdateElement(handle.value, el);
    }

    /** `updateElement(handle, el)`: mark the target and the fetch, then ask `getData`. */
    method UpdateElement(handle: string, el: Node) returns (requested: Option<string>)
      modifies el`target, el`fetching
      ensures requested == Some(FirstLine(handle)) && el.target == requested && el.fetching
    {
      var h := FirstLine(handle);
      el.target := Some(h);
      el.fetching := true;
      requested := Some(h);
    }

    /**
     * The `getData` callback for `handle`, the element's text being `text`
     * when it arrives: ignored when the element left the page or was
     * retargeted; null data only ends the fetch; fresh data ends it too;
     * stale data keeps it, as a second answer follows. Data is rendered with
     * the truncated name.
     */
    method OnData(el: Node, handle: string, data: Option<DataBridge.CachedData>, text: string)
      modifies el`fetching, el`replaced, el`expired, el`shown
      ensures !old(el.connected) || old(el.target) != Some(handle) ==> unchanged(el)
      ensures old(el.connected) && old(el.target) == Some(handle) && data.None? ==>
        !el.fetching && el.replaced == old(el.replaced) && el.expired == old(el.expired) && el.shown == old(el.shown)
      ensures old(el.connected) && old(el.target) == Some(handle) && data.Some? ==>
        (el.fetching <==> old(el.fetching) && data.value.isExpired) &&
        el.expired == (if EffectiveMode(el.mode) == Standard then data.value.isExpired else old(el.expired)) &&
        (Rewrites(EffectiveMode(el.mode), true, old(el.replaced), text, handle) ==>
          el.replaced && el.shown == Some(RenderingOf(el.mode, handle, data.value, maxLength))) &&
        (!Rewrites(EffectiveMode(el.mode), true, old(el.replaced), text, handle) ==>
          el.replaced == old(el.replaced) && el.shown == old(el.shown))
    {
      if !el.connected || el.target != Some(handle) {
        return;
      }
      if data.None? {
        el.fetching := false;
        return;
      }
      if !data.value.isExpired {
        el.fetching := false;
      }
      ApplyUpdate(el, handle, data.value, text);
    }

    /**
     * `applyUpdate`: the renderer of the element's mode shows the display
     * name and marks the element rewritten, unless it declines (a
     * disconnected STANDARD element, an EMBEDDED element already rewritten
     * or no longer showing the handle); only in STANDARD mode does the
     * element itself carry the expiry mark.
     */
    method ApplyUpdate(el: Node, handle: string, data: DataBridge.CachedData, text: string)
      modifies el`replaced, el`expired, el`shown
      ensures Rewrites(EffectiveMode(el.mode), el.connected, old(el.replaced), text, handle) ==>
        el.replaced && el.shown == Some(RenderingOf(el.mode, handle, data, maxLength))
      ensures !Rewrites(EffectiveMode(el.mode), el.connected, old(el.replaced), text, handle) ==>
        el.replaced == old(el.replaced) && el.shown == old(el.shown)
      ensures el.expired ==
        if MarksElement(EffectiveMode(el.mode), el.connected, Truncate(data.name, maxLength) != data.name)
        then data.isExpired else old(el.expired)
    {
      var displayName := data.name;
      var fullName := data.name;
      if |displayName| > maxLength {
        displayName := displayName[..maxLength] + "...";
      }
      var mode := if el.mode.Some? then el.mode.value else Standard;
      var rendering := Rendering(mode, handle, displayName, fullName, data.subs, data.isExpired);
      match mode {
        case Embedded =>
          if !el.replaced && Contains(text, handle) {
            el.shown := Some(rendering);
            el.replaced := true;
          }
        case Wrapper =>
          el.shown := Some(rendering);
          el.replaced := true;
        case Standard =>
          if el.connected {
            el.shown := Some(rendering);
            el.replaced := true;
            el.expired := data.isExpired;
          }
          if fullName != displayName {
            el.expired := data.isExpired;
          }
      }
    }

    /**
     * `processMutationQueue()`: the queued nodes are taken and the queue
     * emptied; only the nodes still connected are scanned.
     */
    method ProcessMutationQueue() returns (scanned: set<Node>)
      modifies this`queue
      ensures queue == {}
      ensures scanned == set n | n in old(queue) && n.connected
    {
      var nodes := queue;
      queue := {};
      scanned := {};
      var todo := nodes;
      while todo != {}
        invariant todo <= nodes
        invariant scanned == set n | n in nodes - todo && n.connected
        decreases todo
      {
        var node :| node in todo;
        if node.connected {
          scanned := scanned + {node};
        }
        todo := todo - {node};
      }
    }
  }

  /** A run of class characters reaching the end of the text is all of it. */
  lemma {:induction false} RunToEnd(s: string, i: nat, wrapper: bool)
    requires i <= |s|
    requires forall k :: i <= k < |s| ==> (if wrapper then s[k] != ' ' else EmbeddedChar(s[k]))
    ensures RunLength(s, i, wrapper) == |s| - i
    decreases |s| - i
  {
    if i < |s| {
      RunToEnd(s, i + 1, wrapper);
    }
  }

  /** A handle made of `[\w\-\.]` characters only. */
  predicate PlainHandle(h: string)
  {
    |h| >= 2 && h[0] == '@' && forall k :: 1 <= k < |h| ==> EmbeddedChar(h[k])
  }

  /** A plain handle is its own trim, its own first line and its own EMBEDDED match. */
  lemma PlainHandleKept(handle: string)
    requires PlainHandle(handle)
    ensures Trim(handle) == handle && FirstLine(handle) == handle
    ensures EmbeddedHandle(handle) == Some(handle)
  {
    assert EmbeddedChar(handle[|handle| - 1]);
    TrimKeeps(handle);
    assert '\n' !in handle by {
      forall k | 0 <= k < |handle| ensures handle[k] != '\n' {
        if k > 0 {
          assert EmbeddedChar(handle[k]);
        }
      }
    }
    PlainHandleEmbedded(handle);
  }

  /** A plain handle is its own EMBEDDED match. */
  lemma PlainHandleEmbedded(handle: string)
    requires PlainHandle(handle)
    ensures EmbeddedHandle(handle) == Some(handle)
  {
    assert EmbeddedStart(handle, 0) == Some(0);
    RunToEnd(handle, 1, false);
    assert handle[0..1 + (|handle| - 1)] == handle;
  }

  /**
   * A pinned-comment badge, the first selector, is scanned in the EMBEDDED
   * mode: a label that is a plain handle yields that handle.
   */
  lemma PinnedBadgeHandle(matches: string -> bool, handle: string)
    requires matches(TARGET_CONFIGS[0].sel)
    requires PlainHandle(handle)
    ensures FindMode(TARGET_CONFIGS, matches) == Some(Embedded)
    ensures ElementHandle(TARGET_CONFIGS, matches, handle) == Some(handle)
    ensures FirstLine(handle) == handle
  {
    assert TARGET_CONFIGS[0].mode == Embedded;
    assert FindMode(TARGET_CONFIGS, matches) == Some(Embedded);
    PlainHandleKept(handle);
    assert HandleOf(Embedded, Trim(handle)) == Some(handle);
  }

  /**
   * An element rewritten with fresh data is left alone on the next scan of
   * the same handle: no second request. (`PinnedBadgeHandle` gives elements
   * that meet the precondition.)
   */
  method FreshRescanScenario(s: PageScanner, matches: string -> bool, text: string, handle: string, name: string)
    returns (first: Option<string>, second: Option<string>)
    requires ElementHandle(s.configs, matches, text) == Some(handle) && FirstLine(handle) == handle
    ensures first == Some(handle) && second.None?
  {
    var el := new Node(true);
    first := s.ProcessNode(el, matches, text);
    assert el.connected && el.target == Some(handle) && el.fetching && !el.replaced;
    HandleInText(s.configs, matches, text);
    assert Rewrites(EffectiveMode(el.mode), true, false, text, handle);
    s.OnData(el, handle, Some(DataBridge.CachedData(name, 0, false)), text);
    assert el.replaced && el.target == Some(handle) && !el.expired;
    assert el.Skips(handle);
    second := s.ProcessNode(el, matches, text);
  }

  /**
   * An element rewritten with stale data keeps its fetch mark, so the next
   * scan of the same handle does not request it again while the refresh is
   * under way.
   */
  method StaleRescanScenario(s: PageScanner, matches: string -> bool, text: string, handle: string, name: string)
    returns (first: Option<string>, second: Option<string>)
    requires ElementHandle(s.configs, matches, text) == Some(handle) && FirstLine(handle) == handle
    ensures first == Some(handle) && second.None?
  {
    var el := new Node(true);
    first := s.ProcessNode(el, matches, text);
    assert el.connected && el.target == Some(handle) && el.fetching && !el.replaced;
    HandleInText(s.configs, matches, text);
    assert Rewrites(EffectiveMode(el.mode), true, false, text, handle);
    s.OnData(el, handle, Some(DataBridge.CachedData(name, 0, true)), text);
    assert el.replaced && el.target == Some(handle) && el.fetching;
    assert el.Skips(handle);
    second := s.ProcessNode(el, matches, text);
  }

  /**
   * A WRAPPER element never carries the expiry mark itself: after stale
   * data and a failed refresh it is no longer fetching, yet the next scan
   * of the same handle still leaves it alone.
   */
  method WrapperStaleScenario(s: PageScanner, matches: string -> bool, text: string, handle: string, name: string)
    returns (first: Option<string>, second: Option<string>)
    requires FindMode(s.configs, matches) == Some(Wrapper)
    requires ElementHandle(s.configs, matches, text) == Some(handle) && FirstLine(handle) == handle
    ensures first == Some(handle) && second.None?
  {
    var el := new Node(true);
    first := s.ProcessNode(el, matches, text);
    assert el.connected && el.target == Some(handle) && !el.replaced && !el.expired;
    s.OnData(el, handle, Some(DataBridge.CachedData(name, 0, true)), text);
    s.OnData(el, handle, None, text);
    assert el.replaced && el.target == Some(handle) && !el.expired && !el.fetching;
    assert el.Skips(handle);
    second := s.ProcessNode(el, matches, text);
  }
}
