// The background fetch scheduler (js/background/bg_fetcher.js): two FIFO
// queues of handles, one in-flight task per handle with the promises waiting
// on it, a single consumer loop that prefers the high queue, and a circuit
// breaker that stops the loop after repeated HTTP 429 answers.
//
// The consumer loop awaits the network and a random pause; each await is a
// separate step here: `NetworkDone` is the code after `await doNetworkFetch`,
// `WaitElapsed` the code after the pause, `CoolDownElapsed` the breaker's
// timer. A waiting promise is identified by a `Waiter` number, and the
// resolutions the scheduler has made are kept, in order, in `delivered`.

module BgFetcher {

  import opened Common
  import opened Records
  import Config

  const THRESHOLD: nat := 3
  const DURATION: int := 300000

  /**
   * The `DELAY` object. It starts as `{ MIN: 1500, MAX: 3000 }`;
   * `updateSpeedMode` replaces it by an object with lower-case fields.
   */
  datatype Delay = Upper(MIN: int, MAX: int) | Lower(min: int, max: int)

  const INITIAL_DELAY: Delay := Upper(1500, 3000)

  /** `priority === 'high'` selects the high queue; any other value the low one. */
  datatype Priority = High | Low

  function PriorityOf(p: string): (q: Priority)
    ensures q == High <==> p == "high"
  {
    if p == "high" then High else Low
  }

  type Waiter = nat

  /** The `error` of a failed result. */
  datatype Failure =
    | InvalidHandle
    | TooManyRequests
    | RedirectedToLogin
    | HttpStatus(code: int)
    | NameNotFound
    | Exception(message: string)

  /** What a waiting promise is resolved with. */
  datatype FetchResult =
    | Success(nameRaw: string, subs: int)
    | Error(reason: Failure, status: Option<int>)

  /**
   * How the network request for a handle ended: the response (its status,
   * its final URL and what the page parser extracted from its body), a
   * rejected request (network failure or the 20-second abort), or an
   * exception thrown before the request was made.
   */
  datatype Outcome =
    | Answered(status: int, url: string, parsed: Option<(string, int)>)
    | Rejected(message: string)
    | Threw(message: string)

  predicate LoginRedirect(url: string)
  {
    Contains(url, "google.com/accounts") || Contains(url, "consent.youtube.com")
  }

  /**
   * `doNetworkFetch` with the request replaced by its outcome: the result and
   * whether `triggerCircuitBreaker` was called on the way.
   */
  function DoNetworkFetch(handle: string, o: Outcome): (res: (FetchResult, bool))
    ensures res.1 <==> handle != "" && o.Answered? && o.status == 429
    ensures res.1 ==> res.0 == Error(TooManyRequests, Some(429))
    ensures handle == "" ==> res.0 == Error(InvalidHandle, None)
    ensures handle != "" && o.Answered? && o.status != 429 && LoginRedirect(o.url) ==>
      res.0 == Error(RedirectedToLogin, Some(429))
    ensures res.0.Success? <==>
      handle != "" && o.Answered? && o.status != 429 && !LoginRedirect(o.url) &&
      200 <= o.status <= 299 && o.parsed.Some?
    ensures res.0.Success? ==> res.0 == Success(o.parsed.value.0, o.parsed.value.1)
  {
    if handle == "" then (Error(InvalidHandle, None), false)
    else match o
      case Threw(m) => (Error(Exception(m), None), false)
      case Rejected(m) => (Error(Exception(m), None), false)
      case Answered(status, url, parsed) =>
        if status == 429 then (Error(TooManyRequests, Some(429)), true)
        else if LoginRedirect(url) then (Error(RedirectedToLogin, Some(429)), false)
        else if !(200 <= status <= 299) then (Error(HttpStatus(status), None), false)
        else if parsed.Some? then (Success(parsed.value.0, parsed.value.1), false)
        else (Error(NameNotFound, None), false)
  }

  /**
   * The cache check at the start of `fetch`, with the lookup awaited: a
   * stored value answers at once unless a refresh is forced.
   */
  function CacheGate(forceRefresh: bool, lookup: Option<Raw>): (r: Option<FetchResult>)
    ensures r.Some? <==> !forceRefresh && lookup.Some? && Truthy(lookup.value)
    ensures r.Some? ==> r.value == Success(NameField(lookup.value), SubsOf(lookup.value))
  {
    if !forceRefresh && lookup.Some? && Truthy(lookup.value) then
      Some(Success(NameField(lookup.value), SubsOf(lookup.value)))
    else None
  }

  /**
   * The cache check as written: `BgCache.get` is asynchronous, so `cached` is
   * a pending promise, always truthy, whose `name` and `subs` are undefined.
   */
  function CacheGateAsWritten(forceRefresh: bool, lookup: Option<Raw>): Option<FetchResult>
  {
    if !forceRefresh then Some(Success("", 0)) else None
  }

  /** As written, a fetch without `forceRefresh` never reaches the network, even on a cache miss. */
  lemma AsWrittenGateAnswersMisses()
    ensures CacheGateAsWritten(false, None) == Some(Success("", 0))
    ensures CacheGate(false, None) == None
  {
  }

  /** The lower and upper pause of the current `DELAY`, whichever field names it uses. */
  function DelayMin(d: Delay): int
  {
    if d.Upper? then d.MIN else d.min
  }

  function DelayMax(d: Delay): int
  {
    if d.Upper? then d.MAX else d.max
  }

  /**
   * The pause after a task as written: it reads `DELAY.MAX` and `DELAY.MIN`,
   * which are undefined once `updateSpeedMode` has run, so the computed
   * value is NaN and `setTimeout` waits 0 ms. `k` stands for
   * `Math.floor(Math.random() * (MAX - MIN + 1))`.
   */
  function PauseAsWritten(d: Delay, k: int): int
  {
    if d.Upper? then d.MIN + k else 0
  }

  /** The pause read from the fields `DELAY` actually has. */
  function Pause(d: Delay, k: int): (w: int)
    requires 0 <= k <= DelayMax(d) - DelayMin(d)
    ensures DelayMin(d) <= w <= DelayMax(d)
  {
    DelayMin(d) + k
  }

  /** `updateSpeedMode`: a known preset replaces `DELAY`, anything else keeps it. */
  function UpdatedDelay(d: Delay, mode: string): (r: Delay)
    ensures Config.SpeedPreset(mode).Some? ==>
      DelayMin(r) == Config.SpeedPreset(mode).value.min && DelayMax(r) == Config.SpeedPreset(mode).value.max
    ensures Config.SpeedPreset(mode).None? ==> r == d
  {
    match Config.SpeedPreset(mode)
    case Some(p) => Lower(p.min, p.max)
    case None => d
  }

  /** As written, selecting either speed preset removes the pause between requests altogether. */
  lemma {:induction false} AsWrittenPresetRemovesPause(d: Delay, mode: string, k: int)
    requires Config.SpeedPreset(mode).Some?
    ensures PauseAsWritten(UpdatedDelay(d, mode), k) == 0
    ensures 0 < DelayMin(UpdatedDelay(d, mode))
  {
  }

  /** Every waiter, in registration order, resolved with the same result. */
  function Broadcast(ws: seq<Waiter>, r: FetchResult): (out: seq<(Waiter, FetchResult)>)
    ensures |out| == |ws|
    ensures forall i :: 0 <= i < |ws| ==> out[i] == (ws[i], r)
  {
    seq(|ws|, i requires 0 <= i < |ws| => (ws[i], r))
  }

  /** The state of the consumer loop. */
  datatype Phase =
    | Idle              // `processQueue` is not running
    | Fetching(handle: string)   // awaiting `doNetworkFetch(handle)`
    | Pausing(wait: int)         // awaiting the pause after a task

  class Fetcher {
    var high: seq<string>
    var low: seq<string>
    var activeTasks: map<string, seq<Waiter>>
    var errorCount: nat
    var isCircuitOpen: bool
    var isProcessing: bool
    var phase: Phase
    /** Cool-down timers armed and not yet fired. */
    var coolDowns: nat
    var delay: Delay
    var delivered: seq<(Waiter, FetchResult)>

    /**
     * One task per handle: the queued handles are distinct, and a handle has
     * waiters exactly when it is queued or being fetched.
     */
    ghost predicate Tasks()
      reads this
    {
      Distinct(high + low) &&
      (forall h :: h in activeTasks <==> h in high || h in low || phase == Fetching(h)) &&
      (phase.Fetching? ==> phase.handle !in high && phase.handle !in low) &&
      (forall h :: h in activeTasks ==> activeTasks[h] != [])
    }

    ghost predicate Coherent()
      reads this
    {
      Tasks() &&
      (isProcessing <==> !phase.Idle?) &&
      (phase.Fetching? ==> !isCircuitOpen) &&
      (isCircuitOpen ==> coolDowns > 0)
    }

    /** Besides `Coherent`: an idle loop with a closed circuit has nothing queued. */
    ghost predicate Valid()
      reads this
    {
      Coherent() && (phase.Idle? && !isCircuitOpen ==> high == [] && low == [])
    }

    constructor ()
      ensures Valid()
      ensures high == [] && low == [] && activeTasks == map[] && delivered == []
      ensures errorCount == 0 && !isCircuitOpen && !isProcessing && phase == Idle
      ensures coolDowns == 0 && delay == INITIAL_DELAY
    {
      high, low, activeTasks := [], [], map[];
      errorCount, isCircuitOpen, isProcessing := 0, false, false;
      phase, coolDowns, delay, delivered := Idle, 0, INITIAL_DELAY, [];
    }

    /** `updateSpeedMode(mode)` */
    method UpdateSpeedMode(mode: string)
      modifies this
      ensures delay == UpdatedDelay(old(delay), mode)
      ensures high == old(high) && low == old(low) && activeTasks == old(activeTasks)
      ensures errorCount == old(errorCount) && isCircuitOpen == old(isCircuitOpen)
      ensures isProcessing == old(isProcessing) && phase == old(phase)
      ensures coolDowns == old(coolDowns) && delivered == old(delivered)
    {
      delay := UpdatedDelay(delay, mode);
    }

    /**
     * `fetch(handle, priority, forceRefresh)` for the promise `w`, given what
     * the cache lookup returned; it ends with the synchronous part of
     * `processQueue`.
     */
    method Fetch(handle: string, priority: Priority, forceRefresh: bool, lookup: Option<Raw>, w: Waiter)
      requires Valid()
      modifies this
      ensures Valid()
      ensures errorCount == old(errorCount) && isCircuitOpen == old(isCircuitOpen)
      ensures coolDowns == old(coolDowns) && delay == old(delay)
      // a cache hit answers at once
      ensures CacheGate(forceRefresh, lookup).Some? ==>
        delivered == old(delivered) + [(w, CacheGate(forceRefresh, lookup).value)] &&
        high == old(high) && low == old(low) && activeTasks == old(activeTasks) &&
        phase == old(phase) && isProcessing == old(isProcessing)
      ensures CacheGate(forceRefresh, lookup).None? ==> delivered == old(delivered)
      // a handle already being fetched only gains a waiter
      ensures CacheGate(forceRefresh, lookup).None? && handle in old(activeTasks) ==>
        activeTasks == old(activeTasks)[handle := old(activeTasks[handle]) + [w]] &&
        high == old(high) && low == old(low) &&
        phase == old(phase) && isProcessing == old(isProcessing)
      // a new handle is queued at the back of its queue ...
      ensures CacheGate(forceRefresh, lookup).None? && handle !in old(activeTasks) ==>
        activeTasks == old(activeTasks)[handle := [w]]
      ensures (CacheGate(forceRefresh, lookup).None? && handle !in old(activeTasks) &&
        (old(isProcessing) || old(isCircuitOpen))) ==>
        phase == old(phase) && isProcessing == old(isProcessing) &&
        (priority == High ==> high == old(high) + [handle] && low == old(low)) &&
        (priority == Low ==> low == old(low) + [handle] && high == old(high))
      // ... and fetched at once when the loop is idle and the circuit closed
      ensures (CacheGate(forceRefresh, lookup).None? && handle !in old(activeTasks) &&
        !old(isProcessing) && !old(isCircuitOpen)) ==>
        phase == Fetching(handle) && isProcessing && high == [] && low == []
    {
      var hit := CacheGate(forceRefresh, lookup);
      if hit.Some? {
        delivered := delivered + [(w, hit.value)];
        return;
      }
      if handle in activeTasks {
        activeTasks := activeTasks[handle := activeTasks[handle] + [w]];
        return;
      }
      Enlist(handle, priority, w);
      ProcessQueue();
    }

    /** A new handle gets its waiter list and goes to the back of its queue. */
    method Enlist(handle: string, priority: Priority, w: Waiter)
      requires Valid() && handle !in activeTasks
      modifies this`activeTasks, this`high, this`low
      ensures Coherent()
      ensures activeTasks == old(activeTasks)[handle := [w]]
      ensures priority == High ==> high == old(high) + [handle] && low == old(low)
      ensures priority == Low ==> low == old(low) + [handle] && high == old(high)
    {
      activeTasks := activeTasks[handle := [w]];
      DistinctAppend(high, handle, low);
      if priority == High {
        high := high + [handle];
      } else {
        assert high + (low + [handle]) == high + low + [handle];
        low := low + [handle];
      }
    }

    /** The synchronous start of `processQueue`. */
    method ProcessQueue()
      requires Coherent()
      modifies this
      ensures Valid()
      ensures activeTasks == old(activeTasks) && delivered == old(delivered)
      ensures errorCount == old(errorCount) && isCircuitOpen == old(isCircuitOpen)
      ensures coolDowns == old(coolDowns) && delay == old(delay)
      ensures old(isProcessing) || old(isCircuitOpen) || (old(high) == [] && old(low) == []) ==>
        high == old(high) && low == old(low) && phase == old(phase) && isProcessing == old(isProcessing)
      ensures !old(isProcessing) && !old(isCircuitOpen) && old(high) != [] ==>
        phase == Fetching(old(high)[0]) && high == old(high)[1..] && low == old(low) && isProcessing
      ensures !old(isProcessing) && !old(isCircuitOpen) && old(high) == [] && old(low) != [] ==>
        phase == Fetching(old(low)[0]) && low == old(low)[1..] && high == old(high) && isProcessing
    {
      if isProcessing || isCircuitOpen {
        return;
      }
      if high == [] && low == [] {
        return;
      }
      isProcessing := true;
      Advance();
    }

    /**
     * The test of the `while` loop and the dequeue at the top of its body:
     * the loop stops when both queues are empty or the circuit is open;
     * otherwise it takes the head of `high`, or of `low` when `high` is empty.
     */
    method Advance()
      requires Tasks() && isProcessing && !phase.Fetching? && (isCircuitOpen ==> coolDowns > 0)
      modifies this`high, this`low, this`phase, this`isProcessing
      ensures Valid()
      ensures old(isCircuitOpen) || (old(high) == [] && old(low) == []) ==>
        phase == Idle && !isProcessing && high == old(high) && low == old(low)
      ensures !old(isCircuitOpen) && old(high) != [] ==>
        phase == Fetching(old(high)[0]) && high == old(high)[1..] && low == old(low) && isProcessing
      ensures !old(isCircuitOpen) && old(high) == [] && old(low) != [] ==>
        phase == Fetching(old(low)[0]) && low == old(low)[1..] && high == old(high) && isProcessing
    {
      if (high == [] && low == []) || isCircuitOpen {
        isProcessing := false;
        phase := Idle;
        return;
      }
      if high != [] {
        DistinctTail(high, low);
        phase := Fetching(high[0]);
        high := high[1..];
      } else {
        assert high + low == low;
        DistinctTail(low, []);
        assert low[1..] + [] == low[1..];
        phase := Fetching(low[0]);
        low := low[1..];
      }
    }

    /** `triggerCircuitBreaker()` */
    method TriggerCircuitBreaker()
      modifies this`errorCount, this`isCircuitOpen, this`coolDowns
      ensures errorCount == old(errorCount) + 1
      ensures errorCount >= THRESHOLD ==> isCircuitOpen && coolDowns == old(coolDowns) + 1
      ensures errorCount < THRESHOLD ==> isCircuitOpen == old(isCircuitOpen) && coolDowns == old(coolDowns)
    {
      errorCount := errorCount + 1;
      if errorCount >= THRESHOLD {
        isCircuitOpen := true;
        coolDowns := coolDowns + 1;
      }
    }

    /**
     * The rest of a loop iteration once the network request for the
     * in-flight handle has ended with `o`: classify it, update the breaker
     * and the error count, resolve every waiter with the same result, drop
     * the fetch task, and start the pause `wait`. `write` is the value handed to
     * `BgCache.set` on success.
     */
    method NetworkDone(o: Outcome, wait: int) returns (result: FetchResult, write: Option<(string, Raw)>)
      requires Valid() && phase.Fetching?
      requires DelayMin(delay) <= wait <= DelayMax(delay)
      modifies this
      ensures Valid()
      ensures result == DoNetworkFetch(old(phase.handle), o).0
      ensures delivered == old(delivered) + Broadcast(old(activeTasks[phase.handle]), result)
      ensures activeTasks == old(activeTasks) - {old(phase.handle)}
      ensures phase == Pausing(wait) && isProcessing
      ensures high == old(high) && low == old(low) && delay == old(delay)
      ensures result.Success? ==>
        errorCount == 0 && isCircuitOpen == old(isCircuitOpen) && coolDowns == old(coolDowns) &&
        write == Some((old(phase.handle), Entry(result.nameRaw, result.subs, 0)))
      ensures !result.Success? ==> write == None
      ensures !result.Success? && !DoNetworkFetch(old(phase.handle), o).1 ==>
        errorCount == old(errorCount) && isCircuitOpen == old(isCircuitOpen) && coolDowns == old(coolDowns)
      ensures DoNetworkFetch(old(phase.handle), o).1 ==>
        errorCount == old(errorCount) + 1 &&
        isCircuitOpen == (errorCount >= THRESHOLD) &&
        coolDowns == old(coolDowns) + (if errorCount >= THRESHOLD then 1 else 0)
    {
      var h := phase.handle;
      var trip;
      result, trip := DoNetworkFetch(h, o).0, DoNetworkFetch(h, o).1;
      if trip {
        TriggerCircuitBreaker();
      }
      if result.Success? {
        write := Some((h, Entry(result.nameRaw, result.subs, 0)));
        errorCount := 0;
      } else {
        write := None;
      }
      delivered := delivered + Broadcast(activeTasks[h], result);
      activeTasks := activeTasks - {h};
      phase := Pausing(wait);
    }

    /** The pause after a task has elapsed: back to the loop test. */
    method WaitElapsed()
      requires Valid() && phase.Pausing?
      modifies this
      ensures Valid()
      ensures activeTasks == old(activeTasks) && delivered == old(delivered)
      ensures errorCount == old(errorCount) && isCircuitOpen == old(isCircuitOpen)
      ensures coolDowns == old(coolDowns) && delay == old(delay)
      ensures old(isCircuitOpen) || (old(high) == [] && old(low) == []) ==>
        phase == Idle && !isProcessing && high == old(high) && low == old(low)
      ensures !old(isCircuitOpen) && old(high) != [] ==>
        phase == Fetching(old(high)[0]) && high == old(high)[1..] && low == old(low)
      ensures !old(isCircuitOpen) && old(high) == [] && old(low) != [] ==>
        phase == Fetching(old(low)[0]) && low == old(low)[1..] && high == old(high)
    {
      Advance();
    }

    /** The cool-down timer fires: close the circuit, clear the count, restart the loop. */
    method CoolDownElapsed()
      requires Valid() && coolDowns > 0
      modifies this
      ensures Valid()
      ensures !isCircuitOpen && errorCount == 0 && coolDowns == old(coolDowns) - 1
      ensures activeTasks == old(activeTasks) && delivered == old(delivered) && delay == old(delay)
      ensures old(isProcessing) || (old(high) == [] && old(low) == []) ==>
        high == old(high) && low == old(low) && phase == old(phase) && isProcessing == old(isProcessing)
      ensures !old(isProcessing) && old(high) != [] ==>
        phase == Fetching(old(high)[0]) && high == old(high)[1..] && low == old(low)
      ensures !old(isProcessing) && old(high) == [] && old(low) != [] ==>
        phase == Fetching(old(low)[0]) && low == old(low)[1..] && high == old(high)
    {
      coolDowns := coolDowns - 1;
      isCircuitOpen := false;
      errorCount := 0;
      ProcessQueue();
    }
  }

  /**
   * Two requests for the same handle while it is being fetched: one network
   * request, and both promises get the same result.
   */
  method CoalescingScenario() returns (first: FetchResult, second: FetchResult, queued: nat)
    ensures first == second == Success("Alice", 120)
    ensures queued == 0
  {
    var f := new Fetcher();
    f.Fetch("@alice", High, false, None, 1);
    f.Fetch("@alice", Low, true, None, 2);
    var r, write := f.NetworkDone(Answered(200, "https://youtu.be/x", Some(("Alice", 120))), 1500);
    assert f.delivered == [(1, r), (2, r)];
    first, second := f.delivered[0].1, f.delivered[1].1;
    queued := |f.high| + |f.low|;
  }
}
