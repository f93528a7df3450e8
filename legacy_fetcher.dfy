// The older page fetcher (js/fetcher.js): two FIFO queues of tasks, a set of
// handles already requested, one consumer loop preferring the high queue
// with a random pause plus an error back-off between tasks, and a circuit
// breaker tripped by rate limiting.
//
// As in the current scheduler, each await of the consumer loop is a step of
// its own (`FetchDone`, `WaitElapsed`, `CoolDownElapsed`). Callbacks are
// identified by numbers; the calls made to them and to `NameCache.set` are
// recorded in order.

module LegacyFetcher {

  import opened Common
  import Config

  const THRESHOLD: int := 3
  const DURATION: int := 5 * 60 * 1000

  type Callback = nat

  /** `{ handle, callback }`; the callback is optional. */
  datatype Task = Task(handle: string, callback: Option<Callback>)

  /** A channel as `performFetch` returns it: `{ name, subs }`. */
  datatype Channel = Channel(name: string, subs: int)

  /**
   * How the page request ended: HTTP 429, another non-OK status, a page read
   * to the end or to the cut-off (with the decoded channel name, if one was
   * found, and the subscriber count), the 25-second abort, or any other
   * exception.
   */
  datatype PageOutcome =
    | RateLimited
    | HttpFailure(status: int)
    | Page(decodedName: Option<string>, subs: int)
    | Aborted
    | Failed

  /** What `performFetch` does to `errorCount`. */
  datatype ErrorEffect = NoCount | CountOne | RateLimit

  /** `performFetch` with the request replaced by its outcome. */
  function PerformFetch(o: PageOutcome): (r: (Option<Channel>, ErrorEffect))
    ensures r.1 == RateLimit <==> o == RateLimited
    ensures r.1 == CountOne <==> o.HttpFailure? || o == Failed
    ensures r.0.Some? <==> o.Page? && o.decodedName.Some? && o.decodedName.value != "YouTube"
    ensures r.0.Some? ==> r.0.value == Channel(o.decodedName.value, o.subs)
  {
    match o
    case RateLimited => (None, RateLimit)
    case HttpFailure(_) => (None, CountOne)
    case Page(name, subs) =>
      if name.Some? && name.value != "YouTube" then (Some(Channel(name.value, subs)), NoCount)
      else (None, NoCount)
    case Aborted => (None, NoCount)
    case Failed => (None, CountOne)
  }

  /** The back-off added to the pause: one second per counted error. */
  function Backoff(errorCount: int): (b: int)
    ensures errorCount > 0 ==> b == errorCount * 1000
    ensures errorCount <= 0 ==> b == 0
  {
    if errorCount > 0 then errorCount * 1000 else 0
  }

  /**
   * The error count after one task ended with `o`: raised by
   * `performFetch`, then cleared by a success.
   */
  function ErrorsAfter(e: nat, o: PageOutcome): (r: nat)
  {
    match PerformFetch(o)
    case (Some(_), _) => 0
    case (None, RateLimit) => e + 2
    case (None, CountOne) => e + 1
    case (None, NoCount) => e
  }

  /** Whether a task ending with `o` trips the breaker (`handleRateLimit`). */
  predicate Trips(e: nat, o: PageOutcome)
  {
    o == RateLimited && e + 2 >= THRESHOLD
  }

  /** The `callback(handle, result)` call a task makes, if it has a callback. */
  function CallbackCall(task: Task, res: Option<Channel>): (c: seq<(Callback, string, Option<Channel>)>)
    ensures |c| == if task.callback.Some? then 1 else 0
    ensures c != [] ==> c[0] == (task.callback.value, task.handle, res)
  {
    if task.callback.Some? then [(task.callback.value, task.handle, res)] else []
  }

  /** The `NameCache.set(handle, result)` call a success makes. */
  function CacheWrite(handle: string, res: Option<Channel>): (w: seq<(string, Channel)>)
    ensures |w| == if res.Some? then 1 else 0
    ensures w != [] ==> w[0] == (handle, res.value)
  {
    if res.Some? then [(handle, res.value)] else []
  }

  /**
   * Only a 429 trips the breaker, and it does so exactly when an error was
   * already counted; other HTTP errors and exceptions add one error each.
   */
  lemma TripRule(e: nat, o: PageOutcome)
    ensures Trips(e, o) <==> o == RateLimited && e >= 1
    ensures (o.HttpFailure? || o == Failed) ==> !Trips(e, o) && ErrorsAfter(e, o) == e + 1
    ensures o == RateLimited ==> ErrorsAfter(e, o) == e + 2
    ensures PerformFetch(o).0.Some? ==> ErrorsAfter(e, o) == 0
  {
  }

  datatype Phase = Idle | Fetching(task: Task) | Pausing(wait: int)

  /**
   * At most one task per handle is queued or in flight, and each such
   * handle is recorded in the set of requested handles.
   */
  ghost predicate TasksOf(high: seq<Task>, low: seq<Task>, phase: Phase, active: set<string>)
  {
    Distinct(Handles(high) + Handles(low)) &&
    (forall h :: h in Handles(high) + Handles(low) ==> h in active) &&
    (phase.Fetching? ==>
      phase.task.handle in active &&
      phase.task.handle !in Handles(high) && phase.task.handle !in Handles(low))
  }

  /** The in-flight task ends; its handle may or may not be forgotten. */
  lemma LandTask(high: seq<Task>, low: seq<Task>, task: Task, active: set<string>, forget: bool)
    requires TasksOf(high, low, Fetching(task), active)
    ensures TasksOf(high, low, Idle, if forget then active - {task.handle} else active)
  {
    assert task.handle !in Handles(high) + Handles(low);
  }

  function Handles(ts: seq<Task>): (hs: seq<string>)
    ensures |hs| == |ts|
  {
    if ts == [] then [] else [ts[0].handle] + Handles(ts[1..])
  }

  lemma {:induction false} HandlesAppend(a: seq<Task>, b: seq<Task>)
    ensures Handles(a + b) == Handles(a) + Handles(b)
  {
    if a != [] {
      assert (a + b)[1..] == a[1..] + b;
      HandlesAppend(a[1..], b);
    } else {
      assert a + b == b;
    }
  }

  class Fetcher {
    var high: seq<Task>
    var low: seq<Task>
    var activeRequests: set<string>
    var isProcessing: bool
    var isCircuitBreakerActive: bool
    var errorCount: nat
    var delayMin: int
    var delayMax: int
    var phase: Phase
    /** Cool-down timers armed and not yet fired. */
    var coolDowns: nat
    /** The callback calls made: callback, handle and channel (None for `null`). */
    var calls: seq<(Callback, string, Option<Channel>)>
    /** The `NameCache.set` calls made. */
    var cacheWrites: seq<(string, Channel)>

    ghost predicate Tasks()
      reads this`high, this`low, this`phase, this`activeRequests
    {
      TasksOf(high, low, phase, activeRequests)
    }

    ghost predicate Coherent()
      reads this
    {
      Tasks() &&
      (isProcessing <==> !phase.Idle?) &&
      (phase.Fetching? ==> !isCircuitBreakerActive) &&
      (isCircuitBreakerActive ==> coolDowns > 0) &&
      delayMin <= delayMax
    }

    /** Besides `Coherent`: an idle loop with the breaker off has nothing queued. */
    ghost predicate Valid()
      reads this
    {
      Coherent() && (phase.Idle? && !isCircuitBreakerActive ==> high == [] && low == [])
    }

    constructor ()
      ensures Valid()
      ensures high == [] && low == [] && activeRequests == {} && phase == Idle
      ensures !isProcessing && !isCircuitBreakerActive && errorCount == 0 && coolDowns == 0
      ensures delayMin == 1500 && delayMax == 3000 && calls == [] && cacheWrites == []
    {
      high, low, activeRequests := [], [], {};
      isProcessing, isCircuitBreakerActive, errorCount := false, false, 0;
      delayMin, delayMax := 1500, 3000;
      phase, coolDowns, calls, cacheWrites := Idle, 0, [], [];
    }

    /** `setSpeedMode(mode)`: a known preset replaces the pause range. */
    method SetSpeedMode(mode: string)
      requires Valid()
      modifies this`delayMin, this`delayMax
      ensures Valid()
      ensures Config.SpeedPreset(mode).Some? ==>
        delayMin == Config.SpeedPreset(mode).value.min && delayMax == Config.SpeedPreset(mode).value.max
      ensures Config.SpeedPreset(mode).None? ==> delayMin == old(delayMin) && delayMax == old(delayMax)
    {
      match Config.SpeedPreset(mode) {
        case Some(p) => delayMin, delayMax := p.min, p.max;
        case None =>
      }
    }

    /**
     * `enqueue(handle, callback, isBackgroundUpdate)`: refused while the
     * breaker is active or when the handle was already requested; otherwise
     * the handle is recorded and the fetch task queued, then the loop started.
     */
    method Enqueue(handle: string, callback: Option<Callback>, isBackgroundUpdate: bool)
      requires Valid()
      modifies this
      ensures Valid()
      ensures calls == old(calls) && cacheWrites == old(cacheWrites)
      ensures errorCount == old(errorCount) && isCircuitBreakerActive == old(isCircuitBreakerActive)
      ensures coolDowns == old(coolDowns) && delayMin == old(delayMin) && delayMax == old(delayMax)
      ensures old(isCircuitBreakerActive) || handle in old(activeRequests) ==>
        high == old(high) && low == old(low) && activeRequests == old(activeRequests) &&
        phase == old(phase) && isProcessing == old(isProcessing)
      ensures (!old(isCircuitBreakerActive) && handle !in old(activeRequests)) ==>
        activeRequests == old(activeRequests) + {handle}
      ensures (!old(isCircuitBreakerActive) && handle !in old(activeRequests) && old(isProcessing)) ==>
        phase == old(phase) && isProcessing &&
        (isBackgroundUpdate ==> low == old(low) + [Task(handle, callback)] && high == old(high)) &&
        (!isBackgroundUpdate ==> high == old(high) + [Task(handle, callback)] && low == old(low))
      ensures (!old(isCircuitBreakerActive) && handle !in old(activeRequests) && !old(isProcessing)) ==>
        phase == Fetching(Task(handle, callback)) && isProcessing && high == [] && low == []
    {
      if isCircuitBreakerActive {
        return;
      }
      if handle in activeRequests {
        return;
      }
      Push(Task(handle, callback), isBackgroundUpdate);
      StartQueue();
    }

    /** Record a new task's handle and append the fetch task to its queue. */
    method Push(task: Task, background: bool)
      requires Coherent() && task.handle !in activeRequests
      modifies this`high, this`low, this`activeRequests
      ensures Coherent()
      ensures activeRequests == old(activeRequests) + {task.handle}
      ensures background ==> low == old(low) + [task] && high == old(high)
      ensures !background ==> high == old(high) + [task] && low == old(low)
    {
      var handle := task.handle;
      activeRequests := activeRequests + {handle};
      HandlesAppend(high, [task]);
      HandlesAppend(low, [task]);
      DistinctAppend(Handles(high), handle, Handles(low));
      ghost var hh, hl := Handles(high), Handles(low);
      assert Handles([task]) == [handle];
      if background {
        low := low + [task];
        assert Handles(high) + Handles(low) == hh + (hl + [handle]);
      } else {
        high := high + [task];
        assert Handles(high) + Handles(low) == hh + [handle] + hl;
      }
    }

    /** The synchronous start of `startQueue`. */
    method StartQueue()
      requires Coherent()
      modifies this`high, this`low, this`phase, this`isProcessing
      ensures Valid()
      ensures old(isProcessing) || old(isCircuitBreakerActive) || (old(high) == [] && old(low) == []) ==>
        high == old(high) && low == old(low) && phase == old(phase) && isProcessing == old(isProcessing)
      ensures (!old(isProcessing) && !old(isCircuitBreakerActive) && old(high) != []) ==>
        phase == Fetching(old(high)[0]) && high == old(high)[1..] && low == old(low) && isProcessing
      ensures (!old(isProcessing) && !old(isCircuitBreakerActive) && old(high) == [] && old(low) != []) ==>
        phase == Fetching(old(low)[0]) && low == old(low)[1..] && high == old(high) && isProcessing
    {
      if isProcessing || isCircuitBreakerActive {
        return;
      }
      if high == [] && low == [] {
        return;
      }
      isProcessing := true;
      Advance();
    }

    /**
     * The `while` test and the dequeue: stop when both queues are empty or
     * the breaker is active, otherwise take the head of `high`, or of `low`
     * when `high` is empty.
     */
    method Advance()
      requires Tasks() && isProcessing && !phase.Fetching? && (isCircuitBreakerActive ==> coolDowns > 0)
      requires delayMin <= delayMax
      modifies this`high, this`low, this`phase, this`isProcessing
      ensures Valid()
      ensures old(isCircuitBreakerActive) || (old(high) == [] && old(low) == []) ==>
        phase == Idle && !isProcessing && high == old(high) && low == old(low)
      ensures (!old(isCircuitBreakerActive) && old(high) != []) ==>
        phase == Fetching(old(high)[0]) && high == old(high)[1..] && low == old(low) && isProcessing
      ensures (!old(isCircuitBreakerActive) && old(high) == [] && old(low) != []) ==>
        phase == Fetching(old(low)[0]) && low == old(low)[1..] && high == old(high) && isProcessing
    {
      if (high == [] && low == []) || isCircuitBreakerActive {
        isProcessing := false;
        phase := Idle;
        return;
      }
      ghost var hh, hl := Handles(high), Handles(low);
      if high != [] {
        assert Handles(high[1..]) == hh[1..];
        DistinctTail(hh, hl);
        assert forall h :: h in hh[1..] + hl ==> h in hh + hl;
        phase := Fetching(high[0]);
        high := high[1..];
      } else {
        assert Handles(low[1..]) == hl[1..];
        assert hh + hl == hl + [];
        DistinctTail(hl, []);
        assert hl[1..] + [] == hh + hl[1..];
        assert forall h :: h in hl[1..] ==> h in hh + hl;
        phase := Fetching(low[0]);
        low := low[1..];
      }
    }

    /** `handleRateLimit()`: two errors at once; the breaker trips at the threshold. */
    method HandleRateLimit()
      modifies this`errorCount, this`isCircuitBreakerActive, this`coolDowns
      ensures errorCount == old(errorCount) + 2
      ensures errorCount >= THRESHOLD ==> isCircuitBreakerActive && coolDowns == old(coolDowns) + 1
      ensures errorCount < THRESHOLD ==>
        isCircuitBreakerActive == old(isCircuitBreakerActive) && coolDowns == old(coolDowns)
    {
      errorCount := errorCount + 2;
      if errorCount >= THRESHOLD {
        isCircuitBreakerActive := true;
        coolDowns := coolDowns + 1;
      }
    }

    /**
     * `performFetch` for `task` ended with `o`: its error accounting, then the
     * `if (result)` of the loop body. A success clears the error count, is
     * written to the cache and keeps the handle requested; a failure forgets
     * the handle. Either way the callback, if any, is called.
     */
    method Settle(task: Task, o: PageOutcome) returns (result: Option<Channel>)
      requires !isCircuitBreakerActive
      modifies this`errorCount, this`isCircuitBreakerActive, this`coolDowns
      modifies this`activeRequests, this`cacheWrites, this`calls
      ensures result == PerformFetch(o).0
      ensures calls == old(calls) + CallbackCall(task, result)
      ensures cacheWrites == old(cacheWrites) + CacheWrite(task.handle, result)
      ensures activeRequests == if result.Some? then old(activeRequests) else old(activeRequests) - {task.handle}
      ensures errorCount == ErrorsAfter(old(errorCount), o)
      ensures isCircuitBreakerActive == Trips(old(errorCount), o)
      ensures coolDowns == old(coolDowns) + (if Trips(old(errorCount), o) then 1 else 0)
    {
      var eff;
      result, eff := PerformFetch(o).0, PerformFetch(o).1;
      match eff {
        case RateLimit => HandleRateLimit();
        case CountOne => errorCount := errorCount + 1;
        case NoCount =>
      }
      if result.Some? {
        if errorCount > 0 {
          errorCount := 0;
        }
        cacheWrites := cacheWrites + [(task.handle, result.value)];
      } else {
        activeRequests := activeRequests - {task.handle};
      }
      if task.callback.Some? {
        calls := calls + [(task.callback.value, task.handle, result)];
      }
    }

    /**
     * The rest of a loop iteration once `performFetch` for the in-flight task
     * has ended with `o`: count errors, record a success in the cache or
     * forget a failed handle, call the callback, then pause for `base` plus
     * the back-off if more tasks are queued, or leave the loop.
     */
    method FetchDone(o: PageOutcome, base: int) returns (result: Option<Channel>)
      requires Valid() && phase.Fetching?
      requires delayMin <= base <= delayMax
      modifies this
      ensures Valid()
      ensures result == PerformFetch(o).0
      ensures calls == old(calls) + CallbackCall(old(phase.task), result)
      // a success is cached and keeps the handle requested; a failure forgets it
      ensures cacheWrites == old(cacheWrites) + CacheWrite(old(phase.task.handle), result)
      ensures activeRequests == if result.Some? then old(activeRequests) else old(activeRequests) - {old(phase.task.handle)}
      ensures errorCount == ErrorsAfter(old(errorCount), o)
      ensures isCircuitBreakerActive == Trips(old(errorCount), o)
      ensures coolDowns == old(coolDowns) + (if Trips(old(errorCount), o) then 1 else 0)
      ensures high == old(high) && low == old(low)
      ensures old(high) != [] || old(low) != [] ==> phase == Pausing(base + Backoff(errorCount))
      ensures old(high) == [] && old(low) == [] ==> phase == Idle && !isProcessing
    {
      var task := phase.task;
      LandTask(high, low, task, activeRequests, PerformFetch(o).0.None?);
      result := Settle(task, o);
      Continue(base);
    }

    /**
     * The end of the loop body: pause for `base` plus the back-off when a
     * task is still queued, otherwise leave the loop.
     */
    method Continue(base: int)
      requires TasksOf(high, low, Idle, activeRequests)
      requires isProcessing && (isCircuitBreakerActive ==> coolDowns > 0) && delayMin <= delayMax
      modifies this`phase, this`isProcessing
      ensures Valid()
      ensures old(high) != [] || old(low) != [] ==> phase == Pausing(base + Backoff(errorCount)) && isProcessing
      ensures old(high) == [] && old(low) == [] ==> phase == Idle && !isProcessing
    {
      if high != [] || low != [] {
        phase := Pausing(base + Backoff(errorCount));
      } else {
        phase := Idle;
        isProcessing := false;
      }
    }

    /** The pause between two tasks has elapsed: back to the loop test. */
    method WaitElapsed()
      requires Valid() && phase.Pausing?
      modifies this
      ensures Valid()
      ensures activeRequests == old(activeRequests) && errorCount == old(errorCount)
      ensures isCircuitBreakerActive == old(isCircuitBreakerActive) && coolDowns == old(coolDowns)
      ensures calls == old(calls) && cacheWrites == old(cacheWrites)
      ensures old(isCircuitBreakerActive) || (old(high) == [] && old(low) == []) ==>
        phase == Idle && !isProcessing && high == old(high) && low == old(low)
      ensures (!old(isCircuitBreakerActive) && old(high) != []) ==>
        phase == Fetching(old(high)[0]) && high == old(high)[1..] && low == old(low)
      ensures (!old(isCircuitBreakerActive) && old(high) == [] && old(low) != []) ==>
        phase == Fetching(old(low)[0]) && low == old(low)[1..] && high == old(high)
    {
      Advance();
    }

    /** The cool-down timer fires: the breaker is cleared and the loop restarted. */
    method CoolDownElapsed()
      requires Valid() && coolDowns > 0
      modifies this
      ensures Valid()
      ensures !isCircuitBreakerActive && errorCount == 0 && coolDowns == old(coolDowns) - 1
      ensures activeRequests == old(activeRequests) && calls == old(calls) && cacheWrites == old(cacheWrites)
      ensures old(isProcessing) || (old(high) == [] && old(low) == []) ==>
        high == old(high) && low == old(low) && phase == old(phase)
      ensures (!old(isProcessing) && old(high) != []) ==>
        phase == Fetching(old(high)[0]) && high == old(high)[1..] && low == old(low)
      ensures (!old(isProcessing) && old(high) == [] && old(low) != []) ==>
        phase == Fetching(old(low)[0]) && low == old(low)[1..] && high == old(high)
    {
      coolDowns := coolDowns - 1;
      isCircuitBreakerActive := false;
      errorCount := 0;
      StartQueue();
    }
  }

  /**
   * A successful handle stays in `activeRequests`: a second request for it
   * after the first has completed is ignored and never calls back.
   */
  method SuccessIsRememberedScenario() returns (secondQueued: bool, callbacks: nat)
    ensures !secondQueued && callbacks == 1
  {
    var f := new Fetcher();
    f.Enqueue("@alice", Some(1), false);
    var _ := f.FetchDone(Page(Some("Alice"), 900), 1500);
    f.Enqueue("@alice", Some(2), false);
    secondQueued := f.phase.Fetching? || f.high != [] || f.low != [];
    callbacks := |f.calls|;
  }
}
