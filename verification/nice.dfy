/** The operations of the scheduler as pure transitions on `Sched`.

    `next` is split into small steps so that the environment can act while a
    callback it dequeued is running (nested submissions):
    - `NextStart`: the event loop fires a pending trigger; `next` shifts the
      head, computes `skipTrigger`, sets the deadline and calls the callback.
    - `NextContinue`: that callback has returned; `next` either shifts and
      calls the next one, or leaves the loop and reschedules itself when the
      latch is clear.
    - `NextThrow`: that callback has thrown; the exception leaves `next`. */
module Nice {
  import opened State

  /** What `nicePromise` hands back: a promise already resolved with the
      value `cb()` returned, or the promise with the given identity, which its
      wrapper resolves once `cb()` inside it has returned. That promise is
      pending when the wrapper is queued; when the second clock reading is
      back inside the slice, the wrapper has already run inside the promise
      executor and the promise is no longer pending. */
  datatype Promise<T> = ResolvedNow(value: T) | AwaitingWrapper(id: nat)

  /** `setNiceWorkTime(ms)`: stores the slice length and nothing else. The
      current slice keeps its deadline, so no slice decision changes. */
  function SetNiceWorkTime(s: Sched, ms: int): (t: Sched)
    ensures t.workTimeMs == ms
    ensures t.endWork == s.endWork
    ensures forall now: int :: t.SliceOpen(now) == s.SliceOpen(now)
    ensures t.queue == s.queue && t.pending == s.pending && t.drain == s.drain
    ensures t.pushed == s.pushed && t.drained == s.drained && t.returned == s.returned
    ensures t.immediate == s.immediate && t.promises == s.promises
  {
    s.(workTimeMs := ms)
  }

  /** `nextNice(cb)` with clock reading `now`. Inside the slice the callback
      runs at once (anything it submits arrives as later events); outside it
      is appended to the queue, and a trigger is scheduled exactly when the
      queue was empty. */
  function NextNice(s: Sched, now: int, cb: Callback): (t: Sched)
    ensures s.SliceOpen(now) ==> t.immediate == s.immediate + [cb] && t.queue == s.queue && t.pushed == s.pushed
    ensures !s.SliceOpen(now) ==> t.immediate == s.immediate && t.queue == s.queue + [cb] && t.pushed == s.pushed + [cb]
    ensures t.pending == s.pending + (if !s.SliceOpen(now) && s.queue == [] then 1 else 0)
    ensures t.drained == s.drained && t.returned == s.returned && t.drain == s.drain && t.promises == s.promises
    ensures t.endWork == s.endWork && t.workTimeMs == s.workTimeMs
  {
    if s.SliceOpen(now) then
      s.(immediate := s.immediate + [cb])
    else
      var scheduled := if |s.queue| == 0 then s.pending + 1 else s.pending;
      s.(queue := s.queue + [cb], pushed := s.pushed + [cb], pending := scheduled)
  }

  /** `nicePromise(cb)`. `now1` is the clock reading of its own slice test,
      `now2` the one `nextNice` takes for the wrapper; `value` is what `cb()`
      returns when evaluated synchronously. Inside the slice the promise is
      resolved at once and nothing is queued. Outside it, a fresh promise is
      allocated and its wrapper goes through `nextNice`: it is queued when the
      second reading is outside the slice too, and run at once, inside the
      promise executor, when that reading is back inside the slice. */
  function NicePromise<T>(s: Sched, now1: int, now2: int, body: FnId, value: T): (r: (Sched, Promise<T>))
    ensures s.SliceOpen(now1) ==>
      && r.1 == ResolvedNow(value)
      && r.0.immediate == s.immediate + [Plain(body)]
      && r.0.queue == s.queue && r.0.pushed == s.pushed
      && r.0.pending == s.pending && r.0.promises == s.promises
    ensures !s.SliceOpen(now1) ==>
      && r.1 == AwaitingWrapper(s.promises)
      && r.0.promises == s.promises + 1
    ensures !s.SliceOpen(now1) && !s.SliceOpen(now2) ==>
      && r.0.queue == s.queue + [Resolver(s.promises, body)]
      && r.0.pushed == s.pushed + [Resolver(s.promises, body)]
      && r.0.immediate == s.immediate
      && r.0.pending == s.pending + Demand(r.0.queue) - Demand(s.queue)
    ensures !s.SliceOpen(now1) && s.SliceOpen(now2) ==>
      && r.0.immediate == s.immediate + [Resolver(s.promises, body)]
      && r.0.queue == s.queue && r.0.pushed == s.pushed
      && r.0.pending == s.pending
    ensures r.0.drained == s.drained && r.0.returned == s.returned && r.0.drain == s.drain
    ensures r.0.endWork == s.endWork && r.0.workTimeMs == s.workTimeMs
  {
    if s.SliceOpen(now1) then
      (s.(immediate := s.immediate + [Plain(body)]), ResolvedNow(value))
    else
      var p := s.promises;
      (NextNice(s.(promises := p + 1), now2, Resolver(p, body)), AwaitingWrapper(p))
  }

  /** The promise with identity `p` has been resolved by the drain loop: its
      wrapper, called by `next`, returned normally, so `resolve(cb())` ran. */
  predicate Settled(s: Sched, p: nat) {
    HasResolver(s.returned, p)
  }

  /** The event loop runs a pending `next`: it consumes the trigger, shifts the
      head (throwing "Unexpected next()" when there is none), latches
      `skipTrigger` on the emptiness of what is left, opens a fresh slice and
      calls the head. The host only runs a scheduled immediate, and only on
      an empty stack, hence the requires. */
  function NextStart(s: Sched, now: int): (r: Result<Sched>)
    requires s.drain == Idle && s.pending > 0
    ensures r.Failure? <==> s.queue == []
    ensures r.Failure? ==> r.fault == UnexpectedNext
    ensures r.Success? ==>
      && r.value.drained == s.drained + [s.queue[0]]
      && r.value.queue == s.queue[1..]
      && r.value.drain == Draining(|s.queue| == 1, s.queue[0])
      && r.value.pending == s.pending - 1
      && r.value.endWork == now + s.workTimeMs
      && r.value.workTimeMs == s.workTimeMs
      && r.value.returned == s.returned
      && r.value.pushed == s.pushed && r.value.immediate == s.immediate && r.value.promises == s.promises
  {
    if |s.queue| == 0 then
      Failure(UnexpectedNext)
    else
      var cb := s.queue[0];
      var rest := s.queue[1..];
      Success(s.(queue := rest, pending := s.pending - 1, drain := Draining(|rest| == 0, cb),
                 endWork := now + s.workTimeMs, drained := s.drained + [cb]))
  }

  /** The callback `next` called has returned normally and the loop test
      reads `now`. While the slice is open and the latch clear, `next` shifts
      again and calls what it got (an `undefined` if the queue is empty, which
      throws); otherwise it leaves the loop, rescheduling itself only when
      the latch is clear. */
  function NextContinue(s: Sched, now: int): (r: Result<Sched>)
    requires s.drain.Draining?
    ensures r.Failure? <==> s.SliceOpen(now) && !s.drain.skipTrigger && s.queue == []
    ensures r.Failure? ==> r.fault == CallbackUndefined
    ensures r.Success? && s.SliceOpen(now) && !s.drain.skipTrigger ==>
      && r.value.drained == s.drained + [s.queue[0]]
      && r.value.queue == s.queue[1..]
      && r.value.drain == Draining(|s.queue| == 1, s.queue[0])
      && r.value.pending == s.pending
    ensures !(s.SliceOpen(now) && !s.drain.skipTrigger) ==>
      && r.Success?
      && r.value.drain == Idle
      && r.value.queue == s.queue && r.value.drained == s.drained
      && r.value.pending == s.pending + (if s.drain.skipTrigger then 0 else 1)
    ensures r.Success? ==>
      && r.value.returned == s.returned + [s.drain.running]
      && r.value.endWork == s.endWork && r.value.workTimeMs == s.workTimeMs
      && r.value.pushed == s.pushed && r.value.immediate == s.immediate && r.value.promises == s.promises
  {
    var skip := s.drain.skipTrigger;
    var done := s.returned + [s.drain.running];
    if s.SliceOpen(now) && !skip then
      if |s.queue| == 0 then
        Failure(CallbackUndefined)
      else
        var cb := s.queue[0];
        var rest := s.queue[1..];
        Success(s.(queue := rest, drain := Draining(skip || |rest| == 0, cb),
                   drained := s.drained + [cb], returned := done))
    else
      var rescheduled := if !skip then s.pending + 1 else s.pending;
      Success(s.(drain := Idle, pending := rescheduled, returned := done))
  }

  /** The callback `next` called has thrown: the exception leaves `next`
      before its reschedule, so the queue and the triggers stay as they are,
      and the callback is not counted as returned. */
  function NextThrow(s: Sched): (t: Sched)
    requires s.drain.Draining?
    ensures t.drain == Idle
    ensures t.queue == s.queue && t.pending == s.pending && t.drained == s.drained
    ensures t.returned == s.returned
    ensures t.endWork == s.endWork && t.workTimeMs == s.workTimeMs
    ensures t.pushed == s.pushed && t.immediate == s.immediate && t.promises == s.promises
  {
    s.(drain := Idle)
  }
}
