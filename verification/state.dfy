/** The scheduler's shared state: the pending queue, the slice deadline and
    slice length, the pending `setImmediate(next)` triggers and the phase of
    the drain loop, together with logs of what has been submitted and run. */
module State {

  /** Identity of a user-supplied zero-argument function. */
  type FnId = nat

  /** A callback the scheduler holds or runs. */
  datatype Callback =
    | Plain(fn: FnId)                      // handed directly to nextNice
    | Resolver(promise: nat, body: FnId)   // the wrapper nicePromise builds: resolves `promise` with body()

  /** Where the drain loop `next` stands. `Draining` covers the time a callback
      that `next` dequeued is running: `skipTrigger` is the latch local to that
      invocation of `next` and `running` is its local `cb`. */
  datatype Drain = Idle | Draining(skipTrigger: bool, running: Callback)

  /** The two ways `next` itself fails: the "Unexpected next()" throw on an
      empty queue, and calling the `undefined` that `shift` yields on an empty
      queue inside the loop. */
  datatype Fault = UnexpectedNext | CallbackUndefined

  datatype Result<+T> = Success(value: T) | Failure(fault: Fault)

  datatype Sched = Sched(
    queue: seq<Callback>,       // the deque: pushed at the tail, shifted from the head
    pending: nat,               // setImmediate(next) calls not yet fired
    endWork: int,               // end of the current slice
    workTimeMs: int,            // slice length
    drain: Drain,
    pushed: seq<Callback>,      // every callback ever pushed onto the queue, in push order
    drained: seq<Callback>,     // every callback `next` dequeued and ran, in run order
    returned: seq<Callback>,    // every callback `next` ran that returned normally, in order
    immediate: seq<Callback>,   // every callback run synchronously at submission
    promises: nat)              // promises allocated so far by the queued path of nicePromise
  {
    /** `Date.now() < endWork` for the clock reading `now`. */
    predicate SliceOpen(now: int) {
      now < endWork
    }
  }

  /** The module's initial values: `endWork = 0`, `workTimeMs = 1`, empty queue. */
  function Init(): (s: Sched)
    ensures s.queue == [] && s.pending == 0 && s.drain == Idle
    ensures s.endWork == 0 && s.workTimeMs == 1
  {
    Sched([], 0, 0, 1, Idle, [], [], [], [], 0)
  }

  /** The number of pending triggers a queue needs: one exactly when it is non-empty. */
  function Demand(q: seq<Callback>): nat {
    if |q| > 0 then 1 else 0
  }

  /** True when some run in `log` is the wrapper resolving promise `p`. */
  predicate HasResolver(log: seq<Callback>, p: nat) {
    exists c :: c in log && c.Resolver? && c.promise == p
  }

  /** Every promise identity a wrapper carries was allocated already. */
  predicate WrappersAllocated(log: seq<Callback>, promises: nat) {
    forall c :: c in log && c.Resolver? ==> c.promise < promises
  }

  /** The scheduler invariant.
      - FIFO: what `next` has run is exactly the pushed callbacks minus what is
        still queued, in push order.
      - Runs: the callback `next` is running is the last one it dequeued, and
        whatever returned was dequeued first.
      - Triggers: outside a drain, and inside one once `skipTrigger` has
        latched, exactly one trigger is pending when the queue is non-empty and
        none otherwise. Inside a drain whose latch is still clear, no trigger is
        pending (the running `next` owns the reschedule) and the queue is
        non-empty. */
  predicate Inv(s: Sched) {
    && s.pushed == s.drained + s.queue
    && WrappersAllocated(s.pushed, s.promises)
    && WrappersAllocated(s.immediate, s.promises)
    && (forall c :: c in s.returned ==> c in s.drained)
    && (s.drain.Draining? ==> |s.drained| > 0 && s.drain.running == s.drained[|s.drained| - 1])
    && match s.drain
       case Idle => s.pending == Demand(s.queue)
       case Draining(skip, _) =>
         if skip then s.pending == Demand(s.queue)
         else s.pending == 0 && |s.queue| > 0
  }

  lemma InitSatisfiesInv()
    ensures Inv(Init())
  {
  }
}
