# node-nice scheduler, modelled in Dafny

node-nice is a cooperative, time-sliced scheduler for a single-threaded event
loop. The library keeps the following shared state:
- a FIFO queue of callbacks;
- a slice deadline `endWork`;
- a slice length `workTimeMs`.

`nextNice(cb)` runs `cb` at once while the current slice is open. Otherwise it
appends `cb` to the queue and schedules the drain loop `next` with
`setImmediate` when the queue was empty. `next` opens a fresh slice and runs
queued callbacks in order while time remains. A latched flag `skipTrigger`
decides whether `next` reschedules itself: the flag is set once the queue is
seen empty during the invocation. `nicePromise(cb)` is the promise form of
`nextNice`. `setNiceWorkTime(ms)` sets the slice length.

This model treats the scheduler as an immutable state (`State.Sched`) with pure
transitions (module `Nice`):
- The clock is an integer reading supplied to each step. "Inside the slice"
  means `now < endWork`.
- `setImmediate(next)` is a count of pending triggers.
- The deque is a `seq` that is pushed at the tail and shifted from the head.
- `next` is split into steps, so that callbacks it runs can submit work
  re-entrantly:
  - `NextStart`: the host fires a trigger, `next` shifts the head, latches
    `skipTrigger`, sets the deadline and calls the callback.
  - `NextContinue`: the loop test after a callback returns.
  - `NextThrow`: a callback throws out of `next`.
- Observation logs record every push, every callback `next` ran, every
  callback `next` ran that returned normally, and every callback run
  synchronously. FIFO order and promise settlement are stated
  over these logs.

The central invariant is `State.Inv`:
- Outside a drain, exactly one trigger is pending when the queue is non-empty
  and none otherwise.
- Inside a drain whose latch is still clear, no trigger is pending and the
  queue is non-empty.
- In every state, what the drain loop has run plus what is still queued is
  exactly what was pushed.

`Trace.SchedulerNeverFaults` proves this invariant along every run from the
initial state in which no callback throws out of `next` while its latch is
clear. Such a throw skips the reschedule and leaves the queue stalled for
good: work is queued but no trigger is pending. `Trace.SchedulerNeverFaultsOnAnyRun`
covers every run, including those with throwing callbacks. Along every run:
- The "Unexpected next()" throw is unreachable.
- The non-null assertion on `cb` inside the loop always holds.
- At most one trigger is ever pending.
- The drain loop has run a prefix of what was pushed, in push order.

The invariant holds for any clock readings at all. It does not rely on the
clock being monotone.

Two behaviours of the code are worth stating plainly:
- `setNiceWorkTime` only stores the slice length. It does not reset the
  current deadline, so a new length takes effect at the next drain
  (src/index.ts:21, 36-38).
- `nicePromise` installs no error handling of its own (src/index.ts:40-50).
  A promise resolves only when `cb()` returns, and a queued wrapper whose
  `cb()` throws leaves its promise pending.

## Model

| member | source | states |
|---|---|---|
| State.Init | src/index.ts:5-8 | The scheduler starts with an empty queue, no pending trigger, `endWork` 0 and `workTimeMs` 1 |
| State.InitSatisfiesInv | src/index.ts:5-8 | The initial state satisfies the trigger and FIFO invariant |
| Nice.SetNiceWorkTime | src/index.ts:36-38 | Setting the slice length changes nothing else: the deadline is kept, so no slice decision changes, and the queue and the triggers are untouched |
| Nice.NextNice | src/index.ts:52-61 | Inside the slice the callback runs at once, and the queue and the triggers are unchanged. Outside it, the callback is appended at the tail, and a trigger is added if and only if the queue was empty |
| Nice.NicePromise | src/index.ts:40-54 | Inside the slice the promise is resolved at once with the callback's value, and nothing is queued. Outside it, a fresh promise is returned and its wrapper goes through `nextNice`. The wrapper is appended at the tail when the second clock reading is also outside the slice. It runs at once, with the queue and triggers untouched, when that reading is back inside |
| Nice.NextStart | src/index.ts:10-23 | Fails with "Unexpected next()" exactly on an empty queue. Otherwise it consumes the trigger, removes the head and runs it, latches `skipTrigger` on whether the queue is now empty, and sets the deadline to now plus the slice length |
| Nice.NextContinue | src/index.ts:22-33 | Records the callback that just returned as returned. Then, while the slice is open and the latch is clear, it removes the next head and runs it. It fails only if the queue is empty at that point. Otherwise it leaves the loop, queue untouched, and adds a trigger exactly when the latch is clear |
| Nice.NextThrow | src/index.ts:23-33 | A callback that throws out of `next` skips the reschedule: the queue and the triggers stay as they were, and the callback is not recorded as returned |
| Invariant.SetNiceWorkTimePreservesInv | src/index.ts:36-38 | Changing the slice length preserves the invariant |
| Invariant.NextNicePreservesInv | src/index.ts:52-61 | A submission preserves the invariant, including one made from inside a running drain: pushing onto a non-empty queue schedules nothing |
| Invariant.NicePromisePreservesInv | src/index.ts:40-50 | A promise submission preserves the invariant |
| Invariant.FiredTriggerFindsWork | src/index.ts:11-15 | Under the invariant, a fired trigger always finds the queue non-empty, so the "Unexpected next()" throw is unreachable |
| Invariant.NextStartPreservesInv | src/index.ts:10-23 | Starting a drain preserves the invariant. The head moves from the queue to the end of the drained log |
| Invariant.ShiftYieldsCallback | src/index.ts:23-26 | Under the invariant, a shift made while the latch is clear always yields a callback, so the non-null assertion on `cb` holds |
| Invariant.NextContinuePreservesInv | src/index.ts:22-33 | Every loop test of `next`, whether it continues or exits, preserves the invariant |
| Invariant.SkipTriggerLatches | src/index.ts:19-28 | Once `skipTrigger` is true, the next loop test ends the invocation: nothing more is dequeued and nothing is rescheduled |
| Invariant.RescheduleExactlyWhenWorkRemains | src/index.ts:17-33 | On loop exit, `next` adds a trigger exactly when the latch is clear. The pending triggers then equal one if the queue is non-empty and zero otherwise, never two |
| Invariant.WorkTimeTakesEffectAtNextDrain | src/index.ts:21-38 | A new slice length leaves the current slice decision unchanged. The next drain's deadline is the fire time plus the new length |
| Invariant.LatchedThrowPreservesInv | src/index.ts:17-19 | A throw out of `next` after the latch has closed preserves the invariant |
| Promises.DeferredPromiseIsQueuedUnsettled | src/index.ts:44-48 | Outside the slice, with a clock that does not go back, the wrapper always lands at the tail of the queue, and the new promise has not settled |
| Promises.NextStartSettlesNothing | src/index.ts:45-47 | Calling a wrapper settles no promise: `resolve` runs only after `cb()` returns |
| Promises.ReturnSettles | src/index.ts:45-47 | When the callback `next` is running returns normally, a promise settles if and only if that callback is its wrapper |
| Promises.ThrowSettlesNothing | src/index.ts:45-47 | A callback that throws out of `next` settles no promise |
| Promises.SettledOnlyAfterDequeued | src/index.ts:44-47 | Under the invariant, a settled promise's wrapper has already been dequeued by the drain loop |
| Promises.ThrownWrapperLeavesPromisePending | src/index.ts:45-47 | Concrete run: the only queued callback is a wrapper, the drain calls it and its `cb()` throws, so the promise stays pending |
| DrainLoop.Next | src/index.ts:10-34 | With callbacks that submit nothing, one `next` runs the longest prefix of the queue, of at least one callback, that the clock readings allow, and each of those callbacks returns. The rest stays queued, with exactly one trigger for it when it is non-empty |
| Trace.StepPreservesInv | src/index.ts:10-61 | Every safe event keeps the invariant and never makes `next` fail |
| Trace.RunPreservesInv | src/index.ts:10-61 | Every legal run from a state satisfying the invariant ends without a fault and with the invariant intact |
| Trace.SchedulerNeverFaults | src/index.ts:10-61 | From the initial state, along every run with no throw out of `next` while its latch is clear, the invariant holds, `next` never fails and at most one trigger is pending. The drain loop has run a prefix of what was pushed, in push order, each callback once |
| Trace.ThrowBeforeLatchStalls | src/index.ts:22-33 | A callback that throws while work remains and the latch is clear leaves the queue non-empty with no trigger and nothing running. This breaks the invariant |
| Trace.StallIsPermanent | src/index.ts:52-61 | In a stalled state, submissions push without scheduling, so the queue is never drained again |
| Trace.StepKeepsSound | src/index.ts:10-61 | Every event that can occur, a throw included, keeps the scheduler either under the invariant or stalled in FIFO order, and never makes `next` fail |
| Trace.RunKeepsSound | src/index.ts:10-61 | Every run from such a state ends without a fault and in such a state |
| Trace.SchedulerNeverFaultsOnAnyRun | src/index.ts:10-61 | From the initial state, along every run whatever its callbacks do, `next` never fails and at most one trigger is pending. The drain loop has run exactly a prefix of what was pushed, in push order |

## Left out

- Real `Date.now()`: each step takes an arbitrary integer reading instead. Fractional milliseconds and non-integer `ms` values are not modelled.
- Event-loop timing of `setImmediate`: it is modelled as a counter of pending triggers. The host fires one only when the stack is empty.
- The internals of the `double-ended-queue` library: the library is foreign code. The model uses a sequence with push at the tail, shift from the head and an emptiness test.
- Promise settlement and microtask ordering: a promise is modelled only as "resolved now with a value" or "resolved when its queued wrapper returns". The value a deferred `cb()` produces is not tracked.
- Nice.NicePromise: it does not model two throw behaviours of the source. Inside the slice, a throwing `cb` makes `nicePromise` itself throw (src/index.ts:42). In the branch where the second clock reading is back inside the slice, the wrapper runs inside the Promise executor, and a throwing `cb` there rejects the promise (src/index.ts:44-46, 53-54). Callbacks are identities here, and the return of a synchronously run callback is not an event of the model. For the same reason, `Nice.Settled` tracks only wrappers run by the drain loop, not one run synchronously in that branch.
- What callbacks compute: a callback is an identity. Its effect on the scheduler is the events it causes, namely nested submissions, returning and throwing.
- `nice`, `niceMap`, `niceForEach`, `niceCallback`, `niceShouldQueue` and `niceSetWorkMs`: the test file imports them, but they do not exist in src/index.ts. The iteration forms and the introspection query are therefore not modelled.
- Trace.SchedulerNeverFaults: the invariant `Inv` is stated only for runs in which no callback throws out of `next` while its latch is clear. Such a throw breaks `Inv` and stalls the queue for good, as `Trace.ThrowBeforeLatchStalls` and `Trace.StallIsPermanent` show. Fault-freedom, the bound of one trigger and FIFO order hold on every run (`Trace.SchedulerNeverFaultsOnAnyRun`).
- DrainLoop.Next: it covers a whole invocation only when the callbacks submit nothing. Invocations with re-entrant submissions are covered step by step by `Nice.NextStart`, `Nice.NextContinue` and the trace theorem.
