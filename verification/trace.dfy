/** Whole runs of the scheduler: the events the program and the host can
    produce, which of them can occur in a given state, and the theorems about
    runs. Along every run `next` never fails, at most one trigger is pending
    and the drain loop runs a prefix of what was pushed. Along every run in
    which no callback throws out of `next` while its latch is clear, the
    trigger invariant `Inv` holds as well; such a throw leaves the queue
    stalled for good. */
module Trace {
  import opened State
  import opened Nice
  import opened Invariant

  /** One thing that happens to the scheduler. Submissions may happen at any
      time, including from inside a callback the drain loop is running. */
  datatype Event =
    | Submit(now: int, fn: FnId)                        // nextNice(fn)
    | SubmitPromise(now1: int, now2: int, body: FnId)   // nicePromise(body)
    | SetWorkTime(ms: int)                              // setNiceWorkTime(ms)
    | Fire(now: int)                                    // the host runs a pending setImmediate(next)
    | Resume(now: int)                                  // the callback `next` called returns
    | Throw                                             // the callback `next` called throws

  /** The host fires a trigger only when one is pending and the stack is
      empty; a callback of `next` can return or throw only while `next` runs. */
  predicate Enabled(s: Sched, e: Event) {
    match e
    case Fire(_) => s.drain == Idle && s.pending > 0
    case Resume(_) => s.drain.Draining?
    case Throw => s.drain.Draining?
    case _ => true
  }

  /** Enabled, and not a throw out of `next` while its latch is clear (the
      one event that breaks the invariant; see `ThrowBeforeLatchStalls`). */
  predicate Safe(s: Sched, e: Event) {
    Enabled(s, e) && !(e.Throw? && s.drain.Draining? && !s.drain.skipTrigger)
  }

  function Step(s: Sched, e: Event): Result<Sched>
    requires Enabled(s, e)
  {
    match e
    case Submit(now, fn) => Success(NextNice(s, now, Plain(fn)))
    case SubmitPromise(now1, now2, body) => Success(NicePromise(s, now1, now2, body, ()).0)
    case SetWorkTime(ms) => Success(SetNiceWorkTime(s, ms))
    case Fire(now) => NextStart(s, now)
    case Resume(now) => NextContinue(s, now)
    case Throw => Success(NextThrow(s))
  }

  /** Every event of `es` can occur in the state it meets, as long as no
      step before it has failed. */
  predicate Feasible(s: Sched, es: seq<Event>)
    decreases |es|
  {
    |es| == 0 ||
    (Enabled(s, es[0]) && (Step(s, es[0]).Success? ==> Feasible(Step(s, es[0]).value, es[1..])))
  }

  /** Every event of `es` is safe in the state it meets, as long as no step
      before it has failed. */
  predicate Legal(s: Sched, es: seq<Event>): (b: bool)
    ensures b ==> Feasible(s, es)
    decreases |es|
  {
    |es| == 0 ||
    (Safe(s, es[0]) && (Step(s, es[0]).Success? ==> Legal(Step(s, es[0]).value, es[1..])))
  }

  /** Applies the events in order, stopping at the first failure. */
  function Run(s: Sched, es: seq<Event>): Result<Sched>
    requires Feasible(s, es)
    decreases |es|
  {
    if |es| == 0 then Success(s)
    else
      match Step(s, es[0])
      case Failure(f) => Failure(f)
      case Success(t) => Run(t, es[1..])
  }

  lemma StepPreservesInv(s: Sched, e: Event)
    requires Inv(s) && Safe(s, e)
    ensures Step(s, e).Success? && Inv(Step(s, e).value)
  {
    match e
    case Submit(now, fn) => NextNicePreservesInv(s, now, Plain(fn));
    case SubmitPromise(now1, now2, body) => NicePromisePreservesInv(s, now1, now2, body, ());
    case SetWorkTime(ms) => SetNiceWorkTimePreservesInv(s, ms);
    case Fire(now) => NextStartPreservesInv(s, now);
    case Resume(now) => NextContinuePreservesInv(s, now);
    case Throw => LatchedThrowPreservesInv(s);
  }

  lemma {:induction false} RunPreservesInv(s: Sched, es: seq<Event>)
    requires Inv(s) && Legal(s, es)
    ensures Run(s, es).Success? && Inv(Run(s, es).value)
    decreases |es|
  {
    if |es| > 0 {
      StepPreservesInv(s, es[0]);
      RunPreservesInv(Step(s, es[0]).value, es[1..]);
    }
  }

  /** From the initial state, along every legal run: neither failure of
      `next` ever happens, at most one trigger is pending outside a drain,
      and the drain loop has run exactly a prefix of what was pushed, in
      push order and each callback once. */
  lemma SchedulerNeverFaults(es: seq<Event>)
    requires Legal(Init(), es)
    ensures Run(Init(), es).Success?
    ensures Inv(Run(Init(), es).value)
    ensures Run(Init(), es).value.pending <= 1
    ensures Run(Init(), es).value.drained == Run(Init(), es).value.pushed[..|Run(Init(), es).value.drained|]
  {
    InitSatisfiesInv();
    RunPreservesInv(Init(), es);
    var t := Run(Init(), es).value;
    assert t.pushed[..|t.drained|] == (t.drained + t.queue)[..|t.drained|] == t.drained;
  }

  /** Work is queued, nothing is running and no trigger is pending: nothing
      will ever drain the queue again. */
  predicate Stalled(s: Sched) {
    s.drain == Idle && s.queue != [] && s.pending == 0
  }

  /** A callback of `next` that throws while work remains and the latch is
      clear leaves `next` before the reschedule: the queue is left stalled. */
  lemma ThrowBeforeLatchStalls(s: Sched)
    requires Inv(s) && s.drain.Draining? && !s.drain.skipTrigger
    ensures Stalled(NextThrow(s))
    ensures !Inv(NextThrow(s))
  {
  }

  /** From a stalled state the only possible events are submissions, which
      push without scheduling (the queue is non-empty) or run at once: the
      state stays stalled and the drain loop runs nothing more. */
  lemma {:induction false} StallIsPermanent(s: Sched, es: seq<Event>)
    requires Stalled(s) && Feasible(s, es)
    ensures Run(s, es).Success?
    ensures Stalled(Run(s, es).value)
    ensures Run(s, es).value.drained == s.drained
    decreases |es|
  {
    if |es| > 0 {
      var t := Step(s, es[0]);
      assert t.Success? && Stalled(t.value) && t.value.drained == s.drained;
      StallIsPermanent(t.value, es[1..]);
    }
  }

  /** What holds along every run: the trigger invariant, or a stalled state
      that a throw before the latch left behind, still in FIFO order. */
  predicate Sound(s: Sched) {
    Inv(s) || (Stalled(s) && s.pushed == s.drained + s.queue)
  }

  /** Every event that can occur keeps `Sound` and never makes `next` fail. */
  lemma StepKeepsSound(s: Sched, e: Event)
    requires Sound(s) && Enabled(s, e)
    ensures Step(s, e).Success? && Sound(Step(s, e).value)
  {
    if Inv(s) {
      if Safe(s, e) {
        StepPreservesInv(s, e);
      } else {
        ThrowBeforeLatchStalls(s);
      }
    } else {
      var t := Step(s, e).value;
      assert Stalled(t) && t.pushed == t.drained + t.queue;
    }
  }

  lemma {:induction false} RunKeepsSound(s: Sched, es: seq<Event>)
    requires Sound(s) && Feasible(s, es)
    ensures Run(s, es).Success? && Sound(Run(s, es).value)
    decreases |es|
  {
    if |es| > 0 {
      StepKeepsSound(s, es[0]);
      RunKeepsSound(Step(s, es[0]).value, es[1..]);
    }
  }

  /** From the initial state, along every run whatever its callbacks do:
      neither failure of `next` ever happens, at most one trigger is pending,
      and the drain loop has run exactly a prefix of what was pushed, in push
      order and each callback once. */
  lemma SchedulerNeverFaultsOnAnyRun(es: seq<Event>)
    requires Feasible(Init(), es)
    ensures Run(Init(), es).Success?
    ensures Run(Init(), es).value.pending <= 1
    ensures Run(Init(), es).value.pushed == Run(Init(), es).value.drained + Run(Init(), es).value.queue
    ensures Run(Init(), es).value.drained == Run(Init(), es).value.pushed[..|Run(Init(), es).value.drained|]
  {
    InitSatisfiesInv();
    RunKeepsSound(Init(), es);
    var t := Run(Init(), es).value;
    assert t.pushed[..|t.drained|] == (t.drained + t.queue)[..|t.drained|] == t.drained;
  }
}
