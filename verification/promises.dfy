/** When a promise from `nicePromise` settles through the drain loop. Outside
    the slice the promise is pending until `next` runs its wrapper, and it
    settles when that wrapper returns normally, that is when `cb()` has
    returned and `resolve` has been called with its value. Dequeuing the
    wrapper settles nothing, and a wrapper whose `cb()` throws leaves its
    promise pending. */
module Promises {
  import opened State
  import opened Nice

  /** Outside the slice, with a clock that does not go back between the two
      readings, the wrapper always lands at the tail of the queue and the
      fresh promise has not settled. */
  lemma DeferredPromiseIsQueuedUnsettled<T>(s: Sched, now1: int, now2: int, body: FnId, value: T)
    requires Inv(s)
    requires !s.SliceOpen(now1) && now1 <= now2
    ensures NicePromise(s, now1, now2, body, value).1 == AwaitingWrapper(s.promises)
    ensures NicePromise(s, now1, now2, body, value).0.queue == s.queue + [Resolver(s.promises, body)]
    ensures !Settled(NicePromise(s, now1, now2, body, value).0, s.promises)
  {
  }

  /** Appending one run to a log settles exactly the promise that run resolves. */
  lemma HasResolverAppend(log: seq<Callback>, c: Callback, p: nat)
    ensures HasResolver(log + [c], p) <==> HasResolver(log, p) || (c.Resolver? && c.promise == p)
  {
    if HasResolver(log + [c], p) {
      var d :| d in log + [c] && d.Resolver? && d.promise == p;
      if d != c {
        assert d in log;
      }
    }
    if HasResolver(log, p) {
      var d :| d in log && d.Resolver? && d.promise == p;
      assert d in log + [c];
    }
  }

  /** Starting a drain calls the head but settles nothing: `resolve` runs
      only once the wrapper's `cb()` has returned. */
  lemma NextStartSettlesNothing(s: Sched, now: int, p: nat)
    requires s.drain == Idle && s.pending > 0 && s.queue != []
    ensures Settled(NextStart(s, now).value, p) <==> Settled(s, p)
  {
  }

  /** When the callback `next` is running returns normally, exactly the
      promise it is the wrapper of settles, whether `next` then continues
      or leaves its loop. */
  lemma ReturnSettles(s: Sched, now: int, p: nat)
    requires s.drain.Draining? && NextContinue(s, now).Success?
    ensures Settled(NextContinue(s, now).value, p) <==>
      Settled(s, p) || (s.drain.running.Resolver? && s.drain.running.promise == p)
  {
    HasResolverAppend(s.returned, s.drain.running, p);
  }

  /** A callback that throws out of `next` settles nothing: a wrapper whose
      `cb()` throws never calls `resolve`. */
  lemma ThrowSettlesNothing(s: Sched, p: nat)
    requires s.drain.Draining?
    ensures Settled(NextThrow(s), p) <==> Settled(s, p)
  {
  }

  /** A promise settles only after the drain loop has dequeued its wrapper. */
  lemma SettledOnlyAfterDequeued(s: Sched, p: nat)
    requires Inv(s) && Settled(s, p)
    ensures HasResolver(s.drained, p)
  {
    var c :| c in s.returned && c.Resolver? && c.promise == p;
    assert c in s.drained;
  }

  /** The wrapper of promise 0 is the only queued callback; the drain loop
      calls it and its `cb()` throws. The promise stays pending. */
  lemma ThrownWrapperLeavesPromisePending(body: FnId, now: int)
    ensures var s := Init().(queue := [Resolver(0, body)], pushed := [Resolver(0, body)], pending := 1, promises := 1);
            var running := NextStart(s, now).value;
            running.drain == Draining(true, Resolver(0, body))
            && HasResolver(running.drained, 0)
            && !Settled(NextThrow(running), 0)
  {
  }
}
