/** One whole invocation of `next` when none of the callbacks it runs submits
    further work. `clock(0)` is the reading that sets the deadline and
    `clock(i)` the loop test after the i-th callback returns. */
module DrainLoop {
  import opened State
  import opened Nice

  /** Runs `next` to the end of its loop by composing its steps. It runs the
      longest prefix of the queue, at least one callback, that the clock
      allows: it stops after callback `ran` because the queue is exhausted or
      because the reading after it is past the deadline, and every earlier
      reading was within the slice. Every callback it ran has returned. The
      rest stays queued, and exactly one trigger is left for it when it is
      non-empty. */
  method Next(s: Sched, clock: nat -> int) returns (r: Result<Sched>, ran: nat)
    requires s.drain == Idle && s.pending > 0
    ensures r.Failure? <==> s.queue == []
    ensures r.Failure? ==> r.fault == UnexpectedNext
    ensures r.Success? ==>
      && 1 <= ran <= |s.queue|
      && r.value.drained == s.drained + s.queue[..ran]
      && r.value.returned == s.returned + s.queue[..ran]
      && r.value.queue == s.queue[ran..]
      && r.value.drain == Idle
      && r.value.endWork == clock(0) + s.workTimeMs
      && r.value.pending == s.pending - 1 + Demand(r.value.queue)
      && (forall j: nat :: 1 <= j < ran ==> clock(j) < r.value.endWork)
      && (ran == |s.queue| || clock(ran) >= r.value.endWork)
      && r.value.pushed == s.pushed && r.value.immediate == s.immediate
      && r.value.promises == s.promises && r.value.workTimeMs == s.workTimeMs
  {
    r := NextStart(s, clock(0));
    ran := 0;
    if r.Failure? {
      return;
    }
    var t := r.value;
    ran := 1;
    assert s.queue[..1] == [s.queue[0]];
    while t.drain.Draining?
      invariant 1 <= ran <= |s.queue|
      invariant t.drained == s.drained + s.queue[..ran]
      invariant t.queue == s.queue[ran..]
      invariant t.endWork == clock(0) + s.workTimeMs
      invariant t.pushed == s.pushed && t.immediate == s.immediate
      invariant t.promises == s.promises && t.workTimeMs == s.workTimeMs
      invariant t.drain.Draining? ==> t.drain.running == s.queue[ran - 1] && t.returned == s.returned + s.queue[..ran - 1]
      invariant t.drain.Idle? ==> t.returned == s.returned + s.queue[..ran]
      invariant forall j: nat :: 1 <= j < ran ==> clock(j) < t.endWork
      invariant t.drain.Draining? ==> t.drain.skipTrigger == (ran == |s.queue|) && t.pending == s.pending - 1
      invariant t.drain.Idle? ==> t.pending == s.pending - 1 + Demand(t.queue)
      invariant t.drain.Idle? ==> ran == |s.queue| || clock(ran) >= t.endWork
      decreases |t.queue| + (if t.drain.Draining? then 1 else 0)
    {
      var step := NextContinue(t, clock(ran));
      assert step.Success?;
      assert s.queue[..ran] == s.queue[..ran - 1] + [s.queue[ran - 1]];
      if step.value.drain.Draining? {
        assert s.queue[..ran + 1] == s.queue[..ran] + [s.queue[ran]];
        ran := ran + 1;
      }
      t := step.value;
    }
    r := Success(t);
  }
}
