/** The trigger invariant and what it buys: each operation preserves it, the
    two failure paths of `next` are unreachable under it, and `next` never
    adds a second pending trigger. */
module Invariant {
  import opened State
  import opened Nice

  lemma SetNiceWorkTimePreservesInv(s: Sched, ms: int)
    requires Inv(s)
    ensures Inv(SetNiceWorkTime(s, ms))
  {
  }

  /** Appending outside the slice keeps "one trigger iff non-empty", and
      inside a drain with a clear latch it keeps the queue non-empty with no
      trigger: a push onto a non-empty queue schedules nothing. */
  lemma NextNicePreservesInv(s: Sched, now: int, cb: Callback)
    requires Inv(s)
    requires cb.Resolver? ==> cb.promise < s.promises
    ensures Inv(NextNice(s, now, cb))
  {
    var t := NextNice(s, now, cb);
    if !s.SliceOpen(now) {
      assert t.pushed == s.pushed + [cb] == s.drained + (s.queue + [cb]);
      forall c | c in t.pushed && c.Resolver?
        ensures c.promise < t.promises
      {
        if c != cb {
          assert c in s.pushed;
        }
      }
    } else {
      forall c | c in t.immediate && c.Resolver?
        ensures c.promise < t.promises
      {
        if c != cb {
          assert c in s.immediate;
        }
      }
    }
  }

  lemma NicePromisePreservesInv<T>(s: Sched, now1: int, now2: int, body: FnId, value: T)
    requires Inv(s)
    ensures Inv(NicePromise(s, now1, now2, body, value).0)
  {
    if s.SliceOpen(now1) {
      var t := NicePromise(s, now1, now2, body, value).0;
      forall c | c in t.immediate && c.Resolver?
        ensures c.promise < t.promises
      {
        assert c in s.immediate;
      }
    } else {
      var s' := s.(promises := s.promises + 1);
      assert Inv(s');
      NextNicePreservesInv(s', now2, Resolver(s.promises, body));
    }
  }

  /** The "Unexpected next() event" throw cannot happen: a pending trigger
      means the queue is non-empty. */
  lemma FiredTriggerFindsWork(s: Sched, now: int)
    requires Inv(s) && s.drain == Idle && s.pending > 0
    ensures s.queue != []
    ensures NextStart(s, now).Success?
  {
  }

  lemma NextStartPreservesInv(s: Sched, now: int)
    requires Inv(s) && s.drain == Idle && s.pending > 0
    ensures NextStart(s, now).Success? && Inv(NextStart(s, now).value)
  {
    var t := NextStart(s, now).value;
    assert s.queue == [s.queue[0]] + s.queue[1..];
    assert t.pushed == s.drained + s.queue == t.drained + t.queue;
  }

  /** The non-null assertion on `cb` holds: a shift made while the latch is
      clear always yields a callback, because the queue was non-empty when
      last observed and only `next` removes items. */
  lemma ShiftYieldsCallback(s: Sched, now: int)
    requires Inv(s) && s.drain.Draining? && !s.drain.skipTrigger
    ensures s.queue != []
    ensures NextContinue(s, now).Success?
  {
  }

  lemma NextContinuePreservesInv(s: Sched, now: int)
    requires Inv(s) && s.drain.Draining?
    ensures NextContinue(s, now).Success? && Inv(NextContinue(s, now).value)
  {
    var t := NextContinue(s, now).value;
    if s.SliceOpen(now) && !s.drain.skipTrigger {
      assert s.queue == [s.queue[0]] + s.queue[1..];
      assert t.pushed == s.drained + s.queue == t.drained + t.queue;
    }
  }

  /** Once latched, `skipTrigger` ends the invocation at the next loop test:
      nothing more is dequeued and nothing is rescheduled. */
  lemma SkipTriggerLatches(s: Sched, now: int)
    requires s.drain.Draining? && s.drain.skipTrigger
    ensures NextContinue(s, now) == Success(s.(drain := Idle, returned := s.returned + [s.drain.running]))
  {
  }

  /** Leaving the loop, `next` reschedules itself exactly when work remains,
      and it never leaves more than one trigger pending, whatever nested
      submissions did while its callbacks ran. */
  lemma RescheduleExactlyWhenWorkRemains(s: Sched, now: int)
    requires Inv(s) && s.drain.Draining?
    requires !(s.SliceOpen(now) && !s.drain.skipTrigger)
    ensures NextContinue(s, now).value.pending == Demand(s.queue)
    ensures NextContinue(s, now).value.pending > s.pending <==> !s.drain.skipTrigger
    ensures !s.drain.skipTrigger ==> s.queue != []
    ensures NextContinue(s, now).value.pending <= 1
  {
  }

  /** A new slice length is used by the next drain and not before. */
  lemma WorkTimeTakesEffectAtNextDrain(s: Sched, ms: int, now: int)
    requires s.drain == Idle && s.pending > 0 && s.queue != []
    ensures forall t: int :: SetNiceWorkTime(s, ms).SliceOpen(t) == s.SliceOpen(t)
    ensures NextStart(SetNiceWorkTime(s, ms), now).value.endWork == now + ms
  {
  }

  /** A throw that escapes `next` after the latch has closed is harmless. */
  lemma LatchedThrowPreservesInv(s: Sched)
    requires Inv(s) && s.drain.Draining? && s.drain.skipTrigger
    ensures Inv(NextThrow(s))
  {
  }
}
