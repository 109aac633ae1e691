/** Condition variables: a queue of semaphores, one for each waiting thread. */
module Conditions {
  import opened Common
  import opened Semaphores

  /** The threads that `V` on each of the semaphores makes ready, in order. */
  function WokenBy(sems: seq<Sem>): seq<Tid> {
    if sems == [] then [] else
      WokenBy(sems[..|sems| - 1]) + (var w := Woken(sems[|sems| - 1]); if w.Some? then [w.value] else [])
  }

  function States(queue: seq<Semaphore>): (sems: seq<Sem>)
    reads queue
  {
    seq(|queue|, i requires 0 <= i < |queue| reads queue => queue[i].State())
  }

  lemma WokenBySnoc(sems: seq<Sem>, n: nat)
    requires n < |sems|
    ensures WokenBy(sems[..n + 1]) ==
            WokenBy(sems[..n]) + (if Woken(sems[n]).Some? then [Woken(sems[n]).value] else [])
  {
    assert sems[..n + 1][..n] == sems[..n];
  }

  class Condition {
    var waitQueue: seq<Semaphore>

    constructor ()
      ensures waitQueue == []
    {
      waitQueue := [];
    }

    /** `Wait` up to the release of the lock. */
    method Enqueue() returns (waiter: Semaphore)
      requires NoDup(waitQueue)
      modifies this
      ensures fresh(waiter) && waiter.State() == Sem(0, [])
      ensures waitQueue == old(waitQueue) + [waiter] && NoDup(waitQueue)
    {
      waiter := new Semaphore(0);
      waitQueue := waitQueue + [waiter];
    }

    /** The longest waiter, if any, gets the unit. */
    method Signal() returns (ready: Option<Tid>)
      requires NoDup(waitQueue)
      modifies this, waitQueue
      ensures old(waitQueue) == [] ==> waitQueue == [] && ready == None
      ensures old(waitQueue) != [] ==>
                && waitQueue == old(waitQueue)[1..]
                && old(waitQueue)[0].State() == DoV(old(waitQueue[0].State()))
                && ready == Woken(old(waitQueue[0].State()))
                && States(waitQueue) == old(States(waitQueue))[1..]
      ensures NoDup(waitQueue)
    {
      ready := None;
      if waitQueue != [] {
        var waiter := waitQueue[0];
        waitQueue := waitQueue[1..];
        ready := waiter.V();
      }
    }

    /** Every waiter gets exactly one unit, longest waiting first. */
    method Broadcast() returns (ready: seq<Tid>)
      requires NoDup(waitQueue)
      modifies this, waitQueue
      ensures waitQueue == []
      ensures forall w :: w in old(waitQueue) ==> w.State() == DoV(old(w.State()))
      ensures ready == WokenBy(old(States(waitQueue)))
    {
      hide DoV, Woken;
      ready := [];
      ghost var all, before := waitQueue, States(waitQueue);
      ghost var done := 0;
      assert ready == WokenBy(before[..done]);
      hide WokenBy;
      while waitQueue != []
        invariant done <= |all| && waitQueue == all[done..]
        invariant NoDup(all)
        invariant forall i :: 0 <= i < done ==> all[i].State() == DoV(before[i])
        invariant States(waitQueue) == before[done..]
        invariant ready == WokenBy(before[..done])
        decreases |waitQueue|
      {
        WokenBySnoc(before, done);
        assert waitQueue[0] == all[done];
        var woken := Signal();
        if woken.Some? {
          ready := ready + [woken.value];
        }
        done := done + 1;
      }
      assert before[..done] == before;
    }
  }
}
