/** Counting semaphores with Mesa-style wakeups: `V` makes one waiter ready, and
    the waiter tests the value again when it next runs. */
module Semaphores {
  import opened Common

  type Tid = nat

  /** A semaphore: its value and the threads asleep in its queue. */
  datatype Sem = Sem(value: int, queue: seq<Tid>)

  /** One pass of the loop in `P`, run by `t` with interrupts off: take a unit if
      there is one, otherwise join the queue and sleep. */
  function TestP(s: Sem, t: Tid): Sem {
    if s.value == 0 then s.(queue := s.queue + [t]) else s.(value := s.value - 1)
  }

  predicate Sleeps(s: Sem) {
    s.value == 0
  }

  /** `V`: the first sleeper, if any, becomes ready, and the value goes up. */
  function DoV(s: Sem): Sem {
    Sem(s.value + 1, if s.queue == [] then [] else s.queue[1..])
  }

  function Woken(s: Sem): Option<Tid> {
    if s.queue == [] then None else Some(s.queue[0])
  }

  class Semaphore {
    var value: int
    var queue: seq<Tid>

    function State(): Sem
      reads this
    {
      Sem(value, queue)
    }

    constructor (initialValue: nat)
      ensures State() == Sem(initialValue, [])
    {
      value, queue := initialValue, [];
    }

    /** The stretch of `P` up to the next point where another thread can run. */
    method P(currentThread: Tid) returns (asleep: bool)
      modifies this
      ensures State() == TestP(old(State()), currentThread)
      ensures asleep <==> Sleeps(old(State()))
    {
      if value == 0 {
        queue := queue + [currentThread];
        return true;
      }
      value := value - 1;
      return false;
    }

    method V() returns (ready: Option<Tid>)
      modifies this
      ensures State() == DoV(old(State())) && ready == Woken(old(State()))
    {
      ready := None;
      if queue != [] {
        ready := Some(queue[0]);
        queue := queue[1..];
      }
      value := value + 1;
    }
  }

  // ---- what every interleaving keeps ----

  /** The history of a semaphore: completed `P`s, `V`s, and the threads a `V` has
      made ready that have not run since. */
  datatype Log = Log(initial: nat, ps: nat, vs: nat, woken: set<Tid>)

  /** Units are conserved, the value never goes negative, and while anyone sleeps
      every unit is matched by a waiter on its way: no wakeup is lost, even
      though a newcomer may take the unit first. */
  ghost predicate SemOk(s: Sem, g: Log) {
    && s.value == g.initial + g.vs - g.ps && s.value >= 0
    && NoDup(s.queue) && (forall t :: t in s.queue ==> t !in g.woken)
    && (s.queue != [] ==> s.value <= |g.woken|)
  }

  ghost function LogP(s: Sem, g: Log, t: Tid): Log {
    g.(woken := g.woken - {t}, ps := if Sleeps(s) then g.ps else g.ps + 1)
  }

  ghost function LogV(s: Sem, g: Log): Log {
    g.(vs := g.vs + 1, woken := if s.queue == [] then g.woken else g.woken + {s.queue[0]})
  }

  /** `P`, whether by a newcomer or by a waiter that was made ready. */
  lemma TestKeepsOk(s: Sem, g: Log, t: Tid)
    requires SemOk(s, g) && t !in s.queue
    ensures SemOk(TestP(s, t), LogP(s, g, t))
  {
    if t in g.woken {
      assert g.woken == (g.woken - {t}) + {t};
    } else {
      assert g.woken - {t} == g.woken;
    }
  }

  lemma VKeepsOk(s: Sem, g: Log)
    requires SemOk(s, g)
    ensures SemOk(DoV(s), LogV(s, g))
  {
  }

  /** Nobody sleeps forever beside a free unit: some waiter is on its way to take it. */
  lemma NoLostWakeup(s: Sem, g: Log)
    requires SemOk(s, g) && s.queue != [] && s.value > 0
    ensures exists t :: t in g.woken
  {
    assert g.woken != {};
  }
}
