/** Locks built on a semaphore that starts at one. */
module Locks {
  import opened Common
  import opened Semaphores

  /** A lock and where its threads are: `inside` are those between the end of the
      `P` and the `V`, `trying` those that have slept in the `P`. */
  datatype LockState = LockState(sem: Sem, holder: Option<Tid>, inside: set<Tid>, trying: set<Tid>, log: Log)

  const FREE: LockState := LockState(Sem(1, []), None, {}, {}, Log(1, 0, 0, {}))

  predicate Blocked(l: LockState, t: Tid) {
    t in l.sem.queue
  }

  /** One test of the `P` in `Acquire`. */
  ghost function Try(l: LockState, t: Tid): LockState {
    var l' := l.(sem := TestP(l.sem, t), log := LogP(l.sem, l.log, t));
    if Sleeps(l.sem) then l'.(trying := l.trying + {t}) else l'.(trying := l.trying - {t}, inside := l.inside + {t})
  }

  /** The rest of `Acquire`, which other threads can precede. */
  function Claim(l: LockState, t: Tid): LockState {
    l.(holder := Some(t))
  }

  ghost function Released(l: LockState, t: Tid): LockState {
    l.(sem := DoV(l.sem), holder := None, inside := l.inside - {t}, log := LogV(l.sem, l.log))
  }

  ghost predicate LockOk(l: LockState) {
    && SemOk(l.sem, l.log)
    && l.sem.value + |l.inside| == 1
    && (forall t :: t in l.sem.queue || t in l.log.woken ==> t in l.trying)
    && (l.holder.Some? ==> l.holder.value in l.inside)
  }

  lemma FreeOk()
    ensures LockOk(FREE)
  {
  }

  lemma TryOk(l: LockState, t: Tid)
    requires LockOk(l) && !Blocked(l, t)
    ensures LockOk(Try(l, t))
    ensures Try(l, t).inside == if l.inside == {} then {t} else l.inside
    ensures Blocked(Try(l, t), t) <==> l.inside != {}
  {
    hide SemOk;
    TestKeepsOk(l.sem, l.log, t);
    FreeWhenPositive(l);
    assert l.inside == {} ==> l.inside + {t} == {t};
  }

  /** The semaphore has its one unit exactly when nobody is inside. */
  lemma FreeWhenPositive(l: LockState)
    requires LockOk(l)
    ensures Sleeps(l.sem) <==> l.inside != {}
    ensures l.sem.value == if l.inside == {} then 1 else 0
  {
    if l.inside != {} {
      var t :| t in l.inside;
      OnlyOne(l, t, t);
    }
  }

  lemma TryEffect(l: LockState, t: Tid)
    ensures var l' := Try(l, t);
            && l'.holder == l.holder
            && l'.inside == (if Sleeps(l.sem) then l.inside else l.inside + {t})
            && l'.trying == (if Sleeps(l.sem) then l.trying + {t} else l.trying - {t})
  {
  }

  lemma ReleasedOk(l: LockState, t: Tid)
    requires LockOk(l) && t in l.inside
    ensures LockOk(Released(l, t))
  {
    VKeepsOk(l.sem, l.log);
    OnlyOne(l, t, t);
    hide SemOk;
    assert l.inside == {t};
  }

  /** Mutual exclusion. */
  lemma OnlyOne(l: LockState, t: Tid, u: Tid)
    requires LockOk(l) && t in l.inside && u in l.inside
    ensures t == u && l.inside == {t} && (l.holder.Some? ==> l.holder == Some(t))
  {
    assert l.sem.value >= 0;
    hide SemOk;
    assert l.inside == (l.inside - {t}) + {t};
    assert l.inside - {t} == {};
  }

  /** While the lock is free and threads sleep on it, one of its waiters is on
      its way to take it. */
  lemma LockIdle(l: LockState)
    requires LockOk(l)
    ensures l.inside == {} && l.sem.queue != [] ==> exists t :: t in l.trying && !Blocked(l, t)
  {
    if l.inside == {} && l.sem.queue != [] {
      NoLostWakeup(l.sem, l.log);
      var t :| t in l.log.woken;
      assert t in l.trying && !Blocked(l, t);
    }
  }

  // ---- any number of threads, any interleaving ----

  datatype Event = TryStep(t: Tid) | ClaimStep(t: Tid) | ReleaseStep(t: Tid)

  /** A thread that is not asleep may try at any time, even for a lock it already
      has, in which case it sleeps. It finishes an `Acquire` only after the `P`,
      and calls `Release` only when it is the recorded holder. */
  predicate Enabled(l: LockState, e: Event) {
    && !Blocked(l, e.t)
    && match e
       case TryStep(t) => true
       case ClaimStep(t) => t in l.inside
       case ReleaseStep(t) => l.holder == Some(t)
  }

  ghost function After(l: LockState, e: Event): LockState {
    match e
    case TryStep(t) => Try(l, t)
    case ClaimStep(t) => Claim(l, t)
    case ReleaseStep(t) => Released(l, t)
  }

  ghost predicate Run(ls: seq<LockState>, events: seq<Event>) {
    && |ls| == |events| + 1 && ls[0] == FREE
    && forall i :: 0 <= i < |events| ==> Enabled(ls[i], events[i]) && ls[i + 1] == After(ls[i], events[i])
  }

  /** In every state of every run at most one thread is between the `P` and the
      `V`, a recorded holder is that thread, and only that thread can claim or
      release the lock, so the assertion in `Release` holds for it. */
  lemma {:induction false} LockRuns(ls: seq<LockState>, events: seq<Event>, n: nat)
    requires Run(ls, events) && n <= |events|
    ensures LockOk(ls[n])
    ensures forall t, u :: t in ls[n].inside && u in ls[n].inside ==> t == u
    ensures forall t, u :: t in ls[n].inside && ls[n].holder == Some(u) ==> t == u
    ensures ls[n].inside == {} ==> ls[n].holder == None && ls[n].sem.value == 1
  {
    hide LockOk, Try, Released;
    if n == 0 {
      FreeOk();
    } else {
      LockRuns(ls, events, n - 1);
      EventOk(ls[n - 1], events[n - 1]);
    }
    forall t, u | t in ls[n].inside && u in ls[n].inside ensures t == u {
      OnlyOne(ls[n], t, u);
    }
    forall t, u | t in ls[n].inside && ls[n].holder == Some(u) ensures t == u {
      OnlyOne(ls[n], t, t);
    }
    assert ls[n].inside == {} ==> ls[n].holder == None && ls[n].sem.value == 1 by {
      Empties(ls[n]);
    }
  }

  lemma Empties(l: LockState)
    requires LockOk(l)
    ensures l.inside == {} ==> l.holder == None && l.sem.value == 1
  {
  }

  lemma EventOk(l: LockState, e: Event)
    requires LockOk(l) && Enabled(l, e)
    ensures LockOk(After(l, e))
  {
    match e
    case TryStep(t) => TryOk(l, t);
    case ClaimStep(t) => hide SemOk;
    case ReleaseStep(t) => ReleasedOk(l, t);
  }

  /** `t` has come through a `P` that found the lock free and has not called
      `Release` since. */
  ghost predicate Within(ls: seq<LockState>, events: seq<Event>, n: nat, t: Tid)
    requires n <= |events| < |ls|
  {
    n > 0 &&
    match events[n - 1]
    case TryStep(u) => (u == t && ls[n - 1].sem.value > 0) || Within(ls, events, n - 1, t)
    case ClaimStep(_) => Within(ls, events, n - 1, t)
    case ReleaseStep(u) => u != t && Within(ls, events, n - 1, t)
  }

  /** So the threads inside are those that the events say are. */
  lemma {:induction false} InsideIsHistory(ls: seq<LockState>, events: seq<Event>, n: nat, t: Tid)
    requires Run(ls, events) && n <= |events|
    ensures t in ls[n].inside <==> Within(ls, events, n, t)
  {
    if n > 0 {
      InsideIsHistory(ls, events, n - 1, t);
      LockRuns(ls, events, n - 1);
      StepInside(ls[n - 1], events[n - 1], t);
      hide LockOk, After;
    }
  }

  lemma StepInside(l: LockState, e: Event, t: Tid)
    requires LockOk(l) && Enabled(l, e)
    ensures t in After(l, e).inside <==>
            match e
            case TryStep(u) => (u == t && l.sem.value > 0) || t in l.inside
            case ClaimStep(_) => t in l.inside
            case ReleaseStep(u) => u != t && t in l.inside
  {
  }

  class Lock {
    const semaphore: Semaphore
    var lockHolder: Option<Tid>

    ghost predicate Models(l: LockState)
      reads this, semaphore
    {
      semaphore.State() == l.sem && lockHolder == l.holder
    }

    constructor ()
      ensures Models(FREE) && fresh(semaphore)
    {
      lockHolder := None;
      semaphore := new Semaphore(1);
    }

    /** `Acquire` up to the point where another thread can run: one test of the
        `P`. The thread comes back here after it has been woken. */
    method AcquireTest(currentThread: Tid, ghost l: LockState) returns (asleep: bool)
      requires Models(l)
      modifies semaphore
      ensures Models(Try(l, currentThread)) && (asleep <==> Sleeps(l.sem))
    {
      asleep := semaphore.P(currentThread);
    }

    method AcquireRest(currentThread: Tid, ghost l: LockState)
      requires Models(l)
      modifies this`lockHolder
      ensures Models(Claim(l, currentThread))
    {
      lockHolder := Some(currentThread);
    }

    predicate IsHeldBy(currentThread: Tid)
      reads this
    {
      lockHolder == Some(currentThread)
    }

    method Release(currentThread: Tid, ghost l: LockState) returns (ready: Option<Tid>)
      requires Models(l) && IsHeldBy(currentThread)
      modifies this`lockHolder, semaphore
      ensures Models(Released(l, currentThread)) && ready == Woken(l.sem)
    {
      lockHolder := None;
      ready := semaphore.V();
    }
  }
}
