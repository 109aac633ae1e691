/** The scheduler: a FIFO ready list, the running thread, and the carcass of a
    finished thread waiting for the next thread to free it. */
module Schedulers {
  import opened Common
  import opened Semaphores

  datatype Sched = Sched(ready: seq<Tid>, current: Tid, toBeDestroyed: Option<Tid>)

  function MakeReady(s: Sched, t: Tid): Sched {
    s.(ready := s.ready + [t])
  }

  /** The running thread goes to the back of the list and the front one runs;
      nothing happens when no thread is ready. */
  function Yielded(s: Sched): Sched {
    if s.ready == [] then s else Sched(s.ready[1..] + [s.current], s.ready[0], s.toBeDestroyed)
  }

  /** A thread that sleeps, or has finished, hands the CPU to the front of the list. */
  function Dispatched(s: Sched, finishing: bool): Sched
    requires s.ready != []
  {
    Sched(s.ready[1..], s.ready[0], if finishing then Some(s.current) else s.toBeDestroyed)
  }

  function Freed(s: Sched): Sched {
    s.(toBeDestroyed := None)
  }

  /** The ready list when idling ends: as it was, or as the first interrupt that
      wakes a thread leaves it. */
  function AfterIdling(ready: seq<Tid>, wakeups: seq<seq<Tid>>): seq<Tid>
    decreases |wakeups|
  {
    if ready != [] || wakeups == [] then ready else AfterIdling(wakeups[0], wakeups[1..])
  }

  class Scheduler {
    var readyList: seq<Tid>
    var currentThread: Tid
    var toBeDestroyed: Option<Tid>

    function State(): Sched
      reads this
    {
      Sched(readyList, currentThread, toBeDestroyed)
    }

    constructor (main: Tid)
      ensures State() == Sched([], main, None)
    {
      readyList, currentThread, toBeDestroyed := [], main, None;
    }

    method ReadyToRun(thread: Tid)
      modifies this
      ensures State() == MakeReady(old(State()), thread)
    {
      readyList := readyList + [thread];
    }

    method FindNextToRun() returns (next: Option<Tid>)
      modifies this
      ensures old(readyList) == [] ==> next == None && State() == old(State())
      ensures old(readyList) != [] ==>
                next == Some(old(readyList)[0]) && State() == old(State()).(ready := old(readyList)[1..])
    {
      if readyList == [] {
        return None;
      }
      next := Some(readyList[0]);
      readyList := readyList[1..];
    }

    /** The switch itself: `nextThread` is the running thread from here on. */
    method Run(nextThread: Tid, finishing: bool)
      requires finishing ==> toBeDestroyed == None
      modifies this
      ensures State() == Sched(old(readyList), nextThread, if finishing then Some(old(currentThread)) else old(toBeDestroyed))
    {
      var oldThread := currentThread;
      if finishing {
        assert toBeDestroyed == None;
        toBeDestroyed := Some(oldThread);
      }
      currentThread := nextThread;
    }

    /** Run by the thread switched to, on its own stack. */
    method CheckToBeDestroyed() returns (dead: Option<Tid>)
      requires toBeDestroyed != Some(currentThread)
      modifies this
      ensures dead == old(toBeDestroyed) && State() == Freed(old(State()))
    {
      dead := toBeDestroyed;
      toBeDestroyed := None;
    }

    method Yield()
      modifies this
      ensures State() == Yielded(old(State()))
    {
      var me := currentThread;
      var next := FindNextToRun();
      if next != None {
        ReadyToRun(me);
        Run(next.value, false);
      }
    }

    /** `Sleep`: while no thread is ready the machine idles, and each turn of
        idling makes ready the threads that its interrupt handlers wake. */
    method Sleep(finishing: bool, wakeups: seq<seq<Tid>>) returns (idles: nat)
      requires AfterIdling(readyList, wakeups) != [] && (finishing ==> toBeDestroyed == None)
      modifies this
      ensures State() == Dispatched(old(State()).(ready := AfterIdling(old(readyList), wakeups)), finishing)
      ensures old(readyList) != [] <==> idles == 0
      ensures idles <= |wakeups| && forall i :: 0 <= i < idles - 1 ==> wakeups[i] == []
    {
      idles := 0;
      var next := FindNextToRun();
      while next == None
        invariant idles <= |wakeups| && toBeDestroyed == old(toBeDestroyed) && currentThread == old(currentThread)
        invariant next == None ==>
                    readyList == [] && AfterIdling(old(readyList), wakeups) == AfterIdling([], wakeups[idles..])
        invariant next != None ==> AfterIdling(old(readyList), wakeups) == [next.value] + readyList
        invariant next == None ==> old(readyList) == [] && forall i :: 0 <= i < idles ==> wakeups[i] == []
        invariant next != None ==> (old(readyList) != [] <==> idles == 0) && forall i :: 0 <= i < idles - 1 ==> wakeups[i] == []
        decreases |wakeups| - idles, next == None
      {
        assert wakeups[idles..] != [] && wakeups[idles..][1..] == wakeups[idles + 1..];
        readyList := wakeups[idles];
        idles := idles + 1;
        next := FindNextToRun();
      }
      Run(next.value, finishing);
    }
  }
}

/** The kernel as a step system: threads, semaphores and interrupt handlers
    interleaved in every way the source allows. */
module Kernels {
  import opened Common
  import opened Semaphores
  import opened Schedulers

  type SemId = nat

  /** What the CPU is doing. `Switched` is the stretch after a switch, interrupts
      still off, before the new thread has freed the old one. `Idling` is the
      loop in `Sleep`, on the stack of a thread that sleeps or has finished. */
  datatype Cpu = Running | Switched | Idling(finishing: bool)

  /** Where a thread is; the history that the invariant checks the lists against. */
  datatype Place = OnCpu | OnReady | OnQueue(s: SemId) | JustCreated | Finished | Deleted

  /** `testing[t]` is the semaphore whose `P` thread `t` is inside. */
  datatype Kernel = Kernel(
    sched: Sched,
    cpu: Cpu,
    sems: map<SemId, Sem>,
    testing: map<Tid, SemId>,
    logs: map<SemId, Log>,
    places: map<Tid, Place>)

  datatype Step =
    | NewThread(t: Tid)
    | NewSemaphore(s: SemId, initial: nat)
    | Fork(t: Tid)
    | Yield
    | P(s: SemId)
    | V(s: SemId)
    | Finish
    | Dispatch
    | Check

  /** A step the running thread takes on its own account, with nothing half done. */
  predicate Free(k: Kernel) {
    k.cpu == Running && k.sched.current !in k.testing
  }

  predicate Enabled(k: Kernel, step: Step) {
    match step
    case NewThread(t) => Free(k) && t !in k.places
    case NewSemaphore(s, _) => Free(k) && s !in k.sems
    case Fork(t) => Free(k) && t in k.places && k.places[t] == JustCreated
    case Yield => Free(k)
    // a new `P`, or the pending one of a thread that has been woken
    case P(s) => k.cpu == Running && s in k.sems && s in k.logs && (k.sched.current in k.testing ==> k.testing[k.sched.current] == s)
    // by the running thread, or by an interrupt handler at a tick or while idle
    case V(s) => (Free(k) || k.cpu.Idling?) && s in k.sems && s in k.logs
    case Finish => Free(k)
    case Dispatch => k.cpu.Idling? && k.sched.ready != []
    case Check => k.cpu == Switched
  }

  ghost function Next(k: Kernel, step: Step): Kernel
    requires Enabled(k, step)
  {
    var me := k.sched.current;
    match step
    case NewThread(t) => k.(places := k.places[t := JustCreated])
    case NewSemaphore(s, initial) =>
      k.(sems := k.sems[s := Sem(initial, [])], logs := k.logs[s := Log(initial, 0, 0, {})])
    case Fork(t) =>
      k.(sched := MakeReady(k.sched, t), places := k.places[t := OnReady])
    case Yield =>
      if k.sched.ready == [] then k else
        k.(sched := Yielded(k.sched), cpu := Switched,
           places := k.places[me := OnReady][k.sched.ready[0] := OnCpu])
    case P(s) =>
      var k' := k.(sems := k.sems[s := TestP(k.sems[s], me)], logs := k.logs[s := LogP(k.sems[s], k.logs[s], me)]);
      if Sleeps(k.sems[s])
      then k'.(cpu := Idling(false), testing := k.testing[me := s], places := k.places[me := OnQueue(s)])
      else k'.(testing := k.testing - {me})
    case V(s) =>
      var k' := k.(sems := k.sems[s := DoV(k.sems[s])], logs := k.logs[s := LogV(k.sems[s], k.logs[s])]);
      if k.sems[s].queue == [] then k' else
        var t := k.sems[s].queue[0];
        k'.(sched := MakeReady(k.sched, t), places := k.places[t := OnReady])
    case Finish => k.(cpu := Idling(true), places := k.places[me := Finished])
    case Dispatch =>
      k.(sched := Dispatched(k.sched, k.cpu.finishing), cpu := Switched,
         places := k.places[k.sched.ready[0] := OnCpu])
    case Check =>
      k.(sched := Freed(k.sched), cpu := Running,
         places := if k.sched.toBeDestroyed == None then k.places else k.places[k.sched.toBeDestroyed.value := Deleted])
  }

  ghost function Queue(k: Kernel, s: SemId): seq<Tid> {
    if s in k.sems then k.sems[s].queue else []
  }

  ghost predicate At(k: Kernel, t: Tid, p: Place) {
    t in k.places && k.places[t] == p
  }

  /** The lists hold exactly the threads whose place says so, once each. */
  ghost predicate ListsMatch(k: Kernel) {
    && NoDup(k.sched.ready)
    && (forall t :: t in k.sched.ready <==> At(k, t, OnReady))
    && (forall s, t :: t in Queue(k, s) <==> At(k, t, OnQueue(s)))
  }

  /** The running thread, and the one that has finished but is not freed yet. */
  ghost predicate CpuMatches(k: Kernel) {
    && k.sched.current in k.places
    && (forall t :: At(k, t, OnCpu) ==> t == k.sched.current)
    && (k.cpu.Running? || k.cpu.Switched? ==> k.places[k.sched.current] == OnCpu)
    && (k.cpu == Idling(false) ==> k.places[k.sched.current].OnQueue? || k.places[k.sched.current] == OnReady)
    && (k.sched.toBeDestroyed.Some? ==> k.cpu == Switched)
    && (forall t :: At(k, t, Finished) <==>
          k.sched.toBeDestroyed == Some(t) || (k.cpu == Idling(true) && t == k.sched.current))
  }

  /** A woken thread is still inside the `P` of `s`, on its way to the CPU. */
  ghost predicate WokenOk(k: Kernel) {
    forall s, t :: s in k.logs && t in k.logs[s].woken ==>
      t in k.testing && k.testing[t] == s && (At(k, t, OnReady) || At(k, t, OnCpu))
  }

  ghost predicate WaitersOk(k: Kernel) {
    forall s, t :: t in Queue(k, s) ==> t in k.testing && k.testing[t] == s
  }

  ghost predicate SemsOk(k: Kernel) {
    && k.logs.Keys == k.sems.Keys
    && (forall s :: s in k.sems ==> SemOk(k.sems[s], k.logs[s]))
    && WokenOk(k) && WaitersOk(k)
  }

  ghost predicate Inv(k: Kernel) {
    ListsMatch(k) && CpuMatches(k) && SemsOk(k)
  }

  ghost predicate Init(k: Kernel) {
    k == Kernel(Sched([], 0, None), Running, map[], map[], map[], map[0 := OnCpu])
  }

  lemma InitInv(k: Kernel)
    requires Init(k)
    ensures Inv(k)
  {
  }

  lemma NewThreadInv(k: Kernel, t: Tid)
    requires Inv(k) && Enabled(k, NewThread(t))
    ensures Inv(Next(k, NewThread(t)))
  {
    hide SemOk, NoDup;
    var k' := Next(k, NewThread(t));
    assert forall p :: !At(k, t, p);
    assert forall x, p :: At(k', x, p) <==> if x == t then p == JustCreated else At(k, x, p);
    assert forall r :: Queue(k', r) == Queue(k, r);
    assert ListsMatch(k');
    assert CpuMatches(k');
    assert WokenOk(k');
    assert WaitersOk(k');
  }

  lemma NewSemaphoreInv(k: Kernel, s: SemId, initial: nat)
    requires Inv(k) && Enabled(k, NewSemaphore(s, initial))
    ensures Inv(Next(k, NewSemaphore(s, initial)))
  {
    var k' := Next(k, NewSemaphore(s, initial));
    assert SemOk(k'.sems[s], k'.logs[s]);
    hide SemOk;
    assert forall x, p :: At(k', x, p) <==> At(k, x, p);
    assert forall r :: Queue(k', r) == Queue(k, r);
  }

  lemma FinishInv(k: Kernel)
    requires Inv(k) && Enabled(k, Finish)
    ensures Inv(Next(k, Finish))
  {
    hide SemOk;
    var k' := Next(k, Finish);
    assert forall x, p :: At(k', x, p) <==> if x == k.sched.current then p == Finished else At(k, x, p);
    assert forall r :: Queue(k', r) == Queue(k, r);
    assert forall p :: At(k, k.sched.current, p) ==> p == OnCpu;
  }

  lemma ForkInv(k: Kernel, t: Tid)
    requires Inv(k) && Enabled(k, Fork(t))
    ensures Inv(Next(k, Fork(t)))
  {
    hide SemOk;
    var k' := Next(k, Fork(t));
    assert At(k, t, JustCreated);
    SnocNoDup(k.sched.ready, t);
    assert forall x, p :: At(k', x, p) <==> if x == t then p == OnReady else At(k, x, p);
    assert forall r :: Queue(k', r) == Queue(k, r);
  }

  lemma YieldInv(k: Kernel)
    requires Inv(k) && Enabled(k, Yield)
    ensures Inv(Next(k, Yield))
  {
    hide SemOk;
    if k.sched.ready != [] {
      var k', me, next := Next(k, Yield), k.sched.current, k.sched.ready[0];
      assert At(k, next, OnReady) && At(k, me, OnCpu);
      TailNoDup(k.sched.ready);
      SnocNoDup(k.sched.ready[1..], me);
      assert forall x, p :: At(k', x, p) <==> if x == next then p == OnCpu else if x == me then p == OnReady else At(k, x, p);
      assert forall r :: Queue(k', r) == Queue(k, r);
    }
  }

  lemma DispatchInv(k: Kernel)
    requires Inv(k) && Enabled(k, Dispatch)
    ensures Inv(Next(k, Dispatch))
  {
    hide SemOk;
    var k', next := Next(k, Dispatch), k.sched.ready[0];
    assert At(k, next, OnReady);
    TailNoDup(k.sched.ready);
    assert forall x, p :: At(k', x, p) <==> if x == next then p == OnCpu else At(k, x, p);
    assert forall r :: Queue(k', r) == Queue(k, r);
  }

  lemma CheckInv(k: Kernel)
    requires Inv(k) && Enabled(k, Check)
    ensures Inv(Next(k, Check))
  {
    hide SemOk;
    var k', dead := Next(k, Check), k.sched.toBeDestroyed;
    assert At(k, k.sched.current, OnCpu);
    assert dead.Some? ==> At(k, dead.value, Finished);
    assert forall x: Tid, p :: At(k', x, p) <==> if dead == Some(x) then p == Deleted else At(k, x, p);
    assert forall r :: Queue(k', r) == Queue(k, r);
    assert At(k', k.sched.current, OnCpu) && forall t :: !At(k', t, Finished);
    assert ListsMatch(k') && SemsOk(k');
  }

  lemma PLists(k: Kernel, s: SemId)
    requires Inv(k) && Enabled(k, P(s))
    ensures ListsMatch(Next(k, P(s))) && CpuMatches(Next(k, P(s)))
  {
    hide SemsOk;
    var me, k' := k.sched.current, Next(k, P(s));
    assert At(k, me, OnCpu);
    assert forall x, p :: At(k', x, p) <==> if x == me && Sleeps(k.sems[s]) then p == OnQueue(s) else At(k, x, p);
    assert forall r, t :: t in Queue(k', r) <==> t in Queue(k, r) || (r == s && t == me && Sleeps(k.sems[s]));
  }

  lemma PWoken(k: Kernel, s: SemId)
    requires Inv(k) && Enabled(k, P(s))
    ensures WokenOk(Next(k, P(s)))
  {
    hide ListsMatch, SemOk, Queue, TestP, WaitersOk;
    var k', me := Next(k, P(s)), k.sched.current;
    forall r, t | r in k'.logs && t in k'.logs[r].woken
      ensures t in k'.testing && k'.testing[t] == r && (At(k', t, OnReady) || At(k', t, OnCpu))
    {
      assert t in k.logs[r].woken && t != me;
      assert forall p :: At(k', t, p) <==> At(k, t, p);
    }
  }

  lemma PWaiters(k: Kernel, s: SemId)
    requires Inv(k) && Enabled(k, P(s))
    ensures WaitersOk(Next(k, P(s)))
  {
    hide SemOk, WokenOk;
    var k', me := Next(k, P(s)), k.sched.current;
    assert At(k, me, OnCpu) && forall r :: me !in Queue(k, r);
    forall r, t | t in Queue(k', r)
      ensures t in k'.testing && k'.testing[t] == r
    {
      if t == me && r == s {
        assert !Sleeps(k.sems[s]) ==> Queue(k', s) == Queue(k, s);
      } else {
        assert t in Queue(k, r) && t != me;
      }
    }
  }

  lemma PInv(k: Kernel, s: SemId)
    requires Inv(k) && Enabled(k, P(s))
    ensures Inv(Next(k, P(s)))
  {
    PLists(k, s);
    PWoken(k, s);
    PWaiters(k, s);
    assert At(k, k.sched.current, OnCpu) && k.sched.current !in Queue(k, s);
    TestKeepsOk(k.sems[s], k.logs[s], k.sched.current);
    hide SemOk, ListsMatch, CpuMatches, WokenOk, WaitersOk;
  }

  lemma VLists(k: Kernel, s: SemId)
    requires Inv(k) && Enabled(k, V(s))
    ensures ListsMatch(Next(k, V(s))) && CpuMatches(Next(k, V(s)))
  {
    assert SemOk(k.sems[s], k.logs[s]);
    if k.sems[s].queue == [] {
      VNobody(k, s);
    } else {
      assert NoDup(k.sems[s].queue);
      VWakes(k, s);
    }
  }

  lemma VNobody(k: Kernel, s: SemId)
    requires Inv(k) && Enabled(k, V(s)) && k.sems[s].queue == []
    ensures ListsMatch(Next(k, V(s))) && CpuMatches(Next(k, V(s)))
  {
    hide SemsOk, SemOk, NoDup;
    var k' := Next(k, V(s));
    assert At(k, k.sched.current, k.places[k.sched.current]);
    assert forall x, p :: At(k', x, p) <==> At(k, x, p);
    assert forall r, t :: t in Queue(k', r) <==> t in Queue(k, r);
  }

  lemma VWakes(k: Kernel, s: SemId)
    requires Inv(k) && Enabled(k, V(s)) && k.sems[s].queue != [] && NoDup(k.sems[s].queue)
    ensures ListsMatch(Next(k, V(s))) && CpuMatches(Next(k, V(s)))
  {
    hide SemsOk, SemOk, NoDup;
    var k', queue := Next(k, V(s)), k.sems[s].queue;
    assert At(k, k.sched.current, k.places[k.sched.current]);
    assert queue[0] in Queue(k, s) && At(k, queue[0], OnQueue(s));
    TailNoDup(queue);
    SnocNoDup(k.sched.ready, queue[0]);
    assert forall x, p :: At(k', x, p) <==> if x == queue[0] then p == OnReady else At(k, x, p);
    assert forall r, t :: t in Queue(k', r) <==> t in Queue(k, r) && !(r == s && t == queue[0]);
    assert At(k', k.sched.current, k'.places[k.sched.current]);
    assert forall t :: At(k', t, Finished) <==> At(k, t, Finished);
  }

  lemma VWoken(k: Kernel, s: SemId)
    requires Inv(k) && Enabled(k, V(s))
    ensures WokenOk(Next(k, V(s))) && WaitersOk(Next(k, V(s)))
  {
    hide ListsMatch, CpuMatches, SemOk;
    var k', queue := Next(k, V(s)), k.sems[s].queue;
    assert queue != [] ==> queue[0] in Queue(k, s);
    forall r, t | r in k'.logs && t in k'.logs[r].woken
      ensures t in k'.testing && k'.testing[t] == r && (At(k', t, OnReady) || At(k', t, OnCpu))
    {
      if queue == [] || t != queue[0] {
        assert t in k.logs[r].woken;
        assert forall p :: At(k', t, p) <==> At(k, t, p);
      }
    }
    assert forall r, t :: t in Queue(k', r) ==> t in Queue(k, r);
  }

  lemma VInv(k: Kernel, s: SemId)
    requires Inv(k) && Enabled(k, V(s))
    ensures Inv(Next(k, V(s)))
  {
    VLists(k, s);
    VWoken(k, s);
    VKeepsOk(k.sems[s], k.logs[s]);
    hide SemOk, ListsMatch, CpuMatches, WokenOk, WaitersOk;
  }

  // ---- whole runs ----

  lemma StepInv(k: Kernel, step: Step)
    requires Inv(k) && Enabled(k, step)
    ensures Inv(Next(k, step))
  {
    hide Inv, Next;
    match step
    case NewThread(t) => NewThreadInv(k, t);
    case NewSemaphore(s, initial) => NewSemaphoreInv(k, s, initial);
    case Fork(t) => ForkInv(k, t);
    case Yield => YieldInv(k);
    case P(s) => PInv(k, s);
    case V(s) => VInv(k, s);
    case Finish => FinishInv(k);
    case Dispatch => DispatchInv(k);
    case Check => CheckInv(k);
  }

  ghost predicate Run(ks: seq<Kernel>, steps: seq<Step>) {
    && |ks| == |steps| + 1 && Init(ks[0])
    && forall i :: 0 <= i < |steps| ==> Enabled(ks[i], steps[i]) && ks[i + 1] == Next(ks[i], steps[i])
  }

  lemma {:induction false} RunInv(ks: seq<Kernel>, steps: seq<Step>, n: nat)
    requires Run(ks, steps) && n <= |steps|
    ensures Inv(ks[n])
  {
    hide Inv, Next;
    if n == 0 {
      InitInv(ks[0]);
    } else {
      RunInv(ks, steps, n - 1);
      StepInv(ks[n - 1], steps[n - 1]);
    }
  }

  /** In every state of every run, each thread is in exactly one place, and the
      lists say which: it has the CPU, or is on the ready list once, or in one
      semaphore's queue once, or has not been forked, or has finished and waits
      to be freed, or has been freed. While the machine idles nobody has the CPU,
      and the thread that gave it up last is in one of the other places. */
  lemma OnePlace(ks: seq<Kernel>, steps: seq<Step>, n: nat, t: Tid)
    requires Run(ks, steps) && n <= |steps| && t in ks[n].places
    ensures var k := ks[n];
            && (t in k.sched.ready <==> k.places[t] == OnReady)
            && (forall s :: t in Queue(k, s) <==> k.places[t] == OnQueue(s))
            && (t == k.sched.current && !k.cpu.Idling? <==> k.places[t] == OnCpu)
            && (k.sched.toBeDestroyed == Some(t) || (t == k.sched.current && k.cpu == Idling(true)) <==> k.places[t] == Finished)
            && (k.places[t] == JustCreated || k.places[t] == Deleted ==> t != k.sched.current)
            && NoDup(k.sched.ready) && (forall s :: NoDup(Queue(k, s)))
    ensures var k := ks[n];
            k.places[t] == JustCreated || k.places[t] == Deleted || k.sched.toBeDestroyed == Some(t) ==>
              t !in k.sched.ready && (forall s :: t !in Queue(k, s)) && t != k.sched.current
  {
    hide Inv, Next, Enabled;
    RunInv(ks, steps, n);
    PlaceOf(ks[n], t);
  }

  lemma PlaceOf(k: Kernel, t: Tid)
    requires Inv(k) && t in k.places
    ensures t in k.sched.ready <==> k.places[t] == OnReady
    ensures forall s :: t in Queue(k, s) <==> k.places[t] == OnQueue(s)
    ensures t == k.sched.current && !k.cpu.Idling? <==> k.places[t] == OnCpu
    ensures k.sched.toBeDestroyed == Some(t) || (t == k.sched.current && k.cpu == Idling(true)) <==> k.places[t] == Finished
    ensures k.places[t] == JustCreated || k.places[t] == Deleted ==> t != k.sched.current
    ensures k.sched.toBeDestroyed == Some(t) ==> t != k.sched.current
    ensures NoDup(k.sched.ready) && forall s :: NoDup(Queue(k, s))
  {
    assert At(k, t, k.places[t]);
    assert k.cpu == Idling(true) ==> At(k, k.sched.current, Finished);
    forall s ensures NoDup(Queue(k, s)) {
      if s in k.sems { assert SemOk(k.sems[s], k.logs[s]); }
    }
  }

  /** The carcass slot is free whenever a thread finishes, and the thread that
      frees a carcass is never the carcass itself. */
  lemma CarcassSafe(ks: seq<Kernel>, steps: seq<Step>, n: nat)
    requires Run(ks, steps) && n < |steps|
    ensures steps[n].Dispatch? && ks[n].cpu.finishing ==> ks[n].sched.toBeDestroyed == None
    ensures steps[n].Check? ==> ks[n].sched.toBeDestroyed != Some(ks[n].sched.current)
    ensures ks[n].sched.toBeDestroyed.Some? ==> steps[n].Check? && ks[n + 1].sched.toBeDestroyed == None
  {
    RunInv(ks, steps, n);
    hide SemsOk, ListsMatch;
    var k := ks[n];
    assert forall t :: k.sched.toBeDestroyed == Some(t) ==> At(k, t, Finished);
  }

  /** Every semaphore of every run conserves its units and loses no wakeup. */
  lemma SemaphoresSafe(ks: seq<Kernel>, steps: seq<Step>, n: nat, s: SemId)
    requires Run(ks, steps) && n <= |steps| && s in ks[n].sems
    ensures s in ks[n].logs && SemOk(ks[n].sems[s], ks[n].logs[s])
    ensures ks[n].sems[s].queue != [] && ks[n].sems[s].value > 0 ==>
              exists t :: t in ks[n].logs[s].woken && (t in ks[n].sched.ready || t == ks[n].sched.current)
  {
    hide Next;
    RunInv(ks, steps, n);
    if ks[n].sems[s].queue != [] && ks[n].sems[s].value > 0 {
      NoLostWakeup(ks[n].sems[s], ks[n].logs[s]);
    }
  }

  // ---- first come, first served ----

  /** A step that takes the front of the ready list. */
  predicate Dequeues(k: Kernel, step: Step) {
    step.Dispatch? || (step.Yield? && k.sched.ready != [])
  }

  ghost function Dequeued(ks: seq<Kernel>, steps: seq<Step>, m: nat, n: nat): nat
    requires m <= n <= |steps| <= |ks|
  {
    if m == n then 0 else Dequeued(ks, steps, m, n - 1) + (if Dequeues(ks[n - 1], steps[n - 1]) then 1 else 0)
  }

  lemma QueueMoves(k: Kernel, step: Step)
    requires Enabled(k, step)
    ensures var rest := if Dequeues(k, step) then k.sched.ready[1..] else k.sched.ready;
            |rest| <= |Next(k, step).sched.ready| && Next(k, step).sched.ready[..|rest|] == rest
    ensures Dequeues(k, step) ==> Next(k, step).sched.current == k.sched.ready[0]
    ensures Dequeues(k, step) ==> Next(k, step).cpu == Switched
  {
  }

  /** A ready thread with `j` threads ahead of it moves up one place per dequeue
      and no other way, and the dequeue after the `j`-th dispatches it. */
  lemma {:induction false} FirstComeFirstServed(ks: seq<Kernel>, steps: seq<Step>, m: nat, n: nat, j: nat)
    requires Run(ks, steps) && m <= n <= |steps| && j < |ks[m].sched.ready|
    requires Dequeued(ks, steps, m, n) <= j
    ensures j - Dequeued(ks, steps, m, n) < |ks[n].sched.ready|
    ensures ks[n].sched.ready[j - Dequeued(ks, steps, m, n)] == ks[m].sched.ready[j]
    ensures n < |steps| && Dequeued(ks, steps, m, n) == j && Dequeues(ks[n], steps[n]) ==>
              ks[n + 1].sched.current == ks[m].sched.ready[j]
  {
    hide Next, Enabled;
    if m < n {
      FirstComeFirstServed(ks, steps, m, n - 1, j);
      QueueMoves(ks[n - 1], steps[n - 1]);
      var rest := if Dequeues(ks[n - 1], steps[n - 1]) then ks[n - 1].sched.ready[1..] else ks[n - 1].sched.ready;
      assert rest[j - Dequeued(ks, steps, m, n)] == ks[m].sched.ready[j];
      assert ks[n].sched.ready[..|rest|][j - Dequeued(ks, steps, m, n)] == ks[m].sched.ready[j];
    }
    if n < |steps| {
      QueueMoves(ks[n], steps[n]);
    }
  }

  // ---- the history is that of the steps ----

  /** A `P` on `s` that takes a unit and returns, as opposed to one that sleeps. */
  ghost predicate Passes(k: Kernel, step: Step, k': Kernel, s: SemId) {
    step == P(s) && k'.cpu == Running
  }

  /** The `V`s on `s` and the `P`s on it that returned, between two states of a run. */
  ghost function VCount(steps: seq<Step>, m: nat, n: nat, s: SemId): nat
    requires m <= n <= |steps|
  {
    if m == n then 0 else VCount(steps, m, n - 1, s) + (if steps[n - 1] == V(s) then 1 else 0)
  }

  ghost function PCount(ks: seq<Kernel>, steps: seq<Step>, m: nat, n: nat, s: SemId): nat
    requires m <= n <= |steps| < |ks|
  {
    if m == n then 0 else PCount(ks, steps, m, n - 1, s) + (if Passes(ks[n - 1], steps[n - 1], ks[n], s) then 1 else 0)
  }

  lemma StepValue(k: Kernel, step: Step, s: SemId)
    requires Enabled(k, step) && s in k.sems
    ensures var k' := Next(k, step);
            && s in k'.sems
            && k'.sems[s].value == k.sems[s].value + (if step == V(s) then 1 else 0) - (if Passes(k, step, k', s) then 1 else 0)
            && (step == P(s) ==> (Passes(k, step, k', s) <==> k.sems[s].value != 0))
  {
  }

  /** The value of a semaphore is what it was created with, and one more for each
      `V` and one less for each `P` that has returned; a `P` sleeps exactly when
      the value is zero. */
  lemma {:induction false} UnitsConserved(ks: seq<Kernel>, steps: seq<Step>, m: nat, n: nat, s: SemId, initial: nat)
    requires Run(ks, steps) && m < n <= |steps| && steps[m] == NewSemaphore(s, initial)
    ensures s in ks[n].sems && ks[n].sems[s].value == initial + VCount(steps, m + 1, n, s) - PCount(ks, steps, m + 1, n, s) >= 0
    ensures n < |steps| && steps[n] == P(s) ==> (Passes(ks[n], steps[n], ks[n + 1], s) <==> ks[n].sems[s].value > 0)
  {
    hide Passes, Next, Enabled;
    if n == m + 1 {
      CreatedValue(ks[m], s, initial);
    } else {
      UnitsConserved(ks, steps, m, n - 1, s, initial);
      StepValue(ks[n - 1], steps[n - 1], s);
    }
    SemaphoresSafe(ks, steps, n, s);
    if n < |steps| {
      StepValue(ks[n], steps[n], s);
    }
  }

  lemma CreatedValue(k: Kernel, s: SemId, initial: nat)
    requires Enabled(k, NewSemaphore(s, initial))
    ensures var k' := Next(k, NewSemaphore(s, initial)); s in k'.sems && k'.sems[s] == Sem(initial, [])
  {
  }

  lemma SleepersMove(k: Kernel, step: Step, s: SemId)
    requires Enabled(k, step) && s in k.sems
    ensures var k' := Next(k, step);
            var rest := if step == V(s) && Queue(k, s) != [] then Queue(k, s)[1..] else Queue(k, s);
            && s in k'.sems && |rest| <= |Queue(k', s)| && Queue(k', s)[..|rest|] == rest
            && Queue(k', s)[|rest|..] == (if step == P(s) && !Passes(k, step, k', s) then [k.sched.current] else [])
    ensures step == V(s) && Queue(k, s) != [] ==> Next(k, step).sched.ready == k.sched.ready + [Queue(k, s)[0]]
    ensures step == V(s) && Queue(k, s) == [] ==> Next(k, step).sched.ready == k.sched.ready
  {
  }

  /** The threads asleep in a `P` are woken in the order in which they went to
      sleep: one with `j` ahead of it is made ready by exactly the `V` after `j`
      others, and goes to the end of the ready list. */
  lemma {:induction false} FirstAsleepFirstWoken(ks: seq<Kernel>, steps: seq<Step>, m: nat, n: nat, s: SemId, j: nat)
    requires Run(ks, steps) && m <= n <= |steps| && s in ks[m].sems && j < |Queue(ks[m], s)|
    requires VCount(steps, m, n, s) <= j
    ensures s in ks[n].sems && j - VCount(steps, m, n, s) < |Queue(ks[n], s)|
    ensures Queue(ks[n], s)[j - VCount(steps, m, n, s)] == Queue(ks[m], s)[j]
    ensures n < |steps| && VCount(steps, m, n, s) == j && steps[n] == V(s) ==>
              ks[n + 1].sched.ready == ks[n].sched.ready + [Queue(ks[m], s)[j]]
  {
    hide Next, Enabled, Passes, Queue;
    if m < n {
      FirstAsleepFirstWoken(ks, steps, m, n - 1, s, j);
      SleepersMove(ks[n - 1], steps[n - 1], s);
      var q, q' := Queue(ks[n - 1], s), Queue(ks[n], s);
      var rest := if steps[n - 1] == V(s) && q != [] then q[1..] else q;
      assert rest[j - VCount(steps, m, n, s)] == Queue(ks[m], s)[j];
      assert q'[..|rest|][j - VCount(steps, m, n, s)] == Queue(ks[m], s)[j];
    }
    if n < |steps| {
      SleepersMove(ks[n], steps[n], s);
    }
  }

  // ---- the life of a thread ----

  lemma StepLife(k: Kernel, step: Step, t: Tid)
    requires Inv(k) && Enabled(k, step) && t in k.places
    ensures var k' := Next(k, step);
            && t in k'.places
            && (k'.places[t] == JustCreated <==> k.places[t] == JustCreated && step != Fork(t))
            && (k'.places[t] in {Finished, Deleted} <==> k.places[t] in {Finished, Deleted} || (step == Finish && k.sched.current == t))
  {
    hide SemsOk, NoDup;
    assert At(k, t, k.places[t]) && At(k, k.sched.current, k.places[k.sched.current]);
    assert k.sched.toBeDestroyed.Some? ==> At(k, k.sched.toBeDestroyed.value, Finished);
    assert k.sched.ready != [] ==> k.sched.ready[0] in k.sched.ready && At(k, k.sched.ready[0], OnReady);
    if step.V? && Queue(k, step.s) != [] {
      assert Queue(k, step.s)[0] in Queue(k, step.s) && At(k, Queue(k, step.s)[0], OnQueue(step.s));
    }
  }

  lemma {:induction false} Lifecycle(ks: seq<Kernel>, steps: seq<Step>, m: nat, n: nat, t: Tid)
    requires Run(ks, steps) && m <= n <= |steps| && t in ks[m].places
    ensures t in ks[n].places
    ensures ks[m].places[t] == JustCreated ==>
              (ks[n].places[t] == JustCreated <==> forall i :: m <= i < n ==> steps[i] != Fork(t))
    ensures ks[m].places[t] !in {Finished, Deleted} ==>
              (ks[n].places[t] in {Finished, Deleted} <==> exists i :: m <= i < n && steps[i] == Finish && ks[i].sched.current == t)
    ensures ks[m].places[t] != JustCreated ==> ks[n].places[t] != JustCreated
  {
    hide Next, Enabled, Inv;
    if m < n {
      Lifecycle(ks, steps, m, n - 1, t);
      RunInv(ks, steps, n - 1);
      StepLife(ks[n - 1], steps[n - 1], t);
    }
  }

  /** No thread is lost: after its `Fork`, and until it calls `Finish` itself, it
      is running, on the ready list, or asleep in a semaphore's queue. */
  lemma NeverLost(ks: seq<Kernel>, steps: seq<Step>, m: nat, n: nat, t: Tid)
    requires Run(ks, steps) && m < n <= |steps| && steps[m] == Fork(t)
    requires forall i :: m < i < n && steps[i] == Finish ==> ks[i].sched.current != t
    ensures (t == ks[n].sched.current && !ks[n].cpu.Idling?) || t in ks[n].sched.ready || exists s :: t in Queue(ks[n], s)
  {
    ForkPlaces(ks[m], t);
    hide Next, Enabled, Inv;
    Lifecycle(ks, steps, m + 1, n, t);
    OnePlace(ks, steps, n, t);
    var p := ks[n].places[t];
    if p.OnQueue? {
      assert t in Queue(ks[n], p.s);
    }
  }

  lemma ForkPlaces(k: Kernel, t: Tid)
    requires Enabled(k, Fork(t))
    ensures var k' := Next(k, Fork(t)); t in k'.places && k'.places[t] == OnReady && k'.sched.ready == k.sched.ready + [t]
  {
  }

  // ---- the machine goes on ----

  lemma {:induction false} TestingExists(ks: seq<Kernel>, steps: seq<Step>, n: nat, t: Tid)
    requires Run(ks, steps) && n <= |steps|
    ensures t in ks[n].testing ==> ks[n].testing[t] in ks[n].sems && ks[n].testing[t] in ks[n].logs
  {
    if n > 0 {
      TestingExists(ks, steps, n - 1, t);
      StepTesting(ks[n - 1], steps[n - 1], t);
      hide Next, Enabled;
    }
  }

  lemma StepTesting(k: Kernel, step: Step, t: Tid)
    requires Enabled(k, step) && (t in k.testing ==> k.testing[t] in k.sems && k.testing[t] in k.logs)
    ensures var k' := Next(k, step); t in k'.testing ==> k'.testing[t] in k'.sems && k'.testing[t] in k'.logs
  {
  }

  /** In every state of every run the running thread can go on: with the `P` that
      it is inside, or with anything else; after a switch the new thread frees
      the old one; and an idle machine waits only for something to be ready,
      which an interrupt handler's `V` can bring about at any time. */
  lemma GoesOn(ks: seq<Kernel>, steps: seq<Step>, n: nat, s: SemId)
    requires Run(ks, steps) && n <= |steps|
    ensures var k := ks[n];
            match k.cpu
            case Running =>
              if k.sched.current in k.testing then Enabled(k, P(k.testing[k.sched.current]))
              else Enabled(k, Yield) && Enabled(k, Finish) && (s in k.sems ==> Enabled(k, P(s)) && Enabled(k, V(s)))
            case Switched => Enabled(k, Check)
            case Idling(_) => (k.sched.ready != [] ==> Enabled(k, Dispatch)) && (s in k.sems ==> Enabled(k, V(s)))
  {
    hide Next;
    TestingExists(ks, steps, n, ks[n].sched.current);
    RunInv(ks, steps, n);
    hide Run, ListsMatch, CpuMatches;
  }
}
