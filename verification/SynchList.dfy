/** The monitor behind `SynchList`: a list, a lock, and a condition with one
    semaphore per waiter, stepped by any number of threads. A step is a stretch
    of code between two points where another thread can run. */
module SynchLists {
  import opened Common
  import opened Semaphores
  import opened Locks

  type Item(!new)

  /** Where a thread is: in the lock's `P`, past it, before the final `Release` of
      `Append`, in the waiter semaphore's `P`, or re-acquiring the lock. */
  datatype Pc =
    | Outside
    | AppendTry(item: Item) | AppendIn(item: Item) | AppendOut
    | RemoveTry | RemoveIn
    | WaitTest | Retry | Resumed

  /** A waiter semaphore is named by the thread that allocates it. The rest is
      history: items in the order appended and removed, the thread each removed
      item was returned to, and the waiters signalled but not yet resumed. */
  datatype Monitor = Monitor(
    lock: LockState,
    list: seq<Item>,
    waitQueue: seq<Tid>,
    waiters: map<Tid, Sem>,
    pcs: map<Tid, Pc>,
    appended: seq<Item>,
    removed: seq<Item>,
    takers: seq<Tid>,
    signalled: set<Tid>)

  function PcOf(m: Monitor, t: Tid): Pc {
    if t in m.pcs then m.pcs[t] else Outside
  }

  predicate Trying(pc: Pc) {
    pc.AppendTry? || pc.RemoveTry? || pc.Retry?
  }

  predicate Inside(pc: Pc) {
    pc.AppendIn? || pc.AppendOut? || pc.RemoveIn? || pc.Resumed?
  }

  predicate Waiting(pc: Pc) {
    pc.WaitTest? || pc.Retry? || pc.Resumed?
  }

  /** Asleep in a semaphore's queue. */
  predicate Asleep(m: Monitor, t: Tid) {
    Blocked(m.lock, t) || (t in m.waiters && t in m.waiters[t].queue)
  }

  datatype Step = Append(t: Tid, item: Item) | RemoveFront(t: Tid) | Continue(t: Tid)

  predicate Enabled(m: Monitor, step: Step) {
    match step
    case Append(t, _) => PcOf(m, t).Outside?
    case RemoveFront(t) => PcOf(m, t).Outside?
    case Continue(t) =>
      && !PcOf(m, t).Outside? && !Asleep(m, t)
      && (PcOf(m, t).WaitTest? ==> t in m.waiters)
      && (PcOf(m, t).AppendIn? && m.waitQueue != [] ==> m.waitQueue[0] in m.waiters)
  }

  /** The test in the lock's `P`; on success the thread goes on to `next`. */
  ghost function TryLock(m: Monitor, t: Tid, next: Pc): Monitor {
    m.(lock := Try(m.lock, t), pcs := if Sleeps(m.lock.sem) then m.pcs else m.pcs[t := next])
  }

  /** `Append` from the end of its `P` through `Signal`. */
  ghost function Appended(m: Monitor, t: Tid, item: Item): Monitor
    requires m.waitQueue != [] ==> m.waitQueue[0] in m.waiters
  {
    var m' := m.(lock := Claim(m.lock, t), list := m.list + [item], appended := m.appended + [item],
                 pcs := m.pcs[t := AppendOut]);
    if m.waitQueue == [] then m' else
      var w := m.waitQueue[0];
      m'.(waitQueue := m.waitQueue[1..], waiters := m.waiters[w := DoV(m.waiters[w])], signalled := m.signalled + {w})
  }

  /** `RemoveFront` with the lock, at its test of the list: wait, or take the
      front and leave. Both end in `Release`. */
  ghost function Tested(m: Monitor, t: Tid): Monitor {
    var m' := m.(lock := Released(Claim(m.lock, t), t));
    if m.list == [] then
      m'.(waitQueue := m.waitQueue + [t], waiters := m.waiters[t := Sem(0, [])], pcs := m.pcs[t := WaitTest])
    else
      m'.(list := m.list[1..], removed := m.removed + [m.list[0]], takers := m.takers + [t], pcs := m.pcs[t := Outside])
  }

  /** The end of `Wait`, which deletes the waiter semaphore. */
  ghost function Woke(m: Monitor, t: Tid): Monitor {
    m.(waiters := m.waiters - {t}, signalled := m.signalled - {t}, pcs := m.pcs[t := RemoveIn])
  }

  ghost function WaitTested(m: Monitor, t: Tid): Monitor
    requires t in m.waiters
  {
    m.(waiters := m.waiters[t := TestP(m.waiters[t], t)], pcs := if Sleeps(m.waiters[t]) then m.pcs else m.pcs[t := Retry])
  }

  ghost function Next(m: Monitor, step: Step): Monitor
    requires Enabled(m, step)
  {
    match step
    case Append(t, x) => m.(pcs := m.pcs[t := AppendTry(x)])
    case RemoveFront(t) => m.(pcs := m.pcs[t := RemoveTry])
    case Continue(t) =>
      match PcOf(m, t)
      case AppendTry(x) => TryLock(m, t, AppendIn(x))
      case AppendIn(x) => Appended(m, t, x)
      case AppendOut => m.(lock := Released(m.lock, t), pcs := m.pcs[t := Outside])
      case RemoveTry => TryLock(m, t, RemoveIn)
      case RemoveIn => Tested(m, t)
      case WaitTest => WaitTested(m, t)
      case Retry => TryLock(m, t, Resumed)
      case Resumed => Tested(Woke(m, t), t)
      case Outside => m
  }

  /** The lock's history is where the program counters say. */
  ghost predicate LockPart(m: Monitor) {
    && LockOk(m.lock)
    && (forall t :: t in m.lock.inside <==> Inside(PcOf(m, t)))
    && (forall t :: t in m.lock.trying ==> Trying(PcOf(m, t)))
    && (forall t: Tid :: m.lock.holder == Some(t) <==> PcOf(m, t).AppendOut?)
  }

  /** A queued waiter has not been signalled. A signalled one has its unit until
      it takes it, and is never asleep on it. */
  ghost predicate WaitPart(m: Monitor) {
    && NoDup(m.waitQueue)
    && (forall t :: t in m.waitQueue ==> t !in m.signalled)
    && (forall t :: t in m.waitQueue || t in m.signalled <==> Waiting(PcOf(m, t)))
    && (forall t :: t in m.waiters <==> Waiting(PcOf(m, t)))
    && (forall t :: t in m.waitQueue ==> Unsignalled(m, t))
    && (forall t :: t in m.signalled ==> Signalled(m, t))
  }

  ghost predicate Unsignalled(m: Monitor, t: Tid) {
    && PcOf(m, t).WaitTest? && t in m.waiters
    && m.waiters[t].value == 0 && (m.waiters[t].queue == [] || m.waiters[t].queue == [t])
  }

  ghost predicate Signalled(m: Monitor, t: Tid) {
    t in m.waiters && m.waiters[t] == Sem(if PcOf(m, t).WaitTest? then 1 else 0, [])
  }

  /** First in, first out, exactly once; and a queued consumer is owed nothing:
      the items present are matched by consumers on their way. */
  ghost predicate ItemPart(m: Monitor) {
    && m.appended == m.removed + m.list && |m.takers| == |m.removed|
    && (m.waitQueue != [] ==> |m.list| <= |m.signalled|)
  }

  ghost predicate Ok(m: Monitor) {
    LockPart(m) && WaitPart(m) && ItemPart(m)
  }

  ghost function Empty(): Monitor {
    Monitor(FREE, [], [], map[], map[], [], [], [], {})
  }

  lemma EmptyOk()
    ensures Ok(Empty())
  {
    FreeOk();
    hide LockOk;
  }

  // ---- what a step keeps ----

  /** A step of `t` that leaves the condition alone. */
  lemma WaitFrame(m: Monitor, m': Monitor, t: Tid)
    requires WaitPart(m) && m'.waitQueue == m.waitQueue && m'.waiters == m.waiters && m'.signalled == m.signalled
    requires forall u :: u != t ==> PcOf(m', u) == PcOf(m, u)
    requires Waiting(PcOf(m', t)) == Waiting(PcOf(m, t)) && PcOf(m', t).WaitTest? == PcOf(m, t).WaitTest?
    ensures WaitPart(m')
  {
    hide NoDup, Waiting, PcOf;
    assert forall u :: u in m.waitQueue ==> Unsignalled(m, u);
    assert forall u :: u in m.signalled ==> Signalled(m, u);
  }

  lemma CallOk(m: Monitor, t: Tid, pc: Pc)
    requires Ok(m) && PcOf(m, t).Outside? && (pc.AppendTry? || pc.RemoveTry?)
    ensures Ok(m.(pcs := m.pcs[t := pc]))
  {
    var m' := m.(pcs := m.pcs[t := pc]);
    assert t !in m.lock.inside && LockOk(m.lock);
    hide LockOk, LockPart, WaitPart;
    LockPartAfter(m, m', t);
    WaitFrame(m, m', t);
  }

  /** The lock's part after a step of `t` that changes only its own entries. */
  lemma LockPartAfter(m: Monitor, m': Monitor, t: Tid)
    requires LockPart(m) && LockOk(m'.lock) && m'.lock.holder == m.lock.holder
    requires forall u :: u != t ==> PcOf(m', u) == PcOf(m, u)
    requires forall u :: u != t ==> (u in m'.lock.inside <==> u in m.lock.inside) && (u in m'.lock.trying <==> u in m.lock.trying)
    requires t in m'.lock.inside <==> Inside(PcOf(m', t))
    requires t in m'.lock.trying ==> Trying(PcOf(m', t))
    requires !PcOf(m', t).AppendOut? && !PcOf(m, t).AppendOut?
    ensures LockPart(m')
  {
    hide LockOk, Inside, Trying;
  }

  lemma TryLockLock(m: Monitor, t: Tid, next: Pc)
    requires LockPart(m) && !Asleep(m, t) && Trying(PcOf(m, t)) && Inside(next) && !next.AppendOut?
    ensures LockPart(TryLock(m, t, next))
  {
    assert t !in m.lock.inside;
    TryOk(m.lock, t);
    TryEffect(m.lock, t);
    hide LockPart, LockOk, Asleep, Try;
    LockPartAfter(m, TryLock(m, t, next), t);
  }

  lemma TryLockOk(m: Monitor, t: Tid, next: Pc)
    requires Ok(m) && !Asleep(m, t) && Trying(PcOf(m, t)) && Inside(next) && !next.AppendOut?
    requires Waiting(next) <==> Waiting(PcOf(m, t))
    ensures Ok(TryLock(m, t, next))
  {
    var m' := TryLock(m, t, next);
    hide LockPart, Try, WaitPart, Asleep;
    TryLockLock(m, t, next);
    WaitFrame(m, m', t);
  }

  lemma LeaveOk(m: Monitor, t: Tid)
    requires Ok(m) && PcOf(m, t).AppendOut?
    ensures Ok(m.(lock := Released(m.lock, t), pcs := m.pcs[t := Outside]))
  {
    hide LockPart, WaitPart;
    var m' := m.(lock := Released(m.lock, t), pcs := m.pcs[t := Outside]);
    LeaveLock(m, t);
    hide Released;
    assert forall u :: PcOf(m', u) == if u == t then Outside else PcOf(m, u);
    WaitFrame(m, m', t);
  }

  lemma LeaveLock(m: Monitor, t: Tid)
    requires LockPart(m) && PcOf(m, t).AppendOut?
    ensures LockPart(m.(lock := Released(m.lock, t), pcs := m.pcs[t := Outside]))
  {
    hide LockOk;
    var m' := m.(lock := Released(m.lock, t), pcs := m.pcs[t := Outside]);
    assert t in m.lock.inside && m.lock.holder == Some(t);
    ReleasedOk(m.lock, t);
    assert forall u :: PcOf(m', u) == if u == t then Outside else PcOf(m, u);
  }

  lemma AppendedLock(m: Monitor, t: Tid, x: Item)
    requires LockPart(m) && PcOf(m, t) == AppendIn(x)
    requires m.waitQueue != [] ==> m.waitQueue[0] in m.waiters
    ensures LockPart(Appended(m, t, x))
  {
    var m' := Appended(m, t, x);
    assert forall u :: PcOf(m', u) == if u == t then AppendOut else PcOf(m, u);
    assert LockOk(m'.lock);
    forall u | u in m.lock.inside ensures u == t {
      OnlyOne(m.lock, t, u);
    }
    hide LockOk;
    assert forall u :: PcOf(m, u).AppendOut? ==> Inside(PcOf(m, u));
  }

  lemma AppendedWait(m: Monitor, t: Tid, x: Item)
    requires WaitPart(m) && PcOf(m, t) == AppendIn(x)
    ensures m.waitQueue != [] ==> m.waitQueue[0] in m.waiters
    ensures WaitPart(Appended(m, t, x))
  {
    if m.waitQueue == [] {
      AppendedUnseen(m, t, x);
    } else {
      AppendedSignals(m, t, x);
    }
  }

  lemma AppendedUnseen(m: Monitor, t: Tid, x: Item)
    requires WaitPart(m) && PcOf(m, t) == AppendIn(x) && m.waitQueue == []
    ensures WaitPart(Appended(m, t, x))
  {
    hide NoDup;
    var m' := Appended(m, t, x);
    assert forall u :: PcOf(m', u) == if u == t then AppendOut else PcOf(m, u);
    assert forall u :: u in m.signalled ==> Signalled(m, u);
  }

  lemma AppendedSignals(m: Monitor, t: Tid, x: Item)
    requires WaitPart(m) && PcOf(m, t) == AppendIn(x) && m.waitQueue != []
    ensures m.waitQueue[0] in m.waiters && WaitPart(Appended(m, t, x))
  {
    hide NoDup;
    var w := m.waitQueue[0];
    assert Unsignalled(m, w);
    var m' := Appended(m, t, x);
    TailNoDup(m.waitQueue);
    assert forall u :: PcOf(m', u) == if u == t then AppendOut else PcOf(m, u);
    forall u | u in m'.waitQueue ensures Unsignalled(m', u) {
      assert Unsignalled(m, u);
    }
    forall u | u in m'.signalled ensures Signalled(m', u) {
      assert u == w || Signalled(m, u);
    }
    hide Unsignalled, Signalled;
  }

  lemma AppendedOk(m: Monitor, t: Tid, x: Item)
    requires Ok(m) && PcOf(m, t) == AppendIn(x)
    ensures m.waitQueue != [] ==> m.waitQueue[0] in m.waiters
    ensures Ok(Appended(m, t, x))
  {
    AppendedWait(m, t, x);
    AppendedLock(m, t, x);
    assert m.waitQueue != [] ==> m.waitQueue[0] !in m.signalled;
    hide LockPart, WaitPart;
  }

  lemma TestedLock(m: Monitor, t: Tid)
    requires LockPart(m) && PcOf(m, t).RemoveIn?
    ensures LockPart(Tested(m, t))
  {
    var m' := Tested(m, t);
    assert t in m.lock.inside && LockOk(Claim(m.lock, t));
    ReleasedOk(Claim(m.lock, t), t);
    forall u | u in m.lock.inside ensures u == t {
      OnlyOne(m.lock, t, u);
    }
    hide LockOk;
    assert forall u :: PcOf(m', u) == if u == t then m'.pcs[t] else PcOf(m, u);
    assert forall u :: PcOf(m, u).AppendOut? ==> Inside(PcOf(m, u));
  }

  lemma TestedWait(m: Monitor, t: Tid)
    requires WaitPart(m) && PcOf(m, t).RemoveIn?
    ensures WaitPart(Tested(m, t))
  {
    var m' := Tested(m, t);
    assert forall u :: PcOf(m', u) == if u == t then m'.pcs[t] else PcOf(m, u);
    if m.list == [] {
      assert t !in m.waitQueue && t !in m.signalled;
      assert forall u :: u in m.signalled ==> Signalled(m, u);
      assert forall u :: u in m.waitQueue ==> Unsignalled(m, u);
      SnocNoDup(m.waitQueue, t);
      hide NoDup;
      assert Unsignalled(m', t);
    } else {
      WaitFrame(m, m', t);
    }
  }

  lemma TestedItems(m: Monitor, t: Tid)
    requires m.appended == m.removed + m.list && |m.takers| == |m.removed|
    requires m.waitQueue != [] && m.list != [] ==> |m.list| - 1 <= |m.signalled|
    ensures ItemPart(Tested(m, t))
  {
  }

  lemma WaitTestedOk(m: Monitor, t: Tid)
    requires Ok(m) && PcOf(m, t).WaitTest? && !Asleep(m, t)
    ensures t in m.waiters && Ok(WaitTested(m, t))
  {
    hide LockPart, WaitPart, Asleep;
    WaitTestedWait(m, t);
    WaitTestedLock(m, t);
  }

  lemma WaitTestedLock(m: Monitor, t: Tid)
    requires LockPart(m) && PcOf(m, t).WaitTest? && t in m.waiters
    ensures LockPart(WaitTested(m, t))
  {
    hide LockOk;
    var m' := WaitTested(m, t);
    assert forall u :: PcOf(m', u) == if u == t && !Sleeps(m.waiters[t]) then Retry else PcOf(m, u);
  }

  lemma WaitTestedWait(m: Monitor, t: Tid)
    requires WaitPart(m) && PcOf(m, t).WaitTest? && !Asleep(m, t)
    ensures t in m.waiters && WaitPart(WaitTested(m, t))
  {
    hide NoDup;
    var m' := WaitTested(m, t);
    assert t in m.waitQueue ==> Unsignalled(m, t);
    assert t in m.signalled ==> Signalled(m, t);
    assert forall u :: PcOf(m', u) == if u == t && !Sleeps(m.waiters[t]) then Retry else PcOf(m, u);
    assert forall u :: u in m.signalled && u != t ==> Signalled(m, u);
    assert forall u :: u in m.waitQueue && u != t ==> Unsignalled(m, u);
  }

  /** The end of `Wait` leaves the monitor as if the consumer had just come in. */
  lemma WokeOk(m: Monitor, t: Tid)
    requires Ok(m) && PcOf(m, t).Resumed?
    ensures LockPart(Woke(m, t)) && WaitPart(Woke(m, t)) && t in m.signalled
  {
    hide LockPart, WaitPart;
    WokeLock(m, t);
    WokeWait(m, t);
  }

  lemma WokeLock(m: Monitor, t: Tid)
    requires LockPart(m) && PcOf(m, t).Resumed?
    ensures LockPart(Woke(m, t))
  {
    hide LockOk;
    var m' := Woke(m, t);
    assert forall u :: PcOf(m', u) == if u == t then RemoveIn else PcOf(m, u);
  }

  lemma WokeWait(m: Monitor, t: Tid)
    requires WaitPart(m) && PcOf(m, t).Resumed?
    ensures WaitPart(Woke(m, t)) && t in m.signalled
  {
    hide NoDup;
    var m' := Woke(m, t);
    assert forall u :: PcOf(m', u) == if u == t then RemoveIn else PcOf(m, u);
    assert t in m.waitQueue ==> Unsignalled(m, t);
    assert forall u :: u in m.signalled ==> Signalled(m, u);
    assert forall u :: u in m.waitQueue ==> Unsignalled(m, u);
  }

  /** The end of `Wait` runs on through the next test, so that a resumed
      consumer takes the item it was owed or finds the list empty. */
  lemma ResumedOk(m: Monitor, t: Tid)
    requires Ok(m) && PcOf(m, t).Resumed?
    ensures Ok(Tested(Woke(m, t), t))
  {
    WokeOk(m, t);
    var w := Woke(m, t);
    TestedLock(w, t);
    TestedWait(w, t);
    hide LockPart, WaitPart;
    TestedItems(w, t);
  }

  lemma TestedOk(m: Monitor, t: Tid)
    requires Ok(m) && PcOf(m, t).RemoveIn?
    ensures Ok(Tested(m, t))
  {
    TestedLock(m, t);
    TestedWait(m, t);
    hide LockPart, WaitPart;
    TestedItems(m, t);
  }

  lemma StepOk(m: Monitor, step: Step)
    requires Ok(m) && Enabled(m, step)
    ensures Ok(Next(m, step))
  {
    hide Ok, Tested, Woke, Appended, TryLock, WaitTested;
    match step
    case Append(t, x) => CallOk(m, t, AppendTry(x));
    case RemoveFront(t) => CallOk(m, t, RemoveTry);
    case Continue(t) =>
      match PcOf(m, t)
      case AppendTry(x) => TryLockOk(m, t, AppendIn(x));
      case AppendIn(x) => AppendedOk(m, t, x);
      case AppendOut => LeaveOk(m, t);
      case RemoveTry => TryLockOk(m, t, RemoveIn);
      case RemoveIn => TestedOk(m, t);
      case WaitTest => WaitTestedOk(m, t);
      case Retry => TryLockOk(m, t, Resumed);
      case Resumed => ResumedOk(m, t);
      case Outside =>
  }

  // ---- whole runs ----

  ghost predicate Run(ms: seq<Monitor>, steps: seq<Step>) {
    && |ms| == |steps| + 1 && ms[0] == Empty()
    && forall i :: 0 <= i < |steps| ==> Enabled(ms[i], steps[i]) && ms[i + 1] == Next(ms[i], steps[i])
  }

  lemma {:induction false} RunOk(ms: seq<Monitor>, steps: seq<Step>, n: nat)
    requires Run(ms, steps) && n <= |steps|
    ensures Ok(ms[n])
  {
    hide Ok, Next, Enabled;
    if n == 0 {
      EmptyOk();
    } else {
      RunOk(ms, steps, n - 1);
      StepOk(ms[n - 1], steps[n - 1]);
    }
  }

  /** Every item given to `Append` is returned by exactly one `RemoveFront`, in the
      order appended, or is still on the list; while a consumer is queued, every
      item on the list is matched by a consumer that has been signalled. */
  lemma Delivery(ms: seq<Monitor>, steps: seq<Step>, n: nat)
    requires Run(ms, steps) && n <= |steps|
    ensures AppendCalls(ms, steps, n) == Items(RemoveCalls(ms, steps, n)) + ms[n].list
    ensures var m := ms[n];
            && (m.waitQueue != [] ==> |m.list| <= |m.signalled|)
            && (forall t :: t in m.signalled <==> Waiting(PcOf(m, t)) && t !in m.waitQueue)
  {
    hide Next, LockPart;
    RunOk(ms, steps, n);
    HistoryIsCalls(ms, steps, n);
  }

  // ---- the history is that of the calls ----

  /** The item that a step puts on the list: it takes its thread past the lock's
      `P` in a call of `Append`. */
  ghost function AppendedIn(m: Monitor, step: Step): seq<Item> {
    if step.Continue? && PcOf(m, step.t).AppendIn? then [PcOf(m, step.t).item] else []
  }

  /** The items appended in the first `n` steps. */
  ghost function AppendCalls(ms: seq<Monitor>, steps: seq<Step>, n: nat): seq<Item>
    requires n <= |steps| < |ms|
  {
    if n == 0 then [] else AppendCalls(ms, steps, n - 1) + AppendedIn(ms[n - 1], steps[n - 1])
  }

  /** A thread in `RemoveFront` with the lock, at its test of the list. */
  predicate AtTest(pc: Pc) {
    pc.RemoveIn? || pc.Resumed?
  }

  ghost predicate Returns(m: Monitor, step: Step, m': Monitor) {
    step.Continue? && AtTest(PcOf(m, step.t)) && PcOf(m', step.t).Outside?
  }

  /** The threads that returned from `RemoveFront` in the first `n` steps, each
      with the item that was at the front of the list. */
  ghost function RemoveCalls(ms: seq<Monitor>, steps: seq<Step>, n: nat): seq<(Tid, Item)>
    requires n <= |steps| < |ms|
  {
    if n == 0 then [] else RemoveCalls(ms, steps, n - 1) + ReturnedIn(ms[n - 1], steps[n - 1], ms[n])
  }

  ghost function ReturnedIn(m: Monitor, step: Step, m': Monitor): seq<(Tid, Item)> {
    if Returns(m, step, m') && m.list != [] then [(step.t, m.list[0])] else []
  }

  ghost function Takers(calls: seq<(Tid, Item)>): (r: seq<Tid>)
    ensures |r| == |calls|
  {
    seq(|calls|, i requires 0 <= i < |calls| => calls[i].0)
  }

  ghost function Items(calls: seq<(Tid, Item)>): (r: seq<Item>)
    ensures |r| == |calls|
  {
    seq(|calls|, i requires 0 <= i < |calls| => calls[i].1)
  }

  lemma CallsConcat(a: seq<(Tid, Item)>, b: seq<(Tid, Item)>)
    ensures Takers(a + b) == Takers(a) + Takers(b) && Items(a + b) == Items(a) + Items(b)
  {
  }

  /** A step appends the item of its call, and returns the front of the list to a
      consumer exactly when there is one. */
  lemma StepHistory(m: Monitor, step: Step)
    requires Enabled(m, step)
    ensures var m' := Next(m, step);
            && m'.appended == m.appended + AppendedIn(m, step)
            && m'.removed == m.removed + Items(ReturnedIn(m, step, m'))
            && m'.takers == m.takers + Takers(ReturnedIn(m, step, m'))
            && m'.list == m.list[|ReturnedIn(m, step, m')|..] + AppendedIn(m, step)
            && (step.Continue? && AtTest(PcOf(m, step.t)) ==> (Returns(m, step, m') <==> m.list != []))
  {
    hide Released, Try, TestP, DoV;
    var m' := Next(m, step);
    if step.Continue? && AtTest(PcOf(m, step.t)) {
      TestHistory(m, step.t);
    } else {
      assert ReturnedIn(m, step, m') == [];
    }
  }

  lemma TestHistory(m: Monitor, t: Tid)
    requires Enabled(m, Continue(t)) && AtTest(PcOf(m, t))
    ensures var m', calls := Next(m, Continue(t)), ReturnedIn(m, Continue(t), Next(m, Continue(t)));
            && m'.appended == m.appended && AppendedIn(m, Continue(t)) == []
            && m'.removed == m.removed + Items(calls) && m'.takers == m.takers + Takers(calls)
            && m'.list == m.list[|calls|..] && (Returns(m, Continue(t), m') <==> m.list != [])
  {
    hide Released, Try, TestP, DoV;
  }

  lemma {:induction false} HistoryIsCalls(ms: seq<Monitor>, steps: seq<Step>, n: nat)
    requires Run(ms, steps) && n <= |steps|
    ensures ms[n].appended == AppendCalls(ms, steps, n)
    ensures ms[n].removed == Items(RemoveCalls(ms, steps, n)) && ms[n].takers == Takers(RemoveCalls(ms, steps, n))
  {
    hide Next, Enabled, ReturnedIn, AppendedIn, Takers, Items;
    if n == 0 {
      assert Takers([]) == [] && Items([]) == [];
    } else {
      HistoryIsCalls(ms, steps, n - 1);
      StepHistory(ms[n - 1], steps[n - 1]);
      CallsConcat(RemoveCalls(ms, steps, n - 1), ReturnedIn(ms[n - 1], steps[n - 1], ms[n]));
    }
  }

  /** A step of another thread leaves `t` where it is. */
  lemma OthersStay(m: Monitor, step: Step, t: Tid)
    requires Enabled(m, step) && step.t != t
    ensures PcOf(Next(m, step), t) == PcOf(m, t)
  {
    hide Released, Try, TestP, DoV;
  }

  /** The way of a thread through `Append(x)`. */
  lemma AppendMoves(m: Monitor, t: Tid)
    requires Enabled(m, Continue(t))
    ensures var pc, pc' := PcOf(m, t), PcOf(Next(m, Continue(t)), t);
            && (pc.AppendTry? ==> pc' == pc || pc' == AppendIn(pc.item))
            && (pc.AppendIn? ==> pc' == AppendOut)
            && (pc.AppendOut? ==> pc' == Outside)
  {
    hide Released, Try, TestP, DoV;
  }

  /** The step of `t` at which `x` went on the list. */
  ghost predicate Appends(ms: seq<Monitor>, steps: seq<Step>, j: int, t: Tid, x: Item)
    requires |ms| > |steps|
  {
    0 <= j < |steps| && steps[j] == Continue(t) && PcOf(ms[j], t) == AppendIn(x)
  }

  ghost predicate InAppend(ms: seq<Monitor>, steps: seq<Step>, i: nat, n: nat, t: Tid, x: Item)
    requires |ms| > |steps| && n <= |steps|
  {
    if PcOf(ms[n], t).AppendOut?
    then exists j :: i < j < n && Appends(ms, steps, j, t, x) && OnlyAt(ms, steps, i, n, t, j)
    else (PcOf(ms[n], t) == AppendTry(x) || PcOf(ms[n], t) == AppendIn(x)) && OnlyAt(ms, steps, i, n, t, i)
  }

  /** Between steps `i` and `n` no other step than `j` is an append by `t`. */
  ghost predicate OnlyAt(ms: seq<Monitor>, steps: seq<Step>, i: nat, n: nat, t: Tid, j: int)
    requires |ms| > |steps| && n <= |steps|
  {
    forall k :: i < k < n && k != j ==> !(steps[k] == Continue(t) && PcOf(ms[k], t).AppendIn?)
  }

  lemma {:induction false} DuringAppend(ms: seq<Monitor>, steps: seq<Step>, i: nat, n: nat, t: Tid, x: Item)
    requires Run(ms, steps) && i < n <= |steps| && steps[i] == Append(t, x)
    requires forall k :: i < k <= n ==> !PcOf(ms[k], t).Outside?
    ensures InAppend(ms, steps, i, n, t, x)
  {
    hide Next;
    if n == i + 1 {
      assert ms[n] == Next(ms[i], steps[i]);
      CallMoves(ms[i], t, x);
    } else {
      DuringAppend(ms, steps, i, n - 1, t, x);
      var m, step := ms[n - 1], steps[n - 1];
      assert Enabled(m, step) && ms[n] == Next(m, step);
      if step.t != t {
        OthersStay(m, step, t);
      } else {
        AppendMoves(m, t);
        if PcOf(m, t).AppendIn? {
          assert Appends(ms, steps, n - 1, t, x);
        }
      }
    }
  }

  lemma CallMoves(m: Monitor, t: Tid, x: Item)
    requires Enabled(m, Append(t, x))
    ensures PcOf(Next(m, Append(t, x)), t) == AppendTry(x)
  {
  }

  lemma AppendLeaves(ms: seq<Monitor>, steps: seq<Step>, i: nat, n: nat, t: Tid, x: Item)
    requires Run(ms, steps) && i < n <= |steps| && steps[i] == Append(t, x)
    requires PcOf(ms[n], t).Outside? && forall k :: i < k < n ==> !PcOf(ms[k], t).Outside?
    ensures n > i + 1 && steps[n - 1] == Continue(t) && PcOf(ms[n - 1], t).AppendOut? && InAppend(ms, steps, i, n - 1, t, x)
  {
    hide Next, InAppend;
    assert Enabled(ms[n - 1], steps[n - 1]) && ms[n] == Next(ms[n - 1], steps[n - 1]);
    if n == i + 1 {
      CallMoves(ms[i], t, x);
    } else {
      DuringAppend(ms, steps, i, n - 1, t, x);
      InAppendPc(ms, steps, i, n - 1, t, x);
      if steps[n - 1].t != t {
        OthersStay(ms[n - 1], steps[n - 1], t);
      } else {
        AppendMoves(ms[n - 1], t);
      }
    }
  }

  lemma InAppendPc(ms: seq<Monitor>, steps: seq<Step>, i: nat, n: nat, t: Tid, x: Item)
    requires |ms| > |steps| && n <= |steps| && InAppend(ms, steps, i, n, t, x)
    ensures PcOf(ms[n], t).AppendOut? || PcOf(ms[n], t).AppendTry? || PcOf(ms[n], t).AppendIn?
  {
  }

  /** A call of `Append` that has returned has put its item on the list, once. */
  lemma AppendReturned(ms: seq<Monitor>, steps: seq<Step>, i: nat, n: nat, t: Tid, x: Item)
    requires Run(ms, steps) && i < n <= |steps| && steps[i] == Append(t, x)
    requires PcOf(ms[n], t).Outside? && forall k :: i < k < n ==> !PcOf(ms[k], t).Outside?
    ensures exists j :: i < j < n && Appends(ms, steps, j, t, x) && ms[j + 1].appended == ms[j].appended + [x]
                        && ms[j + 1].appended <= ms[n].appended && OnlyAt(ms, steps, i, n, t, j)
  {
    hide Next, Enabled;
    AppendLeaves(ms, steps, i, n, t, x);
    var j :| i < j < n - 1 && Appends(ms, steps, j, t, x) && OnlyAt(ms, steps, i, n - 1, t, j);
    StepHistory(ms[j], steps[j]);
    HistoryGrows(ms, steps, j + 1, n);
  }

  predicate InRemove(pc: Pc) {
    pc.RemoveTry? || pc.RemoveIn? || Waiting(pc)
  }

  /** The way of a thread through `RemoveFront`: out only from a test that finds
      something on the list. */
  lemma RemoveMoves(m: Monitor, t: Tid)
    requires Enabled(m, Continue(t)) && InRemove(PcOf(m, t))
    ensures var m' := Next(m, Continue(t)); InRemove(PcOf(m', t)) || (Returns(m, Continue(t), m') && m.list != [])
  {
    hide Released, Try, TestP, DoV;
  }

  lemma {:induction false} DuringRemove(ms: seq<Monitor>, steps: seq<Step>, i: nat, n: nat, t: Tid)
    requires Run(ms, steps) && i < n <= |steps| && steps[i] == RemoveFront(t)
    requires forall k :: i < k <= n ==> !PcOf(ms[k], t).Outside?
    ensures InRemove(PcOf(ms[n], t))
  {
    hide Next;
    if n == i + 1 {
      assert ms[n] == Next(ms[i], steps[i]);
      RemoveCallMoves(ms[i], t);
    } else {
      DuringRemove(ms, steps, i, n - 1, t);
      assert Enabled(ms[n - 1], steps[n - 1]) && ms[n] == Next(ms[n - 1], steps[n - 1]);
      if steps[n - 1].t != t {
        OthersStay(ms[n - 1], steps[n - 1], t);
      } else {
        RemoveMoves(ms[n - 1], t);
      }
    }
  }

  lemma RemoveCallMoves(m: Monitor, t: Tid)
    requires Enabled(m, RemoveFront(t))
    ensures PcOf(Next(m, RemoveFront(t)), t) == RemoveTry
  {
  }

  /** A call of `RemoveFront` that has returned took the front of the list in its
      last step, and nothing else. */
  lemma RemoveReturned(ms: seq<Monitor>, steps: seq<Step>, i: nat, n: nat, t: Tid)
    requires Run(ms, steps) && i < n <= |steps| && steps[i] == RemoveFront(t)
    requires PcOf(ms[n], t).Outside? && forall k :: i < k < n ==> !PcOf(ms[k], t).Outside?
    ensures ms[n - 1].list != [] && ReturnedIn(ms[n - 1], steps[n - 1], ms[n]) == [(t, ms[n - 1].list[0])]
    ensures forall k :: i <= k < n - 1 && ReturnedIn(ms[k], steps[k], ms[k + 1]) != [] ==> steps[k].t != t
  {
    hide Next;
    assert Enabled(ms[n - 1], steps[n - 1]) && ms[n] == Next(ms[n - 1], steps[n - 1]);
    if n == i + 1 {
      RemoveCallMoves(ms[i], t);
    } else {
      DuringRemove(ms, steps, i, n - 1, t);
      if steps[n - 1].t != t {
        OthersStay(ms[n - 1], steps[n - 1], t);
      } else {
        RemoveMoves(ms[n - 1], t);
      }
    }
  }

  // ---- first waiting, first signalled ----

  /** The items appended between two states, each with a `Signal`. */
  ghost function Signals(ms: seq<Monitor>, steps: seq<Step>, m: nat, n: nat): nat
    requires m <= n <= |steps| < |ms|
  {
    if m == n then 0 else Signals(ms, steps, m, n - 1) + |AppendedIn(ms[n - 1], steps[n - 1])|
  }

  /** `t` finds the list empty and queues itself. */
  ghost predicate Waits(m: Monitor, step: Step) {
    step.Continue? && AtTest(PcOf(m, step.t)) && m.list == []
  }

  lemma WaitersMove(m: Monitor, step: Step)
    requires Enabled(m, step)
    ensures var m', signals := Next(m, step), AppendedIn(m, step) != [] && m.waitQueue != [];
            var rest := if signals then m.waitQueue[1..] else m.waitQueue;
            && m'.waitQueue == rest + (if Waits(m, step) then [step.t] else [])
            && (signals ==> m'.signalled == m.signalled + {m.waitQueue[0]})
  {
    hide Released, Try, TestP, DoV;
  }

  /** Queued consumers are signalled in the order in which they began to wait: one
      with `j` ahead of it by exactly the `Append` after `j` others. */
  lemma {:induction false} FirstWaitingFirstSignalled(ms: seq<Monitor>, steps: seq<Step>, m: nat, n: nat, j: nat)
    requires Run(ms, steps) && m <= n <= |steps| && j < |ms[m].waitQueue| && Signals(ms, steps, m, n) <= j
    ensures j - Signals(ms, steps, m, n) < |ms[n].waitQueue|
    ensures ms[n].waitQueue[j - Signals(ms, steps, m, n)] == ms[m].waitQueue[j]
    ensures n < |steps| && Signals(ms, steps, m, n) == j && AppendedIn(ms[n], steps[n]) != [] ==>
              ms[n + 1].signalled == ms[n].signalled + {ms[m].waitQueue[j]}
  {
    hide Next, Enabled, Waits;
    if m < n {
      FirstWaitingFirstSignalled(ms, steps, m, n - 1, j);
      WaitersMove(ms[n - 1], steps[n - 1]);
    }
    if n < |steps| {
      WaitersMove(ms[n], steps[n]);
    }
  }

  lemma StepGrows(m: Monitor, step: Step)
    requires Enabled(m, step)
    ensures var m' := Next(m, step); m.removed <= m'.removed && m.appended <= m'.appended && m.takers <= m'.takers
  {
    hide Released, Try, TestP, DoV;
  }

  /** The history only grows: what one state says was removed stays so. */
  lemma {:induction false} HistoryGrows(ms: seq<Monitor>, steps: seq<Step>, k: nat, n: nat)
    requires Run(ms, steps) && k <= n <= |steps|
    ensures ms[k].removed <= ms[n].removed && ms[k].appended <= ms[n].appended && ms[k].takers <= ms[n].takers
  {
    hide Next, Enabled;
    if k < n {
      HistoryGrows(ms, steps, k, n - 1);
      StepGrows(ms[n - 1], steps[n - 1]);
    }
  }

  /** The assertions of `Release`, `Signal` and `Wait` hold, and `Signal` never
      reaches a semaphore that has been deleted: a thread that is not asleep can
      always take its next step, or make a call if it is outside. */
  lemma AssertionsHold(ms: seq<Monitor>, steps: seq<Step>, n: nat, t: Tid, x: Item)
    requires Run(ms, steps) && n <= |steps| && !Asleep(ms[n], t)
    ensures if PcOf(ms[n], t).Outside? then Enabled(ms[n], Append(t, x)) && Enabled(ms[n], RemoveFront(t)) else Enabled(ms[n], Continue(t))
    ensures PcOf(ms[n], t).AppendOut? ==> ms[n].lock.holder == Some(t)
    ensures Inside(PcOf(ms[n], t)) ==> ms[n].lock.inside == {t}
    ensures PcOf(ms[n], t).Resumed? ==> t in ms[n].waiters && ms[n].waiters[t].queue == [] && t !in ms[n].waitQueue
  {
    RunOk(ms, steps, n);
    var m := ms[n];
    if Inside(PcOf(m, t)) {
      OnlyOne(m.lock, t, t);
    }
    hide LockOk, Next;
    assert m.waitQueue != [] ==> Unsignalled(m, m.waitQueue[0]);
    assert t in m.signalled ==> Signalled(m, t);
    assert t in m.waitQueue ==> Unsignalled(m, t);
  }

  /** A signal sent at any time after the waiter queued itself is not missed,
      even before the waiter reaches its `P`: the waiter is not asleep, and its
      next test succeeds. */
  lemma NoMissedSignal(ms: seq<Monitor>, steps: seq<Step>, n: nat, t: Tid)
    requires Run(ms, steps) && n <= |steps| && t in ms[n].signalled && PcOf(ms[n], t).WaitTest?
    ensures !Asleep(ms[n], t) && Enabled(ms[n], Continue(t))
    ensures PcOf(Next(ms[n], Continue(t)), t).Retry?
  {
    RunOk(ms, steps, n);
    assert Signalled(ms[n], t);
    assert t !in ms[n].lock.trying;
  }

  /** The only way for every thread in the monitor to be asleep is for all of
      them to be queued consumers facing an empty list. */
  lemma OnlyEmptyBlocks(ms: seq<Monitor>, steps: seq<Step>, n: nat, t: Tid)
    requires Run(ms, steps) && n <= |steps| && !PcOf(ms[n], t).Outside?
    requires forall u :: !PcOf(ms[n], u).Outside? ==> Asleep(ms[n], u)
    ensures t in ms[n].waitQueue && ms[n].list == []
  {
    RunOk(ms, steps, n);
    AllAsleep(ms[n], t);
  }

  /** Who is awake: a thread inside, and one past its waiter semaphore's queue
      that is not in the lock's. */
  lemma Awake(m: Monitor, u: Tid)
    requires Ok(m)
    ensures Inside(PcOf(m, u)) ==> !Asleep(m, u)
    ensures (Trying(PcOf(m, u)) || u in m.signalled) && !Blocked(m.lock, u) ==> !Asleep(m, u)
    ensures PcOf(m, u).WaitTest? ==> !Blocked(m.lock, u)
  {
    assert u in m.signalled ==> Signalled(m, u);
    assert u in m.waitQueue ==> Unsignalled(m, u);
    assert Blocked(m.lock, u) ==> u in m.lock.trying;
  }

  lemma AllAsleep(m: Monitor, t: Tid)
    requires Ok(m) && !PcOf(m, t).Outside?
    requires forall u :: !PcOf(m, u).Outside? ==> Asleep(m, u)
    ensures t in m.waitQueue && m.list == []
  {
    forall u {
      Awake(m, u);
    }
    assert m.lock.inside == {};
    LockIdle(m.lock);
    hide LockOk;
    assert m.lock.sem.queue == [];
    assert m.signalled == {};
    assert Asleep(m, t);
  }
}
