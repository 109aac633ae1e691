/** One request at a time: the protocol by which any number of threads share a
    device that finishes each request with an interrupt. A caller acquires a
    lock, issues its request, waits on a semaphore that the interrupt handler
    raises, and releases the lock. The disk and the network output use it. */
module Requests {
  import opened Common
  import opened Semaphores
  import opened Locks

  type Request(==, !new)

  datatype Pc = Outside | Trying(request: Request) | Entered(request: Request) | Waiting(ticket: nat) | Done(ticket: nat)

  /** `active` is the device's own busy flag, which a request sets only if
      `flags`: the disk does, the network output never does. A request's ticket is its position in
      `history`; `scheduled` are the completion interrupts still to come, and
      `returned` the tickets of the calls that have returned, with their callers. */
  datatype State = State(
    lock: LockState,
    sem: Sem,
    flags: bool,
    active: bool,
    scheduled: seq<nat>,
    pcs: map<Tid, Pc>,
    history: seq<Request>,
    completed: set<nat>,
    returned: seq<(Tid, nat)>)

  function PcOf(s: State, t: Tid): Pc {
    if t in s.pcs then s.pcs[t] else Outside
  }

  predicate Inside(pc: Pc) {
    pc.Entered? || pc.Waiting? || pc.Done?
  }

  predicate Asleep(s: State, t: Tid) {
    Blocked(s.lock, t) || t in s.sem.queue
  }

  datatype Step = Call(t: Tid, request: Request) | Continue(t: Tid) | Interrupt

  predicate Enabled(s: State, step: Step) {
    match step
    case Call(t, _) => PcOf(s, t).Outside?
    case Continue(t) => !PcOf(s, t).Outside? && !Asleep(s, t)
    case Interrupt => s.scheduled != []
  }

  ghost function Tried(s: State, t: Tid, request: Request): State {
    s.(lock := Try(s.lock, t), pcs := if Sleeps(s.lock.sem) then s.pcs else s.pcs[t := Entered(request)])
  }

  function Issued(s: State, t: Tid, request: Request): State {
    s.(lock := Claim(s.lock, t), active := s.flags, scheduled := s.scheduled + [|s.history|],
       history := s.history + [request], pcs := s.pcs[t := Waiting(|s.history|)])
  }

  function Tested(s: State, t: Tid, ticket: nat): State {
    s.(sem := TestP(s.sem, t), pcs := if Sleeps(s.sem) then s.pcs else s.pcs[t := Done(ticket)])
  }

  ghost function Left(s: State, t: Tid, ticket: nat): State {
    s.(lock := Released(s.lock, t), returned := s.returned + [(t, ticket)], pcs := s.pcs[t := Outside])
  }

  /** The device's handler and the `CallBack` of its user. */
  function Fired(s: State): State
    requires s.scheduled != []
  {
    s.(active := false, sem := DoV(s.sem), completed := s.completed + {s.scheduled[0]}, scheduled := s.scheduled[1..])
  }

  ghost function Next(s: State, step: Step): State
    requires Enabled(s, step)
  {
    match step
    case Call(t, r) => s.(pcs := s.pcs[t := Trying(r)])
    case Interrupt => Fired(s)
    case Continue(t) =>
      match PcOf(s, t)
      case Trying(r) => Tried(s, t, r)
      case Entered(r) => Issued(s, t, r)
      case Waiting(k) => Tested(s, t, k)
      case Done(k) => Left(s, t, k)
      case Outside => s
  }

  ghost predicate LockPart(s: State) {
    && LockOk(s.lock)
    && (forall t :: t in s.lock.inside <==> Inside(PcOf(s, t)))
    && (forall t :: t in s.lock.trying ==> PcOf(s, t).Trying?)
    && (forall t: Tid :: s.lock.holder == Some(t) <==> PcOf(s, t).Waiting? || PcOf(s, t).Done?)
  }

  predicate Quiet(s: State) {
    s.scheduled == [] && s.sem == Sem(0, [])
  }

  /** The caller's own request is under way, or finished with its unit waiting. */
  ghost predicate InProgress(s: State, t: Tid, k: nat) {
    && k < |s.history|
    && (if s.scheduled != []
        then s.scheduled == [k] && s.sem.value == 0 && (s.sem.queue == [] || s.sem.queue == [t])
        else k in s.completed && s.sem == Sem(1, []))
  }

  ghost predicate DevicePart(s: State) {
    && (s.active <==> s.flags && s.scheduled != [])
    && (forall t :: PcOf(s, t).Waiting? ==> InProgress(s, t, PcOf(s, t).ticket))
    && (forall t :: PcOf(s, t).Done? ==> PcOf(s, t).ticket in s.completed)
    && (Quiet(s) || exists t :: PcOf(s, t).Waiting?)
    && (forall i :: 0 <= i < |s.returned| ==> s.returned[i].1 in s.completed)
    && (forall k :: k in s.completed ==> k < |s.history|)
  }

  ghost predicate Ok(s: State) {
    LockPart(s) && DevicePart(s)
  }

  function Start(flags: bool): State {
    State(FREE, Sem(0, []), flags, false, [], map[], [], {}, [])
  }

  lemma StartOk(flags: bool)
    ensures Ok(Start(flags))
  {
    FreeOk();
  }

  lemma LockPartAfter(s: State, s': State, t: Tid)
    requires LockPart(s) && LockOk(s'.lock)
    requires forall u :: u != t ==> PcOf(s', u) == PcOf(s, u)
    requires forall u :: u != t ==> (u in s'.lock.inside <==> u in s.lock.inside) && (u in s'.lock.trying <==> u in s.lock.trying)
    requires forall u: Tid :: u != t ==> (s'.lock.holder == Some(u) <==> s.lock.holder == Some(u))
    requires t in s'.lock.inside <==> Inside(PcOf(s', t))
    requires t in s'.lock.trying ==> PcOf(s', t).Trying?
    requires s'.lock.holder == Some(t) <==> PcOf(s', t).Waiting? || PcOf(s', t).Done?
    ensures LockPart(s')
  {
    hide LockOk, Inside;
  }

  lemma CallOk(s: State, t: Tid, r: Request)
    requires Ok(s) && PcOf(s, t).Outside?
    ensures Ok(s.(pcs := s.pcs[t := Trying(r)]))
  {
    var s' := s.(pcs := s.pcs[t := Trying(r)]);
    assert t !in s.lock.inside && s.lock.holder != Some(t) && LockOk(s.lock);
    hide LockOk, LockPart;
    LockPartAfter(s, s', t);
    assert forall u :: u != t ==> PcOf(s', u) == PcOf(s, u);
  }

  lemma TriedLock(s: State, t: Tid, r: Request)
    requires LockPart(s) && PcOf(s, t) == Trying(r) && !Asleep(s, t)
    ensures LockPart(Tried(s, t, r))
  {
    assert t !in s.lock.inside && s.lock.holder != Some(t);
    TryOk(s.lock, t);
    TryEffect(s.lock, t);
    hide LockOk, LockPart, Asleep, Try;
    LockPartAfter(s, Tried(s, t, r), t);
  }

  lemma TriedOk(s: State, t: Tid, r: Request)
    requires Ok(s) && PcOf(s, t) == Trying(r) && !Asleep(s, t)
    ensures Ok(Tried(s, t, r))
  {
    hide LockPart, DevicePart, Asleep, Tried;
    TriedLock(s, t, r);
    TriedDevice(s, t, r);
  }

  lemma TriedDevice(s: State, t: Tid, r: Request)
    requires DevicePart(s) && PcOf(s, t) == Trying(r)
    ensures DevicePart(Tried(s, t, r))
  {
    hide Try;
    assert forall u :: u != t ==> PcOf(Tried(s, t, r), u) == PcOf(s, u);
  }

  /** The device is idle when a caller gets to it. */
  lemma EntersQuiet(s: State, t: Tid)
    requires Ok(s) && Inside(PcOf(s, t)) && !PcOf(s, t).Waiting?
    ensures Quiet(s) && s.lock.inside == {t} && LockOk(s.lock) && forall u :: u != t ==> !Inside(PcOf(s, u))
  {
    forall u | u in s.lock.inside ensures u == t {
      OnlyOne(s.lock, t, u);
    }
  }

  lemma IssuedOk(s: State, t: Tid, r: Request)
    requires Ok(s) && PcOf(s, t) == Entered(r)
    ensures Quiet(s) && Ok(Issued(s, t, r))
  {
    EntersQuiet(s, t);
    var s' := Issued(s, t, r);
    assert forall u :: u != t ==> PcOf(s', u) == PcOf(s, u);
    assert LockOk(s'.lock);
    assert LockPart(s') by {
      hide LockOk;
      LockPartAfter(s, s', t);
    }
    hide LockPart, LockOk;
    assert PcOf(s', t).Waiting? && InProgress(s', t, |s.history|);
    assert forall u :: u != t ==> !Inside(PcOf(s', u));
  }

  lemma TestedOk(s: State, t: Tid, k: nat)
    requires Ok(s) && PcOf(s, t) == Waiting(k) && !Asleep(s, t)
    ensures Ok(Tested(s, t, k))
  {
    var s' := Tested(s, t, k);
    forall u | u in s.lock.inside ensures u == t {
      OnlyOne(s.lock, t, u);
    }
    assert forall u :: u != t ==> !Inside(PcOf(s, u));
    assert forall u :: u != t ==> PcOf(s', u) == PcOf(s, u);
    assert s.lock.holder == Some(t) && t in s.lock.inside && t !in s.lock.trying && LockOk(s.lock);
    hide LockOk, LockPart;
    LockPartAfter(s, s', t);
    assert InProgress(s, t, k);
    if Sleeps(s.sem) {
      assert PcOf(s', t).Waiting? && InProgress(s', t, k);
    }
  }

  lemma LeftOk(s: State, t: Tid, k: nat)
    requires Ok(s) && PcOf(s, t) == Done(k)
    ensures Ok(Left(s, t, k))
  {
    var s' := Left(s, t, k);
    EntersQuiet(s, t);
    ReleasedOk(s.lock, t);
    assert s.lock.holder == Some(t) && t !in s.lock.trying;
    hide LockOk, LockPart;
    assert forall u :: u != t ==> PcOf(s', u) == PcOf(s, u);
    LockPartAfter(s, s', t);
    assert k in s'.completed;
  }

  lemma FiredOk(s: State)
    requires Ok(s) && s.scheduled != []
    ensures Ok(Fired(s))
  {
    var s' := Fired(s);
    var t :| PcOf(s, t).Waiting?;
    assert Inside(PcOf(s, t)) && InProgress(s, t, PcOf(s, t).ticket);
    forall u | u in s.lock.inside ensures u == t {
      OnlyOne(s.lock, t, u);
    }
    hide LockOk;
    assert forall u :: PcOf(s', u) == PcOf(s, u);
    assert LockPart(s');
    assert forall u :: u != t ==> !Inside(PcOf(s, u));
    hide LockPart;
    assert PcOf(s', t).Waiting? && InProgress(s', t, PcOf(s', t).ticket);
  }

  lemma StepOk(s: State, step: Step)
    requires Ok(s) && Enabled(s, step)
    ensures Ok(Next(s, step))
  {
    hide Ok, Tried, Issued, Tested, Left, Fired;
    match step
    case Call(t, r) => CallOk(s, t, r);
    case Interrupt => FiredOk(s);
    case Continue(t) =>
      match PcOf(s, t)
      case Trying(r) => TriedOk(s, t, r);
      case Entered(r) => IssuedOk(s, t, r);
      case Waiting(k) => TestedOk(s, t, k);
      case Done(k) => LeftOk(s, t, k);
      case Outside =>
  }

  // ---- whole runs ----

  ghost predicate Run(ss: seq<State>, steps: seq<Step>) {
    && |ss| == |steps| + 1 && ss[0] == Start(ss[0].flags)
    && forall i :: 0 <= i < |steps| ==> Enabled(ss[i], steps[i]) && ss[i + 1] == Next(ss[i], steps[i])
  }

  lemma {:induction false} RunOk(ss: seq<State>, steps: seq<Step>, n: nat)
    requires Run(ss, steps) && n <= |steps|
    ensures Ok(ss[n])
  {
    hide Ok, Next, Enabled;
    if n == 0 {
      StartOk(ss[0].flags);
    } else {
      RunOk(ss, steps, n - 1);
      StepOk(ss[n - 1], steps[n - 1]);
    }
  }

  /** At most one request is outstanding, whether or not the device has a flag for
      it, and the device's assertion that its flag is clear holds whenever a
      request is issued. */
  lemma OneOutstanding(ss: seq<State>, steps: seq<Step>, n: nat)
    requires Run(ss, steps) && n <= |steps|
    ensures |ss[n].scheduled| <= 1 && (ss[n].active <==> ss[n].flags && ss[n].scheduled != [])
    ensures forall t :: PcOf(ss[n], t).Entered? ==> ss[n].scheduled == [] && !ss[n].active
  {
    hide Next, Enabled;
    RunOk(ss, steps, n);
    var s := ss[n];
    assert forall t :: PcOf(s, t).Waiting? ==> InProgress(s, t, PcOf(s, t).ticket);
    forall t | PcOf(s, t).Entered? ensures s.scheduled == [] && !s.active {
      EntersQuiet(s, t);
    }
  }

  ghost predicate Returns(s: State, step: Step, t: Tid) {
    step == Continue(t) && PcOf(s, t).Done?
  }

  lemma CallBegins(s: State, t: Tid, r: Request)
    requires Enabled(s, Call(t, r))
    ensures PcOf(Next(s, Call(t, r)), t) == Trying(r)
  {
  }

  /** The step at which `t` hands its request to the device, as the `k`-th. */
  ghost predicate IssuedAt(ss: seq<State>, steps: seq<Step>, j: int, t: Tid, r: Request, k: nat)
    requires |ss| == |steps| + 1
  {
    0 <= j < |steps| && steps[j] == Continue(t) && PcOf(ss[j], t) == Entered(r) && |ss[j].history| == k
  }

  /** The interrupt that ends the `k`-th request. */
  ghost predicate EndedAt(ss: seq<State>, steps: seq<Step>, j: int, k: nat)
    requires |ss| == |steps| + 1
  {
    0 <= j < |steps| && steps[j] == Interrupt && ss[j].scheduled != [] && ss[j].scheduled[0] == k
  }

  /** The request that a step hands to the device. */
  ghost function IssuedIn(s: State, step: Step): seq<Request> {
    if step.Continue? && PcOf(s, step.t).Entered? then [PcOf(s, step.t).request] else []
  }

  lemma StepHistory(s: State, step: Step)
    requires Enabled(s, step)
    ensures var s' := Next(s, step);
            && s'.history == s.history + IssuedIn(s, step)
            && (forall k :: k in s'.completed ==> k in s.completed || (step == Interrupt && s.scheduled != [] && s.scheduled[0] == k))
            && (forall k :: k in s'.scheduled ==> k in s.scheduled || (k == |s.history| && IssuedIn(s, step) != []))
  {
    hide Try, Released, TestP, DoV;
  }

  lemma {:induction false} CompletedAt(ss: seq<State>, steps: seq<Step>, n: nat, k: nat)
    requires Run(ss, steps) && n <= |steps| && k in ss[n].completed
    ensures exists j :: 0 <= j < n && EndedAt(ss, steps, j, k)
  {
    hide Next, Enabled;
    assert n > 0;
    StepHistory(ss[n - 1], steps[n - 1]);
    if k in ss[n - 1].completed {
      CompletedAt(ss, steps, n - 1, k);
    } else {
      assert EndedAt(ss, steps, n - 1, k);
    }
  }

  lemma {:induction false} HistoryGrows(ss: seq<State>, steps: seq<Step>, i: nat, n: nat)
    requires Run(ss, steps) && i <= n <= |steps|
    ensures |ss[i].history| <= |ss[n].history|
  {
    hide Next, Enabled;
    if i < n {
      HistoryGrows(ss, steps, i, n - 1);
      StepHistory(ss[n - 1], steps[n - 1]);
    }
  }

  lemma {:induction false} ScheduledAreIssued(ss: seq<State>, steps: seq<Step>, n: nat)
    requires Run(ss, steps) && n <= |steps|
    ensures forall k :: k in ss[n].scheduled ==> k < |ss[n].history|
  {
    hide Next, Enabled;
    if n > 0 {
      ScheduledAreIssued(ss, steps, n - 1);
      StepHistory(ss[n - 1], steps[n - 1]);
    }
  }

  /** Where the call of `t` for `r` that began at step `i` has got to. */
  ghost predicate Along(ss: seq<State>, steps: seq<Step>, i: nat, n: nat, t: Tid, r: Request)
    requires |ss| == |steps| + 1 && n <= |steps|
  {
    match PcOf(ss[n], t)
    case Trying(q) => q == r
    case Entered(q) => q == r
    case Waiting(k) => exists j :: i < j < n && IssuedAt(ss, steps, j, t, r, k)
    case Done(k) => exists j :: i < j < n && IssuedAt(ss, steps, j, t, r, k)
    case Outside => false
  }

  /** How a step moves the thread. */
  lemma StepMoves(s: State, step: Step, t: Tid)
    requires Enabled(s, step) && !PcOf(s, t).Outside? && !Returns(s, step, t)
    ensures var pc, pc' := PcOf(s, t), PcOf(Next(s, step), t);
            match pc
            case Trying(q) => pc' == pc || pc' == Entered(q)
            case Entered(q) => pc' == if step == Continue(t) then Waiting(|s.history|) else pc
            case Waiting(k) => pc' == pc || pc' == Done(k)
            case Done(k) => pc' == pc
            case Outside => true
  {
    hide Try, Released, TestP, DoV;
  }

  lemma {:induction false} CallAlong(ss: seq<State>, steps: seq<Step>, i: nat, n: nat, t: Tid, r: Request)
    requires Run(ss, steps) && i < n <= |steps| && steps[i] == Call(t, r)
    requires forall j :: i < j < n ==> !Returns(ss[j], steps[j], t)
    ensures Along(ss, steps, i, n, t, r)
  {
    hide Next, Enabled;
    if n == i + 1 {
      CallBegins(ss[i], t, r);
    } else {
      CallAlong(ss, steps, i, n - 1, t, r);
      StepMoves(ss[n - 1], steps[n - 1], t);
      if PcOf(ss[n - 1], t).Entered? && steps[n - 1] == Continue(t) {
        assert IssuedAt(ss, steps, n - 1, t, r, |ss[n - 1].history|);
      }
    }
  }

  /** A call returns only after the completion of its own request: since the call
      began the caller has handed over what it was asked, and after that the
      device has interrupted for that very request. */
  lemma ReturnsAfterItsOwn(ss: seq<State>, steps: seq<Step>, i: nat, n: nat, t: Tid, r: Request)
    requires Run(ss, steps) && i < n < |steps| && steps[i] == Call(t, r) && Returns(ss[n], steps[n], t)
    requires forall j :: i < j < n ==> !Returns(ss[j], steps[j], t)
    ensures exists j, e, k :: i < j < e < n && IssuedAt(ss, steps, j, t, r, k) && EndedAt(ss, steps, e, k)
  {
    CallAlong(ss, steps, i, n, t, r);
    RunOk(ss, steps, n);
    hide LockPart, Released, Next, Enabled;
    var k := PcOf(ss[n], t).ticket;
    var j :| i < j < n && IssuedAt(ss, steps, j, t, r, k);
    CompletedAt(ss, steps, n, k);
    var e :| 0 <= e < n && EndedAt(ss, steps, e, k);
    ScheduledAreIssued(ss, steps, e);
    assert ss[e].scheduled[0] in ss[e].scheduled;
    if e <= j {
      HistoryGrows(ss, steps, e, j);
    }
  }

  /** While any call is in progress, some thread can take a step or the device
      has an interrupt to deliver. */
  lemma NeverStuck(ss: seq<State>, steps: seq<Step>, n: nat, t: Tid)
    requires Run(ss, steps) && n <= |steps| && !PcOf(ss[n], t).Outside?
    ensures Enabled(ss[n], Interrupt) || exists u :: Enabled(ss[n], Continue(u))
  {
    hide Next;
    RunOk(ss, steps, n);
    var s := ss[n];
    LockIdle(s.lock);
    if u :| u in s.lock.inside {
      assert Inside(PcOf(s, u)) && u !in s.lock.trying;
      if PcOf(s, u).Waiting? {
        assert InProgress(s, u, PcOf(s, u).ticket);
        assert s.scheduled == [] ==> Enabled(s, Continue(u));
      } else {
        EntersQuiet(s, u);
        assert Enabled(s, Continue(u));
      }
    } else {
      assert s.lock.inside == {} && forall u :: !Inside(PcOf(s, u));
      assert Quiet(s);
      if Blocked(s.lock, t) {
        var u :| u in s.lock.trying && !Blocked(s.lock, u);
        assert Enabled(s, Continue(u));
      } else {
        assert Enabled(s, Continue(t));
      }
    }
  }
}
