/** The simulated clock and the queue of pending hardware interrupts. */
module Interrupts {
  import opened Common
  import opened Lists

  const SYSTEM_TICK := 10
  const USER_TICK := 1

  datatype IntStatus = IntOff | IntOn
  datatype MachineStatus = IdleMode | SystemMode | UserMode

  /** A scheduled interrupt: whom to call and when. `serial` counts calls of `Schedule`. */
  datatype Entry = Entry(toCall: nat, when: int, serial: nat)

  datatype Firing = Firing(entry: Entry, at: int)

  datatype Request = Request(toCall: nat, fromNow: int)

  /** What a handler does to the queue: schedule interrupts, and ask for a
      context switch on return. */
  datatype Reaction = Reaction(requests: seq<Request>, yielding: bool)

  /** Any handlers at all: what they do may depend on everything fired so far. */
  type Handlers = (seq<Firing>, Entry) -> Reaction

  /** What `Schedule` asserts of its callers. */
  ghost predicate Lawful(h: Handlers) {
    forall fired, e :: Future(h(fired, e).requests)
  }

  predicate Future(requests: seq<Request>) {
    forall i :: 0 <= i < |requests| ==> requests[i].fromNow > 0
  }

  datatype Clock = Clock(
    total: int, idle: int, system: int, user: int,
    pending: seq<Entry>,
    level: IntStatus, inHandler: bool, yieldOnReturn: bool, status: MachineStatus,
    next: nat, fired: seq<Firing>)

  function PendingCompare(x: Entry, y: Entry): int {
    if x.when < y.when then -1 else if x.when > y.when then 1 else 0
  }

  function Scheduled(c: Clock, r: Request): Clock {
    c.(pending := Inserted(c.pending, Entry(r.toCall, c.total + r.fromNow, c.next), PendingCompare), next := c.next + 1)
  }

  function AllScheduled(c: Clock, requests: seq<Request>): (c': Clock)
    ensures c' == c.(pending := c'.pending, next := c'.next)
  {
    if requests == [] then c else Scheduled(AllScheduled(c, requests[..|requests| - 1]), requests[|requests| - 1])
  }

  function Popped(c: Clock, yielding: bool): Clock
    requires c.pending != []
  {
    c.(pending := c.pending[1..], fired := c.fired + [Firing(c.pending[0], c.total)],
       yieldOnReturn := c.yieldOnReturn || yielding)
  }

  /** Remove the front entry and call its handler. */
  function FireFront(c: Clock, h: Handlers): Clock
    requires c.pending != []
  {
    var r := h(c.fired, c.pending[0]);
    AllScheduled(Popped(c, r.yielding), r.requests)
  }

  // ---- the order of interrupts ----

  /** Earlier time first, and at equal times first scheduled first. */
  predicate Before(x: Entry, y: Entry) {
    x.when < y.when || (x.when == y.when && x.serial < y.serial)
  }

  ghost predicate Ordered(s: seq<Entry>) {
    forall i, j :: 0 <= i < j < |s| ==> Before(s[i], s[j])
  }

  function Entries(fired: seq<Firing>): (s: seq<Entry>)
    ensures |s| == |fired|
  {
    seq(|fired|, i requires 0 <= i < |fired| => fired[i].entry)
  }

  lemma PendingCompareOk()
    ensures Comparison(PendingCompare)
  {
  }

  lemma OrderedSorted(s: seq<Entry>)
    requires Ordered(s)
    ensures Sorted(s, PendingCompare)
  {
  }

  ghost predicate Numbered(s: seq<Entry>, n: nat) {
    forall i :: 0 <= i < |s| ==> s[i].serial < n
  }

  lemma PlaceWhens(s: seq<Entry>, x: Entry)
    requires Ordered(s)
    ensures var k := Place(s, x, PendingCompare);
            && (forall j :: 0 <= j < k ==> s[j].when <= x.when) && (forall j :: k <= j < |s| ==> x.when < s[j].when)
  {
    PendingCompareOk();
    OrderedSorted(s);
    hide Comparison, Sorted, Place, Ordered;
    PlaceSplits(s, x, PendingCompare);
    var k := Place(s, x, PendingCompare);
    assert forall j :: 0 <= j < k ==> PendingCompare(s[j], x) <= 0;
    assert forall j :: k <= j < |s| ==> PendingCompare(x, s[j]) < 0;
  }

  /** A stable insertion of the newest entry keeps the order. */
  lemma InsertOrdered(s: seq<Entry>, x: Entry)
    requires Ordered(s) && Numbered(s, x.serial)
    ensures Ordered(Inserted(s, x, PendingCompare)) && Numbered(Inserted(s, x, PendingCompare), x.serial + 1)
    ensures |Inserted(s, x, PendingCompare)| == |s| + 1
  {
    hide Place, InsertAt, PendingCompare;
    var k := Place(s, x, PendingCompare);
    PlaceWhens(s, x);
    InsertAtIndices(s, k, x);
  }

  lemma InsertMembers(s: seq<Entry>, x: Entry, y: Entry)
    ensures y in Inserted(s, x, PendingCompare) <==> y in s || y == x
  {
    hide Place;
    var k := Place(s, x, PendingCompare);
    assert s == s[..k] + s[k..];
  }

  // ---- what every operation keeps ----

  ghost predicate Has(fired: seq<Firing>, pending: seq<Entry>, x: Entry) {
    x in pending || x in Entries(fired)
  }

  /** No serial number has been given out twice. */
  ghost predicate Tally(fired: seq<Firing>, pending: seq<Entry>, next: nat) {
    && (forall x :: Has(fired, pending, x) ==> x.serial < next)
    && (forall x, y :: Has(fired, pending, x) && Has(fired, pending, y) && x.serial == y.serial ==> x == y)
  }

  lemma InsertTally(fired: seq<Firing>, pending: seq<Entry>, x: Entry)
    requires Tally(fired, pending, x.serial)
    ensures Tally(fired, Inserted(pending, x, PendingCompare), x.serial + 1)
  {
    hide Inserted, Entries;
    forall y {
      InsertMembers(pending, x, y);
    }
    var p := Inserted(pending, x, PendingCompare);
    assert forall y :: Has(fired, p, y) ==> y == x || Has(fired, pending, y);
  }

  lemma PopTally(fired: seq<Firing>, pending: seq<Entry>, at: int, next: nat)
    requires Tally(fired, pending, next) && pending != []
    ensures Tally(fired + [Firing(pending[0], at)], pending[1..], next)
  {
    EntriesSnoc(fired, Firing(pending[0], at));
    hide Entries;
    var f := fired + [Firing(pending[0], at)];
    assert forall y :: Has(f, pending[1..], y) ==> Has(fired, pending, y);
  }

  /** Interrupts fired and pending are in one order, each `Schedule` accounts for
      exactly one of them, none fired early or ten ticks late, and every tick is
      idle, system or user time. */
  ghost predicate Core(c: Clock) {
    && Tally(c.fired, c.pending, c.next)
    && Ordered(c.pending) && Numbered(c.pending, c.next)
    && Ordered(Entries(c.fired))
    && (forall f, p :: f in c.fired && p in c.pending ==> Before(f.entry, p))
    && (forall f :: f in c.fired ==> f.entry.when <= f.at <= c.total && f.at < f.entry.when + SYSTEM_TICK)
    && |c.fired| + |c.pending| == c.next
    && c.total == c.idle + c.system + c.user
  }

  /** Nothing pending is ten ticks late. */
  ghost predicate Recent(c: Clock) {
    forall p :: p in c.pending ==> c.total < p.when + SYSTEM_TICK
  }

  /** With no handler running: everything pending is strictly in the future. */
  ghost predicate Ok(c: Clock) {
    Core(c) && !c.inHandler && forall p :: p in c.pending ==> c.total < p.when
  }

  lemma ScheduledOk(c: Clock, r: Request)
    requires Core(c) && r.fromNow > 0
    ensures Core(Scheduled(c, r))
    ensures Recent(c) ==> Recent(Scheduled(c, r))
    ensures Ok(c) ==> Ok(Scheduled(c, r))
  {
    hide Inserted, Ordered, Numbered, Tally;
    var x := Entry(r.toCall, c.total + r.fromNow, c.next);
    InsertOrdered(c.pending, x);
    InsertTally(c.fired, c.pending, x);
    forall y {
      InsertMembers(c.pending, x, y);
    }
  }

  function DueCount(pending: seq<Entry>, now: int): nat {
    if pending == [] then 0 else (if pending[0].when <= now then 1 else 0) + DueCount(pending[1..], now)
  }

  lemma {:induction false} DueConcat(a: seq<Entry>, b: seq<Entry>, now: int)
    ensures DueCount(a + b, now) == DueCount(a, now) + DueCount(b, now)
  {
    if a == [] {
      assert a + b == b;
    } else {
      assert (a + b)[1..] == a[1..] + b;
      DueConcat(a[1..], b, now);
    }
  }

  /** Scheduling adds nothing that is due. */
  lemma ScheduledDue(c: Clock, r: Request)
    requires r.fromNow > 0
    ensures DueCount(Scheduled(c, r).pending, c.total) == DueCount(c.pending, c.total)
  {
    hide Place;
    var x := Entry(r.toCall, c.total + r.fromNow, c.next);
    var k := Place(c.pending, x, PendingCompare);
    assert c.pending == c.pending[..k] + c.pending[k..];
    DueConcat(c.pending[..k], c.pending[k..], c.total);
    DueConcat(c.pending[..k] + [x], c.pending[k..], c.total);
    DueConcat(c.pending[..k], [x], c.total);
    assert DueCount([x], c.total) == 0;
  }

  lemma {:induction false} AllScheduledOk(c: Clock, requests: seq<Request>)
    requires Core(c) && Future(requests)
    ensures Core(AllScheduled(c, requests)) && (Recent(c) ==> Recent(AllScheduled(c, requests)))
    ensures DueCount(AllScheduled(c, requests).pending, c.total) == DueCount(c.pending, c.total)
  {
    hide Core, Recent, Scheduled;
    if requests != [] {
      var n := |requests| - 1;
      AllScheduledOk(c, requests[..n]);
      ScheduledOk(AllScheduled(c, requests[..n]), requests[n]);
      ScheduledDue(AllScheduled(c, requests[..n]), requests[n]);
    }
  }

  lemma PoppedOk(c: Clock, yielding: bool)
    requires Core(c) && Recent(c) && c.pending != [] && c.pending[0].when <= c.total
    ensures var c' := Popped(c, yielding);
            Core(c') && Recent(c') && DueCount(c'.pending, c.total) == DueCount(c.pending, c.total) - 1
  {
    hide Tally;
    PopTally(c.fired, c.pending, c.total, c.next);
    PoppedOrdered(c);
    hide Ordered, Entries;
    var c', x := Popped(c, yielding), c.pending[0];
    assert forall p :: p in c'.pending ==> p in c.pending;
    assert forall f :: f in c'.fired ==> f in c.fired || f == Firing(x, c.total);
    assert x in c.pending;
  }

  lemma PoppedOrdered(c: Clock)
    requires Core(c) && c.pending != []
    ensures var x := c.pending[0];
            && Ordered(Entries(c.fired + [Firing(x, c.total)])) && Ordered(c.pending[1..])
            && (forall p :: p in c.pending[1..] ==> Before(x, p))
            && Numbered(c.pending[1..], c.next)
  {
    hide Tally;
    EntriesSnoc(c.fired, Firing(c.pending[0], c.total));
    forall i | 0 <= i < |c.fired| ensures Before(Entries(c.fired)[i], c.pending[0]) {
      assert c.fired[i] in c.fired && c.pending[0] in c.pending;
    }
  }

  lemma FireFrontOk(c: Clock, h: Handlers)
    requires Core(c) && Recent(c) && Lawful(h) && c.pending != [] && c.pending[0].when <= c.total
    ensures var c' := FireFront(c, h);
            && Core(c') && Recent(c') && DueCount(c'.pending, c'.total) == DueCount(c.pending, c.total) - 1
            && c'.total == c.total && c'.fired == c.fired + [Firing(c.pending[0], c.total)]
  {
    hide Core, Recent, DueCount;
    var r := h(c.fired, c.pending[0]);
    assert Future(r.requests);
    PoppedOk(c, r.yielding);
    AllScheduledOk(Popped(c, r.yielding), r.requests);
  }

  // ---- the operations ----

  /** The loop of `CheckIfDue`: it ends because the number of due entries falls. */
  ghost function FireDue(c: Clock, h: Handlers): Clock
    requires Core(c) && Recent(c) && Lawful(h)
    decreases DueCount(c.pending, c.total)
  {
    if c.pending == [] || c.pending[0].when > c.total then c else
      FireFrontOk(c, h);
      FireDue(FireFront(c, h), h)
  }

  predicate Due(c: Clock, advanceClock: bool) {
    c.pending != [] && (advanceClock || c.pending[0].when <= c.total)
  }

  /** With `advanceClock`, time runs idle up to the next interrupt. */
  function Advanced(c: Clock): Clock
    requires c.pending != []
  {
    if c.pending[0].when <= c.total then c else
      c.(idle := c.idle + (c.pending[0].when - c.total), total := c.pending[0].when)
  }

  ghost predicate CanCheck(c: Clock, advanceClock: bool) {
    Core(c) && !c.inHandler && if advanceClock then Ok(c) else Recent(c)
  }

  lemma AdvancedOk(c: Clock, advanceClock: bool)
    requires CanCheck(c, advanceClock) && Due(c, advanceClock)
    ensures Core(Advanced(c)) && Recent(Advanced(c)) && Advanced(c).pending[0].when <= Advanced(c).total
  {
    hide Numbered, Tally;
    assert forall p :: p in c.pending ==> p == c.pending[0] || Before(c.pending[0], p);
  }

  ghost function Checked(c: Clock, advanceClock: bool, h: Handlers): Clock
    requires CanCheck(c, advanceClock) && Lawful(h)
  {
    if !Due(c, advanceClock) then c else
      AdvancedOk(c, advanceClock);
      FireDue(Advanced(c), h)
  }

  /** The loop fires a run of interrupts in order, all at the same time, and
      leaves only entries strictly in the future. */
  lemma {:induction false} FireDueOk(c: Clock, h: Handlers)
    requires Core(c) && Recent(c) && Lawful(h)
    ensures var c' := FireDue(c, h);
            && Core(c') && (forall p :: p in c'.pending ==> c'.total < p.when)
            && c' == c.(pending := c'.pending, fired := c'.fired, next := c'.next, yieldOnReturn := c'.yieldOnReturn)
            && c.fired <= c'.fired && (forall i :: |c.fired| <= i < |c'.fired| ==> c'.fired[i].at == c.total)
    decreases DueCount(c.pending, c.total)
  {
    hide DueCount, Recent, Numbered, Tally;
    if c.pending == [] || c.pending[0].when > c.total {
      assert forall p :: p in c.pending ==> p == c.pending[0] || Before(c.pending[0], p);
    } else {
      hide Core;
      FireFrontOk(c, h);
      FireDueOk(FireFront(c, h), h);
    }
  }

  lemma {:induction false} DueIsPrefix(pending: seq<Entry>, now: int)
    requires Ordered(pending)
    ensures var n := DueCount(pending, now);
            n <= |pending| && forall i :: 0 <= i < |pending| ==> (pending[i].when <= now <==> i < n)
  {
    if pending != [] {
      DueIsPrefix(pending[1..], now);
      var n := DueCount(pending, now);
      forall i | 0 <= i < |pending| ensures pending[i].when <= now <==> i < n {
        if i > 0 {
          assert pending[1..][i - 1] == pending[i] && Before(pending[0], pending[i]);
          if pending[0].when > now {
            assert DueCount(pending[1..], now) == 0 || pending[1..][0].when <= now;
          }
        }
      }
    }
  }

  /** A new entry goes behind everything that is due. */
  lemma ScheduledKeepsDue(c: Clock, r: Request, n: nat)
    requires Core(c) && r.fromNow > 0 && n <= |c.pending| && forall i :: 0 <= i < n ==> c.pending[i].when <= c.total
    ensures n <= |Scheduled(c, r).pending| && Scheduled(c, r).pending[..n] == c.pending[..n]
  {
    var x := Entry(r.toCall, c.total + r.fromNow, c.next);
    PlaceWhens(c.pending, x);
    hide Place, Core;
  }

  lemma {:induction false} AllScheduledKeepsDue(c: Clock, requests: seq<Request>, n: nat)
    requires Core(c) && Future(requests) && n <= |c.pending| && forall i :: 0 <= i < n ==> c.pending[i].when <= c.total
    ensures n <= |AllScheduled(c, requests).pending| && AllScheduled(c, requests).pending[..n] == c.pending[..n]
  {
    hide Core, Scheduled;
    if requests != [] {
      var m := |requests| - 1;
      var d := AllScheduled(c, requests[..m]);
      AllScheduledKeepsDue(c, requests[..m], n);
      AllScheduledOk(c, requests[..m]);
      forall i | 0 <= i < n ensures d.pending[i].when <= d.total {
        assert d.pending[..n][i] == c.pending[..n][i];
      }
      ScheduledKeepsDue(d, requests[m], n);
    }
  }

  lemma DueFirst(c: Clock)
    requires Core(c)
    ensures var n := DueCount(c.pending, c.total);
            n <= |c.pending| && forall i :: 0 <= i < |c.pending| ==> (c.pending[i].when <= c.total <==> i < n)
  {
    DueIsPrefix(c.pending, c.total);
  }

  lemma FrontStays(c: Clock, h: Handlers)
    requires Core(c) && Recent(c) && Lawful(h) && c.pending != [] && c.pending[0].when <= c.total
    ensures var n, c' := DueCount(c.pending, c.total), FireFront(c, h);
            0 < n <= |c.pending| && n - 1 <= |c'.pending| && c'.pending[..n - 1] == c.pending[1..n]
  {
    hide Core, Recent, DueCount;
    var n, r := DueCount(c.pending, c.total), h(c.fired, c.pending[0]);
    DueFirst(c);
    PoppedOk(c, r.yielding);
    DueFirst(Popped(c, r.yielding));
    assert Future(r.requests);
    AllScheduledKeepsDue(Popped(c, r.yielding), r.requests, n - 1);
  }

  lemma {:induction false} AllScheduledAdds(c: Clock, requests: seq<Request>)
    ensures multiset(c.pending) <= multiset(AllScheduled(c, requests).pending) && c.next <= AllScheduled(c, requests).next
    ensures forall x :: x in AllScheduled(c, requests).pending ==> x in c.pending || x.serial >= c.next
  {
    hide Inserted;
    if requests != [] {
      var n := |requests| - 1;
      AllScheduledAdds(c, requests[..n]);
      var d := AllScheduled(c, requests[..n]);
      var x := Entry(requests[n].toCall, d.total + requests[n].fromNow, d.next);
      InsertedOnce(d.pending, x, PendingCompare);
      forall y {
        InsertMembers(d.pending, x, y);
      }
    }
  }

  lemma SameFront(front: seq<Entry>, a: seq<Entry>, b: seq<Entry>)
    requires multiset(front + a) <= multiset(front + b)
    ensures multiset(a) <= multiset(b)
  {
    assert multiset(front + a) == multiset(front) + multiset(a) && multiset(front + b) == multiset(front) + multiset(b);
    forall x ensures multiset(a)[x] <= multiset(b)[x] {
      assert multiset(front + a)[x] <= multiset(front + b)[x];
    }
  }

  lemma FireFrontAdds(c: Clock, h: Handlers)
    requires c.pending != []
    ensures multiset(c.pending[1..]) <= multiset(FireFront(c, h).pending) && c.next <= FireFront(c, h).next
    ensures forall x :: x in FireFront(c, h).pending ==> x in c.pending || x.serial >= c.next
  {
    hide AllScheduled;
    var r := h(c.fired, c.pending[0]);
    AllScheduledAdds(Popped(c, r.yielding), r.requests);
  }

  /** What is not due when the front entry fires is still there afterwards. */
  lemma LaterStay(c: Clock, h: Handlers, n: nat)
    requires c.pending != [] && 0 < n <= |c.pending|
    requires n - 1 <= |FireFront(c, h).pending| && FireFront(c, h).pending[..n - 1] == c.pending[1..n]
    ensures multiset(c.pending[n..]) <= multiset(FireFront(c, h).pending[n - 1..])
  {
    hide FireFront;
    FireFrontAdds(c, h);
    var after := FireFront(c, h).pending;
    assert c.pending[1..] == c.pending[1..n] + c.pending[n..];
    assert after == c.pending[1..n] + after[n - 1..];
    SameFront(c.pending[1..n], c.pending[n..], after[n - 1..]);
  }

  lemma {:induction false} FiresInOrder(c: Clock, h: Handlers)
    requires Core(c) && Recent(c) && Lawful(h)
    ensures var n := DueCount(c.pending, c.total);
            n <= |c.pending| && Entries(FireDue(c, h).fired) == Entries(c.fired) + c.pending[..n]
    decreases DueCount(c.pending, c.total)
  {
    hide Core, Recent, FireFront, DueCount, Entries;
    DueFirst(c);
    if c.pending != [] && c.pending[0].when <= c.total {
      FireFrontOk(c, h);
      var c' := FireFront(c, h);
      FrontStays(c, h);
      FiresInOrder(c', h);
      EntriesSnoc(c.fired, Firing(c.pending[0], c.total));
      var n := DueCount(c.pending, c.total);
      assert c.pending[..n] == [c.pending[0]] + c.pending[1..n];
    }
  }

  lemma {:induction false} OthersStay(c: Clock, h: Handlers)
    requires Core(c) && Recent(c) && Lawful(h)
    ensures var n, c' := DueCount(c.pending, c.total), FireDue(c, h);
            && n <= |c.pending| && multiset(c.pending[n..]) <= multiset(c'.pending) && c.next <= c'.next
            && (forall x :: x in c'.pending ==> x in c.pending || x.serial >= c.next)
    decreases DueCount(c.pending, c.total)
  {
    hide Core, Recent, FireFront, DueCount;
    DueFirst(c);
    var n := DueCount(c.pending, c.total);
    if c.pending != [] && c.pending[0].when <= c.total {
      FireFrontOk(c, h);
      FrontStays(c, h);
      LaterStay(c, h, n);
      FireFrontAdds(c, h);
      OthersStay(FireFront(c, h), h);
    }
  }

  /** It fires exactly the entries that were due when it began, in the order in
      which they stood; the others stay pending, and whatever else is pending
      afterwards was scheduled by the handlers. */
  lemma FiresExactlyTheDue(c: Clock, h: Handlers)
    requires Core(c) && Recent(c) && Lawful(h)
    ensures var n, c' := DueCount(c.pending, c.total), FireDue(c, h);
            && n <= |c.pending| && Entries(c'.fired) == Entries(c.fired) + c.pending[..n]
            && (forall i :: 0 <= i < |c.pending| ==> (c.pending[i].when <= c.total <==> i < n))
            && multiset(c.pending[n..]) <= multiset(c'.pending) && c.next <= c'.next
            && (forall x :: x in c'.pending ==> x in c.pending[n..] || x.serial >= c.next)
  {
    hide Core, Recent, FireDue, DueCount, Entries;
    DueFirst(c);
    FiresInOrder(c, h);
    OthersStay(c, h);
    FireDueOk(c, h);
    var n := DueCount(c.pending, c.total);
    assert forall x :: x in c.pending && c.total < x.when ==> x in c.pending[n..];
  }

  lemma EntriesSnoc(fired: seq<Firing>, f: Firing)
    ensures Entries(fired + [f]) == Entries(fired) + [f.entry]
  {
  }

  /** One tick of system or user time. */
  function Counted(c: Clock): Clock {
    if c.status == SystemMode
    then c.(total := c.total + SYSTEM_TICK, system := c.system + SYSTEM_TICK)
    else c.(total := c.total + USER_TICK, user := c.user + USER_TICK)
  }

  lemma CountedOk(c: Clock)
    requires Ok(c)
    ensures CanCheck(Counted(c).(level := IntOff), false)
  {
    hide Ordered, Numbered, Tally;
  }

  /** A switch requested by a handler happens after the tick, in system mode. */
  function Returned(c: Clock): Clock {
    if c.yieldOnReturn then c.(level := IntOn, yieldOnReturn := false, status := SystemMode) else c.(level := IntOn)
  }

  ghost function Ticked(c: Clock, h: Handlers): Clock
    requires Ok(c) && Lawful(h)
  {
    CountedOk(c);
    Returned(Checked(Counted(c).(level := IntOff), false, h))
  }

  ghost function Idled(c: Clock, h: Handlers): Clock
    requires Ok(c) && Lawful(h)
  {
    var c' := c.(status := IdleMode);
    if Due(c', true) then Checked(c', true, h).(status := SystemMode) else c'
  }

  lemma CheckedOk(c: Clock, advanceClock: bool, h: Handlers)
    requires CanCheck(c, advanceClock) && Lawful(h)
    ensures Ok(Checked(c, advanceClock, h)) && c.fired <= Checked(c, advanceClock, h).fired
    ensures c.total <= Checked(c, advanceClock, h).total
  {
    if Due(c, advanceClock) {
      AdvancedOk(c, advanceClock);
      FireDueOk(Advanced(c), h);
    } else {
      hide Numbered, Tally;
      assert c.pending != [] ==> forall p :: p in c.pending ==> p == c.pending[0] || Before(c.pending[0], p);
    }
  }

  lemma TickedOk(c: Clock, h: Handlers)
    requires Ok(c) && Lawful(h)
    ensures Ok(Ticked(c, h)) && c.fired <= Ticked(c, h).fired
  {
    CountedOk(c);
    hide Checked, Ordered, Numbered, Tally;
    CheckedOk(Counted(c).(level := IntOff), false, h);
  }

  lemma IdledOk(c: Clock, h: Handlers)
    requires Ok(c) && Lawful(h)
    ensures Ok(Idled(c, h)) && c.fired <= Idled(c, h).fired
  {
    hide Checked, Ordered, Numbered, Tally;
    CheckedOk(c.(status := IdleMode), true, h);
  }

  /** One of the handlers called since the first `from` asked for a switch. */
  ghost predicate Asked(h: Handlers, fired: seq<Firing>, from: nat) {
    exists i :: from <= i < |fired| && AskedAt(h, fired, i)
  }

  ghost predicate AskedAt(h: Handlers, fired: seq<Firing>, i: int) {
    0 <= i < |fired| && h(fired[..i], fired[i].entry).yielding
  }

  /** A switch is due on return exactly when one was already wanted or some
      handler that has just been called asked for it. */
  lemma {:induction false} SwitchRequested(c: Clock, h: Handlers)
    requires Core(c) && Recent(c) && Lawful(h)
    ensures FireDue(c, h).yieldOnReturn <==> c.yieldOnReturn || Asked(h, FireDue(c, h).fired, |c.fired|)
    decreases DueCount(c.pending, c.total)
  {
    hide Core, Recent, DueCount;
    if c.pending != [] && c.pending[0].when <= c.total {
      FireFrontOk(c, h);
      FlagAfterFront(c, h);
      hide FireFront;
      var c' := FireFront(c, h);
      SwitchRequested(c', h);
      FireDueOk(c', h);
      var fired := FireDue(c', h).fired;
      assert fired[..|c.fired|] == c.fired && fired[|c.fired|].entry == c.pending[0];
      assert AskedAt(h, fired, |c.fired|) <==> h(c.fired, c.pending[0]).yielding;
    }
  }

  lemma FlagAfterFront(c: Clock, h: Handlers)
    requires c.pending != []
    ensures FireFront(c, h).yieldOnReturn <==> c.yieldOnReturn || h(c.fired, c.pending[0]).yielding
  {
  }

  // ---- whole runs ----

  datatype Event = Schedule(r: Request) | OneTick | SetLevel(now: IntStatus) | Idle | SetStatus(status: MachineStatus)

  predicate Enabled(c: Clock, e: Event) {
    match e
    case Schedule(r) => r.fromNow > 0
    case Idle => c.level == IntOff
    case _ => true
  }

  ghost function After(c: Clock, e: Event, h: Handlers): Clock
    requires Ok(c) && Lawful(h)
  {
    match e
    case Schedule(r) => Scheduled(c, r)
    case OneTick => Ticked(c, h)
    case SetLevel(now) => if now == IntOn && c.level == IntOff then Ticked(c.(level := IntOn), h) else c.(level := now)
    case Idle => Idled(c, h)
    case SetStatus(s) => c.(status := s)
  }

  const START := Clock(0, 0, 0, 0, [], IntOff, false, false, SystemMode, 0, [])

  lemma AfterOk(c: Clock, e: Event, h: Handlers)
    requires Ok(c) && Lawful(h) && Enabled(c, e)
    ensures Ok(After(c, e, h)) && c.fired <= After(c, e, h).fired
  {
    hide Ordered, Numbered, Tally, Ticked, Idled, Scheduled;
    match e
    case Schedule(r) =>
      ScheduledOk(c, r);
      SchedulingFiresNothing(c, r);
    case OneTick => TickedOk(c, h);
    case SetLevel(now) => if now == IntOn && c.level == IntOff { TickedOk(c.(level := IntOn), h); }
    case Idle => IdledOk(c, h);
    case SetStatus(s) =>
  }

  lemma SchedulingFiresNothing(c: Clock, r: Request)
    ensures Scheduled(c, r).fired == c.fired
  {
  }

  ghost predicate Run(cs: seq<Clock>, events: seq<Event>, h: Handlers) {
    && Lawful(h) && |cs| == |events| + 1 && cs[0] == START
    && forall i :: 0 <= i < |events| ==> Enabled(cs[i], events[i]) && (Ok(cs[i]) ==> cs[i + 1] == After(cs[i], events[i], h))
  }

  lemma {:induction false} RunOk(cs: seq<Clock>, events: seq<Event>, h: Handlers, n: nat)
    requires Run(cs, events, h) && n <= |events|
    ensures Ok(cs[n])
  {
    if n > 0 {
      RunOk(cs, events, h, n - 1);
      AfterOk(cs[n - 1], events[n - 1], h);
    }
  }

  /** Everything scheduled so far, fired or pending, in its order. */
  ghost function History(c: Clock): seq<Entry> {
    Entries(c.fired) + c.pending
  }

  /** With no handler running, what is pending is strictly in the future and
      every tick is accounted for. Over the whole run interrupts have fired in
      order of time and then of scheduling, none early, none ten or more ticks
      late, and each call of `Schedule` has either fired once or is pending once. */
  lemma Punctual(cs: seq<Clock>, events: seq<Event>, h: Handlers, n: nat)
    requires Run(cs, events, h) && n <= |events|
    ensures var c := cs[n];
            && (forall p :: p in c.pending ==> c.total < p.when)
            && c.total == c.idle + c.system + c.user
            && (forall f :: f in c.fired ==> f.entry.when <= f.at < f.entry.when + SYSTEM_TICK)
            && Ordered(History(c))
            && NoDup(Serials(c)) && forall k :: k in Serials(c) <==> 0 <= k < c.next
  {
    hide Ordered, Numbered, Tally, History, After;
    RunOk(cs, events, h, n);
    HistoryOrdered(cs[n]);
    EachScheduledOnce(cs, events, h, n);
  }

  lemma HistoryOrdered(c: Clock)
    requires Core(c)
    ensures Ordered(History(c))
  {
    hide Before, Numbered, Tally;
    assert forall i :: 0 <= i < |c.fired| ==> c.fired[i] in c.fired && Entries(c.fired)[i] == c.fired[i].entry;
    var all := History(c);
    forall i, j | 0 <= i < j < |all| ensures Before(all[i], all[j]) {
      if i < |c.fired| <= j {
        assert all[j] in c.pending;
      }
    }
  }

  ghost function Serials(c: Clock): (s: seq<int>)
    ensures |s| == |History(c)| && forall i :: 0 <= i < |s| ==> s[i] == History(c)[i].serial
  {
    seq(|History(c)|, i requires 0 <= i < |History(c)| => History(c)[i].serial)
  }

  /** The serial numbers in the history are all those given out, without repetition. */
  lemma EachScheduledOnce(cs: seq<Clock>, events: seq<Event>, h: Handlers, n: nat)
    requires Run(cs, events, h) && n <= |events|
    ensures var c := cs[n];
            NoDup(Serials(c)) && |Serials(c)| == c.next && forall k :: k in Serials(c) <==> 0 <= k < c.next
  {
    RunOk(cs, events, h, n);
    hide Run, Core, History;
    SerialsDiffer(cs[n]);
    Pigeonhole(Serials(cs[n]), cs[n].next);
  }

  lemma SerialsDiffer(c: Clock)
    requires Core(c)
    ensures |History(c)| == c.next && forall i :: 0 <= i < |History(c)| ==> History(c)[i].serial < c.next
    ensures forall i, j :: 0 <= i < j < |History(c)| ==> History(c)[i].serial != History(c)[j].serial
  {
    HistoryOrdered(c);
    hide Core, Entries;
    assert |History(c)| == c.next && Tally(c.fired, c.pending, c.next) by { TallyOf(c); }
    assert forall i :: 0 <= i < |History(c)| ==> Has(c.fired, c.pending, History(c)[i]);
  }

  lemma TallyOf(c: Clock)
    requires Core(c)
    ensures |History(c)| == c.next && Tally(c.fired, c.pending, c.next)
  {
  }

  // ---- what was asked for ----

  /** A call of `Schedule`: the request and the time at which it was made. */
  datatype Asking = Asking(r: Request, at: int)

  function Stamped(requests: seq<Request>, at: int): (s: seq<Asking>)
    ensures |s| == |requests|
  {
    seq(|requests|, i requires 0 <= i < |requests| => Asking(requests[i], at))
  }

  /** The requests of the handlers called from position `from` of `fired` on. */
  function AskedByHandlers(h: Handlers, fired: seq<Firing>, from: nat): seq<Asking>
    decreases |fired| - from
  {
    if from >= |fired| then [] else
      Stamped(h(fired[..from], fired[from].entry).requests, fired[from].at) + AskedByHandlers(h, fired, from + 1)
  }

  /** The calls of `Schedule` in the first `n` steps of a run, in order: those made
      directly, and those of the handlers of the interrupts that went off. */
  ghost function Askings(cs: seq<Clock>, events: seq<Event>, h: Handlers, n: nat): seq<Asking>
    requires |cs| == |events| + 1 && n <= |events|
  {
    if n == 0 then [] else
      Askings(cs, events, h, n - 1) +
        match events[n - 1]
        case Schedule(r) => [Asking(r, cs[n - 1].total)]
        case _ => AskedByHandlers(h, cs[n].fired, |cs[n - 1].fired|)
  }

  /** `x` is what the request with its number asked for. */
  ghost predicate AsAsked(x: Entry, log: seq<Asking>) {
    x.serial < |log| && x.toCall == log[x.serial].r.toCall && x.when == log[x.serial].at + log[x.serial].r.fromNow
  }

  ghost predicate LogOk(c: Clock, log: seq<Asking>) {
    |log| == c.next && forall x :: Has(c.fired, c.pending, x) ==> AsAsked(x, log)
  }

  lemma ScheduledLog(c: Clock, r: Request, log: seq<Asking>)
    requires LogOk(c, log)
    ensures LogOk(Scheduled(c, r), log + [Asking(r, c.total)])
  {
    hide Inserted, Entries;
    var x := Entry(r.toCall, c.total + r.fromNow, c.next);
    forall y {
      InsertMembers(c.pending, x, y);
    }
    assert forall y :: Has(c.fired, Scheduled(c, r).pending, y) ==> y == x || Has(c.fired, c.pending, y);
  }

  lemma {:induction false} AllScheduledLog(c: Clock, requests: seq<Request>, log: seq<Asking>)
    requires LogOk(c, log)
    ensures LogOk(AllScheduled(c, requests), log + Stamped(requests, c.total))
  {
    hide LogOk, Scheduled;
    if requests == [] {
      assert log + Stamped(requests, c.total) == log;
    } else {
      var n := |requests| - 1;
      AllScheduledLog(c, requests[..n], log);
      ScheduledLog(AllScheduled(c, requests[..n]), requests[n], log + Stamped(requests[..n], c.total));
      assert log + Stamped(requests, c.total) == log + Stamped(requests[..n], c.total) + [Asking(requests[n], c.total)];
    }
  }

  lemma PoppedLog(c: Clock, yielding: bool, log: seq<Asking>)
    requires LogOk(c, log) && c.pending != []
    ensures LogOk(Popped(c, yielding), log)
  {
    EntriesSnoc(c.fired, Firing(c.pending[0], c.total));
    hide Entries;
    var c' := Popped(c, yielding);
    assert forall y :: Has(c'.fired, c'.pending, y) ==> Has(c.fired, c.pending, y);
  }

  lemma {:induction false} FireDueLog(c: Clock, h: Handlers, log: seq<Asking>)
    requires Core(c) && Recent(c) && Lawful(h) && LogOk(c, log)
    ensures LogOk(FireDue(c, h), log + AskedByHandlers(h, FireDue(c, h).fired, |c.fired|))
    decreases DueCount(c.pending, c.total)
  {
    hide Core, Recent, DueCount, LogOk, AllScheduled;
    var c' := FireDue(c, h);
    if c.pending == [] || c.pending[0].when > c.total {
      assert log + AskedByHandlers(h, c'.fired, |c.fired|) == log;
    } else {
      FireFrontOk(c, h);
      var d, r := FireFront(c, h), h(c.fired, c.pending[0]);
      PoppedLog(c, r.yielding, log);
      AllScheduledLog(Popped(c, r.yielding), r.requests, log);
      hide FireFront;
      FireDueLog(d, h, log + Stamped(r.requests, c.total));
      FireDueOk(d, h);
      hide FireDue;
      assert c'.fired[..|c.fired|] == c.fired && c'.fired[|c.fired|] == Firing(c.pending[0], c.total);
      assert AskedByHandlers(h, c'.fired, |c.fired|) == Stamped(r.requests, c.total) + AskedByHandlers(h, c'.fired, |d.fired|);
      assert log + AskedByHandlers(h, c'.fired, |c.fired|) ==
             log + Stamped(r.requests, c.total) + AskedByHandlers(h, c'.fired, |d.fired|);
    }
  }

  /** Nothing but `Schedule` and the handlers puts anything into the queue. */
  lemma CheckedLog(c: Clock, advanceClock: bool, h: Handlers, log: seq<Asking>)
    requires CanCheck(c, advanceClock) && Lawful(h) && LogOk(c, log)
    ensures LogOk(Checked(c, advanceClock, h), log + AskedByHandlers(h, Checked(c, advanceClock, h).fired, |c.fired|))
  {
    hide Core, Recent, Ok;
    if Due(c, advanceClock) {
      AdvancedOk(c, advanceClock);
      FireDueLog(Advanced(c), h, log);
    } else {
      assert log + AskedByHandlers(h, c.fired, |c.fired|) == log;
    }
  }

  lemma TickedLog(c: Clock, h: Handlers, log: seq<Asking>)
    requires Ok(c) && Lawful(h) && LogOk(c, log)
    ensures LogOk(Ticked(c, h), log + AskedByHandlers(h, Ticked(c, h).fired, |c.fired|))
  {
    hide Ok, Checked;
    CountedOk(c);
    CheckedLog(Counted(c).(level := IntOff), false, h, log);
  }

  lemma IdledLog(c: Clock, h: Handlers, log: seq<Asking>)
    requires Ok(c) && Lawful(h) && LogOk(c, log)
    ensures LogOk(Idled(c, h), log + AskedByHandlers(h, Idled(c, h).fired, |c.fired|))
  {
    hide Core, Checked;
    var c' := c.(status := IdleMode);
    assert CanCheck(c', true) by { IdleCanCheck(c); }
    CheckedLog(c', true, h, log);
    assert log + AskedByHandlers(h, c.fired, |c.fired|) == log;
  }

  lemma IdleCanCheck(c: Clock)
    requires Ok(c)
    ensures CanCheck(c.(status := IdleMode), true)
  {
    hide Ordered, Numbered, Tally;
  }

  lemma {:induction false} RunLog(cs: seq<Clock>, events: seq<Event>, h: Handlers, n: nat)
    requires Run(cs, events, h) && n <= |events|
    ensures LogOk(cs[n], Askings(cs, events, h, n))
  {
    hide Ok, Scheduled, Ticked, Idled, AskedByHandlers, LogOk;
    if n == 0 {
      assert LogOk(START, []) by { StartLog(); }
    } else {
      RunOk(cs, events, h, n - 1);
      RunLog(cs, events, h, n - 1);
      var c, log := cs[n - 1], Askings(cs, events, h, n - 1);
      match events[n - 1]
      case Schedule(r) => ScheduledLog(c, r, log);
      case OneTick => TickedLog(c, h, log);
      case SetLevel(now) => LevelLog(c, now, h, log);
      case Idle => IdledLog(c, h, log);
      case SetStatus(s) => StatusLog(c, s, h, log);
    }
  }

  lemma StartLog()
    ensures LogOk(START, [])
  {
  }

  lemma StatusLog(c: Clock, s: MachineStatus, h: Handlers, log: seq<Asking>)
    requires LogOk(c, log)
    ensures LogOk(c.(status := s), log + AskedByHandlers(h, c.fired, |c.fired|))
  {
    assert log + AskedByHandlers(h, c.fired, |c.fired|) == log;
  }

  lemma LevelLog(c: Clock, now: IntStatus, h: Handlers, log: seq<Asking>)
    requires Ok(c) && Lawful(h) && LogOk(c, log)
    ensures var c' := After(c, Event.SetLevel(now), h); LogOk(c', log + AskedByHandlers(h, c'.fired, |c.fired|))
  {
    hide Ordered, Numbered, Tally, Ticked;
    if now == IntOn && c.level == IntOff {
      TickedLog(c.(level := IntOn), h, log);
    } else {
      assert log + AskedByHandlers(h, c.fired, |c.fired|) == log;
    }
  }

  /** Every call of `Schedule`, made by the kernel or by a handler, has exactly one
      entry, fired or pending: for the object it named, and due when it said. */
  lemma EachRequestKept(cs: seq<Clock>, events: seq<Event>, h: Handlers, n: nat, k: nat)
    requires Run(cs, events, h) && n <= |events| && k < |Askings(cs, events, h, n)|
    ensures var a, all := Askings(cs, events, h, n)[k], History(cs[n]);
            && (exists i :: 0 <= i < |all| && all[i] == Entry(a.r.toCall, a.at + a.r.fromNow, k))
            && (forall i, j :: 0 <= i < |all| && 0 <= j < |all| && all[i].serial == k && all[j].serial == k ==> i == j)
  {
    hide After, Askings, Enabled;
    EachScheduledOnce(cs, events, h, n);
    RunLog(cs, events, h, n);
    var c := cs[n];
    assert k in Serials(c);
    var i :| 0 <= i < |Serials(c)| && Serials(c)[i] == k;
    assert Has(c.fired, c.pending, History(c)[i]);
  }

  /** An interrupt that has gone off was asked for, and went off within ten ticks
      of the time asked for. */
  lemma OnTime(cs: seq<Clock>, events: seq<Event>, h: Handlers, n: nat, i: nat)
    requires Run(cs, events, h) && n <= |events| && i < |cs[n].fired|
    ensures var f, log := cs[n].fired[i], Askings(cs, events, h, n);
            && f.entry.serial < |log|
            && var a := log[f.entry.serial];
               f.entry.toCall == a.r.toCall && a.at + a.r.fromNow <= f.at < a.at + a.r.fromNow + 10
  {
    hide After, Askings, Enabled;
    Punctual(cs, events, h, n);
    RunLog(cs, events, h, n);
    var c := cs[n];
    assert c.fired[i] in c.fired && Entries(c.fired)[i] == c.fired[i].entry;
    assert Has(c.fired, c.pending, c.fired[i].entry);
  }

  /** How far a step takes the clock: ten ticks in the kernel, one for the user,
      and idle time up to the next interrupt. */
  ghost predicate TakesTime(c: Clock, e: Event, c': Clock) {
    match e
    case Schedule(_) => c'.total == c.total
    case SetStatus(_) => c'.total == c.total
    case OneTick => TakesTick(c, c')
    case SetLevel(now) => if now == IntOn && c.level == IntOff then TakesTick(c, c') else c'.total == c.total
    case Idle => c'.total == (if c.pending == [] then c.total else c.pending[0].when) && c'.idle - c.idle == c'.total - c.total
  }

  ghost predicate TakesTick(c: Clock, c': Clock) {
    && (c.status == SystemMode ==> c'.total == c.total + 10 && c'.system == c.system + 10)
    && (c.status != SystemMode ==> c'.total == c.total + 1 && c'.user == c.user + 1)
  }

  /** Interrupts that go off in a step do so at the time it takes the clock to. */
  ghost predicate FiresAt(c: Clock, c': Clock) {
    c.fired <= c'.fired && forall j :: |c.fired| <= j < |c'.fired| ==> c'.fired[j].at == c'.total
  }

  lemma TimePasses(cs: seq<Clock>, events: seq<Event>, h: Handlers, i: nat)
    requires Run(cs, events, h) && i < |events|
    ensures TakesTime(cs[i], events[i], cs[i + 1]) && FiresAt(cs[i], cs[i + 1])
  {
    RunOk(cs, events, h, i);
    AfterTime(cs[i], events[i], h);
    hide Ok, After;
  }

  lemma CheckedTime(c: Clock, advanceClock: bool, h: Handlers)
    requires CanCheck(c, advanceClock) && Lawful(h)
    ensures var c' := Checked(c, advanceClock, h);
            && FiresAt(c, c') && c'.system == c.system && c'.user == c.user && c'.idle - c.idle == c'.total - c.total
            && c'.total == (if advanceClock && c.pending != [] && c.pending[0].when > c.total then c.pending[0].when else c.total)
  {
    hide Ok, Core, Recent;
    if Due(c, advanceClock) {
      AdvancedOk(c, advanceClock);
      FireDueOk(Advanced(c), h);
    }
  }

  lemma TickedTime(c: Clock, h: Handlers)
    requires Ok(c) && Lawful(h)
    ensures TakesTick(c, Ticked(c, h)) && FiresAt(c, Ticked(c, h))
  {
    hide Ok, Checked;
    CountedOk(c);
    CheckedTime(Counted(c).(level := IntOff), false, h);
  }

  lemma AfterTime(c: Clock, e: Event, h: Handlers)
    requires Ok(c) && Lawful(h) && Enabled(c, e)
    ensures TakesTime(c, e, After(c, e, h)) && FiresAt(c, After(c, e, h))
  {
    hide Core, Checked, Ticked;
    match e
    case Schedule(r) =>
    case OneTick => TickedTime(c, h);
    case SetLevel(now) =>
      if now == IntOn && c.level == IntOff {
        LevelOk(c, now);
        TickedTime(c.(level := IntOn), h);
      }
    case Idle =>
      IdleCanCheck(c);
      assert c.pending != [] ==> c.pending[0] in c.pending;
      CheckedTime(c.(status := IdleMode), true, h);
    case SetStatus(s) =>
  }

  lemma LevelOk(c: Clock, now: IntStatus)
    requires Ok(c)
    ensures Ok(c.(level := now))
  {
    hide Ordered, Numbered, Tally;
  }

  // ---- the class ----

  lemma {:induction false} RequestsFlag(c: Clock, requests: seq<Request>, flag: bool)
    ensures AllScheduled(c.(inHandler := flag), requests) == AllScheduled(c, requests).(inHandler := flag)
  {
    if requests != [] {
      RequestsFlag(c, requests[..|requests| - 1], flag);
    }
  }

  /** Firing does not look at the flag that says a handler is running. */
  lemma HandlerFlag(c: Clock, h: Handlers)
    requires c.pending != [] && !c.inHandler
    ensures FireFront(c.(inHandler := true), h) == FireFront(c, h).(inHandler := true) && !FireFront(c, h).inHandler
  {
    var r := h(c.fired, c.pending[0]);
    RequestsFlag(Popped(c, r.yielding), r.requests, true);
  }

  class Interrupt {
    var level: IntStatus
    var pending: seq<Entry>
    var inHandler: bool
    var yieldOnReturn: bool
    var status: MachineStatus
    var totalTicks: int
    var idleTicks: int
    var systemTicks: int
    var userTicks: int
    var next: nat
    var fired: seq<Firing>

    function State(): Clock
      reads this
    {
      Clock(totalTicks, idleTicks, systemTicks, userTicks, pending, level, inHandler, yieldOnReturn, status, next, fired)
    }

    constructor ()
      ensures State() == START
    {
      level, pending, inHandler, yieldOnReturn, status := IntOff, [], false, false, SystemMode;
      totalTicks, idleTicks, systemTicks, userTicks, next, fired := 0, 0, 0, 0, 0, [];
    }

    method Schedule(r: Request)
      requires r.fromNow > 0
      modifies this
      ensures State() == Scheduled(old(State()), r)
      ensures multiset(pending) == multiset(old(pending)) + multiset{Entry(r.toCall, old(totalTicks) + r.fromNow, old(next))}
      ensures fired == old(fired) && totalTicks == old(totalTicks)
    {
      var when := totalTicks + r.fromNow;
      InsertedOnce(pending, Entry(r.toCall, when, next), PendingCompare);
      pending := Inserted(pending, Entry(r.toCall, when, next), PendingCompare);
      next := next + 1;
    }

    /** The front interrupt goes off: its handler may schedule more. */
    method Fire(h: Handlers)
      requires inHandler && pending != [] && Future(h(fired, pending[0]).requests)
      modifies this
      ensures State() == FireFront(old(State()), h)
    {
      var front := pending[0];
      pending := pending[1..];
      var r := h(fired, front);
      fired := fired + [Firing(front, totalTicks)];
      if r.yielding {
        YieldOnReturn();
      }
      assert State() == Popped(old(State()), r.yielding);
      ghost var c := State();
      hide Scheduled;
      for i := 0 to |r.requests|
        invariant State() == AllScheduled(c, r.requests[..i])
      {
        Schedule(r.requests[i]);
        assert r.requests[..i + 1][..i] == r.requests[..i];
      }
      assert r.requests[..|r.requests|] == r.requests;
    }

    /** Fire everything that is due. */
    method CheckIfDue(advanceClock: bool, h: Handlers) returns (any: bool)
      requires level == IntOff && CanCheck(State(), advanceClock) && Lawful(h)
      modifies this
      ensures State() == Checked(old(State()), advanceClock, h) && (any <==> Due(old(State()), advanceClock))
    {
      if pending == [] {
        return false;
      }
      var front := pending[0];
      if front.when > totalTicks {
        if !advanceClock {
          return false;
        }
        idleTicks := idleTicks + (front.when - totalTicks);
        totalTicks := front.when;
      }
      assert State() == Advanced(old(State()));
      AdvancedOk(old(State()), advanceClock);
      FireAll(h);
      return true;
    }

    method FireAll(h: Handlers)
      requires Core(State()) && Recent(State()) && Lawful(h) && !inHandler && pending != [] && pending[0].when <= totalTicks
      modifies this
      ensures State() == FireDue(old(State()), h)
    {
      hide Core, Recent, FireFront;
      inHandler := true;
      ghost var c := old(State());
      while pending != [] && pending[0].when <= totalTicks
        invariant c == State().(inHandler := false) && inHandler
        invariant Core(c) && Recent(c) && FireDue(c, h) == FireDue(old(State()), h)
        decreases DueCount(c.pending, c.total)
      {
        FireFrontOk(c, h);
        HandlerFlag(c, h);
        Fire(h);
        c := FireFront(c, h);
      }
      inHandler := false;
    }

    /** Asked for by a handler: switch threads when it returns. */
    method YieldOnReturn()
      requires inHandler
      modifies this`yieldOnReturn
      ensures yieldOnReturn
    {
      yieldOnReturn := true;
    }

    method OneTick(h: Handlers) returns (yielded: bool)
      requires Ok(State()) && Lawful(h)
      modifies this
      ensures State() == Ticked(old(State()), h)
      ensures CanCheck(Counted(old(State())).(level := IntOff), false)
      ensures yielded <==> Checked(Counted(old(State())).(level := IntOff), false, h).yieldOnReturn
    {
      if status == SystemMode {
        totalTicks := totalTicks + SYSTEM_TICK;
        systemTicks := systemTicks + SYSTEM_TICK;
      } else {
        totalTicks := totalTicks + USER_TICK;
        userTicks := userTicks + USER_TICK;
      }
      level := IntOff;
      assert State() == Counted(old(State())).(level := IntOff);
      CountedOk(old(State()));
      hide Ok, CanCheck, Checked;
      var any := CheckIfDue(false, h);
      level := IntOn;
      yielded := yieldOnReturn;
      if yieldOnReturn {
        yieldOnReturn := false;
        status := SystemMode;
      }
    }

    method SetLevel(now: IntStatus, h: Handlers) returns (was: IntStatus)
      requires Ok(State()) && Lawful(h) && (now == IntOff || !inHandler)
      modifies this
      ensures was == old(level) && State() == After(old(State()), Event.SetLevel(now), h)
    {
      was := level;
      level := now;
      if now == IntOn && was == IntOff {
        assert Ok(State());
        hide Ok, Ticked;
        var yielded := OneTick(h);
      }
    }

    /** `halted` when there is nothing left to wait for. */
    method Idle(h: Handlers) returns (halted: bool)
      requires Ok(State()) && Lawful(h) && level == IntOff
      modifies this
      ensures State() == Idled(old(State()), h) && (halted <==> old(pending) == [])
    {
      status := IdleMode;
      assert State() == old(State()).(status := IdleMode);
      var any := CheckIfDue(true, h);
      if any {
        status := SystemMode;
      }
      halted := !any;
    }
  }
}
