/** Timing of the disk: seeks, rotation, and the track buffer. A sector is under
    the head for 500 ticks at a time, and a track has 32 sectors. */
module Disks {
  import opened Common
  import Layout = DiskLayout

  datatype Seek = Seek(ticks: int, rotation: int)

  /** `active` until the interrupt; `bufferInit` is when the head reached the
      track that the buffer holds. */
  datatype State = State(active: bool, lastSector: int, bufferInit: int)

  function TimeToSeek(s: State, newSector: int, now: int): Seek {
    var seek := Magnitude(newSector / 32 - s.lastSector / 32) * 500;
    var over := (now + seek) % 500;
    Seek(seek, if over > 0 then 500 - over else 0)
  }

  function ModuloDiff(to: int, from: int): int {
    (to % 32 - from % 32 + 32) % 32
  }

  /** When the head is on the track and at a sector boundary. */
  function TimeAfter(s: State, newSector: int, now: int): int {
    now + TimeToSeek(s, newSector, now).ticks + TimeToSeek(s, newSector, now).rotation
  }

  predicate Buffered(s: State, newSector: int, writing: bool, now: int) {
    && !writing && TimeToSeek(s, newSector, now).ticks == 0
    && Quotient(TimeAfter(s, newSector, now) - s.bufferInit, 500) > ModuloDiff(newSector, Quotient(s.bufferInit, 500))
  }

  function ComputeLatency(s: State, newSector: int, writing: bool, now: int): int {
    if Buffered(s, newSector, writing, now) then 500 else
      TimeAfter(s, newSector, now) - now + ModuloDiff(newSector, TimeAfter(s, newSector, now) / 500) * 500 + 500
  }

  function Updated(s: State, newSector: int, now: int): State {
    State(true, newSector, if TimeToSeek(s, newSector, now).ticks != 0 then TimeAfter(s, newSector, now) else s.bufferInit)
  }

  // ---- the platter ----

  /** The sector under the head, on its track, from time `500 * k` to `500 * (k + 1)`. */
  predicate Under(sector: int, k: int) {
    k % 32 == sector % 32
  }

  /** The whole sector goes by between the two times. */
  ghost predicate Passes(sector: int, from: int, to: int) {
    exists k :: Under(sector, k) && from <= 500 * k && 500 * k + 500 <= to
  }

  predicate InRange(s: State, newSector: int, now: int) {
    0 <= s.lastSector < Layout.NUM_SECTORS && 0 <= newSector < Layout.NUM_SECTORS && now >= 0
  }

  /** The first time at or after `k` that a sector comes under the head. */
  lemma FirstUnder(sector: int, k: int)
    ensures Under(sector, k + ModuloDiff(sector, k)) && 0 <= ModuloDiff(sector, k) < 32
    ensures forall j :: k <= j < k + ModuloDiff(sector, k) ==> !Under(sector, j)
  {
  }

  /** A request that goes to the platter ends at the first sector boundary after
      the seek at which the whole target sector has gone by. */
  lemma UnbufferedEnds(s: State, newSector: int, writing: bool, now: int)
    requires InRange(s, newSector, now) && !Buffered(s, newSector, writing, now)
    ensures var end, arrival := now + ComputeLatency(s, newSector, writing, now), now + TimeToSeek(s, newSector, now).ticks;
            && end % 500 == 0 && Under(newSector, end / 500 - 1) && arrival <= end - 500
            && (forall t :: t < end ==> !Passes(newSector, arrival, t))
    ensures 500 <= ComputeLatency(s, newSector, writing, now) <= 31999
  {
    var a := TimeAfter(s, newSector, now) / 500;
    var arrival := now + TimeToSeek(s, newSector, now).ticks;
    BoundaryAfterSeek(s, newSector, now);
    FirstUnder(newSector, a);
    var end := now + ComputeLatency(s, newSector, writing, now);
    assert end == 500 * (a + ModuloDiff(newSector, a)) + 500;
    hide TimeToSeek, TimeAfter, ModuloDiff, ComputeLatency, Under;
    forall t | t < end ensures !Passes(newSector, arrival, t) {
      forall k | Under(newSector, k) && arrival <= 500 * k ensures 500 * k + 500 > t {
        assert k >= a;
      }
    }
  }

  lemma BoundaryAfterSeek(s: State, newSector: int, now: int)
    requires InRange(s, newSector, now)
    ensures var t, seek := TimeAfter(s, newSector, now), TimeToSeek(s, newSector, now).ticks;
            && t % 500 == 0 && now + seek <= t < now + seek + 500 && 0 <= seek <= 15500
            && (seek == 0 <==> newSector / 32 == s.lastSector / 32)
  {
  }

  /** The head takes 500 ticks for each track it crosses, and then waits for the
      next sector boundary and no longer. */
  lemma SeekTime(s: State, newSector: int, now: int, from: int, to: int)
    requires 32 * from <= s.lastSector < 32 * from + 32 && 32 * to <= newSector < 32 * to + 32
    ensures var seek := TimeToSeek(s, newSector, now);
            && seek.ticks == (if from <= to then 500 * (to - from) else 500 * (from - to))
            && 0 <= seek.rotation < 500 && (now + seek.ticks + seek.rotation) % 500 == 0
  {
    assert s.lastSector / 32 == from && newSector / 32 == to;
  }

  // ---- the track buffer ----

  ghost predicate BufferOk(s: State, now: int) {
    s.bufferInit % 500 == 0 && 0 <= s.bufferInit <= now
  }

  /** A read takes the shortcut exactly when the head need not move and the whole
      sector goes by between its arrival on the track and the next sector
      boundary, which is no later than the end of the request. */
  lemma BufferHolds(s: State, newSector: int, now: int)
    requires InRange(s, newSector, now) && BufferOk(s, now)
    ensures Buffered(s, newSector, false, now) <==>
            newSector / 32 == s.lastSector / 32 && Passes(newSector, s.bufferInit, TimeAfter(s, newSector, now))
    ensures Buffered(s, newSector, false, now) ==>
              ComputeLatency(s, newSector, false, now) == 500 && Passes(newSector, s.bufferInit, now + 500)
  {
    var b, a := s.bufferInit / 500, TimeAfter(s, newSector, now) / 500;
    BoundaryAfterSeek(s, newSector, now);
    FirstUnder(newSector, b);
    PassesFrom(newSector, b, a);
    assert Quotient(TimeAfter(s, newSector, now) - s.bufferInit, 500) == a - b || s.bufferInit > TimeAfter(s, newSector, now);
    hide ModuloDiff, Under;
    if Buffered(s, newSector, false, now) {
      var k :| Under(newSector, k) && 500 * b <= 500 * k && 500 * k + 500 <= 500 * a;
      assert Passes(newSector, s.bufferInit, now + ComputeLatency(s, newSector, false, now));
    }
  }

  lemma PassesFrom(sector: int, b: int, a: int)
    ensures Passes(sector, 500 * b, 500 * a) <==> a - b > ModuloDiff(sector, b)
  {
    FirstUnder(sector, b);
    var k := b + ModuloDiff(sector, b);
    assert Under(sector, k);
  }

  lemma WholeSectors(sector: int, b: int, now: int)
    ensures Passes(sector, 500 * b, now) <==> Passes(sector, 500 * b, 500 * (now / 500))
  {
    hide Under;
    assert forall k :: Under(sector, k) ==> (500 * k + 500 <= now <==> 500 * k + 500 <= 500 * (now / 500));
  }

  /** By the moment of the request itself the sector need not have gone by: the
      read may catch it while it is still passing. It has gone by exactly when
      the shortcut's test holds of the time of the request, not rounded up. */
  lemma BufferedByNow(s: State, newSector: int, now: int)
    requires InRange(s, newSector, now) && BufferOk(s, now) && Buffered(s, newSector, false, now)
    ensures Passes(newSector, s.bufferInit, now) <==> (now - s.bufferInit) / 500 > ModuloDiff(newSector, s.bufferInit / 500)
  {
    hide ModuloDiff, Under, Buffered;
    var b, n := s.bufferInit / 500, now / 500;
    PassesFrom(newSector, b, n);
    WholeSectors(newSector, b, now);
    assert s.bufferInit == 500 * b && (now - s.bufferInit) / 500 == n - b;
    hide Passes;
  }

  lemma CaughtPassing(s: State, sector: int, now: int)
    requires InRange(s, sector, now) && BufferOk(s, now) && sector / 32 == s.lastSector / 32
    requires Under(sector, s.bufferInit / 500) && s.bufferInit < now < s.bufferInit + 500
    ensures ModuloDiff(sector, s.bufferInit / 500) == 0 && Buffered(s, sector, false, now)
  {
    BoundaryAfterSeek(s, sector, now);
    hide TimeToSeek;
    assert TimeAfter(s, sector, now) == s.bufferInit + 500;
  }

  /** Whenever the head has been on the track for less than a sector, a read of
      that very sector is answered from the buffer while it is still passing. */
  lemma NotAlwaysByNow(s: State, sector: int, now: int)
    requires InRange(s, sector, now) && BufferOk(s, now) && sector / 32 == s.lastSector / 32
    requires Under(sector, s.bufferInit / 500) && s.bufferInit < now < s.bufferInit + 500
    ensures Buffered(s, sector, false, now) && !Passes(sector, s.bufferInit, now)
  {
    hide Passes, Buffered, ModuloDiff, Under;
    CaughtPassing(s, sector, now);
    BufferedByNow(s, sector, now);
  }

  /** The time from which the track buffer fills: unchanged if the head stays on
      the track, and otherwise the first boundary after the head has arrived. */
  ghost predicate Fills(s: State, sector: int, now: int, start: int) {
    if sector / 32 == s.lastSector / 32 then start == s.bufferInit
    else var arrival := now + 500 * Magnitude(sector / 32 - s.lastSector / 32);
         start % 500 == 0 && arrival <= start < arrival + 500
  }

  /** Whichever way a request goes, by the time of its interrupt the whole sector
      has gone by since the head reached the track, and the buffer's start is a
      boundary that has passed. The head is then on that sector's track. */
  lemma RequestEnds(s: State, sector: int, writing: bool, now: int)
    requires InRange(s, sector, now) && BufferOk(s, now)
    ensures var s', end := Updated(s, sector, now), now + ComputeLatency(s, sector, writing, now);
            && 500 <= end - now <= 31999 && BufferOk(s', end) && Passes(sector, s'.bufferInit, end)
            && s'.lastSector == sector && s'.active && Fills(s, sector, now, s'.bufferInit)
  {
    BoundaryAfterSeek(s, sector, now);
    if Buffered(s, sector, writing, now) {
      BufferHolds(s, sector, now);
    } else {
      UnbufferedEnds(s, sector, writing, now);
      PlatterPasses(s, sector, writing, now);
    }
  }

  lemma PlatterPasses(s: State, sector: int, writing: bool, now: int)
    requires InRange(s, sector, now) && BufferOk(s, now) && !Buffered(s, sector, writing, now)
    ensures Passes(sector, Updated(s, sector, now).bufferInit, now + ComputeLatency(s, sector, writing, now))
  {
    UnbufferedEnds(s, sector, writing, now);
    BoundaryAfterSeek(s, sector, now);
    hide Buffered, ModuloDiff, TimeToSeek, Under;
    var k := (now + ComputeLatency(s, sector, writing, now)) / 500 - 1;
    assert Under(sector, k) && TimeAfter(s, sector, now) <= 500 * k;
  }

  // ---- whole runs ----

  datatype Event = Wait(ticks: nat) | Request(sector: int, writing: bool) | Interrupt

  /** The clock, the disk, and the earliest time of its pending interrupt. */
  datatype Timed = Timed(now: int, disk: State, due: int)

  /** `SynchDisk` makes no request while one is active, and interrupts are never early. */
  predicate Enabled(d: Timed, e: Event) {
    match e
    case Wait(_) => true
    case Request(sector, _) => !d.disk.active && 0 <= sector < Layout.NUM_SECTORS
    case Interrupt => d.disk.active && d.due <= d.now
  }

  function After(d: Timed, e: Event): Timed {
    match e
    case Wait(ticks) => d.(now := d.now + ticks)
    case Request(sector, writing) =>
      Timed(d.now, Updated(d.disk, sector, d.now), d.now + ComputeLatency(d.disk, sector, writing, d.now))
    case Interrupt => d.(disk := d.disk.(active := false))
  }

  ghost predicate Ok(d: Timed) {
    && d.now >= 0 && 0 <= d.disk.lastSector < Layout.NUM_SECTORS
    && BufferOk(d.disk, if d.disk.active then d.due else d.now)
  }

  lemma AfterOk(d: Timed, e: Event)
    requires Ok(d) && Enabled(d, e)
    ensures Ok(After(d, e))
  {
    if e.Request? {
      BoundaryAfterSeek(d.disk, e.sector, d.now);
      if !Buffered(d.disk, e.sector, e.writing, d.now) {
        UnbufferedEnds(d.disk, e.sector, e.writing, d.now);
      }
    }
  }

  ghost predicate Run(ds: seq<Timed>, events: seq<Event>) {
    && |ds| == |events| + 1 && ds[0] == Timed(0, State(false, 0, 0), 0)
    && forall i :: 0 <= i < |events| ==> Enabled(ds[i], events[i]) && ds[i + 1] == After(ds[i], events[i])
  }

  /** In every run, whenever the disk is idle the buffer began at a sector
      boundary that is not in the future, so every read that takes the shortcut
      finds its sector in the buffer by the time it ends, and every request
      takes between 500 and 31999 ticks. */
  lemma {:induction false} DiskRuns(ds: seq<Timed>, events: seq<Event>, n: nat)
    requires Run(ds, events) && n <= |events|
    ensures Ok(ds[n])
    ensures n < |events| && events[n].Request? ==>
              var d, latency := ds[n].disk, ds[n + 1].due - ds[n].now;
              && BufferOk(d, ds[n].now) && 500 <= latency <= 31999
              && (Buffered(d, events[n].sector, events[n].writing, ds[n].now) ==>
                    Passes(events[n].sector, d.bufferInit, ds[n].now + latency))
  {
    hide ComputeLatency, Buffered, Passes, Updated;
    if n > 0 {
      DiskRuns(ds, events, n - 1);
      AfterOk(ds[n - 1], events[n - 1]);
    }
    if n < |events| && events[n].Request? {
      assert Enabled(ds[n], events[n]);
      Latencies(ds[n].disk, events[n].sector, events[n].writing, ds[n].now);
    }
  }

  lemma Latencies(s: State, sector: int, writing: bool, now: int)
    requires InRange(s, sector, now) && BufferOk(s, now)
    ensures 500 <= ComputeLatency(s, sector, writing, now) <= 31999
    ensures Buffered(s, sector, writing, now) ==> Passes(sector, s.bufferInit, now + ComputeLatency(s, sector, writing, now))
  {
    BufferHolds(s, sector, now);
    if !Buffered(s, sector, writing, now) {
      UnbufferedEnds(s, sector, writing, now);
    }
  }

  /** It does happen: after ten ticks, a read of the sector under the head. */
  lemma CaughtInARun(ds: seq<Timed>, events: seq<Event>)
    requires events == [Wait(10), Request(0, false)]
    requires |ds| == 3 && ds[0] == Timed(0, State(false, 0, 0), 0) && ds[1] == After(ds[0], events[0]) && ds[2] == After(ds[1], events[1])
    ensures Run(ds, events)
    ensures Buffered(ds[1].disk, 0, false, ds[1].now) && !Passes(0, ds[1].disk.bufferInit, ds[1].now)
  {
    hide ComputeLatency, Buffered, Passes, Updated;
    assert ds[1] == Timed(10, State(false, 0, 0), 0);
    NotAlwaysByNow(ds[1].disk, 0, 10);
  }

  class Disk {
    var active: bool
    var lastSector: int
    var bufferInit: int

    function Timing(): State
      reads this
    {
      State(active, lastSector, bufferInit)
    }

    constructor ()
      ensures Timing() == State(false, 0, 0)
    {
      active, lastSector, bufferInit := false, 0, 0;
    }

    method UpdateLast(newSector: int, now: int)
      modifies this`lastSector, this`bufferInit
      ensures Timing() == Updated(old(Timing()), newSector, now).(active := active)
    {
      var seek := TimeToSeek(Timing(), newSector, now);
      if seek.ticks != 0 {
        bufferInit := now + seek.ticks + seek.rotation;
      }
      lastSector := newSector;
    }

    /** `ReadRequest` and `WriteRequest`: the interrupt is due after `ticks`. */
    method Submit(sectorNumber: int, writing: bool, now: int) returns (ticks: int)
      requires !active && 0 <= sectorNumber < Layout.NUM_SECTORS
      modifies this
      ensures Timing() == Updated(old(Timing()), sectorNumber, now)
      ensures ticks == ComputeLatency(old(Timing()), sectorNumber, writing, now)
      ensures InRange(old(Timing()), sectorNumber, now) && BufferOk(old(Timing()), now) ==>
                500 <= ticks <= 31999 && BufferOk(Timing(), now + ticks) && Passes(sectorNumber, bufferInit, now + ticks)
    {
      hide Passes, BufferOk, ComputeLatency;
      ghost var s := Timing();
      ticks := ComputeLatency(Timing(), sectorNumber, writing, now);
      active := true;
      UpdateLast(sectorNumber, now);
      if InRange(s, sectorNumber, now) && BufferOk(s, now) {
        RequestEnds(s, sectorNumber, writing, now);
      }
    }

    method CallBack()
      modifies this`active
      ensures Timing() == old(Timing()).(active := false)
    {
      active := false;
    }
  }
}
