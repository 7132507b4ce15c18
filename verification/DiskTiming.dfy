/** machine/disk.cc: how long a request takes on a disk that rotates and seeks, and the track buffer. The head is over
    the sectors of its track one after the other: from time k * ROTATION_TIME on, for ROTATION_TIME ticks, over the
    sector whose offset is k modulo SECTORS_PER_TRACK. */
module DiskTiming {
  import opened Disks

  const ROTATION_TIME := 500
  const SEEK_TIME := 500

  function Abs(x: int): (r: nat) {
    if x < 0 then -x else x
  }

  function Track(sector: nat): (t: nat) {
    sector / SECTORS_PER_TRACK
  }

  /** `lastSector` was requested last; `bufferInit` is when the track buffer began to fill. */
  datatype Head = Head(lastSector: nat, bufferInit: int)

  const START := Head(0, 0)

  /** Ticks until the head is over the right track. */
  function Seek(h: Head, sector: nat): (ticks: nat) {
    Abs(Track(sector) - Track(h.lastSector)) * SEEK_TIME
  }

  /** Ticks from a time to the next sector boundary. */
  function ToBoundary(time: nat): (ticks: nat)
    ensures ticks < ROTATION_TIME && (time + ticks) % ROTATION_TIME == 0
  {
    var over := time % ROTATION_TIME;
    if over > 0 then ROTATION_TIME - over else 0
  }

  /** The number of sectors from position `from` to position `to`, in the direction of rotation. */
  function ModuloDiff(to: nat, from: nat): (n: nat)
    ensures n < SECTORS_PER_TRACK && (from + n) % SECTORS_PER_TRACK == to % SECTORS_PER_TRACK
  {
    (to % SECTORS_PER_TRACK - from % SECTORS_PER_TRACK + SECTORS_PER_TRACK) % SECTORS_PER_TRACK
  }

  /** The boundary at which the head starts to look for the sector. */
  function TimeAfter(h: Head, now: nat, sector: nat): (time: nat)
    ensures time % ROTATION_TIME == 0 && now + Seek(h, sector) <= time < now + Seek(h, sector) + ROTATION_TIME
  {
    now + Seek(h, sector) + ToBoundary(now + Seek(h, sector))
  }

  predicate BufferHit(h: Head, now: nat, sector: nat, writing: bool)
    requires 0 <= h.bufferInit <= now
  {
    !writing && Seek(h, sector) == 0
    && (TimeAfter(h, now, sector) - h.bufferInit) / ROTATION_TIME > ModuloDiff(sector, h.bufferInit / ROTATION_TIME)
  }

  function Latency(h: Head, now: nat, sector: nat, writing: bool): (ticks: nat)
    requires 0 <= h.bufferInit <= now
  {
    if BufferHit(h, now, sector, writing) then ROTATION_TIME else
    var start := TimeAfter(h, now, sector);
    start - now + ModuloDiff(sector, start / ROTATION_TIME) * ROTATION_TIME + ROTATION_TIME
  }

  function Updated(h: Head, now: nat, sector: nat): (h': Head) {
    Head(sector, if Seek(h, sector) != 0 then TimeAfter(h, now, sector) else h.bufferInit)
  }

  // ---------------------------------------------------------------- requests that go to the platter

  /** During rotation slot k the sector passes under the head; the slot lies between two times. */
  predicate Passes(sector: nat, k: nat, from: int, until: int) {
    k % SECTORS_PER_TRACK == sector % SECTORS_PER_TRACK
    && from <= k * ROTATION_TIME && (k + 1) * ROTATION_TIME <= until
  }

  ghost predicate HasPassed(sector: nat, from: int, until: int) {
    exists k: nat :: Passes(sector, k, from, until)
  }

  /** An unbuffered request ends on a sector boundary, just as the sector has passed under the head, which has been
      on the track all the while; it is the first time that happens; and it takes less than 32000 ticks. */
  lemma UnbufferedRequest(h: Head, now: nat, sector: nat, writing: bool)
    requires 0 <= h.bufferInit <= now && h.lastSector < NUM_SECTORS && sector < NUM_SECTORS
    requires !BufferHit(h, now, sector, writing)
    ensures var end, settled := now + Latency(h, now, sector, writing), now + Seek(h, sector);
      && end % ROTATION_TIME == 0
      && end / ROTATION_TIME >= 1 && Passes(sector, end / ROTATION_TIME - 1, settled, end)
      && (forall k: nat, t: nat :: Passes(sector, k, settled, t) ==> end <= t)
      && ROTATION_TIME <= Latency(h, now, sector, writing) < 32000
  {
    var start, settled := TimeAfter(h, now, sector), now + Seek(h, sector);
    var first := start / ROTATION_TIME;
    var d := ModuloDiff(sector, first);
    var end := now + Latency(h, now, sector, writing);
    assert start == first * ROTATION_TIME;
    assert end == (first + d + 1) * ROTATION_TIME;
    assert end / ROTATION_TIME - 1 == first + d;
    forall k: nat, t: nat | Passes(sector, k, settled, t)
      ensures end <= t
    {
      assert k >= first;
      FirstPass(sector, first, d, k);
    }
  }

  lemma FirstPass(sector: nat, first: nat, d: nat, k: nat)
    requires d < SECTORS_PER_TRACK && (first + d) % SECTORS_PER_TRACK == sector % SECTORS_PER_TRACK
    requires k >= first && k % SECTORS_PER_TRACK == sector % SECTORS_PER_TRACK
    ensures k >= first + d
  {
  }

  // ---------------------------------------------------------------- runs

  datatype Request = Request(now: nat, sector: nat, writing: bool)

  /** The head after a sequence of requests. */
  function HeadAfter(history: seq<Request>): (h: Head) {
    if history == [] then START
    else
      var last := history[|history| - 1];
      Updated(HeadAfter(history[..|history| - 1]), last.now, last.sector)
  }

  /** When the head came to rest on the track it is on: the end of the last movement. */
  function Settled(history: seq<Request>): (time: nat) {
    if history == [] then 0
    else
      var before, last := history[..|history| - 1], history[|history| - 1];
      var from := if before == [] then 0 else Track(before[|before| - 1].sector);
      if Track(last.sector) == from then Settled(before)
      else last.now + Abs(Track(last.sector) - from) * SEEK_TIME
  }

  /** Requests name sectors of the disk, and each is made after the one before it has completed. */
  ghost predicate WellTimed(history: seq<Request>) {
    history == [] ||
    var before, last := history[..|history| - 1], history[|history| - 1];
    && WellTimed(before) && last.sector < NUM_SECTORS
    && Free(before, last.now)
  }

  /** The last request has completed by a given time. */
  ghost predicate Free(history: seq<Request>, now: nat) {
    history == [] ||
    var before, last := history[..|history| - 1], history[|history| - 1];
    var h := HeadAfter(before);
    0 <= h.bufferInit <= last.now && last.now + Latency(h, last.now, last.sector, last.writing) <= now
  }

  /** The track buffer begins to fill at the first sector boundary after the head has come to rest. */
  lemma {:induction false} BufferStartsWhenSettled(history: seq<Request>, now: nat)
    requires WellTimed(history) && Free(history, now)
    ensures var h := HeadAfter(history);
      && h.lastSector == (if history == [] then 0 else history[|history| - 1].sector)
      && h.bufferInit == Settled(history) + ToBoundary(Settled(history)) && 0 <= h.bufferInit <= now
      && h.lastSector < NUM_SECTORS
  {
    if history != [] {
      var before, last := history[..|history| - 1], history[|history| - 1];
      BufferStartsWhenSettled(before, last.now);
      var h := HeadAfter(before);
      if Seek(h, last.sector) != 0 {
        assert Latency(h, last.now, last.sector, last.writing) >= TimeAfter(h, last.now, last.sector) - last.now;
      }
    }
  }

  /** Over any run of requests: a read is served from the track buffer if and only if the head is already on its
      track and the sector has wholly passed under the head since it came to rest there, by the next sector boundary;
      in any case before the reply is due. */
  lemma HitOnlyIfPassed(history: seq<Request>, now: nat, sector: nat, writing: bool)
    requires WellTimed(history) && Free(history, now) && sector < NUM_SECTORS
    ensures var h := HeadAfter(history);
      && 0 <= h.bufferInit <= now
      && (BufferHit(h, now, sector, writing) <==>
            && !writing && Track(sector) == Track(h.lastSector)
            && HasPassed(sector, Settled(history), now + ToBoundary(now)))
      && now + ToBoundary(now) < now + ROTATION_TIME
      && (BufferHit(h, now, sector, writing) ==> Latency(h, now, sector, writing) == ROTATION_TIME)
  {
    BufferStartsWhenSettled(history, now);
    var h, settled := HeadAfter(history), Settled(history);
    hide HeadAfter, Settled, WellTimed, Free;
    NoSeek(h, now, sector);
    hide Passes, ModuloDiff, ToBoundary, Seek, Track, TimeAfter;
    if !writing && Track(sector) == Track(h.lastSector) {
      HitIff(h.bufferInit, settled, now + ToBoundary(now), sector);
    }
  }

  lemma NoSeek(h: Head, now: nat, sector: nat)
    ensures Seek(h, sector) == 0 <==> Track(sector) == Track(h.lastSector)
    ensures Seek(h, sector) == 0 ==> TimeAfter(h, now, sector) == now + ToBoundary(now)
  {
  }

  lemma HitIff(bufferInit: nat, settled: nat, after: nat, sector: nat)
    requires bufferInit == settled + ToBoundary(settled) && bufferInit <= after && after % ROTATION_TIME == 0
    ensures (after - bufferInit) / ROTATION_TIME > ModuloDiff(sector, bufferInit / ROTATION_TIME)
       <==> HasPassed(sector, settled, after)
  {
    var first := bufferInit / ROTATION_TIME;
    var d := ModuloDiff(sector, first);
    assert bufferInit == first * ROTATION_TIME;
    if (after - bufferInit) / ROTATION_TIME > d {
      assert Passes(sector, first + d, settled, after);
    }
    if k: nat :| Passes(sector, k, settled, after) {
      assert k >= first;
      FirstPass(sector, first, d, k);
    }
  }

  // ---------------------------------------------------------------- the device

  class Disk {
    var lastSector: nat
    var bufferInit: int
    var active: bool

    ghost function View(): (h: Head)
      reads this
    {
      Head(lastSector, bufferInit)
    }

    constructor ()
      ensures View() == START && !active
    {
      lastSector, bufferInit, active := 0, 0, false;
    }

    method TimeToSeek(newSector: nat, now: nat) returns (seek: nat, rotation: nat)
      ensures seek == Seek(View(), newSector) && now + seek + rotation == TimeAfter(View(), now, newSector)
    {
      var newTrack, oldTrack := newSector / SECTORS_PER_TRACK, lastSector / SECTORS_PER_TRACK;
      seek := Abs(newTrack - oldTrack) * SEEK_TIME;
      var over := (now + seek) % ROTATION_TIME;
      rotation := 0;
      if over > 0 {
        rotation := ROTATION_TIME - over;
      }
    }

    method ComputeLatency(newSector: nat, writing: bool, now: nat) returns (ticks: nat)
      requires 0 <= bufferInit <= now
      ensures ticks == Latency(View(), now, newSector, writing)
    {
      var seek, rotation := TimeToSeek(newSector, now);
      var timeAfter := now + seek + rotation;
      if !writing && seek == 0
         && (timeAfter - bufferInit) / ROTATION_TIME > ModuloDiff(newSector, bufferInit / ROTATION_TIME) {
        return ROTATION_TIME;
      }
      rotation := rotation + ModuloDiff(newSector, timeAfter / ROTATION_TIME) * ROTATION_TIME;
      return seek + rotation + ROTATION_TIME;
    }

    method UpdateLast(newSector: nat, now: nat)
      modifies this
      ensures View() == Updated(old(View()), now, newSector) && active == old(active)
    {
      var seek, rotate := TimeToSeek(newSector, now);
      if seek != 0 {
        bufferInit := now + seek + rotate;
      }
      lastSector := newSector;
    }

    /** ReadRequest and WriteRequest, as far as time is concerned: the interrupt is due after `ticks`. */
    method Request(newSector: nat, writing: bool, now: nat) returns (ticks: nat)
      requires !active && newSector < NUM_SECTORS && 0 <= bufferInit <= now
      modifies this
      ensures ticks == Latency(old(View()), now, newSector, writing)
      ensures active && View() == Updated(old(View()), now, newSector)
    {
      ticks := ComputeLatency(newSector, writing, now);
      active := true;
      UpdateLast(newSector, now);
    }

    method CallBack()
      modifies this
      ensures !active && View() == old(View())
    {
      active := false;
    }
  }
}
