/** filesys/synchdisk.cc over machine/disk.cc: the request protocol with a disk behind it. */
module SynchDiskRuns {
  import opened Semaphores
  import opened Disks
  import opened DeviceRuns

  type SectorNumber = k: nat | k < 1024

  datatype DiskOp = Read(sector: SectorNumber) | Write(sector: SectorNumber, data: Sector)

  /** The disk reads or writes as soon as it is asked; `got` holds what request number k left in its caller's buffer. */
  datatype DiskState = DiskState(calls: State<DiskOp>, disk: Image, got: seq<Option<Sector>>)

  function Apply(disk: Image, op: DiskOp): (d: Image) {
    if op.Write? then disk[op.sector := op.data] else disk
  }

  function Got(disk: Image, op: DiskOp): (r: Option<Sector>) {
    if op.Read? then Some(disk[op.sector]) else None
  }

  function DiskStep(s: DiskState, e: Event<DiskOp>): (s': DiskState) {
    var calls := Step(s.calls, e);
    if e.Continue? && s.calls.At(e.t).Requesting? && !s.calls.active then
      var op := s.calls.At(e.t).op;
      DiskState(calls, Apply(s.disk, op), s.got + [Got(s.disk, op)])
    else s.(calls := calls)
  }

  function DiskRun(image: Image, events: seq<Event<DiskOp>>): (s: DiskState)
    ensures s.calls == Run(events)
  {
    if events == [] then DiskState(Init(), image, [])
    else DiskStep(DiskRun(image, events[..|events| - 1]), events[|events| - 1])
  }

  /** The disk after a sequence of requests, one after the other. */
  function Replay(image: Image, log: seq<Request<DiskOp>>): (d: Image) {
    if log == [] then image else Apply(Replay(image, log[..|log| - 1]), log[|log| - 1].op)
  }

  /** The requests took effect one at a time, in the order of the log. */
  ghost predicate Linear(image: Image, s: DiskState) {
    && s.disk == Replay(image, s.calls.log)
    && |s.got| == |s.calls.log|
    && forall k :: 0 <= k < |s.got| ==> s.got[k] == Got(Replay(image, s.calls.log[..k]), s.calls.log[k].op)
  }

  lemma LogsOneRequest(image: Image, s: DiskState, s': DiskState, r: Request<DiskOp>)
    requires Linear(image, s) && s'.calls.log == s.calls.log + [r]
    requires s'.disk == Apply(s.disk, r.op) && s'.got == s.got + [Got(s.disk, r.op)]
    ensures Linear(image, s')
  {
    hide Apply, Got;
    var log, log' := s.calls.log, s'.calls.log;
    assert log'[..|log|] == log;
    forall k | 0 <= k < |s'.got|
      ensures s'.got[k] == Got(Replay(image, log'[..k]), log'[k].op)
    {
      assert k < |log| ==> log'[..k] == log[..k];
    }
  }

  lemma StepLinear(image: Image, s: DiskState, e: Event<DiskOp>)
    requires Linear(image, s)
    ensures Linear(image, DiskStep(s, e))
  {
    hide Apply, Got;
    var s' := DiskStep(s, e);
    var log, log' := s.calls.log, s'.calls.log;
    if e.Continue? && s.calls.At(e.t).Requesting? && !s.calls.active {
      assert log' == log + [Request(e.t, s.calls.At(e.t).op)];
      LogsOneRequest(image, s, s', Request(e.t, s.calls.At(e.t).op));
    } else {
      assert log' == log;
    }
  }

  /** However the calls interleave, what a read puts into its caller's buffer is what a disk used by one thread at a
      time would have given, the calls taking effect in the order in which the requests were made. */
  lemma {:induction false} ReadsSeeThePrecedingWrites(image: Image, events: seq<Event<DiskOp>>)
    ensures Linear(image, DiskRun(image, events))
  {
    if events != [] {
      hide Linear, DiskStep;
      ReadsSeeThePrecedingWrites(image, events[..|events| - 1]);
      StepLinear(image, DiskRun(image, events[..|events| - 1]), events[|events| - 1]);
    }
  }
}
