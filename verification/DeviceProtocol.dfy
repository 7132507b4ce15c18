/** Many threads share a device that takes one request at a time and reports completion by an interrupt: a lock keeps
    the threads apart, and a semaphore with initial value 0 carries the interrupt to the thread that waits for it.
    SynchDisk (filesys/synchdisk.cc over machine/disk.cc) and PostOfficeOutput::Send (network/post.cc over
    machine/network.cc) are both this protocol; `Op` is what is asked of the device. */
module DeviceRuns {
  import opened Sequences
  import opened Semaphores
  import Locks

  datatype Request<Op> = Request(thread: Tid, op: Op)

  datatype PC<Op> =
    | Idle
    | Acquire(op: Op)      // about to test the lock's semaphore
    | Queued(op: Op)       // asleep in the lock's queue
    | Entered(op: Op)      // past the lock's semaphore, lockHolder not set yet
    | Requesting(op: Op)   // about to call the device
    | Waiting(req: nat)    // about to test the completion semaphore
    | Sleeping(req: nat)   // asleep on the completion semaphore
    | Leaving(req: nat)    // about to call Release
    | Releasing(req: nat)  // lockHolder is NULL, the V on the lock's semaphore is to come

  /** `owner` is the thread that passed the lock's semaphore last and has not posted it yet; `scheduled` counts the
      interrupts that are pending; `finished` those that have occurred; `failed` says that ASSERT(!active)
      was violated; `returned` are the requests whose calls have returned. */
  datatype State<!Op> = State(
    lock: Semaphore, holder: Option<Tid>, owner: Option<Tid>, pcs: map<Tid, PC<Op>>,
    done: Semaphore, active: bool, scheduled: nat,
    log: seq<Request<Op>>, finished: nat, returned: set<nat>, failed: bool)
  {
    function At(t: Tid): (pc: PC<Op>) {
      if t in pcs then pcs[t] else Idle
    }

    function Goto(t: Tid, pc: PC<Op>): (s: State<Op>)
      ensures s.At(t) == pc && forall u :: u != t ==> s.At(u) == At(u)
    {
      this.(pcs := pcs[t := pc])
    }
  }

  datatype Event<Op> = Call(t: Tid, op: Op) | Continue(t: Tid) | Interrupt

  function Init<Op>(): (s: State<Op>) {
    State(Semaphore(1, []), None, None, map[], Semaphore(0, []), false, 0, [], 0, {}, false)
  }

  function TakeLock<Op>(s: State<Op>, t: Tid, op: Op): (s': State<Op>) {
    var (lock, passed) := TryP(s.lock, t);
    if passed then s.(lock := lock, owner := Some(t)).Goto(t, Entered(op))
    else s.(lock := lock).Goto(t, Queued(op))
  }

  function Ask<Op>(s: State<Op>, t: Tid, op: Op): (s': State<Op>) {
    if s.active then s.(failed := true)
    else s.(active := true, scheduled := s.scheduled + 1, log := s.log + [Request(t, op)]).Goto(t, Waiting(|s.log|))
  }

  function Await<Op>(s: State<Op>, t: Tid, req: nat): (s': State<Op>) {
    var (done, passed) := TryP(s.done, t);
    s.(done := done).Goto(t, if passed then Leaving(req) else Sleeping(req))
  }

  function ReleaseLock<Op>(s: State<Op>, t: Tid, req: nat): (s': State<Op>) {
    var (lock, front) := V(s.lock);
    var s1 := s.(lock := lock, owner := None, returned := s.returned + {req});
    var s2 := if front.Some? && s.At(front.value).Queued?
      then s1.Goto(front.value, Acquire(s.At(front.value).op)) else s1;
    s2.Goto(t, Idle)
  }

  /** The device's CallBack and the CallBack it calls. */
  function Complete<Op>(s: State<Op>): (s': State<Op>) {
    if s.scheduled == 0 then s else
    var (done, front) := V(s.done);
    var s1 := s.(active := false, scheduled := s.scheduled - 1, finished := s.finished + 1, done := done);
    if front.Some? && s.At(front.value).Sleeping? then s1.Goto(front.value, Waiting(s.At(front.value).req)) else s1
  }

  function Move<Op>(s: State<Op>, t: Tid): (s': State<Op>) {
    match s.At(t)
    case Idle => s
    case Acquire(op) => TakeLock(s, t, op)
    case Queued(_) => s
    case Entered(op) => s.(holder := Some(t)).Goto(t, Requesting(op))
    case Requesting(op) => Ask(s, t, op)
    case Waiting(req) => Await(s, t, req)
    case Sleeping(_) => s
    case Leaving(req) => s.(holder := None).Goto(t, Releasing(req))
    case Releasing(req) => ReleaseLock(s, t, req)
  }

  /** One step; an event that cannot happen in this state changes nothing. */
  function Step<Op>(s: State<Op>, e: Event<Op>): (s': State<Op>) {
    match e
    case Call(t, op) => if s.At(t).Idle? then s.Goto(t, Acquire(op)) else s
    case Continue(t) => Move(s, t)
    case Interrupt => Complete(s)
  }

  function Run<Op>(events: seq<Event<Op>>): (s: State<Op>) {
    if events == [] then Init()
    else Step(Run(events[..|events| - 1]), events[|events| - 1])
  }

  // ---------------------------------------------------------------- the lock

  function RoleOf<Op>(pc: PC<Op>): (r: Locks.Role) {
    match pc
    case Idle => Locks.Outside
    case Acquire(_) => Locks.Wanting
    case Queued(_) => Locks.Queued
    case Entered(_) => Locks.Entered
    case Requesting(_) => Locks.Inside
    case Waiting(_) => Locks.Inside
    case Sleeping(_) => Locks.Inside
    case Leaving(_) => Locks.Inside
    case Releasing(_) => Locks.Releasing
  }

  /** Between passing the lock's semaphore and posting it. */
  predicate Critical<Op>(pc: PC<Op>) {
    Locks.Critical(RoleOf(pc))
  }

  /** Between Acquire and Release. */
  predicate Holding<Op>(pc: PC<Op>) {
    RoleOf(pc).Inside?
  }

  /** The lock without the device. */
  function LockOf<Op>(s: State<Op>): (l: Locks.Lock)
    ensures l.sem == s.lock && l.holder == s.holder && l.owner == s.owner && forall t :: l.At(t) == RoleOf(s.At(t))
  {
    Locks.Lock(s.lock, s.holder, s.owner, map t | t in s.pcs :: RoleOf(s.pcs[t]))
  }

  ghost predicate LockInv<Op>(s: State<Op>) {
    Locks.Inv(LockOf(s))
  }

  lemma GotoLock<Op>(s: State<Op>, t: Tid, pc: PC<Op>)
    ensures LockOf(s.Goto(t, pc)) == LockOf(s).Goto(t, RoleOf(pc))
    ensures RoleOf(pc) == RoleOf(s.At(t)) && t in s.pcs ==> LockOf(s.Goto(t, pc)) == LockOf(s)
  {
  }

  lemma ReleaseLocks<Op>(s: State<Op>, t: Tid, req: nat)
    ensures LockOf(ReleaseLock(s, t, req)) == Locks.Post(LockOf(s), t)
  {
    var (lock, front) := V(s.lock);
    var s1 := s.(lock := lock, owner := None, returned := s.returned + {req});
    if front.Some? && s.At(front.value).Queued? {
      var pc := Acquire(s.At(front.value).op);
      GotoLock(s1, front.value, pc);
      GotoLock(s1.Goto(front.value, pc), t, Idle);
    } else {
      GotoLock(s1, t, Idle);
    }
  }

  /** As far as the lock is concerned, every step of a thread is a step of the lock protocol or none at all. */
  lemma MoveLock<Op>(s: State<Op>, t: Tid)
    ensures LockOf(Move(s, t)) == Locks.Step(LockOf(s), t) || LockOf(Move(s, t)) == LockOf(s)
  {
    hide ReleaseLock, Locks.Post;
    match s.At(t)
    case Acquire(op) =>
      var (lock, passed) := TryP(s.lock, t);
      GotoLock(if passed then s.(lock := lock, owner := Some(t)) else s.(lock := lock), t, Move(s, t).At(t));
    case Entered(op) => GotoLock(s.(holder := Some(t)), t, Requesting(op));
    case Leaving(req) => GotoLock(s.(holder := None), t, Releasing(req));
    case Releasing(req) => ReleaseLocks(s, t, req);
    case Requesting(op) => assert LockOf(Ask(s, t, op)) == LockOf(s);
    case Waiting(req) => assert LockOf(Await(s, t, req)) == LockOf(s);
    case _ =>
  }

  lemma StepLock<Op>(s: State<Op>, e: Event<Op>)
    requires LockInv(s)
    ensures LockInv(Step(s, e))
  {
    hide Locks.Inv, Move;
    match e
    case Call(t, op) =>
      GotoLock(s, t, Acquire(op));
      Locks.StepKeepsInv(LockOf(s), t);
    case Interrupt => assert LockOf(Step(s, e)) == LockOf(s);
    case Continue(t) =>
      MoveLock(s, t);
      Locks.StepKeepsInv(LockOf(s), t);
  }

  // ---------------------------------------------------------------- the device

  /** The thread that waits for the completion interrupt. */
  predicate InFlight<Op>(s: State<Op>) {
    s.owner.Some? && (s.At(s.owner.value).Waiting? || s.At(s.owner.value).Sleeping?)
  }

  /** The request a thread has made and not returned from. */
  function RequestOf<Op>(pc: PC<Op>): (k: Option<nat>) {
    match pc
    case Waiting(k) => Some(k)
    case Sleeping(k) => Some(k)
    case Leaving(k) => Some(k)
    case Releasing(k) => Some(k)
    case _ => None
  }

  /** Ties the device, the completion semaphore and the thread inside the lock together. While a request is in flight
      either the device is active and the semaphore is 0, or the interrupt has come and the semaphore is 1; at all
      other times the device is idle and the semaphore is 0. */
  ghost predicate DeviceInv<Op(!new)>(s: State<Op>) {
    && !s.failed
    && s.scheduled == (if s.active then 1 else 0)
    && s.finished + s.scheduled == |s.log|
    && s.done.value + s.scheduled == (if InFlight(s) then 1 else 0)
    && s.done.queue == (if s.owner.Some? && s.At(s.owner.value).Sleeping? then [s.owner.value] else [])
    && (s.owner.Some? && s.At(s.owner.value).Sleeping? ==> s.active)
    && (forall t :: RequestOf(s.At(t)).Some? ==> RequestOf(s.At(t)).value == |s.log| - 1)
    && (forall t :: RequestOf(s.At(t)).Some? ==> s.log != [] && s.log[|s.log| - 1].thread == t)
    && (forall k :: k in s.returned ==> k < s.finished)
    && (s.log != [] && |s.log| - 1 !in s.returned ==> RequestOf(s.At(s.log[|s.log| - 1].thread)).Some?)
    && (forall k :: 0 <= k < |s.log| - 1 ==> k in s.returned)
  }

  /** Only the owner of the lock has a request that has not returned. */
  ghost predicate OwnerAsks<Op(!new)>(s: State<Op>) {
    && (s.lock.value > 0 ==> s.owner == None)
    && forall u :: (Critical(s.At(u)) <==> s.owner == Some(u)) && (RequestOf(s.At(u)).Some? ==> s.owner == Some(u))
  }

  lemma OnlyOwnerAsks<Op(!new)>(s: State<Op>)
    requires LockInv(s)
    ensures OwnerAsks(s)
  {
    hide Distinct;
    var l := LockOf(s);
    forall u
      ensures (Critical(s.At(u)) <==> s.owner == Some(u)) && (RequestOf(s.At(u)).Some? ==> s.owner == Some(u))
    {
      assert Locks.Critical(l.At(u)) <==> l.owner == Some(u);
    }
  }

  lemma AskKeepsDevice<Op(!new)>(s: State<Op>, t: Tid)
    requires OwnerAsks(s) && DeviceInv(s) && s.At(t).Requesting?
    ensures DeviceInv(Ask(s, t, s.At(t).op))
  {
    var s' := Ask(s, t, s.At(t).op);
    assert s.owner == Some(t) && !s.active;
    assert s'.At(t) == Waiting(|s.log|);
    if s.log != [] {
      var last := s.log[|s.log| - 1].thread;
      assert RequestOf(s.At(last)).Some? ==> last == t;
    }
    forall u | RequestOf(s'.At(u)).Some?
      ensures u == t
    {
      assert u != t ==> s'.At(u) == s.At(u);
    }
  }

  lemma AwaitKeepsDevice<Op(!new)>(s: State<Op>, t: Tid)
    requires OwnerAsks(s) && DeviceInv(s) && s.At(t).Waiting?
    ensures DeviceInv(Await(s, t, s.At(t).req))
  {
    var s' := Await(s, t, s.At(t).req);
    assert s.owner == Some(t);
    forall u
      ensures RequestOf(s'.At(u)) == RequestOf(s.At(u))
    {
    }
  }

  lemma ReleaseKeepsDevice<Op(!new)>(s: State<Op>, t: Tid)
    requires OwnerAsks(s) && DeviceInv(s) && s.At(t).Releasing?
    ensures DeviceInv(ReleaseLock(s, t, s.At(t).req))
  {
    var s' := ReleaseLock(s, t, s.At(t).req);
    assert s.owner == Some(t);
    forall u
      ensures RequestOf(s'.At(u)) == None
    {
      assert RequestOf(s.At(u)).Some? ==> u == t;
    }
  }

  /** The thread inside the lock is asleep, waiting for the interrupt. */
  predicate OwnerSleeps<Op>(s: State<Op>) {
    s.owner.Some? && s.At(s.owner.value).Sleeping?
  }

  /** Steps that leave the device and its semaphore alone. */
  lemma QuietKeepsDevice<Op(!new)>(s: State<Op>, s': State<Op>)
    requires DeviceInv(s) && s' == s.(lock := s'.lock, holder := s'.holder, owner := s'.owner, pcs := s'.pcs)
    requires InFlight(s') == InFlight(s) && OwnerSleeps(s') == OwnerSleeps(s)
    requires OwnerSleeps(s) ==> s'.owner == s.owner
    requires forall u :: RequestOf(s'.At(u)) == RequestOf(s.At(u))
    ensures DeviceInv(s')
  {
    hide InFlight, RequestOf;
  }

  lemma OtherSteps<Op(!new)>(s: State<Op>, t: Tid)
    requires OwnerAsks(s) && !s.At(t).Requesting? && !s.At(t).Waiting? && !s.At(t).Releasing?
    ensures var s' := Move(s, t);
      && s' == s.(lock := s'.lock, holder := s'.holder, owner := s'.owner, pcs := s'.pcs)
      && InFlight(s') == InFlight(s) && OwnerSleeps(s') == OwnerSleeps(s) && (OwnerSleeps(s) ==> s'.owner == s.owner)
      && forall u :: RequestOf(s'.At(u)) == RequestOf(s.At(u))
  {
    var s' := Move(s, t);
    assert Critical(s.At(t)) <==> s.owner == Some(t);
    forall u
      ensures RequestOf(s'.At(u)) == RequestOf(s.At(u))
    {
      assert u != t ==> s'.At(u) == s.At(u);
    }
  }

  lemma CallKeepsDevice<Op(!new)>(s: State<Op>, t: Tid, op: Op)
    requires OwnerAsks(s) && DeviceInv(s) && s.At(t).Idle?
    ensures DeviceInv(s.Goto(t, Acquire(op)))
  {
    var s' := s.Goto(t, Acquire(op));
    assert Critical(s.At(t)) <==> s.owner == Some(t);
    QuietKeepsDevice(s, s');
  }

  lemma OtherKeepsDevice<Op(!new)>(s: State<Op>, t: Tid)
    requires OwnerAsks(s) && DeviceInv(s) && !s.At(t).Requesting? && !s.At(t).Waiting? && !s.At(t).Releasing?
    ensures DeviceInv(Move(s, t))
  {
    hide *;
    OtherSteps(s, t);
    QuietKeepsDevice(s, Move(s, t));
  }

  lemma InterruptKeepsDevice<Op(!new)>(s: State<Op>)
    requires OwnerAsks(s) && DeviceInv(s)
    ensures DeviceInv(Complete(s))
  {
    var s' := Complete(s);
    forall u
      ensures RequestOf(s'.At(u)) == RequestOf(s.At(u))
    {
    }
  }

  lemma MoveKeepsDevice<Op(!new)>(s: State<Op>, t: Tid)
    requires OwnerAsks(s) && DeviceInv(s)
    ensures DeviceInv(Move(s, t))
  {
    hide DeviceInv, OwnerAsks, Ask, Await, ReleaseLock;
    match s.At(t)
    case Requesting(_) => AskKeepsDevice(s, t);
    case Waiting(_) => AwaitKeepsDevice(s, t);
    case Releasing(_) => ReleaseKeepsDevice(s, t);
    case _ => OtherKeepsDevice(s, t);
  }

  lemma StepDevice<Op(!new)>(s: State<Op>, e: Event<Op>)
    requires LockInv(s) && DeviceInv(s)
    ensures DeviceInv(Step(s, e))
  {
    hide Move, Complete, LockInv, DeviceInv, OwnerAsks;
    OnlyOwnerAsks(s);
    match e
    case Call(t, op) =>
      if s.At(t).Idle? {
        CallKeepsDevice(s, t, op);
      }
    case Continue(t) => MoveKeepsDevice(s, t);
    case Interrupt => InterruptKeepsDevice(s);
  }

  // ---------------------------------------------------------------- every run

  ghost predicate Inv<Op(!new)>(s: State<Op>) {
    LockInv(s) && DeviceInv(s)
  }

  lemma InitInv<Op(!new)>()
    ensures Inv(Init<Op>())
  {
  }

  lemma StepKeepsInv<Op(!new)>(s: State<Op>, e: Event<Op>)
    requires Inv(s)
    ensures Inv(Step(s, e))
  {
    hide LockInv, DeviceInv, Step;
    StepLock(s, e);
    StepDevice(s, e);
  }

  lemma {:induction false} RunsKeepInv<Op(!new)>(events: seq<Event<Op>>)
    ensures Inv(Run(events))
  {
    if events == [] {
      InitInv<Op>();
    } else {
      hide Inv, Step;
      RunsKeepInv(events[..|events| - 1]);
      StepKeepsInv(Run(events[..|events| - 1]), events[|events| - 1]);
    }
  }

  /** At most one thread is between Acquire and Release, the device is idle whenever a request is made, and so
      ASSERT(!active) never fails. */
  lemma OneRequestAtATime<Op(!new)>(events: seq<Event<Op>>, t: Tid, u: Tid)
    ensures var s := Run(events);
      && (Holding(s.At(t)) && Holding(s.At(u)) ==> t == u)
      && (s.At(t).Requesting? ==> !s.active && s.done.value == 0)
      && !s.failed
  {
    hide LockInv, Run;
    RunsKeepInv(events);
    var s := Run(events);
    OnlyOwnerAsks(s);
    assert Critical(s.At(t)) <==> s.owner == Some(t);
    assert Critical(s.At(u)) <==> s.owner == Some(u);
  }

  /** A call gets past the completion semaphore, and so returns, only after the interrupt of its own request. */
  lemma ReturnsAfterItsOwnInterrupt<Op(!new)>(events: seq<Event<Op>>, t: Tid, k: nat)
    ensures var s := Run(events);
      && (s.At(t) == Leaving(k) || s.At(t) == Releasing(k) ==> k < s.finished <= |s.log| && s.log[k].thread == t)
      && (k in s.returned ==> k < s.finished)
  {
    hide LockInv, Run;
    RunsKeepInv(events);
    var s := Run(events);
    OnlyOwnerAsks(s);
    if s.At(t) == Leaving(k) || s.At(t) == Releasing(k) {
      assert RequestOf(s.At(t)) == Some(k) && Critical(s.At(t));
      assert s.owner == Some(t);
    }
  }

  /** Every request has returned, except the one in flight: none is lost. */
  lemma EveryRequestIsAccountedFor<Op(!new)>(events: seq<Event<Op>>, k: nat)
    requires k < |Run(events).log|
    ensures var s := Run(events);
      k in s.returned || (k == |s.log| - 1 && RequestOf(s.At(s.log[k].thread)) == Some(k))
  {
    RunsKeepInv(events);
    var s := Run(events);
    assert DeviceInv(s);
    hide Inv, LockInv, InFlight, Run;
    var last := s.log[|s.log| - 1].thread;
    assert k == |s.log| - 1 && k !in s.returned ==> RequestOf(s.At(last)).Some?;
  }
}
