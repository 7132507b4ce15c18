/** threads/scheduler.cc and threads/thread.cc: one CPU, a first-in first-out ready list, and threads that block on
    queues. All of this code runs with interrupts off, so each operation is atomic up to the context switch or to the
    idle loop of Sleep, during which interrupt handlers may make threads ready. */
module Schedulers {
  import opened Sequences
  import opened Semaphores

  type QueueId = int

  datatype Status = JustCreated | Running | Ready | Blocked(on: QueueId) | Finishing | Destroyed

  /** What the current thread is doing. */
  datatype Phase =
    | Executing
    | Looking(finishing: bool) // in the loop of Sleep: no longer runnable, but still on its own stack
    | Switched                 // returned from SWITCH, about to call CheckToBeDestroyed

  /** `log` are the threads in the order in which they were dispatched; `failed` says that an ASSERT was violated:
      a second thread to be destroyed, or the destruction of the current thread. */
  datatype State = State(
    current: Tid, phase: Phase, ready: seq<Tid>, queues: map<QueueId, seq<Tid>>, threads: map<Tid, Status>,
    toBeDestroyed: Option<Tid>, log: seq<Tid>, failed: bool)
  {
    function Queue(q: QueueId): (ts: seq<Tid>) {
      if q in queues then queues[q] else []
    }

    function Is(t: Tid, st: Status): (b: bool) {
      t in threads && threads[t] == st
    }
  }

  datatype Event =
    | Create(t: Tid)
    | Fork(t: Tid)
    | Yield
    | Block(q: QueueId)  // P on a semaphore whose value is 0
    | Wake(q: QueueId)   // V, by the current thread or by an interrupt handler
    | Finish
    | Continue           // the loop of Sleep, or the code after SWITCH

  function Init(main: Tid): (s: State) {
    State(main, Executing, [], map[], map[main := Running], None, [], false)
  }

  function ReadyToRun(s: State, t: Tid): (s': State) {
    s.(threads := s.threads[t := Ready], ready := s.ready + [t])
  }

  /** FindNextToRun has taken `next` off the ready list; Run switches to it. */
  function Dispatch(s: State, next: Tid, finishing: bool): (s': State) {
    s.(toBeDestroyed := if finishing then Some(s.current) else s.toBeDestroyed,
       failed := s.failed || (finishing && s.toBeDestroyed.Some?),
       current := next, threads := s.threads[next := Running], phase := Switched, log := s.log + [next])
  }

  function DoYield(s: State): (s': State) {
    if s.ready == [] then s
    else Dispatch(ReadyToRun(s.(ready := s.ready[1..]), s.current), s.ready[0], false)
  }

  function DoBlock(s: State, q: QueueId): (s': State) {
    s.(queues := s.queues[q := s.Queue(q) + [s.current]], threads := s.threads[s.current := Blocked(q)],
       phase := Looking(false))
  }

  function DoWake(s: State, q: QueueId): (s': State) {
    if s.Queue(q) == [] then s
    else ReadyToRun(s.(queues := s.queues[q := s.Queue(q)[1..]]), s.Queue(q)[0])
  }

  function Look(s: State, finishing: bool): (s': State) {
    if s.ready == [] then s // Idle, until an interrupt
    else Dispatch(s.(ready := s.ready[1..]), s.ready[0], finishing)
  }

  function CheckToBeDestroyed(s: State): (s': State) {
    var s1 := s.(phase := Executing);
    if s.toBeDestroyed.None? then s1
    else s1.(threads := s.threads[s.toBeDestroyed.value := Destroyed], toBeDestroyed := None,
             failed := s.failed || s.toBeDestroyed == Some(s.current))
  }

  /** One step; an event that cannot happen in this state changes nothing. */
  function Step(s: State, e: Event): (s': State) {
    match s.phase
    case Executing => (
      match e
      case Create(t) => if t in s.threads then s else s.(threads := s.threads[t := JustCreated])
      case Fork(t) => if s.Is(t, JustCreated) then ReadyToRun(s, t) else s
      case Yield => DoYield(s)
      case Block(q) => DoBlock(s, q)
      case Wake(q) => DoWake(s, q)
      case Finish => s.(threads := s.threads[s.current := Finishing], phase := Looking(true))
      case Continue => s)
    case Looking(finishing) => (
      match e
      case Wake(q) => DoWake(s, q)
      case Continue => Look(s, finishing)
      case _ => s)
    case Switched => if e.Continue? then CheckToBeDestroyed(s) else s
  }

  function RunFrom(s: State, events: seq<Event>): (s': State) {
    if events == [] then s
    else Step(RunFrom(s, events[..|events| - 1]), events[|events| - 1])
  }

  // ---------------------------------------------------------------- places

  datatype Place = OnCpu | InReady | InQueue(q: QueueId)

  /** Where a thread is to be found. */
  predicate IsAt(s: State, t: Tid, p: Place) {
    match p
    case OnCpu => t == s.current && s.phase != Looking(false)
    case InReady => t in s.ready
    case InQueue(q) => t in s.Queue(q)
  }

  /** Started, and not finished for good. */
  predicate Alive(s: State, t: Tid) {
    t in s.threads && match s.threads[t]
    case JustCreated | Destroyed => false
    case Finishing => s.toBeDestroyed != Some(t)
    case _ => true
  }

  /** The place that the status of a thread says. */
  predicate PlaceOk(s: State, t: Tid) {
    if t !in s.threads then t !in s.ready && t != s.current && s.toBeDestroyed != Some(t) else
    match s.threads[t]
    case JustCreated | Destroyed => t !in s.ready && t != s.current && s.toBeDestroyed != Some(t)
    case Running => t !in s.ready && t == s.current && !s.phase.Looking? && s.toBeDestroyed != Some(t)
    case Ready => t in s.ready && (t == s.current ==> s.phase == Looking(false)) && s.toBeDestroyed != Some(t)
    case Blocked(_) => t !in s.ready && (t == s.current ==> s.phase == Looking(false)) && s.toBeDestroyed != Some(t)
    case Finishing =>
      && t !in s.ready
      && (s.phase == Switched ==> t != s.current && s.toBeDestroyed == Some(t))
      && (s.phase != Switched ==> t == s.current && s.phase == Looking(true) && s.toBeDestroyed != Some(t))
  }

  ghost predicate QueueOk(s: State, q: QueueId) {
    Distinct(s.Queue(q)) && forall t :: t in s.Queue(q) <==> s.Is(t, Blocked(q))
  }

  ghost predicate Inv(s: State) {
    && !s.failed
    && Distinct(s.ready)
    && (s.toBeDestroyed.Some? ==> s.phase == Switched)
    && s.current in s.threads
    && (s.phase != Looking(false) ==> s.threads[s.current].Running? || s.threads[s.current].Finishing?)
    && (s.phase == Looking(true) ==> s.threads[s.current].Finishing?)
    && (forall t :: PlaceOk(s, t))
    && (forall q :: QueueOk(s, q))
  }

  // ---------------------------------------------------------------- steps

  lemma ForkKeepsInv(s: State, t: Tid)
    requires Inv(s) && s.phase.Executing? && s.Is(t, JustCreated)
    ensures Inv(ReadyToRun(s, t))
  {
    var s' := ReadyToRun(s, t);
    assert PlaceOk(s, t);
    forall u
      ensures PlaceOk(s', u)
    {
      assert PlaceOk(s, u);
    }
    forall q
      ensures QueueOk(s', q)
    {
      assert QueueOk(s, q);
    }
  }

  lemma CreateKeepsInv(s: State, t: Tid)
    requires Inv(s) && s.phase.Executing? && t !in s.threads
    ensures Inv(s.(threads := s.threads[t := JustCreated]))
  {
    var s' := s.(threads := s.threads[t := JustCreated]);
    forall u
      ensures PlaceOk(s', u)
    {
      assert PlaceOk(s, u);
    }
    forall q
      ensures QueueOk(s', q)
    {
      assert QueueOk(s, q);
    }
  }

  lemma FinishKeepsInv(s: State)
    requires Inv(s) && s.phase.Executing?
    ensures Inv(Step(s, Finish))
  {
    var s' := Step(s, Finish);
    assert PlaceOk(s, s.current);
    forall u
      ensures PlaceOk(s', u)
    {
      assert PlaceOk(s, u);
    }
    forall q
      ensures QueueOk(s', q)
    {
      assert QueueOk(s, q);
    }
  }

  lemma YieldKeepsInv(s: State)
    requires Inv(s) && s.phase.Executing? && s.ready != []
    ensures Inv(DoYield(s))
  {
    var s', next := DoYield(s), s.ready[0];
    assert next in s.ready;
    assert PlaceOk(s, s.current) && PlaceOk(s, next);
    DistinctTail(s.ready);
    hide Distinct;
    forall u
      ensures PlaceOk(s', u)
    {
      assert PlaceOk(s, u);
    }
    forall q
      ensures QueueOk(s', q)
    {
      assert QueueOk(s, q);
    }
  }

  lemma BlockKeepsInv(s: State, q: QueueId)
    requires Inv(s) && s.phase.Executing?
    ensures Inv(DoBlock(s, q))
  {
    var s' := DoBlock(s, q);
    assert PlaceOk(s, s.current) && QueueOk(s, q);
    assert s.current !in s.Queue(q);
    hide Distinct;
    forall u
      ensures PlaceOk(s', u)
    {
      assert PlaceOk(s, u);
    }
    forall r
      ensures QueueOk(s', r)
    {
      assert QueueOk(s, r);
    }
  }

  lemma WakeKeepsInv(s: State, q: QueueId)
    requires Inv(s) && !s.phase.Switched? && s.Queue(q) != []
    ensures Inv(DoWake(s, q))
  {
    var s', t := DoWake(s, q), s.Queue(q)[0];
    assert QueueOk(s, q) && t in s.Queue(q);
    assert PlaceOk(s, t);
    DistinctTail(s.Queue(q));
    hide Distinct;
    forall u
      ensures PlaceOk(s', u)
    {
      assert PlaceOk(s, u);
    }
    forall r
      ensures QueueOk(s', r)
    {
      assert QueueOk(s, r);
    }
  }

  lemma LookKeepsInv(s: State, finishing: bool)
    requires Inv(s) && s.phase == Looking(finishing) && s.ready != []
    ensures Inv(Look(s, finishing))
  {
    var s', next := Look(s, finishing), s.ready[0];
    assert next in s.ready;
    assert PlaceOk(s, s.current) && PlaceOk(s, next);
    DistinctTail(s.ready);
    hide Distinct;
    forall u
      ensures PlaceOk(s', u)
    {
      assert PlaceOk(s, u);
    }
    forall q
      ensures QueueOk(s', q)
    {
      assert QueueOk(s, q);
    }
  }

  lemma CheckKeepsInv(s: State)
    requires Inv(s) && s.phase.Switched?
    ensures Inv(CheckToBeDestroyed(s))
  {
    var s' := CheckToBeDestroyed(s);
    assert PlaceOk(s, s.current);
    if s.toBeDestroyed.Some? {
      assert PlaceOk(s, s.toBeDestroyed.value);
    }
    hide Distinct;
    forall u
      ensures PlaceOk(s', u)
    {
      assert PlaceOk(s, u);
    }
    forall q
      ensures QueueOk(s', q)
    {
      assert QueueOk(s, q);
    }
  }

  lemma StepKeepsInv(s: State, e: Event)
    requires Inv(s)
    ensures Inv(Step(s, e))
  {
    hide Inv, ReadyToRun, DoYield, DoBlock, DoWake, Look, CheckToBeDestroyed;
    if e == Continue {
      match s.phase
      case Executing =>
      case Looking(f) =>
        if s.ready != [] {
          LookKeepsInv(s, f);
        } else {
          NothingReady(s, f);
        }
      case Switched => CheckKeepsInv(s);
    } else if e.Wake? && !s.phase.Switched? {
      if s.Queue(e.q) != [] {
        WakeKeepsInv(s, e.q);
      } else {
        NobodyWaits(s, e.q);
      }
    } else if s.phase.Executing? {
      match e
      case Create(t) =>
        if t !in s.threads {
          CreateKeepsInv(s, t);
        }
      case Fork(t) =>
        if s.Is(t, JustCreated) {
          ForkKeepsInv(s, t);
        }
      case Yield =>
        if s.ready != [] {
          YieldKeepsInv(s);
        } else {
          NoYield(s);
        }
      case Block(q) => BlockKeepsInv(s, q);
      case Finish => FinishKeepsInv(s);
      case _ =>
    }
  }

  lemma NothingReady(s: State, finishing: bool)
    requires s.ready == []
    ensures Look(s, finishing) == s
  {
  }

  lemma NobodyWaits(s: State, q: QueueId)
    requires s.Queue(q) == []
    ensures DoWake(s, q) == s
  {
  }

  lemma NoYield(s: State)
    requires s.ready == []
    ensures DoYield(s) == s
  {
  }

  // ---------------------------------------------------------------- every run

  lemma {:induction false} RunsKeepInv(main: Tid, events: seq<Event>)
    ensures Inv(RunFrom(Init(main), events))
  {
    hide Step;
    if events == [] {
      InitInv(main);
    } else {
      RunsKeepInv(main, events[..|events| - 1]);
      StepKeepsInv(RunFrom(Init(main), events[..|events| - 1]), events[|events| - 1]);
    }
  }

  lemma InitInv(main: Tid)
    ensures Inv(Init(main))
  {
    var s := Init(main);
    forall t
      ensures PlaceOk(s, t)
    {
    }
    forall q
      ensures QueueOk(s, q)
    {
    }
  }

  /** Every live started thread is in exactly one place, in it only once; no other thread is in any place. */
  lemma ExactlyOnePlace(main: Tid, events: seq<Event>, t: Tid)
    ensures var s := RunFrom(Init(main), events);
      && (Alive(s, t) <==> exists p :: IsAt(s, t, p))
      && (forall p, r :: IsAt(s, t, p) && IsAt(s, t, r) ==> p == r)
      && Distinct(s.ready) && forall q :: Distinct(s.Queue(q))
  {
    RunsKeepInv(main, events);
    var s := RunFrom(Init(main), events);
    hide RunFrom, Init;
    assert PlaceOk(s, t);
    forall q
      ensures Distinct(s.Queue(q)) && (t in s.Queue(q) <==> s.Is(t, Blocked(q)))
    {
      assert QueueOk(s, q);
    }
    hide Distinct;
    forall p, r | IsAt(s, t, p) && IsAt(s, t, r)
      ensures p == r
    {
    }
    if Alive(s, t) {
      match s.threads[t]
      case Ready => assert IsAt(s, t, InReady);
      case Blocked(q) => assert IsAt(s, t, InQueue(q));
      case Running => assert IsAt(s, t, OnCpu);
      case Finishing => assert IsAt(s, t, OnCpu);
      case JustCreated | Destroyed =>
    }
    if p :| IsAt(s, t, p) {
      assert Alive(s, t);
    }
  }

  /** A finishing thread always finds toBeDestroyed empty, whoever is destroyed is not the current thread, and no
      thread executes while another waits to be destroyed. */
  lemma FinishingFindsRoom(main: Tid, events: seq<Event>)
    ensures var s := RunFrom(Init(main), events);
      && !s.failed
      && (s.phase != Switched ==> s.toBeDestroyed == None)
      && s.toBeDestroyed != Some(s.current)
  {
    RunsKeepInv(main, events);
    var s := RunFrom(Init(main), events);
    assert PlaceOk(s, s.current);
  }

  /** What has been dispatched followed by what is ready is a queue that only grows at its end. */
  lemma {:induction false} DispatchIsFifo(s: State, events: seq<Event>)
    ensures s.log + s.ready <= RunFrom(s, events).log + RunFrom(s, events).ready
  {
    if events != [] {
      var before := events[..|events| - 1];
      DispatchIsFifo(s, before);
      var m := RunFrom(s, before);
      hide RunFrom;
      StepIsFifo(m, events[|events| - 1]);
    }
  }

  lemma StepIsFifo(s: State, e: Event)
    ensures s.log + s.ready <= Step(s, e).log + Step(s, e).ready
  {
    var s' := Step(s, e);
    if s'.log != s.log {
      assert s.log + s.ready == s'.log + s.ready[1..];
    }
  }

  /** A thread with k others ahead of it on the ready list is dispatched after exactly k other dispatches. */
  lemma DispatchedAfterExactlyKOthers(s: State, events: seq<Event>, k: nat)
    requires k < |s.ready|
    ensures var s' := RunFrom(s, events);
      && s.log <= s'.log
      && (|s'.log| > |s.log| + k ==> s'.log[|s.log| + k] == s.ready[k])
      && (|s'.log| <= |s.log| + k ==>
            k - (|s'.log| - |s.log|) < |s'.ready| && s'.ready[k - (|s'.log| - |s.log|)] == s.ready[k])
  {
    DispatchIsFifo(s, events);
    LogGrows(s, events);
    var s' := RunFrom(s, events);
    hide RunFrom;
    assert (s.log + s.ready)[|s.log| + k] == (s'.log + s'.ready)[|s.log| + k];
  }

  lemma {:induction false} LogGrows(s: State, events: seq<Event>)
    ensures s.log <= RunFrom(s, events).log
  {
    if events != [] {
      LogGrows(s, events[..|events| - 1]);
      var m := RunFrom(s, events[..|events| - 1]);
      assert m.log <= Step(m, events[|events| - 1]).log;
    }
  }
}
