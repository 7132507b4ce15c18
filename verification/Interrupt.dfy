/** machine/interrupt.cc: the clock, the list of pending interrupts and the loop that fires those that are due. */
module Interrupts {
  import opened LinkedLists

  const SYSTEM_TICK := 10
  const USER_TICK := 1

  datatype IntType = TimerInt | DiskInt | ConsoleWriteInt | ConsoleReadInt | NetworkSendInt | NetworkRecvInt

  /** An interrupt that is to occur; `id` numbers the calls of Schedule. */
  datatype Pending = Pending(id: nat, when: int, kind: IntType)

  /** A call of Schedule; its delay is positive, as Schedule asserts. */
  type Delay = d: int | d > 0 witness 1
  datatype Request = Request(fromNow: Delay, kind: IntType)

  /** What the handler of an interrupt schedules when it is called. */
  type Handlers = Pending -> seq<Request>

  function PendingCompare(x: Pending, y: Pending): (c: int) {
    if x.when < y.when then -1 else if x.when > y.when then 1 else 0
  }

  /** Simulated time and the interrupts to come; `log` are those that have fired, in order. */
  datatype Clock = Clock(
    pending: seq<Pending>, log: seq<Pending>, nextId: nat, total: int, idle: int, system: int, user: int)

  const START := Clock([], [], 0, 0, 0, 0, 0)

  // ---------------------------------------------------------------- what the operations do to the clock

  function Scheduled(c: Clock, r: Request): (c': Clock) {
    var x := Pending(c.nextId, c.total + r.fromNow, r.kind);
    c.(pending := Inserted(c.pending, x, PendingCompare), nextId := c.nextId + 1)
  }

  function ScheduledAll(c: Clock, rs: seq<Request>): (c': Clock)
    ensures c' == c.(pending := c'.pending, nextId := c'.nextId)
  {
    if rs == [] then c else Scheduled(ScheduledAll(c, rs[..|rs| - 1]), rs[|rs| - 1])
  }

  /** The first pending interrupt fires and its handler runs. */
  function FireOne(c: Clock, handlers: Handlers): (c': Clock)
    requires c.pending != []
  {
    var next := c.pending[0];
    ScheduledAll(c.(pending := c.pending[1..], log := c.log + [next]), handlers(next))
  }

  lemma FireOneIs(c: Clock, handlers: Handlers)
    requires c.pending != []
    ensures var popped := c.(pending := c.pending[1..], log := c.log + [c.pending[0]]);
      FireOne(c, handlers) == ScheduledAll(popped, handlers(c.pending[0]))
  {
  }

  predicate IsDue(c: Clock) {
    c.pending != [] && c.pending[0].when <= c.total
  }

  /** The number of pending interrupts that are due at a time. */
  function DueCount(ps: seq<Pending>, now: int): (n: nat) {
    if ps == [] then 0 else DueCount(ps[1..], now) + if ps[0].when <= now then 1 else 0
  }

  /** The firing loop. */
  function FireDue(c: Clock, handlers: Handlers): (c': Clock)
    decreases DueCount(c.pending, c.total)
  {
    if !IsDue(c) then c
    else
      FireOneLowersDue(c, handlers);
      FireDue(FireOne(c, handlers), handlers)
  }

  /** The clock moves on to the first pending interrupt; the machine is idle meanwhile. */
  function SkipAhead(c: Clock): (c': Clock) {
    if c.pending == [] || c.pending[0].when <= c.total then c
    else c.(idle := c.idle + (c.pending[0].when - c.total), total := c.pending[0].when)
  }

  datatype Event = Schedule(r: Request) | SystemMode | UserMode | IdleMode

  function Ticked(c: Clock, ticks: int, inSystem: bool): (c': Clock) {
    if inSystem then c.(total := c.total + ticks, system := c.system + ticks)
    else c.(total := c.total + ticks, user := c.user + ticks)
  }

  function Step(c: Clock, e: Event, handlers: Handlers): (c': Clock) {
    match e
    case Schedule(r) => Scheduled(c, r)
    case SystemMode => FireDue(Ticked(c, SYSTEM_TICK, true), handlers)
    case UserMode => FireDue(Ticked(c, USER_TICK, false), handlers)
    case IdleMode => FireDue(SkipAhead(c), handlers)
  }

  function Run(events: seq<Event>, handlers: Handlers): (c: Clock) {
    if events == [] then START else Step(Run(events[..|events| - 1], handlers), events[|events| - 1], handlers)
  }

  // ---------------------------------------------------------------- why the loop ends

  lemma {:induction false} DueCountInsert(ps: seq<Pending>, k: nat, x: Pending, now: int)
    requires k <= |ps|
    ensures DueCount(ps[..k] + [x] + ps[k..], now) == DueCount(ps, now) + if x.when <= now then 1 else 0
  {
    var r := ps[..k] + [x] + ps[k..];
    if k == 0 {
      assert r[1..] == ps;
    } else {
      assert r[1..] == ps[1..][..k - 1] + [x] + ps[1..][k - 1..];
      DueCountInsert(ps[1..], k - 1, x, now);
    }
  }

  /** Whatever a handler schedules is not due yet. */
  lemma {:induction false} SchedulingAddsNothingDue(c: Clock, rs: seq<Request>)
    ensures DueCount(ScheduledAll(c, rs).pending, c.total) == DueCount(c.pending, c.total)
  {
    if rs != [] {
      var before := ScheduledAll(c, rs[..|rs| - 1]);
      SchedulingAddsNothingDue(c, rs[..|rs| - 1]);
      var r := rs[|rs| - 1];
      var x := Pending(before.nextId, before.total + r.fromNow, r.kind);
      DueCountInsert(before.pending, Place(before.pending, x, PendingCompare), x, c.total);
    }
  }

  lemma FireOneLowersDue(c: Clock, handlers: Handlers)
    requires IsDue(c)
    ensures DueCount(FireOne(c, handlers).pending, FireOne(c, handlers).total) < DueCount(c.pending, c.total)
  {
    SchedulingAddsNothingDue(c.(pending := c.pending[1..], log := c.log + [c.pending[0]]), handlers(c.pending[0]));
  }

  // ---------------------------------------------------------------- the order of firing

  /** By time, then in the order of scheduling. */
  predicate Before(x: Pending, y: Pending) {
    x.when < y.when || (x.when == y.when && x.id < y.id)
  }

  ghost predicate Ordered(ps: seq<Pending>) {
    forall i, j :: 0 <= i < j < |ps| ==> Before(ps[i], ps[j])
  }

  /** What every operation keeps: the fired interrupts followed by the pending ones are in order, nothing fired early,
      and all time is accounted for. */
  ghost predicate Inv(c: Clock) {
    && Ordered(c.log + c.pending)
    && (forall x :: x in c.log ==> x.when <= c.total)
    && (forall x :: x in c.log + c.pending ==> x.id < c.nextId)
    && c.total == c.idle + c.system + c.user
  }

  ghost predicate AllFuture(c: Clock) {
    forall x :: x in c.pending ==> x.when > c.total
  }

  lemma PlacedPair(ps: seq<Pending>, x: Pending, i: nat, j: nat)
    requires Ordered(ps) && (forall y :: y in ps ==> y.id < x.id) && i < j <= |ps|
    ensures Before(Inserted(ps, x, PendingCompare)[i], Inserted(ps, x, PendingCompare)[j])
  {
    var k := Place(ps, x, PendingCompare);
    if i == k {
      assert j - 1 > k ==> Before(ps[k], ps[j - 1]);
    } else if j == k {
      assert ps[i] in ps;
    }
  }

  lemma InsertedMembers(ps: seq<Pending>, x: Pending)
    ensures forall y :: y in Inserted(ps, x, PendingCompare) <==> y in ps || y == x
  {
    var k := Place(ps, x, PendingCompare);
    assert ps == ps[..k] + ps[k..];
  }

  lemma PlacedInOrder(ps: seq<Pending>, x: Pending)
    requires Ordered(ps) && forall y :: y in ps ==> y.id < x.id
    ensures Ordered(Inserted(ps, x, PendingCompare))
    ensures forall y :: y in Inserted(ps, x, PendingCompare) <==> y in ps || y == x
  {
    hide Inserted;
    var r := Inserted(ps, x, PendingCompare);
    forall i, j | 0 <= i < j < |r|
      ensures Before(r[i], r[j])
    {
      PlacedPair(ps, x, i, j);
    }
    InsertedMembers(ps, x);
  }

  lemma OrderedJoin(log: seq<Pending>, ps: seq<Pending>)
    ensures Ordered(log + ps) <==>
      Ordered(log) && Ordered(ps) && forall i, j :: 0 <= i < |log| && 0 <= j < |ps| ==> Before(log[i], ps[j])
  {
    var r := log + ps;
    if Ordered(r) {
      forall i, j | 0 <= i < |log| && 0 <= j < |ps|
        ensures Before(log[i], ps[j])
      {
        assert r[i] == log[i] && r[|log| + j] == ps[j];
      }
      forall i, j | 0 <= i < j < |log|
        ensures Before(log[i], log[j])
      {
        assert r[i] == log[i] && r[j] == log[j];
      }
      forall i, j | 0 <= i < j < |ps|
        ensures Before(ps[i], ps[j])
      {
        assert r[|log| + i] == ps[i] && r[|log| + j] == ps[j];
      }
    }
  }

  lemma ScheduledKeepsInv(c: Clock, r: Request)
    requires Inv(c)
    ensures Inv(Scheduled(c, r))
    ensures forall x :: x in Scheduled(c, r).pending <==>
      x in c.pending || x == Pending(c.nextId, c.total + r.fromNow, r.kind)
  {
    var x := Pending(c.nextId, c.total + r.fromNow, r.kind);
    var c' := Scheduled(c, r);
    OrderedJoin(c.log, c.pending);
    PlacedInOrder(c.pending, x);
    hide Ordered;
    forall i, j | 0 <= i < |c.log| && 0 <= j < |c'.pending|
      ensures Before(c.log[i], c'.pending[j])
    {
      assert c'.pending[j] in c'.pending && c.log[i] in c.log;
      if c'.pending[j] != x {
        var k :| 0 <= k < |c.pending| && c.pending[k] == c'.pending[j];
      }
    }
    OrderedJoin(c.log, c'.pending);
  }

  lemma {:induction false} ScheduledAllKeepsInv(c: Clock, rs: seq<Request>)
    requires Inv(c)
    ensures var c' := ScheduledAll(c, rs);
      Inv(c') && c.nextId <= c'.nextId && (forall x :: x in c.pending ==> x in c'.pending)
      && forall x :: x in c'.pending && x !in c.pending ==> x.when > c.total && x.id >= c.nextId
  {
    hide Inv, Scheduled;
    if rs != [] {
      ScheduledAllKeepsInv(c, rs[..|rs| - 1]);
      var m := ScheduledAll(c, rs[..|rs| - 1]);
      ScheduledKeepsInv(m, rs[|rs| - 1]);
      assert Scheduled(m, rs[|rs| - 1]).nextId == m.nextId + 1 by { OneMoreId(m, rs[|rs| - 1]); }
    }
  }

  lemma OneMoreId(c: Clock, r: Request)
    ensures Scheduled(c, r).nextId == c.nextId + 1
  {
  }

  lemma FireOneKeepsInv(c: Clock, handlers: Handlers)
    requires Inv(c) && IsDue(c)
    ensures Inv(FireOne(c, handlers))
  {
    var popped := c.(pending := c.pending[1..], log := c.log + [c.pending[0]]);
    assert popped.log + popped.pending == c.log + c.pending;
    ScheduledAllKeepsInv(popped, handlers(c.pending[0]));
  }

  /** The loop leaves only interrupts that are strictly in the future. */
  lemma {:induction false} FireDueKeepsInv(c: Clock, handlers: Handlers)
    requires Inv(c)
    ensures Inv(FireDue(c, handlers)) && AllFuture(FireDue(c, handlers)) && FireDue(c, handlers).total == c.total
    decreases DueCount(c.pending, c.total)
  {
    if IsDue(c) {
      hide Inv, AllFuture, DueCount;
      FireOneLowersDue(c, handlers);
      FireOneKeepsInv(c, handlers);
      FireDueKeepsInv(FireOne(c, handlers), handlers);
    } else {
      OrderedJoin(c.log, c.pending);
      forall x | x in c.pending
        ensures x.when > c.total
      {
        var i :| 0 <= i < |c.pending| && c.pending[i] == x;
        assert i > 0 ==> Before(c.pending[0], x);
      }
    }
  }

  lemma StepKeepsInv(c: Clock, e: Event, handlers: Handlers)
    requires Inv(c) && AllFuture(c)
    ensures Inv(Step(c, e, handlers)) && AllFuture(Step(c, e, handlers)) && Step(c, e, handlers).total >= c.total
  {
    match e
    case Schedule(r) => ScheduledKeepsInv(c, r);
    case SystemMode => FireDueKeepsInv(Ticked(c, SYSTEM_TICK, true), handlers);
    case UserMode => FireDueKeepsInv(Ticked(c, USER_TICK, false), handlers);
    case IdleMode => FireDueKeepsInv(SkipAhead(c), handlers);
  }

  lemma {:induction false} RunsKeepInv(events: seq<Event>, handlers: Handlers)
    ensures Inv(Run(events, handlers)) && AllFuture(Run(events, handlers))
  {
    if events != [] {
      hide Inv, AllFuture, Step;
      RunsKeepInv(events[..|events| - 1], handlers);
      StepKeepsInv(Run(events[..|events| - 1], handlers), events[|events| - 1], handlers);
    }
  }

  // ---------------------------------------------------------------- what fires

  /** In a list that is in order, the due interrupts are those in front. */
  lemma {:induction false} DueInFront(ps: seq<Pending>, now: int)
    requires Ordered(ps)
    ensures DueCount(ps, now) <= |ps|
    ensures forall i :: 0 <= i < |ps| ==> (ps[i].when <= now <==> i < DueCount(ps, now))
  {
    if ps != [] {
      assert Ordered(ps[1..]) by { assert forall i :: 0 <= i < |ps| - 1 ==> ps[1..][i] == ps[i + 1]; }
      DueInFront(ps[1..], now);
      forall i | 0 <= i < |ps|
        ensures ps[i].when <= now <==> i < DueCount(ps, now)
      {
        if i > 0 {
          assert ps[i] == ps[1..][i - 1] && Before(ps[0], ps[i]);
          assert ps[1..][0] == ps[1];
        } else if |ps| > 1 {
          assert ps[1..][0] == ps[1] && Before(ps[0], ps[1]);
        }
      }
    }
  }

  lemma InsertedBehind(ps: seq<Pending>, x: Pending, k: nat)
    requires k <= |ps| && forall i :: 0 <= i < k ==> ps[i].when < x.when
    ensures Inserted(ps, x, PendingCompare)[..k] == ps[..k]
  {
    assert Place(ps, x, PendingCompare) >= k;
  }

  /** What is scheduled meanwhile stays behind everything that is due. */
  lemma {:induction false} ScheduledBehind(c: Clock, rs: seq<Request>, k: nat)
    requires k <= |c.pending| && forall i :: 0 <= i < k ==> c.pending[i].when <= c.total
    ensures var c' := ScheduledAll(c, rs); k <= |c'.pending| && c'.pending[..k] == c.pending[..k]
  {
    if rs != [] {
      ScheduledBehind(c, rs[..|rs| - 1], k);
      var m, r := ScheduledAll(c, rs[..|rs| - 1]), rs[|rs| - 1];
      hide Inserted;
      forall i | 0 <= i < k
        ensures m.pending[i] == c.pending[i]
      {
        assert m.pending[..k][i] == c.pending[..k][i];
      }
      InsertedBehind(m.pending, Pending(m.nextId, m.total + r.fromNow, r.kind), k);
    }
  }

  lemma FireOneAhead(c: Clock, handlers: Handlers, k: nat)
    requires 0 < k <= |c.pending| && forall i :: 0 <= i < k ==> c.pending[i].when <= c.total
    ensures var m := FireOne(c, handlers);
      && m.log == c.log + [c.pending[0]] && m.total == c.total
      && k - 1 <= |m.pending| && m.pending[..k - 1] == c.pending[1..k]
  {
    hide ScheduledAll;
    ScheduledBehind(c.(pending := c.pending[1..], log := c.log + [c.pending[0]]), handlers(c.pending[0]), k - 1);
    assert c.pending[1..k] == c.pending[1..][..k - 1];
  }

  lemma FireOneCount(c: Clock, handlers: Handlers)
    requires IsDue(c)
    ensures var m := FireOne(c, handlers);
      m.total == c.total && DueCount(m.pending, m.total) == DueCount(c.pending, c.total) - 1
  {
    SchedulingAddsNothingDue(c.(pending := c.pending[1..], log := c.log + [c.pending[0]]), handlers(c.pending[0]));
  }

  lemma JoinPrefix(log: seq<Pending>, ps: seq<Pending>, k: nat)
    requires 0 < k <= |ps|
    ensures (log + [ps[0]]) + ps[1..k] == log + ps[..k]
  {
  }

  /** The loop fires exactly the interrupts that were due when it started, in order, whatever their handlers do. */
  lemma {:induction false} FiresExactlyTheDue(c: Clock, handlers: Handlers)
    requires Inv(c)
    ensures var k := DueCount(c.pending, c.total);
      k <= |c.pending| && FireDue(c, handlers).log == c.log + c.pending[..k]
    decreases DueCount(c.pending, c.total)
  {
    OrderedJoin(c.log, c.pending);
    DueInFront(c.pending, c.total);
    var k := DueCount(c.pending, c.total);
    if IsDue(c) {
      FireOneCount(c, handlers);
      FireOneAhead(c, handlers, k);
      FireOneKeepsInv(c, handlers);
      hide *;
      FiresExactlyTheDue(FireOne(c, handlers), handlers);
      JoinPrefix(c.log, c.pending, k);
    } else {
      assert c.log + c.pending[..0] == c.log;
    }
  }

  /** Over a whole run: interrupts fire in the order of their times, those of equal times in the order in which they
      were scheduled, none of them early; afterwards all that is pending is in the future; no tick is lost. */
  lemma FiringOrder(events: seq<Event>, handlers: Handlers, i: nat, j: nat)
    requires i < j < |Run(events, handlers).log|
    ensures var c := Run(events, handlers);
      && c.log[i].when <= c.log[j].when <= c.total
      && (c.log[i].when == c.log[j].when ==> c.log[i].id < c.log[j].id)
      && (forall x :: x in c.pending ==> c.total < x.when)
      && c.total == c.idle + c.system + c.user
  {
    RunsKeepInv(events, handlers);
    var c := Run(events, handlers);
    assert c.log[i] == (c.log + c.pending)[i] && c.log[j] == (c.log + c.pending)[j];
    assert c.log[j] in c.log;
  }

  // ---------------------------------------------------------------- the machine

  datatype IntStatus = IntOff | IntOn
  datatype MachineStatus = InIdle | InSystem | InUser

  /** One of the interrupts that fired from position `from` of the log on has asked for a context switch. */
  ghost predicate Asked(log: seq<Pending>, from: nat, wantsYield: Pending -> bool) {
    exists i :: from <= i < |log| && wantsYield(log[i])
  }

  lemma AskedMore(log: seq<Pending>, from: nat, x: Pending, wantsYield: Pending -> bool)
    requires from <= |log|
    ensures Asked(log + [x], from, wantsYield) <==> Asked(log, from, wantsYield) || wantsYield(x)
  {
    if i :| from <= i < |log| && wantsYield(log[i]) {
      assert (log + [x])[i] == log[i];
    }
    if wantsYield(x) {
      assert (log + [x])[|log|] == x;
    }
  }

  /** `wantsYield` says which handlers call YieldOnReturn; `flushes` counts the calls of DelayedLoad(0, 0), which
      complete the load that the interrupted program had in progress. */
  class Interrupt {
    const handlers: Handlers
    const wantsYield: Pending -> bool
    var level: IntStatus
    var inHandler: bool
    var yieldOnReturn: bool
    var flushes: nat
    var status: MachineStatus
    var pending: seq<Pending>
    var nextId: nat
    var totalTicks: int
    var idleTicks: int
    var systemTicks: int
    var userTicks: int
    ghost var log: seq<Pending>

    ghost function View(): (c: Clock)
      reads this
    {
      Clock(pending, log, nextId, totalTicks, idleTicks, systemTicks, userTicks)
    }

    constructor (devices: Handlers, yielders: Pending -> bool)
      ensures handlers == devices && wantsYield == yielders && flushes == 0 && View() == START
      ensures level == IntOff && !inHandler && !yieldOnReturn && status == InSystem
    {
      handlers, wantsYield := devices, yielders;
      level, inHandler, yieldOnReturn, status, flushes := IntOff, false, false, InSystem, 0;
      pending, nextId, log := [], 0, [];
      totalTicks, idleTicks, systemTicks, userTicks := 0, 0, 0, 0;
    }

    method Schedule(fromNow: Delay, kind: IntType)
      modifies this`pending, this`nextId
      ensures View() == Scheduled(old(View()), Request(fromNow, kind))
    {
      hide Inserted;
      pending := Inserted(pending, Pending(nextId, totalTicks + fromNow, kind), PendingCompare);
      nextId := nextId + 1;
    }

    /** The CallBack of a device. */
    method CallBack(next: Pending)
      requires inHandler
      modifies this`pending, this`nextId, this`yieldOnReturn
      ensures View() == ScheduledAll(old(View()), handlers(next))
      ensures yieldOnReturn == (old(yieldOnReturn) || wantsYield(next))
    {
      if wantsYield(next) {
        YieldOnReturn();
      }
      var rs := handlers(next);
      for k := 0 to |rs|
        invariant View() == ScheduledAll(old(View()), rs[..k])
        invariant yieldOnReturn == (old(yieldOnReturn) || wantsYield(next))
      {
        assert rs[..k + 1][..k] == rs[..k];
        Schedule(rs[k].fromNow, rs[k].kind);
      }
      assert rs[..|rs|] == rs;
    }

    method YieldOnReturn()
      requires inHandler
      modifies this`yieldOnReturn
      ensures yieldOnReturn
    {
      yieldOnReturn := true;
    }

    method CheckIfDue(advanceClock: bool) returns (fired: bool)
      requires level == IntOff
      modifies this`pending, this`nextId, this`log, this`totalTicks, this`idleTicks, this`inHandler
      modifies this`yieldOnReturn, this`flushes
      ensures View() == FireDue(if advanceClock then SkipAhead(old(View())) else old(View()), handlers)
      ensures fired <==> old(pending) != [] && (old(pending)[0].when <= old(totalTicks) || advanceClock)
      ensures inHandler == (if fired then false else old(inHandler))
      ensures flushes == old(flushes) + if fired then 1 else 0
      ensures old(log) <= log && yieldOnReturn == (old(yieldOnReturn) || Asked(log, |old(log)|, wantsYield))
    {
      if pending == [] {
        return false;
      }
      hide DueCount;
      var next := pending[0];
      if next.when > totalTicks {
        if !advanceClock {
          return false;
        }
        idleTicks := idleTicks + (next.when - totalTicks);
        totalTicks := next.when;
      }
      hide FireDue, DueCount, Asked;
      flushes := flushes + 1;
      inHandler := true;
      FireLoop();
      inHandler := false;
      fired := true;
    }

    /** The do-while loop: at least one interrupt is due. */
    method FireLoop()
      requires IsDue(View()) && inHandler
      modifies this`pending, this`nextId, this`log, this`yieldOnReturn
      ensures View() == FireDue(old(View()), handlers)
      ensures old(log) <= log && yieldOnReturn == (old(yieldOnReturn) || Asked(log, |old(log)|, wantsYield))
    {
      hide FireOne, DueCount;
      ghost var start := View();
      assert !Asked(log, |log|, wantsYield);
      hide Asked;
      var more := true;
      while more
        invariant more <==> IsDue(View())
        invariant FireDue(View(), handlers) == FireDue(start, handlers)
        invariant old(log) <= log && yieldOnReturn == (old(yieldOnReturn) || Asked(log, |old(log)|, wantsYield))
        decreases DueCount(pending, totalTicks)
      {
        ghost var before := View();
        FireOneLowersDue(before, handlers);
        FireOneIs(before, handlers);
        var next := pending[0];
        AskedMore(log, |old(log)|, next, wantsYield);
        pending := pending[1..];
        log := log + [next];
        CallBack(next);
        assert View() == FireOne(before, handlers);
        more := pending != [] && pending[0].when <= totalTicks;
      }
    }

    /** `switches` says that the current thread now calls Yield, because a handler asked for it. */
    method OneTick() returns (switches: bool)
      requires level == IntOn && !inHandler
      modifies this
      ensures level == IntOn && !inHandler && status == old(status) && !yieldOnReturn
      ensures old(log) <= log && switches == (old(yieldOnReturn) || Asked(log, |old(log)|, wantsYield))
      ensures View() == Step(old(View()), if old(status) == InSystem then SystemMode else UserMode, handlers)
    {
      if status == InSystem {
        totalTicks := totalTicks + SYSTEM_TICK;
        systemTicks := systemTicks + SYSTEM_TICK;
      } else {
        totalTicks := totalTicks + USER_TICK;
        userTicks := userTicks + USER_TICK;
      }
      level := IntOff;
      hide FireDue, Asked;
      var _ := CheckIfDue(false);
      level := IntOn;
      switches := yieldOnReturn;
      if switches {
        yieldOnReturn := false;
      }
    }

    /** Time advances exactly when interrupts are enabled again; handlers may not enable them. */
    method SetLevel(now: IntStatus) returns (was: IntStatus, switches: bool)
      requires now == IntOff || !inHandler
      modifies this
      ensures !(now == IntOn && was == IntOff) ==> !switches && yieldOnReturn == old(yieldOnReturn)
      ensures now == IntOn && was == IntOff ==>
        !yieldOnReturn && old(log) <= log && switches == (old(yieldOnReturn) || Asked(log, |old(log)|, wantsYield))
      ensures was == old(level) && level == now && inHandler == old(inHandler) && status == old(status)
      ensures View() == if now == IntOn && was == IntOff
        then Step(old(View()), if old(status) == InSystem then SystemMode else UserMode, handlers) else old(View())
    {
      hide Asked, Step;
      was, switches := level, false;
      level := now;
      if now == IntOn && was == IntOff {
        switches := OneTick();
      }
    }

    /** Returns once an interrupt has occurred; if none is pending the machine halts. */
    method Idle() returns (halts: bool)
      requires level == IntOff && !inHandler
      modifies this
      ensures halts <==> old(pending) == []
      ensures level == IntOff && !inHandler && View() == Step(old(View()), IdleMode, handlers)
      ensures status == if halts then InIdle else InSystem
    {
      status := InIdle;
      var fired := CheckIfDue(true);
      if fired {
        status := InSystem;
        return false;
      }
      return true;
    }
  }
}
