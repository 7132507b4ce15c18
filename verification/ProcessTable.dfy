/** threads/ptable.cc and threads/pcb.cc: processes are started, joined and ended through a table of ten slots; the
    two semaphores in a slot make parent and child meet. A step is a stretch of one process's kernel code inside
    which the source cannot be preempted, or less. The value of a PCB's third semaphore, multex, is not modelled: a
    process may pass it at any time, which allows all that the source allows and more. Each P and V on it is a step
    that touches the PCB it belongs to. */
module ProcessTables {
  import opened Sequences
  import opened Semaphores
  import opened Bitmaps

  const MAX_PROCESS := 10

  /** Numbers every process ever started; a process id, which is a slot of the table, is used again. */
  type Proc = nat

  datatype PC =
    | Unborn                          // the thread has not been forked yet
    | Running                         // user code
    | ExecTest(valid: bool)           // about to test bmsem; `valid` says whether the name passes the checks
    | ExecAsleep(valid: bool)         // asleep on bmsem
    | ExecAlloc(valid: bool)          // inside bmsem
    | ExecLock(child: Proc)           // the slot is taken and the PCB made, about to pass the PCB's multex
    | ExecFork(child: Proc)           // about to fork the child's thread
    | ExecUnlock(child: Proc)         // the child can run, about to post its multex
    | ExecEnd(result: int)            // about to post bmsem
    | JoinCheck(child: Proc)          // about to check the child's parentID and to pass the own multex
    | JoinInc(child: Proc)            // IncNumWait: about to post the own multex
    | JoinTest(child: Proc)           // about to test joinsem
    | JoinAsleep(child: Proc)
    | JoinRead(child: Proc)           // about to read the exit code
    | JoinRelease(child: Proc, code: int) // about to post exitsem
    | ExitStore(code: int)
    | ExitDec                         // DecNumWait: about to pass the parent's multex
    | ExitDecEnd                      // about to post the parent's multex
    | ExitPost                        // about to post joinsem
    | ExitTest                        // about to test exitsem
    | ExitAsleep
    | Removing                        // about to clear the slot and delete the PCB
    | Gone

  /** `live` is false before the PCB has been made and after it has been deleted. */
  datatype PCB = PCB(live: bool, owner: Proc, parentID: int, exitcode: int, joinsem: Semaphore, exitsem: Semaphore)

  /** `children` are the processes it has started and not joined yet; `code` is what it passed to Exit. */
  datatype Process = Process(slot: nat, parent: Proc, pc: PC, children: set<Proc>, code: Option<int>)

  /** `failed` says that a PCB was touched that is not there, that Join refused, or that Exit found no such id;
      `joined` lists what the calls of Join returned. */
  datatype State = State(
    slots: seq<bool>, table: seq<PCB>, bmsem: Semaphore, owner: Option<Proc>,
    procs: seq<Process>, joined: seq<(Proc, int)>, halted: bool, failed: bool)
  {
    ghost predicate Shape() {
      && |slots| == |table| == MAX_PROCESS && |procs| > 0
      && forall p :: 0 <= p < |procs| ==>
           procs[p].slot < MAX_PROCESS && (procs[p].parent < p || p == 0 == procs[p].parent)
    }

    function Goto(p: Proc, pc: PC): (s: State)
      requires p < |procs|
    {
      this.(procs := procs[p := procs[p].(pc := pc)])
    }

    /** The first thread on a semaphore's queue becomes ready to test it again. */
    function Wake(front: Option<Tid>): (s: State) {
      if front.None? || !(0 <= front.value < |procs|) then this else
      match procs[front.value].pc
      case ExecAsleep(v) => Goto(front.value, ExecTest(v))
      case JoinAsleep(c) => Goto(front.value, JoinTest(c))
      case ExitAsleep => Goto(front.value, ExitTest)
      case _ => this
    }
  }

  datatype Event =
    | CallExec(p: Proc, valid: bool)
    | CallJoin(p: Proc, child: Proc)
    | CallExit(p: Proc, code: int)
    | Continue(p: Proc)

  const NO_PCB := PCB(false, 0, -1, 0, Semaphore(0, []), Semaphore(0, []))

  function NewPCB(owner: Proc, parentID: int): (b: PCB) {
    PCB(true, owner, parentID, 0, Semaphore(0, []), Semaphore(0, []))
  }

  function Init(): (s: State)
    ensures s.Shape()
  {
    State([true] + seq(9, i => false), [NewPCB(0, -1)] + seq(9, i => NO_PCB), Semaphore(1, []), None,
          [Process(0, 0, Running, {}, None)], [], false, false)
  }

  // ---------------------------------------------------------------- Exec

  function TestExec(s: State, p: Proc, valid: bool): (s': State)
    requires p < |s.procs|
  {
    var (sem, passed) := TryP(s.bmsem, p);
    if passed then s.(bmsem := sem, owner := Some(p)).Goto(p, ExecAlloc(valid))
    else s.(bmsem := sem).Goto(p, ExecAsleep(valid))
  }

  function Alloc(s: State, p: Proc, valid: bool): (s': State)
    requires p < |s.procs| && |s.slots| == |s.table|
  {
    var i := FirstClear(s.slots);
    if !valid || i < 0 then s.Goto(p, ExecEnd(-1)) else
    var c := |s.procs|;
    var me := s.procs[p].(children := s.procs[p].children + {c}, pc := ExecLock(c));
    s.(slots := s.slots[i := true], table := s.table[i := NewPCB(c, s.procs[p].slot)],
       procs := s.procs[p := me] + [Process(i, p, Unborn, {}, None)])
  }

  /** PCB::Exec: P on the new PCB's multex. */
  function Lock(s: State, p: Proc, c: Proc): (s': State)
    requires p < |s.procs|
  {
    if c < |s.procs| && Usable(s, s.procs[c].slot) then s.Goto(p, ExecFork(c)) else s.(failed := true)
  }

  function Fork(s: State, p: Proc, c: Proc): (s': State)
    requires p < |s.procs|
  {
    if c >= |s.procs| then s else s.Goto(c, Running).Goto(p, ExecUnlock(c))
  }

  /** The end of PCB::Exec: V on the multex of a child that may have run meanwhile. */
  function Unlock(s: State, p: Proc, c: Proc): (s': State)
    requires p < |s.procs|
  {
    if c < |s.procs| && Usable(s, s.procs[c].slot) then s.Goto(p, ExecEnd(s.procs[c].slot)) else s.(failed := true)
  }

  function EndExec(s: State, p: Proc): (s': State)
    requires p < |s.procs|
  {
    var (sem, front) := V(s.bmsem);
    s.(bmsem := sem, owner := None).Goto(p, Running).Wake(front)
  }

  // ---------------------------------------------------------------- Join and Exit

  /** The PCB that `pcb[id]` points to, if it can be used. */
  predicate Usable(s: State, id: int) {
    0 <= id < |s.table| && s.table[id].live
  }

  /** JoinUpdate up to the P of IncNumWait: the caller must be the parent; touches both PCBs. */
  function Check(s: State, p: Proc, c: Proc): (s': State)
    requires p < |s.procs|
  {
    if c < |s.procs| && Usable(s, s.procs[c].slot) && Usable(s, s.table[s.procs[c].slot].parentID)
       && s.procs[p].slot == s.table[s.procs[c].slot].parentID
    then s.Goto(p, JoinInc(c)) else s.(failed := true)
  }

  /** The V of IncNumWait. */
  function CountWait(s: State, p: Proc, c: Proc): (s': State)
    requires p < |s.procs|
  {
    if Usable(s, s.procs[p].slot) then s.Goto(p, JoinTest(c)) else s.(failed := true)
  }

  function TestJoin(s: State, p: Proc, c: Proc): (s': State)
    requires p < |s.procs|
  {
    if c >= |s.procs| || !Usable(s, s.procs[c].slot) then s.(failed := true) else
    var i := s.procs[c].slot;
    var (sem, passed) := TryP(s.table[i].joinsem, p);
    s.(table := s.table[i := s.table[i].(joinsem := sem)]).Goto(p, if passed then JoinRead(c) else JoinAsleep(c))
  }

  function ReadCode(s: State, p: Proc, c: Proc): (s': State)
    requires p < |s.procs|
  {
    if c >= |s.procs| || !Usable(s, s.procs[c].slot) then s.(failed := true)
    else s.Goto(p, JoinRelease(c, s.table[s.procs[c].slot].exitcode))
  }

  // The V that lets the child go on. After it turns interrupts back on it looks at no field of the semaphore, so
  // nothing of the child's PCB is used after the child may have cleared it.
  function Release(s: State, p: Proc, c: Proc, code: int): (s': State)
    requires p < |s.procs|
  {
    if c >= |s.procs| || !Usable(s, s.procs[c].slot) then s.(failed := true) else
    var i := s.procs[c].slot;
    var (sem, front) := V(s.table[i].exitsem);
    var me := s.procs[p].(children := s.procs[p].children - {c}, pc := Running);
    s.(table := s.table[i := s.table[i].(exitsem := sem)], procs := s.procs[p := me],
       joined := s.joined + [(c, code)]).Wake(front)
  }

  function Store(s: State, p: Proc, code: int): (s': State)
    requires p < |s.procs|
  {
    var i := s.procs[p].slot;
    if i == 0 then s.(halted := true)
    else if !(i < |s.slots| && s.slots[i] && Usable(s, i)) then s.(failed := true)
    else s.(table := s.table[i := s.table[i].(exitcode := code)],
            procs := s.procs[p := s.procs[p].(code := Some(code), pc := ExitDec)])
  }

  /** DecNumWait of the parent's PCB: its P leads to `next`, and so does its V. */
  function TouchParent(s: State, p: Proc, next: PC): (s': State)
    requires p < |s.procs|
  {
    if Usable(s, s.procs[p].slot) && Usable(s, s.table[s.procs[p].slot].parentID) then s.Goto(p, next)
    else s.(failed := true)
  }

  function PostJoin(s: State, p: Proc): (s': State)
    requires p < |s.procs|
  {
    var i := s.procs[p].slot;
    if !Usable(s, i) then s.(failed := true) else
    var (sem, front) := V(s.table[i].joinsem);
    s.(table := s.table[i := s.table[i].(joinsem := sem)]).Goto(p, ExitTest).Wake(front)
  }

  function TestExit(s: State, p: Proc): (s': State)
    requires p < |s.procs|
  {
    var i := s.procs[p].slot;
    if !Usable(s, i) then s.(failed := true) else
    var (sem, passed) := TryP(s.table[i].exitsem, p);
    s.(table := s.table[i := s.table[i].(exitsem := sem)]).Goto(p, if passed then Removing else ExitAsleep)
  }

  function Remove(s: State, p: Proc): (s': State)
    requires p < |s.procs|
  {
    var i := s.procs[p].slot;
    if !Usable(s, i) || i >= |s.slots| then s.(failed := true)
    else s.(slots := s.slots[i := false], table := s.table[i := s.table[i].(live := false)]).Goto(p, Gone)
  }

  // ---------------------------------------------------------------- runs

  function Move(s: State, p: Proc): (s': State)
    requires s.Shape() && p < |s.procs|
  {
    match s.procs[p].pc
    case ExecTest(v) => TestExec(s, p, v)
    case ExecAlloc(v) => Alloc(s, p, v)
    case ExecLock(c) => Lock(s, p, c)
    case ExecFork(c) => Fork(s, p, c)
    case ExecUnlock(c) => Unlock(s, p, c)
    case ExecEnd(_) => EndExec(s, p)
    case JoinCheck(c) => Check(s, p, c)
    case JoinInc(c) => CountWait(s, p, c)
    case JoinTest(c) => TestJoin(s, p, c)
    case JoinRead(c) => ReadCode(s, p, c)
    case JoinRelease(c, code) => Release(s, p, c, code)
    case ExitStore(code) => Store(s, p, code)
    case ExitDec => TouchParent(s, p, ExitDecEnd)
    case ExitDecEnd => TouchParent(s, p, ExitPost)
    case ExitPost => PostJoin(s, p)
    case ExitTest => TestExit(s, p)
    case Removing => Remove(s, p)
    case Unborn | Running | ExecAsleep(_) | JoinAsleep(_) | ExitAsleep | Gone => s
  }

  /** One step of a system whose processes join each child exactly once before they exit (the main process, which
      halts the machine, need not). An event that cannot happen in this state changes nothing. */
  function Step(s: State, e: Event): (s': State)
    requires s.Shape()
  {
    if s.halted || e.p >= |s.procs| then s else
    var me := s.procs[e.p];
    match e
    case CallExec(p, valid) => if me.pc.Running? then s.Goto(p, ExecTest(valid)) else s
    case CallJoin(p, c) => if me.pc.Running? && c in me.children then s.Goto(p, JoinCheck(c)) else s
    case CallExit(p, code) =>
      if me.pc.Running? && (me.slot == 0 || me.children == {}) then s.Goto(p, ExitStore(code)) else s
    case Continue(p) => Move(s, p)
  }

  // ---------------------------------------------------------------- the invariant

  /** The parent has read the exit code and not released the child yet. */
  predicate Reading(q: PC, c: Proc) {
    q == JoinRead(c) || (q.JoinRelease? && q.child == c)
  }

  /** The child has posted joinsem. */
  predicate Posted(pc: PC) {
    pc.ExitTest? || pc.ExitAsleep? || pc.Removing?
  }

  /** The exit code has been stored. */
  predicate Stored(pc: PC) {
    pc.ExitDec? || pc.ExitDecEnd? || pc.ExitPost? || Posted(pc)
  }

  /** A process that has not gone owns its slot and the PCB there. */
  predicate OwnsSlot(s: State, p: Proc)
    requires s.Shape() && p < |s.procs|
  {
    var b := s.table[s.procs[p].slot];
    !s.procs[p].pc.Gone? ==> b.live && b.owner == p
  }

  /** The meeting of a child with its parent, as the child's PCB shows it. */
  predicate MeetingOk(c: Proc, child: Process, parent: Process, b: PCB) {
    var pc, q := child.pc, parent.pc;
    var released := c !in parent.children;
    && (released || Reading(q, c) ==> Posted(pc))
    && (pc.Removing? ==> released)
    && b.joinsem.value == (if Posted(pc) && !released && !Reading(q, c) then 1 else 0)
    && b.joinsem.queue == (if !released && q == JoinAsleep(c) then [child.parent] else [])
    && (q == JoinAsleep(c) ==> !Posted(pc))
    && b.exitsem.value == (if released && !pc.Removing? then 1 else 0)
    && b.exitsem.queue == (if pc.ExitAsleep? then [c] else [])
    && (pc.ExitAsleep? ==> !released)
    && (Stored(pc) ==> child.code == Some(b.exitcode))
    && (q.JoinRelease? && q.child == c ==> child.code == Some(q.code))
    && (!released ==> !parent.pc.Gone? && b.parentID == parent.slot)
  }

  predicate ChildOk(s: State, c: Proc)
    requires s.Shape() && c < |s.procs|
  {
    var p := s.procs[c];
    c != 0 && !p.pc.Gone? ==> MeetingOk(c, p, s.procs[p.parent], s.table[p.slot])
  }

  /** The child that a call in progress is about. */
  function Subject(pc: PC): (c: Option<Proc>) {
    match pc
    case ExecLock(c) => Some(c)
    case ExecFork(c) => Some(c)
    case ExecUnlock(c) => Some(c)
    case JoinCheck(c) => Some(c)
    case JoinInc(c) => Some(c)
    case JoinTest(c) => Some(c)
    case JoinAsleep(c) => Some(c)
    case JoinRead(c) => Some(c)
    case JoinRelease(c, _) => Some(c)
    case _ => None
  }

  /** The child that has a PCB and no thread yet. */
  function Making(pc: PC): (c: Option<Proc>) {
    match pc
    case ExecLock(c) => Some(c)
    case ExecFork(c) => Some(c)
    case _ => None
  }

  predicate IsExiting(pc: PC) {
    Stored(pc) || pc.ExitStore? || pc.Gone?
  }

  predicate InExec(pc: PC) {
    pc.ExecAlloc? || pc.ExecLock? || pc.ExecFork? || pc.ExecUnlock? || pc.ExecEnd?
  }

  /** A process's own account of its children. */
  predicate AccountOk(q: Proc, me: Process) {
    && (Subject(me.pc).Some? ==> Subject(me.pc).value in me.children)
    && (q == 0 ==> me.slot == 0 && (me.pc.ExitStore? || !IsExiting(me.pc)))
    && (q != 0 && IsExiting(me.pc) ==> me.children == {})
  }

  ghost predicate ParentOk(s: State, q: Proc)
    requires s.Shape() && q < |s.procs|
  {
    var me := s.procs[q];
    && AccountOk(q, me)
    && (forall c :: c in me.children ==> 0 < c < |s.procs| && s.procs[c].parent == q && !s.procs[c].pc.Gone?)
    && (Making(me.pc).Some? ==> s.procs[Making(me.pc).value].pc.Unborn?)
  }

  ghost predicate WasJoined(joined: seq<(Proc, int)>, c: Proc) {
    exists k :: 0 <= k < |joined| && joined[k].0 == c
  }

  /** The parent has let go of the child. */
  predicate Released(procs: seq<Process>, c: Proc)
    requires c < |procs|
  {
    procs[c].parent < c && c !in procs[procs[c].parent].children
  }

  /** What the calls of Join returned: each child at most once, with its own code; and who is released was joined. */
  ghost predicate JoinedOk(s: State) {
    && (forall k :: 0 <= k < |s.joined| ==>
          s.joined[k].0 < |s.procs| && s.procs[s.joined[k].0].code == Some(s.joined[k].1))
    && (forall i, j :: 0 <= i < j < |s.joined| ==> s.joined[i].0 != s.joined[j].0)
    && (forall c :: 0 <= c < |s.procs| ==> (WasJoined(s.joined, c) <==> Released(s.procs, c)))
  }

  lemma JoinedMore(joined: seq<(Proc, int)>, c: Proc, code: int, d: Proc)
    ensures WasJoined(joined + [(c, code)], d) <==> WasJoined(joined, d) || d == c
  {
    assert (joined + [(c, code)])[|joined|] == (c, code);
    if k :| 0 <= k < |joined| && joined[k].0 == d {
      assert (joined + [(c, code)])[k].0 == d;
    }
  }

  /** The table: a slot is marked exactly while it holds a PCB, which belongs to a process that is not gone. */
  ghost predicate TableOk(s: State)
    requires s.Shape()
  {
    forall i :: 0 <= i < MAX_PROCESS ==>
      && s.slots[i] == s.table[i].live
      && (s.table[i].live ==> var p := s.table[i].owner; p < |s.procs| && s.procs[p].slot == i && !s.procs[p].pc.Gone?)
  }

  /** Whoever sleeps in Exec is in the queue of bmsem; at most one process is inside. */
  ghost predicate ExecOk(s: State) {
    && s.bmsem.value == (if s.owner == None then 1 else 0)
    && Distinct(s.bmsem.queue)
    && (forall t :: t in s.bmsem.queue <==> 0 <= t < |s.procs| && s.procs[t].pc.ExecAsleep?)
    && (forall p :: 0 <= p < |s.procs| ==> (InExec(s.procs[p].pc) <==> s.owner == Some(p)))
  }

  ghost predicate Children(s: State)
    requires s.Shape()
  {
    forall p :: 0 <= p < |s.procs| ==> ChildOk(s, p)
  }

  ghost predicate Parents(s: State)
    requires s.Shape()
  {
    forall p :: 0 <= p < |s.procs| ==> ParentOk(s, p)
  }

  ghost predicate Slots(s: State)
    requires s.Shape()
  {
    TableOk(s) && forall p :: 0 <= p < |s.procs| ==> OwnsSlot(s, p)
  }

  ghost predicate Inv(s: State) {
    s.Shape() && !s.failed && Slots(s) && ExecOk(s) && Children(s) && Parents(s) && JoinedOk(s)
  }
}
