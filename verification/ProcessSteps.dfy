/** Every step of the process table keeps its invariant. */
module ProcessSteps {
  import opened Sequences
  import opened Semaphores
  import opened Bitmaps
  import opened ProcessTables

  // ---------------------------------------------------------------- quiet steps

  /** The process stays out of the meeting with its parent and out of the meetings with its children. */
  predicate Quiet(pc: PC, pc': PC) {
    && !Posted(pc) && !Posted(pc') && !pc.Gone? && !pc'.Gone?
    && (Stored(pc') ==> Stored(pc))
    && !pc.JoinAsleep? && !pc'.JoinAsleep? && !pc.JoinRead? && !pc'.JoinRead? && !pc.JoinRelease? && !pc'.JoinRelease?
  }

  lemma QuietMeetings(s: State, p: Proc, pc: PC)
    requires s.Shape() && p < |s.procs| && Slots(s) && Children(s) && Quiet(s.procs[p].pc, pc)
    ensures var s' := s.Goto(p, pc); s'.Shape() && Slots(s') && Children(s')
  {
    hide Stored, Reading;
    var s' := s.Goto(p, pc);
    forall c | 0 <= c < |s.procs|
      ensures ChildOk(s', c) && OwnsSlot(s', c)
    {
      assert ChildOk(s, c) && OwnsSlot(s, c);
      NotReading(s.procs[p].pc, c);
      NotReading(pc, c);
      assert !Posted(s.procs[p].pc) && !Posted(pc) && !Reading(s.procs[p].pc, c) && !Reading(pc, c);
    }
  }

  lemma NotReading(pc: PC, c: Proc)
    ensures Reading(pc, c) ==> pc.JoinRead? || pc.JoinRelease?
  {
  }

  /** Nobody starts, joins or stores an exit code; only pcs change. */
  ghost predicate SameFamily(s: State, s': State) {
    && |s'.procs| == |s.procs| && s'.joined == s.joined
    && forall p :: 0 <= p < |s.procs| ==> s'.procs[p] == s.procs[p].(pc := s'.procs[p].pc)
  }

  lemma FamilyJoined(s: State, s': State)
    requires JoinedOk(s) && SameFamily(s, s')
    ensures JoinedOk(s')
  {
    hide WasJoined;
    forall c | 0 <= c < |s'.procs|
      ensures Released(s'.procs, c) == Released(s.procs, c)
    {
    }
  }

  /** The process `p` moves, and perhaps somebody else is woken. */
  ghost predicate MovesOn(s: State, s': State, p: Proc) {
    && SameFamily(s, s')
    && forall u :: 0 <= u < |s.procs| && u != p ==>
         s'.procs[u].pc == s.procs[u].pc || Wakes(s.procs[u].pc, s'.procs[u].pc)
  }

  predicate Wakes(pc: PC, pc': PC) {
    match pc
    case ExecAsleep(v) => pc' == ExecTest(v)
    case JoinAsleep(c) => pc' == JoinTest(c)
    case ExitAsleep => pc' == ExitTest
    case _ => false
  }

  lemma MovesOnParents(s: State, s': State, p: Proc)
    requires s.Shape() && s'.Shape() && p < |s.procs| && Parents(s) && MovesOn(s, s', p)
    requires AccountOk(p, s'.procs[p]) && !s'.procs[p].pc.Gone? && !s.procs[p].pc.Unborn?
    requires Making(s'.procs[p].pc).Some? ==> Making(s'.procs[p].pc) == Making(s.procs[p].pc)
    ensures Parents(s')
  {
    forall q | 0 <= q < |s.procs|
      ensures ParentOk(s', q)
    {
      assert ParentOk(s, q) && (q == p || s'.procs[q].pc == s.procs[q].pc || Wakes(s.procs[q].pc, s'.procs[q].pc));
      forall c | c in s'.procs[q].children
        ensures !s'.procs[c].pc.Gone?
      {
        assert !s.procs[c].pc.Gone?;
      }
    }
  }

  /** A move outside Exec. */
  ghost predicate QuietMove(s: State, s': State, p: Proc) {
    && MovesOn(s, s', p) && p < |s.procs| && s'.failed == s.failed && s'.bmsem == s.bmsem && s'.owner == s.owner
    && (forall u :: 0 <= u < |s.procs| ==> s.procs[u].pc.ExecAsleep? == s'.procs[u].pc.ExecAsleep?)
    && InExec(s.procs[p].pc) == InExec(s'.procs[p].pc)
  }

  lemma MovesOnExec(s: State, s': State, p: Proc)
    requires ExecOk(s) && p < |s.procs| && MovesOn(s, s', p) && s'.bmsem == s.bmsem && s'.owner == s.owner
    requires forall u :: 0 <= u < |s.procs| ==> s.procs[u].pc.ExecAsleep? == s'.procs[u].pc.ExecAsleep?
    requires InExec(s.procs[p].pc) == InExec(s'.procs[p].pc)
    ensures ExecOk(s')
  {
    hide Distinct;
  }

  // ---------------------------------------------------------------- calls

  lemma QuietStep(s: State, p: Proc, pc: PC)
    requires Inv(s) && p < |s.procs| && Quiet(s.procs[p].pc, pc) && !s.procs[p].pc.Unborn?
    requires Making(pc).Some? ==> Making(pc) == Making(s.procs[p].pc)
    requires !pc.ExecAsleep? && !s.procs[p].pc.ExecAsleep? && InExec(s.procs[p].pc) == InExec(pc)
    requires AccountOk(p, s.procs[p].(pc := pc))
    ensures Inv(s.Goto(p, pc))
  {
    var s' := s.Goto(p, pc);
    hide Slots, Children, Parents, ExecOk, JoinedOk, Quiet, AccountOk;
    QuietMeetings(s, p, pc);
    FamilyJoined(s, s');
    MovesOnParents(s, s', p);
    MovesOnExec(s, s', p);
  }

  /** Processes that are not gone have different ids. */
  lemma IdsDiffer(s: State, p: Proc, q: Proc)
    requires s.Shape() && Slots(s) && p < |s.procs| && q < |s.procs|
    requires !s.procs[p].pc.Gone? && !s.procs[q].pc.Gone? && s.procs[p].slot == s.procs[q].slot
    ensures p == q
  {
    assert OwnsSlot(s, p) && OwnsSlot(s, q);
  }

  lemma CallsKeepInv(s: State, e: Event)
    requires Inv(s) && !e.Continue?
    ensures Inv(Step(s, e))
  {
    hide Slots, Children, ExecOk, JoinedOk;
    if e.p < |s.procs| && s.procs[e.p].pc.Running? {
      assert ParentOk(s, e.p) && ParentOk(s, 0);
      if s.procs[e.p].slot == 0 {
        IdsDiffer(s, 0, e.p);
      }
      var s' := Step(s, e);
      if s' != s {
        QuietStep(s, e.p, s'.procs[e.p].pc);
      }
    }
  }

  // ---------------------------------------------------------------- Exec

  lemma Account(s: State, p: Proc)
    requires s.Shape() && Parents(s) && p < |s.procs|
    ensures ParentOk(s, p)
  {
  }

  lemma TestExecKeepsInv(s: State, p: Proc, v: bool)
    requires Inv(s) && p < |s.procs| && s.procs[p].pc == ExecTest(v)
    ensures Inv(TestExec(s, p, v))
  {
    hide Slots, Children, Parents, ExecOk, JoinedOk;
    var s' := TestExec(s, p, v);
    var pc := s'.procs[p].pc;
    Account(s, p);
    assert AccountOk(p, s'.procs[p]) && Quiet(s.procs[p].pc, pc);
    TestExecKeepsExec(s, p, v);
    QuietMeetings(s, p, pc);
    SameMeetings(s.Goto(p, pc), s');
    FamilyJoined(s, s');
    MovesOnParents(s, s', p);
  }

  lemma SameMeetings(s: State, s': State)
    requires s.Shape() && Slots(s) && Children(s) && s'.procs == s.procs && s'.slots == s.slots && s'.table == s.table
    ensures s'.Shape() && Slots(s') && Children(s')
  {
    hide MeetingOk;
    forall c | 0 <= c < |s.procs|
      ensures ChildOk(s', c) && OwnsSlot(s', c)
    {
      assert ChildOk(s, c) && OwnsSlot(s, c);
    }
  }

  lemma TestExecKeepsExec(s: State, p: Proc, v: bool)
    requires ExecOk(s) && p < |s.procs| && s.procs[p].pc == ExecTest(v)
    ensures ExecOk(TestExec(s, p, v))
  {
    if s.bmsem.value == 0 {
      assert p !in s.bmsem.queue;
    }
  }

  lemma EndExecKeepsInv(s: State, p: Proc)
    requires Inv(s) && p < |s.procs| && s.procs[p].pc.ExecEnd?
    ensures Inv(EndExec(s, p))
  {
    hide Slots, Children, Parents, ExecOk, JoinedOk;
    var s' := EndExec(s, p);
    Account(s, p);
    assert AccountOk(p, s.procs[p].(pc := Running));
    EndExecKeepsExec(s, p);
    EndExecKeepsMeetings(s, p);
    EndExecMovesOn(s, p);
    hide EndExec, AccountOk;
    FamilyJoined(s, s');
    MovesOnParents(s, s', p);
  }

  lemma EndExecKeepsMeetings(s: State, p: Proc)
    requires s.Shape() && Slots(s) && Children(s) && ExecOk(s) && p < |s.procs| && s.procs[p].pc.ExecEnd?
    ensures var s' := EndExec(s, p); s'.Shape() && Slots(s') && Children(s')
  {
    hide Slots, Children;
    var s' := EndExec(s, p);
    var s1 := s.Goto(p, Running);
    QuietMeetings(s, p, Running);
    if s.bmsem.queue != [] {
      var front := s.bmsem.queue[0];
      assert front in s.bmsem.queue;
      QuietMeetings(s1, front, ExecTest(s.procs[front].pc.valid));
      SameMeetings(s1.Goto(front, ExecTest(s.procs[front].pc.valid)), s');
    } else {
      SameMeetings(s1, s');
    }
  }

  lemma EndExecMovesOn(s: State, p: Proc)
    requires p < |s.procs| && s.procs[p].pc.ExecEnd?
    ensures MovesOn(s, EndExec(s, p), p) && EndExec(s, p).procs[p].pc == Running && !EndExec(s, p).failed
         == !s.failed
  {
  }

  lemma EndExecKeepsExec(s: State, p: Proc)
    requires ExecOk(s) && p < |s.procs| && s.procs[p].pc.ExecEnd?
    ensures ExecOk(EndExec(s, p))
  {
    if s.bmsem.queue != [] {
      assert s.bmsem.queue[0] in s.bmsem.queue;
      DistinctTail(s.bmsem.queue);
    }
  }

  lemma ForkKeepsInv(s: State, p: Proc, c: Proc)
    requires Inv(s) && p < |s.procs| && s.procs[p].pc == ExecFork(c)
    ensures Inv(Fork(s, p, c))
  {
    hide Slots, Children, Parents, ExecOk, JoinedOk;
    Account(s, p);
    var s1 := s.Goto(c, Running);
    var s' := Fork(s, p, c);
    assert s' == s1.Goto(p, ExecUnlock(c)) && c != p;
    ForkKeepsParents(s, p, c);
    ForkKeepsExec(s, p, c);
    QuietMeetings(s, c, Running);
    QuietMeetings(s1, p, ExecUnlock(c));
    FamilyJoined(s, s');
  }

  lemma ForkKeepsExec(s: State, p: Proc, c: Proc)
    requires ExecOk(s) && p < |s.procs| && s.procs[p].pc == ExecFork(c) && c < |s.procs| && s.procs[c].pc.Unborn?
    ensures ExecOk(Fork(s, p, c))
  {
    hide Distinct;
  }

  lemma ForkKeepsParents(s: State, p: Proc, c: Proc)
    requires s.Shape() && Parents(s) && p < |s.procs| && s.procs[p].pc == ExecFork(c)
    ensures Fork(s, p, c).Shape() && Parents(Fork(s, p, c))
  {
    assert ParentOk(s, p);
    var s' := Fork(s, p, c);
    assert s'.procs == s.procs[c := s.procs[c].(pc := Running)][p := s.procs[p].(pc := ExecUnlock(c))];
    forall q | 0 <= q < |s.procs|
      ensures ParentOk(s', q)
    {
      assert ParentOk(s, q);
    }
  }

  lemma AllocKeepsInv(s: State, p: Proc, v: bool)
    requires Inv(s) && p < |s.procs| && s.procs[p].pc == ExecAlloc(v)
    ensures Inv(Alloc(s, p, v))
  {
    hide Slots, Children, Parents, ExecOk, JoinedOk;
    if !v || FirstClear(s.slots) < 0 {
      Account(s, p);
      QuietStep(s, p, ExecEnd(-1));
    } else {
      AllocKeepsMeetings(s, p);
      AllocKeepsParents(s, p);
      AllocKeepsJoined(s, p);
      AllocKeepsExec(s, p);
    }
  }

  lemma AllocKeepsExec(s: State, p: Proc)
    requires s.Shape() && ExecOk(s) && p < |s.procs| && s.procs[p].pc.ExecAlloc? && FirstClear(s.slots) >= 0
    ensures ExecOk(Alloc(s, p, true))
  {
    hide Distinct;
    var s' := Alloc(s, p, true);
    assert |s.procs| !in s.bmsem.queue && s.owner == Some(p);
  }

  lemma OwnersKeepSlots(s: State, c: Proc)
    requires s.Shape() && Slots(s) && c < |s.procs| && FirstClear(s.slots) >= 0
    ensures !s.procs[c].pc.Gone? ==> s.procs[c].slot != FirstClear(s.slots)
  {
    assert OwnsSlot(s, c);
  }

  lemma AllocKeepsSlots(s: State, p: Proc)
    requires s.Shape() && Slots(s) && p < |s.procs| && s.procs[p].pc.ExecAlloc? && FirstClear(s.slots) >= 0
    ensures var s' := Alloc(s, p, true); s'.Shape() && Slots(s')
  {
    var s' := Alloc(s, p, true);
    forall c | 0 <= c < |s'.procs|
      ensures OwnsSlot(s', c)
    {
      if c < |s.procs| {
        assert OwnsSlot(s, c);
      }
    }
  }

  lemma AllocKeepsChild(s: State, p: Proc, c: Proc)
    requires s.Shape() && Slots(s) && p < |s.procs| && s.procs[p].pc.ExecAlloc? && FirstClear(s.slots) >= 0
    requires c < |s.procs| && ChildOk(s, c)
    ensures Alloc(s, p, true).Shape() && ChildOk(Alloc(s, p, true), c)
  {
    AllocKeepsSlots(s, p);
    OwnersKeepSlots(s, c);
    var s', me := Alloc(s, p, true), s.procs[c];
    hide Slots, MeetingOk;
    if c != 0 && !me.pc.Gone? {
      SameView(c, me, s'.procs[c], s.procs[me.parent], s'.procs[me.parent], s.table[me.slot]);
    }
  }

  lemma AllocKeepsMeetings(s: State, p: Proc)
    requires Inv(s) && p < |s.procs| && s.procs[p].pc.ExecAlloc? && FirstClear(s.slots) >= 0
    ensures var s' := Alloc(s, p, true); s'.Shape() && Slots(s') && Children(s')
  {
    hide ExecOk, JoinedOk, Parents;
    var s' := Alloc(s, p, true);
    AllocKeepsSlots(s, p);
    forall c | 0 <= c < |s'.procs|
      ensures ChildOk(s', c)
    {
      if c < |s.procs| {
        assert ChildOk(s, c);
        AllocKeepsChild(s, p, c);
      }
    }
  }

  lemma AllocKeepsParents(s: State, p: Proc)
    requires Inv(s) && p < |s.procs| && s.procs[p].pc.ExecAlloc? && FirstClear(s.slots) >= 0
    ensures var s' := Alloc(s, p, true); s'.Shape() && Parents(s')
  {
    hide ExecOk, JoinedOk, Slots, Children;
    var s' := Alloc(s, p, true);
    forall q | 0 <= q < |s'.procs|
      ensures ParentOk(s', q)
    {
      if q < |s.procs| {
        assert ParentOk(s, q);
      }
    }
  }

  lemma NeverJoined(s: State, n: Proc)
    requires JoinedOk(s) && n >= |s.procs|
    ensures !WasJoined(s.joined, n)
  {
  }

  lemma AllocKeepsJoined(s: State, p: Proc)
    requires |s.slots| == |s.table| && JoinedOk(s) && p < |s.procs| && FirstClear(s.slots) >= 0
    ensures JoinedOk(Alloc(s, p, true))
  {
    hide WasJoined;
    var s' := Alloc(s, p, true);
    var n := |s.procs|;
    assert forall c :: 0 <= c < n ==> s'.procs[c].parent == s.procs[c].parent && s'.procs[c].code == s.procs[c].code;
    forall c | 0 <= c < n
      ensures Released(s'.procs, c) == Released(s.procs, c)
    {
    }
    assert !Released(s'.procs, n);
    assert !WasJoined(s.joined, n) by { NeverJoined(s, n); }
  }

  // ---------------------------------------------------------------- Join and Exit

  /** A parent that deals with the child `c` and with nobody else. */
  predicate DealsWith(pc: PC, c: Proc) {
    && !Stored(pc) && !pc.Gone?
    && (pc.JoinAsleep? || pc.JoinRead? || pc.JoinRelease? ==> pc.child == c)
  }

  /** A child that is on its way out and joins nobody. */
  predicate Leaves(pc: PC) {
    pc.ExitStore? || Stored(pc)
  }

  /** Only the child `c`, its parent and its PCB change. */
  ghost predicate OneMeeting(s: State, s': State, c: Proc)
    requires s.Shape() && c < |s.procs|
  {
    var i, q := s.procs[c].slot, s.procs[c].parent;
    && s'.slots == s.slots && |s'.procs| == |s.procs| && |s'.table| == |s.table|
    && (forall k :: 0 <= k < MAX_PROCESS && k != i ==> s'.table[k] == s.table[k])
    && s'.table[i].live && s'.table[i].owner == c
    && (forall u :: 0 <= u < |s.procs| && u != c && u != q ==> s'.procs[u] == s.procs[u])
    && s'.procs[c] == s.procs[c].(pc := s'.procs[c].pc, code := s'.procs[c].code)
    && (s'.procs[c].pc == s.procs[c].pc || (Leaves(s.procs[c].pc) && Leaves(s'.procs[c].pc)))
    && s'.procs[q] == s.procs[q].(pc := s'.procs[q].pc, children := s'.procs[q].children)
    && s'.procs[q].children + {c} == s.procs[q].children + {c}
    && (s'.procs[q].pc == s.procs[q].pc || (DealsWith(s.procs[q].pc, c) && DealsWith(s'.procs[q].pc, c)))
  }

  lemma MeetingStep(s: State, s': State, c: Proc)
    requires s.Shape() && Slots(s) && Children(s) && 0 < c < |s.procs| && !s.procs[c].pc.Gone?
    requires OneMeeting(s, s', c)
    requires MeetingOk(c, s'.procs[c], s'.procs[s.procs[c].parent], s'.table[s.procs[c].slot])
    ensures s'.Shape() && Slots(s') && Children(s')
  {
    forall d | 0 <= d < |s.procs|
      ensures s'.procs[d].slot == s.procs[d].slot && s'.procs[d].parent == s.procs[d].parent
      ensures s'.procs[d].pc.Gone? == s.procs[d].pc.Gone?
    {
    }
    assert s'.Shape() && OwnsSlot(s, c);
    forall i | 0 <= i < MAX_PROCESS
      ensures s'.slots[i] == s'.table[i].live
      ensures s'.table[i].live ==>
        var p := s'.table[i].owner; p < |s'.procs| && s'.procs[p].slot == i && !s'.procs[p].pc.Gone?
    {
      assert s.slots[i] == s.table[i].live;
      assert s'.table[i].owner == s.table[i].owner;
      assert s.table[i].live ==> s.procs[s.table[i].owner].slot == i;
    }
    forall d | 0 <= d < |s.procs|
      ensures OwnsSlot(s', d)
    {
      assert OwnsSlot(s, d) && OwnsSlot(s, c);
    }
    forall d | 0 <= d < |s.procs|
      ensures ChildOk(s', d)
    {
      if d != c {
        OtherMeeting(s, s', c, d);
      }
    }
  }

  /** A meeting whose child and parent have not moved in it. */
  lemma SameView(d: Proc, me: Process, me': Process, q: Process, q': Process, b: PCB)
    requires MeetingOk(d, me, q, b)
    requires me' == me.(pc := me'.pc, children := me'.children)
    requires me'.pc == me.pc || (!Stored(me.pc) && !Stored(me'.pc))
    requires (d in q.children <==> d in q'.children) && Reading(q.pc, d) == Reading(q'.pc, d) && q'.slot == q.slot
    requires (q.pc == JoinAsleep(d) <==> q'.pc == JoinAsleep(d)) && q'.pc.Gone? == q.pc.Gone?
    requires q'.pc.JoinRelease? && q'.pc.child == d ==> q'.pc == q.pc
    ensures MeetingOk(d, me', q', b)
  {
  }

  lemma OtherMeeting(s: State, s': State, c: Proc, d: Proc)
    requires s.Shape() && s'.Shape() && Slots(s) && Children(s) && 0 < c < |s.procs| && !s.procs[c].pc.Gone?
    requires OneMeeting(s, s', c) && d < |s.procs| && d != c
    ensures ChildOk(s', d)
  {
    assert ChildOk(s, d) && OwnsSlot(s, d) && OwnsSlot(s, c);
    if d != 0 && !s.procs[d].pc.Gone? {
      hide Slots, Children, MeetingOk;
      var me := s.procs[d];
      assert s'.table[me.slot] == s.table[me.slot];
      SameView(d, me, s'.procs[d], s.procs[me.parent], s'.procs[me.parent], s.table[me.slot]);
    }
  }

  /** What Join knows about the child it is about. */
  lemma Joining(s: State, p: Proc, c: Proc)
    requires s.Shape() && Slots(s) && Children(s) && Parents(s) && p < |s.procs| && Subject(s.procs[p].pc) == Some(c)
    ensures 0 < c < |s.procs| && s.procs[c].parent == p && c in s.procs[p].children && !s.procs[c].pc.Gone?
    ensures MeetingOk(c, s.procs[c], s.procs[p], s.table[s.procs[c].slot])
    ensures s.table[s.procs[c].slot].live && s.table[s.procs[c].slot].owner == c
  {
    assert ParentOk(s, p);
    assert ChildOk(s, c) && OwnsSlot(s, c);
  }

  lemma CheckKeepsInv(s: State, p: Proc, c: Proc)
    requires Inv(s) && p < |s.procs| && s.procs[p].pc == JoinCheck(c)
    ensures Inv(Check(s, p, c))
  {
    hide Slots, Children, Parents, ExecOk, JoinedOk;
    Joining(s, p, c);
    Account(s, p);
    OwnSlot(s, p);
    QuietStep(s, p, JoinInc(c));
  }

  lemma CountWaitKeepsInv(s: State, p: Proc, c: Proc)
    requires Inv(s) && p < |s.procs| && s.procs[p].pc == JoinInc(c)
    ensures Inv(CountWait(s, p, c))
  {
    hide Slots, Children, Parents, ExecOk, JoinedOk;
    Account(s, p);
    OwnSlot(s, p);
    QuietStep(s, p, JoinTest(c));
  }

  /** The new PCB is there before the child can run, and still there after it may have run. */
  lemma LockKeepsInv(s: State, p: Proc, c: Proc)
    requires Inv(s) && p < |s.procs| && s.procs[p].pc == ExecLock(c)
    ensures Inv(Lock(s, p, c))
  {
    hide Slots, Children, Parents, ExecOk, JoinedOk;
    Joining(s, p, c);
    Account(s, p);
    QuietStep(s, p, ExecFork(c));
  }

  lemma UnlockKeepsInv(s: State, p: Proc, c: Proc)
    requires Inv(s) && p < |s.procs| && s.procs[p].pc == ExecUnlock(c)
    ensures Inv(Unlock(s, p, c))
  {
    hide Slots, Children, Parents, ExecOk, JoinedOk;
    Joining(s, p, c);
    Account(s, p);
    QuietStep(s, p, ExecEnd(s.procs[c].slot));
  }

  lemma OwnSlot(s: State, p: Proc)
    requires s.Shape() && Slots(s) && p < |s.procs| && !s.procs[p].pc.Gone?
    ensures Usable(s, s.procs[p].slot) && s.table[s.procs[p].slot].owner == p && s.slots[s.procs[p].slot]
  {
    assert OwnsSlot(s, p);
  }

  lemma TestJoinMovesOn(s: State, p: Proc, c: Proc)
    requires s.Shape() && p < |s.procs| && s.procs[p].pc == JoinTest(c) && c < |s.procs| && Usable(s, s.procs[c].slot)
    ensures QuietMove(s, TestJoin(s, p, c), p)
  {
  }

  lemma TestJoinKeepsInv(s: State, p: Proc, c: Proc)
    requires Inv(s) && p < |s.procs| && s.procs[p].pc == JoinTest(c)
    ensures Inv(TestJoin(s, p, c))
  {
    hide Slots, Children, Parents, ExecOk, JoinedOk;
    Joining(s, p, c);
    Account(s, p);
    var s' := TestJoin(s, p, c);
    TestJoinMovesOn(s, p, c);
    MeetingStep(s, s', c);
    hide *;
    FamilyJoined(s, s');
    MovesOnParents(s, s', p);
    MovesOnExec(s, s', p);
  }

  lemma ReadCodeMovesOn(s: State, p: Proc, c: Proc)
    requires s.Shape() && p < |s.procs| && s.procs[p].pc == JoinRead(c) && c < |s.procs| && Usable(s, s.procs[c].slot)
    ensures QuietMove(s, ReadCode(s, p, c), p)
  {
  }

  lemma ReadCodeKeepsInv(s: State, p: Proc, c: Proc)
    requires Inv(s) && p < |s.procs| && s.procs[p].pc == JoinRead(c)
    ensures Inv(ReadCode(s, p, c))
  {
    hide Slots, Children, Parents, ExecOk, JoinedOk;
    Joining(s, p, c);
    Account(s, p);
    var s' := ReadCode(s, p, c);
    ReadCodeMovesOn(s, p, c);
    MeetingStep(s, s', c);
    hide *;
    FamilyJoined(s, s');
    MovesOnParents(s, s', p);
    MovesOnExec(s, s', p);
  }

  lemma ReleaseMeeting(s: State, p: Proc, c: Proc, code: int)
    requires s.Shape() && p < c < |s.procs| && s.procs[p].pc == JoinRelease(c, code) && s.procs[c].parent == p
    requires Usable(s, s.procs[c].slot) && s.table[s.procs[c].slot].owner == c && c in s.procs[p].children
    requires MeetingOk(c, s.procs[c], s.procs[p], s.table[s.procs[c].slot])
    ensures var s' := Release(s, p, c, code);
      && OneMeeting(s, s', c) && s'.failed == s.failed
      && MeetingOk(c, s'.procs[c], s'.procs[p], s'.table[s.procs[c].slot])
  {
  }

  lemma ReleaseKeepsInv(s: State, p: Proc, c: Proc, code: int)
    requires Inv(s) && p < |s.procs| && s.procs[p].pc == JoinRelease(c, code)
    ensures Inv(Release(s, p, c, code))
  {
    hide Slots, Children, Parents, ExecOk, JoinedOk;
    Joining(s, p, c);
    var s' := Release(s, p, c, code);
    ReleaseMeeting(s, p, c, code);
    ReleaseKeepsParents(s, p, c, code);
    ReleaseKeepsExec(s, p, c, code);
    hide Release;
    MeetingStep(s, s', c);
    ReleaseKeepsJoined(s, p, c, code);
  }

  lemma ReleaseKeepsParent(s: State, s': State, p: Proc, c: Proc, q: Proc)
    requires s.Shape() && s'.Shape() && p < |s.procs| == |s'.procs| && q < |s.procs| && ParentOk(s, q)
    requires s.procs[p].pc.JoinRelease?
    requires s'.procs[p] == s.procs[p].(children := s.procs[p].children - {c}, pc := Running)
    requires forall u :: 0 <= u < |s.procs| && u != p ==> Moved(s.procs[u], s'.procs[u])
    ensures ParentOk(s', q)
  {
    hide State.Shape;
    assert q != p ==> Moved(s.procs[q], s'.procs[q]);
    forall d | d in s'.procs[q].children
      ensures 0 < d < |s.procs| && s'.procs[d].parent == q && !s'.procs[d].pc.Gone?
    {
      assert d in s.procs[q].children && (d != p ==> Moved(s.procs[d], s'.procs[d]));
    }
    if Making(s'.procs[q].pc).Some? {
      var d := Making(s'.procs[q].pc).value;
      assert d != p ==> Moved(s.procs[d], s'.procs[d]);
    }
  }

  lemma ReleaseKeepsParents(s: State, p: Proc, c: Proc, code: int)
    requires Inv(s) && p < |s.procs| && s.procs[p].pc == JoinRelease(c, code)
    ensures Release(s, p, c, code).Shape() && Parents(Release(s, p, c, code))
  {
    hide Slots, Children, ExecOk, JoinedOk;
    Joining(s, p, c);
    var s' := Release(s, p, c, code);
    ReleaseFamily(s, p, c, code);
    hide Release, MeetingOk;
    forall q | 0 <= q < |s.procs|
      ensures s'.procs[q].slot == s.procs[q].slot && s'.procs[q].parent == s.procs[q].parent
    {
      assert q != p ==> Moved(s.procs[q], s'.procs[q]);
    }
    assert s'.Shape();
    hide State.Shape, Moved;
    forall q | 0 <= q < |s.procs|
      ensures ParentOk(s', q)
    {
      ReleaseKeepsParent(s, s', p, c, q);
    }
  }

  lemma ReleaseFamily(s: State, p: Proc, c: Proc, code: int)
    requires p < c < |s.procs| && Usable(s, s.procs[c].slot)
    ensures var s' := Release(s, p, c, code);
      && |s'.procs| == |s.procs| && s'.joined == s.joined + [(c, code)]
      && s'.procs[p] == s.procs[p].(children := s.procs[p].children - {c}, pc := Running)
      && (forall q :: 0 <= q < |s.procs| && q != p ==> Moved(s.procs[q], s'.procs[q]))
  {
  }

  /** At most woken. */
  predicate Moved(me: Process, me': Process) {
    me' == me.(pc := me'.pc) && (me'.pc == me.pc || Wakes(me.pc, me'.pc))
  }


  lemma ReleaseKeepsJoined(s: State, p: Proc, c: Proc, code: int)
    requires JoinedOk(s) && p < c < |s.procs| && s.procs[c].parent == p && c in s.procs[p].children
    requires s.procs[c].code == Some(code) && Usable(s, s.procs[c].slot)
    ensures JoinedOk(Release(s, p, c, code))
  {
    var s' := Release(s, p, c, code);
    ReleaseFamily(s, p, c, code);
    hide Release;
    assert !WasJoined(s.joined, c);
    forall i | 0 <= i < |s.joined|
      ensures s.joined[i].0 != c
    {
    }
    hide WasJoined;
    forall d | 0 <= d < |s.procs|
      ensures WasJoined(s'.joined, d) <==> Released(s'.procs, d)
    {
      JoinedMore(s.joined, c, code, d);
      assert Released(s'.procs, d) <==> Released(s.procs, d) || d == c;
    }
  }

  lemma ReleaseKeepsExec(s: State, p: Proc, c: Proc, code: int)
    requires Inv(s) && p < |s.procs| && s.procs[p].pc == JoinRelease(c, code)
    ensures ExecOk(Release(s, p, c, code))
  {
    hide Slots, Children, JoinedOk, Parents, Distinct;
    Joining(s, p, c);
  }

  /** What a process on its way out knows about its own PCB. */
  lemma Exiting(s: State, p: Proc)
    requires s.Shape() && Slots(s) && Children(s) && Parents(s) && p < |s.procs| && Leaves(s.procs[p].pc)
    requires Stored(s.procs[p].pc) || s.procs[p].slot != 0
    ensures 0 < p && s.procs[p].children == {} && AccountOk(p, s.procs[p])
    ensures MeetingOk(p, s.procs[p], s.procs[s.procs[p].parent], s.table[s.procs[p].slot])
    ensures Usable(s, s.procs[p].slot) && s.table[s.procs[p].slot].owner == p && s.slots[s.procs[p].slot]
    ensures s.procs[p].slot != 0
  {
    Account(s, p);
    Account(s, 0);
    OwnSlot(s, 0);
    OwnSlot(s, p);
    assert ChildOk(s, p);
  }

  lemma StoreKeepsInv(s: State, p: Proc, code: int)
    requires Inv(s) && p < |s.procs| && s.procs[p].pc == ExitStore(code)
    ensures Inv(Store(s, p, code))
  {
    hide Slots, Children, Parents, ExecOk, JoinedOk;
    if s.procs[p].slot == 0 {
      HaltKeepsInv(s);
    } else {
      Exiting(s, p);
      var s' := Store(s, p, code);
      MeetingStep(s, s', p);
      StoreKeepsParents(s, p, code);
      StoreKeepsJoined(s, p, code);
      StoreKeepsExec(s, p, code);
    }
  }

  lemma HaltKeepsInv(s: State)
    requires Inv(s)
    ensures Inv(s.(halted := true))
  {
    hide MeetingOk;
    var s' := s.(halted := true);
    forall p | 0 <= p < |s.procs|
      ensures OwnsSlot(s', p) && ChildOk(s', p) && ParentOk(s', p)
    {
      assert OwnsSlot(s, p) && ChildOk(s, p) && ParentOk(s, p);
    }
  }

  lemma StoreKeepsParents(s: State, p: Proc, code: int)
    requires s.Shape() && Parents(s) && p < |s.procs| && s.procs[p].pc == ExitStore(code) && s.procs[p].slot != 0
    ensures Store(s, p, code).Shape() && Parents(Store(s, p, code))
  {
    var s' := Store(s, p, code);
    forall q | 0 <= q < |s.procs|
      ensures ParentOk(s', q)
    {
      assert ParentOk(s, q);
    }
  }

  lemma StoreKeepsJoined(s: State, p: Proc, code: int)
    requires JoinedOk(s) && 0 < p < |s.procs| && s.procs[p].parent < p && p in s.procs[s.procs[p].parent].children
    ensures JoinedOk(Store(s, p, code))
  {
    var s' := Store(s, p, code);
    assert s'.joined == s.joined && |s'.procs| == |s.procs|;
    assert forall q :: 0 <= q < |s.procs| ==>
      s'.procs[q].parent == s.procs[q].parent && s'.procs[q].children == s.procs[q].children;
    assert forall q :: 0 <= q < |s.procs| && q != p ==> s'.procs[q].code == s.procs[q].code;
    hide Store;
    assert !WasJoined(s.joined, p);
    forall k | 0 <= k < |s.joined|
      ensures s.joined[k].0 != p
    {
    }
    hide WasJoined;
    forall c | 0 <= c < |s'.procs|
      ensures Released(s'.procs, c) == Released(s.procs, c)
    {
    }
  }

  lemma StoreKeepsExec(s: State, p: Proc, code: int)
    requires ExecOk(s) && p < |s.procs| && s.procs[p].pc == ExitStore(code)
    ensures ExecOk(Store(s, p, code))
  {
    hide Distinct;
  }

  lemma TouchParentKeepsInv(s: State, p: Proc, next: PC)
    requires Inv(s) && p < |s.procs|
    requires (s.procs[p].pc == ExitDec && next == ExitDecEnd) || (s.procs[p].pc == ExitDecEnd && next == ExitPost)
    ensures Inv(TouchParent(s, p, next))
  {
    hide Slots, Children, Parents, ExecOk, JoinedOk;
    Exiting(s, p);
    OwnSlot(s, s.procs[p].parent);
    QuietStep(s, p, next);
  }

  lemma PostJoinMovesOn(s: State, p: Proc)
    requires s.Shape() && p < |s.procs| && s.procs[p].pc.ExitPost? && Usable(s, s.procs[p].slot)
    requires MeetingOk(p, s.procs[p], s.procs[s.procs[p].parent], s.table[s.procs[p].slot])
    ensures QuietMove(s, PostJoin(s, p), p)
  {
  }

  lemma PostJoinMeeting(s: State, p: Proc)
    requires s.Shape() && 0 < p < |s.procs| && s.procs[p].pc.ExitPost?
    requires Usable(s, s.procs[p].slot) && s.table[s.procs[p].slot].owner == p
    requires MeetingOk(p, s.procs[p], s.procs[s.procs[p].parent], s.table[s.procs[p].slot])
    ensures var s' := PostJoin(s, p);
      && OneMeeting(s, s', p)
      && MeetingOk(p, s'.procs[p], s'.procs[s.procs[p].parent], s'.table[s.procs[p].slot])
  {
  }

  lemma PostJoinKeepsInv(s: State, p: Proc)
    requires Inv(s) && p < |s.procs| && s.procs[p].pc.ExitPost?
    ensures Inv(PostJoin(s, p))
  {
    hide Slots, Children, Parents, ExecOk, JoinedOk;
    Exiting(s, p);
    var s' := PostJoin(s, p);
    PostJoinMovesOn(s, p);
    PostJoinMeeting(s, p);
    MeetingStep(s, s', p);
    hide *;
    FamilyJoined(s, s');
    MovesOnParents(s, s', p);
    MovesOnExec(s, s', p);
  }

  lemma TestExitMovesOn(s: State, p: Proc)
    requires s.Shape() && p < |s.procs| && s.procs[p].pc.ExitTest? && Usable(s, s.procs[p].slot)
    ensures QuietMove(s, TestExit(s, p), p)
  {
  }

  lemma TestExitKeepsInv(s: State, p: Proc)
    requires Inv(s) && p < |s.procs| && s.procs[p].pc.ExitTest?
    ensures Inv(TestExit(s, p))
  {
    hide Slots, Children, Parents, ExecOk, JoinedOk;
    Exiting(s, p);
    var s' := TestExit(s, p);
    TestExitMovesOn(s, p);
    MeetingStep(s, s', p);
    hide *;
    FamilyJoined(s, s');
    MovesOnParents(s, s', p);
    MovesOnExec(s, s', p);
  }

  lemma RemoveKeepsInv(s: State, p: Proc)
    requires Inv(s) && p < |s.procs| && s.procs[p].pc.Removing?
    ensures Inv(Remove(s, p))
  {
    hide Slots, Children, Parents, ExecOk, JoinedOk;
    Exiting(s, p);
    RemoveKeepsMeetings(s, p);
    RemoveKeepsParents(s, p);
    FamilyJoined(s, Remove(s, p));
    MovesOnExec(s, Remove(s, p), p);
  }

  lemma RemoveKeepsMeetings(s: State, p: Proc)
    requires Inv(s) && p < |s.procs| && s.procs[p].pc.Removing?
    ensures Remove(s, p).Shape() && Slots(Remove(s, p)) && Children(Remove(s, p))
  {
    hide ExecOk, JoinedOk, MeetingOk;
    Exiting(s, p);
    var s' := Remove(s, p);
    forall d | 0 <= d < |s.procs|
      ensures OwnsSlot(s', d) && ChildOk(s', d)
    {
      assert OwnsSlot(s, d) && OwnsSlot(s, p) && ChildOk(s, d);
      if d != 0 && d != p && !s.procs[d].pc.Gone? {
        ReleasedByGone(d, s.procs[d], s.procs[s.procs[d].parent], s.table[s.procs[d].slot]);
      }
    }
  }

  /** A child that has been released does not mind its parent's going. */
  lemma ReleasedByGone(d: Proc, me: Process, q: Process, b: PCB)
    requires MeetingOk(d, me, q, b)
    ensures q.pc.Removing? && q.children == {} ==> MeetingOk(d, me, q.(pc := Gone), b)
  {
  }

  lemma RemoveKeepsParents(s: State, p: Proc)
    requires Inv(s) && p < |s.procs| && s.procs[p].pc.Removing?
    ensures Remove(s, p).Shape() && Parents(Remove(s, p))
  {
    hide Slots, Children, ExecOk, JoinedOk;
    Exiting(s, p);
    var s' := Remove(s, p);
    forall q | 0 <= q < |s.procs|
      ensures ParentOk(s', q)
    {
      assert ParentOk(s, q);
    }
  }

  // ---------------------------------------------------------------- every step

  lemma MoveKeepsInv(s: State, p: Proc)
    requires Inv(s) && p < |s.procs|
    ensures Inv(Move(s, p))
  {
    hide Inv, TestExec, Alloc, Lock, Fork, Unlock, EndExec, Check, CountWait, TestJoin, ReadCode, Release, Store,
      TouchParent, PostJoin, TestExit, Remove;
    match s.procs[p].pc
    case ExecTest(v) => TestExecKeepsInv(s, p, v);
    case ExecAlloc(v) => AllocKeepsInv(s, p, v);
    case ExecLock(c) => LockKeepsInv(s, p, c);
    case ExecFork(c) => ForkKeepsInv(s, p, c);
    case ExecUnlock(c) => UnlockKeepsInv(s, p, c);
    case ExecEnd(_) => EndExecKeepsInv(s, p);
    case JoinCheck(c) => CheckKeepsInv(s, p, c);
    case JoinInc(c) => CountWaitKeepsInv(s, p, c);
    case JoinTest(c) => TestJoinKeepsInv(s, p, c);
    case JoinRead(c) => ReadCodeKeepsInv(s, p, c);
    case JoinRelease(c, code) => ReleaseKeepsInv(s, p, c, code);
    case ExitStore(code) => StoreKeepsInv(s, p, code);
    case ExitDec => TouchParentKeepsInv(s, p, ExitDecEnd);
    case ExitDecEnd => TouchParentKeepsInv(s, p, ExitPost);
    case ExitPost => PostJoinKeepsInv(s, p);
    case ExitTest => TestExitKeepsInv(s, p);
    case Removing => RemoveKeepsInv(s, p);
    case _ =>
  }

  lemma StepKeepsInv(s: State, e: Event)
    requires Inv(s)
    ensures Inv(Step(s, e))
  {
    hide Move;
    if e.Continue? && e.p < |s.procs| {
      MoveKeepsInv(s, e.p);
    } else if !e.Continue? {
      CallsKeepInv(s, e);
    }
  }
}
