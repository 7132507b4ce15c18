/** Every interleaving of processes. */
module ProcessRuns {
  import opened Semaphores
  import opened ProcessTables
  import opened ProcessSteps

  /** In particular nobody ever touches a PCB that is not there, is refused by Join, or finds no such id at Exit. */
  ghost function Run(events: seq<Event>): (s: State)
    ensures Inv(s) && !s.failed
  {
    if events == [] then InitInv(); Init()
    else
      var s := Run(events[..|events| - 1]);
      StepKeepsInv(s, events[|events| - 1]);
      Step(s, events[|events| - 1])
  }

  lemma InitInv()
    ensures Inv(Init())
  {
  }

  /** Join returns the value that this very child passed to Exit, and no child is joined twice. */
  lemma JoinReturnsStoredCode(events: seq<Event>, k: nat, j: nat)
    requires k < |Run(events).joined| && j < |Run(events).joined|
    ensures var s := Run(events);
      && s.joined[k].0 < |s.procs| && s.procs[s.joined[k].0].code == Some(s.joined[k].1)
      && (s.joined[j].0 == s.joined[k].0 ==> j == k)
  {
    assert JoinedOk(Run(events));
  }

  /** A slot is cleared only after its process has been joined. */
  lemma ClearedAfterJoin(events: seq<Event>, c: Proc)
    requires 0 < c < |Run(events).procs| && (Run(events).procs[c].pc.Gone? || Run(events).procs[c].pc.Removing?)
    ensures WasJoined(Run(events).joined, c)
  {
    var s := Run(events);
    hide TableOk, OwnsSlot, ExecOk;
    assert ParentOk(s, s.procs[c].parent) && ChildOk(s, c) && Released(s.procs, c);
  }

  /** No call refers to a child that has been released; while a call does refer to a child, the child's slot still
      holds the child's own PCB. */
  lemma NoTouchAfterRelease(events: seq<Event>, p: Proc, c: Proc)
    requires p < |Run(events).procs| && Subject(Run(events).procs[p].pc) == Some(c)
    ensures var s := Run(events);
      && 0 < c < |s.procs| && s.procs[c].parent == p && !WasJoined(s.joined, c)
      && s.table[s.procs[c].slot].live && s.table[s.procs[c].slot].owner == c
  {
    var s := Run(events);
    hide TableOk, ExecOk, WasJoined;
    assert s.Shape() && Parents(s);
    Joining(s, p, c);
    assert !Released(s.procs, c);
  }

  /** Processes that are alive at the same time have different ids, and exactly their slots are taken. */
  lemma LiveIdsDistinct(events: seq<Event>, p: Proc, q: Proc)
    requires p < |Run(events).procs| && q < |Run(events).procs|
    requires !Run(events).procs[p].pc.Gone? && !Run(events).procs[q].pc.Gone?
    ensures var s := Run(events);
      (p != q ==> s.procs[p].slot != s.procs[q].slot) && s.procs[p].slot < MAX_PROCESS && s.slots[s.procs[p].slot]
  {
    var s := Run(events);
    OwnSlot(s, p);
    if s.procs[p].slot == s.procs[q].slot {
      IdsDiffer(s, p, q);
    }
  }

  lemma TakenSlotsAreLive(events: seq<Event>, i: nat)
    requires i < MAX_PROCESS && Run(events).slots[i]
    ensures var s := Run(events);
      exists p :: 0 <= p < |s.procs| && !s.procs[p].pc.Gone? && s.procs[p].slot == i
  {
    var s := Run(events);
    assert TableOk(s);
    var p := s.table[i].owner;
    assert 0 <= p < |s.procs|;
  }
}
