/** network/post.cc: a mailbox is a SynchList. PostOffices treats mailboxes as atomic queues; here the postal worker's
    Put is a call of Append in the monitor of the box, Get a call of RemoveFront, and every thread can be preempted
    wherever the monitor allows it. */
module MailBoxes {
  import opened Words
  import opened Semaphores
  import opened Mails
  import opened PostOffices
  import DeviceRuns
  import L = SynchLists
  import LR = SynchListRuns

  type List = L.State<Mail>
  type ListPC = L.PC<Mail>

  /** The `boxes` and `received` of `post` are not used: `lists` takes their place. */
  datatype Branch = Branch(post: Office, lists: seq<List>)
  {
    /** The message in the worker's hands, if it passes the worker's ASSERTs and is for box b. */
    function HandFor(b: nat): (m: Option<Mail>)
      ensures m.Some? ==> post.worker.Delivering? && b < |lists| && m.value.mail.to == b
    {
      if !post.worker.Delivering? then None else
      var m := MailOf(post.worker.packet, post.buffer);
      if b < |lists| && m.mail.to == b && m.mail.length <= MAX_MAIL_SIZE then Some(m) else None
    }
  }

  datatype Act =
    | Elsewhere(h: Happening)                       // a sender, or the network
    | WorkerRuns                                    // the postal worker runs
    | ReaderRuns(b: nat, t: Tid, c: L.Choice<Mail>)  // a thread runs that gets messages out of box b

  function OpenBranch(host: int32, numBoxes: nat, inbox: Buffer, buffer: Buffer): (br: Branch) {
    Branch(Open(host, numBoxes, inbox, buffer), seq(numBoxes, _ => L.Init()))
  }

  /** A step of the worker's thread in Append; when Append returns, the worker is back in its loop. */
  function PutStep(br: Branch, b: nat, m: Mail): (br': Branch)
    requires b < |br.lists|
  {
    var l := br.lists[b];
    var pc := l.At(WORKER);
    var post := br.post.(
      delivered := if pc.Appending? then br.post.delivered + [pc.item] else br.post.delivered,
      worker := if pc.Releasing? then Testing else br.post.worker);
    Branch(post, br.lists[b := L.Step(l, WORKER, L.StartAppend(m))])
  }

  function Work(br: Branch): (br': Branch) {
    if br.post.worker.Delivering? then
      var to := MailOf(br.post.worker.packet, br.post.buffer).mail.to;
      if 0 <= to && br.HandFor(to).Some? then PutStep(br, to, br.HandFor(to).value)
      else br.(post := br.post.(failed := true))
    else br.(post := Next(br.post, Happening.Work))
  }

  /** One step; an act that cannot happen in this state changes nothing. */
  function Do(br: Branch, a: Act): (br': Branch) {
    match a
    case Elsewhere(h) => if h.Sender? || h.Poll? then br.(post := Next(br.post, h)) else br
    case WorkerRuns => if br.post.failed then br else Work(br)
    case ReaderRuns(b, t, c) =>
      if br.post.failed || b >= |br.lists| || t == WORKER || c.StartAppend? then br
      else br.(lists := br.lists[b := L.Step(br.lists[b], t, c)])
  }

  function Run(start: Branch, acts: seq<Act>): (br: Branch) {
    if acts == [] then start else Do(Run(start, acts[..|acts| - 1]), acts[|acts| - 1])
  }

  // ---------------------------------------------------------------- one monitor

  /** In Append, after the item was put on the list. */
  predicate Past(pc: ListPC) {
    match pc
    case Signalling | Posting(_) | Posted(_) | Leaving(Return) | Releasing(Return) => true
    case _ => false
  }

  /** The item of a thread that is in Append and has not put it on the list yet. */
  function ItemOf(pc: ListPC): (m: Option<Mail>) {
    match pc
    case Acquire(ForAppend(m)) => Some(m)
    case Queued(ForAppend(m)) => Some(m)
    case Entered(ForAppend(m)) => Some(m)
    case Appending(m) => Some(m)
    case _ => None
  }

  /** The worker is in Append with the message in its hands and with no other, and the readers are not in Append. */
  ghost predicate ListOk(l: List, hand: Option<Mail>) {
    var pc := l.At(WORKER);
    && LR.Inv(l)
    && (pc.Idle? || (hand.Some? && (Past(pc) || ItemOf(pc) == hand)))
    && forall t :: t != WORKER ==> ItemOf(l.At(t)) == None
  }

  lemma OthersStay(l: List, t: Tid, c: L.Choice<Mail>, u: Tid)
    requires u != t
    ensures var pc, pc' := l.At(u), L.Step(l, t, c).At(u);
      Past(pc') == Past(pc) && ItemOf(pc') == ItemOf(pc) && pc'.Idle? == pc.Idle?
  {
    hide L.Step;
    L.OthersStay(l, t, c, u);
  }

  lemma WorkerMoves(l: List, m: Mail)
    requires var pc := l.At(WORKER); pc.Idle? || Past(pc) || ItemOf(pc) == Some(m)
    ensures var pc, pc' := l.At(WORKER), L.Step(l, WORKER, L.StartAppend(m)).At(WORKER);
      if pc.Releasing? then pc'.Idle?
      else if pc.Appending? || Past(pc) then Past(pc')
      else ItemOf(pc') == Some(m)
  {
  }

  lemma ReadersMove(l: List, t: Tid, c: L.Choice<Mail>)
    requires ItemOf(l.At(t)) == None && !c.StartAppend?
    ensures ItemOf(L.Step(l, t, c).At(t)) == None
  {
  }

  /** What a step does to the list, and what an atomic queue would have done. */
  ghost predicate QueueStep(l: List, l': List, put: Option<Mail>, take: bool) {
    if put.Some? then l'.list == l.list + [put.value] && l'.removed == l.removed
    else if take && l.list != [] then l'.list == l.list[1..] && l'.removed == l.removed + [l.list[0]]
    else l'.list == l.list && l'.removed == l.removed
  }

  lemma WorkerStep(l: List, m: Mail)
    requires ListOk(l, Some(m))
    ensures var pc, l' := l.At(WORKER), L.Step(l, WORKER, L.StartAppend(m));
      && ListOk(l', if pc.Releasing? then None else Some(m))
      && QueueStep(l, l', if pc.Appending? then Some(m) else None, false)
      && (Past(l'.At(WORKER)) <==> pc.Appending? || (Past(pc) && !pc.Releasing?))
      && (pc.Appending? ==> pc.item == m) && (pc.Releasing? ==> Past(pc))
  {
    hide LR.Inv, L.Step;
    var c := L.StartAppend(m);
    LR.StepKeepsInv(l, WORKER, c);
    LR.StepIsQueueStep(l, WORKER, c);
    WorkerMoves(l, m);
    forall t | t != WORKER
      ensures ItemOf(L.Step(l, WORKER, c).At(t)) == None
    {
      OthersStay(l, WORKER, c, t);
    }
  }

  lemma ReaderStep(l: List, hand: Option<Mail>, t: Tid, c: L.Choice<Mail>)
    requires ListOk(l, hand) && t != WORKER && !c.StartAppend?
    ensures var l' := L.Step(l, t, c);
      && ListOk(l', hand) && QueueStep(l, l', None, l.At(t).Taking?)
      && Past(l'.At(WORKER)) == Past(l.At(WORKER))
  {
    hide LR.Inv, L.Step;
    LR.StepKeepsInv(l, t, c);
    LR.StepIsQueueStep(l, t, c);
    ReadersMove(l, t, c);
    OthersStay(l, t, c, WORKER);
    forall u | u != WORKER
      ensures ItemOf(L.Step(l, t, c).At(u)) == None
    {
      if u != t {
        OthersStay(l, t, c, u);
      }
    }
  }

  // ---------------------------------------------------------------- the branch is an office with atomic mailboxes

  predicate HasPut(br: Branch) {
    br.post.worker.Delivering? &&
    var to := MailOf(br.post.worker.packet, br.post.buffer).mail.to;
    0 <= to && br.HandFor(to).Some? && Past(br.lists[to].At(WORKER))
  }

  function Lists(ls: seq<List>): (r: seq<seq<Mail>>)
    ensures |r| == |ls| && forall b :: 0 <= b < |ls| ==> r[b] == ls[b].list
  {
    seq(|ls|, b requires 0 <= b < |ls| => ls[b].list)
  }

  function Taken(ls: seq<List>): (r: seq<seq<Mail>>)
    ensures |r| == |ls| && forall b :: 0 <= b < |ls| ==> r[b] == ls[b].removed
  {
    seq(|ls|, b requires 0 <= b < |ls| => ls[b].removed)
  }

  /** The office with atomic mailboxes that the branch looks like: a message is delivered when it is on the list. */
  function Abs(br: Branch): (s: Office) {
    br.post.(boxes := Lists(br.lists), received := Taken(br.lists),
             worker := if HasPut(br) then Testing else br.post.worker)
  }

  ghost predicate BranchInv(br: Branch) {
    forall b :: 0 <= b < |br.lists| ==> ListOk(br.lists[b], br.HandFor(b))
  }

  /** What the atomic office does meanwhile. */
  function Seen(br: Branch, a: Act): (hs: seq<Happening>) {
    match a
    case Elsewhere(h) => if h.Sender? || h.Poll? then [h] else []
    case WorkerRuns =>
      if !br.post.worker.Delivering? then [Happening.Work] else
      var to := MailOf(br.post.worker.packet, br.post.buffer).mail.to;
      if 0 <= to && br.HandFor(to).Some? && !br.lists[to].At(WORKER).Appending? then [] else [Happening.Work]
    case ReaderRuns(b, t, c) =>
      if b < |br.lists| && t != WORKER && !c.StartAppend? && br.lists[b].At(t).Taking? then [Take(b)] else []
  }

  lemma PutRefines(br: Branch, b: nat, m: Mail)
    requires BranchInv(br) && !br.post.failed && br.HandFor(b) == Some(m)
    ensures var br' := PutStep(br, b, m);
      && BranchInv(br')
      && Abs(br') == if br.lists[b].At(WORKER).Appending? then Next(Abs(br), Happening.Work) else Abs(br)
  {
    hide ListOk, MailOf, L.Step, L.State.At;
    var br', l := PutStep(br, b, m), br.lists[b];
    WorkerStep(l, m);
    var pc := l.At(WORKER);
    assert br'.HandFor(b) == if pc.Releasing? then None else Some(m);
    assert HasPut(br) == Past(pc) && HasPut(br') == (!pc.Releasing? && Past(br'.lists[b].At(WORKER)));
    assert Taken(br'.lists) == Taken(br.lists);
    if pc.Appending? {
      assert Lists(br'.lists) == Lists(br.lists)[b := Lists(br.lists)[b] + [m]];
    } else {
      assert Lists(br'.lists) == Lists(br.lists);
    }
  }

  lemma ElsewhereRefines(br: Branch, h: Happening)
    requires BranchInv(br) && (h.Sender? || h.Poll?)
    ensures var br' := br.(post := Next(br.post, h));
      BranchInv(br') && Abs(br') == Next(Abs(br), h)
  {
    hide ListOk, MailOf, L.State.At, Past, DeviceRuns.Step, OnWire, Stamp, PacketOf, Lists, Taken;
    var br' := br.(post := Next(br.post, h));
    if h.Sender? {
      hide PollWire;
      assert br'.post.worker == br.post.worker && br'.post.buffer == br.post.buffer;
      assert HasPut(br') == HasPut(br);
    } else {
      hide Send;
      assert br'.post.worker == br.post.worker || (br.post.worker.Asleep? && br'.post.worker.Testing?);
      assert br'.post.buffer == br.post.buffer && HasPut(br') == HasPut(br);
    }
  }

  lemma WorkRefines(br: Branch)
    requires BranchInv(br) && !br.post.failed && !br.post.worker.Delivering?
    ensures var br' := br.(post := Next(br.post, Happening.Work));
      BranchInv(br') && Abs(br') == Next(Abs(br), Happening.Work)
  {
    hide MailOf, L.State.At, LR.Inv;
  }

  lemma ReaderRefines(br: Branch, b: nat, t: Tid, c: L.Choice<Mail>)
    requires BranchInv(br) && !br.post.failed && b < |br.lists| && t != WORKER && !c.StartAppend?
    ensures var br' := br.(lists := br.lists[b := L.Step(br.lists[b], t, c)]);
      && BranchInv(br')
      && Abs(br') == if br.lists[b].At(t).Taking? then Next(Abs(br), Take(b)) else Abs(br)
  {
    hide ListOk, MailOf, L.Step, L.State.At;
    var l := br.lists[b];
    ReaderStep(l, br.HandFor(b), t, c);
    var br' := br.(lists := br.lists[b := L.Step(l, t, c)]);
    assert HasPut(br') == HasPut(br);
    if l.At(t).Taking? && l.list != [] {
      assert Lists(br'.lists) == Lists(br.lists)[b := Lists(br.lists)[b][1..]];
      assert Taken(br'.lists) == Taken(br.lists)[b := Taken(br.lists)[b] + [Lists(br.lists)[b][0]]];
    } else {
      assert Lists(br'.lists) == Lists(br.lists) && Taken(br'.lists) == Taken(br.lists);
    }
  }

  lemma WorkerRefines(br: Branch)
    requires BranchInv(br) && !br.post.failed
    ensures BranchInv(Work(br))
    ensures Abs(Work(br)) == if Seen(br, WorkerRuns) == [] then Abs(br) else Next(Abs(br), Happening.Work)
  {
    if br.post.worker.Delivering? {
      var to := MailOf(br.post.worker.packet, br.post.buffer).mail.to;
      if 0 <= to && br.HandFor(to).Some? {
        hide BranchInv, PutStep, MailOf, Abs, Next, L.State.At;
        PutRefines(br, to, br.HandFor(to).value);
      } else {
        hide ListOk, MailOf, L.State.At;
        assert forall b :: Work(br).HandFor(b) == br.HandFor(b);
      }
    } else {
      hide BranchInv, Next, Abs, L.State.At;
      WorkRefines(br);
    }
  }

  /** Every step of the branch is a step of the office with atomic mailboxes, or none. */
  lemma DoRefines(br: Branch, a: Act)
    requires BranchInv(br)
    ensures BranchInv(Do(br, a))
    ensures Abs(Do(br, a)) == if Seen(br, a) == [] then Abs(br) else Next(Abs(br), Seen(br, a)[0])
  {
    if br.post.failed && !a.Elsewhere? {
      hide BranchInv, MailOf, L.State.At, HasPut, Lists, Taken;
      return;
    }
    hide BranchInv, Abs, Next, Work, MailOf, L.Step, L.State.At;
    match a
    case Elsewhere(h) =>
      if h.Sender? || h.Poll? {
        ElsewhereRefines(br, h);
      }
    case WorkerRuns => WorkerRefines(br);
    case ReaderRuns(b, t, c) =>
      if b < |br.lists| && t != WORKER && !c.StartAppend? {
        ReaderRefines(br, b, t, c);
      }
  }

  lemma OpensRefined(host: int32, numBoxes: nat, inbox: Buffer, buffer: Buffer)
    ensures var br := OpenBranch(host, numBoxes, inbox, buffer);
      BranchInv(br) && Abs(br) == Open(host, numBoxes, inbox, buffer)
  {
    hide LR.Inv;
    LR.InitInv<Mail>();
    var br := OpenBranch(host, numBoxes, inbox, buffer);
    assert Lists(br.lists) == seq<seq<Mail>>(numBoxes, _ => []) == Taken(br.lists);
  }

  /** Every run of a post office whose mailboxes are monitors is a run of the office with atomic mailboxes. */
  lemma {:induction false} RunRefines(host: int32, numBoxes: nat, inbox: Buffer, buffer: Buffer, acts: seq<Act>)
    returns (hs: seq<Happening>)
    ensures var br := Run(OpenBranch(host, numBoxes, inbox, buffer), acts);
      BranchInv(br) && Abs(br) == Days(Open(host, numBoxes, inbox, buffer), hs)
  {
    hide BranchInv, Abs, Next, Do, Seen, OpenBranch, Open;
    if acts == [] {
      OpensRefined(host, numBoxes, inbox, buffer);
      hs := [];
    } else {
      var before, a := acts[..|acts| - 1], acts[|acts| - 1];
      hs := RunRefines(host, numBoxes, inbox, buffer, before);
      var br := Run(OpenBranch(host, numBoxes, inbox, buffer), before);
      DoRefines(br, a);
      if Seen(br, a) != [] {
        DaysMore(Open(host, numBoxes, inbox, buffer), hs, Seen(br, a)[0]);
        hs := hs + [Seen(br, a)[0]];
      }
    }
  }

  /** For every interleaving of senders, network, postal worker and readers inside the monitors, and every box: what
      RemoveFront has taken out of the box is, byte for byte and in order, some of what was sent to it, and everything
      that the wire did not lose was taken out or is somewhere on the way, in order. */
  lemma ReceivedThroughSynchList(
    host: int32, numBoxes: nat, inbox: Buffer, buffer: Buffer, acts: seq<Act>, b: nat)
    returns (at: seq<nat>)
    requires b < |Run(OpenBranch(host, numBoxes, inbox, buffer), acts).lists|
    ensures var br := Run(OpenBranch(host, numBoxes, inbox, buffer), acts);
      var rest := InHand(Abs(br)) + Buffered(br.post) + Underway(br.post.wire);
      && Picks(br.lists[b].removed, ForBox(br.post.sent, b), at) && |br.post.kept| == |br.post.sent|
      && br.lists[b].removed + br.lists[b].list + ForBox(rest, b) == ForBox(Kept(br.post.sent, br.post.kept), b)
  {
    hide Days, Open, OpenBranch, Run, Picks, ForBox, Kept, Underway, MailOf, HasPut;
    var hs := RunRefines(host, numBoxes, inbox, buffer, acts);
    at := ReceivedAreSent(host, numBoxes, inbox, buffer, hs, b);
    NothingLostAfterTheWire(host, numBoxes, inbox, buffer, hs, b);
  }
}
