/** network/post.cc over machine/network.cc: any number of machines send mail to one machine over an ordered wire
    that may lose packets; on that machine a one-packet input buffer, the postal worker and the mailboxes pass it on. */
module PostOffices {
  import opened Words
  import opened Disks
  import opened Semaphores
  import opened DeviceRuns
  import opened Mails

  type Buffer = b: seq<byte> | |b| == 52 witness seq(52, i => 0)
  type Packet = w: seq<byte> | |w| == 64 witness seq(64, i => 0)

  /** What a thread passes to Send; the sizes are what Send asserts. */
  datatype LetterData = LetterData(to: int32, mail: Header, data: seq<byte>)
  type Letter = l: LetterData | l.mail.length <= 40 && 0 <= l.mail.to && |l.data| >= l.mail.length
    witness LetterData(0, Header(0, 0, 0), [])

  /** The loop of PostalDelivery. */
  datatype Worker =
    | Testing                       // about to test messageAvailable
    | Asleep
    | Fetching                      // past the semaphore, about to take the packet out of the input buffer
    | Delivering(packet: Header)    // the packet is in the worker's own buffer

  const WORKER: Tid := 0

  /** `sent` are the messages that were handed to the network for this machine, `kept` says which of them it did not
      lose; `delivered` are the messages the worker has put into mailboxes, in order. A mailbox is a SynchList, whose
      Append and RemoveFront are atomic; `received[b]` are the messages that Receive has returned from box b. */
  datatype Office = Office(
    host: int32, outs: map<int32, State<Letter>>, sent: seq<Mail>, kept: seq<bool>, wire: seq<Packet>,
    inHdr: Header, inbox: Buffer, available: Semaphore, worker: Worker, buffer: Buffer,
    delivered: seq<Mail>, boxes: seq<seq<Mail>>, received: seq<seq<Mail>>, failed: bool)
  {
    function Out(machine: int32): (s: State<Letter>) {
      if machine in outs then outs[machine] else Init()
    }
  }

  datatype Happening =
    | Sender(machine: int32, e: Event<Letter>, lost: bool, junk: Buffer, junkOnWire: Packet)
    | Poll            // NetworkInput::CallBack
    | Work            // the postal worker runs
    | Take(box: nat)  // a thread gets a message out of a mailbox

  function Open(host: int32, numBoxes: nat, inbox: Buffer, buffer: Buffer): (s: Office) {
    var empty := seq<seq<Mail>>(numBoxes, _ => []);
    Office(host, map[], [], [], [], Header(0, 0, 0), inbox, Semaphore(0, []), Testing, buffer, [], empty, empty, false)
  }

  /** The message that Send makes of a letter. */
  function Stamp(machine: int32, l: Letter): (m: Mail) {
    Mail(Header(l.to, machine, l.mail.length + HEADER_SIZE), l.mail, l.data[..l.mail.length])
  }

  function OnWire(machine: int32, l: Letter, junk: Buffer, junkOnWire: Packet): (w: Packet) {
    Wire(Stamp(machine, l).packet, Payload(l.mail, l.data, junk), junkOnWire)
  }

  /** A thread of some machine takes a step of Send; network->Send happens when its request is made. Mail for other
      machines takes other wires. Send does not know how many boxes the receiver has. */
  function Send(s: Office, machine: int32, e: Event<Letter>, lost: bool, junk: Buffer, junkOnWire: Packet)
    : (s': Office)
  {
    var out := s.Out(machine);
    var s1 := s.(outs := s.outs[machine := Step(out, e)]);
    if e.Continue? && out.At(e.t).Requesting? && !out.active && out.At(e.t).op.to == s.host then
      var l := out.At(e.t).op;
      s1.(sent := s.sent + [Stamp(machine, l)], kept := s.kept + [!lost],
          wire := if lost then s.wire else s.wire + [OnWire(machine, l, junk, junkOnWire)])
    else s1
  }

  /** NetworkInput::CallBack: pull in the next packet if the buffer is free, and post messageAvailable. */
  function PollWire(s: Office): (s': Office) {
    if s.inHdr.length != 0 || s.wire == [] then s else
    var w := s.wire[0];
    var h := PacketOf(w);
    if h.to != s.host || h.length > MAX_PACKET_SIZE then s.(failed := true) else
    var (available, front) := V(s.available);
    s.(wire := s.wire[1..], inHdr := h, inbox := Overlay(s.inbox, 0, w[HEADER_SIZE..HEADER_SIZE + h.length]),
       available := available, worker := if front == Some(WORKER) && s.worker.Asleep? then Testing else s.worker)
  }

  function TestAvailable(s: Office): (s': Office) {
    var (available, passed) := TryP(s.available, WORKER);
    s.(available := available, worker := if passed then Fetching else Asleep)
  }

  /** NetworkInput::Receive. When the buffer holds nothing, the caller's buffer keeps what it held before. */
  function Fetch(s: Office): (s': Office) {
    var h := s.inHdr;
    s.(inHdr := h.(length := 0), worker := Delivering(h),
       buffer := if 0 < h.length <= MAX_PACKET_SIZE then Overlay(s.buffer, 0, s.inbox[..h.length]) else s.buffer)
  }

  function Deliver(s: Office, h: Header): (s': Office) {
    var m := MailOf(h, s.buffer);
    if !(0 <= m.mail.to < |s.boxes| && m.mail.length <= MAX_MAIL_SIZE) then s.(failed := true)
    else s.(boxes := s.boxes[m.mail.to := s.boxes[m.mail.to] + [m]], delivered := s.delivered + [m], worker := Testing)
  }

  function TakeMail(s: Office, b: nat): (s': Office) {
    if b >= |s.boxes| || b >= |s.received| || s.boxes[b] == [] then s
    else s.(boxes := s.boxes[b := s.boxes[b][1..]], received := s.received[b := s.received[b] + [s.boxes[b][0]]])
  }

  /** A machine stops when an ASSERT fails; the others go on. */
  function Next(s: Office, h: Happening): (s': Office) {
    if s.failed && !(h.Sender? && h.machine != s.host) then s else
    match h
    case Sender(machine, e, lost, junk, junkOnWire) => Send(s, machine, e, lost, junk, junkOnWire)
    case Poll => PollWire(s)
    case Work => (
      match s.worker
      case Testing => TestAvailable(s)
      case Asleep => s
      case Fetching => Fetch(s)
      case Delivering(packet) => Deliver(s, packet))
    case Take(b) => TakeMail(s, b)
  }

  function Days(start: Office, hs: seq<Happening>): (s: Office) {
    if hs == [] then start else Next(Days(start, hs[..|hs| - 1]), hs[|hs| - 1])
  }

  // ---------------------------------------------------------------- sequences of messages

  /** The messages whose flag is set. */
  function Kept<T>(ms: seq<T>, flags: seq<bool>): (r: seq<T>)
    requires |ms| == |flags|
  {
    if ms == [] then [] else
    var n := |ms| - 1;
    Kept(ms[..n], flags[..n]) + if flags[n] then [ms[n]] else []
  }

  function ForBox(ms: seq<Mail>, b: nat): (r: seq<Mail>) {
    if ms == [] then [] else
    var n := |ms| - 1;
    ForBox(ms[..n], b) + if ms[n].mail.to == b then [ms[n]] else []
  }

  lemma KeptMore<T>(ms: seq<T>, flags: seq<bool>, m: T, flag: bool)
    requires |ms| == |flags|
    ensures Kept(ms + [m], flags + [flag]) == Kept(ms, flags) + if flag then [m] else []
  {
    assert (ms + [m])[..|ms|] == ms && (flags + [flag])[..|ms|] == flags;
  }

  lemma ForBoxMore(ms: seq<Mail>, m: Mail, b: nat)
    ensures ForBox(ms + [m], b) == ForBox(ms, b) + if m.mail.to == b then [m] else []
  {
    assert (ms + [m])[..|ms|] == ms;
  }

  lemma {:induction false} KeptFromSent<T>(ms: seq<T>, flags: seq<bool>, m: T)
    requires |ms| == |flags| && m in Kept(ms, flags)
    ensures m in ms
  {
    var n := |ms| - 1;
    if m in Kept(ms[..n], flags[..n]) {
      KeptFromSent(ms[..n], flags[..n], m);
    }
  }

  // ---------------------------------------------------------------- the invariant

  /** A message for this machine that fits the packet. */
  predicate Good(m: Mail, host: int32) {
    && m.packet.to == host && m.packet.length == m.mail.length + HEADER_SIZE
    && m.mail.length <= MAX_MAIL_SIZE && 0 <= m.mail.to && |m.data| == m.mail.length
  }

  function InHand(s: Office): (ms: seq<Mail>) {
    if s.worker.Delivering? then [MailOf(s.worker.packet, s.buffer)] else []
  }

  function Buffered(s: Office): (ms: seq<Mail>) {
    if s.inHdr.length != 0 then [MailOf(s.inHdr, s.inbox)] else []
  }

  function MailOnWire(w: Packet): (m: Mail) {
    MailOf(PacketOf(w), w[HEADER_SIZE..])
  }

  function Underway(wire: seq<Packet>): (ms: seq<Mail>)
    ensures |ms| == |wire|
  {
    seq(|wire|, i requires 0 <= i < |wire| => MailOnWire(wire[i]))
  }

  /** From the wire to the mailboxes nothing is lost, doubled or reordered, and every byte is where it belongs. */
  ghost predicate PipeInv(s: Office) {
    && |s.kept| == |s.sent|
    && s.delivered + InHand(s) + Buffered(s) + Underway(s.wire) == Kept(s.sent, s.kept)
    && forall m :: m in s.sent ==> Good(m, s.host)
  }

  /** The semaphore and the permit that the worker holds add up to what is in the input buffer. */
  ghost predicate PermitInv(s: Office) {
    && s.available.value + (if s.worker.Fetching? then 1 else 0) == (if s.inHdr.length != 0 then 1 else 0)
    && s.available.queue == (if s.worker.Asleep? then [WORKER] else [])
    && (s.worker.Asleep? ==> s.available.value == 0)
  }

  ghost predicate BoxInv(s: Office) {
    && |s.received| == |s.boxes|
    && forall b :: 0 <= b < |s.boxes| ==> s.received[b] + s.boxes[b] == ForBox(s.delivered, b)
  }

  /** The worker holds a message for a box that does not exist. */
  predicate HoldsMisaddressed(s: Office) {
    s.worker.Delivering? && |s.boxes| <= MailOf(s.worker.packet, s.buffer).mail.to
  }

  /** Only messages for existing boxes are put into boxes; the machine stops at the first other one. */
  ghost predicate StopInv(s: Office) {
    && (s.failed ==> HoldsMisaddressed(s))
    && (forall m :: m in s.delivered ==> m.mail.to < |s.boxes|)
  }

  ghost predicate OfficeInv(s: Office) {
    StopInv(s) && PipeInv(s) && PermitInv(s) && BoxInv(s) && forall m :: DeviceRuns.Inv(s.Out(m))
  }

  /** What has come off the wire is good. */
  lemma PipelineGood(s: Office, m: Mail)
    requires PipeInv(s) && (m in s.delivered || m in InHand(s) || m in Buffered(s) || m in Underway(s.wire))
    ensures Good(m, s.host)
  {
    hide InHand, Buffered, Underway, Good, Kept;
    assert m in s.delivered + InHand(s) + Buffered(s) + Underway(s.wire);
    KeptFromSent(s.sent, s.kept, m);
  }

  // ---------------------------------------------------------------- steps

  lemma StampedArrives(machine: int32, l: Letter, junk: Buffer, junkOnWire: Packet)
    ensures MailOnWire(OnWire(machine, l, junk, junkOnWire)) == Stamp(machine, l)
  {
    hide MailOf, Payload, Wire, PacketOf;
    var packet, payload := Stamp(machine, l).packet, Payload(l.mail, l.data, junk);
    WireRoundTrip(packet, payload, junkOnWire);
    var w := OnWire(machine, l, junk, junkOnWire);
    assert w[HEADER_SIZE..][..packet.length] == w[HEADER_SIZE..HEADER_SIZE + packet.length];
    PayloadRoundTrip(packet, l.mail, l.data, junk, w[HEADER_SIZE..]);
  }

  lemma UnderwayMore(wire: seq<Packet>, w: Packet)
    ensures Underway(wire + [w]) == Underway(wire) + [MailOnWire(w)]
  {
    hide MailOnWire;
  }

  lemma SentKeepsPipe(s: Office, s': Office, m: Mail, lost: bool, w: Packet)
    requires PipeInv(s) && Good(m, s.host) && MailOnWire(w) == m
    requires s' == s.(outs := s'.outs, sent := s.sent + [m], kept := s.kept + [!lost],
                      wire := if lost then s.wire else s.wire + [w])
    ensures PipeInv(s')
  {
    hide Good, MailOnWire, Underway, MailOf, Kept;
    KeptMore(s.sent, s.kept, m, !lost);
    UnderwayMore(s.wire, w);
    assert InHand(s') == InHand(s) && Buffered(s') == Buffered(s);
    var front := s.delivered + InHand(s) + Buffered(s);
    assert front + (Underway(s.wire) + [m]) == (front + Underway(s.wire)) + [m];
  }

  lemma SendStepKeepsPipe(s: Office, machine: int32, e: Event<Letter>, lost: bool, junk: Buffer, junkOnWire: Packet)
    requires PipeInv(s)
    ensures PipeInv(Send(s, machine, e, lost, junk, junkOnWire))
  {
    hide Step;
    var s', out := Send(s, machine, e, lost, junk, junkOnWire), s.Out(machine);
    if e.Continue? && out.At(e.t).Requesting? && !out.active && out.At(e.t).op.to == s.host {
      var l := out.At(e.t).op;
      StampedArrives(machine, l, junk, junkOnWire);
      assert Good(Stamp(machine, l), s.host);
      hide PipeInv, Good, OnWire, MailOnWire, Stamp;
      SentKeepsPipe(s, s', Stamp(machine, l), lost, OnWire(machine, l, junk, junkOnWire));
    } else {
      assert s' == s.(outs := s'.outs);
      hide Send, Good, Kept, MailOf;
      assert InHand(s') == InHand(s) && Buffered(s') == Buffered(s);
    }
  }

  lemma SendKeepsPipe(s: Office, h: Happening)
    requires PipeInv(s) && h.Sender?
    ensures PipeInv(Next(s, h))
  {
    hide PipeInv, Send;
    SendStepKeepsPipe(s, h.machine, h.e, h.lost, h.junk, h.junkOnWire);
  }

  /** Only the bytes that the header announces matter. */
  lemma SameBytesSameMail(h: Header, a: seq<byte>, b: seq<byte>, n: nat)
    requires HEADER_SIZE <= n <= |a| && n <= |b| && a[..n] == b[..n]
    requires MailOf(h, a).mail.length + HEADER_SIZE == n
    ensures MailOf(h, b) == MailOf(h, a)
  {
    assert a[..HEADER_SIZE] == a[..n][..HEADER_SIZE] && b[..HEADER_SIZE] == b[..n][..HEADER_SIZE];
    HeaderPrefix(a);
    HeaderPrefix(b);
    hide DecodeHeader;
    assert a[HEADER_SIZE..n] == a[..n][HEADER_SIZE..] && b[HEADER_SIZE..n] == b[..n][HEADER_SIZE..];
  }

  lemma HeaderPrefix(a: seq<byte>)
    requires |a| >= HEADER_SIZE
    ensures DecodeHeader(a) == DecodeHeader(a[..HEADER_SIZE])
  {
    assert forall i :: 0 <= i < HEADER_SIZE ==> a[..HEADER_SIZE][i] == a[i];
    assert DecodeWords(a, 3) == DecodeWords(a[..HEADER_SIZE], 3);
  }

  /** The pipeline, stage by stage. */
  ghost predicate Stages(s: Office, delivered: seq<Mail>, hand: seq<Mail>, buffered: seq<Mail>, wire: seq<Mail>) {
    s.delivered == delivered && InHand(s) == hand && Buffered(s) == buffered && Underway(s.wire) == wire
  }

  lemma SameMailOnTheMove(s: Office, s': Office, a: seq<Mail>, b: seq<Mail>, c: seq<Mail>, d: seq<Mail>)
    requires PipeInv(s) && s'.sent == s.sent && s'.kept == s.kept && s'.host == s.host && |s'.boxes| == |s.boxes|
    requires Stages(s', a, b, c, d) && a + b + c + d == s.delivered + InHand(s) + Buffered(s) + Underway(s.wire)
    ensures PipeInv(s')
  {
    hide InHand, Buffered, Underway, Good, Kept;
  }

  /** The packet in front is good, and what is put into the input buffer is what it carries. */
  lemma PolledMail(s: Office)
    requires PipeInv(s) && s.wire != []
    ensures var w := s.wire[0];
      var h := PacketOf(w);
      && h.to == s.host && HEADER_SIZE <= h.length <= MAX_PACKET_SIZE
      && MailOf(h, Overlay(s.inbox, 0, w[HEADER_SIZE..HEADER_SIZE + h.length])) == MailOnWire(w)
  {
    var w := s.wire[0];
    var m := MailOnWire(w);
    assert m == Underway(s.wire)[0];
    PipelineGood(s, m);
    hide MailOf, PacketOf, PipeInv, Underway;
    var h := PacketOf(w);
    var inbox := Overlay(s.inbox, 0, w[HEADER_SIZE..HEADER_SIZE + h.length]);
    assert inbox[..h.length] == w[HEADER_SIZE..][..h.length];
    SameBytesSameMail(h, w[HEADER_SIZE..], inbox, h.length);
  }

  lemma PollMoves(s: Office)
    requires PipeInv(s) && s.inHdr.length == 0 && s.wire != []
    ensures var s', m := PollWire(s), MailOnWire(s.wire[0]);
      && Stages(s', s.delivered, InHand(s), [m], Underway(s.wire[1..]))
      && Underway(s.wire) == [m] + Underway(s.wire[1..])
      && s' == s.(wire := s'.wire, inHdr := s'.inHdr, inbox := s'.inbox, available := s'.available, worker := s'.worker)
  {
    PolledMail(s);
    UnderwayFirst(s.wire);
    hide MailOf, PacketOf, PipeInv, MailOnWire, Overlay, Underway;
  }

  lemma UnderwayFirst(wire: seq<Packet>)
    requires wire != []
    ensures Underway(wire) == [MailOnWire(wire[0])] + Underway(wire[1..])
  {
    hide MailOnWire;
  }

  lemma PollKeepsPipe(s: Office)
    requires PipeInv(s)
    ensures PipeInv(PollWire(s)) && PollWire(s).failed == s.failed
    ensures s.inHdr.length == 0 && s.wire != [] ==> PollWire(s).inHdr.length != 0
  {
    if s.inHdr.length == 0 && s.wire != [] {
      PollMoves(s);
      var m, rest := MailOnWire(s.wire[0]), Underway(s.wire[1..]);
      hide PollWire, PipeInv, Underway, MailOnWire, MailOf;
      SameMailOnTheMove(s, PollWire(s), s.delivered, InHand(s), [m], rest);
    }
  }

  lemma FetchMoves(s: Office)
    requires PipeInv(s) && s.worker.Fetching? && s.inHdr.length != 0
    ensures Stages(Fetch(s), s.delivered, [MailOf(s.inHdr, s.inbox)], [], Underway(s.wire))
  {
    var m := MailOf(s.inHdr, s.inbox);
    assert m in Buffered(s);
    PipelineGood(s, m);
    hide MailOf, Underway, PipeInv;
    var n := s.inHdr.length;
    var s' := Fetch(s);
    assert s'.buffer[..n] == s.inbox[..n];
    SameBytesSameMail(s.inHdr, s.inbox, s'.buffer, n);
  }

  lemma FetchKeepsPipe(s: Office)
    requires PipeInv(s) && s.worker.Fetching? && s.inHdr.length != 0
    ensures PipeInv(Fetch(s))
  {
    FetchMoves(s);
    hide PipeInv, Underway, MailOf, Stages;
    SameMailOnTheMove(s, Fetch(s), s.delivered, [MailOf(s.inHdr, s.inbox)], [], Underway(s.wire));
  }

  lemma DeliverKeepsPipe(s: Office, h: Header)
    requires PipeInv(s) && s.worker == Delivering(h) && !HoldsMisaddressed(s)
    ensures PipeInv(Deliver(s, h)) && Deliver(s, h).failed == s.failed
    ensures Deliver(s, h).delivered == s.delivered + [MailOf(h, s.buffer)] && Good(MailOf(h, s.buffer), s.host)
  {
    var m := MailOf(h, s.buffer);
    assert m in InHand(s);
    PipelineGood(s, m);
    hide MailOf, Underway, PipeInv;
    SameMailOnTheMove(s, Deliver(s, h), s.delivered + [m], [], Buffered(s), Underway(s.wire));
  }

  lemma DeliverKeepsBoxes(s: Office, h: Header)
    requires BoxInv(s) && s.worker == Delivering(h) && !HoldsMisaddressed(s) && Good(MailOf(h, s.buffer), s.host)
    ensures BoxInv(Deliver(s, h))
  {
    hide MailOf;
    var m := MailOf(h, s.buffer);
    forall b: nat | b < |s.boxes|
      ensures Deliver(s, h).received[b] + Deliver(s, h).boxes[b] == ForBox(s.delivered + [m], b)
    {
      ForBoxMore(s.delivered, m, b);
    }
  }

  lemma StopKeepsInv(s: Office)
    requires OfficeInv(s)
    ensures HoldsMisaddressed(s) ==> OfficeInv(s.(failed := true))
  {
    hide DeviceRuns.Inv, MailOf, Kept, ForBox, Good;
    var s' := s.(failed := true);
    assert InHand(s') == InHand(s) && Buffered(s') == Buffered(s);
    forall m
      ensures DeviceRuns.Inv(s'.Out(m))
    {
      assert s'.Out(m) == s.Out(m);
    }
  }

  /** The worker's ASSERT fails exactly when the message in its hands names a box that does not exist. */
  lemma WorkFailsIff(s: Office)
    requires OfficeInv(s) && !s.failed
    ensures Next(s, Work).failed <==> HoldsMisaddressed(s)
    ensures HoldsMisaddressed(s) ==> Next(s, Work) == s.(failed := true)
  {
    hide DeviceRuns.Inv, BoxInv, PermitInv;
    if s.worker.Delivering? {
      var m := MailOf(s.worker.packet, s.buffer);
      assert m in InHand(s);
      PipelineGood(s, m);
    }
  }

  /** Nothing else that happens makes an ASSERT fail. */
  lemma OnlyWorkFails(s: Office, h: Happening)
    requires OfficeInv(s) && !s.failed && !h.Work?
    ensures !Next(s, h).failed
  {
    hide DeviceRuns.Inv, BoxInv, PermitInv, Step, OnWire, PipeInv;
    if h.Poll? {
      PollKeepsPipe(s);
    }
  }

  lemma WorkKeepsInv(s: Office)
    requires OfficeInv(s)
    ensures OfficeInv(Next(s, Work))
  {
    if !s.failed {
      WorkFailsIff(s);
      hide OfficeInv;
      if HoldsMisaddressed(s) {
        StopKeepsInv(s);
      } else {
        LiveWorkKeepsInv(s);
      }
    }
  }

  lemma LiveWorkKeepsInv(s: Office)
    requires OfficeInv(s) && !s.failed && !HoldsMisaddressed(s)
    ensures OfficeInv(Next(s, Work))
  {
    hide PipeInv, BoxInv, DeviceRuns.Inv, Deliver, Fetch, MailOf;
    var s' := Next(s, Work);
    match s.worker {
      case Testing => SamePipe(s, s');
      case Asleep =>
      case Fetching =>
        FetchKeepsPipe(s);
        FetchRest(s);
      case Delivering(h) =>
        DeliverKeepsPipe(s, h);
        DeliverKeepsBoxes(s, h);
        DeliverRest(s, h);
    }
    forall m
      ensures DeviceRuns.Inv(s'.Out(m))
    {
      assert s'.Out(m) == s.Out(m);
    }
  }

  lemma SamePipe(s: Office, s': Office)
    requires PipeInv(s) && BoxInv(s)
    requires s' == s.(available := s'.available, worker := s'.worker) && !s.worker.Delivering? && !s'.worker.Delivering?
    ensures PipeInv(s') && BoxInv(s')
  {
    assert InHand(s') == InHand(s) && Buffered(s') == Buffered(s);
  }

  lemma FetchRest(s: Office)
    requires PermitInv(s) && BoxInv(s) && s.worker.Fetching?
    ensures PermitInv(Fetch(s)) && BoxInv(Fetch(s)) && Fetch(s).outs == s.outs && Fetch(s).failed == s.failed
    ensures Fetch(s).delivered == s.delivered && Fetch(s).boxes == s.boxes
  {
  }

  lemma DeliverRest(s: Office, h: Header)
    requires PermitInv(s) && s.worker == Delivering(h) && Deliver(s, h).failed == s.failed == false
    ensures PermitInv(Deliver(s, h)) && Deliver(s, h).outs == s.outs && |Deliver(s, h).boxes| == |s.boxes|
  {
  }

  lemma TakeKeepsInv(s: Office, b: nat)
    requires OfficeInv(s) && !s.failed
    ensures OfficeInv(TakeMail(s, b))
  {
    hide DeviceRuns.Inv, HoldsMisaddressed;
    var s' := TakeMail(s, b);
    assert InHand(s') == InHand(s) && Buffered(s') == Buffered(s) && |s'.boxes| == |s.boxes|;
    hide Underway, InHand, Buffered, Good;
    forall c | 0 <= c < |s.boxes|
      ensures s'.received[c] + s'.boxes[c] == s.received[c] + s.boxes[c]
    {
    }
    forall m
      ensures DeviceRuns.Inv(s'.Out(m))
    {
      assert s'.Out(m) == s.Out(m);
    }
  }

  lemma PollKeepsInv(s: Office)
    requires OfficeInv(s) && !s.failed
    ensures OfficeInv(PollWire(s))
  {
    hide PipeInv, DeviceRuns.Inv, BoxInv;
    PollKeepsPipe(s);
    var s' := PollWire(s);
    assert BoxInv(s') by { PollRest(s); }
    forall m
      ensures DeviceRuns.Inv(s'.Out(m))
    {
      assert s'.Out(m) == s.Out(m);
    }
  }

  lemma PollRest(s: Office)
    requires BoxInv(s)
    ensures BoxInv(PollWire(s))
  {
  }

  lemma SendKeepsInv(s: Office, h: Happening)
    requires OfficeInv(s) && h.Sender?
    ensures OfficeInv(Next(s, h))
  {
    hide PipeInv, DeviceRuns.Inv, BoxInv, Step, MailOf;
    SendKeepsPipe(s, h);
    var s' := Next(s, h);
    assert BoxInv(s') by { SendRest(s, h); }
    DeviceRuns.StepKeepsInv(s.Out(h.machine), h.e);
    forall m
      ensures DeviceRuns.Inv(s'.Out(m))
    {
      if m != h.machine {
        assert s'.Out(m) == s.Out(m);
      }
    }
  }

  lemma SendRest(s: Office, h: Happening)
    requires BoxInv(s) && h.Sender?
    ensures BoxInv(Next(s, h))
  {
    hide Step, OnWire, Stamp;
  }

  lemma OpenInv(host: int32, numBoxes: nat, inbox: Buffer, buffer: Buffer)
    ensures OfficeInv(Open(host, numBoxes, inbox, buffer))
  {
    hide DeviceRuns.Inv;
    DeviceRuns.InitInv<Letter>();
  }

  // ---------------------------------------------------------------- every run

  lemma {:induction false} DaysKeepInv(start: Office, hs: seq<Happening>)
    requires OfficeInv(start)
    ensures OfficeInv(Days(start, hs))
  {
    if hs != [] {
      DaysKeepInv(start, hs[..|hs| - 1]);
      var s, h := Days(start, hs[..|hs| - 1]), hs[|hs| - 1];
      hide OfficeInv, Send, PollWire, TakeMail, TestAvailable, Fetch, Deliver;
      match h
      case Sender(_, _, _, _, _) => SendKeepsInv(s, h);
      case Poll =>
        if !s.failed {
          PollKeepsInv(s);
        }
      case Work => WorkKeepsInv(s);
      case Take(b) =>
        if !s.failed {
          TakeKeepsInv(s, b);
        }
    }
  }

  /** Positions of the elements of `a` among those of `b`, in order. */
  ghost predicate Picks<T(!new)>(a: seq<T>, b: seq<T>, at: seq<nat>) {
    && |at| == |a|
    && (forall i, j :: 0 <= i < j < |at| ==> at[i] < at[j])
    && (forall i :: 0 <= i < |at| ==> at[i] < |b| && a[i] == b[at[i]])
  }

  lemma PicksMore<T(!new)>(a: seq<T>, b: seq<T>, at: seq<nat>, x: T, taken: bool)
    requires Picks(a, b, at)
    ensures Picks(if taken then a + [x] else a, b + [x], if taken then at + [|b|] else at)
  {
  }

  lemma KeptForBox(sent: seq<Mail>, kept: seq<bool>, b: nat)
    requires |sent| == |kept| > 0
    ensures var n := |sent| - 1;
      var before, mine := Kept(sent[..n], kept[..n]), sent[n].mail.to == b;
      && ForBox(sent, b) == (if mine then ForBox(sent[..n], b) + [sent[n]] else ForBox(sent[..n], b))
      && ForBox(Kept(sent, kept), b) == if mine && kept[n] then ForBox(before, b) + [sent[n]] else ForBox(before, b)
  {
    var n := |sent| - 1;
    var before := Kept(sent[..n], kept[..n]);
    ForBoxMore(before, sent[n], b);
    ForBoxMore(sent[..n], sent[n], b);
    assert sent == sent[..n] + [sent[n]];
    if kept[n] {
      assert Kept(sent, kept) == before + [sent[n]];
    } else {
      assert Kept(sent, kept) == before + [] == before;
    }
  }

  lemma {:induction false} KeptArePicked(sent: seq<Mail>, kept: seq<bool>, b: nat) returns (at: seq<nat>)
    requires |sent| == |kept|
    ensures Picks(ForBox(Kept(sent, kept), b), ForBox(sent, b), at)
  {
    at := [];
    if sent != [] {
      var n := |sent| - 1;
      at := KeptArePicked(sent[..n], kept[..n], b);
      KeptForBox(sent, kept, b);
      var before, all := ForBox(Kept(sent[..n], kept[..n]), b), ForBox(sent[..n], b);
      hide *;
      if sent[n].mail.to == b {
        PicksMore(before, all, at, sent[n], kept[n]);
        at := if kept[n] then at + [|all|] else at;
      }
    }
  }

  lemma {:induction false} ForBoxAppend(a: seq<Mail>, c: seq<Mail>, b: nat)
    ensures ForBox(a + c, b) == ForBox(a, b) + ForBox(c, b)
  {
    if c == [] {
      assert a + c == a;
    } else {
      var n := |c| - 1;
      assert a + c == (a + c[..n]) + [c[n]];
      ForBoxAppend(a, c[..n], b);
      ForBoxMore(a + c[..n], c[n], b);
    }
  }

  lemma BoxAccount(s: Office, b: nat)
    requires PipeInv(s) && BoxInv(s) && b < |s.boxes|
    ensures s.received[b] + s.boxes[b] + ForBox(InHand(s) + Buffered(s) + Underway(s.wire), b)
         == ForBox(Kept(s.sent, s.kept), b)
  {
    hide InHand, Buffered, Underway;
    var rest := InHand(s) + Buffered(s) + Underway(s.wire);
    assert Kept(s.sent, s.kept) == s.delivered + rest;
    ForBoxAppend(s.delivered, rest, b);
  }

  lemma PicksPrefix<T(!new)>(a: seq<T>, c: seq<T>, b: seq<T>, at: seq<nat>)
    requires Picks(a + c, b, at)
    ensures |at| >= |a| && Picks(a, b, at[..|a|])
  {
    assert forall i :: 0 <= i < |a| ==> (a + c)[i] == a[i];
  }

  /** What has been delivered to a box is some of what was sent to it. */
  lemma DeliveredAreSent(s: Office, b: nat) returns (at: seq<nat>)
    requires PipeInv(s)
    ensures Picks(ForBox(s.delivered, b), ForBox(s.sent, b), at)
  {
    hide InHand, Buffered, Underway, Picks, Kept, ForBox;
    var rest := InHand(s) + Buffered(s) + Underway(s.wire);
    assert Kept(s.sent, s.kept) == s.delivered + rest;
    hide *;
    ForBoxAppend(s.delivered, rest, b);
    at := KeptArePicked(s.sent, s.kept, b);
    PicksPrefix(ForBox(s.delivered, b), ForBox(rest, b), ForBox(s.sent, b), at);
    at := at[..|ForBox(s.delivered, b)|];
  }

  lemma Reached(host: int32, numBoxes: nat, inbox: Buffer, buffer: Buffer, hs: seq<Happening>)
    ensures OfficeInv(Days(Open(host, numBoxes, inbox, buffer), hs))
  {
    hide *;
    OpenInv(host, numBoxes, inbox, buffer);
    DaysKeepInv(Open(host, numBoxes, inbox, buffer), hs);
  }

  /** The messages that Receive returns from a box are, byte for byte and in order, some of those sent to it, each at
      most once. */
  lemma ReceivedAreSent(host: int32, numBoxes: nat, inbox: Buffer, buffer: Buffer, hs: seq<Happening>, b: nat)
    returns (at: seq<nat>)
    requires b < |Days(Open(host, numBoxes, inbox, buffer), hs).received|
    ensures var s := Days(Open(host, numBoxes, inbox, buffer), hs);
      Picks(s.received[b], ForBox(s.sent, b), at)
  {
    Reached(host, numBoxes, inbox, buffer, hs);
    var s := Days(Open(host, numBoxes, inbox, buffer), hs);
    hide Days, Open, Picks, Kept, ForBox;
    assert PipeInv(s) && BoxInv(s);
    hide PipeInv;
    at := DeliveredAreSent(s, b);
    PicksPrefix(s.received[b], s.boxes[b], ForBox(s.sent, b), at);
    at := at[..|s.received[b]|];
  }

  /** What the wire did not lose is in the mailboxes or has been received, but for what is on the wire, in the input
      buffer or in the worker's hands; once these are empty it has all arrived. */
  lemma NothingLostAfterTheWire(host: int32, numBoxes: nat, inbox: Buffer, buffer: Buffer, hs: seq<Happening>, b: nat)
    requires b < |Days(Open(host, numBoxes, inbox, buffer), hs).received|
    ensures var s := Days(Open(host, numBoxes, inbox, buffer), hs);
      && |s.kept| == |s.sent| && |s.boxes| == |s.received|
      && s.received[b] + s.boxes[b] + ForBox(InHand(s) + Buffered(s) + Underway(s.wire), b)
         == ForBox(Kept(s.sent, s.kept), b)
  {
    Reached(host, numBoxes, inbox, buffer, hs);
    var s := Days(Open(host, numBoxes, inbox, buffer), hs);
    hide Days, Open, Kept, ForBox, InHand, Buffered, Underway;
    assert PipeInv(s) && BoxInv(s);
    BoxAccount(s, b);
  }

  /** The permits match the occupancy of the input buffer; the worker is never asleep while a packet waits, and never
      takes a packet that is not there. */
  lemma PermitsMatchOccupancy(host: int32, numBoxes: nat, inbox: Buffer, buffer: Buffer, hs: seq<Happening>)
    ensures var s := Days(Open(host, numBoxes, inbox, buffer), hs);
      && s.available.value + (if s.worker.Fetching? then 1 else 0) == (if s.inHdr.length != 0 then 1 else 0)
      && (s.worker.Asleep? ==> s.inHdr.length == 0)
      && (s.worker.Fetching? ==> s.inHdr.length != 0)
  {
    Reached(host, numBoxes, inbox, buffer, hs);
  }

  // ---------------------------------------------------------------- mail for boxes that do not exist

  lemma NextBoxes(s: Office, h: Happening)
    ensures |Next(s, h).boxes| == |s.boxes| && Next(s, h).host == s.host
    ensures h.Poll? || h.Work? ==> Next(s, h).sent == s.sent && Next(s, h).kept == s.kept
  {
    hide Step, MailOf, OnWire, Stamp;
  }

  lemma {:induction false} SameBoxes(start: Office, hs: seq<Happening>)
    ensures |Days(start, hs).boxes| == |start.boxes| && Days(start, hs).host == start.host
  {
    if hs != [] {
      SameBoxes(start, hs[..|hs| - 1]);
      NextBoxes(Days(start, hs[..|hs| - 1]), hs[|hs| - 1]);
      hide Next;
    }
  }

  /** Send checks only that the box number is not negative, and the receiving machine stops at the first message off the
      wire that names a box it does not have. Up to that message everything has been delivered. */
  lemma StopsAtFirstMisaddressed(host: int32, numBoxes: nat, inbox: Buffer, buffer: Buffer, hs: seq<Happening>)
    ensures var s := Days(Open(host, numBoxes, inbox, buffer), hs);
      && |s.kept| == |s.sent| && s.delivered <= Kept(s.sent, s.kept)
      && (forall m :: m in s.delivered ==> m.mail.to < numBoxes)
      && (s.failed ==>
            |s.delivered| < |Kept(s.sent, s.kept)| && numBoxes <= Kept(s.sent, s.kept)[|s.delivered|].mail.to)
  {
    Reached(host, numBoxes, inbox, buffer, hs);
    SameBoxes(Open(host, numBoxes, inbox, buffer), hs);
    var s := Days(Open(host, numBoxes, inbox, buffer), hs);
    hide Days, Kept, DeviceRuns.Inv, BoxInv, PermitInv, MailOf, Underway;
    assert StopInv(s) && PipeInv(s);
  }

  /** If every message sent names an existing box, no ASSERT ever fails. */
  lemma NoFailureIfWellAddressed(host: int32, numBoxes: nat, inbox: Buffer, buffer: Buffer, hs: seq<Happening>)
    requires forall m :: m in Days(Open(host, numBoxes, inbox, buffer), hs).sent ==> m.mail.to < numBoxes
    ensures !Days(Open(host, numBoxes, inbox, buffer), hs).failed
  {
    StopsAtFirstMisaddressed(host, numBoxes, inbox, buffer, hs);
    var s := Days(Open(host, numBoxes, inbox, buffer), hs);
    hide *;
    if s.failed {
      KeptFromSent(s.sent, s.kept, Kept(s.sent, s.kept)[|s.delivered|]);
    }
  }

  lemma DaysMore(start: Office, hs: seq<Happening>, h: Happening)
    ensures Days(start, hs + [h]) == Next(Days(start, hs), h)
  {
    assert (hs + [h])[..|hs|] == hs;
  }

  /** A message that the wire kept names a box that does not exist. */
  ghost predicate Doomed(s: Office) {
    |s.kept| == |s.sent| && exists m :: m in Kept(s.sent, s.kept) && |s.boxes| <= m.mail.to
  }

  /** Only the receiving machine runs. */
  predicate OnlyReceives(hs: seq<Happening>) {
    forall i :: 0 <= i < |hs| ==> hs[i].Poll? || hs[i].Work?
  }

  /** How many turns the network and the worker need at most to deliver what is on its way. */
  function Left(s: Office): (n: nat) {
    5 * |s.wire| + (if s.worker.Delivering? then 2 else 0)
    + if s.inHdr.length == 0 then 0 else if s.worker.Fetching? then 3 else 4
  }

  function Turn(s: Office): (h: Happening) {
    if s.inHdr.length == 0 && (s.worker.Testing? || s.worker.Asleep?) then Poll else Work
  }

  lemma TurnProgress(s: Office)
    requires OfficeInv(s) && !s.failed && Doomed(s)
    ensures var s' := Next(s, Turn(s));
      s'.failed || (Left(s') < Left(s) && Doomed(s') && s'.sent == s.sent)
  {
    hide DeviceRuns.Inv, BoxInv, MailOf, Kept, MailOnWire, Good;
    if s.inHdr.length == 0 && !s.worker.Fetching? && !s.worker.Delivering? {
      assert s.wire == [] ==> s.delivered + InHand(s) + Buffered(s) + Underway(s.wire) == s.delivered;
      assert s.wire != [];
      PollKeepsPipe(s);
    }
    hide PipeInv, Underway, InHand, Buffered, PacketOf;
  }

  /** Left to itself, the machine then stops. */
  lemma {:induction false} DoomedStops(start: Office, hs: seq<Happening>) returns (more: seq<Happening>)
    requires OfficeInv(start) && Doomed(Days(start, hs))
    ensures OnlyReceives(more) && Days(start, hs + more).failed
    decreases Left(Days(start, hs))
  {
    hide OfficeInv, Doomed, Left, Turn, Next, Days;
    var s := Days(start, hs);
    DaysKeepInv(start, hs);
    if s.failed {
      assert hs + [] == hs;
      more := [];
    } else {
      TurnProgress(s);
      DaysMore(start, hs, Turn(s));
      if Days(start, hs + [Turn(s)]).failed {
        more := [Turn(s)];
      } else {
        var rest := DoomedStops(start, hs + [Turn(s)]);
        more := [Turn(s)] + rest;
        assert hs + more == hs + [Turn(s)] + rest;
      }
      TurnReceives(s);
    }
  }

  lemma TurnReceives(s: Office)
    ensures Turn(s).Poll? || Turn(s).Work?
  {
  }

  lemma {:induction false} NothingMoreSent(start: Office, hs: seq<Happening>, more: seq<Happening>)
    requires OnlyReceives(more)
    ensures var s, s' := Days(start, hs), Days(start, hs + more); s'.sent == s.sent && s'.kept == s.kept
  {
    if more == [] {
      assert hs + more == hs;
    } else {
      var n := |more| - 1;
      var before, last := more[..n], more[n];
      assert OnlyReceives(before) && (last.Poll? || last.Work?) && hs + more == hs + before + [last];
      hide *;
      NothingMoreSent(start, hs, before);
      DaysMore(start, hs + before, last);
      NextBoxes(Days(start, hs + before), last);
    }
  }

  /** In every run: without anything more being sent, the receiving machine can come to stop exactly when the wire has
      kept a message, received or not, that names a box it does not have. */
  lemma StopsIffMisaddressed(host: int32, numBoxes: nat, inbox: Buffer, buffer: Buffer, hs: seq<Happening>)
    ensures var start := Open(host, numBoxes, inbox, buffer);
      Doomed(Days(start, hs)) <==> exists more :: OnlyReceives(more) && Days(start, hs + more).failed
  {
    hide Days, Open, Kept, OnlyReceives;
    var start := Open(host, numBoxes, inbox, buffer);
    OpenInv(host, numBoxes, inbox, buffer);
    if Doomed(Days(start, hs)) {
      var more := DoomedStops(start, hs);
    }
    if more :| OnlyReceives(more) && Days(start, hs + more).failed {
      StopsAtFirstMisaddressed(host, numBoxes, inbox, buffer, hs + more);
      NothingMoreSent(start, hs, more);
      SameBoxes(start, hs);
      OpenBoxes(host, numBoxes, inbox, buffer);
      var s := Days(start, hs + more);
      assert Kept(s.sent, s.kept)[|s.delivered|] in Kept(s.sent, s.kept);
    }
  }

  lemma OpenBoxes(host: int32, numBoxes: nat, inbox: Buffer, buffer: Buffer)
    ensures |Open(host, numBoxes, inbox, buffer).boxes| == numBoxes
  {
  }

  /** Thread `t` of a machine that has sent nothing yet calls Send, and the wire keeps the packet. */
  function SendLetter(machine: int32, t: Tid, l: Letter, junk: Buffer, junkOnWire: Packet): (hs: seq<Happening>) {
    var go := Sender(machine, Continue(t), false, junk, junkOnWire);
    [Sender(machine, Call(t, l), false, junk, junkOnWire)] + [go] + [go] + [go]
  }

  lemma LetterIsSent(start: Office, machine: int32, t: Tid, l: Letter, junk: Buffer, junkOnWire: Packet)
    requires start.outs == map[] && l.to == start.host && !start.failed
    ensures var s := Days(start, SendLetter(machine, t, l, junk, junkOnWire));
      s == start.(outs := s.outs, sent := start.sent + [Stamp(machine, l)], kept := start.kept + [true],
                  wire := start.wire + [OnWire(machine, l, junk, junkOnWire)])
  {
    var go, h0 := Sender(machine, Continue(t), false, junk, junkOnWire),
      Sender(machine, Call(t, l), false, junk, junkOnWire);
    assert Days(start, []) == start && [] + [h0] == [h0];
    hide OnWire, Stamp, Days, PollWire, TestAvailable, Fetch, Deliver, TakeMail;
    DaysMore(start, [], h0);
    DaysMore(start, [h0], go);
    DaysMore(start, [h0] + [go], go);
    DaysMore(start, [h0] + [go] + [go], go);
    CallAlone(t, l);
    hide Step;
    var s1 := Next(start, h0);
    assert s1 == start.(outs := s1.outs) && s1.Out(machine) == Step(Init(), Call(t, l));
    var s2 := Next(s1, go);
    assert s2 == start.(outs := s2.outs) && s2.Out(machine) == Step(s1.Out(machine), Continue(t));
    var s3 := Next(s2, go);
    assert s3 == start.(outs := s3.outs) && s3.Out(machine) == Step(s2.Out(machine), Continue(t));
  }

  /** A thread that has the device to itself makes its request after three steps, and not before. */
  lemma CallAlone(t: Tid, l: Letter)
    ensures var s0: State<Letter>, e := Init(), Event<Letter>.Continue(t);
      var s1 := Step(s0, Call(t, l));
      var s2 := Step(s1, e);
      var s3 := Step(s2, e);
      && !s0.At(t).Requesting? && !s1.At(t).Requesting? && !s2.At(t).Requesting?
      && s3.At(t) == Requesting(l) && !s3.active
  {
    hide Complete, ReleaseLock, Await, Ask;
  }

  /** Every letter to a box that does not exist, from any thread of any machine, stops the machine it is for. */
  lemma MisaddressedLetterStopsTheMachine(
    host: int32, numBoxes: nat, inbox: Buffer, buffer: Buffer, machine: int32, t: Tid, l: Letter, junk: Buffer,
    junkOnWire: Packet)
    returns (more: seq<Happening>)
    requires l.to == host && numBoxes <= l.mail.to
    ensures OnlyReceives(more)
    ensures Days(Open(host, numBoxes, inbox, buffer), SendLetter(machine, t, l, junk, junkOnWire) + more).failed
  {
    var start, hs := Open(host, numBoxes, inbox, buffer), SendLetter(machine, t, l, junk, junkOnWire);
    OpenInv(host, numBoxes, inbox, buffer);
    hide Days, SendLetter, OfficeInv;
    LetterIsSent(start, machine, t, l, junk, junkOnWire);
    KeptMore([], [], Stamp(machine, l), true);
    assert Kept(Days(start, hs).sent, Days(start, hs).kept) == [Stamp(machine, l)];
    assert Stamp(machine, l) in Kept(Days(start, hs).sent, Days(start, hs).kept);
    more := DoomedStops(start, hs);
  }
}
