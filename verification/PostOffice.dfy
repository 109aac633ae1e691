/** The post offices of any number of machines, joined by sockets that keep
    packets in order and may lose them. */
module PostOffices {
  import opened Bytes
  import opened Semaphores
  import opened Networks

  /** The postal worker: in the `P` on `messageAvailable`, past it and about to
      call `Receive`, or putting a mail into its box. */
  datatype Worker = Testing | Called | Carrying(mail: Mail)

  const WORKER: Tid := 0

  datatype Sent = Sent(mail: Mail, lost: bool)

  /** One machine. The last four fields are history: what was sent from here,
      what entered the socket, what the worker put into boxes, and what was
      received from each box. */
  datatype Host = Host(
    socket: seq<seq<byte>>,
    input: Input,
    available: Sem,
    worker: Worker,
    buffer: seq<byte>,
    boxes: seq<seq<Mail>>,
    halted: bool,
    sent: seq<Sent>,
    accepted: seq<Mail>,
    put: seq<Mail>,
    received: seq<seq<Mail>>)

  type Net = seq<Host>

  datatype Step =
    | Send(m: nat, to: int32, mailHdr: Header, data: seq<byte>, lost: bool, junk: seq<byte>)
    | Poll(m: nat)
    | Test(m: nat)
    | Receive(m: nat)
    | Put(m: nat)
    | Get(m: nat, box: int)

  predicate Enabled(net: Net, step: Step) {
    && step.m < |net| && |net| <= 0x8000_0000 && !net[step.m].halted
    && match step
       case Send(_, _, h, data, _, junk) => |data| >= h.length && |junk| == 64
       case Poll(_) => true
       case Test(m) => net[m].worker.Testing? && WORKER !in net[m].available.queue
       case Receive(m) => net[m].worker.Called?
       case Put(m) => net[m].worker.Carrying?
       case Get(m, box) => 0 <= box < |net[m].boxes| ==> net[m].boxes[box] != [] && box < |net[m].received|
  }

  function Halt(h: Host): Host {
    h.(halted := true)
  }

  /** `PostOfficeOutput::Send` and `NetworkOutput::Send`. A packet for a machine
      that does not exist is lost. */
  function Sending(net: Net, m: nat, to: int32, mailHdr: Header, data: seq<byte>, lost: bool, junk: seq<byte>): Net
    requires m < |net| <= 0x8000_0000 && |data| >= mailHdr.length && |junk| == 64
  {
    if mailHdr.length > MAX_MAIL_SIZE || mailHdr.to < 0 then net[m := Halt(net[m])] else
      var mail := Mail(Header(to, m, mailHdr.length + 12), mailHdr, data[..mailHdr.length]);
      var gone := lost || !(0 <= to < |net|);
      var net' := net[m := net[m].(sent := net[m].sent + [Sent(mail, gone)])];
      if gone then net' else
        net'[to := net'[to].(socket := net'[to].socket + [Packet(mail, junk)], accepted := net'[to].accepted + [mail])]
  }

  /** `NetworkInput::CallBack` and the `V` of `PostOfficeInput::CallBack`. */
  function Polling(h: Host, m: nat): Host {
    if h.input.inHdr.length != 0 || h.socket == [] then h
    else if !Addressed(h.socket[0], m) || |h.input.inbox| != MAX_PACKET_SIZE then Halt(h)
    else h.(socket := h.socket[1..], input := Polled(h.input, h.socket[0]), available := DoV(h.available))
  }

  function Tested(h: Host): Host {
    h.(available := TestP(h.available, WORKER), worker := if Sleeps(h.available) then Testing else Called)
  }

  /** `NetworkInput::Receive` into the worker's buffer, and the checks on the mail. */
  function Receiving(h: Host): Host {
    var n := h.input.inHdr.length;
    if n > |h.input.inbox| || n > |h.buffer| || |h.buffer| < 12 then Halt(h) else
      var buffer := Splice(h.buffer, 0, h.input.inbox[..n]);
      var mailHdr := DecodeHeader(buffer);
      var h' := h.(input := Emptied(h.input), buffer := buffer);
      if mailHdr.length > MAX_MAIL_SIZE || 12 + mailHdr.length > |buffer| then Halt(h') else
        var mail := Mail(h.input.inHdr, mailHdr, buffer[12..12 + mailHdr.length]);
        h'.(worker := Carrying(mail), halted := !(0 <= mailHdr.to < |h.boxes|))
  }

  /** `MailBox::Put`: first in, first out. */
  function Putting(h: Host): Host
    requires h.worker.Carrying?
  {
    var mail := h.worker.mail;
    if !(0 <= mail.mailHdr.to < |h.boxes|) then Halt(h) else
      h.(boxes := h.boxes[mail.mailHdr.to := h.boxes[mail.mailHdr.to] + [mail]], put := h.put + [mail], worker := Testing)
  }

  /** `PostOfficeInput::Receive`, when the box is not empty. */
  function Getting(h: Host, box: int): Host
    requires 0 <= box < |h.boxes| ==> h.boxes[box] != [] && box < |h.received|
  {
    if !(0 <= box < |h.boxes|) then Halt(h) else
      h.(boxes := h.boxes[box := h.boxes[box][1..]], received := h.received[box := h.received[box] + [h.boxes[box][0]]])
  }

  function Next(net: Net, step: Step): Net
    requires Enabled(net, step)
  {
    match step
    case Send(m, to, h, data, lost, junk) => Sending(net, m, to, h, data, lost, junk)
    case Poll(m) => net[m := Polling(net[m], m)]
    case Test(m) => net[m := Tested(net[m])]
    case Receive(m) => net[m := Receiving(net[m])]
    case Put(m) => net[m := Putting(net[m])]
    case Get(m, box) => net[m := Getting(net[m], box)]
  }

  // ---- selections ----

  predicate Meets(mail: Mail, from: int, box: int) {
    mail.pktHdr.from == from && mail.mailHdr.to == box
  }

  /** The mails from a machine for a box. */
  function Select(ms: seq<Mail>, from: int, box: int): seq<Mail> {
    if ms == [] then [] else
      var rest := Select(ms[..|ms| - 1], from, box);
      if Meets(ms[|ms| - 1], from, box) then rest + [ms[|ms| - 1]] else rest
  }

  function ForBox(ms: seq<Mail>, box: int): seq<Mail> {
    if ms == [] then [] else
      var rest := ForBox(ms[..|ms| - 1], box);
      if ms[|ms| - 1].mailHdr.to == box then rest + [ms[|ms| - 1]] else rest
  }

  predicate Chosen(s: Sent, to: int, box: int) {
    !s.lost && s.mail.pktHdr.to == to && s.mail.mailHdr.to == box
  }

  /** The mails sent to a box of a machine and not lost. */
  function Surviving(log: seq<Sent>, to: int, box: int): seq<Mail> {
    if log == [] then [] else
      var rest := Surviving(log[..|log| - 1], to, box);
      if Chosen(log[|log| - 1], to, box) then rest + [log[|log| - 1].mail] else rest
  }

  lemma SelectSnoc(ms: seq<Mail>, mail: Mail, from: int, box: int)
    ensures Select(ms + [mail], from, box) == Select(ms, from, box) + (if Meets(mail, from, box) then [mail] else [])
  {
    assert (ms + [mail])[..|ms|] == ms;
  }

  lemma {:induction false} SelectConcat(a: seq<Mail>, b: seq<Mail>, from: int, box: int)
    ensures Select(a + b, from, box) == Select(a, from, box) + Select(b, from, box)
  {
    if b == [] {
      assert a + b == a;
    } else {
      var n := |b| - 1;
      SelectConcat(a, b[..n], from, box);
      assert (a + b)[..|a + b| - 1] == a + b[..n];
    }
  }

  /** Selecting by box first changes nothing. */
  lemma {:induction false} SelectForBox(ms: seq<Mail>, from: int, box: int)
    ensures Select(ForBox(ms, box), from, box) == Select(ms, from, box)
  {
    if ms != [] {
      var n := |ms| - 1;
      SelectForBox(ms[..n], from, box);
      SelectSnoc(ForBox(ms[..n], box), ms[n], from, box);
    }
  }

  /** The positions in the log of the surviving mails. */
  function Positions(log: seq<Sent>, to: int, box: int): seq<nat> {
    if log == [] then [] else
      var n := |log| - 1;
      var rest := Positions(log[..n], to, box);
      if Chosen(log[n], to, box) then rest + [n] else rest
  }

  /** The surviving mails are a subsequence of the log: a strictly increasing
      choice of positions, so each send is delivered at most once and in order. */
  lemma {:induction false} SurvivingIsSubsequence(log: seq<Sent>, to: int, box: int)
    ensures var at := Positions(log, to, box);
            && |at| == |Surviving(log, to, box)|
            && (forall i :: 0 <= i < |at| ==> at[i] < |log| && log[at[i]].mail == Surviving(log, to, box)[i] && Chosen(log[at[i]], to, box))
            && (forall i, j :: 0 <= i < j < |at| ==> at[i] < at[j])
  {
    if log != [] {
      SurvivingIsSubsequence(log[..|log| - 1], to, box);
    }
  }

  // ---- what every step keeps ----

  function Arrived(packets: seq<seq<byte>>): seq<Mail>
    requires forall p :: p in packets ==> |p| >= 24 && WfPayload(DecodeHeader(p), p[12..])
  {
    seq(|packets|, i requires 0 <= i < |packets| => PacketMail(packets[i]))
  }

  ghost predicate SocketOk(packets: seq<seq<byte>>, m: int) {
    forall p :: p in packets ==> WfPacket(p, m)
  }

  lemma ArrivedFront(packets: seq<seq<byte>>, m: int)
    requires SocketOk(packets, m) && packets != []
    ensures SocketOk(packets[1..], m) && WfPacket(packets[0], m)
    ensures Arrived(packets) == [PacketMail(packets[0])] + Arrived(packets[1..])
  {
    hide WfPayload, DecodeHeader, PacketMail;
  }

  lemma ArrivedBack(packets: seq<seq<byte>>, p: seq<byte>, m: int)
    requires SocketOk(packets, m) && WfPacket(p, m)
    ensures SocketOk(packets + [p], m) && Arrived(packets + [p]) == Arrived(packets) + [PacketMail(p)]
  {
    hide WfPayload, DecodeHeader, PacketMail;
  }

  /** The inbox is full exactly when a unit is on the semaphore or in the
      worker's hand, so the worker never receives from an empty inbox and no
      arrival goes unnoticed. */
  ghost predicate InputOk(h: Host, m: int) {
    && |h.input.inbox| == MAX_PACKET_SIZE && |h.buffer| == MAX_PACKET_SIZE
    && h.available.value >= 0
    && h.available.value + (if h.worker.Called? then 1 else 0) == (if h.input.inHdr.length != 0 then 1 else 0)
    && (h.available.queue == [] || (h.available.queue == [WORKER] && h.available.value == 0 && h.worker.Testing?))
    && (h.input.inHdr.length != 0 ==> h.input.inHdr.to == m && WfPayload(h.input.inHdr, h.input.inbox))
  }

  ghost function InHand(h: Host): seq<Mail> {
    if h.worker.Carrying? then [h.worker.mail] else []
  }

  ghost function InInbox(h: Host): seq<Mail> {
    if h.input.inHdr.length != 0 && WfPayload(h.input.inHdr, h.input.inbox) then [PayloadMail(h.input.inHdr, h.input.inbox)] else []
  }

  /** What entered the socket is, in order: put into boxes, in the worker's
      hand, in the inbox, or still in the socket. */
  ghost predicate InOrder(h: Host, m: int) {
    && SocketOk(h.socket, m)
    && h.accepted == h.put + InHand(h) + InInbox(h) + Arrived(h.socket)
  }

  ghost predicate BoxesOk(h: Host) {
    && |h.received| == |h.boxes|
    && forall b :: 0 <= b < |h.boxes| ==> h.received[b] + h.boxes[b] == ForBox(h.put, b)
  }

  ghost predicate HostOk(h: Host, m: int) {
    InputOk(h, m) && InOrder(h, m) && BoxesOk(h)
  }

  /** The mails from `s` for a box that entered the socket of `r` are the ones
      that `s` sent there and that were not lost. */
  ghost predicate WireOk(net: Net) {
    forall s, r, box: int :: 0 <= s < |net| && 0 <= r < |net| ==>
      Select(net[r].accepted, s, box) == Surviving(net[s].sent, r, box)
  }

  ghost predicate Ok(net: Net) {
    WireOk(net) && forall m :: 0 <= m < |net| ==> HostOk(net[m], m)
  }

  lemma HaltOk(h: Host, m: int)
    requires HostOk(h, m)
    ensures HostOk(Halt(h), m)
  {
    hide WfPayload;
  }

  lemma PolledInput(h: Host, h': Host, m: nat)
    requires InputOk(h, m) && h.input.inHdr.length == 0 && h.socket != [] && WfPacket(h.socket[0], m)
    requires h' == h.(socket := h.socket[1..], input := Polled(h.input, h.socket[0]), available := DoV(h.available))
    ensures InputOk(h', m) && InInbox(h') == [PacketMail(h.socket[0])] && InInbox(h) == []
  {
    PolledMail(h.input, h.socket[0], m);
    assert |h'.input.inbox| == MAX_PACKET_SIZE;
    hide Polled, WfPacket, PacketMail, PayloadMail, DecodeHeader;
    assert h'.input.inHdr.length != 0;
  }

  lemma PolledOk(h: Host, m: nat)
    requires HostOk(h, m) && h.input.inHdr.length == 0 && h.socket != []
    ensures WfPacket(h.socket[0], m)
    ensures HostOk(h.(socket := h.socket[1..], input := Polled(h.input, h.socket[0]), available := DoV(h.available)), m)
  {
    ArrivedFront(h.socket, m);
    var h' := h.(socket := h.socket[1..], input := Polled(h.input, h.socket[0]), available := DoV(h.available));
    PolledInput(h, h', m);
    SameBoxes(h, h');
    hide SocketOk, Arrived, Polled, WfPacket, PacketMail, BoxesOk, InputOk, InInbox, DoV;
    assert InHand(h') == InHand(h);
  }

  lemma PollingOk(h: Host, m: nat)
    requires HostOk(h, m)
    ensures HostOk(Polling(h, m), m) && (!h.halted ==> !Polling(h, m).halted)
  {
    if h.input.inHdr.length == 0 && h.socket != [] {
      PolledOk(h, m);
      assert Addressed(h.socket[0], m) && |h.input.inbox| == MAX_PACKET_SIZE;
      hide HostOk;
    }
  }

  lemma TestedOk(h: Host, m: int)
    requires HostOk(h, m) && h.worker.Testing? && WORKER !in h.available.queue
    ensures HostOk(Tested(h), m)
  {
    hide WfPayload, WfPacket;
    assert InInbox(Tested(h)) == InInbox(h);
  }

  /** The worker finds a mail, and takes out of its buffer the one in the inbox. */
  lemma ReceivedMail(h: Host, m: int)
    requires InputOk(h, m) && h.worker.Called?
    ensures h.input.inHdr.length != 0 && |Receiving(h).buffer| == MAX_PACKET_SIZE
    ensures Receiving(h).worker == Carrying(PayloadMail(h.input.inHdr, h.input.inbox))
    ensures Receiving(h) == h.(input := Emptied(h.input), buffer := Receiving(h).buffer,
                               worker := Receiving(h).worker, halted := Receiving(h).halted)
  {
    hide DecodeHeader, EncodeHeader;
    var hdr := h.input.inHdr;
    var buffer := Splice(h.buffer, 0, h.input.inbox[..hdr.length]);
    assert buffer[..hdr.length] == h.input.inbox[..hdr.length];
    PayloadPrefix(hdr, h.input.inbox, buffer);
    assert Receiving(h).worker == Carrying(PayloadMail(hdr, buffer));
  }

  lemma ReceivingOk(h: Host, m: int)
    requires HostOk(h, m) && h.worker.Called?
    ensures HostOk(Receiving(h), m)
  {
    ReceivedMail(h, m);
    var h' := Receiving(h);
    hide Receiving;
    SameBoxes(h, h');
    hide WfPayload, PayloadMail, SocketOk, Arrived, BoxesOk;
    assert InHand(h') == InInbox(h) && InInbox(h') == [] && InHand(h) == [];
  }

  lemma PuttingOk(h: Host, m: int)
    requires HostOk(h, m) && h.worker.Carrying? && !h.halted
    ensures HostOk(Putting(h), m)
  {
    hide WfPayload, WfPacket, DecodeHeader;
    var h', mail := Putting(h), h.worker.mail;
    assert InInbox(h') == InInbox(h);
    if 0 <= mail.mailHdr.to < |h.boxes| {
      assert h'.put[..|h.put|] == h.put;
      forall b | 0 <= b < |h'.boxes| ensures h'.received[b] + h'.boxes[b] == ForBox(h'.put, b) {
        assert h.received[b] + h.boxes[b] == ForBox(h.put, b);
      }
    }
  }

  lemma GettingOk(h: Host, m: int, box: int)
    requires HostOk(h, m) && (0 <= box < |h.boxes| ==> h.boxes[box] != [])
    ensures HostOk(Getting(h, box), m)
  {
    hide WfPayload, WfPacket, DecodeHeader;
    var h' := Getting(h, box);
    assert InInbox(h') == InInbox(h);
    if 0 <= box < |h.boxes| {
      forall b | 0 <= b < |h'.boxes| ensures h'.received[b] + h'.boxes[b] == ForBox(h'.put, b) {
        assert h.received[b] + h.boxes[b] == ForBox(h.put, b);
        assert h.boxes[box] == [h.boxes[box][0]] + h.boxes[box][1..];
      }
    }
  }

  /** A step inside one machine. */
  lemma LocalOk(net: Net, m: nat, h: Host)
    requires Ok(net) && m < |net| && HostOk(h, m) && h.accepted == net[m].accepted && h.sent == net[m].sent
    ensures Ok(net[m := h])
  {
    hide HostOk, Select, Surviving;
    var net' := net[m := h];
    forall s, r, box: int | 0 <= s < |net'| && 0 <= r < |net'|
      ensures Select(net'[r].accepted, s, box) == Surviving(net'[s].sent, r, box)
    {
      assert Select(net[r].accepted, s, box) == Surviving(net[s].sent, r, box);
    }
  }

  lemma SurvivingSnoc(log: seq<Sent>, x: Sent, to: int, box: int)
    ensures Surviving(log + [x], to, box) == Surviving(log, to, box) + (if Chosen(x, to, box) then [x.mail] else [])
  {
    assert (log + [x])[..|log|] == log;
  }

  /** A packet joins the end of the socket and of the sender's log. */
  lemma SendingWire(net: Net, net': Net, m: nat, x: Sent)
    requires WireOk(net) && |net'| == |net| && m < |net| && x.mail.pktHdr.from == m
    requires !x.lost ==> 0 <= x.mail.pktHdr.to < |net|
    requires forall s :: 0 <= s < |net| ==> net'[s].sent == if s == m then net[s].sent + [x] else net[s].sent
    requires forall r :: 0 <= r < |net| ==>
               net'[r].accepted == if !x.lost && r == x.mail.pktHdr.to then net[r].accepted + [x.mail] else net[r].accepted
    ensures WireOk(net')
  {
    hide Select, Surviving;
    forall s, r, box: int | 0 <= s < |net'| && 0 <= r < |net'|
      ensures Select(net'[r].accepted, s, box) == Surviving(net'[s].sent, r, box)
    {
      assert Select(net[r].accepted, s, box) == Surviving(net[s].sent, r, box);
      SelectSnoc(net[r].accepted, x.mail, s, box);
      SurvivingSnoc(net[s].sent, x, r, box);
    }
  }

  lemma ArrivesOk(h: Host, m: int, mail: Mail, junk: seq<byte>, sent: seq<Sent>)
    requires HostOk(h, m) && |junk| == 64 && mail.pktHdr.to == m && |mail.data| <= MAX_MAIL_SIZE
    requires mail.mailHdr.length == |mail.data| && mail.pktHdr.length == |mail.data| + 12
    ensures HostOk(h.(sent := sent, socket := h.socket + [Packet(mail, junk)], accepted := h.accepted + [mail]), m)
  {
    PacketRoundTrip(mail, junk);
    ArrivedBack(h.socket, Packet(mail, junk), m);
    var h' := h.(sent := sent, socket := h.socket + [Packet(mail, junk)], accepted := h.accepted + [mail]);
    hide WfPayload, WfPacket, PacketMail, PayloadMail, Packet, SocketOk, Arrived, BoxesOk;
    assert InInbox(h') == InInbox(h) && InHand(h') == InHand(h);
    assert BoxesOk(h') by { SameBoxes(h, h'); }
  }

  lemma SameBoxes(h: Host, h': Host)
    requires BoxesOk(h) && h'.received == h.received && h'.boxes == h.boxes && h'.put == h.put
    ensures BoxesOk(h')
  {
  }

  lemma SendingOk(net: Net, m: nat, to: int32, mailHdr: Header, data: seq<byte>, lost: bool, junk: seq<byte>)
    requires Ok(net) && m < |net| <= 0x8000_0000 && |data| >= mailHdr.length && |junk| == 64
    ensures Ok(Sending(net, m, to, mailHdr, data, lost, junk))
  {
    hide HostOk, WireOk, Packet;
    if mailHdr.length > MAX_MAIL_SIZE || mailHdr.to < 0 {
      HaltOk(net[m], m);
      LocalOk(net, m, Halt(net[m]));
    } else {
      var mail := Mail(Header(to, m, mailHdr.length + 12), mailHdr, data[..mailHdr.length]);
      var x := Sent(mail, lost || !(0 <= to < |net|));
      var net' := Sending(net, m, to, mailHdr, data, lost, junk);
      SendingWire(net, net', m, x);
      forall r | 0 <= r < |net'| ensures HostOk(net'[r], r) {
        if !x.lost && r == to {
          ArrivesOk(net[r], r, mail, junk, net'[r].sent);
        } else {
          assert net'[r] == net[r].(sent := net'[r].sent);
          SentOk(net[r], r, net'[r].sent);
        }
      }
    }
  }

  lemma SentOk(h: Host, m: int, sent: seq<Sent>)
    requires HostOk(h, m)
    ensures HostOk(h.(sent := sent), m)
  {
    hide WfPayload, DecodeHeader, WfPacket;
    assert InInbox(h.(sent := sent)) == InInbox(h);
  }

  lemma StepOk(net: Net, step: Step)
    requires Ok(net) && Enabled(net, step)
    ensures Ok(Next(net, step))
  {
    var h := net[step.m];
    match step
    case Send(m, to, mh, data, lost, junk) => SendingOk(net, m, to, mh, data, lost, junk);
    case Poll(m) => PollingOk(h, m); LocalOk(net, m, Polling(h, m));
    case Test(m) => TestedOk(h, m); LocalOk(net, m, Tested(h));
    case Receive(m) => ReceivingOk(h, m); LocalOk(net, m, Receiving(h));
    case Put(m) => PuttingOk(h, m); LocalOk(net, m, Putting(h));
    case Get(m, box) => GettingOk(h, m, box); LocalOk(net, m, Getting(h, box));
  }

  // ---- whole runs ----

  /** A machine that has just started, with any number of boxes. */
  predicate Fresh(h: Host) {
    && h.socket == [] && |h.input.inbox| == MAX_PACKET_SIZE == |h.buffer| && h.input.inHdr.length == 0
    && h.available == Sem(0, []) && h.worker.Testing? && !h.halted
    && h.sent == [] && h.accepted == [] && h.put == [] && |h.received| == |h.boxes|
    && forall b :: 0 <= b < |h.boxes| ==> h.boxes[b] == [] && h.received[b] == []
  }

  ghost predicate Run(nets: seq<Net>, steps: seq<Step>) {
    && |nets| == |steps| + 1 && (forall m :: 0 <= m < |nets[0]| ==> Fresh(nets[0][m]))
    && forall i :: 0 <= i < |steps| ==> Enabled(nets[i], steps[i]) && nets[i + 1] == Next(nets[i], steps[i])
  }

  lemma {:induction false} RunOk(nets: seq<Net>, steps: seq<Step>, n: nat)
    requires Run(nets, steps) && n <= |steps|
    ensures Ok(nets[n])
  {
    if n > 0 {
      RunOk(nets, steps, n - 1);
      hide Ok, Next, Enabled;
      StepOk(nets[n - 1], steps[n - 1]);
    }
  }

  /** In every run, the mails received from a box, restricted to one sender, are
      the first ones, in order and byte for byte, of those that the sender sent
      to that box and that were not lost. */
  lemma Faithful(nets: seq<Net>, steps: seq<Step>, n: nat, s: nat, r: nat, box: nat)
    requires Run(nets, steps) && n <= |steps| && s < |nets[n]| && r < |nets[n]| && box < |nets[n][r].boxes|
    ensures box < |nets[n][r].received|
    ensures Select(nets[n][r].received[box], s, box) <= Surviving(nets[n][s].sent, r, box)
  {
    RunOk(nets, steps, n);
    hide Run;
    var h := nets[n][r];
    assert HostOk(h, r) && Select(h.accepted, s, box) == Surviving(nets[n][s].sent, r, box);
    hide Ok;
    HostFaithful(h, r, s, box);
  }

  /** What was taken out of a box came from the front of what was put in. */
  lemma BoxPrefix(put: seq<Mail>, rest: seq<Mail>, got: seq<Mail>, left: seq<Mail>, s: int, box: int)
    requires got + left == ForBox(put, box)
    ensures Select(got, s, box) <= Select(put + rest, s, box)
  {
    hide Select, ForBox;
    SelectForBox(put, s, box);
    SelectConcat(got, left, s, box);
    SelectConcat(put, rest, s, box);
  }

  lemma HostFaithful(h: Host, r: nat, s: int, box: nat)
    requires HostOk(h, r) && box < |h.boxes|
    ensures box < |h.received| && Select(h.received[box], s, box) <= Select(h.accepted, s, box)
  {
    hide Select, ForBox, InHand, InInbox, InputOk;
    var rest := InHand(h) + InInbox(h) + Arrived(h.socket);
    assert h.accepted == h.put + rest;
    BoxPrefix(h.put, rest, h.received[box], h.boxes[box], s, box);
  }

  // ---- the logs are those of the calls ----

  /** A call of `Send` on machine `s` that passes the assertions on its header. */
  predicate Posts(step: Step, s: nat) {
    step.Send? && step.m == s && step.mailHdr.length <= 40 && step.mailHdr.to >= 0
  }

  /** The calls of `Send` on machine `s` among the first `n` steps. */
  function SendCalls(steps: seq<Step>, n: nat, s: nat): (calls: seq<Step>)
    requires n <= |steps|
    ensures forall k :: 0 <= k < |calls| ==> Posts(calls[k], s) && calls[k] in steps[..n]
  {
    if n == 0 then [] else
      var rest := SendCalls(steps, n - 1, s);
      assert forall x :: x in steps[..n - 1] ==> x in steps[..n];
      if Posts(steps[n - 1], s) then rest + [steps[n - 1]] else rest
  }

  /** The mail is what the call was given: addresses, header and bytes. */
  predicate Carries(mail: Mail, call: Step)
    requires call.Send?
  {
    && mail.pktHdr.to == call.to && mail.pktHdr.from == call.m && mail.mailHdr == call.mailHdr
    && |mail.data| == call.mailHdr.length <= |call.data|
    && forall i :: 0 <= i < |mail.data| ==> mail.data[i] == call.data[i]
  }

  ghost predicate LoggedAs(x: Sent, call: Step, machines: nat)
    requires call.Send?
  {
    Carries(x.mail, call) && (x.lost <==> call.lost || !(0 <= call.to < machines))
  }

  ghost predicate LogOk(log: seq<Sent>, calls: seq<Step>, machines: nat) {
    |log| == |calls| && forall k :: 0 <= k < |log| ==> calls[k].Send? && LoggedAs(log[k], calls[k], machines)
  }

  lemma StepLogs(net: Net, step: Step, s: nat, calls: seq<Step>)
    requires Enabled(net, step) && s < |net| && LogOk(net[s].sent, calls, |net|)
    ensures |Next(net, step)| == |net|
    ensures LogOk(Next(net, step)[s].sent, if Posts(step, s) then calls + [step] else calls, |net|)
    ensures step.Send? && step.m == s ==> (Next(net, step)[s].halted <==> !Posts(step, s))
  {
    hide Packet, Polled, DecodeHeader, Splice;
    var net' := Next(net, step);
    if step.Send? && step.m == s && Posts(step, s) {
      var x := net'[s].sent[|net[s].sent|];
      assert LoggedAs(x, step, |net|);
      assert net'[s].sent == net[s].sent + [x];
    } else {
      assert net'[s].sent == net[s].sent;
    }
  }

  lemma {:induction false} LogIsCalls(nets: seq<Net>, steps: seq<Step>, n: nat, s: nat)
    requires Run(nets, steps) && n <= |steps| && s < |nets[0]|
    ensures |nets[n]| == |nets[0]| && LogOk(nets[n][s].sent, SendCalls(steps, n, s), |nets[0]|)
  {
    hide Next, Enabled, LogOk, Posts;
    if n == 0 {
      assert LogOk([], [], |nets[0]|) by { EmptyLog(|nets[0]|); }
    } else {
      LogIsCalls(nets, steps, n - 1, s);
      StepLogs(nets[n - 1], steps[n - 1], s, SendCalls(steps, n - 1, s));
    }
  }

  lemma EmptyLog(machines: nat)
    ensures LogOk([], [], machines)
  {
  }

  /** A call of `Receive` of the post office that returns: the box has a mail. */
  predicate Takes(net: Net, step: Step, r: nat, box: int) {
    step == Get(r, box) && r < |net| && 0 <= box < |net[r].boxes| && net[r].boxes[box] != []
  }

  /** What the calls of `Receive` on a box of machine `r` returned: each time the
      mail that was at the front of the box. */
  function ReceiveCalls(nets: seq<Net>, steps: seq<Step>, n: nat, r: nat, box: int): seq<Mail>
    requires n <= |steps| < |nets|
  {
    if n == 0 then [] else
      var rest := ReceiveCalls(nets, steps, n - 1, r, box);
      if Takes(nets[n - 1], steps[n - 1], r, box) then rest + [nets[n - 1][r].boxes[box][0]] else rest
  }

  lemma StepReceives(net: Net, step: Step, r: nat, box: nat)
    requires Enabled(net, step) && r < |net| && |net[r].received| == |net[r].boxes| && box < |net[r].boxes|
    ensures var net' := Next(net, step);
            && |net'| == |net| && |net'[r].boxes| == |net[r].boxes| && |net'[r].received| == |net[r].received|
            && net'[r].received[box] == net[r].received[box] + if Takes(net, step, r, box) then [net[r].boxes[box][0]] else []
  {
    hide Packet, Polled, DecodeHeader, Splice;
  }

  lemma {:induction false} ReceivedIsCalls(nets: seq<Net>, steps: seq<Step>, n: nat, r: nat, box: nat)
    requires Run(nets, steps) && n <= |steps| && r < |nets[0]| && box < |nets[0][r].boxes|
    ensures |nets[n]| == |nets[0]| && |nets[n][r].boxes| == |nets[n][r].received| == |nets[0][r].boxes|
    ensures nets[n][r].received[box] == ReceiveCalls(nets, steps, n, r, box)
  {
    hide Next, Enabled, Takes;
    if n > 0 {
      ReceivedIsCalls(nets, steps, n - 1, r, box);
      StepReceives(nets[n - 1], steps[n - 1], r, box);
    }
  }

  /** Of the mails that `Receive` returned from a box, those from one machine are
      what that machine's calls of `Send` were given, byte for byte, for a strictly
      increasing choice of calls addressed to that box and not lost: no send is
      received twice, and the order of receipt is the order of sending. */
  lemma ReceivedIsSubsequence(nets: seq<Net>, steps: seq<Step>, n: nat, s: nat, r: nat, box: nat) returns (at: seq<nat>)
    requires Run(nets, steps) && n <= |steps| && s < |nets[0]| && r < |nets[0]| && box < |nets[0][r].boxes|
    ensures var got, calls := Select(ReceiveCalls(nets, steps, n, r, box), s, box), SendCalls(steps, n, s);
            && |got| == |at| && (forall i, j :: 0 <= i < j < |at| ==> at[i] < at[j])
            && forall i :: 0 <= i < |at| ==>
                 && at[i] < |calls| && Carries(got[i], calls[at[i]])
                 && calls[at[i]].to == r && calls[at[i]].mailHdr.to == box && !calls[at[i]].lost
  {
    LogIsCalls(nets, steps, n, s);
    ReceivedIsCalls(nets, steps, n, r, box);
    Faithful(nets, steps, n, s, r, box);
    hide Run, Select, Surviving, Positions, Carries, ReceiveCalls;
    var log, calls := nets[n][s].sent, SendCalls(steps, n, s);
    SurvivingIsSubsequence(log, r, box);
    var got := Select(ReceiveCalls(nets, steps, n, r, box), s, box);
    at := Positions(log, r, box)[..|got|];
    forall i | 0 <= i < |at|
      ensures at[i] < |calls| && Carries(got[i], calls[at[i]])
      ensures calls[at[i]].to == r && calls[at[i]].mailHdr.to == box && !calls[at[i]].lost
    {
      assert LoggedAs(log[at[i]], calls[at[i]], |nets[0]|);
      CarriesAddresses(log[at[i]].mail, calls[at[i]]);
    }
  }

  lemma CarriesAddresses(mail: Mail, call: Step)
    requires call.Send? && Carries(mail, call)
    ensures mail.pktHdr.to == call.to && mail.mailHdr.to == call.mailHdr.to
  {
  }

  /** When nothing is under way on the receiving machine, everything sent to an
      empty box and not lost has been received from it. */
  lemma AllDelivered(nets: seq<Net>, steps: seq<Step>, n: nat, s: nat, r: nat, box: nat)
    requires Run(nets, steps) && n <= |steps| && s < |nets[n]| && r < |nets[n]| && box < |nets[n][r].boxes|
    requires var h := nets[n][r]; h.socket == [] && h.input.inHdr.length == 0 && !h.worker.Carrying? && h.boxes[box] == []
    ensures box < |nets[n][r].received|
    ensures Select(nets[n][r].received[box], s, box) == Surviving(nets[n][s].sent, r, box)
  {
    RunOk(nets, steps, n);
    hide Run;
    var h := nets[n][r];
    assert HostOk(h, r) && Select(h.accepted, s, box) == Surviving(nets[n][s].sent, r, box);
    hide Ok, Select, Surviving, ForBox, WfPayload, PayloadMail, InputOk;
    assert h.accepted == h.put && h.received[box] + h.boxes[box] == ForBox(h.put, box);
    assert h.received[box] == ForBox(h.put, box);
    SelectForBox(h.put, s, box);
  }

  /** The worker calls `Receive` only on a full inbox, it is awake whenever a
      packet waits for it, and no packet from a post office fails the network's
      assertion. */
  lemma WorkerSafe(nets: seq<Net>, steps: seq<Step>, n: nat, m: nat)
    requires Run(nets, steps) && n <= |steps| && m < |nets[n]|
    ensures var h := nets[n][m];
            && (h.worker.Called? ==> h.input.inHdr.length != 0)
            && (h.worker.Testing? && h.input.inHdr.length != 0 ==> h.available == Sem(1, []))
            && (forall p :: p in h.socket ==> Addressed(p, m))
  {
    RunOk(nets, steps, n);
    hide Run;
    assert HostOk(nets[n][m], m);
    hide Ok;
  }

  /** What stops a machine: a header of its own that fails the assertions of
      `Send`, a mail for a box that it does not have, or a call for such a box. */
  predicate Fails(net: Net, step: Step)
    requires step.m < |net|
  {
    var h := net[step.m];
    match step
    case Send(m, _, _, _, _, _) => !Posts(step, m)
    case Receive(_) => WfPayload(h.input.inHdr, h.input.inbox) && !(0 <= DecodeHeader(h.input.inbox).to < |h.boxes|)
    case Put(_) => h.worker.Carrying? && !(0 <= h.worker.mail.mailHdr.to < |h.boxes|)
    case Get(_, box) => !(0 <= box < |h.boxes|)
    case _ => false
  }

  lemma StepHalts(net: Net, step: Step)
    requires Ok(net) && Enabled(net, step)
    ensures |Next(net, step)| == |net| && (Next(net, step)[step.m].halted <==> Fails(net, step))
  {
    hide Packet, DecodeHeader, Splice, Polled, WfPacket, SocketOk, WfPayload;
    var h, m := net[step.m], step.m;
    assert HostOk(h, m);
    match step
    case Poll(_) => PollingOk(h, m);
    case Receive(_) => ReceiveHalts(h, m);
    case _ =>
  }

  lemma ReceiveHalts(h: Host, m: int)
    requires InputOk(h, m) && h.worker.Called? && !h.halted
    ensures WfPayload(h.input.inHdr, h.input.inbox)
    ensures Receiving(h).halted <==> !(0 <= DecodeHeader(h.input.inbox).to < |h.boxes|)
  {
    hide DecodeHeader, EncodeHeader;
    var hdr := h.input.inHdr;
    var buffer := Splice(h.buffer, 0, h.input.inbox[..hdr.length]);
    assert buffer[..hdr.length] == h.input.inbox[..hdr.length];
    PayloadPrefix(hdr, h.input.inbox, buffer);
    assert PayloadMail(hdr, buffer).mailHdr == DecodeHeader(h.input.inbox);
  }

  /** No machine of any run stops for another reason. */
  lemma HaltsOnlyIf(nets: seq<Net>, steps: seq<Step>, n: nat)
    requires Run(nets, steps) && n < |steps|
    ensures var m := steps[n].m;
            m < |nets[n]| == |nets[n + 1]| && (nets[n + 1][m].halted <==> Fails(nets[n], steps[n]))
  {
    RunOk(nets, steps, n);
    StepHalts(nets[n], steps[n]);
    hide Ok, Next, Fails;
  }

  /** A machine that has not stopped can always go on: its worker, unless asleep
      with nothing to do, its network device, and its callers. */
  lemma MachineGoesOn(nets: seq<Net>, steps: seq<Step>, n: nat, m: nat, call: Step)
    requires Run(nets, steps) && n <= |steps| && m < |nets[n]| <= 0x8000_0000 && !nets[n][m].halted
    ensures var net, h := nets[n], nets[n][m];
            && Enabled(net, Poll(m))
            && (match h.worker
                case Testing => Enabled(net, Test(m)) || h.input.inHdr.length == 0
                case Called => Enabled(net, Receive(m))
                case Carrying(_) => Enabled(net, Put(m)))
            && (call.Send? && call.m == m && |call.data| >= call.mailHdr.length && |call.junk| == 64 ==> Enabled(net, call))
            && (call.Get? && call.m == m && 0 <= call.box < |h.boxes| && h.boxes[call.box] != [] ==> Enabled(net, call))
  {
    WorkerSafe(nets, steps, n, m);
    RunOk(nets, steps, n);
    assert HostOk(nets[n][m], m);
    hide Run, Ok, WfPayload, SocketOk, Arrived;
  }
}
