/** Packets and mail as bytes, and the network device. */
module Networks {
  import opened Common
  import opened Bytes

  const MAX_WIRE_SIZE := 64
  const MAX_PACKET_SIZE := 52
  const MAX_MAIL_SIZE := 40

  /** A packet header or a mail header: machine or mailbox addresses, and the
      number of bytes that follow. Both take 12 bytes. */
  datatype Header = Header(to: int32, from: int32, length: word)

  /** A message with both its headers. */
  datatype Mail = Mail(pktHdr: Header, mailHdr: Header, data: seq<byte>)

  function EncodeHeader(h: Header): (b: seq<byte>)
    ensures |b| == 12
  {
    EncodeInt(h.to) + EncodeInt(h.from) + EncodeNat(h.length)
  }

  function DecodeHeader(b: seq<byte>): Header
    requires |b| >= 12
  {
    Header(DecodeInt(b[0..4]), DecodeInt(b[4..8]), DecodeNat(b[8..12]))
  }

  lemma HeaderRoundTrip(h: Header, rest: seq<byte>)
    ensures DecodeHeader(EncodeHeader(h) + rest) == h
  {
    var b := EncodeHeader(h) + rest;
    assert b[0..4] == EncodeInt(h.to) && b[4..8] == EncodeInt(h.from) && b[8..12] == EncodeNat(h.length);
    IntRoundTrip(h.to);
    IntRoundTrip(h.from);
    NatRoundTrip(h.length);
  }

  lemma HeaderPrefix(a: seq<byte>, b: seq<byte>)
    requires |a| >= 12 && |b| >= 12 && a[..12] == b[..12]
    ensures DecodeHeader(a) == DecodeHeader(b)
  {
    assert a[0..4] == a[..12][0..4] && a[4..8] == a[..12][4..8] && a[8..12] == a[..12][8..12];
    assert b[0..4] == b[..12][0..4] && b[4..8] == b[..12][4..8] && b[8..12] == b[..12][8..12];
  }

  /** `body` behind a header, in a buffer whose other bytes stay as they were. */
  function Framed(h: Header, body: seq<byte>, buffer: seq<byte>): (b: seq<byte>)
    requires 12 + |body| <= |buffer|
    ensures |b| == |buffer|
  {
    EncodeHeader(h) + body + buffer[12 + |body|..]
  }

  /** Bytes that the layers below take apart consistently: a mail of `h.length` bytes. */
  predicate WfPayload(h: Header, b: seq<byte>) {
    12 <= h.length <= MAX_PACKET_SIZE && h.length <= |b| && DecodeHeader(b).length + 12 == h.length
  }

  function PayloadMail(h: Header, b: seq<byte>): Mail
    requires WfPayload(h, b)
  {
    Mail(h, DecodeHeader(b), b[12..h.length])
  }

  /** What the handler asserts of an arriving packet. */
  predicate Addressed(p: seq<byte>, host: int) {
    |p| == MAX_WIRE_SIZE && DecodeHeader(p).to == host && DecodeHeader(p).length <= MAX_PACKET_SIZE
  }

  predicate WfPacket(p: seq<byte>, host: int) {
    |p| == MAX_WIRE_SIZE && DecodeHeader(p).to == host && WfPayload(DecodeHeader(p), p[12..])
  }

  function PacketMail(p: seq<byte>): Mail
    requires |p| >= 24 && WfPayload(DecodeHeader(p), p[12..])
  {
    PayloadMail(DecodeHeader(p), p[12..])
  }

  /** What is read of a payload is only its first `h.length` bytes. */
  lemma PayloadPrefix(h: Header, a: seq<byte>, b: seq<byte>)
    requires WfPayload(h, a) && h.length <= |b| && b[..h.length] == a[..h.length]
    ensures WfPayload(h, b) && PayloadMail(h, b) == PayloadMail(h, a)
  {
    assert b[..12] == b[..h.length][..12] && a[..12] == a[..h.length][..12];
    HeaderPrefix(a, b);
    assert b[12..h.length] == b[..h.length][12..] && a[12..h.length] == a[..h.length][12..];
  }

  /** The packet that `Send` of the post office and of the network build
      together: two headers and the data, in uninitialized buffers. */
  function Packet(mail: Mail, junk: seq<byte>): (p: seq<byte>)
    requires 24 + |mail.data| <= MAX_WIRE_SIZE == |junk|
    ensures |p| == 64
  {
    Framed(mail.pktHdr, EncodeHeader(mail.mailHdr) + mail.data, junk)
  }

  /** The wire carries a mail uncorrupted. */
  lemma PacketRoundTrip(mail: Mail, junk: seq<byte>)
    requires |junk| == 64 && |mail.data| <= MAX_MAIL_SIZE
    requires mail.mailHdr.length == |mail.data| && mail.pktHdr.length == |mail.data| + 12
    ensures WfPacket(Packet(mail, junk), mail.pktHdr.to) && PacketMail(Packet(mail, junk)) == mail
  {
    var p, n := Packet(mail, junk), |mail.data|;
    assert p == EncodeHeader(mail.pktHdr) + (EncodeHeader(mail.mailHdr) + mail.data + junk[24 + n..]);
    HeaderRoundTrip(mail.pktHdr, EncodeHeader(mail.mailHdr) + mail.data + junk[24 + n..]);
    assert p[12..] == EncodeHeader(mail.mailHdr) + (mail.data + junk[24 + n..]);
    HeaderRoundTrip(mail.mailHdr, mail.data + junk[24 + n..]);
    assert p[12..][12..mail.pktHdr.length] == mail.data;
  }

  /** Where things are on the wire: machine addresses and length, box addresses and
      length, and then the data. */
  lemma PacketLayout(mail: Mail, junk: seq<byte>)
    requires 24 + |mail.data| <= 64 == |junk|
    ensures var p := Packet(mail, junk);
            && p[..4] == EncodeInt(mail.pktHdr.to) && p[4..8] == EncodeInt(mail.pktHdr.from) && p[8..12] == EncodeNat(mail.pktHdr.length)
            && p[12..16] == EncodeInt(mail.mailHdr.to) && p[16..20] == EncodeInt(mail.mailHdr.from)
            && p[20..24] == EncodeNat(mail.mailHdr.length) && p[24..24 + |mail.data|] == mail.data
  {
    hide EncodeInt, EncodeNat;
  }

  // ---- the network device ----

  datatype Input = Input(inHdr: Header, inbox: seq<byte>)

  /** Polling: a packet is taken off the socket only when the buffer is free. */
  function Polled(i: Input, p: seq<byte>): Input
    requires |p| == MAX_WIRE_SIZE && |i.inbox| == MAX_PACKET_SIZE && DecodeHeader(p).length <= MAX_PACKET_SIZE
  {
    Input(DecodeHeader(p), Splice(i.inbox, 0, p[12..12 + DecodeHeader(p).length]))
  }

  function Emptied(i: Input): Input {
    i.(inHdr := i.inHdr.(length := 0))
  }

  /** The mail in the buffer is the mail of the packet. */
  lemma PolledMail(i: Input, p: seq<byte>, host: int)
    requires |i.inbox| == MAX_PACKET_SIZE && WfPacket(p, host)
    ensures var i' := Polled(i, p);
            && WfPayload(i'.inHdr, i'.inbox) && PayloadMail(i'.inHdr, i'.inbox) == PacketMail(p) && i'.inHdr.to == host
  {
    var i', h := Polled(i, p), DecodeHeader(p);
    assert i'.inbox[..h.length] == p[12..][..h.length];
    PayloadPrefix(h, p[12..], i'.inbox);
  }

  class NetworkInput {
    var inHdr: Header
    const inbox: array<byte>

    ghost function State(): Input
      reads this, inbox
    {
      Input(inHdr, inbox[..])
    }

    constructor ()
      ensures inbox.Length == MAX_PACKET_SIZE && inHdr.length == 0 && fresh(inbox)
    {
      inHdr := Header(0, 0, 0);
      inbox := new byte[MAX_PACKET_SIZE];
    }

    /** `buffer` is the packet at the front of the socket, when there is one. */
    method CallBack(buffer: Option<seq<byte>>, hostName: int) returns (arrived: bool)
      requires inbox.Length == MAX_PACKET_SIZE
      requires buffer.Some? ==> Addressed(buffer.value, hostName)
      modifies this`inHdr, inbox
      ensures arrived <==> old(inHdr.length) == 0 && buffer.Some?
      ensures State() == if arrived then Polled(old(State()), buffer.value) else old(State())
    {
      if inHdr.length != 0 || buffer.None? {
        return false;
      }
      inHdr := DecodeHeader(buffer.value);
      var packet := buffer.value;
      forall j | 0 <= j < inHdr.length {
        inbox[j] := packet[12 + j];
      }
      return true;
    }

    method Receive(data: array<byte>) returns (hdr: Header)
      requires inHdr.length <= inbox.Length && inHdr.length <= data.Length && data != inbox
      modifies this`inHdr, data
      ensures hdr == old(inHdr) && State() == Emptied(old(State()))
      ensures data[..] == Splice(old(data[..]), 0, inbox[..hdr.length])
    {
      hdr := inHdr;
      inHdr := inHdr.(length := 0);
      forall j | 0 <= j < hdr.length {
        data[j] := inbox[j];
      }
    }
  }

  /** What `PostOfficeOutput::Send` hands to the network: the mail header before the data. */
  method BuildMail(mailHdr: Header, data: seq<byte>) returns (buffer: array<byte>)
    requires mailHdr.length <= MAX_MAIL_SIZE && |data| >= mailHdr.length
    ensures fresh(buffer) && buffer.Length == MAX_PACKET_SIZE
    ensures buffer[..12 + mailHdr.length] == EncodeHeader(mailHdr) + data[..mailHdr.length]
  {
    hide EncodeHeader;
    buffer := new byte[MAX_PACKET_SIZE];
    Copy(EncodeHeader(mailHdr), buffer, 0);
    Copy(data[..mailHdr.length], buffer, 12);
  }

  /** What `NetworkOutput::Send` puts on the wire: the packet header before the
      mail, padded with whatever the buffer held. */
  method BuildPacket(pktHdr: Header, data: array<byte>) returns (packet: array<byte>)
    requires 0 < pktHdr.length <= MAX_PACKET_SIZE && data.Length >= pktHdr.length
    ensures packet.Length == MAX_WIRE_SIZE
    ensures packet[..12 + pktHdr.length] == EncodeHeader(pktHdr) + data[..pktHdr.length]
  {
    hide EncodeHeader;
    packet := new byte[MAX_WIRE_SIZE];
    Copy(EncodeHeader(pktHdr), packet, 0);
    Copy(data[..pktHdr.length], packet, 12);
  }

  /** The bytes on the wire are taken apart into the mail that was sent. */
  method Send(hostName: int32, to: int32, mailHdr: Header, data: seq<byte>) returns (packet: array<byte>)
    requires mailHdr.length <= MAX_MAIL_SIZE && |data| >= mailHdr.length
    ensures WfPacket(packet[..], to)
    ensures PacketMail(packet[..]) == Mail(Header(to, hostName, mailHdr.length + 12), mailHdr, data[..mailHdr.length])
  {
    hide EncodeHeader, WfPacket, PacketMail;
    var buffer := BuildMail(mailHdr, data);
    var pktHdr := Header(to, hostName, mailHdr.length + 12);
    packet := BuildPacket(pktHdr, buffer);
    ghost var mail := Mail(pktHdr, mailHdr, data[..mailHdr.length]);
    assert packet[..] == packet[..12 + pktHdr.length] + packet[12 + pktHdr.length..];
    assert packet[..] == Packet(mail, packet[..]);
    PacketRoundTrip(mail, packet[..]);
  }
}
