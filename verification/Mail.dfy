/** The layers of a message: the packet header of machine/network.h, then the mail header of network/post.h, then the
    data; and how they are laid out in the fixed-size packets on the wire. */
module Mails {
  import opened Words
  import opened Disks

  const MAX_WIRE_SIZE := 64
  const HEADER_SIZE := 12 // sizeof(PacketHeader), sizeof(MailHeader)
  const MAX_PACKET_SIZE := 52
  const MAX_MAIL_SIZE := 40

  datatype Header = Header(to: int32, from: int32, length: uint32)

  /** A message as Receive returns it. */
  datatype Mail = Mail(packet: Header, mail: Header, data: seq<byte>)

  function EncodeHeader(h: Header): (bs: seq<byte>)
    ensures |bs| == HEADER_SIZE
  {
    EncodeWords([ToUnsigned(h.to), ToUnsigned(h.from), h.length])
  }

  function DecodeHeader(bs: seq<byte>): (h: Header)
    requires |bs| >= HEADER_SIZE
  {
    var ws := DecodeWords(bs, 3);
    Header(ToSigned(ws[0]), ToSigned(ws[1]), ws[2])
  }

  lemma HeaderRoundTrip(h: Header, rest: seq<byte>)
    ensures DecodeHeader(EncodeHeader(h) + rest) == h
  {
    hide EncodeWords, DecodeWords, ToUnsigned, ToSigned;
    WordsRoundTrip([ToUnsigned(h.to), ToUnsigned(h.from), h.length], rest);
    SignedRoundTrip(h.to);
    SignedRoundTrip(h.from);
  }

  /** PostOfficeOutput::Send: the contents of its buffer, which was uninitialised. */
  function Payload(mail: Header, data: seq<byte>, junk: seq<byte>): (buffer: seq<byte>)
    requires mail.length <= MAX_MAIL_SIZE && |data| >= mail.length && |junk| == MAX_PACKET_SIZE
    ensures |buffer| == MAX_PACKET_SIZE
  {
    Overlay(Overlay(junk, 0, EncodeHeader(mail)), HEADER_SIZE, data[..mail.length])
  }

  /** NetworkOutput::Send: what goes into the socket. */
  function Wire(packet: Header, buffer: seq<byte>, junk: seq<byte>): (w: seq<byte>)
    requires packet.length <= MAX_PACKET_SIZE && |buffer| == MAX_PACKET_SIZE && |junk| == MAX_WIRE_SIZE
    ensures |w| == MAX_WIRE_SIZE
  {
    Overlay(Overlay(junk, 0, EncodeHeader(packet)), HEADER_SIZE, buffer[..packet.length])
  }

  /** What a receiver finds in a packet. */
  function PacketOf(w: seq<byte>): (h: Header)
    requires |w| == MAX_WIRE_SIZE
  {
    DecodeHeader(w)
  }

  function MailOf(packet: Header, buffer: seq<byte>): (m: Mail)
    requires |buffer| >= HEADER_SIZE
  {
    var h := DecodeHeader(buffer);
    Mail(packet, h, if HEADER_SIZE + h.length <= |buffer| then buffer[HEADER_SIZE..HEADER_SIZE + h.length] else [])
  }

  lemma HeadDecoded(h: Header, buffer: seq<byte>, junk: seq<byte>, rest: seq<byte>)
    requires |junk| >= HEADER_SIZE && HEADER_SIZE + |rest| <= |junk|
    requires buffer == Overlay(Overlay(junk, 0, EncodeHeader(h)), HEADER_SIZE, rest)
    ensures DecodeHeader(buffer) == h && buffer[HEADER_SIZE..HEADER_SIZE + |rest|] == rest
  {
    hide EncodeHeader, DecodeHeader;
    assert buffer == EncodeHeader(h) + buffer[HEADER_SIZE..];
    HeaderRoundTrip(h, buffer[HEADER_SIZE..]);
  }

  /** The packet header comes out as it went in, and so does as much of the payload as it announces. */
  lemma WireRoundTrip(packet: Header, buffer: seq<byte>, junk: seq<byte>)
    requires packet.length <= MAX_PACKET_SIZE && |buffer| == MAX_PACKET_SIZE && |junk| == MAX_WIRE_SIZE
    ensures var w := Wire(packet, buffer, junk);
      PacketOf(w) == packet && w[HEADER_SIZE..HEADER_SIZE + packet.length] == buffer[..packet.length]
  {
    hide DecodeHeader, EncodeHeader;
    HeadDecoded(packet, Wire(packet, buffer, junk), junk, buffer[..packet.length]);
  }

  /** What MailOf reads depends only on the part of the buffer that was sent. */
  lemma PayloadRoundTrip(packet: Header, mail: Header, data: seq<byte>, junk: seq<byte>, received: seq<byte>)
    requires mail.length <= MAX_MAIL_SIZE && |data| >= mail.length && |junk| == MAX_PACKET_SIZE == |received|
    requires received[..HEADER_SIZE + mail.length] == Payload(mail, data, junk)[..HEADER_SIZE + mail.length]
    ensures MailOf(packet, received) == Mail(packet, mail, data[..mail.length])
  {
    hide DecodeHeader, EncodeHeader;
    var sent := Payload(mail, data, junk);
    HeadDecoded(mail, sent, junk, data[..mail.length]);
    assert received[..HEADER_SIZE] == received[..HEADER_SIZE + mail.length][..HEADER_SIZE];
    assert sent[..HEADER_SIZE] == sent[..HEADER_SIZE + mail.length][..HEADER_SIZE];
    assert sent[..HEADER_SIZE] == EncodeHeader(mail);
    assert received == EncodeHeader(mail) + received[HEADER_SIZE..];
    HeaderRoundTrip(mail, received[HEADER_SIZE..]);
    assert received[HEADER_SIZE..HEADER_SIZE + mail.length] == received[..HEADER_SIZE + mail.length][HEADER_SIZE..];
    assert sent[HEADER_SIZE..HEADER_SIZE + mail.length] == sent[..HEADER_SIZE + mail.length][HEADER_SIZE..];
  }
}
