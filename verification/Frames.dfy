/** The PJON v4.2 local-bus frame: what `send_string` emits and what one `receive` call makes of a byte stream. */
module Frames {
  import opened PjonConstants
  import opened Crc8

  /** The fields of one transmission. The sender travels only when the header asks for it. */
  datatype Fields = Fields(recipient: byte, header: byte, sender: byte, payload: seq<byte>)

  /** A message is short enough for its length to fit the length byte. */
  type Message = m: Fields | FrameLength(m) < 256 witness Fields(0, 0, 0, [])

  datatype PacketInfo = PacketInfo(receiverId: byte, header: byte, senderId: byte)

  /** What the receiver function is called with, and what is stored. */
  datatype Delivery = Delivery(payload: seq<byte>, length: nat, info: PacketInfo)

  // ----- Headers -----

  predicate IsShared(header: byte) { header & MODE_BIT != 0 }
  predicate HasSender(header: byte) { header & SENDER_INFO_BIT != 0 }
  predicate WantsAck(header: byte) { header & ACK_REQUEST_BIT != 0 }

  // ----- Emission -----

  function MetaSize(header: byte): nat {
    if HasSender(header) then 5 else 4
  }

  function FrameLength(m: Fields): nat {
    |m.payload| + MetaSize(m.header)
  }

  function LengthByte(n: nat): byte
    requires n < 256
  {
    ByteOf(n)
  }

  function Head(m: Message): seq<byte> {
    [m.recipient, LengthByte(FrameLength(m)), m.header] + if HasSender(m.header) then [m.sender] else []
  }

  function Body(m: Message): seq<byte> {
    Head(m) + m.payload
  }

  function Frame(m: Message): (f: seq<byte>)
    ensures |f| == FrameLength(m)
  {
    Body(m) + [Crc(Body(m))]
  }

  // ----- Reception -----

  /** The result of one `receive` call on the bytes that are going to arrive in time. */
  datatype Reception = Reception(code: int, consumed: nat, acknowledged: bool, delivery: Option<Delivery>)

  function Refused(code: int, consumed: nat): Reception {
    Reception(code, consumed, false, None)
  }

  predicate ForMe(id: byte, recipient: byte) {
    recipient == id || recipient == BROADCAST
  }

  predicate ValidLength(n: nat) {
    4 < n < PACKET_MAX_LENGTH
  }

  function PacketInfoOf(packet: seq<byte>): PacketInfo
    requires |packet| > 4
  {
    PacketInfo(packet[0], packet[2], if HasSender(packet[2]) then packet[3] else 0)
  }

  function PayloadOf(packet: seq<byte>): seq<byte>
    requires |packet| > 4
  {
    packet[if HasSender(packet[2]) then 4 else 3..|packet| - 1]
  }

  /** The last byte is the checksum of the others. */
  predicate Sealed(packet: seq<byte>) {
    |packet| > 0 && packet[|packet| - 1] == Crc(packet[..|packet| - 1])
  }

  /** The outcome for a complete packet: checked, and if intact answered and delivered. */
  function ReceptionOf(packet: seq<byte>): Reception
    requires |packet| > 4
  {
    if !Sealed(packet) then Refused(NAK, |packet|)
    else
      Reception(ACK, |packet|, WantsAck(packet[2]) && packet[0] != BROADCAST,
                Some(Delivery(PayloadOf(packet), |packet|, PacketInfoOf(packet))))
  }

  /** Every call stops within 49 bytes and eats at least one if there is one. */
  function Receive(id: byte, s: seq<byte>): (r: Reception)
    ensures r.consumed <= |s| && r.consumed < PACKET_MAX_LENGTH
    ensures |s| > 0 ==> r.consumed > 0
  {
    if |s| == 0 then Refused(FAIL, 0)
    else if !ForMe(id, s[0]) then Refused(BUSY, 1)
    else if |s| == 1 then Refused(FAIL, 1)
    else if !ValidLength(Value(s[1])) then Refused(FAIL, 2)
    else if |s| == 2 then Refused(FAIL, 2)
    else if IsShared(s[2]) then Refused(BUSY, 3)
    else
      var n := Value(s[1]);
      if |s| < n then Refused(FAIL, |s|)
      else
        ReceptionOf(s[..n])
  }

  // ----- What each code means -----

  /** There is a packet at the front that is addressed to this device on a local bus, complete in n bytes. */
  predicate IsComplete(id: byte, s: seq<byte>, n: nat) {
    4 < n < 50 && n <= |s| && (s[0] == id || s[0] == 0) && Value(s[1]) == n && s[2] & 1 == 0
  }

  /** ACK and NAK are for complete packets, and the checksum tells them apart. */
  lemma CompletePackets(id: byte, s: seq<byte>, n: nat)
    requires IsComplete(id, s, n)
    ensures var r := Receive(id, s);
            && r.consumed == n
            && if s[n - 1] == Crc(s[..n - 1]) then
                 && r.code == 6 && r.acknowledged == (s[2] & 4 != 0 && s[0] != 0)
                 && var from := if s[2] & 2 != 0 then 4 else 3;
                    r.delivery == Some(Delivery(s[from..n - 1], n,
                                                PacketInfo(s[0], s[2], if s[2] & 2 != 0 then s[3] else 0)))
               else
                 r == Refused(21, n)
  {
    assert s[..n][..n - 1] == s[..n - 1];
    assert s[..n][3..n - 1] == s[3..n - 1] && s[..n][4..n - 1] == s[4..n - 1];
  }

  /** BUSY is for others, and read no further than to tell; FAIL is for bad lengths and for input that runs dry. */
  lemma IncompletePackets(id: byte, s: seq<byte>)
    requires forall n :: !IsComplete(id, s, n)
    ensures Receive(id, s) ==
      if |s| > 0 && s[0] != id && s[0] != 0 then Refused(666, 1)
      else if |s| > 1 && (Value(s[1]) <= 4 || Value(s[1]) >= 50) then Refused(256, 2)
      else if |s| > 2 && s[2] & 1 != 0 then Refused(666, 3)
      else Refused(256, |s|)
  {
    if |s| > 1 { assert !IsComplete(id, s, Value(s[1])); }
  }

  // ----- Emission and reception are inverse -----

  function DeliveryOf(m: Fields): Delivery {
    Delivery(m.payload, FrameLength(m), PacketInfo(m.recipient, m.header, if HasSender(m.header) then m.sender else 0))
  }

  predicate Receivable(m: Fields) {
    !IsShared(m.header) && ValidLength(FrameLength(m))
  }

  lemma FrameFields(m: Message)
    requires Receivable(m)
    ensures var f := Frame(m);
            && |f| == |m.payload| + (if m.header & 2 != 0 then 5 else 4)
            && f[0] == m.recipient && Value(f[1]) == |f| && f[2] == m.header
            && (m.header & 2 != 0 ==> f[3] == m.sender)
            && PayloadOf(f) == m.payload == f[if m.header & 2 != 0 then 4 else 3..|f| - 1]
  {
    ValueByte(FrameLength(m));
  }

  lemma FrameSealed(m: Message)
    ensures Sealed(Frame(m))
  {
    assert Frame(m)[..FrameLength(m) - 1] == Body(m);
  }

  /** Decoding an emitted frame recovers every field, whatever follows it on the wire. */
  lemma ReceiveFrame(id: byte, m: Message, rest: seq<byte>)
    requires ForMe(id, m.recipient) && Receivable(m)
    ensures Receive(id, Frame(m) + rest)
         == Reception(ACK, FrameLength(m), WantsAck(m.header) && m.recipient != BROADCAST, Some(DeliveryOf(m)))
  {
    FrameFields(m);
    FrameSealed(m);
    assert (Frame(m) + rest)[..FrameLength(m)] == Frame(m);
  }

  /** The fields a packet spells out. */
  function MessageOf(packet: seq<byte>): (m: Fields)
    requires |packet| > 4
    ensures FrameLength(m) == |packet|
  {
    Fields(packet[0], packet[2], if HasSender(packet[2]) then packet[3] else 0, PayloadOf(packet))
  }

  lemma SealedIsFrame(packet: seq<byte>)
    requires |packet| > 4 && Value(packet[1]) == |packet| < 256 && Sealed(packet)
    ensures Frame(MessageOf(packet)) == packet
  {
    var m := MessageOf(packet);
    ByteValue(packet[1]);
    assert packet[..|packet| - 1] == Body(m);
  }

  /** Whatever is accepted is exactly the frame of the fields it was decoded to. */
  lemma AcceptedIsFrame(id: byte, s: seq<byte>)
    requires Receive(id, s).code == ACK
    ensures var r := Receive(id, s);
            && 5 <= r.consumed <= |s| && r.consumed < 50
            && var m := MessageOf(s[..r.consumed]);
               && Receivable(m) && ForMe(id, m.recipient)
               && s[..r.consumed] == Frame(m)
               && r.delivery == Some(DeliveryOf(m))
               && r.acknowledged == (WantsAck(m.header) && m.recipient != BROADCAST)
  {
    SealedIsFrame(s[..Value(s[1])]);
  }
}
