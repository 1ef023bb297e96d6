/** The protocol object of pjon_python/protocol/pjon_protocol.py, proved to take the steps of module Nodes. */
module Protocol {
  import opened PjonConstants
  import opened Crc8
  import opened CrcAlgebra
  import opened Frames
  import opened Cleanup
  import opened Nodes
  import opened Reports
  import opened SerialStrategy

  class OutgoingPacket {
    ghost const uid: nat        // which of the accepted packets this object is
    const message: Message
    const text: bool
    const timing: nat
    var registration: int
    var state: int
    var attempts: nat

    ghost function Value(): Packet
      reads this
    {
      Packet(uid, message, text, timing, registration, state, attempts)
    }

    constructor (ghost uid: nat, message: Message, text: bool, timing: nat, registration: int)
      ensures Value() == Packet(uid, message, text, timing, registration, TO_BE_SENT, 0)
    {
      this.uid, this.message, this.text, this.timing := uid, message, text, timing;
      this.registration, this.state, this.attempts := registration, TO_BE_SENT, 0;
    }
  }

  ghost function Values(ps: seq<OutgoingPacket>): (q: seq<Packet>)
    reads ps
    ensures |q| == |ps|
  {
    seq(|ps|, i requires 0 <= i < |ps| reads ps => ps[i].Value())
  }

  /** The same object never stands in the queue twice. */
  ghost predicate Distinct(ps: seq<OutgoingPacket>) {
    forall i, j :: 0 <= i < j < |ps| ==> ps[i] != ps[j]
  }

  /** No object that was not in the queue before. */
  ghost predicate Within(now: seq<OutgoingPacket>, before: seq<OutgoingPacket>) {
    forall i :: 0 <= i < |now| ==> now[i] in before
  }

  lemma WithinTaken(ps: seq<OutgoingPacket>)
    ensures Within(ps, ps)
    ensures forall i :: 0 <= i < |ps| ==> Within(ps[..i] + ps[i + 1..], ps)
  {}

  /** Appending to the stored packets and trimming keeps exactly the last ones delivered. */
  lemma StoredPush(delivered: seq<Delivery>, d: Delivery)
    ensures var grown := Stored(delivered) + [d];
            Stored(delivered + [d]) == if |grown| <= RECEIVED_PACKETS_BUFFER_LENGTH then grown
                                       else grown[|grown| - RECEIVED_PACKETS_BUFFER_LENGTH..]
  {}

  lemma CrcPush(body: seq<byte>, b: byte)
    ensures Crc(body + [b]) == Table(Plus(b, Crc(body)))
  {
    assert (body + [b])[..|body|] == body;
  }

  lemma CrcPrefix(s: seq<byte>, i: nat)
    requires i < |s|
    ensures Crc(s[..i + 1]) == Table(Plus(s[i], Crc(s[..i])))
  {
    assert s[..i + 1] == s[..i] + [s[i]];
    CrcPush(s[..i], s[i]);
  }

  method ComputeCrc8ForByte(b: byte, crc: byte) returns (r: byte)
    ensures r == Table(Plus(b, crc))
  {
    ByteValue(b);
    r := AddToCRC(Crc8.Value(b), crc);
  }

  class PjonProtocol {
    const strategy: Strategy
    var deviceId: byte
    var acknowledge: bool
    var senderInfo: bool
    var outgoingPackets: seq<OutgoingPacket>
    var storedReceivedPackets: seq<Delivery>
    var receiverCalls: seq<Delivery>
    var errorCalls: seq<ErrorCall>
    ghost var accepted: seq<Packet>
    ghost var events: seq<Event>
    ghost var transmissions: seq<Transmission>

    ghost predicate Valid()
      reads this, strategy`readBuffer
    {
      && Distinct(outgoingPackets) && strategy.readBuffer == []
      && storedReceivedPackets == Stored(receiverCalls)
      && errorCalls == ErrorCalls(events)
    }

    ghost function Value(): Node
      reads this, strategy, outgoingPackets
    {
      Node(deviceId, acknowledge, senderInfo, strategy.Value(), Values(outgoingPackets),
           accepted, events, transmissions, receiverCalls)
    }

    constructor (deviceId: byte, strategy: Strategy)
      requires strategy.Value() == Port([], 0, []) && strategy.readBuffer == []
      ensures Valid() && Value() == NewNode(deviceId) && this.strategy == strategy
    {
      this.strategy, this.deviceId, acknowledge, senderInfo := strategy, deviceId, true, true;
      outgoingPackets, storedReceivedPackets, receiverCalls, errorCalls := [], [], [], [];
      accepted, events, transmissions := [], [], [];
    }

    // ----- configuration -----

    method SetAcknowledge(value: bool)
      requires Valid()
      modifies this`acknowledge
      ensures Valid() && Value() == old(Value()).(acknowledge := value)
    {
      acknowledge := value;
    }

    method SetSenderInfo(value: bool)
      requires Valid()
      modifies this`senderInfo
      ensures Valid() && Value() == old(Value()).(senderInfo := value)
    {
      senderInfo := value;
    }

    // ----- dispatch -----

    method GetHeaderFromInternalConfig() returns (header: byte)
      ensures header == ConfiguredHeader(acknowledge, senderInfo)
    {
      header := 0;
      if senderInfo { header := header | SENDER_INFO_BIT; }
      if acknowledge { header := header | ACK_REQUEST_BIT; }
    }

    method Enqueue(packet: OutgoingPacket)
      requires Valid() && packet !in outgoingPackets
      modifies this`outgoingPackets, this`accepted
      ensures Valid() && outgoingPackets == old(outgoingPackets) + [packet]
      ensures Value() == old(Value()).(queue := old(Values(outgoingPackets)) + [packet.Value()],
                                       accepted := old(accepted) + [packet.Value()])
    {
      accepted := accepted + [packet.Value()];
      outgoingPackets := outgoingPackets + [packet];
      assert Values(outgoingPackets) == old(Values(outgoingPackets)) + [packet.Value()];
    }

    /** Calls the error function; e is the event that the call reports. */
    method CallErrorFunction(call: ErrorCall, ghost e: Event)
      requires Valid() && CallsOf(e) == [call]
      modifies this`errorCalls, this`events
      ensures Valid() && events == old(events) + [e] && Value() == old(Value()).(events := events)
    {
      ErrorCallsPush(events, e);
      events := events + [e];
      errorCalls := errorCalls + [call];
    }

    /** Records an event that calls nobody. */
    ghost method Record(e: Event)
      requires Valid() && CallsOf(e) == []
      modifies this`events
      ensures Valid() && events == old(events) + [e] && Value() == old(Value()).(events := events)
    {
      ErrorCallsPush(events, e);
      events := events + [e];
    }

    method NewPacket(r: Request, header: byte, now: int) returns (packet: OutgoingPacket)
      requires |r.payload| < PACKET_MAX_LENGTH
      requires header == Get(r.header, ConfiguredHeader(acknowledge, senderInfo))
      ensures fresh(packet) && packet.Value() == RequestedPacket(Value(), r, now)
    {
      var sender := if r.forcedSender.None? then deviceId else r.forcedSender.value;
      var timing := if r.timing.None? then 0 else r.timing.value;
      packet := new OutgoingPacket(|accepted|, Fields(r.recipient, header, sender, r.payload), r.text, timing, now);
    }

    method Dispatch(r: Request, now: int) returns (answer: int)
      requires Valid()
      modifies this`outgoingPackets, this`errorCalls, this`accepted, this`events
      ensures Valid() && (Value(), answer) == Nodes.Dispatch(old(Value()), r, now)
      ensures forall p :: p in outgoingPackets && p !in old(outgoingPackets) ==> fresh(p)
    {
      var header := GetHeaderFromInternalConfig();
      if r.header.Some? {
        header := r.header.value;
      }
      if |r.payload| >= PACKET_MAX_LENGTH {
        return FAIL;
      }
      if |outgoingPackets| <= MAX_PACKETS {
        var packet := NewPacket(r, header, now);
        Enqueue(packet);
        return |outgoingPackets| - 1;
      }
      CallErrorFunction(ErrorCall(PACKETS_BUFFER_FULL, Limit(MAX_PACKETS)), Overflow);
      return FAIL;
    }

    // ----- send_string -----

    method SendFolded(b: byte, crc: byte, ghost body: seq<byte>) returns (r: byte)
      requires crc == Crc(body)
      modifies strategy`sent
      ensures strategy.Value() == old(strategy.Value()).(sent := old(strategy.sent) + [b])
      ensures r == Crc(body + [b])
    {
      strategy.SendByte(b);
      CrcPush(body, b);
      r := ComputeCrc8ForByte(b, crc);
    }

    /** The response window of the slot opens once the frame is out. */
    method SendString(m: Message, slot: Slot) returns (code: int)
      requires strategy.readBuffer == []
      modifies strategy
      ensures strategy.readBuffer == []
      ensures (strategy.Value(), code) == Nodes.SendString(old(strategy.Value()), m, slot)
    {
      var free := strategy.CanStart(slot.now);
      if !free {
        return BUSY;
      }
      EmitFrame(m);
      if !WantsAck(m.header) {
        return ACK;
      }
      if m.recipient == BROADCAST {
        return ACK;
      }
      assert [] + slot.after == slot.after;
      OnePoll(strategy.Value(), slot.now, true, slot.after);
      var response := strategy.ReceiveResponse(slot.now, [Poll(slot.now, slot.after)]);
      if response == Some(ACK_BYTE) {
        return ACK;
      }
      if response.Some? {
        return BUSY;
      }
      return FAIL;
    }

    method EmitHead(m: Message) returns (crc: byte)
      modifies strategy`sent
      ensures strategy.Value() == old(strategy.Value()).(sent := old(strategy.sent) + Head(m))
      ensures crc == Crc(Head(m))
    {
      hide Crc;
      hide Table;
      hide Plus;
      CrcOfNothing();
      var packetMetaSize := 4;
      if HasSender(m.header) {
        packetMetaSize := packetMetaSize + 1;
      }
      crc := SendFolded(m.recipient, 0, []);
      ghost var head := [] + [m.recipient];
      crc := SendFolded(ByteOf(|m.payload| + packetMetaSize), crc, head);
      head := head + [LengthByte(FrameLength(m))];
      crc := SendFolded(m.header, crc, head);
      head := head + [m.header];
      if HasSender(m.header) {
        crc := SendFolded(m.sender, crc, head);
        head := head + [m.sender];
      }
      assert head == Head(m);
    }

    method EmitPayload(payload: seq<byte>, start: byte, ghost head: seq<byte>) returns (crc: byte)
      requires start == Crc(head)
      modifies strategy`sent
      ensures strategy.Value() == old(strategy.Value()).(sent := old(strategy.sent) + payload)
      ensures crc == Crc(head + payload)
    {
      hide Crc;
      hide Table;
      hide Plus;
      crc := start;
      assert head + payload[..0] == head && strategy.sent + payload[..0] == strategy.sent;
      for i := 0 to |payload|
        invariant strategy.Value() == old(strategy.Value()).(sent := old(strategy.sent) + payload[..i])
        invariant crc == Crc(head + payload[..i])
      {
        assert head + payload[..i] + [payload[i]] == head + payload[..i + 1];
        crc := SendFolded(payload[i], crc, head + payload[..i]);
      }
      assert payload[..|payload|] == payload;
    }

    method EmitFrame(m: Message)
      modifies strategy`sent
      ensures strategy.Value() == old(strategy.Value()).(sent := old(strategy.sent) + Frame(m))
    {
      var crc := EmitHead(m);
      crc := EmitPayload(m.payload, crc, Head(m));
      strategy.SendByte(crc);
      assert old(strategy.sent) + Head(m) + m.payload + [crc] == old(strategy.sent) + Frame(m);
    }

    // ----- receive -----

    /** The port after n bytes of its input have been read. */
    ghost predicate HasRead(before: Port, n: nat, now: int)
      reads strategy
    {
      n <= |before.incoming| && strategy.readBuffer == [] && strategy.Value() == Consume(before, Refused(FAIL, n), now)
    }

    /** Reads one more byte into data. */
    method ReadInto(data: array<byte>, i: nat, now: int, ghost before: Port) returns (ok: bool)
      requires i < data.Length && HasRead(before, i, now) && data[..i] == before.incoming[..i]
      modifies strategy, data
      ensures ok <==> i < |before.incoming|
      ensures HasRead(before, if ok then i + 1 else i, now)
      ensures ok ==> data[..i + 1] == before.incoming[..i + 1] && data[i] == before.incoming[i]
    {
      assert strategy.incoming + [] == strategy.incoming;
      OnePoll(strategy.Value(), now, false, []);
      var b := strategy.ReceiveByte(false, now, [Poll(now, [])]);
      if b.None? {
        return false;
      }
      data[i] := b.value;
      assert data[..i] == before.incoming[..i];
      return true;
    }

    /** One turn of the receiving loop: read a byte, decide, fold it into the checksum if it goes on. */
    method ReceiveTurn(data: array<byte>, i: nat, length: nat, crc: byte, now: int, ghost before: Port)
      returns (verdict: Verdict, folded: byte)
      requires i < data.Length && HasRead(before, i, now) && data[..i] == before.incoming[..i]
      requires Reading(deviceId, before.incoming, i, length) && crc == Crc(before.incoming[..i])
      modifies strategy, data
      ensures var s := before.incoming;
              && (verdict.More? ==> && HasRead(before, i + 1, now) && data[..i + 1] == s[..i + 1]
                                    && Reading(deviceId, s, i + 1, verdict.length) && folded == Crc(s[..i + 1]))
              && (!verdict.More? ==> HasRead(before, Frames.Receive(deviceId, s).consumed, now))
              && (verdict.Stop? ==> Assembled(deviceId, s, Some(verdict.code), [], 0))
              && (verdict.Complete? ==> Assembled(deviceId, s, None, data[..i + 1], crc))
    {
      hide Crc;
      hide Table;
      hide Plus;
      hide Judge;
      hide Assembled;
      hide Frames.Receive;
      folded := crc;
      var ok := ReadInto(data, i, now, before);
      if !ok {
        RanDry(deviceId, before.incoming, length);
        return Stop(FAIL), crc;
      }
      JudgeSound(deviceId, before.incoming, i, length);
      verdict := Judge(deviceId, data[i], i, length);
      if verdict.More? {
        CrcPrefix(before.incoming, i);
        folded := ComputeCrc8ForByte(data[i], crc);
      }
    }

    /** The byte-by-byte loop: a code if it stops early, otherwise the packet and the checksum of its body. */
    method AssemblePacket(now: int) returns (stop: Option<int>, packet: seq<byte>, crc: byte)
      requires strategy.readBuffer == []
      modifies strategy
      ensures Assembled(deviceId, old(strategy.incoming), stop, packet, crc)
      ensures HasRead(old(strategy.Value()), Frames.Receive(deviceId, old(strategy.incoming)).consumed, now)
    {
      hide Crc;
      hide Assembled;
      hide Frames.Receive;
      ghost var before := strategy.Value();
      crc := 0;
      var data := new byte[PACKET_MAX_LENGTH];
      var packetLength := PACKET_MAX_LENGTH;
      var i := 0;
      CrcOfNothing();
      assert before.incoming[..0] == [] && before.sent + [] == before.sent;
      while true
        invariant HasRead(before, i, now) && fresh(data) && i < data.Length == PACKET_MAX_LENGTH
        invariant data[..i] == before.incoming[..i] && crc == Crc(before.incoming[..i])
        invariant Reading(deviceId, before.incoming, i, packetLength)
        decreases PACKET_MAX_LENGTH - i
      {
        var verdict, folded := ReceiveTurn(data, i, packetLength, crc, now, before);
        match verdict
        case Stop(code) =>
          return Some(code), [], 0;
        case Complete =>
          return None, data[..i + 1], crc;
        case More(length) =>
          packetLength, crc, i := length, folded, i + 1;
      }
    }

    /** Hands a packet to the receiver function and keeps the last ones. */
    method Deliver(d: Delivery)
      requires Valid()
      modifies this`storedReceivedPackets, this`receiverCalls
      ensures Valid() && receiverCalls == old(receiverCalls) + [d]
    {
      StoredPush(receiverCalls, d);
      receiverCalls := receiverCalls + [d];
      storedReceivedPackets := storedReceivedPackets + [d];
      if |storedReceivedPackets| > RECEIVED_PACKETS_BUFFER_LENGTH {
        storedReceivedPackets := storedReceivedPackets[|storedReceivedPackets| - RECEIVED_PACKETS_BUFFER_LENGTH..];
      }
    }

    /** What happens to an intact packet: the answer, if one is due, and the delivery. */
    method AcceptPacket(packet: seq<byte>)
      requires Valid() && |packet| > 4
      modifies this`storedReceivedPackets, this`receiverCalls, strategy
      ensures Valid()
      ensures receiverCalls == old(receiverCalls) + [Delivery(PayloadOf(packet), |packet|, PacketInfoOf(packet))]
      ensures strategy.Value() == old(strategy.Value()).(sent := old(strategy.sent) +
                if WantsAck(packet[2]) && packet[0] != BROADCAST then [ACK_BYTE] else [])
    {
      hide WantsAck;
      hide HasSender;
      hide Stored;
      assert old(strategy.sent) + [] == old(strategy.sent);
      if WantsAck(packet[2]) && packet[0] != BROADCAST {
        strategy.SendResponse(ACK_BYTE);
      }
      var payloadOffset := 3;
      if HasSender(packet[2]) {
        payloadOffset := payloadOffset + 1;
      }
      var payload := packet[payloadOffset..|packet| - 1];
      assert payload == PayloadOf(packet);
      Deliver(Delivery(payload, |packet|, PacketInfoOf(packet)));
    }

    method Receive(now: int) returns (code: int)
      requires Valid()
      modifies this`storedReceivedPackets, this`receiverCalls, strategy
      ensures Valid() && (Value(), code) == ReceiveStep(old(Value()), now)
    {
      hide Crc;
      hide Sealed;
      hide Assembled;
      hide ReceptionOf;
      hide Frames.Receive;
      hide WantsAck;
      hide PayloadOf;
      hide PacketInfoOf;
      hide Stored;
      ghost var n, r := Value(), Frames.Receive(deviceId, strategy.incoming);
      var stop, packet, crc := AssemblePacket(now);
      AssembledOutcome(deviceId, n.port.incoming, stop, packet, crc);
      assert receiverCalls + [] == receiverCalls && n.port.sent + [] == n.port.sent;
      if stop.Some? {
        return stop.value;
      }
      if packet[|packet| - 1] == crc {
        AcceptPacket(packet);
        return ACK;
      } else {
        return NAK;
      }
    }

    // ----- update -----

    /** The turn of one queued packet in the sending loop. */
    method TransmitPacket(i: nat, slot: Slot)
      requires Valid() && i < |outgoingPackets|
      modifies this`transmissions, strategy, outgoingPackets[i]
      ensures Valid() && Value() == TransmitAt(old(Value()), i, slot)
    {
      hide Crc;
      hide Frame;
      hide Cube;
      hide Stored;
      hide ErrorCalls;
      var packet := outgoingPackets[i];
      ghost var q := Values(outgoingPackets);
      strategy.Arrive(slot.before);
      assert transmissions + [] == transmissions;
      if packet.state == 0 {
        return;
      }
      if slot.now - packet.registration >= 1000 * (packet.timing + Cube(packet.attempts)) {
        ghost var started := Nodes.CanStart(strategy.Value(), slot.now);
        var state := SendString(packet.message, slot);
        assert Values(outgoingPackets) == q;
        packet.state := state;
        assert Values(outgoingPackets) == q[i := q[i].(state := state)];
        transmissions := transmissions + if started then [Transmission(packet.uid, slot.now, state)] else [];
      }
    }

    method TransmitAll(slots: seq<Slot>)
      requires Valid() && |slots| == |outgoingPackets|
      modifies this`transmissions, strategy, outgoingPackets
      ensures Valid() && Value() == TransmitUpTo(old(Value()), slots, |slots|)
    {
      for i := 0 to |outgoingPackets|
        invariant Valid() && Value() == TransmitUpTo(old(Value()), slots, i)
      {
        TransmitPacket(i, slots[i]);
      }
    }

    method RemovePacket(i: nat)
      requires Valid() && i < |outgoingPackets|
      modifies this`outgoingPackets
      ensures Valid() && outgoingPackets == old(outgoingPackets[..i] + outgoingPackets[i + 1..])
      ensures Values(outgoingPackets) == old(Values(outgoingPackets)[..i] + Values(outgoingPackets)[i + 1..])
    {
      WithoutOne(outgoingPackets, i);
      outgoingPackets := Without(outgoingPackets, outgoingPackets[i]);
    }

    /** The visit of one packet in the clean-up loop; the caller takes a deleted packet out of the queue. */
    method VisitAt(i: nat, now: int) returns (deleted: bool, raised: bool)
      requires Valid() && i < |outgoingPackets|
      modifies this`errorCalls, this`events, this`deviceId, outgoingPackets[i]
      ensures Valid()
      ensures match VisitPacket(old(outgoingPackets[i].Value()), now)
              case Fault(p) =>
                && raised && !deleted && events == old(events) && deviceId == old(deviceId)
                && outgoingPackets[i].Value() == p
              case Leave(e) =>
                && deleted && !raised && events == old(events) + [e]
                && deviceId == AddressAfter(old(deviceId), [e])
              case Stay(p, es) =>
                && !deleted && !raised && events == old(events) + es && deviceId == old(deviceId)
                && outgoingPackets[i].Value() == p
    {
      hide ErrorCalls;
      hide Stored;
      hide FrameLength;
      var packet := outgoingPackets[i];
      deleted, raised := false, false;
      if packet.state == ACK {
        if packet.timing == 0 {
          Record(Acknowledged(packet.uid));
          deleted := true;
          return;
        }
        packet.attempts, packet.registration, packet.state := 0, now, TO_BE_SENT;
      }
      if packet.state == FAIL {
        packet.attempts := packet.attempts + 1;
        if packet.attempts > MAX_ATTEMPTS {
          if |packet.message.payload| == 0 {
            raised := true;
            return;
          }
          if !packet.text && packet.message.payload[0] == ACQUIRE_ID {
            deviceId := packet.message.recipient;
            Record(Adopted(packet.uid, packet.message.recipient));
            deleted := true;
            return;
          }
          CallErrorFunction(ErrorCall(CONNECTION_LOST, Device(packet.message.recipient)), Ending(packet.Value()));
          if packet.timing == 0 {
            deleted := true;
          } else {
            packet.attempts, packet.registration, packet.state := 0, now, TO_BE_SENT;
          }
        }
      }
    }

    /** The visit seen from the whole queue: only the i-th packet changes, and a deleted one is taken out. */
    method VisitQueued(i: nat, now: int) returns (deleted: bool, raised: bool)
      requires Valid() && i < |outgoingPackets|
      modifies this`outgoingPackets, this`errorCalls, this`events, this`deviceId, outgoingPackets[i]
      ensures Valid()
      ensures var q := old(Values(outgoingPackets));
              match VisitPacket(q[i], now)
              case Fault(p) =>
                && raised && events == old(events) && deviceId == old(deviceId)
                && outgoingPackets == old(outgoingPackets) && Values(outgoingPackets) == q[i := p]
              case Leave(e) =>
                && deleted && !raised && events == old(events) + [e]
                && deviceId == AddressAfter(old(deviceId), [e])
                && outgoingPackets == old(outgoingPackets[..i] + outgoingPackets[i + 1..])
                && Values(outgoingPackets) == q[..i] + q[i + 1..]
              case Stay(p, es) =>
                && !deleted && !raised && events == old(events) + es && deviceId == old(deviceId)
                && outgoingPackets == old(outgoingPackets) && Values(outgoingPackets) == q[i := p]
    {
      hide VisitPacket;
      hide ErrorCalls;
      hide Stored;
      hide AddressAfter;
      ghost var q := Values(outgoingPackets);
      deleted, raised := VisitAt(i, now);
      assert Values(outgoingPackets) == q[i := outgoingPackets[i].Value()];
      if deleted {
        RemovePacket(i);
      }
    }

    /** The walk over q has dealt with the packets now in done, with the events es on the way. */
    ghost predicate Walking(q: seq<Packet>, done: seq<Packet>, es: seq<Event>, id: byte, before: seq<Event>, now: int)
      reads this, outgoingPackets
    {
      && |done| <= |outgoingPackets| == |q|
      && Values(outgoingPackets) == done + q[|done|..]
      && events == before + es && deviceId == AddressAfter(id, es)
      && WalkQueue(q, now) == Continued(done, es, WalkQueue(q[|done|..], now))
    }

    ghost predicate HasWalked(w: Walk, id: byte, before: seq<Event>)
      reads this, outgoingPackets
    {
      Values(outgoingPackets) == w.queue && events == before + w.events && deviceId == AddressAfter(id, w.events)
    }

    /** One turn of the walk: it goes on, or has ended with a deletion or a fault. */
    method WalkStep(i: nat, now: int, ghost q: seq<Packet>, ghost done: seq<Packet>, ghost es: seq<Event>,
                    ghost id: byte, ghost before: seq<Event>)
      returns (deleted: bool, raised: bool, ghost done': seq<Packet>, ghost es': seq<Event>)
      requires Valid() && i == |done| < |outgoingPackets| && Walking(q, done, es, id, before, now)
      modifies this`outgoingPackets, this`errorCalls, this`events, this`deviceId, outgoingPackets[i]
      ensures Valid() && Within(outgoingPackets, old(outgoingPackets))
      ensures var w := WalkQueue(q, now);
              if deleted || raised then
                HasWalked(w, id, before) && raised == w.WalkFault? && (w.Walked? ==> deleted == w.deleted)
              else
                && outgoingPackets == old(outgoingPackets) && |done'| == i + 1
                && Walking(q, done', es', id, before, now)
    {
      hide ErrorCalls;
      hide Stored;
      hide WalkQueue;
      hide VisitPacket;
      hide Continued;
      hide AddressAfter;
      hide Distinct;
      hide Within;
      WithinTaken(outgoingPackets);
      WalkTurn(q, done, es, id, before, now);
      deleted, raised := VisitQueued(i, now);
      done', es' := done, es;
      if !deleted && !raised {
        ghost var v := VisitPacket(q[i], now);
        done', es' := done + [v.packet], es + v.events;
      }
    }

    /** One walk from the front, up to the first deletion, or up to a packet without content. */
    method WalkOnce(now: int) returns (deleted: bool, raised: bool)
      requires Valid()
      modifies this`outgoingPackets, this`errorCalls, this`events, this`deviceId, outgoingPackets
      ensures Valid()
      ensures Within(outgoingPackets, old(outgoingPackets))
      ensures var w := WalkQueue(old(Values(outgoingPackets)), now);
              && raised == w.WalkFault? && (w.Walked? ==> deleted == w.deleted)
              && HasWalked(w, old(deviceId), old(events))
    {
      hide ErrorCalls;
      hide Stored;
      hide WalkQueue;
      hide Continued;
      hide AddressAfter;
      hide Distinct;
      hide Within;
      WithinTaken(outgoingPackets);
      deleted, raised := false, false;
      ghost var q, es: seq<Event> := Values(outgoingPackets), [];
      ghost var done: seq<Packet> := [];
      ContinueNothing(q, now);
      EmptyFront(q);
      EmptyFront(events);
      NoAddress(deviceId);
      var i := 0;
      while i < |outgoingPackets|
        invariant Valid() && !deleted && !raised && outgoingPackets == old(outgoingPackets)
        invariant i == |done| <= |outgoingPackets| && Walking(q, done, es, old(deviceId), old(events), now)
      {
        deleted, raised, done, es := WalkStep(i, now, q, done, es, old(deviceId), old(events));
        if deleted || raised {
          return;
        }
        i := i + 1;
      }
      ContinueEnd(done, es, now);
      EmptyFront(done);
    }

    /** The clean-up loop: walk again after every deletion. */
    method CleanUp(now: int) returns (raised: bool)
      requires Valid()
      modifies this`outgoingPackets, this`errorCalls, this`events, this`deviceId, outgoingPackets
      ensures Valid()
      ensures Within(outgoingPackets, old(outgoingPackets))
      ensures Value() == CleanedUp(old(Value()), now)
      ensures raised <==> Nodes.CleanUp(old(Value()), now).None?
    {
      hide Settle;
      hide Loop;
      hide WalkQueue;
      hide AddressAfter;
      ghost var n := Value();
      ghost var done: seq<Event> := [];
      LoopsNone(n, now);
      raised := false;
      var wasPacketDeleted := true;
      while wasPacketDeleted
        invariant Valid() && !raised && Within(outgoingPackets, old(outgoingPackets))
        invariant Value() == n.(queue := Values(outgoingPackets), events := n.events + done,
                                id := AddressAfter(n.id, done))
        invariant Settle(n.queue, now).Settled? <== (wasPacketDeleted ==> Settle(Values(outgoingPackets), now).Settled?)
        invariant wasPacketDeleted && Settle(n.queue, now).Settled? ==> Settle(Values(outgoingPackets), now).Settled?
        invariant Loop(n.queue, now) ==
          if wasPacketDeleted then AfterLoops(done, Loop(Values(outgoingPackets), now))
          else (Values(outgoingPackets), done)
        decreases |outgoingPackets|, wasPacketDeleted
      {
        ghost var q := Values(outgoingPackets);
        WalkSettles(q, now);
        LoopStep(q, now);
        wasPacketDeleted, raised := WalkOnce(now);
        ghost var es := WalkQueue(q, now).events;
        LoopsMore(done, es, n.id, n.events, Loop(Values(outgoingPackets), now));
        done := done + es;
        if raised {
          return;
        }
      }
    }

    /** `update`: send what is due, then clean up. It raises when an exhausted packet has no content. */
    method Update(slots: seq<Slot>, now: int) returns (raised: bool, length: nat)
      requires Valid() && |slots| == |outgoingPackets|
      modifies this`outgoingPackets, this`errorCalls, this`events, this`deviceId, this`transmissions
      modifies strategy, outgoingPackets
      ensures Valid()
      ensures Within(outgoingPackets, old(outgoingPackets))
      ensures Value() == Updated(old(Value()), slots, now)
      ensures raised <==> Nodes.Update(old(Value()), slots, now).None?
      ensures !raised ==> Nodes.Update(old(Value()), slots, now) == Some(Value()) && length == |Value().queue|
    {
      hide TransmitUpTo;
      hide Nodes.CleanUp;
      hide CleanedUp;
      ghost var n := Value();
      TransmitAll(slots);
      ghost var t := Value();
      raised := CleanUp(now);
      if !raised { CleanUpEnds(t, now); }
      length := |outgoingPackets|;
    }
  }

  /** A loop with some events already behind it. */
  function AfterLoops(done: seq<Event>, r: (seq<Packet>, seq<Event>)): (seq<Packet>, seq<Event>) {
    (r.0, done + r.1)
  }

  lemma LoopsNone(n: Node, now: int)
    ensures AfterLoops([], Loop(n.queue, now)) == Loop(n.queue, now)
    ensures n.events + [] == n.events && AddressAfter(n.id, []) == n.id
  {
    EmptyFront(Loop(n.queue, now).1);
  }

  /** What the loop still has to do after one walk. */
  lemma LoopStep(q: seq<Packet>, now: int)
    ensures var w := WalkQueue(q, now);
            Loop(q, now) == if w.Walked? && w.deleted then AfterLoops(w.events, Loop(w.queue, now))
                            else (w.queue, w.events)
  {}

  lemma LoopsMore(done: seq<Event>, es: seq<Event>, id: byte, events: seq<Event>, r: (seq<Packet>, seq<Event>))
    ensures AfterLoops(done, AfterLoops(es, r)) == AfterLoops(done + es, r)
    ensures forall q :: AfterLoops(done, (q, es)) == (q, done + es)
    ensures events + done + es == events + (done + es)
    ensures AddressAfter(id, done + es) == AddressAfter(AddressAfter(id, done), es)
  {
    Assoc(done, es, r.1);
    Assoc(events, done, es);
    AddressAfterAppend(id, done, es);
  }

  lemma Assoc<T>(a: seq<T>, b: seq<T>, c: seq<T>)
    ensures a + (b + c) == (a + b) + c
  {}

  lemma EmptyFront<T>(a: seq<T>)
    ensures [] + a == a && a + [] == a
  {}

  /** A walk that has dealt with some packets already. */
  function Continued(done: seq<Packet>, es: seq<Event>, w: Walk): Walk {
    match w
    case WalkFault(rest, more) => WalkFault(done + rest, es + more)
    case Walked(rest, more, deleted) => Walked(done + rest, es + more, deleted)
  }

  lemma ContinueNothing(q: seq<Packet>, now: int)
    ensures Continued([], [], WalkQueue(q[0..], now)) == WalkQueue(q, now)
  {
    assert q[0..] == q;
    EmptyFront(WalkQueue(q, now).queue);
    EmptyFront(WalkQueue(q, now).events);
  }

  lemma ContinueEnd(done: seq<Packet>, es: seq<Event>, now: int)
    ensures Continued(done, es, WalkQueue([], now)) == Walked(done, es, false)
  {
    EmptyFront(done);
    EmptyFront(es);
  }

  /** Of a queue whose front is done, the next packet and what the visit makes of the whole. */
  lemma SplitFront(done: seq<Packet>, q: seq<Packet>, i: nat)
    requires i == |done| < |q|
    ensures var all := done + q[i..];
            && all[i] == q[i] == q[i..][0] && q[i..][1..] == q[i + 1..]
            && all[..i] + all[i + 1..] == done + q[i + 1..]
            && forall p :: all[i := p] == (done + [p]) + q[i + 1..]
  {}

  lemma NoAddress(id: byte)
    ensures AddressAfter(id, []) == id
  {}

  lemma VisitAddress(id: byte, es: seq<Event>, p: Packet, now: int)
    ensures var v := VisitPacket(p, now);
            && (v.Leave? ==> AddressAfter(id, es + [v.event]) == AddressAfter(AddressAfter(id, es), [v.event]))
            && (v.Stay? ==> AddressAfter(id, es + v.events) == AddressAfter(id, es))
  {
    var v := VisitPacket(p, now);
    if v.Leave? { AddressAfterAppend(id, es, [v.event]); }
    if v.Stay? { AddressAfterAppend(id, es, v.events); }
  }

  lemma ContinueWalk(done: seq<Packet>, es: seq<Event>, q: seq<Packet>, now: int)
    requires |q| > 0
    ensures match VisitPacket(q[0], now)
            case Fault(p) => Continued(done, es, WalkQueue(q, now)) == WalkFault((done + [p]) + q[1..], es)
            case Leave(e) => Continued(done, es, WalkQueue(q, now)) == Walked(done + q[1..], es + [e], true)
            case Stay(p, more) =>
              Continued(done, es, WalkQueue(q, now)) == Continued(done + [p], es + more, WalkQueue(q[1..], now))
  {
    match VisitPacket(q[0], now)
    case Stay(p, more) =>
      var w := WalkQueue(q[1..], now);
      Assoc(done, [p], w.queue);
      Assoc(es, more, w.events);
    case Fault(p) =>
      Assoc(done, [p], q[1..]);
      EmptyFront(es);
    case _ =>
  }

  /** What the next visit makes of a walk, in each of its three cases. */
  lemma WalkTurn(q: seq<Packet>, done: seq<Packet>, es: seq<Event>, id: byte, events: seq<Event>, now: int)
    requires |done| < |q| && WalkQueue(q, now) == Continued(done, es, WalkQueue(q[|done|..], now))
    ensures var i, all, w, v := |done|, done + q[|done|..], WalkQueue(q, now), VisitPacket(q[|done|], now);
            && all[i] == q[i]
            && (v.Fault? ==> w.WalkFault? && w.queue == all[i := v.packet] && w.events == es)
            && (v.Leave? ==> && w.Walked? && w.deleted && w.queue == all[..i] + all[i + 1..]
                             && events + w.events == events + es + [v.event]
                             && AddressAfter(id, w.events) == AddressAfter(AddressAfter(id, es), [v.event]))
            && (v.Stay? ==> && all[i := v.packet] == (done + [v.packet]) + q[i + 1..]
                            && events + (es + v.events) == events + es + v.events
                            && AddressAfter(id, es + v.events) == AddressAfter(id, es)
                            && w == Continued(done + [v.packet], es + v.events, WalkQueue(q[i + 1..], now)))
  {
    hide WalkQueue;
    hide VisitPacket;
    hide Continued;
    hide AddressAfter;
    var i, v := |done|, VisitPacket(q[|done|], now);
    SplitFront(done, q, i);
    ContinueWalk(done, es, q[i..], now);
    VisitAddress(id, es, q[i], now);
    if v.Leave? { Assoc(events, es, [v.event]); }
    if v.Stay? { Assoc(events, es, v.events); }
  }

  function Without<T(==)>(s: seq<T>, x: T): seq<T> {
    if |s| == 0 then [] else (if s[0] == x then [] else [s[0]]) + Without(s[1..], x)
  }

  lemma {:induction false} WithoutNone<T>(s: seq<T>, x: T)
    requires x !in s
    ensures Without(s, x) == s
    decreases |s|
  {
    if |s| == 0 {
    } else {
      WithoutNone(s[1..], x);
    }
  }

  /** Filtering an object out of a queue of distinct ones takes it from its one position. */
  lemma {:induction false} WithoutOne<T>(s: seq<T>, i: nat)
    requires i < |s| && forall j, k :: 0 <= j < k < |s| ==> s[j] != s[k]
    ensures Without(s, s[i]) == s[..i] + s[i + 1..]
    decreases |s|
  {
    if i == 0 {
      WithoutNone(s[1..], s[0]);
    } else {
      WithoutOne(s[1..], i - 1);
      assert s[..i] == [s[0]] + s[1..][..i - 1];
    }
  }

  // ----- The decisions of the receiving loop -----

  datatype Verdict = Stop(code: int) | Complete | More(length: nat)

  /** What the loop does after byte b has arrived at position i. */
  function Judge(id: byte, b: byte, i: nat, length: nat): Verdict {
    if i == 0 && b != id && b != BROADCAST then Stop(BUSY)
    else if i == 1 then
      if Crc8.Value(b) > 4 && Crc8.Value(b) < PACKET_MAX_LENGTH then More(Crc8.Value(b)) else Stop(FAIL)
    else if i == 2 && IsShared(b) then Stop(BUSY)
    else if i == length - 1 then Complete
    else More(length)
  }

  /** The first i bytes of s have been read and found in order. */
  predicate Reading(id: byte, s: seq<byte>, i: nat, length: nat) {
    && i <= |s| && i < length <= PACKET_MAX_LENGTH
    && (i > 0 ==> ForMe(id, s[0]))
    && (if i > 1 then ValidLength(length) && length == Crc8.Value(s[1]) else length == PACKET_MAX_LENGTH)
    && (i > 2 ==> !IsShared(s[2]))
  }

  /** What the loop hands on once it has ended on input s. */
  ghost predicate Assembled(id: byte, s: seq<byte>, stop: Option<int>, packet: seq<byte>, crc: byte) {
    var r := Frames.Receive(id, s);
    match stop
    case Some(code) => r == Refused(code, r.consumed) && code != ACK
    case None =>
      |packet| > 4 && packet == s[..r.consumed] && r == ReceptionOf(packet) && crc == Crc(packet[..|packet| - 1])
  }

  lemma AssembledOutcome(id: byte, s: seq<byte>, stop: Option<int>, packet: seq<byte>, crc: byte)
    requires Assembled(id, s, stop, packet, crc)
    ensures var r := Frames.Receive(id, s);
            match stop
            case Some(code) => r == Refused(code, r.consumed)
            case None =>
              && |packet| > 4
              && r == if packet[|packet| - 1] != crc then Refused(NAK, r.consumed)
                      else Reception(ACK, r.consumed, WantsAck(packet[2]) && packet[0] != BROADCAST,
                                     Some(Delivery(PayloadOf(packet), |packet|, PacketInfoOf(packet))))
  {
    hide Crc;
  }

  lemma RanDry(id: byte, s: seq<byte>, length: nat)
    requires Reading(id, s, |s|, length)
    ensures Assembled(id, s, Some(FAIL), [], 0) && Frames.Receive(id, s).consumed == |s|
  {}

  lemma JudgeSound(id: byte, s: seq<byte>, i: nat, length: nat)
    requires Reading(id, s, i, length) && i < |s|
    ensures match Judge(id, s[i], i, length)
            case Stop(code) => Assembled(id, s, Some(code), [], 0) && Frames.Receive(id, s).consumed == i + 1
            case Complete => Assembled(id, s, None, s[..i + 1], Crc(s[..i])) && Frames.Receive(id, s).consumed == i + 1
            case More(more) => Reading(id, s, i + 1, more)
  {
    hide Crc;
    hide Crc8.Value;
    hide Sealed;
    hide PayloadOf;
    if Judge(id, s[i], i, length).Complete? { assert s[..i + 1][..i] == s[..i]; }
  }
}
