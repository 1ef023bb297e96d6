/**
 * A protocol object as a value: its serial port, its outgoing queue, and the history of everything it has
 * accepted, sent, reported and delivered. `dispatch`, `update` and `receive` are atomic steps on it.
 */
module Nodes {
  import opened PjonConstants
  import opened Frames
  import opened Cleanup

  /** The strategy's view of the wire. Time is in microseconds. */
  datatype Port = Port(incoming: seq<byte>, lastReceived: int, sent: seq<byte>)

  const MIN_CHANNEL_CLEARANCE: int := 100

  /** One transmission that went out, and the code `send_string` returned for it. */
  datatype Transmission = Transmission(uid: nat, at: int, code: int)

  datatype Node = Node(
    id: byte, acknowledge: bool, senderInfo: bool,
    port: Port, queue: seq<Packet>,
    accepted: seq<Packet>, events: seq<Event>, transmissions: seq<Transmission>, delivered: seq<Delivery>)

  function NewNode(id: byte): Node {
    Node(id, true, true, Port([], 0, []), [], [], [], [], [])
  }

  /** The packets kept for the application: the last ones delivered. */
  function Stored(delivered: seq<Delivery>): seq<Delivery> {
    if |delivered| <= RECEIVED_PACKETS_BUFFER_LENGTH then delivered
    else delivered[|delivered| - RECEIVED_PACKETS_BUFFER_LENGTH..]
  }

  /** They are the last 32, or all if there are fewer. */
  lemma StoredAreLast(delivered: seq<Delivery>)
    ensures var n := if |delivered| < 32 then |delivered| else 32;
            Stored(delivered) == delivered[|delivered| - n..]
  {}

  // ----- Headers -----

  function ConfiguredHeader(acknowledge: bool, senderInfo: bool): byte {
    (if senderInfo then SENDER_INFO_BIT else 0) | (if acknowledge then ACK_REQUEST_BIT else 0)
  }

  /** A header for one packet: each bit is set or cleared on top of the configured one. */
  function OverriddenHeader(acknowledge: bool, senderInfo: bool,
                            requestAck: bool, includeSenderInfo: bool, sharedNetwork: bool): byte
  {
    var h0 := ConfiguredHeader(acknowledge, senderInfo);
    var h1 := if requestAck then h0 | ACK_REQUEST_BIT else h0 & !(1 << 2);
    var h2 := if includeSenderInfo then h1 | SENDER_INFO_BIT else h1 & !(1 << 1);
    if sharedNetwork then h2 | MODE_BIT else h2 & !(1 << 0)
  }

  /** The configuration decides its own bits, and the arguments override all of them. */
  lemma HeaderBits(acknowledge: bool, senderInfo: bool, requestAck: bool, includeSenderInfo: bool, sharedNetwork: bool)
    ensures var h := ConfiguredHeader(acknowledge, senderInfo);
            (h & 4 != 0) == acknowledge && (h & 2 != 0) == senderInfo && h & 1 == 0 && h < 8
    ensures var h := OverriddenHeader(acknowledge, senderInfo, requestAck, includeSenderInfo, sharedNetwork);
            (h & 4 != 0) == requestAck && (h & 2 != 0) == includeSenderInfo && (h & 1 != 0) == sharedNetwork && h < 8
  {}

  // ----- dispatch -----

  datatype Request = Request(recipient: byte, payload: seq<byte>, text: bool,
                             header: Option<byte>, timing: Option<nat>, forcedSender: Option<byte>)

  function Get<T>(o: Option<T>, default: T): T {
    if o.Some? then o.value else default
  }

  function RequestedPacket(n: Node, r: Request, now: int): Packet
    requires |r.payload| < PACKET_MAX_LENGTH
  {
    var fields := Fields(r.recipient, Get(r.header, ConfiguredHeader(n.acknowledge, n.senderInfo)),
                         Get(r.forcedSender, n.id), r.payload);
    Packet(|n.accepted|, fields, r.text, Get(r.timing, 0), now, TO_BE_SENT, 0)
  }

  function Dispatch(n: Node, r: Request, now: int): (Node, int) {
    if |r.payload| >= PACKET_MAX_LENGTH then (n, FAIL)
    else if |n.queue| <= MAX_PACKETS then
      var p := RequestedPacket(n, r, now);
      (n.(queue := n.queue + [p], accepted := n.accepted + [p]), |n.queue|)
    else (n.(events := n.events + [Overflow]), FAIL)
  }

  // ----- send_string -----

  /** What the environment does around one queued packet: the clock, and the bytes that arrive before the
      channel is sampled and while a response is awaited. */
  datatype Slot = Slot(now: int, before: seq<byte>, after: seq<byte>)

  predicate CanStart(port: Port, now: int) {
    |port.incoming| == 0 && now - port.lastReceived > MIN_CHANNEL_CLEARANCE
  }

  predicate AwaitsResponse(m: Fields) {
    WantsAck(m.header) && m.recipient != BROADCAST
  }

  function ReadByte(port: Port, now: int): (Port, Option<byte>) {
    if |port.incoming| == 0 then (port, None)
    else (port.(incoming := port.incoming[1..], lastReceived := now), Some(port.incoming[0]))
  }

  function SendString(port: Port, m: Message, slot: Slot): (Port, int) {
    if !CanStart(port, slot.now) then (port, BUSY)
    else
      var sent := port.(sent := port.sent + Frame(m));
      if !AwaitsResponse(m) then (sent, ACK)
      else
        var (read, response) := ReadByte(sent.(incoming := slot.after), slot.now);
        (read, if response.None? then FAIL else if response.value == ACK_BYTE then ACK else BUSY)
  }

  // ----- update -----

  function Cube(k: nat): nat {
    k * k * k
  }

  /** The cubic back-off, in milliseconds after registration. */
  predicate Due(p: Packet, now: int) {
    now - p.registration >= 1000 * (p.timing + Cube(p.attempts))
  }

  function Arrived(port: Port, bytes: seq<byte>): Port {
    port.(incoming := port.incoming + bytes)
  }

  /** The turn of the i-th queued packet in the sending half of `update`. */
  function TransmitAt(n: Node, i: nat, slot: Slot): (r: Node)
    requires i < |n.queue|
    ensures |r.queue| == |n.queue|
  {
    var p, port := n.queue[i], Arrived(n.port, slot.before);
    if p.state == 0 || !Due(p, slot.now) then n.(port := port)
    else
      var (port', code) := SendString(port, p.message, slot);
      n.(port := port', queue := n.queue[i := p.(state := code)],
         transmissions := n.transmissions +
           if CanStart(port, slot.now) then [Transmission(p.uid, slot.now, code)] else [])
  }

  function TransmitUpTo(n: Node, slots: seq<Slot>, k: nat): (r: Node)
    requires k <= |n.queue| && k <= |slots|
    ensures |r.queue| == |n.queue|
  {
    if k == 0 then n else TransmitAt(TransmitUpTo(n, slots, k - 1), k - 1, slots[k - 1])
  }

  /** The address after the given events: the last adopted one. */
  function AddressAfter(id: byte, events: seq<Event>): byte
    decreases |events|
  {
    if |events| == 0 then id
    else AddressAfter(if events[0].Adopted? then events[0].device else id, events[1..])
  }

  lemma {:induction false} AddressAfterAppend(id: byte, a: seq<Event>, b: seq<Event>)
    ensures AddressAfter(id, a + b) == AddressAfter(AddressAfter(id, a), b)
    decreases |a|
  {
    if |a| == 0 {
      assert a + b == b;
    } else {
      assert (a + b)[1..] == a[1..] + b;
      AddressAfterAppend(if a[0].Adopted? then a[0].device else id, a[1..], b);
    }
  }

  /** An adoption gives the device the adopted address; nothing else changes it. */
  lemma AdoptionTakesAddress(id: byte, events: seq<Event>, e: Event)
    ensures AddressAfter(id, events + [e]) == if e.Adopted? then e.device else AddressAfter(id, events)
  {
    AddressAfterAppend(id, events, [e]);
    var next := if e.Adopted? then e.device else AddressAfter(id, events);
    assert [e][1..] == [] && AddressAfter(next, []) == next;
  }

  function CleanUp(n: Node, now: int): Option<Node> {
    match Settle(n.queue, now)
    case Faulted => None
    case Settled(kept, walks) =>
      var events := Flatten(walks);
      Some(n.(queue := kept, events := n.events + events, id := AddressAfter(n.id, events)))
  }

  /** The node when the clean-up has ended or raised. */
  function CleanedUp(n: Node, now: int): Node {
    var (kept, events) := Loop(n.queue, now);
    n.(queue := kept, events := n.events + events, id := AddressAfter(n.id, events))
  }

  lemma CleanUpEnds(n: Node, now: int)
    requires CleanUp(n, now).Some?
    ensures CleanUp(n, now) == Some(CleanedUp(n, now))
  {
    LoopSettles(n.queue, now);
  }

  /** `update`; None when an exhausted packet without content makes it raise an IndexError. */
  function Update(n: Node, slots: seq<Slot>, now: int): Option<Node>
    requires |slots| == |n.queue|
  {
    CleanUp(TransmitUpTo(n, slots, |n.queue|), now)
  }

  /** The node when `update` has returned or raised. */
  function Updated(n: Node, slots: seq<Slot>, now: int): Node
    requires |slots| == |n.queue|
  {
    CleanedUp(TransmitUpTo(n, slots, |n.queue|), now)
  }

  // ----- receive -----

  function ReceiveStep(n: Node, now: int): (Node, int) {
    var r := Receive(n.id, n.port.incoming);
    (n.(port := Consume(n.port, r, now),
        delivered := n.delivered + if r.delivery.Some? then [r.delivery.value] else []),
     r.code)
  }

  function Consume(port: Port, r: Reception, now: int): Port
    requires r.consumed <= |port.incoming|
  {
    Port(port.incoming[r.consumed..],
         if r.consumed > 0 then now else port.lastReceived,
         port.sent + if r.acknowledged then [ACK_BYTE] else [])
  }
}
