/** Runs and histories, from a new system on, that reach the cases in which the code falls short. */
module Witnesses {
  import opened PjonConstants
  import opened Crc8
  import opened Frames
  import opened Streams
  import opened Cleanup
  import opened Nodes
  import opened Runs
  import opened Guarantees
  import opened Handshake

  // ----- One packet that nobody answers, in front of a crowd of broadcasts -----

  const LAST: nat := MAX_ATTEMPTS

  /** The requests: the payload to a device that is not there, and then broadcasts. */
  function CrowdRequest(payload: seq<byte>, i: nat): Request {
    if i == 0 then Request(9, payload, false, None, None, None) else Request(BROADCAST, [1], false, None, None, None)
  }

  function CrowdPacket(payload: seq<byte>, i: nat, state: int): Packet
    requires |payload| < PACKET_MAX_LENGTH
  {
    var r := CrowdRequest(payload, i);
    Packet(i, Fields(r.recipient, ConfiguredHeader(true, true), 1, r.payload), false, 0, 0, state, 0)
  }

  /** After `sent` of the packets had their turn, the first one without an answer. */
  function CrowdQueue(payload: seq<byte>, k: nat, sent: nat): (q: seq<Packet>)
    requires |payload| < PACKET_MAX_LENGTH
    ensures |q| == k
  {
    seq(k, i requires 0 <= i < k =>
      CrowdPacket(payload, i, if i >= sent then TO_BE_SENT else if i == 0 then FAIL else ACK))
  }

  function Crowd(payload: seq<byte>, k: nat): Node {
    if k == 0 then NewNode(1) else Dispatch(Crowd(payload, k - 1), CrowdRequest(payload, k - 1), 0).0
  }

  lemma {:induction false} CrowdIs(payload: seq<byte>, k: nat)
    requires |payload| < PACKET_MAX_LENGTH && k <= MAX_PACKETS
    ensures Crowd(payload, k) == NewNode(1).(queue := CrowdQueue(payload, k, 0), accepted := CrowdQueue(payload, k, 0))
    decreases k
  {
    hide ConfiguredHeader;
    if k == 0 {
      assert CrowdQueue(payload, 0, 0) == [];
    } else {
      CrowdIs(payload, k - 1);
      assert CrowdQueue(payload, k, 0) == CrowdQueue(payload, k - 1, 0) + [CrowdPacket(payload, k - 1, TO_BE_SENT)];
    }
  }

  lemma CrowdRun(payload: seq<byte>) returns (ns: seq<Node>, steps: seq<Step>)
    requires |payload| < PACKET_MAX_LENGTH
    ensures IsRun(ns, steps) && |steps| == LAST + 1 && Updates(steps) == 0 && ns[|steps|] == Crowd(payload, LAST + 1)
  {
    hide Dispatch;
    ns := seq(LAST + 2, i requires 0 <= i < LAST + 2 => Crowd(payload, i));
    steps := seq(LAST + 1, i requires 0 <= i <= LAST => DoDispatch(CrowdRequest(payload, i), 0));
    NoUpdates(steps);
  }

  lemma {:induction false} NoUpdates(steps: seq<Step>)
    requires forall i :: 0 <= i < |steps| ==> !steps[i].DoUpdate?
    ensures Updates(steps) == 0
    decreases |steps|
  {
    if |steps| == 0 {
    } else {
      NoUpdates(steps[..|steps| - 1]);
    }
  }

  function CrowdSlots(): (slots: seq<Slot>)
    ensures |slots| == LAST + 1
  {
    seq(LAST + 1, i => Slot(1000, [], []))
  }

  /** What the turns of the first k packets leave behind. */
  predicate AfterTurns(payload: seq<byte>, n: Node, k: nat)
    requires |payload| < PACKET_MAX_LENGTH
  {
    && n.queue == CrowdQueue(payload, LAST + 1, k) && n.events == []
    && n.port.incoming == [] && n.port.lastReceived == 0
    && Fails(n.transmissions, 0) == if k > 0 then 1 else 0
  }

  lemma HeaderAsks()
    ensures WantsAck(ConfiguredHeader(true, true))
  {}

  lemma CrowdQueueStep(payload: seq<byte>, k: nat)
    requires |payload| < PACKET_MAX_LENGTH && k <= LAST
    ensures CrowdQueue(payload, LAST + 1, k)[k := CrowdPacket(payload, k, if k == 0 then FAIL else ACK)]
         == CrowdQueue(payload, LAST + 1, k + 1)
  {}

  lemma CrowdShape(payload: seq<byte>)
    requires |payload| < PACKET_MAX_LENGTH
    ensures var q := CrowdQueue(payload, LAST + 1, LAST + 1);
            && q == [CrowdPacket(payload, 0, FAIL)] + q[1..]
            && forall i :: 0 <= i < LAST ==> q[1..][i].state == ACK && q[1..][i].timing == 0
  {
    var q := CrowdQueue(payload, LAST + 1, LAST + 1);
    forall i | 0 <= i < LAST ensures q[1..][i].state == ACK && q[1..][i].timing == 0 {
      assert q[1..][i] == CrowdPacket(payload, i + 1, ACK);
    }
  }

  lemma CrowdTurn(payload: seq<byte>, n: Node, k: nat)
    requires |payload| < PACKET_MAX_LENGTH && k <= LAST && AfterTurns(payload, n, k)
    ensures AfterTurns(payload, TransmitAt(n, k, Slot(1000, [], [])), k + 1)
  {
    hide Frame;
    hide ConfiguredHeader;
    hide WantsAck;
    HeaderAsks();
    var p, slot, code := n.queue[k], Slot(1000, [], []), if k == 0 then FAIL else ACK;
    assert p == CrowdPacket(payload, k, TO_BE_SENT);
    assert Arrived(n.port, []) == n.port;
    assert Due(p, 1000) by { assert Cube(0) == 0; }
    assert CanStart(n.port, 1000);
    assert SendString(n.port, p.message, slot).1 == code;
    FailsMore(n.transmissions, Transmission(k, 1000, code), 0);
    CrowdQueueStep(payload, k);
    assert p.(state := code) == CrowdPacket(payload, k, code);
  }

  lemma {:induction false} CrowdTurns(payload: seq<byte>, n: Node, k: nat)
    requires |payload| < PACKET_MAX_LENGTH && k <= LAST + 1 && AfterTurns(payload, n, 0) && |n.queue| == LAST + 1
    ensures |n.queue| == LAST + 1 && AfterTurns(payload, TransmitUpTo(n, CrowdSlots(), k), k)
    decreases k
  {
    hide TransmitAt;
    if k == 0 {
    } else {
      CrowdTurns(payload, n, k - 1);
      hide AfterTurns;
      CrowdTurn(payload, TransmitUpTo(n, CrowdSlots(), k - 1), k - 1);
    }
  }

  /** The queue after the turns: the unanswered packet, and MAX_ATTEMPTS acknowledged ones behind it. */
  lemma CrowdSent(payload: seq<byte>)
    requires |payload| < PACKET_MAX_LENGTH
    ensures var n := Crowd(payload, LAST + 1);
            |n.queue| == LAST + 1 && AfterTurns(payload, TransmitUpTo(n, CrowdSlots(), LAST + 1), LAST + 1)
  {
    CrowdIs(payload, LAST + 1);
    CrowdTurns(payload, Crowd(payload, LAST + 1), LAST + 1);
  }

  /** A run in which a packet is reported lost in the only update, after its only transmission. */
  lemma LostAfterOneTransmission() returns (ns: seq<Node>, steps: seq<Step>)
    ensures IsRun(ns, steps) && Updates(steps) == 1
    ensures var n := ns[|steps|]; Exhausted(0, 9) in n.events && Fails(n.transmissions, 0) == 1
  {
    hide TransmitUpTo;
    hide Crowd;
    var front, turns := CrowdRun([1]);
    CrowdSent([1]);
    CrowdShape([1]);
    var n := Crowd([1], LAST + 1);
    var t := TransmitUpTo(n, CrowdSlots(), LAST + 1);
    var p, behind := CrowdPacket([1], 0, FAIL), t.queue[1..];
    assert t.queue == [p] + behind;
    LostAfterOneTry(p, behind, 1000);
    hide Settle;
    var s := Settle(t.queue, 1000);
    var m := CleanUp(t, 1000).value;
    assert m.events == [] + Flatten(s.walks);
    steps := turns + [DoUpdate(CrowdSlots(), 1000)];
    ns := front + [m];
    assert steps[..|turns|] == turns;
    forall i | 0 <= i < |steps| ensures Next(ns[i], steps[i], ns[i + 1]) {
      if i < |turns| { assert Next(front[i], turns[i], front[i + 1]); }
    }
  }

  /** A run after which `update` raises: the front packet of the crowd has no content. */
  lemma ContentlessRaises() returns (ns: seq<Node>, steps: seq<Step>)
    ensures IsRun(ns, steps) && Updates(steps) == 0
    ensures var n := ns[|steps|]; |n.queue| == |CrowdSlots()| && Update(n, CrowdSlots(), 1000) == None
  {
    hide TransmitUpTo;
    hide Crowd;
    ns, steps := CrowdRun([]);
    CrowdSent([]);
    CrowdShape([]);
    var q := TransmitUpTo(ns[|steps|], CrowdSlots(), LAST + 1).queue;
    AllAcknowledged(q[1..], 1000);
    assert IsFatal(q, 0, 1000);
    RaisesExactly(q, 1000);
  }

  // ----- More deliveries than transmissions -----

  lemma {:induction false} Drain(s: System, at: int, hs: seq<Happening>)
    requires |hs| == |Calls(s.receiver.id, s.receiver.port.incoming)|
    requires forall i :: 0 <= i < |hs| ==> hs[i] == ReceiverReceives(at)
    ensures var b := HappenAll(s, hs).receiver;
            && b.delivered == s.receiver.delivered + Delivered(Calls(s.receiver.id, s.receiver.port.incoming))
            && b.id == s.receiver.id && |b.port.incoming| == 0
    decreases |hs|
  {
    hide Frames.Receive;
    var b := s.receiver;
    if |hs| == 0 {
      assert b.delivered + [] == b.delivered;
    } else {
      var t := Happen(s, hs[0]);
      ReceiveStepDelivers(b, at);
      hide ReceiveStep;
      Drain(t, at, hs[1..]);
      HappenFirst(s, hs);
    }
  }

  lemma {:induction false} HappenFirst(s: System, hs: seq<Happening>)
    requires |hs| > 0
    ensures HappenAll(s, hs) == HappenAll(Happen(s, hs[0]), hs[1..])
    decreases |hs|
  {
    hide Happen;
    if |hs| == 1 {
    } else {
      HappenFirst(s, hs[..|hs| - 1]);
      assert hs[..|hs| - 1][1..] == hs[1..][..|hs| - 2];
    }
  }

  /** A frame for device 3 that carries two frames for device 2. */
  function Inner(): Message {
    Fields(2, SENDER_INFO_BIT, 1, [7])
  }

  function Carrier(): Message {
    Fields(3, ACK_REQUEST_BIT, 0, Wire([Inner(), Inner()]))
  }

  lemma CarrierWire()
    ensures |Wire([Inner(), Inner()])| == 12 && FrameLength(Carrier()) == 16
  {
    hide Frame;
    assert [Inner(), Inner()][1..] == [Inner()] && [Inner()][1..] == [];
    assert Wire([Inner()]) == Frame(Inner()) + Wire([]);
  }

  lemma CarrierDelivers()
    ensures |Delivered(Calls(2, Frame(Carrier())))| == 2
  {
    hide Frame;
    hide Calls;
    hide Delivered;
    var inner := [Inner(), Inner()];
    CarrierWire();
    InnerIsTaken();
    CarrierIsForeign();
    EmbeddedFramesAreDelivered(2, inner, 3, ACK_REQUEST_BIT);
    var d := [DeliveryOf(Inner())];
    hide Takes;
    assert inner[1..] == [Inner()] && [Inner()][1..] == [];
    assert Addressed(2, [Inner()]) == d + Addressed(2, []);
    assert Addressed(2, inner) == d + Addressed(2, [Inner()]);
  }

  lemma InnerIsTaken()
    ensures Takes(2, Inner())
  {}

  lemma CarrierIsForeign()
    ensures !HasSender(ACK_REQUEST_BIT) && Silent(2, [3, LengthByte(16), ACK_REQUEST_BIT])
  {
    ValueByte(16);
    ValueByte(2);
    ValueByte(0);
    assert ByteOf(2) == 2 && ByteOf(0) == 0;
  }

  /** A history in which one transmission makes two deliveries. */
  lemma DeliveriesCanExceedTransmissions() returns (ss: seq<System>, ms: seq<Move>)
    ensures IsHistory(ss, ms)
    ensures |ss[|ms|].receiver.delivered| > |ss[|ms|].sender.transmissions|
  {
    hide Frame;
    hide Calls;
    hide Delivered;
    hide Wire;
    hide Settle;
    hide Frames.Receive;
    CarrierWire();
    CarrierDelivers();
    var s0 := NewSystem(1, 2);
    var r := Request(3, Wire([Inner(), Inner()]), false, Some(ACK_REQUEST_BIT), None, Some(0));
    var s1 := s0.(sender := Dispatch(s0.sender, r, 0).0);
    var p := RequestedPacket(s0.sender, r, 0);
    assert s1.sender.queue == [] + [p] == [p] && p.message == Carrier();
    var receptions := seq(|Calls(2, Frame(Carrier()))|, i => ReceiverReceives(0));
    var c := Chance([], [], 1000, true, receptions, Noise([]));
    assert Arrived(s1.sender.port, []) == s1.sender.port;
    assert Due(p, 1000) by { assert Cube(0) == 0; }
    assert Goes(s1, 0, c);
    var heard := HearFrame(s1, Carrier());
    assert heard.receiver.port.incoming == [] + Frame(Carrier()) == Frame(Carrier());
    Drain(heard, 0, receptions);
    assert HappenAll(s1, []) == s1;
    var u := Exchange(s1, 0, c);
    assert u.receiver == HappenAll(heard, receptions).receiver;
    TurnVerdict(s1.sender, 0, Slot(1000, [], []));
    FirstByteDecides(s1.sender, 0, Slot(1000, [], []));
    hide TransmitAt;
    hide HappenAll;
    OneFailed(u.sender, p);
    var s2 := u.(sender := CleanUp(u.sender, 1000).value);
    ss, ms := [s0, s1, s2], [SenderDispatches(r, 0), SenderUpdates([c], 1000)];
    assert Exchanges(s1, [c], 1) == Exchange(Exchanges(s1, [c], 0), 0, [c][0]) == u;
  }

  /** A failed packet with attempts left stays. */
  lemma OneFailed(n: Node, p: Packet)
    requires |n.queue| == 1 && n.queue[0] == p.(state := FAIL) && p.attempts < MAX_ATTEMPTS
    ensures CleanUp(n, 1000).Some? && CleanUp(n, 1000).value.transmissions == n.transmissions
  {
    assert Settle(n.queue[1..], 1000) == Settled([], [[]]);
  }

  // ----- A frame for somebody else first, and an acknowledgement in the same update -----

  function First(): Message { Fields(3, SENDER_INFO_BIT, 1, [7]) }

  function Second(): Message { Fields(2, ACK_REQUEST_BIT, 1, [7, 7]) }

  function RequestOf(m: Message): Request {
    Request(m.recipient, m.payload, false, Some(m.header), None, Some(m.sender))
  }

  function PacketOf(u: nat, m: Message, state: int): Packet {
    Packet(u, m, false, 0, 0, state, 0)
  }

  function Dispatched(): System {
    var s := NewSystem(1, 2);
    var s1 := s.(sender := Dispatch(s.sender, RequestOf(First()), 0).0);
    s1.(sender := Dispatch(s1.sender, RequestOf(Second()), 0).0)
  }

  /** The first packet's frame reaches the receiver's input; nobody answers it. */
  function FirstChance(): Chance {
    Chance([], [], 1000, true, [], Noise([]))
  }

  /** Meanwhile the receiver reads its input to the end; then it gets the second frame and answers it. */
  function SecondChance(): Chance {
    Chance([], seq(|Calls(2, Frame(First()))|, i => ReceiverReceives(0)), 2000, true, [], Answered(2000))
  }

  lemma DispatchedIs()
    ensures var s := Dispatched();
            && s.sender.queue == [PacketOf(0, First(), TO_BE_SENT), PacketOf(1, Second(), TO_BE_SENT)]
            && s.sender.port == Port([], 0, []) && s.receiver == NewNode(2) && s.sender.events == []
            && |s.sender.accepted| == 2 && s.heard == []
            && s.sender.accepted[0].message == First() && s.sender.accepted[1].message == Second()
  {
    hide Frame;
  }

  lemma FirstTurn(s: System)
    requires s == Dispatched()
    ensures |s.sender.queue| == 2
    ensures var t := Exchange(s, 0, FirstChance());
            && t.sender.queue == [PacketOf(0, First(), ACK), PacketOf(1, Second(), TO_BE_SENT)]
            && t.sender.port.incoming == [] && t.sender.port.lastReceived == 0 && t.sender.events == []
            && t.receiver == Hear(NewNode(2), Frame(First()))
            && t.sender.accepted == s.sender.accepted && t.heard == [Sent(First())]
  {
    hide Frame;
    hide Frames.Receive;
    DispatchedIs();
    assert Arrived(s.sender.port, []) == s.sender.port;
    assert Cube(0) == 0;
    assert HappenAll(s, []) == s;
    assert HappenAll(HearFrame(s, First()), []) == HearFrame(s, First());
    assert !WantsAck(SENDER_INFO_BIT);
  }

  lemma SecondIsTaken()
    ensures Takes(2, Second()) && AwaitsResponse(Second())
  {}

  lemma SecondTurn(s: System)
    requires |s.sender.queue| == 2 && s.sender.queue[1] == PacketOf(1, Second(), TO_BE_SENT)
    requires s.sender.port.incoming == [] && s.sender.port.lastReceived == 0
    requires s.receiver == Hear(NewNode(2), Frame(First()))
    ensures Exchange(s, 1, SecondChance()).sender.queue == s.sender.queue[1 := PacketOf(1, Second(), ACK)]
    ensures Exchange(s, 1, SecondChance()).sender.events == s.sender.events
    ensures Exchange(s, 1, SecondChance()).sender.accepted == s.sender.accepted
    ensures forall p :: p in s.heard ==> p in Exchange(s, 1, SecondChance()).heard
    ensures Exchange(s, 1, SecondChance()).receiver.id == s.receiver.id
  {
    hide Frame;
    hide Frames.Receive;
    hide Calls;
    hide Takes;
    hide AwaitsResponse;
    var c, m := SecondChance(), Second();
    assert s.receiver.port.incoming == [] + Frame(First()) == Frame(First());
    Drain(s, 0, c.meanwhile);
    var t := HappenAll(s, c.meanwhile);
    hide HappenAll;
    SecondIsTaken();
    assert Arrived(s.sender.port, []) == s.sender.port;
    assert Due(s.sender.queue[1], 2000) by { assert Cube(0) == 0; }
    assert Goes(s, 1, c);
    HappenNothing(HearFrame(t, m));
    var b := UpToReply(s, 1, c).receiver;
    assert b.id == 2 && b.port.incoming == [] + Frame(m) == Frame(m) + [];
    assert Answers(s, 1, c);
    AnswerIsAck(b);
    var slot := Slot(2000, [], [ACK_BYTE]);
    ExchangeGrows(s, 1, c);
    TurnVerdict(s.sender, 1, slot);
    FirstByteDecides(s.sender, 1, slot);
    hide TransmitAt;
    hide ReceiveStep;
  }

  lemma HappenNothing(s: System)
    ensures HappenAll(s, []) == s
  {}

  lemma AnswerIsAck(b: Node)
    requires b.id == 2 && b.port.incoming == Frame(Second()) + []
    ensures AnswerOf(b) == [ACK_BYTE]
  {
    SecondIsTaken();
    ReceiveFrame(2, Second(), []);
  }

  lemma BothRemoved(n: Node)
    requires n.queue == [PacketOf(0, First(), ACK), PacketOf(1, Second(), ACK)] && n.events == []
    ensures CleanUp(n, 2000).Some? && Acknowledged(1) in CleanUp(n, 2000).value.events
    ensures CleanUp(n, 2000).value.accepted == n.accepted
  {
    AllAcknowledged(n.queue, 2000);
    EveryFate(n.queue, 2000, 1);
    hide Settle;
    var events := Flatten(Settle(n.queue, 2000).walks);
    assert n.events + events == events;
  }

  lemma ThreeMoves(s0: System, m0: Move, s1: System, m1: Move, s2: System, m2: Move, s3: System)
    requires s0 == NewSystem(s0.sender.id, s0.receiver.id)
    requires Moves(s0, m0, s1) && Moves(s1, m1, s2) && Moves(s2, m2, s3)
    ensures IsHistory([s0, s1, s2, s3], [m0, m1, m2])
  {
    hide Moves;
  }

  /**
   * A history in which an update first sends to another device, whose frame also reaches the receiver, and its next
   * packet is acknowledged.
   */
  lemma AcknowledgedAfterForeign() returns (ss: seq<System>, ms: seq<Move>)
    ensures IsHistory(ss, ms) && |ms| == 3
    ensures var s := ss[3];
            && |s.sender.accepted| == 2 && s.sender.accepted[0].message.recipient != s.receiver.id
            && Sent(s.sender.accepted[0].message) in s.heard
            && Acknowledged(1) in s.sender.events && AwaitsResponse(s.sender.accepted[1].message)
  {
    hide Exchange;
    hide CleanUp;
    hide Frame;
    hide Takes;
    var s0 := NewSystem(1, 2);
    var s1 := s0.(sender := Dispatch(s0.sender, RequestOf(First()), 0).0);
    var s2, chances := Dispatched(), [FirstChance(), SecondChance()];
    DispatchedIs();
    hide Dispatch;
    hide AwaitsResponse;
    hide ReceiveStep;
    FirstTurn(s2);
    var u := Exchange(s2, 0, FirstChance());
    SecondTurn(u);
    var v := Exchange(u, 1, SecondChance());
    BothRemoved(v.sender);
    SecondIsTaken();
    assert Exchanges(s2, chances, 1) == Exchange(Exchanges(s2, chances, 0), 0, chances[0]) == u;
    assert Exchanges(s2, chances, 2) == Exchange(Exchanges(s2, chances, 1), 1, chances[1]) == v;
    var s3 := v.(sender := CleanUp(v.sender, 2000).value);
    var m0, m1 := SenderDispatches(RequestOf(First()), 0), SenderDispatches(RequestOf(Second()), 0);
    var m2 := SenderUpdates(chances, 2000);
    assert Moves(s0, m0, s1) && Moves(s1, m1, s2) && Moves(s2, m2, s3);
    hide Moves;
    ThreeMoves(s0, m0, s1, m1, s2, m2, s3);
    ss, ms := [s0, s1, s2, s3], [m0, m1, m2];
  }
}
