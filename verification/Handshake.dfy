/**
 * Two nodes on a line: a sender that dispatches and updates, and a receiver that keeps calling `receive`. Frames
 * may be lost or wait in the receiver's input, answers may be lost or come too late, and foreign bytes may reach
 * either node. An ACK that is first in the response window is the receiver's answer to a frame equal to the one sent.
 */
module Handshake {
  import opened PjonConstants
  import opened Crc8
  import opened Frames
  import opened Streams
  import opened Cleanup
  import opened Nodes
  import opened Runs

  /** What has reached the receiver's input: frames of the sender, and bytes of others. */
  datatype Piece = Sent(message: Message) | Foreign(bytes: seq<byte>)

  datatype System = System(sender: Node, receiver: Node, heard: seq<Piece>)

  function NewSystem(senderId: byte, receiverId: byte): System {
    System(NewNode(senderId), NewNode(receiverId), [])
  }

  function Hear(b: Node, bytes: seq<byte>): Node {
    b.(port := Arrived(b.port, bytes))
  }

  // ----- What the receiver does while the sender is busy -----

  /** An answer to such a reception is lost, or reaches the sender outside the response window. */
  datatype Happening = ReceiverHears(bytes: seq<byte>) | ReceiverReceives(at: int)

  function Happen(s: System, h: Happening): System {
    match h
    case ReceiverHears(bytes) => s.(receiver := Hear(s.receiver, bytes), heard := s.heard + [Foreign(bytes)])
    case ReceiverReceives(at) => s.(receiver := ReceiveStep(s.receiver, at).0)
  }

  function HappenAll(s: System, hs: seq<Happening>): (r: System)
    ensures r.sender == s.sender
  {
    if |hs| == 0 then s else Happen(HappenAll(s, hs[..|hs| - 1]), hs[|hs| - 1])
  }

  // ----- One packet's turn in the sender's update -----

  /** In the window the receiver gets to the frame and answers it, or the sender reads something else or nothing. */
  datatype Reply = Answered(at: int) | Noise(bytes: seq<byte>)

  /**
   * The chance that one packet has: the bytes that reach the sender before its turn, what the receiver does
   * meanwhile, the clock, whether the frame arrives, and what happens in the response window up to the reply.
   */
  datatype Chance = Chance(before: seq<byte>, meanwhile: seq<Happening>, now: int,
                           arrives: bool, window: seq<Happening>, reply: Reply)

  /** Whether the i-th queued packet goes out now. */
  predicate Sends(n: Node, i: nat, now: int)
    requires i < |n.queue|
  {
    n.queue[i].state != 0 && Due(n.queue[i], now) && CanStart(n.port, now)
  }

  predicate Goes(s: System, i: nat, c: Chance)
    requires i < |s.sender.queue|
  {
    Sends(Hear(s.sender, c.before), i, c.now)
  }

  function HearFrame(s: System, m: Message): System {
    s.(receiver := Hear(s.receiver, Frame(m)), heard := s.heard + [Sent(m)])
  }

  /** The system when the reply is due. */
  function UpToReply(s: System, i: nat, c: Chance): (r: System)
    requires i < |s.sender.queue|
    ensures r.sender == s.sender
  {
    var t := HappenAll(s, c.meanwhile);
    HappenAll(if Goes(s, i, c) && c.arrives then HearFrame(t, s.sender.queue[i].message) else t, c.window)
  }

  /** The receiver's next reception is of the frame that the sender has just sent. */
  predicate Answers(s: System, i: nat, c: Chance)
    requires i < |s.sender.queue|
  {
    && Goes(s, i, c) && c.reply.Answered?
    && Frame(s.sender.queue[i].message) <= UpToReply(s, i, c).receiver.port.incoming
  }

  function AnswerOf(b: Node): seq<byte> {
    if Frames.Receive(b.id, b.port.incoming).acknowledged then [ACK_BYTE] else []
  }

  /** Anything but an ACK at the front. */
  function NoiseOf(reply: Reply): (bytes: seq<byte>)
    ensures |bytes| == 0 || bytes[0] != ACK_BYTE
  {
    if reply.Answered? || (|reply.bytes| > 0 && reply.bytes[0] == ACK_BYTE) then [] else reply.bytes
  }

  /** The turn of the i-th queued packet in the sender's update. */
  function Exchange(s: System, i: nat, c: Chance): (r: System)
    requires i < |s.sender.queue|
    ensures |r.sender.queue| == |s.sender.queue|
  {
    var t := UpToReply(s, i, c);
    if Answers(s, i, c) then
      t.(sender := TransmitAt(s.sender, i, Slot(c.now, c.before, AnswerOf(t.receiver))),
         receiver := ReceiveStep(t.receiver, c.reply.at).0)
    else
      t.(sender := TransmitAt(s.sender, i, Slot(c.now, c.before, NoiseOf(c.reply))))
  }

  function Exchanges(s: System, chances: seq<Chance>, k: nat): (r: System)
    requires k <= |s.sender.queue| && k <= |chances|
    ensures |r.sender.queue| == |s.sender.queue|
  {
    if k == 0 then s else Exchange(Exchanges(s, chances, k - 1), k - 1, chances[k - 1])
  }

  datatype Move =
    | SenderDispatches(request: Request, at: int)
    | SenderUpdates(chances: seq<Chance>, at: int)
    | SenderReceives(at: int)
    | SenderHears(bytes: seq<byte>)              // late answers and foreign bytes
    | SenderConfigures(acknowledge: bool, senderInfo: bool)
    | Happens(happening: Happening)

  predicate Moves(s: System, m: Move, t: System) {
    match m
    case SenderDispatches(r, at) => t == s.(sender := Dispatch(s.sender, r, at).0)
    case SenderUpdates(chances, at) =>
      && |chances| == |s.sender.queue|
      && var u := Exchanges(s, chances, |chances|);
         CleanUp(u.sender, at) == Some(t.sender) && t == u.(sender := t.sender)
    case SenderReceives(at) => t == s.(sender := ReceiveStep(s.sender, at).0)
    case SenderHears(bytes) => t == s.(sender := Hear(s.sender, bytes))
    case SenderConfigures(a, i) => t == s.(sender := s.sender.(acknowledge := a, senderInfo := i))
    case Happens(h) => t == Happen(s, h)
  }

  predicate IsHistory(ss: seq<System>, ms: seq<Move>) {
    && |ss| == |ms| + 1
    && ss[0] == NewSystem(ss[0].sender.id, ss[0].receiver.id)
    && forall i {:trigger ms[i]} :: 0 <= i < |ms| ==> Moves(ss[i], ms[i], ss[i + 1])
  }

  // ----- Every acknowledged packet has a delivery of its own -----

  /** The packet was answered: it is removed as acknowledged, or queued with the verdict ACK. */
  ghost predicate Credited(n: Node, u: nat) {
    Acknowledged(u) in n.events || exists i :: 0 <= i < |n.queue| && n.queue[i].uid == u && n.queue[i].state == ACK
  }

  /** The delivery that a verdict of ACK on the u-th accepted packet stands for. */
  ghost function OwedFor(n: Node, u: nat): multiset<Delivery>
    requires u < |n.accepted|
  {
    var m := n.accepted[u].message;
    if Credited(n, u) && AwaitsResponse(m) then multiset{DeliveryOf(m)} else multiset{}
  }

  /** The deliveries that the verdicts of ACK on the first k accepted packets stand for. */
  ghost function Owed(n: Node, k: nat): multiset<Delivery>
    requires k <= |n.accepted|
  {
    if k == 0 then multiset{} else Owed(n, k - 1) + OwedFor(n, k - 1)
  }

  ghost predicate Truthful(s: System) {
    Owed(s.sender, |s.sender.accepted|) <= multiset(s.receiver.delivered)
  }

  /** No packet that waits for an answer is credited in m without being so in n, but for the packet v. */
  ghost predicate NoNewCredit(n: Node, m: Node, v: int) {
    forall u: nat :: u < |m.accepted| && u != v && AwaitsResponse(m.accepted[u].message) && Credited(m, u) ==>
      Credited(n, u)
  }

  lemma {:induction false} OwedShrinks(n: Node, m: Node, k: nat)
    requires NoNewCredit(n, m, -1) && k <= |n.accepted| <= |m.accepted| && n.accepted == m.accepted[..|n.accepted|]
    ensures Owed(m, k) <= Owed(n, k)
    decreases k
  {
    hide Credited;
    hide DeliveryOf;
    if k == 0 {
    } else {
      OwedShrinks(n, m, k - 1);
    }
  }

  lemma OwedForOneMore(n: Node, m: Node, v: nat, u: nat)
    requires NoNewCredit(n, m, v) && u < |n.accepted| && n.accepted == m.accepted
    ensures u != v ==> OwedFor(m, u) <= OwedFor(n, u)
    ensures OwedFor(m, u) <= multiset{DeliveryOf(n.accepted[u].message)}
  {
    hide Credited;
    hide DeliveryOf;
  }

  lemma {:induction false} OwedOneMore(n: Node, m: Node, v: nat, k: nat)
    requires NoNewCredit(n, m, v) && k <= |n.accepted| && n.accepted == m.accepted && v < |n.accepted|
    ensures Owed(m, k) <= Owed(n, k) + if v < k then multiset{DeliveryOf(n.accepted[v].message)} else multiset{}
    decreases k
  {
    hide NoNewCredit;
    hide OwedFor;
    hide DeliveryOf;
    if k == 0 {
    } else {
      OwedOneMore(n, m, v, k - 1);
      OwedForOneMore(n, m, v, k - 1);
    }
  }

  /** A packet accepted later owes nothing as long as it is not credited. */
  lemma {:induction false} OwedOfNew(m: Node, from: nat, k: nat)
    requires from <= k <= |m.accepted| && forall u: nat :: from <= u < k ==> !Credited(m, u)
    ensures Owed(m, k) == Owed(m, from)
    decreases k
  {
    hide Credited;
    hide DeliveryOf;
    if k == from {
    } else {
      OwedOfNew(m, from, k - 1);
    }
  }

  lemma {:induction false} OwedHas(n: Node, u: nat, k: nat)
    requires u < k <= |n.accepted|
    ensures OwedFor(n, u) <= Owed(n, k)
    decreases k
  {
    hide OwedFor;
    if k - 1 == u {
    } else {
      OwedHas(n, u, k - 1);
    }
  }

  // ----- What happens at the receiver -----

  function FrameCount(heard: seq<Piece>): nat {
    if |heard| == 0 then 0 else FrameCount(heard[..|heard| - 1]) + if heard[|heard| - 1].Sent? then 1 else 0
  }

  function PieceBytes(p: Piece): seq<byte> {
    if p.Sent? then Frame(p.message) else p.bytes
  }

  function ByteCount(heard: seq<Piece>): nat {
    if |heard| == 0 then 0 else ByteCount(heard[..|heard| - 1]) + |PieceBytes(heard[|heard| - 1])|
  }

  function TotalLength(ds: seq<Delivery>): nat {
    if |ds| == 0 then 0 else TotalLength(ds[..|ds| - 1]) + ds[|ds| - 1].length
  }

  lemma HeardPush(heard: seq<Piece>, p: Piece)
    ensures FrameCount(heard + [p]) == FrameCount(heard) + if p.Sent? then 1 else 0
    ensures ByteCount(heard + [p]) == ByteCount(heard) + |PieceBytes(p)|
  {
    assert (heard + [p])[..|heard|] == heard;
  }

  lemma TotalPush(ds: seq<Delivery>, d: Delivery)
    ensures TotalLength(ds + [d]) == TotalLength(ds) + d.length
  {
    assert (ds + [d])[..|ds|] == ds;
  }

  /** What was delivered and what is still in the input came out of what was heard. */
  predicate Covered(s: System) {
    TotalLength(s.receiver.delivered) + |s.receiver.port.incoming| <= ByteCount(s.heard)
  }

  /** The receiver goes on: it keeps its address and its deliveries. */
  ghost predicate GoesOn(s: System, t: System) {
    && t.receiver.id == s.receiver.id
    && multiset(s.receiver.delivered) <= multiset(t.receiver.delivered)
    && (Covered(s) ==> Covered(t))
  }

  lemma ReceiveStepDelivers(b: Node, now: int)
    ensures var r, c := Frames.Receive(b.id, b.port.incoming), ReceiveStep(b, now).0;
            && c.id == b.id && c.port.incoming == b.port.incoming[r.consumed..]
            && c.delivered == b.delivered + (if r.delivery.Some? then [r.delivery.value] else [])
            && (r.delivery.Some? ==> r.delivery.value.length == r.consumed)
  {
    hide Frames.Receive;
    if Frames.Receive(b.id, b.port.incoming).delivery.Some? {
      ReceptionDiscipline(b.id, b.port.incoming);
      AcceptedIsFrame(b.id, b.port.incoming);
    }
  }

  lemma ReceptionGoesOn(s: System, at: int)
    ensures GoesOn(s, s.(receiver := ReceiveStep(s.receiver, at).0))
  {
    hide Frames.Receive;
    hide ByteCount;
    var b, r := s.receiver, Frames.Receive(s.receiver.id, s.receiver.port.incoming);
    ReceiveStepDelivers(b, at);
    hide ReceiveStep;
    assert b.delivered + [] == b.delivered;
    if r.delivery.Some? { TotalPush(b.delivered, r.delivery.value); }
  }

  lemma HappenGoesOn(s: System, h: Happening)
    ensures GoesOn(s, Happen(s, h)) && FrameCount(Happen(s, h).heard) == FrameCount(s.heard)
  {
    hide ReceiveStep;
    hide TotalLength;
    match h
    case ReceiverHears(bytes) => HeardPush(s.heard, Foreign(bytes));
    case ReceiverReceives(at) => ReceptionGoesOn(s, at);
  }

  lemma {:induction false} HappenAllGoesOn(s: System, hs: seq<Happening>)
    ensures GoesOn(s, HappenAll(s, hs)) && FrameCount(HappenAll(s, hs).heard) == FrameCount(s.heard)
    decreases |hs|
  {
    hide Happen;
    hide Covered;
    if |hs| == 0 {
    } else {
      HappenAllGoesOn(s, hs[..|hs| - 1]);
      HappenGoesOn(HappenAll(s, hs[..|hs| - 1]), hs[|hs| - 1]);
    }
  }

  lemma UpToReplyGoesOn(s: System, i: nat, c: Chance)
    requires i < |s.sender.queue|
    ensures var t := UpToReply(s, i, c);
            && GoesOn(s, t)
            && FrameCount(t.heard) == FrameCount(s.heard) + if Goes(s, i, c) && c.arrives then 1 else 0
  {
    hide HappenAll;
    hide Goes;
    hide TotalLength;
    hide Frame;
    var t, m := HappenAll(s, c.meanwhile), s.sender.queue[i].message;
    HappenAllGoesOn(s, c.meanwhile);
    HeardPush(t.heard, Sent(m));
    assert GoesOn(t, HearFrame(t, m));
    HappenAllGoesOn(t, c.window);
    HappenAllGoesOn(HearFrame(t, m), c.window);
  }

  // ----- The verdict of one turn -----

  /** The packet's turn as far as the verdict goes. */
  lemma TurnVerdict(n: Node, i: nat, slot: Slot)
    requires i < |n.queue|
    ensures var m, p, sends := TransmitAt(n, i, slot), n.queue[i], Sends(Hear(n, slot.before), i, slot.now);
            && m.queue == n.queue[i := p.(state := m.queue[i].state)]
            && m.accepted == n.accepted && m.events == n.events
            && |m.transmissions| == |n.transmissions| + (if sends then 1 else 0)
            && (!sends ==> m.queue[i].state == p.state || m.queue[i].state == BUSY)
            && (sends && AwaitsResponse(p.message) && (|slot.after| == 0 || slot.after[0] != ACK_BYTE)
                ==> m.queue[i].state != ACK)
  {
    hide Frame;
    assert n.queue[i := n.queue[i]] == n.queue;
  }

  /** Why an ACK in the window must be the receiver's: the first byte decides, whoever sent it. */
  lemma FirstByteDecides(n: Node, i: nat, slot: Slot)
    requires i < |n.queue| && Sends(Hear(n, slot.before), i, slot.now) && AwaitsResponse(n.queue[i].message)
    ensures var state := TransmitAt(n, i, slot).queue[i].state;
            && (state == ACK <==> |slot.after| > 0 && slot.after[0] == ACK_BYTE)
            && (state == FAIL <==> |slot.after| == 0)
  {
    hide Frame;
  }

  /** A receiver that answers the frame at the front of its input delivers exactly that frame's fields. */
  lemma AnswerBacks(b: Node, m: Message, at: int)
    requires Frame(m) <= b.port.incoming && Frames.Receive(b.id, b.port.incoming).acknowledged
    ensures ReceiveStep(b, at).0.delivered == b.delivered + [DeliveryOf(m)]
  {
    hide Frame;
    hide Frames.Receive;
    var s, n := b.port.incoming, Frames.Receive(b.id, b.port.incoming).consumed;
    ReceiveStepDelivers(b, at);
    hide ReceiveStep;
    ReceptionDiscipline(b.id, s);
    AcceptedIsFrame(b.id, s);
    var read: Message := MessageOf(s[..n]);
    assert s == Frame(read) + s[n..] && s == Frame(m) + s[|Frame(m)|..];
    FramesPrefixFree(read, s[n..], m, s[|Frame(m)|..]);
    SameOnWireDelivers(read, m);
  }

  /** A turn credits at most its own packet, and that only with an ACK at the front of the window. */
  lemma TurnCredits(n: Node, i: nat, slot: Slot)
    requires i < |n.queue| && Tracked(n)
    ensures var m, p := TransmitAt(n, i, slot), n.queue[i];
            && m.accepted == n.accepted
            && NoNewCredit(n, m, p.uid)
            && (|slot.after| == 0 || slot.after[0] != ACK_BYTE || !AwaitsResponse(p.message) ==> NoNewCredit(n, m, -1))
  {
    hide AwaitsResponse;
    hide Sends;
    TurnVerdict(n, i, slot);
    hide TransmitAt;
    var m, p := TransmitAt(n, i, slot), n.queue[i];
    assert SamePacket(n.accepted[p.uid], p);
    forall u: nat | u < |m.accepted| && Credited(m, u) && !Credited(n, u)
      ensures u == p.uid && m.queue[i].state == ACK && p.state != ACK
    {
      var j :| 0 <= j < |m.queue| && m.queue[j].uid == u && m.queue[j].state == ACK;
    }
  }

  lemma OwedAfterTurn(s: System, t: System, v: nat)
    requires Truthful(s) && NoNewCredit(s.sender, t.sender, v) && t.sender.accepted == s.sender.accepted
    requires v < |s.sender.accepted|
    requires multiset(s.receiver.delivered) + multiset{DeliveryOf(s.sender.accepted[v].message)}
          <= multiset(t.receiver.delivered)
    ensures Truthful(t)
  {
    hide NoNewCredit;
    OwedOneMore(s.sender, t.sender, v, |s.sender.accepted|);
  }

  lemma OwedAsBefore(s: System, t: System)
    requires Truthful(s) && NoNewCredit(s.sender, t.sender, -1) && t.sender.accepted == s.sender.accepted
    requires multiset(s.receiver.delivered) <= multiset(t.receiver.delivered)
    ensures Truthful(t)
  {
    hide NoNewCredit;
    assert t.sender.accepted[..|s.sender.accepted|] == s.sender.accepted;
    OwedShrinks(s.sender, t.sender, |s.sender.accepted|);
  }

  // ----- The invariant of all histories -----

  predicate Matched(s: System) {
    FrameCount(s.heard) <= |s.sender.transmissions|
  }

  ghost predicate SystemInv(s: System) {
    Inv(s.sender) && Truthful(s) && Matched(s) && Covered(s)
  }

  ghost predicate SystemMid(s: System, k: nat) {
    Mid(s.sender, k) && Truthful(s) && Matched(s) && Covered(s)
  }

  lemma AnsweredTruthful(s: System, i: nat, c: Chance)
    requires i < |s.sender.queue| && Truthful(s) && Tracked(s.sender) && Answers(s, i, c)
    ensures Truthful(Exchange(s, i, c))
  {
    hide Frames.Receive;
    hide Frame;
    hide Goes;
    hide UpToReply;
    hide Truthful;
    hide Covered;
    hide AwaitsResponse;
    var p, t, u := s.sender.queue[i], UpToReply(s, i, c), Exchange(s, i, c);
    var slot := Slot(c.now, c.before, AnswerOf(t.receiver));
    UpToReplyGoesOn(s, i, c);
    ReceptionGoesOn(t, c.reply.at);
    TurnCredits(s.sender, i, slot);
    assert SamePacket(s.sender.accepted[p.uid], p);
    if Frames.Receive(t.receiver.id, t.receiver.port.incoming).acknowledged && AwaitsResponse(p.message) {
      AnswerBacks(t.receiver, p.message, c.reply.at);
      hide ReceiveStep;
      hide TransmitAt;
      OwedAfterTurn(s, u, p.uid);
    } else {
      hide ReceiveStep;
      hide TransmitAt;
      OwedAsBefore(s, u);
    }
  }

  lemma UnansweredTruthful(s: System, i: nat, c: Chance)
    requires i < |s.sender.queue| && Truthful(s) && Tracked(s.sender) && !Answers(s, i, c)
    ensures Truthful(Exchange(s, i, c))
  {
    hide Frames.Receive;
    hide Frame;
    hide Goes;
    hide UpToReply;
    hide Truthful;
    hide Covered;
    hide NoiseOf;
    UpToReplyGoesOn(s, i, c);
    TurnCredits(s.sender, i, Slot(c.now, c.before, NoiseOf(c.reply)));
    hide TransmitAt;
    OwedAsBefore(s, Exchange(s, i, c));
  }

  lemma ExchangeCounts(s: System, i: nat, c: Chance)
    requires i < |s.sender.queue| && Matched(s) && Covered(s)
    ensures Matched(Exchange(s, i, c)) && Covered(Exchange(s, i, c))
  {
    hide Frames.Receive;
    hide Frame;
    hide UpToReply;
    hide Sends;
    hide Covered;
    hide AwaitsResponse;
    var t := UpToReply(s, i, c);
    UpToReplyGoesOn(s, i, c);
    if c.reply.Answered? { ReceptionGoesOn(t, c.reply.at); }
    TurnVerdict(s.sender, i, Slot(c.now, c.before, AnswerOf(t.receiver)));
    TurnVerdict(s.sender, i, Slot(c.now, c.before, NoiseOf(c.reply)));
    hide TransmitAt;
    hide ReceiveStep;
    SenderAside(t, Exchange(s, i, c));
    if c.reply.Answered? { SenderAside(t.(receiver := ReceiveStep(t.receiver, c.reply.at).0), Exchange(s, i, c)); }
  }

  lemma SenderAside(s: System, t: System)
    requires t.heard == s.heard
    ensures t.receiver == s.receiver ==> Covered(t) == Covered(s)
  {}

  lemma ExchangeKeeps(s: System, i: nat, c: Chance)
    requires i < |s.sender.queue| && SystemMid(s, i)
    ensures SystemMid(Exchange(s, i, c), i + 1)
  {
    hide Mid;
    hide Truthful;
    hide Matched;
    hide Covered;
    hide TransmitAt;
    hide ReceiveStep;
    hide UpToReply;
    hide Answers;
    assert Tracked(s.sender) by { MidTracks(s.sender, i); }
    ExchangeCounts(s, i, c);
    if Answers(s, i, c) { AnsweredTruthful(s, i, c); } else { UnansweredTruthful(s, i, c); }
    TransmitKeeps(s.sender, i, Slot(c.now, c.before, AnswerOf(UpToReply(s, i, c).receiver)));
    TransmitKeeps(s.sender, i, Slot(c.now, c.before, NoiseOf(c.reply)));
  }

  lemma MidTracks(n: Node, k: nat)
    requires Mid(n, k)
    ensures Tracked(n)
  {}

  lemma {:induction false} ExchangesKeep(s: System, chances: seq<Chance>, k: nat)
    requires SystemInv(s) && k <= |s.sender.queue| && k <= |chances|
    ensures SystemMid(Exchanges(s, chances, k), k)
    decreases k
  {
    hide Exchange;
    hide Truthful;
    hide Matched;
    hide Covered;
    if k == 0 {
      InvIsMid(s.sender);
    } else {
      hide Inv;
      hide Mid;
      ExchangesKeep(s, chances, k - 1);
      ExchangeKeeps(Exchanges(s, chances, k - 1), k - 1, chances[k - 1]);
    }
  }

  lemma InvIsMid(n: Node)
    requires Inv(n)
    ensures Mid(n, 0)
  {}

  /** The clean-up removes as acknowledged only what it found acknowledged, and leaves no verdict of ACK behind. */
  lemma CleanUpCredits(n: Node, at: int, m: Node)
    requires CleanUp(n, at) == Some(m) && Resting(m)
    ensures NoNewCredit(n, m, -1)
  {
    hide AwaitsResponse;
    hide Settle;
    forall u: nat | Credited(m, u) && Acknowledged(u) !in n.events ensures Credited(n, u) {
      assert Acknowledged(u) in Flatten(Settle(n.queue, at).walks);
      AcknowledgedFrom(n.queue, at, u);
    }
  }

  lemma AcknowledgedFrom(q: seq<Packet>, at: int, u: nat)
    requires Settle(q, at).Settled? && Acknowledged(u) in Flatten(Settle(q, at).walks)
    ensures exists i :: 0 <= i < |q| && q[i].uid == u && q[i].state == ACK
  {
    var i := EventFrom(q, at, Acknowledged(u));
  }

  lemma CleanUpTruthful(s: System, at: int, m: Node)
    requires SystemMid(s, |s.sender.queue|) && CleanUp(s.sender, at) == Some(m)
    ensures SystemInv(s.(sender := m))
  {
    hide Truthful;
    hide Settle;
    CleanUpKeeps(s.sender, m, at);
    hide Bookkeeping;
    CleanUpCredits(s.sender, at, m);
    OwedAsBefore(s, s.(sender := m));
    SenderAside(s, s.(sender := m));
  }

  /** A dispatch accepts a packet that is not answered yet. */
  lemma DispatchCredits(n: Node, r: Request, at: int)
    requires Inv(n)
    ensures var m := Dispatch(n, r, at).0;
            && NoNewCredit(n, m, -1) && |n.accepted| <= |m.accepted| && m.accepted[..|n.accepted|] == n.accepted
            && forall u: nat :: |n.accepted| <= u < |m.accepted| ==> !Credited(m, u)
  {
    hide AwaitsResponse;
    var m := Dispatch(n, r, at).0;
    forall u: nat | Credited(m, u) ensures Credited(n, u) && u < |n.accepted| {
      if Acknowledged(u) !in n.events {
        var j :| 0 <= j < |m.queue| && m.queue[j].uid == u && m.queue[j].state == ACK;
        assert IsAtRest(n.queue[j].state);
      }
    }
  }

  lemma DispatchTruthful(s: System, r: Request, at: int)
    requires Truthful(s) && Inv(s.sender)
    ensures Truthful(s.(sender := Dispatch(s.sender, r, at).0))
  {
    DispatchCredits(s.sender, r, at);
    hide Inv;
    hide Credited;
    hide NoNewCredit;
    hide Dispatch;
    var m := Dispatch(s.sender, r, at).0;
    OwedShrinks(s.sender, m, |s.sender.accepted|);
    OwedOfNew(m, |s.sender.accepted|, |m.accepted|);
  }

  lemma CreditsCongruent(n: Node, m: Node)
    requires m.queue == n.queue && m.events == n.events
    ensures NoNewCredit(n, m, -1)
  {}

  /** A move of the sender that touches neither its queue nor its sending history. */
  lemma AsideKeeps(s: System, m: Node)
    requires SystemInv(s) && m.queue == s.sender.queue && m.accepted == s.sender.accepted
    requires m.events == s.sender.events && m.transmissions == s.sender.transmissions
    ensures SystemInv(s.(sender := m))
  {
    hide Truthful;
    InvCongruent(s.sender, m);
    hide Inv;
    CreditsCongruent(s.sender, m);
    OwedAsBefore(s, s.(sender := m));
    SenderAside(s, s.(sender := m));
  }

  lemma MoveKeeps(s: System, m: Move, t: System)
    requires SystemInv(s) && Moves(s, m, t)
    ensures SystemInv(t)
  {
    hide Frames.Receive;
    hide Inv;
    hide Truthful;
    hide Covered;
    hide CleanUp;
    hide Happen;
    match m
    case SenderDispatches(r, at) =>
      DispatchKeeps(s.sender, r, at);
      DispatchTruthful(s, r, at);
      SenderAside(s, t);
    case SenderUpdates(chances, at) =>
      ExchangesKeep(s, chances, |chances|);
      CleanUpTruthful(Exchanges(s, chances, |chances|), at, t.sender);
    case Happens(h) =>
      HappenGoesOn(s, h);
      HappenSender(s, h);
      CreditsCongruent(s.sender, t.sender);
      OwedAsBefore(s, t);
    case _ =>
      AsideKeeps(s, t.sender);
  }

  lemma HappenSender(s: System, h: Happening)
    ensures Happen(s, h).sender == s.sender
  {}

  lemma {:induction false} HistoryKeeps(ss: seq<System>, ms: seq<Move>, k: nat)
    requires IsHistory(ss, ms) && k <= |ms|
    ensures SystemInv(ss[k])
    decreases k
  {
    if k == 0 {
      NewKeeps(ss[0].sender.id, ss[0].receiver.id);
    } else {
      hide Moves;
      hide SystemInv;
      HistoryKeeps(ss, ms, k - 1);
      MoveKeeps(ss[k - 1], ms[k - 1], ss[k]);
    }
  }

  lemma NewKeeps(senderId: byte, receiverId: byte)
    ensures SystemInv(NewSystem(senderId, receiverId))
  {}

  /**
   * End to end, in every history: the packets that asked for an answer and were acknowledged have a delivery each,
   * with their own recipient, header, sender and payload. Two acknowledgements never share a delivery.
   */
  lemma AcknowledgementsAreBacked(ss: seq<System>, ms: seq<Move>, k: nat)
    requires IsHistory(ss, ms) && k <= |ms|
    ensures Owed(ss[k].sender, |ss[k].sender.accepted|) <= multiset(ss[k].receiver.delivered)
  {
    HistoryKeeps(ss, ms, k);
  }

  /** So each of them was handed to the receiver's application with its own payload and sender. */
  lemma AcknowledgedWasDelivered(ss: seq<System>, ms: seq<Move>, k: nat, u: nat)
    requires IsHistory(ss, ms) && k <= |ms| && u < |ss[k].sender.accepted|
    requires Acknowledged(u) in ss[k].sender.events && AwaitsResponse(ss[k].sender.accepted[u].message)
    ensures exists d :: d in ss[k].receiver.delivered
                     && d.payload == ss[k].sender.accepted[u].message.payload
                     && d.info.receiverId == ss[k].sender.accepted[u].message.recipient
                     && (HasSender(ss[k].sender.accepted[u].message.header) ==>
                           d.info.senderId == ss[k].sender.accepted[u].message.sender)
  {
    hide Owed;
    hide HasSender;
    hide Moves;
    AcknowledgementsAreBacked(ss, ms, k);
    OwedHas(ss[k].sender, u, |ss[k].sender.accepted|);
    var d := DeliveryOf(ss[k].sender.accepted[u].message);
    assert d in OwedFor(ss[k].sender, u);
    assert d in multiset(ss[k].receiver.delivered);
    assert d in ss[k].receiver.delivered;
  }

  /** Deliveries are made of bytes that were heard: together they are never longer. */
  lemma DeliveriesAreCovered(ss: seq<System>, ms: seq<Move>, k: nat)
    requires IsHistory(ss, ms) && k <= |ms|
    ensures TotalLength(ss[k].receiver.delivered) + |ss[k].receiver.port.incoming| <= ByteCount(ss[k].heard)
    ensures FrameCount(ss[k].heard) <= |ss[k].sender.transmissions|
  {
    HistoryKeeps(ss, ms, k);
  }

  // ----- Nothing is delivered that was not heard, and nothing twice -----

  predicate Clean(id: byte, p: Piece) {
    if p.Sent? then Separable(id, p.message) else Idle(id, p.bytes)
  }

  predicate AllClean(id: byte, ps: seq<Piece>) {
    forall i :: 0 <= i < |ps| ==> Clean(id, ps[i])
  }

  function Stream(ps: seq<Piece>): seq<byte> {
    if |ps| == 0 then [] else PieceBytes(ps[0]) + Stream(ps[1..])
  }

  /** The delivery that a piece is meant for, if any. */
  function Meant(id: byte, p: Piece): seq<Delivery> {
    if p.Sent? && Takes(id, p.message) then [DeliveryOf(p.message)] else []
  }

  function Handed(id: byte, ps: seq<Piece>): seq<Delivery> {
    if |ps| == 0 then [] else Meant(id, ps[0]) + Handed(id, ps[1..])
  }

  lemma {:induction false} StreamPush(id: byte, ps: seq<Piece>, p: Piece)
    ensures Stream(ps + [p]) == Stream(ps) + PieceBytes(p)
    ensures Handed(id, ps + [p]) == Handed(id, ps) + Meant(id, p)
    decreases |ps|
  {
    hide PieceBytes;
    hide Meant;
    if |ps| == 0 {
      assert ps + [p] == [p] && [p][1..] == [] && Stream([]) == [] && Handed(id, []) == [];
      assert PieceBytes(p) + [] == PieceBytes(p) == [] + PieceBytes(p);
      assert Meant(id, p) + [] == Meant(id, p) == [] + Meant(id, p);
    } else {
      var q := ps + [p];
      StreamPush(id, ps[1..], p);
      assert q[0] == ps[0] && q[1..] == ps[1..] + [p];
      assert Stream(q) == PieceBytes(ps[0]) + (Stream(ps[1..]) + PieceBytes(p));
      assert Handed(id, q) == Meant(id, ps[0]) + (Handed(id, ps[1..]) + Meant(id, p));
    }
  }

  lemma HandedBound(id: byte, ps: seq<Piece>)
    ensures |Handed(id, ps)| <= FrameCount(ps)
    decreases |ps|
  {
    if |ps| == 0 {
    } else {
      var front := ps[..|ps| - 1];
      HandedBound(id, front);
      StreamPush(id, front, ps[|ps| - 1]);
      assert ps == front + [ps[|ps| - 1]];
    }
  }

  lemma MeantFirst(id: byte, p: Piece, s: seq<byte>)
    requires Clean(id, p)
    ensures Delivered(Calls(id, PieceBytes(p) + s)) == Meant(id, p) + Delivered(Calls(id, s))
  {
    hide Calls;
    hide Frame;
    hide Idle;
    if Meant(id, p) != [] {
      SeparableFirst(id, p.message, s);
      assert Addressed(id, [p.message]) == [DeliveryOf(p.message)] + Addressed(id, []);
    } else {
      SkipIdle(id, PieceBytes(p), s);
    }
  }

  lemma {:induction false} PiecesDecode(id: byte, ps: seq<Piece>)
    requires AllClean(id, ps)
    ensures Delivered(Calls(id, Stream(ps))) == Handed(id, ps)
    decreases |ps|
  {
    hide Clean;
    hide PieceBytes;
    hide Meant;
    if |ps| == 0 {
      assert Calls(id, []) == [];
    } else {
      hide Calls;
      hide Delivered;
      PiecesDecode(id, ps[1..]);
      MeantFirst(id, ps[0], Stream(ps[1..]));
    }
  }

  /** The receiver's input: the idle rest of what it is skipping, then whole pieces that are still to be read. */
  predicate Position(b: Node, heard: seq<Piece>, junk: seq<byte>, rest: seq<Piece>) {
    && Idle(b.id, junk) && AllClean(b.id, rest)
    && b.port.incoming == junk + Stream(rest)
    && b.delivered + Handed(b.id, rest) == Handed(b.id, heard)
  }

  ghost predicate InStep(s: System) {
    exists junk, rest :: Position(s.receiver, s.heard, junk, rest)
  }

  lemma HearInStep(s: System, p: Piece)
    requires InStep(s) && Clean(s.receiver.id, p)
    ensures InStep(s.(receiver := Hear(s.receiver, PieceBytes(p)), heard := s.heard + [p]))
  {
    hide PieceBytes;
    hide Clean;
    hide Idle;
    hide Meant;
    hide Handed;
    hide Stream;
    var b, t := s.receiver, s.(receiver := Hear(s.receiver, PieceBytes(p)), heard := s.heard + [p]);
    var junk, rest :| Position(b, s.heard, junk, rest);
    StreamPush(b.id, rest, p);
    StreamPush(b.id, s.heard, p);
    assert Position(t.receiver, t.heard, junk, rest + [p]);
  }

  lemma ReadIdle(b: Node, heard: seq<Piece>, junk: seq<byte>, rest: seq<Piece>, now: int)
    requires Position(b, heard, junk, rest) && |junk| > 0
    ensures var n := Frames.Receive(b.id, junk).consumed;
            n <= |junk| && Position(ReceiveStep(b, now).0, heard, junk[n..], rest)
  {
    hide Frames.Receive;
    hide Stream;
    hide Handed;
    hide AllClean;
    IdleCall(b.id, junk, Stream(rest));
    ReceiveStepDelivers(b, now);
    hide ReceiveStep;
    assert b.delivered + [] == b.delivered;
  }

  /** A piece that is meant for nobody here is idle bytes. */
  lemma IdlePieceNext(b: Node, heard: seq<Piece>, rest: seq<Piece>)
    requires Position(b, heard, [], rest) && |rest| > 0 && Meant(b.id, rest[0]) == []
    ensures Position(b, heard, PieceBytes(rest[0]), rest[1..])
  {
    hide Frame;
    hide Idle;
    hide Takes;
    hide DeliveryOf;
    assert Clean(b.id, rest[0]);
    assert b.port.incoming == PieceBytes(rest[0]) + Stream(rest[1..]);
    assert Handed(b.id, rest) == [] + Handed(b.id, rest[1..]);
  }

  lemma MeantNext(b: Node, heard: seq<Piece>, rest: seq<Piece>)
    requires Position(b, heard, [], rest) && |rest| > 0 && Meant(b.id, rest[0]) != []
    ensures var m, after, others := rest[0].message, rest[1..], Handed(b.id, rest[1..]);
            && Takes(b.id, m) && b.port.incoming == Frame(m) + Stream(after) && AllClean(b.id, after)
            && (b.delivered + [DeliveryOf(m)]) + others == Handed(b.id, heard)
  {
    hide Frame;
    hide Takes;
    hide DeliveryOf;
    hide Clean;
    var first, others := [DeliveryOf(rest[0].message)], Handed(b.id, rest[1..]);
    assert b.delivered + (first + others) == (b.delivered + first) + others;
  }

  lemma ReadMeant(b: Node, heard: seq<Piece>, rest: seq<Piece>, now: int)
    requires Position(b, heard, [], rest) && |rest| > 0 && Meant(b.id, rest[0]) != []
    ensures Position(ReceiveStep(b, now).0, heard, [], rest[1..])
  {
    hide Frame;
    hide Frames.Receive;
    hide Receivable;
    hide DeliveryOf;
    hide AllClean;
    hide Stream;
    hide Handed;
    var m, after, s := rest[0].message, Stream(rest[1..]), b.port.incoming;
    MeantNext(b, heard, rest);
    ReceiveStepDelivers(b, now);
    hide ReceiveStep;
    ReceiveFrame(b.id, m, after);
    assert s[FrameLength(m)..] == after == [] + after;
  }

  lemma ReadNothing(b: Node, now: int)
    requires |b.port.incoming| == 0
    ensures ReceiveStep(b, now).0 == b
  {
    var port := b.port;
    assert port.incoming[0..] == port.incoming && port.sent + [] == port.sent && b.delivered + [] == b.delivered;
  }

  lemma {:induction false} ReadPosition(b: Node, heard: seq<Piece>, junk: seq<byte>, rest: seq<Piece>, now: int)
    requires Position(b, heard, junk, rest)
    ensures exists left, others :: Position(ReceiveStep(b, now).0, heard, left, others)
    decreases |rest|
  {
    hide ReceiveStep;
    hide Frames.Receive;
    hide Meant;
    if |junk| > 0 {
      ReadIdle(b, heard, junk, rest, now);
      hide Position;
    } else if |rest| == 0 {
      assert |b.port.incoming| == 0;
      ReadNothing(b, now);
    } else {
      assert junk == [];
      hide Position;
      if Meant(b.id, rest[0]) == [] {
        IdlePieceNext(b, heard, rest);
        ReadPosition(b, heard, PieceBytes(rest[0]), rest[1..], now);
      } else {
        ReadMeant(b, heard, rest, now);
      }
    }
  }

  lemma ReadInStep(s: System, at: int)
    requires InStep(s)
    ensures InStep(s.(receiver := ReceiveStep(s.receiver, at).0))
  {
    hide Position;
    hide ReceiveStep;
    var junk, rest :| Position(s.receiver, s.heard, junk, rest);
    ReadPosition(s.receiver, s.heard, junk, rest, at);
    var t := s.(receiver := ReceiveStep(s.receiver, at).0);
    var left, others :| Position(t.receiver, s.heard, left, others);
    assert Position(t.receiver, t.heard, left, others);
  }

  lemma ReceiverOnly(s: System, t: System)
    requires InStep(s) && t.receiver == s.receiver && t.heard == s.heard
    ensures InStep(t)
  {
    var junk, rest :| Position(s.receiver, s.heard, junk, rest);
    assert Position(t.receiver, t.heard, junk, rest);
  }

  /** Every piece that has reached the receiver can be told apart by it. */
  predicate Polite(s: System) {
    forall p :: p in s.heard ==> Clean(s.receiver.id, p)
  }

  /** What was heard stays so, and the receiver keeps its address. */
  predicate Grows(s: System, t: System) {
    t.receiver.id == s.receiver.id && forall p :: p in s.heard ==> p in t.heard
  }

  lemma PoliteBefore(s: System, t: System)
    requires Grows(s, t) && Polite(t)
    ensures Polite(s)
  {}

  lemma HappenGrows(s: System, h: Happening)
    ensures Grows(s, Happen(s, h))
  {
    hide Frames.Receive;
    if h.ReceiverReceives? { ReceiveStepDelivers(s.receiver, h.at); }
  }

  lemma HappenInStep(s: System, h: Happening)
    requires InStep(s) && Polite(Happen(s, h))
    ensures InStep(Happen(s, h)) && Polite(s)
  {
    hide InStep;
    HappenGrows(s, h);
    hide ReceiveStep;
    PoliteBefore(s, Happen(s, h));
    match h
    case ReceiverHears(bytes) =>
      assert Foreign(bytes) in Happen(s, h).heard;
      HearInStep(s, Foreign(bytes));
    case ReceiverReceives(at) => ReadInStep(s, at);
  }

  lemma {:induction false} HappenAllGrows(s: System, hs: seq<Happening>)
    ensures Grows(s, HappenAll(s, hs))
    decreases |hs|
  {
    hide Happen;
    if |hs| == 0 {
    } else {
      HappenAllGrows(s, hs[..|hs| - 1]);
      HappenGrows(HappenAll(s, hs[..|hs| - 1]), hs[|hs| - 1]);
    }
  }

  lemma {:induction false} HappenAllInStep(s: System, hs: seq<Happening>)
    requires InStep(s) && Polite(HappenAll(s, hs))
    ensures InStep(HappenAll(s, hs)) && Polite(s)
    decreases |hs|
  {
    hide InStep;
    hide Polite;
    hide Happen;
    if |hs| == 0 {
    } else {
      var t := HappenAll(s, hs[..|hs| - 1]);
      HappenGrows(t, hs[|hs| - 1]);
      PoliteBefore(t, Happen(t, hs[|hs| - 1]));
      HappenAllInStep(s, hs[..|hs| - 1]);
      HappenInStep(t, hs[|hs| - 1]);
    }
  }

  lemma UpToReplyInStep(s: System, i: nat, c: Chance)
    requires i < |s.sender.queue| && InStep(s) && Polite(UpToReply(s, i, c))
    ensures InStep(UpToReply(s, i, c))
  {
    hide InStep;
    hide HappenAll;
    hide Goes;
    hide Frame;
    hide Separable;
    hide Idle;
    var p, t := s.sender.queue[i], HappenAll(s, c.meanwhile);
    var u := if Goes(s, i, c) && c.arrives then HearFrame(t, p.message) else t;
    HappenAllGrows(u, c.window);
    PoliteBefore(u, HappenAll(u, c.window));
    assert Grows(t, u);
    PoliteBefore(t, u);
    HappenAllInStep(s, c.meanwhile);
    if Goes(s, i, c) && c.arrives {
      assert Sent(p.message) in u.heard;
      HearInStep(t, Sent(p.message));
    }
    HappenAllInStep(u, c.window);
  }

  lemma ExchangeGrows(s: System, i: nat, c: Chance)
    requires i < |s.sender.queue|
    ensures Grows(s, Exchange(s, i, c)) && Grows(UpToReply(s, i, c), Exchange(s, i, c))
  {
    hide HappenAll;
    hide Goes;
    hide Frame;
    hide Frames.Receive;
    var t := HappenAll(s, c.meanwhile);
    HappenAllGrows(s, c.meanwhile);
    HappenAllGrows(t, c.window);
    HappenAllGrows(HearFrame(t, s.sender.queue[i].message), c.window);
    hide TransmitAt;
    if c.reply.Answered? { ReceiveStepDelivers(UpToReply(s, i, c).receiver, c.reply.at); }
    hide ReceiveStep;
  }

  lemma ExchangeInStep(s: System, i: nat, c: Chance)
    requires i < |s.sender.queue| && InStep(s) && Polite(Exchange(s, i, c))
    ensures InStep(Exchange(s, i, c))
  {
    hide InStep;
    hide UpToReply;
    hide Goes;
    hide Polite;
    hide TransmitAt;
    hide ReceiveStep;
    hide Frame;
    var t := UpToReply(s, i, c);
    ExchangeGrows(s, i, c);
    PoliteBefore(t, Exchange(s, i, c));
    UpToReplyInStep(s, i, c);
    if Answers(s, i, c) {
      ReadInStep(t, c.reply.at);
      ReceiverOnly(t.(receiver := ReceiveStep(t.receiver, c.reply.at).0), Exchange(s, i, c));
    } else {
      ReceiverOnly(t, Exchange(s, i, c));
    }
  }

  lemma {:induction false} ExchangesInStep(s: System, chances: seq<Chance>, k: nat)
    requires InStep(s) && k <= |s.sender.queue| && k <= |chances| && Polite(Exchanges(s, chances, k))
    ensures InStep(Exchanges(s, chances, k)) && Polite(s)
    decreases k
  {
    hide Exchange;
    hide InStep;
    hide Polite;
    if k == 0 {
    } else {
      var t := Exchanges(s, chances, k - 1);
      ExchangeGrows(t, k - 1, chances[k - 1]);
      PoliteBefore(t, Exchange(t, k - 1, chances[k - 1]));
      ExchangesInStep(s, chances, k - 1);
      ExchangeInStep(t, k - 1, chances[k - 1]);
    }
  }

  lemma {:induction false} ExchangesGrow(s: System, chances: seq<Chance>, k: nat)
    requires k <= |s.sender.queue| && k <= |chances|
    ensures Grows(s, Exchanges(s, chances, k))
    decreases k
  {
    hide Exchange;
    if k == 0 {
    } else {
      ExchangesGrow(s, chances, k - 1);
      ExchangeGrows(Exchanges(s, chances, k - 1), k - 1, chances[k - 1]);
    }
  }

  lemma MoveGrows(s: System, m: Move, t: System)
    requires Moves(s, m, t)
    ensures Grows(s, t)
  {
    hide Frames.Receive;
    hide RequestedPacket;
    hide Happen;
    match m
    case SenderUpdates(chances, at) => ExchangesGrow(s, chances, |chances|);
    case Happens(h) => HappenGrows(s, h);
    case _ =>
  }

  lemma MoveInStep(s: System, m: Move, t: System)
    requires InStep(s) && Polite(t) && Moves(s, m, t)
    ensures InStep(t)
  {
    hide InStep;
    hide Frames.Receive;
    hide ReceiveStep;
    hide Separable;
    hide RequestedPacket;
    hide Happen;
    match m
    case SenderUpdates(chances, at) =>
      var u := Exchanges(s, chances, |chances|);
      PoliteBefore(u, t);
      ExchangesInStep(s, chances, |chances|);
      ReceiverOnly(u, t);
    case Happens(h) => HappenInStep(s, h);
    case _ => ReceiverOnly(s, t);
  }

  lemma {:induction false} HistoryInStep(ss: seq<System>, ms: seq<Move>, k: nat)
    requires IsHistory(ss, ms) && k <= |ms| && Polite(ss[k])
    ensures InStep(ss[k])
    decreases k
  {
    hide InStep;
    hide Polite;
    if k == 0 {
      NewInStep(ss[0].sender.id, ss[0].receiver.id);
    } else {
      hide Moves;
      MoveGrows(ss[k - 1], ms[k - 1], ss[k]);
      PoliteBefore(ss[k - 1], ss[k]);
      HistoryInStep(ss, ms, k - 1);
      MoveInStep(ss[k - 1], ms[k - 1], ss[k]);
    }
  }

  lemma NewInStep(senderId: byte, receiverId: byte)
    ensures InStep(NewSystem(senderId, receiverId))
  {
    var s := NewSystem(senderId, receiverId);
    assert Position(s.receiver, s.heard, [], []);
  }

  lemma PositionDecodes(b: Node, heard: seq<Piece>, junk: seq<byte>, rest: seq<Piece>)
    requires Position(b, heard, junk, rest)
    ensures b.delivered + Delivered(Calls(b.id, b.port.incoming)) == Handed(b.id, heard)
  {
    SkipIdle(b.id, junk, Stream(rest));
    PiecesDecode(b.id, rest);
  }

  /**
   * In every history in which the frames that reached the receiver are separable and the bytes of others idle, what
   * it has delivered, followed by what its input still decodes to, is exactly the messages it has heard and takes:
   * in order, each once. So there are never more deliveries than transmissions.
   */
  lemma DeliveredIsHeard(ss: seq<System>, ms: seq<Move>, k: nat)
    requires IsHistory(ss, ms) && k <= |ms| && Polite(ss[k])
    ensures var b := ss[k].receiver;
            && b.delivered + Delivered(Calls(b.id, b.port.incoming)) == Handed(b.id, ss[k].heard)
            && |b.delivered| <= FrameCount(ss[k].heard) <= |ss[k].sender.transmissions|
  {
    DeliveriesAreCovered(ss, ms, k);
    HistoryInStep(ss, ms, k);
    var b := ss[k].receiver;
    var junk, rest :| Position(b, ss[k].heard, junk, rest);
    PositionDecodes(b, ss[k].heard, junk, rest);
    HandedBound(b.id, ss[k].heard);
  }
}
