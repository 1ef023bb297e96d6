/**
 * The two nodes when an ACK in a response window may be any answer of the receiver, whatever frame it answers, each
 * read at most once: what is left of the handshake then.
 */
module LateAnswers {
  import opened PjonConstants
  import opened Frames
  import opened Cleanup
  import opened Nodes
  import opened Runs
  import opened Guarantees
  import opened Handshake
  import opened Streams
  import opened WireLog

  /** The system, and how many answers the sender has read in its windows. */
  datatype Straight = Straight(system: System, taken: nat)

  /** The receiver has given more answers than the sender has read, so one may be first in the window. */
  predicate MayTake(s: Straight, i: nat, c: Chance)
    requires i < |s.system.sender.queue|
  {
    && Goes(s.system, i, c) && c.reply.Answered?
    && s.taken < Answerable(UpToReply(s.system, i, c).receiver.delivered)
  }

  function LateExchange(s: Straight, i: nat, c: Chance): (r: Straight)
    requires i < |s.system.sender.queue|
    ensures |r.system.sender.queue| == |s.system.sender.queue|
  {
    var t, n := UpToReply(s.system, i, c), s.system.sender;
    if MayTake(s, i, c) then
      Straight(t.(sender := TransmitAt(n, i, Slot(c.now, c.before, [ACK_BYTE]))), s.taken + 1)
    else
      Straight(t.(sender := TransmitAt(n, i, Slot(c.now, c.before, NoiseOf(c.reply)))), s.taken)
  }

  function LateExchanges(s: Straight, chances: seq<Chance>, k: nat): (r: Straight)
    requires k <= |s.system.sender.queue| && k <= |chances|
    ensures |r.system.sender.queue| == |s.system.sender.queue|
  {
    if k == 0 then s else LateExchange(LateExchanges(s, chances, k - 1), k - 1, chances[k - 1])
  }

  predicate LateMoves(s: Straight, m: Move, t: Straight) {
    if m.SenderUpdates? then
      && |m.chances| == |s.system.sender.queue|
      && var u := LateExchanges(s, m.chances, |m.chances|);
         && CleanUp(u.system.sender, m.at) == Some(t.system.sender)
         && t == u.(system := u.system.(sender := t.system.sender))
    else
      Moves(s.system, m, t.system) && t.taken == s.taken
  }

  predicate IsLateHistory(ss: seq<Straight>, ms: seq<Move>) {
    && |ss| == |ms| + 1
    && ss[0] == Straight(NewSystem(ss[0].system.sender.id, ss[0].system.receiver.id), 0)
    && forall i {:trigger ms[i]} :: 0 <= i < |ms| ==> LateMoves(ss[i], ms[i], ss[i + 1])
  }

  // ----- Verdicts are at most as many as answers -----

  /** Each verdict has used up an answer, and each answer was given for a delivery. */
  ghost predicate Balanced(s: Straight) {
    && |Owed(s.system.sender, |s.system.sender.accepted|)| <= s.taken <= Answerable(s.system.receiver.delivered)
  }

  lemma SmallerIsFewer<T>(a: multiset<T>, b: multiset<T>)
    requires a <= b
    ensures |a| <= |b|
  {
    assert b == a + (b - a);
  }

  lemma AnswersGrow(ds: seq<Delivery>, more: seq<Delivery>)
    requires |more| <= 1
    ensures Answerable(ds) <= Answerable(ds + more)
  {
    if |more| == 0 {
      assert ds + more == ds;
    } else {
      PushDelivery(ds, more[0]);
      assert more == [more[0]];
    }
  }

  lemma HappenAnswers(s: System, h: Happening)
    ensures Answerable(s.receiver.delivered) <= Answerable(Happen(s, h).receiver.delivered)
  {
    hide Answerable;
    hide Frames.Receive;
    if h.ReceiverReceives? {
      ReceiveStepDelivers(s.receiver, h.at);
      var r := Frames.Receive(s.receiver.id, s.receiver.port.incoming);
      AnswersGrow(s.receiver.delivered, if r.delivery.Some? then [r.delivery.value] else []);
    }
  }

  lemma {:induction false} HappenAllAnswers(s: System, hs: seq<Happening>)
    ensures Answerable(s.receiver.delivered) <= Answerable(HappenAll(s, hs).receiver.delivered)
    decreases |hs|
  {
    hide Happen;
    hide Answerable;
    if |hs| == 0 {
    } else {
      HappenAllAnswers(s, hs[..|hs| - 1]);
      HappenAnswers(HappenAll(s, hs[..|hs| - 1]), hs[|hs| - 1]);
    }
  }

  lemma UpToReplyAnswers(s: System, i: nat, c: Chance)
    requires i < |s.sender.queue|
    ensures Answerable(s.receiver.delivered) <= Answerable(UpToReply(s, i, c).receiver.delivered)
  {
    hide HappenAll;
    hide Goes;
    hide Answerable;
    hide Frame;
    var t := HappenAll(s, c.meanwhile);
    HappenAllAnswers(s, c.meanwhile);
    HappenAllAnswers(t, c.window);
    HappenAllAnswers(HearFrame(t, s.sender.queue[i].message), c.window);
  }

  lemma OwedNoMore(n: Node, m: Node)
    requires NoNewCredit(n, m, -1) && m.accepted == n.accepted
    ensures |Owed(m, |m.accepted|)| <= |Owed(n, |n.accepted|)|
  {
    hide NoNewCredit;
    assert m.accepted[..|n.accepted|] == n.accepted;
    OwedShrinks(n, m, |n.accepted|);
    SmallerIsFewer(Owed(m, |n.accepted|), Owed(n, |n.accepted|));
  }

  lemma OwedAtMostOneMore(n: Node, m: Node, v: nat)
    requires NoNewCredit(n, m, v) && m.accepted == n.accepted && v < |n.accepted|
    ensures |Owed(m, |m.accepted|)| <= |Owed(n, |n.accepted|)| + 1
  {
    hide NoNewCredit;
    hide DeliveryOf;
    var d := DeliveryOf(n.accepted[v].message);
    OwedOneMore(n, m, v, |n.accepted|);
    SmallerIsFewer(Owed(m, |n.accepted|), Owed(n, |n.accepted|) + multiset{d});
  }

  lemma LateExchangeBalanced(s: Straight, i: nat, c: Chance)
    requires i < |s.system.sender.queue| && Tracked(s.system.sender) && Balanced(s)
    ensures Balanced(LateExchange(s, i, c))
  {
    hide UpToReply;
    hide Goes;
    hide NoiseOf;
    hide Answerable;
    hide Owed;
    var n := s.system.sender;
    assert SamePacket(n.accepted[n.queue[i].uid], n.queue[i]);
    UpToReplyAnswers(s.system, i, c);
    var after := if MayTake(s, i, c) then [ACK_BYTE] else NoiseOf(c.reply);
    var m := TransmitAt(n, i, Slot(c.now, c.before, after));
    TurnCredits(n, i, Slot(c.now, c.before, after));
    hide TransmitAt;
    if MayTake(s, i, c) {
      OwedAtMostOneMore(n, m, n.queue[i].uid);
    } else {
      OwedNoMore(n, m);
    }
  }

  /** The invariant in the middle of an update. */
  ghost predicate LateMid(s: Straight, k: nat) {
    Mid(s.system.sender, k) && Balanced(s)
  }

  lemma LateExchangeKeeps(s: Straight, i: nat, c: Chance)
    requires i < |s.system.sender.queue| && LateMid(s, i)
    ensures LateMid(LateExchange(s, i, c), i + 1)
  {
    hide Balanced;
    hide TransmitAt;
    hide UpToReply;
    hide MayTake;
    MidTracks(s.system.sender, i);
    hide Mid;
    LateExchangeBalanced(s, i, c);
    TransmitKeeps(s.system.sender, i, Slot(c.now, c.before, [ACK_BYTE]));
    TransmitKeeps(s.system.sender, i, Slot(c.now, c.before, NoiseOf(c.reply)));
  }

  lemma {:induction false} LateExchangesKeep(s: Straight, chances: seq<Chance>, k: nat)
    requires Inv(s.system.sender) && Balanced(s) && k <= |s.system.sender.queue| && k <= |chances|
    ensures LateMid(LateExchanges(s, chances, k), k)
    decreases k
  {
    hide LateExchange;
    hide Balanced;
    if k == 0 {
      InvIsMid(s.system.sender);
    } else {
      hide Inv;
      hide LateMid;
      LateExchangesKeep(s, chances, k - 1);
      LateExchangeKeeps(LateExchanges(s, chances, k - 1), k - 1, chances[k - 1]);
    }
  }

  lemma CleanUpBalanced(s: Straight, at: int, m: Node)
    requires LateMid(s, |s.system.sender.queue|) && CleanUp(s.system.sender, at) == Some(m)
    ensures Inv(m) && Balanced(s.(system := s.system.(sender := m)))
  {
    hide Settle;
    hide Owed;
    hide Answerable;
    CleanUpKeeps(s.system.sender, m, at);
    hide Bookkeeping;
    CleanUpCredits(s.system.sender, at, m);
    OwedNoMore(s.system.sender, m);
  }

  lemma DispatchBalanced(n: Node, r: Request, at: int)
    requires Inv(n)
    ensures var m := Dispatch(n, r, at).0; |Owed(m, |m.accepted|)| <= |Owed(n, |n.accepted|)|
  {
    DispatchCredits(n, r, at);
    hide Inv;
    hide Credited;
    hide NoNewCredit;
    hide Dispatch;
    var m := Dispatch(n, r, at).0;
    OwedShrinks(n, m, |n.accepted|);
    OwedOfNew(m, |n.accepted|, |m.accepted|);
    SmallerIsFewer(Owed(m, |n.accepted|), Owed(n, |n.accepted|));
  }

  lemma LateMoveKeeps(s: Straight, m: Move, t: Straight)
    requires Inv(s.system.sender) && Balanced(s) && LateMoves(s, m, t)
    ensures Inv(t.system.sender) && Balanced(t)
  {
    hide Frames.Receive;
    hide Inv;
    hide Owed;
    hide Answerable;
    hide CleanUp;
    hide Happen;
    hide LateMid;
    match m
    case SenderDispatches(r, at) =>
      DispatchKeeps(s.system.sender, r, at);
      DispatchBalanced(s.system.sender, r, at);
    case SenderUpdates(chances, at) =>
      LateExchangesKeep(s, chances, |chances|);
      CleanUpBalanced(LateExchanges(s, chances, |chances|), at, t.system.sender);
    case Happens(h) =>
      HappenSender(s.system, h);
      HappenAnswers(s.system, h);
    case _ =>
      InvCongruent(s.system.sender, t.system.sender);
      CreditsCongruent(s.system.sender, t.system.sender);
      OwedNoMore(s.system.sender, t.system.sender);
  }

  lemma {:induction false} LateHistoryKeeps(ss: seq<Straight>, ms: seq<Move>, k: nat)
    requires IsLateHistory(ss, ms) && k <= |ms|
    ensures Inv(ss[k].system.sender) && Balanced(ss[k])
    decreases k
  {
    if k == 0 {
    } else {
      hide LateMoves;
      hide Inv;
      hide Balanced;
      LateHistoryKeeps(ss, ms, k - 1);
      LateMoveKeeps(ss[k - 1], ms[k - 1], ss[k]);
    }
  }

  /**
   * Even so the acknowledged packets that asked for an answer never outnumber the deliveries that were answered,
   * in any history.
   */
  lemma CreditsWithinAnswers(ss: seq<Straight>, ms: seq<Move>, k: nat)
    requires IsLateHistory(ss, ms) && k <= |ms|
    ensures var s := ss[k].system; |Owed(s.sender, |s.sender.accepted|)| <= Answerable(s.receiver.delivered)
  {
    LateHistoryKeeps(ss, ms, k);
  }

  // ----- An acknowledgement without a delivery -----

  /** Nobody but the two nodes writes. */
  predicate Undisturbed(ms: seq<Move>) {
    forall m :: m in ms ==>
      || m.SenderDispatches?
      || (m.SenderUpdates? && forall c :: c in m.chances ==> c.before == [] && (c.reply.Noise? ==> c.reply.bytes == []))
  }

  function Letter(content: byte): Message { Fields(2, ACK_REQUEST_BIT, 1, [content]) }

  function LetterRequest(content: byte): Request {
    Request(2, [content], false, Some(ACK_REQUEST_BIT), None, Some(1))
  }

  function LetterPacket(u: nat, content: byte, state: int): Packet {
    Packet(u, Letter(content), false, 0, 0, state, 0)
  }

  /** Two letters in the queue. */
  function Posted(): System {
    var s := NewSystem(1, 2);
    var s1 := s.(sender := Dispatch(s.sender, LetterRequest(7), 0).0);
    s1.(sender := Dispatch(s1.sender, LetterRequest(8), 0).0)
  }

  lemma PostedIs()
    ensures var s := Posted();
            && s.sender.queue == [LetterPacket(0, 7, TO_BE_SENT), LetterPacket(1, 8, TO_BE_SENT)]
            && s.sender.port == Port([], 0, []) && s.receiver == NewNode(2) && s.sender.events == [] && s.heard == []
            && |s.sender.accepted| == 2 && s.sender.accepted[1].message == Letter(8)
  {
    hide Frame;
  }

  lemma LettersAreTaken()
    ensures forall c :: Takes(2, Letter(c)) && AwaitsResponse(Letter(c))
    ensures forall c :: AsksAnswer(DeliveryOf(Letter(c)))
  {}

  /** The first letter reaches the receiver's input, and nobody answers in time. */
  function Unheard(): Chance { Chance([], [], 1000, true, [], Noise([])) }

  /** The second is lost, but while the sender waits the receiver answers the first. */
  function Mistaken(): Chance { Chance([], [], 1000, false, [ReceiverReceives(1000)], Answered(1000)) }

  lemma HappensNot(s: System)
    ensures HappenAll(s, []) == s
  {}

  lemma FirstLetter(s: Straight)
    requires s == Straight(Posted(), 0)
    ensures |s.system.sender.queue| == 2
    ensures var t := LateExchange(s, 0, Unheard());
            && t.taken == 0 && t.system.heard == [Sent(Letter(7))]
            && t.system.receiver == Hear(NewNode(2), Frame(Letter(7)))
            && t.system.sender.queue == [LetterPacket(0, 7, FAIL), LetterPacket(1, 8, TO_BE_SENT)]
            && t.system.sender.port.incoming == [] && t.system.sender.port.lastReceived == 0
            && t.system.sender.events == [] && t.system.sender.accepted == s.system.sender.accepted
  {
    hide Frame;
    hide Frames.Receive;
    hide AwaitsResponse;
    PostedIs();
    LettersAreTaken();
    assert Arrived(s.system.sender.port, []) == s.system.sender.port;
    assert Cube(0) == 0;
    HappensNot(s.system);
    HappensNot(HearFrame(s.system, Letter(7)));
  }

  lemma LetterIsRead(b: Node)
    requires b == Hear(NewNode(2), Frame(Letter(7)))
    ensures ReceiveStep(b, 1000).0.delivered == [DeliveryOf(Letter(7))] && Answerable([DeliveryOf(Letter(7))]) == 1
  {
    hide Frame;
    hide AsksAnswer;
    LettersAreTaken();
    ReceiveFrame(2, Letter(7), []);
    assert b.port.incoming == [] + Frame(Letter(7)) == Frame(Letter(7)) + [];
    var d := DeliveryOf(Letter(7));
    assert [] + [d] == [d];
    PushDelivery([], d);
  }

  lemma SecondLetter(s: Straight)
    requires |s.system.sender.queue| == 2 && s.system.sender.queue[1] == LetterPacket(1, 8, TO_BE_SENT) && s.taken == 0
    requires s.system.receiver == Hear(NewNode(2), Frame(Letter(7)))
    requires s.system.sender.port.incoming == [] && s.system.sender.port.lastReceived == 0
    ensures var t := LateExchange(s, 1, Mistaken());
            && t.system.sender.queue == s.system.sender.queue[1 := LetterPacket(1, 8, ACK)]
            && t.system.sender.events == s.system.sender.events && t.system.sender.accepted == s.system.sender.accepted
            && t.system.receiver.delivered == [DeliveryOf(Letter(7))] && t.system.heard == s.system.heard
  {
    hide Frame;
    hide Frames.Receive;
    hide Answerable;
    hide AwaitsResponse;
    hide DeliveryOf;
    var n, c := s.system.sender, Mistaken();
    LettersAreTaken();
    LetterIsRead(s.system.receiver);
    assert Arrived(n.port, []) == n.port;
    assert Due(n.queue[1], 1000) by { assert Cube(0) == 0; }
    HappensNot(s.system);
    assert c.window[..0] == [];
    assert HappenAll(s.system, c.window) == Happen(s.system, c.window[0]);
    assert MayTake(s, 1, c);
    var slot := Slot(1000, [], [ACK_BYTE]);
    TurnVerdict(n, 1, slot);
    FirstByteDecides(n, 1, slot);
    hide TransmitAt;
    hide ReceiveStep;
  }

  lemma OneAcknowledged(n: Node)
    requires n.queue == [LetterPacket(0, 7, FAIL), LetterPacket(1, 8, ACK)] && n.events == []
    ensures CleanUp(n, 1000).Some? && Acknowledged(1) in CleanUp(n, 1000).value.events
    ensures CleanUp(n, 1000).value.accepted == n.accepted
  {
    RaisesExactly(n.queue, 1000);
    EveryFate(n.queue, 1000, 1);
    hide Settle;
    var events := Flatten(Settle(n.queue, 1000).walks);
    assert n.events + events == events;
  }

  /** A history in which only the two nodes write, and a packet is acknowledged whose frame was never even heard. */
  lemma AcknowledgedUndelivered() returns (ss: seq<Straight>, ms: seq<Move>)
    ensures IsLateHistory(ss, ms) && Undisturbed(ms) && |ms| == 3
    ensures var s := ss[3].system;
            && |s.sender.accepted| == 2 && Acknowledged(1) in s.sender.events
            && AwaitsResponse(s.sender.accepted[1].message)
            && DeliveryOf(s.sender.accepted[1].message) !in s.receiver.delivered
            && (forall p :: p in s.heard ==> p.Sent?) && Sent(s.sender.accepted[1].message) !in s.heard
  {
    hide LateExchange;
    hide CleanUp;
    hide Frame;
    hide AwaitsResponse;
    var s0 := NewSystem(1, 2);
    var s1 := s0.(sender := Dispatch(s0.sender, LetterRequest(7), 0).0);
    var s2, chances := Straight(Posted(), 0), [Unheard(), Mistaken()];
    PostedIs();
    hide Dispatch;
    LettersAreTaken();
    FirstLetter(s2);
    var u := LateExchange(s2, 0, Unheard());
    SecondLetter(u);
    var v := LateExchange(u, 1, Mistaken());
    OneAcknowledged(v.system.sender);
    assert LateExchanges(s2, chances, 1) == LateExchange(LateExchanges(s2, chances, 0), 0, chances[0]) == u;
    assert LateExchanges(s2, chances, 2) == LateExchange(LateExchanges(s2, chances, 1), 1, chances[1]) == v;
    var s3 := v.(system := v.system.(sender := CleanUp(v.system.sender, 1000).value));
    ss := [Straight(s0, 0), Straight(s1, 0), s2, s3];
    ms := [SenderDispatches(LetterRequest(7), 0), SenderDispatches(LetterRequest(8), 0), SenderUpdates(chances, 1000)];
    assert Letter(7).payload[0] != Letter(8).payload[0];
  }
}
