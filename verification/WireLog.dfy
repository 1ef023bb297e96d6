/** What a protocol object has written: whole frames of accepted packets, and one-byte answers, nothing else. */
module WireLog {
  import opened PjonConstants
  import opened Frames
  import opened Cleanup
  import opened Nodes
  import opened Runs
  import Streams

  /** A chunk of the outgoing byte stream. */
  datatype Chunk = FrameOf(uid: nat) | Answer

  function ChunkBytes(accepted: seq<Packet>, p: Chunk): seq<byte> {
    match p
    case FrameOf(u) => if u < |accepted| then Frame(accepted[u].message) else []
    case Answer => [ACK_BYTE]
  }

  function Written(accepted: seq<Packet>, chunks: seq<Chunk>): seq<byte> {
    if |chunks| == 0 then []
    else Written(accepted, chunks[..|chunks| - 1]) + ChunkBytes(accepted, chunks[|chunks| - 1])
  }

  function FrameUids(chunks: seq<Chunk>): seq<nat> {
    if |chunks| == 0 then []
    else
      var p := chunks[|chunks| - 1];
      FrameUids(chunks[..|chunks| - 1]) + if p.FrameOf? then [p.uid] else []
  }

  function Answers(chunks: seq<Chunk>): nat {
    if |chunks| == 0 then 0
    else Answers(chunks[..|chunks| - 1]) + if chunks[|chunks| - 1].Answer? then 1 else 0
  }

  function TransmittedUids(ts: seq<Transmission>): seq<nat> {
    if |ts| == 0 then [] else TransmittedUids(ts[..|ts| - 1]) + [ts[|ts| - 1].uid]
  }

  predicate AsksAnswer(d: Delivery) {
    WantsAck(d.info.header) && d.info.receiverId != BROADCAST
  }

  /** How many deliveries had to be answered. */
  function Answerable(ds: seq<Delivery>): nat {
    if |ds| == 0 then 0
    else Answerable(ds[..|ds| - 1]) + if AsksAnswer(ds[|ds| - 1]) then 1 else 0
  }

  /**
   * The bytes written are the chunks in order. Their frames are the logged transmissions, in order and with the
   * accepted fields, and there is one answer for each delivery that asks for one.
   */
  predicate Spells(n: Node, chunks: seq<Chunk>) {
    && (forall p :: p in chunks && p.FrameOf? ==> p.uid < |n.accepted|)
    && n.port.sent == Written(n.accepted, chunks)
    && FrameUids(chunks) == TransmittedUids(n.transmissions)
    && Answers(chunks) == Answerable(n.delivered)
  }

  ghost predicate Accounted(n: Node) {
    exists chunks :: Spells(n, chunks)
  }

  lemma PushChunk(accepted: seq<Packet>, chunks: seq<Chunk>, p: Chunk)
    ensures Written(accepted, chunks + [p]) == Written(accepted, chunks) + ChunkBytes(accepted, p)
    ensures FrameUids(chunks + [p]) == FrameUids(chunks) + if p.FrameOf? then [p.uid] else []
    ensures Answers(chunks + [p]) == Answers(chunks) + if p.Answer? then 1 else 0
  {
    assert (chunks + [p])[..|chunks|] == chunks;
  }

  lemma PushTransmission(ts: seq<Transmission>, t: Transmission)
    ensures TransmittedUids(ts + [t]) == TransmittedUids(ts) + [t.uid]
  {
    assert (ts + [t])[..|ts|] == ts;
  }

  lemma PushDelivery(ds: seq<Delivery>, d: Delivery)
    ensures Answerable(ds + [d]) == Answerable(ds) + if AsksAnswer(d) then 1 else 0
  {
    assert (ds + [d])[..|ds|] == ds;
  }

  lemma {:induction false} WrittenGrows(accepted: seq<Packet>, a: Packet, chunks: seq<Chunk>)
    requires forall p :: p in chunks && p.FrameOf? ==> p.uid < |accepted|
    ensures Written(accepted + [a], chunks) == Written(accepted, chunks)
    decreases |chunks|
  {
    if |chunks| == 0 {
    } else {
      WrittenGrows(accepted, a, chunks[..|chunks| - 1]);
    }
  }

  /** The packet's turn writes its frame if it is logged, and nothing otherwise. */
  lemma TurnWrites(n: Node, k: nat, slot: Slot)
    requires k < |n.queue|
    ensures var m := TransmitAt(n, k, slot);
            && m.accepted == n.accepted && m.delivered == n.delivered
            && ((m.port.sent == n.port.sent && m.transmissions == n.transmissions)
                || (exists t :: m.transmissions == n.transmissions + [t] && t.uid == n.queue[k].uid
                             && m.port.sent == n.port.sent + Frame(n.queue[k].message)))
  {
    hide Frame;
    assert n.transmissions + [] == n.transmissions;
  }

  lemma FrameAccounts(n: Node, m: Node, t: Transmission)
    requires Accounted(n) && t.uid < |n.accepted|
    requires m.accepted == n.accepted && m.delivered == n.delivered
    requires m.transmissions == n.transmissions + [t]
    requires m.port.sent == n.port.sent + Frame(n.accepted[t.uid].message)
    ensures Accounted(m)
  {
    hide Frame;
    var chunks :| Spells(n, chunks);
    PushChunk(n.accepted, chunks, FrameOf(t.uid));
    PushTransmission(n.transmissions, t);
    assert Spells(m, chunks + [FrameOf(t.uid)]);
  }

  lemma TurnAccounts(n: Node, k: nat, slot: Slot)
    requires k < |n.queue| && Tracked(n) && Accounted(n)
    ensures Accounted(TransmitAt(n, k, slot))
  {
    hide Frame;
    hide Accounted;
    TurnWrites(n, k, slot);
    hide TransmitAt;
    var m, p := TransmitAt(n, k, slot), n.queue[k];
    assert SamePacket(n.accepted[p.uid], p);
    if m.port.sent == n.port.sent && m.transmissions == n.transmissions {
      AccountedCongruent(n, m);
    } else {
      var t :| m.transmissions == n.transmissions + [t] && t.uid == p.uid
               && m.port.sent == n.port.sent + Frame(p.message);
      FrameAccounts(n, m, t);
    }
  }

  lemma {:induction false} TurnsAccount(n: Node, slots: seq<Slot>, k: nat)
    requires Inv(n) && Accounted(n) && k <= |n.queue| && k <= |slots|
    ensures Accounted(TransmitUpTo(n, slots, k))
    decreases k
  {
    hide Accounted;
    hide TransmitAt;
    if k == 0 {
    } else {
      TurnsAccount(n, slots, k - 1);
      TransmitAllKeeps(n, slots, k - 1);
      TurnAccounts(TransmitUpTo(n, slots, k - 1), k - 1, slots[k - 1]);
    }
  }

  /** A reception answers exactly the delivery that asks for it. */
  lemma AnswerMatches(id: byte, s: seq<byte>)
    ensures var r := Receive(id, s);
            r.acknowledged <==> r.delivery.Some? && AsksAnswer(r.delivery.value)
  {
    Streams.ReceptionDiscipline(id, s);
    if Receive(id, s).code == ACK { AcceptedIsFrame(id, s); }
  }

  lemma ReceiveAccounts(n: Node, now: int)
    requires Accounted(n)
    ensures Accounted(ReceiveStep(n, now).0)
  {
    hide Receive;
    hide Frame;
    var chunks :| Spells(n, chunks);
    var m, r := ReceiveStep(n, now).0, Receive(n.id, n.port.incoming);
    AnswerMatches(n.id, n.port.incoming);
    assert n.port.sent + [] == n.port.sent && n.delivered + [] == n.delivered;
    if r.delivery.Some? { PushDelivery(n.delivered, r.delivery.value); }
    if r.acknowledged {
      PushChunk(n.accepted, chunks, Answer);
      assert Spells(m, chunks + [Answer]);
    } else {
      assert Spells(m, chunks);
    }
  }

  lemma DispatchAccounts(n: Node, r: Request, at: int)
    requires Accounted(n)
    ensures Accounted(Dispatch(n, r, at).0)
  {
    hide Frame;
    var chunks :| Spells(n, chunks);
    var m := Dispatch(n, r, at).0;
    if |m.accepted| > |n.accepted| { WrittenGrows(n.accepted, m.accepted[|n.accepted|], chunks); }
    assert Spells(m, chunks);
  }

  /** Cleaning up and configuring touch neither what was written nor what it stands for. */
  lemma AccountedCongruent(n: Node, m: Node)
    requires Accounted(n) && m.port.sent == n.port.sent && m.accepted == n.accepted
    requires m.transmissions == n.transmissions && m.delivered == n.delivered
    ensures Accounted(m)
  {
    var chunks :| Spells(n, chunks);
    assert Spells(m, chunks);
  }

  lemma NextAccounts(n: Node, s: Step, m: Node)
    requires Inv(n) && Accounted(n) && Next(n, s, m)
    ensures Accounted(m)
  {
    hide Accounted;
    match s
    case DoDispatch(r, at) => DispatchAccounts(n, r, at);
    case DoUpdate(slots, at) =>
      TurnsAccount(n, slots, |n.queue|);
      AccountedCongruent(TransmitUpTo(n, slots, |n.queue|), m);
    case DoReceive(at) => ReceiveAccounts(n, at);
    case _ => AccountedCongruent(n, m);
  }

  /**
   * In every run the bytes written so far are exactly the frames of the logged transmissions, each spelling the
   * fields of its accepted packet, interleaved with one answer for every delivery that asks for one.
   */
  lemma {:induction false} RunsAccount(ns: seq<Node>, steps: seq<Step>, k: nat)
    requires IsRun(ns, steps) && k <= |steps|
    ensures Accounted(ns[k])
    decreases k
  {
    hide Inv;
    if k == 0 {
      assert Spells(ns[0], []);
    } else {
      hide Accounted;
      RunsAccount(ns, steps, k - 1);
      RunsKeep(ns, steps, k - 1);
      NextAccounts(ns[k - 1], steps[k - 1], ns[k]);
    }
  }

  /** The device address changes by adoption alone: it is the last adopted one. */
  lemma {:induction false} AddressFollowsEvents(ns: seq<Node>, steps: seq<Step>, k: nat)
    requires IsRun(ns, steps) && k <= |steps|
    ensures ns[k].id == AddressAfter(ns[0].id, ns[k].events)
    decreases k
  {
    if k == 0 {
    } else {
      AddressFollowsEvents(ns, steps, k - 1);
      StepAddress(ns[k - 1], steps[k - 1], ns[k], ns[0].id);
    }
  }

  lemma StepAddress(n: Node, s: Step, m: Node, id: byte)
    requires Next(n, s, m) && n.id == AddressAfter(id, n.events)
    ensures m.id == AddressAfter(id, m.events)
  {
    hide Receive;
    match s
    case DoDispatch(r, at) => AddressAfterAppend(id, n.events, [Overflow]);
    case DoUpdate(slots, at) =>
      var t := TransmitUpTo(n, slots, |n.queue|);
      TurnsKeepAddress(n, slots, |n.queue|);
      hide Settle;
      AddressAfterAppend(id, t.events, Flatten(Settle(t.queue, at).walks));
    case _ =>
  }

  lemma {:induction false} TurnsKeepAddress(n: Node, slots: seq<Slot>, k: nat)
    requires k <= |n.queue| && k <= |slots|
    ensures var t := TransmitUpTo(n, slots, k); t.id == n.id && t.events == n.events
    decreases k
  {
    if k == 0 {
    } else {
      TurnsKeepAddress(n, slots, k - 1);
    }
  }
}
