/** The sending half of `update`, in the numbers of the protocol: who waits, who is sent, and with which verdict. */
module Sending {
  import opened PjonConstants
  import opened Frames
  import opened Cleanup
  import opened Nodes
  import opened Runs
  import opened Guarantees
  import opened Pacing

  /** Milliseconds after registration at which the packet is due, in microseconds. */
  function WaitOf(p: Packet): int {
    1000 * (p.timing + p.attempts * p.attempts * p.attempts)
  }

  /** Nothing waits in the input, and the last byte was read more than 100 microseconds ago. */
  predicate IsFree(port: Port, before: seq<byte>, now: int) {
    |port.incoming| == 0 && |before| == 0 && now > port.lastReceived + 100
  }

  predicate AsksNobody(m: Fields) {
    m.recipient == 0 || m.header & 4 == 0
  }

  // ----- One packet's turn -----

  /** A packet that is not due is left as it is. */
  lemma NotDueWaits(n: Node, i: nat, slot: Slot)
    requires i < |n.queue| && slot.now - n.queue[i].registration < WaitOf(n.queue[i])
    ensures TransmitAt(n, i, slot) == n.(port := n.port.(incoming := n.port.incoming + slot.before))
  {}

  /** A due packet on an occupied channel is BUSY, and nothing is sent. */
  lemma OccupiedIsBusy(n: Node, i: nat, slot: Slot)
    requires i < |n.queue| && n.queue[i].state != 0 && slot.now - n.queue[i].registration >= WaitOf(n.queue[i])
    requires !IsFree(n.port, slot.before, slot.now)
    ensures TransmitAt(n, i, slot) == n.(port := n.port.(incoming := n.port.incoming + slot.before),
                                         queue := n.queue[i := n.queue[i].(state := 666)])
  {
    assert n.transmissions + [] == n.transmissions;
  }

  /** The code that a transmission ends with, from what is read in the response window. */
  function VerdictOf(m: Fields, after: seq<byte>): int {
    if AsksNobody(m) || (|after| > 0 && after[0] == 6) then 6 else if |after| == 0 then 256 else 666
  }

  /** A due packet on a free channel is sent: its frame is written, and its state is the verdict. */
  lemma DueIsSent(n: Node, i: nat, slot: Slot)
    requires i < |n.queue| && n.queue[i].state != 0 && slot.now - n.queue[i].registration >= WaitOf(n.queue[i])
    requires IsFree(n.port, slot.before, slot.now)
    ensures var p, read := n.queue[i], !AsksNobody(n.queue[i].message) && |slot.after| > 0;
            var code := VerdictOf(p.message, slot.after);
            TransmitAt(n, i, slot) == n.(
              queue := n.queue[i := p.(state := code)],
              transmissions := n.transmissions + [Transmission(p.uid, slot.now, code)],
              port := Port(if read then slot.after[1..] else [],
                           if read then slot.now else n.port.lastReceived,
                           n.port.sent + Frame(p.message)))
  {
    hide Frame;
    var m, p := TransmitAt(n, i, slot), n.queue[i];
    assert Arrived(n.port, slot.before) == n.port;
    assert AsksNobody(p.message) == !AwaitsResponse(p.message);
  }

  // ----- Packets that ask nobody -----

  /** What was sent without asking for an answer was taken as acknowledged. */
  predicate NobodyFails(n: Node) {
    forall j :: 0 <= j < |n.transmissions| ==>
      var t := n.transmissions[j];
      t.uid < |n.accepted| && (AsksNobody(n.accepted[t.uid].message) ==> t.code == 6)
  }

  lemma TurnNobodyFails(n: Node, k: nat, slot: Slot)
    requires k < |n.queue| && Tracked(n) && NobodyFails(n)
    ensures NobodyFails(TransmitAt(n, k, slot))
  {
    hide Frame;
    hide AsksNobody;
    var p := n.queue[k];
    assert SamePacket(n.accepted[p.uid], p);
    if p.state == 0 || slot.now - p.registration < WaitOf(p) {
      assert n.transmissions + [] == n.transmissions;
    } else if IsFree(n.port, slot.before, slot.now) {
      DueIsSent(n, k, slot);
      hide TransmitAt;
    } else {
      OccupiedIsBusy(n, k, slot);
      hide TransmitAt;
    }
  }

  lemma {:induction false} TurnsNobodyFails(n: Node, slots: seq<Slot>, k: nat)
    requires Inv(n) && NobodyFails(n) && k <= |n.queue| && k <= |slots|
    ensures NobodyFails(TransmitUpTo(n, slots, k))
    decreases k
  {
    hide TransmitAt;
    if k == 0 {
    } else {
      TurnsNobodyFails(n, slots, k - 1);
      TransmitAllKeeps(n, slots, k - 1);
      hide NobodyFails;
      TurnNobodyFails(TransmitUpTo(n, slots, k - 1), k - 1, slots[k - 1]);
    }
  }

  lemma NobodyFailsCongruent(n: Node, m: Node)
    requires NobodyFails(n) && m.transmissions == n.transmissions && n.accepted <= m.accepted
    ensures NobodyFails(m)
  {
    hide AsksNobody;
  }

  lemma NextNobodyFails(n: Node, s: Step, m: Node)
    requires Inv(n) && Next(n, s, m) && NobodyFails(n)
    ensures NobodyFails(m)
  {
    hide NobodyFails;
    if s.DoUpdate? {
      TurnsNobodyFails(n, s.slots, |n.queue|);
      hide TransmitUpTo;
      hide Settle;
      NobodyFailsCongruent(TransmitUpTo(n, s.slots, |n.queue|), m);
    } else {
      hide Inv;
      hide Receive;
      NextAccepts(n, s, m);
      NobodyFailsCongruent(n, m);
    }
  }

  lemma {:induction false} RunsNobodyFails(ns: seq<Node>, steps: seq<Step>, k: nat)
    requires IsRun(ns, steps) && k <= |steps|
    ensures NobodyFails(ns[k])
    decreases k
  {
    if k == 0 {
      NothingAtFirst(ns, steps);
    } else {
      RunsNobodyFails(ns, steps, k - 1);
      RunsKeep(ns, steps, k - 1);
      hide Inv;
      hide Next;
      hide NobodyFails;
      NextNobodyFails(ns[k - 1], steps[k - 1], ns[k]);
    }
  }

  /** In every run, a packet that asks nobody for an answer never fails, is never reported lost and never adopted. */
  lemma NobodyIsNeverLost(ns: seq<Node>, steps: seq<Step>, k: nat, u: nat)
    requires IsRun(ns, steps) && k <= |steps| && u < |ns[k].accepted| && AsksNobody(ns[k].accepted[u].message)
    ensures forall j :: 0 <= j < |ns[k].transmissions| && ns[k].transmissions[j].uid == u ==>
              ns[k].transmissions[j].code == 6
    ensures var events := ns[k].events;
            forall d :: Exhausted(u, d) !in events && GivenUp(u, d) !in events && Adopted(u, d) !in events
  {
    RunsNobodyFails(ns, steps, k);
    RunsKeep(ns, steps, k);
    var n := ns[k];
    forall e | e in n.events && !e.Overflow? && !e.Acknowledged? ensures e.uid != u {
      assert Sent(n, e.uid, FAIL);
      var j :| 0 <= j < |n.transmissions| && n.transmissions[j].uid == e.uid && n.transmissions[j].code == FAIL;
    }
  }

  // ----- The order of one update -----

  /** The first k turns log the packets in dispatch order, each at most once. */
  lemma {:induction false} TurnsInOrder(n: Node, slots: seq<Slot>, k: nat)
    requires Ordered(n.queue) && k <= |n.queue| && k <= |slots|
    ensures var t := TransmitUpTo(n, slots, k);
            && (forall i, j :: |n.transmissions| <= i < j < |t.transmissions| ==>
                  t.transmissions[i].uid < t.transmissions[j].uid)
            && (forall j :: |n.transmissions| <= j < |t.transmissions| && k > 0 ==>
                  t.transmissions[j].uid <= n.queue[k - 1].uid)
    decreases k
  {
    if k == 0 {
    } else {
      TurnsInOrder(n, slots, k - 1);
      var s, m := TransmitUpTo(n, slots, k - 1), TransmitUpTo(n, slots, k);
      var logged, t := TurnAt(n, slots, k);
      TransmitFrame(n, slots, k - 1, k - 1);
      LogGrows(n, slots, k - 1);
      hide TransmitUpTo;
      hide Due;
    }
  }

  // ----- Clearance -----

  /** The port was last read no earlier than r. */
  predicate ReadSince(port: Port, r: int) {
    port.lastReceived >= r
  }

  /** No clock reading of the step is before r. */
  predicate StepSince(s: Step, r: int) {
    match s
    case DoUpdate(slots, _) => forall i :: 0 <= i < |slots| ==> slots[i].now >= r
    case DoReceive(at) => at >= r
    case _ => true
  }

  /** A reception that reads anything leaves the clock of the call on the port, and the bytes behind. */
  lemma ReceptionMarks(n: Node, at: int)
    requires |n.port.incoming| > 0
    ensures var m := ReceiveStep(n, at).0;
            m.port.lastReceived == at && |m.port.incoming| < |n.port.incoming|
  {
    hide Receive;
  }

  /** Whatever a turn sends is sent more than 100 microseconds after the last byte was read. */
  lemma TurnClears(n: Node, k: nat, slot: Slot, r: int)
    requires k < |n.queue| && ReadSince(n.port, r) && slot.now >= r
    ensures var m := TransmitAt(n, k, slot);
            && ReadSince(m.port, r) && |n.transmissions| <= |m.transmissions|
            && n.transmissions == m.transmissions[..|n.transmissions|]
            && forall j :: |n.transmissions| <= j < |m.transmissions| ==> m.transmissions[j].at > r + 100
  {
    hide Frame;
    assert n.transmissions + [] == n.transmissions;
    var p := n.queue[k];
    if p.state != 0 && slot.now - p.registration >= WaitOf(p) {
      if IsFree(n.port, slot.before, slot.now) {
        DueIsSent(n, k, slot);
      } else {
        OccupiedIsBusy(n, k, slot);
      }
      hide TransmitAt;
    }
  }

  lemma {:induction false} TurnsClear(n: Node, slots: seq<Slot>, k: nat, r: int)
    requires k <= |n.queue| && k <= |slots| && ReadSince(n.port, r)
    requires forall i :: 0 <= i < |slots| ==> slots[i].now >= r
    ensures var m := TransmitUpTo(n, slots, k);
            && ReadSince(m.port, r) && |n.transmissions| <= |m.transmissions|
            && n.transmissions == m.transmissions[..|n.transmissions|]
            && forall j :: |n.transmissions| <= j < |m.transmissions| ==> m.transmissions[j].at > r + 100
    decreases k
  {
    hide TransmitAt;
    hide ReadSince;
    if k == 0 {
    } else {
      TurnsClear(n, slots, k - 1, r);
      TurnClears(TransmitUpTo(n, slots, k - 1), k - 1, slots[k - 1], r);
    }
  }

  lemma NextClears(n: Node, s: Step, m: Node, r: int)
    requires Next(n, s, m) && ReadSince(n.port, r) && StepSince(s, r)
    ensures ReadSince(m.port, r)
    ensures forall j :: |n.transmissions| <= j < |m.transmissions| ==> m.transmissions[j].at > r + 100
  {
    hide Receive;
    if s.DoUpdate? {
      TurnsClear(n, s.slots, |n.queue|, r);
      hide TransmitUpTo;
      hide Settle;
    }
  }

  /**
   * In every run, as long as the clock does not go back, nothing is sent within 100 microseconds after a reception
   * that has read a byte.
   */
  lemma {:induction false} ReceptionQuietens(ns: seq<Node>, steps: seq<Step>, a: nat, k: nat)
    requires IsRun(ns, steps) && a < k <= |steps|
    requires steps[a].DoReceive? && |ns[a].port.incoming| > 0
    requires forall i :: a < i < k ==> StepSince(steps[i], steps[a].at)
    ensures ReadSince(ns[k].port, steps[a].at)
    ensures forall j :: |ns[a + 1].transmissions| <= j < |ns[k].transmissions| ==>
              ns[k].transmissions[j].at > steps[a].at + 100
    decreases k
  {
    if k == a + 1 {
      ReceptionMarks(ns[a], steps[a].at);
    } else {
      ReceptionQuietens(ns, steps, a, k - 1);
      NextClears(ns[k - 1], steps[k - 1], ns[k], steps[a].at);
      NextLogs(ns[k - 1], steps[k - 1], ns[k]);
      hide Next;
    }
  }
}
