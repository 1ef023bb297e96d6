/** When packets are registered, and what they wait for from then on: dispatch, reschedule, and the last failure. */
module Registration {
  import opened PjonConstants
  import opened Frames
  import opened Cleanup
  import opened Nodes
  import opened Runs
  import opened Guarantees
  import opened Pacing
  import opened Sending

  // ----- The step that accepted a packet -----

  /** The packet is the one requested of node n, registered at the time of the call. */
  predicate IsRequested(n: Node, p: Packet, r: Request, at: int) {
    && p.text == r.text && p.message.recipient == r.recipient && p.message.payload == r.payload
    && p.message.header == (if r.header.Some? then r.header.value else DefaultHeader(n.acknowledge, n.senderInfo))
    && p.message.sender == (if r.forcedSender.Some? then r.forcedSender.value else n.id)
    && p.timing == (if r.timing.Some? then r.timing.value else 0)
    && p.registration == at
  }

  lemma NextAccepted(n: Node, s: Step, m: Node, u: nat)
    requires Inv(n) && Next(n, s, m) && |n.accepted| <= u < |m.accepted|
    ensures s.DoDispatch? && u == |n.accepted| && IsRequested(n, m.accepted[u], s.request, s.at)
  {
    if s.DoDispatch? {
      DispatchAnswer(n, s.request, s.at);
      hide Dispatch;
    } else if s.DoUpdate? {
      TurnsKeepAccepted(n, s.slots, |n.queue|);
      hide TransmitUpTo;
      hide Settle;
    }
  }

  lemma {:induction false} AcceptedBy(ns: seq<Node>, steps: seq<Step>, k: nat, u: nat) returns (i: nat)
    requires IsRun(ns, steps) && k <= |steps| && u < |ns[k].accepted|
    ensures i < k && steps[i].DoDispatch? && |ns[i].accepted| == u
    ensures IsRequested(ns[i], ns[k].accepted[u], steps[i].request, steps[i].at)
    decreases k
  {
    assert k > 0 by { if k == 0 { assert |ns[0].accepted| == 0; } }
    RunsKeep(ns, steps, k - 1);
    NextAccepts(ns[k - 1], steps[k - 1], ns[k]);
    if u < |ns[k - 1].accepted| {
      i := AcceptedBy(ns, steps, k - 1, u);
      assert ns[k].accepted[u] == ns[k - 1].accepted[u];
    } else {
      i := k - 1;
      NextAccepted(ns[k - 1], steps[k - 1], ns[k], u);
      hide Inv;
      hide Next;
    }
  }

  /**
   * In every run a one-shot packet that has failed f times is not sent before f cubed milliseconds have passed since
   * the call that dispatched it.
   */
  lemma BackOff(ns: seq<Node>, steps: seq<Step>, k: nat, j: nat) returns (i: nat)
    requires IsRun(ns, steps) && k <= |steps| && j < |ns[k].transmissions|
    ensures var t := ns[k].transmissions[j];
            var f := Fails(ns[k].transmissions[..j], t.uid);
            && t.uid < |ns[k].accepted| && i < k && steps[i].DoDispatch? && |ns[i].accepted| == t.uid
            && IsRequested(ns[i], ns[k].accepted[t.uid], steps[i].request, steps[i].at)
            && (ns[k].accepted[t.uid].timing == 0 ==> t.at >= steps[i].at + 1000 * (f * f * f))
  {
    PacedInRuns(ns, steps, k, j);
    i := AcceptedBy(ns, steps, k, ns[k].transmissions[j].uid);
  }

  // ----- What the states of one update say about its transmissions -----

  lemma TurnCode(s: Node, slot: Slot, x: nat)
    requires x < |s.queue|
    ensures var m := TransmitAt(s, x, slot);
            m.transmissions != s.transmissions ==>
              |m.transmissions| == |s.transmissions| + 1 && m.transmissions[|s.transmissions|].uid == s.queue[x].uid
              && m.transmissions[|s.transmissions|].code == m.queue[x].state && m.queue[x].state in {ACK, BUSY, FAIL}
  {
    var logged, t := TransmitIsTurn(s, x, slot);
    SendStringCodes(Arrived(s.port, slot.before), s.queue[x].message, slot);
  }

  /** A packet's state after the turns is the code of its transmission in them. */
  lemma {:induction false} CodesAreStates(n: Node, slots: seq<Slot>, k: nat, x: nat, j: nat)
    requires Ordered(n.queue) && k <= |n.queue| && k <= |slots| && x < |n.queue|
    requires |n.transmissions| <= j < |TransmitUpTo(n, slots, k).transmissions|
    requires TransmitUpTo(n, slots, k).transmissions[j].uid == n.queue[x].uid
    ensures var t := TransmitUpTo(n, slots, k);
            x < k && t.transmissions[j].code == t.queue[x].state && t.queue[x].state in {ACK, BUSY, FAIL}
    decreases k
  {
    var s, m := TransmitUpTo(n, slots, k - 1), TransmitUpTo(n, slots, k);
    var logged, t := TurnAt(n, slots, k);
    TurnLogs(s, m, k - 1, logged, t);
    TransmitFrame(n, slots, k - 1, k - 1);
    TurnCode(s, slots[k - 1], k - 1);
    TurnFrame(s, k - 1, slots[k - 1], x);
    assert m == TransmitAt(s, k - 1, slots[k - 1]);
    hide TransmitUpTo;
    hide TransmitAt;
    hide Turn;
    if j < |s.transmissions| {
      CodesAreStates(n, slots, k - 1, x, j);
    } else {
      SameUid(n.queue, x, k - 1);
    }
  }

  /** No transmission of the packet was added from n to m. */
  predicate NotSent(n: Node, m: Node, u: nat) {
    forall j :: |n.transmissions| <= j < |m.transmissions| ==> m.transmissions[j].uid != u
  }

  /** A packet is fresh because the step has registered it, or because it was so before and was not sent. */
  lemma FreshBack(n: Node, s: Step, m: Node, x: nat) returns (registered: bool, y: nat)
    requires Inv(n) && Next(n, s, m) && x < |m.queue| && m.queue[x].state == TO_BE_SENT
    ensures registered ==> (s.DoDispatch? && m.queue[x].uid == |n.accepted|) || (s.DoUpdate? && m.queue[x].timing > 0)
    ensures registered ==> m.queue[x].registration == s.at
    ensures !registered ==> y < |n.queue| && n.queue[y] == m.queue[x] && NotSent(n, m, m.queue[x].uid)
  {
    registered, y := false, x;
    if s.DoUpdate? {
      var t, p := TransmitUpTo(n, s.slots, |n.queue|), m.queue[x];
      TransmitAllKeeps(n, s.slots, |n.queue|);
      y := RescheduledAnew(t.queue, s.at, p);
      TransmitFrame(n, s.slots, |n.queue|, y);
      forall j | |n.transmissions| <= j < |m.transmissions| && m.transmissions[j].uid == p.uid
        ensures t.queue[y].state in {ACK, BUSY, FAIL}
      {
        CodesAreStates(n, s.slots, |n.queue|, y, j);
      }
      hide TransmitUpTo;
      hide Settle;
      hide Inv;
      registered := t.queue[y].state != TO_BE_SENT;
    } else if s.DoDispatch? {
      DispatchAnswer(n, s.request, s.at);
      hide Dispatch;
      registered := x == |n.queue|;
    }
  }

  /** The step after which a fresh packet was queued with its registration, which is the step's own clock. */
  lemma {:induction false} Origin(ns: seq<Node>, steps: seq<Step>, l: nat, x: nat) returns (m: nat)
    requires IsRun(ns, steps) && l <= |steps| && x < |ns[l].queue| && ns[l].queue[x].state == TO_BE_SENT
    ensures var p := ns[l].queue[x];
            && 0 < m <= l && NotSent(ns[m], ns[l], p.uid)
            && ((steps[m - 1].DoDispatch? && p.uid == |ns[m - 1].accepted|) || (steps[m - 1].DoUpdate? && p.timing > 0))
            && p.registration == steps[m - 1].at
    decreases l
  {
    NothingAtFirst(ns, steps);
    RunsKeep(ns, steps, l - 1);
    var registered, y := FreshBack(ns[l - 1], steps[l - 1], ns[l], x);
    hide Inv;
    if registered {
      m := l;
    } else {
      m := Origin(ns, steps, l - 1, y);
      NextLogs(ns[l - 1], steps[l - 1], ns[l]);
      hide Next;
      NotSentMore(ns[m], ns[l - 1], ns[l], ns[l].queue[x].uid);
    }
  }

  lemma NotSentMore(a: Node, b: Node, c: Node, u: nat)
    requires NotSent(a, b, u) && NotSent(b, c, u) && b.transmissions <= c.transmissions
    ensures NotSent(a, c, u)
  {
    forall j | |a.transmissions| <= j < |c.transmissions| ensures c.transmissions[j].uid != u {
      if j < |b.transmissions| { assert c.transmissions[j] == b.transmissions[j]; }
    }
  }

  /**
   * In every run every transmission waits for its timing and the cube of its failures since its registration, counted
   * from the clock of the dispatch or the update that registered the packet; before that update ends the packet was
   * last fresh in state l.
   */
  lemma PacesFromClock(ns: seq<Node>, steps: seq<Step>, k: nat, j: nat) returns (m: nat, l: nat, i: nat)
    requires IsRun(ns, steps) && k <= |steps| && j < |ns[k].transmissions|
    ensures var t, before := ns[k].transmissions[j], ns[k].transmissions[..j];
            && 0 < m <= l <= i < k && |ns[i].transmissions| <= j < |ns[i + 1].transmissions|
            && Since(ns, l, i, t.uid, ClockOf(steps[m - 1])) && NotSent(ns[m], ns[l], t.uid)
            && t.uid < |ns[k].accepted|
            && ((steps[m - 1].DoDispatch? && t.uid == |ns[m - 1].accepted|)
                || (steps[m - 1].DoUpdate? && ns[k].accepted[t.uid].timing > 0))
            && Fails(ns[l].transmissions, t.uid) <= Fails(before, t.uid)
            && var f := Fails(before, t.uid) - Fails(ns[l].transmissions, t.uid);
               t.at >= ClockOf(steps[m - 1]) + 1000 * (ns[k].accepted[t.uid].timing + f * f * f)
  {
    var registration;
    i, l, registration := Paces(ns, steps, k, j);
    var u := ns[k].transmissions[j].uid;
    RunsKeep(ns, steps, l);
    var x :| 0 <= x < |ns[l].queue| && ns[l].queue[x].uid == u && ns[l].queue[x].state == TO_BE_SENT;
    var y :| 0 <= y < |ns[l].queue| && ns[l].queue[y].uid == u && ns[l].queue[y].registration == registration;
    SameUid(ns[l].queue, x, y);
    AcceptedStays(ns, steps, l, k);
    assert SamePacket(ns[l].accepted[u], ns[l].queue[x]);
    hide Inv;
    hide Next;
    hide Fails;
    m := Origin(ns, steps, l, x);
  }

  function ClockOf(s: Step): int {
    match s
    case DoDispatch(_, at) => at
    case DoUpdate(_, at) => at
    case DoReceive(at) => at
    case _ => 0
  }

  // ----- After an acknowledgement -----

  lemma {:induction false} LogStays(ns: seq<Node>, steps: seq<Step>, i: nat, k: nat)
    requires Linked(ns, steps) && i <= k <= |steps|
    ensures ns[i].transmissions <= ns[k].transmissions
    decreases k
  {
    if i == k {
    } else {
      LogStays(ns, steps, i, k - 1);
      NextLogs(ns[k - 1], steps[k - 1], ns[k]);
    }
  }

  /** A step that leaves a packet queued and not fresh has made no transmission of it that was acknowledged. */
  lemma StepWithoutAck(n: Node, s: Step, m: Node, x: nat, j: nat)
    requires Inv(n) && Next(n, s, m) && x < |m.queue| && m.queue[x].state != TO_BE_SENT && IsAtRest(m.queue[x].state)
    requires |n.transmissions| <= j < |m.transmissions| && m.transmissions[j].uid == m.queue[x].uid
    ensures m.transmissions[j].code != ACK
  {
    if s.DoUpdate? {
      var t := TransmitUpTo(n, s.slots, |n.queue|);
      var y := KeptFailed(t.queue, s.at, m.queue[x]);
      TransmitFrame(n, s.slots, |n.queue|, y);
      CodesAreStates(n, s.slots, |n.queue|, y, j);
      hide TransmitUpTo;
      hide Settle;
    }
  }

  lemma AtRest(n: Node)
    requires Inv(n)
    ensures Ordered(n.queue) && forall x :: 0 <= x < |n.queue| ==> IsAtRest(n.queue[x].state)
  {}

  lemma {:induction false} NoAckSince(ns: seq<Node>, steps: seq<Step>, l: nat, i: nat, u: nat, registration: int)
    requires IsRun(ns, steps) && l <= i <= |steps| && Since(ns, l, i, u, registration)
    ensures forall j :: |ns[l].transmissions| <= j < |ns[i].transmissions| && ns[i].transmissions[j].uid == u ==>
              ns[i].transmissions[j].code != ACK
    decreases i
  {
    if i == l {
    } else {
      NoAckSince(ns, steps, l, i - 1, u, registration);
      RunsKeep(ns, steps, i - 1);
      RunsKeep(ns, steps, i);
      NextLogs(ns[i - 1], steps[i - 1], ns[i]);
      AtRest(ns[i]);
      hide Inv;
      hide Next;
      var x :| 0 <= x < |ns[i].queue| && ns[i].queue[x].uid == u && ns[i].queue[x].registration == registration;
      FreshIsQueued(ns[i], x);
      hide Fresh;
      hide IsAtRest;
      var before, after := ns[i - 1].transmissions, ns[i].transmissions;
      forall j | |ns[l].transmissions| <= j < |after| && after[j].uid == u ensures after[j].code != ACK {
        if j < |before| {
          assert after[j] == before[j];
        } else {
          StepWithoutAck(ns[i - 1], steps[i - 1], ns[i], x, j);
        }
      }
    }
  }

  lemma TurnsOnce(n: Node, slots: seq<Slot>, j1: nat, j2: nat)
    requires Ordered(n.queue) && |slots| == |n.queue|
    requires |n.transmissions| <= j1 < j2 < |TransmitUpTo(n, slots, |slots|).transmissions|
    ensures var t := TransmitUpTo(n, slots, |slots|); t.transmissions[j1].uid != t.transmissions[j2].uid
  {
    TurnsInOrder(n, slots, |slots|);
    hide TransmitUpTo;
  }

  /** One update transmits a packet at most once. */
  lemma OncePerUpdate(n: Node, s: Step, m: Node, j1: nat, j2: nat)
    requires Inv(n) && Next(n, s, m) && |n.transmissions| <= j1 < j2 < |m.transmissions|
    ensures m.transmissions[j1].uid != m.transmissions[j2].uid
  {
    hide Receive;
    if s.DoUpdate? {
      assert m.transmissions == TransmitUpTo(n, s.slots, |s.slots|).transmissions;
      TurnsOnce(n, s.slots, j1, j2);
    }
  }

  /** An acknowledged transmission lies before the registration that the next one waits for. */
  lemma AckBeforeOrigin(ns: seq<Node>, steps: seq<Step>, k: nat, j1: nat, j2: nat, m: nat, l: nat, i: nat)
    requires IsRun(ns, steps) && m <= l <= i < k <= |steps| && j1 < j2 < |ns[k].transmissions|
    requires |ns[i].transmissions| <= j2 < |ns[i + 1].transmissions|
    requires var u := ns[k].transmissions[j2].uid;
             && ns[k].transmissions[j1].uid == u && ns[k].transmissions[j1].code == ACK
             && NotSent(ns[m], ns[l], u) && exists registration :: Since(ns, l, i, u, registration)
    ensures j1 < |ns[m].transmissions|
  {
    var log, u := ns[k].transmissions, ns[k].transmissions[j2].uid;
    var registration :| Since(ns, l, i, u, registration);
    NoAckSince(ns, steps, l, i, u, registration);
    RunsKeep(ns, steps, i);
    LogStays(ns, steps, m, l);
    LogStays(ns, steps, l, i);
    LogStays(ns, steps, i, i + 1);
    LogStays(ns, steps, i + 1, k);
    if |ns[i].transmissions| <= j1 {
      assert ns[i + 1].transmissions[j1] == log[j1] && ns[i + 1].transmissions[j2] == log[j2];
      OncePerUpdate(ns[i], steps[i], ns[i + 1], j1, j2);
    }
    hide Inv;
    hide Next;
    hide Since;
    assert ns[i].transmissions[j1] == log[j1];
    if j1 < |ns[l].transmissions| { assert ns[l].transmissions[j1] == log[j1]; }
  }

  /**
   * In every run, a packet that is transmitted again after a transmission that was acknowledged has a timing, and
   * waits at least for it from the clock of an update that is no earlier than the acknowledged one.
   */
  lemma AcknowledgedStartsAnew(ns: seq<Node>, steps: seq<Step>, k: nat, j1: nat, j2: nat) returns (a: nat, b: nat)
    requires IsRun(ns, steps) && k <= |steps| && j1 < j2 < |ns[k].transmissions|
    requires ns[k].transmissions[j1].uid == ns[k].transmissions[j2].uid && ns[k].transmissions[j1].code == 6
    ensures var t := ns[k].transmissions[j2];
            && a <= b < k && |ns[a].transmissions| <= j1 < |ns[a + 1].transmissions| && steps[b].DoUpdate?
            && t.uid < |ns[k].accepted| && ns[k].accepted[t.uid].timing > 0
            && t.at >= steps[b].at + 1000 * ns[k].accepted[t.uid].timing
  {
    hide Inv;
    hide Next;
    hide Since;
    hide NotSent;
    var u := ns[k].transmissions[j2].uid;
    var m, l, i := PacesFromClock(ns, steps, k, j2);
    AckBeforeOrigin(ns, steps, k, j1, j2, m, l, i);
    a := StepOf(ns, steps, k, j1);
    b := m - 1;
    LogOrder(ns, steps, a, m, j1);
    RunsKeep(ns, steps, a);
    LogStays(ns, steps, a + 1, k);
    MadeOfAccepted(ns[a], steps[a], ns[a + 1], j1);
    AcceptedStays(ns, steps, a, b);
    hide *;
    CubeIsNatural(Fails(ns[k].transmissions[..j2], u) - Fails(ns[l].transmissions, u));
  }

  lemma MadeOfAccepted(n: Node, s: Step, m: Node, j: nat)
    requires Inv(n) && Next(n, s, m) && |n.transmissions| <= j < |m.transmissions|
    ensures m.transmissions[j].uid < |n.accepted|
  {
    var x := MadeBy(n, s, m, j);
    hide Next;
  }

  lemma CubeIsNatural(f: nat)
    ensures f * f * f >= 0
  {
    assert f * f >= 0;
  }

  lemma LogOrder(ns: seq<Node>, steps: seq<Step>, a: nat, m: nat, j: nat)
    requires Linked(ns, steps) && a <= |steps| && m <= |steps|
    requires |ns[a].transmissions| <= j < |ns[m].transmissions|
    ensures a < m
  {
    if m <= a { LogStays(ns, steps, m, a); }
  }

  // ----- The end of a packet that nobody answers -----

  /** The channel is free when the packet has its turn. */
  predicate FreeFor(n: Node, s: Step, u: nat) {
    s.DoUpdate? && |s.slots| == |n.queue| ==>
      forall x :: 0 <= x < |n.queue| && n.queue[x].uid == u ==>
        IsFree(TransmitUpTo(n, s.slots, x).port, s.slots[x].before, s.slots[x].now)
  }

  predicate HasUid(n: Node, u: nat) {
    exists x :: 0 <= x < |n.queue| && n.queue[x].uid == u
  }

  /** All later transmissions of the packet that are in the log have failed. */
  predicate AllFailed(n: Node, last: Node, u: nat) {
    forall j :: |n.transmissions| <= j < |last.transmissions| && last.transmissions[j].uid == u ==>
      last.transmissions[j].code == 256
  }

  lemma {:induction false} StateStays(n: Node, slots: seq<Slot>, x: nat, k: nat)
    requires x < k <= |n.queue| && k <= |slots|
    ensures TransmitUpTo(n, slots, k).queue[x] == TransmitUpTo(n, slots, x + 1).queue[x]
    ensures TransmitUpTo(n, slots, x + 1).transmissions <= TransmitUpTo(n, slots, k).transmissions
    decreases k
  {
    if k == x + 1 {
    } else {
      StateStays(n, slots, x, k - 1);
      TurnFrame(TransmitUpTo(n, slots, k - 1), k - 1, slots[k - 1], x);
      var logged, t := TurnAt(n, slots, k);
      TurnLogs(TransmitUpTo(n, slots, k - 1), TransmitUpTo(n, slots, k), k - 1, logged, t);
      hide TransmitAt;
    }
  }

  /** In a free turn an unanswered packet fails again, or was not due and stays failed. */
  lemma TurnFailsAgain(n: Node, x: nat, slot: Slot, code: int)
    requires x < |n.queue| && n.queue[x].timing == 0 && IsFree(n.port, slot.before, slot.now)
    requires n.queue[x].state == 256
          || (n.queue[x].state == 74 && n.queue[x].attempts == 0 && slot.now >= n.queue[x].registration)
    ensures var m := TransmitAt(n, x, slot);
            && (m.transmissions == n.transmissions ==> m.queue[x].state == 256)
            && (m.transmissions != n.transmissions ==>
                  && |m.transmissions| == |n.transmissions| + 1
                  && m.transmissions[|n.transmissions|] == Transmission(n.queue[x].uid, slot.now, m.queue[x].state))
  {
    hide Frame;
    if slot.now - n.queue[x].registration < WaitOf(n.queue[x]) {
      NotDueWaits(n, x, slot);
    } else {
      DueIsSent(n, x, slot);
    }
    hide TransmitAt;
  }

  lemma UpdateFailsAgain(n: Node, slots: seq<Slot>, last: Node, x: nat)
    requires Inv(n) && |slots| == |n.queue| && x < |n.queue| && IsUnanswered(n.queue[x], 0)
    requires n.queue[x].state == TO_BE_SENT ==> slots[x].now >= n.queue[x].registration
    requires IsFree(TransmitUpTo(n, slots, x).port, slots[x].before, slots[x].now)
    requires TransmitUpTo(n, slots, |slots|).transmissions <= last.transmissions && AllFailed(n, last, n.queue[x].uid)
    ensures TransmitUpTo(n, slots, |slots|).queue[x].state == 256
  {
    var s, m := TransmitUpTo(n, slots, x), TransmitUpTo(n, slots, x + 1);
    TransmitFrame(n, slots, x, x);
    StateStays(n, slots, x, |slots|);
    LogGrows(n, slots, x);
    TurnFailsAgain(s, x, slots[x], 256);
    assert m == TransmitAt(s, x, slots[x]);
    hide TransmitAt;
    hide TransmitUpTo;
    if m.transmissions != s.transmissions {
      var j := |s.transmissions|;
      assert last.transmissions[j] == m.transmissions[j];
    }
  }

  /** A packet that stays queued through a step was queued before. */
  lemma QueuedBack(n: Node, s: Step, m: Node, u: nat)
    requires Inv(n) && Next(n, s, m) && u < |n.accepted| && HasUid(m, u)
    ensures HasUid(n, u)
  {
    var x :| 0 <= x < |m.queue| && m.queue[x].uid == u;
    if s.DoUpdate? {
      var t := TransmitUpTo(n, s.slots, |n.queue|);
      var y := KeptFrom(t.queue, s.at, m.queue[x]);
      TransmitFrame(n, s.slots, |n.queue|, y);
      hide TransmitUpTo;
      hide Settle;
      assert n.queue[y].uid == u;
    } else if s.DoDispatch? {
      DispatchAnswer(n, s.request, s.at);
      hide Dispatch;
      assert n.queue[x].uid == u;
    } else {
      assert n.queue[x].uid == u;
    }
  }

  lemma KeptUnanswered(q: seq<Packet>, now: int, x: nat, p: Packet)
    requires Ordered(q) && Settle(q, now).Settled? && x < |q| && q[x].state == 256 && q[x].timing == 0
    requires p in Settle(q, now).kept && p.uid == q[x].uid
    ensures IsUnanswered(p, 0)
  {
    var y := KeptFrom(q, now, p);
    SameUid(q, x, y);
    hide Settle;
  }

  lemma StepStaysUnanswered(n: Node, s: Step, m: Node, last: Node, u: nat)
    requires Inv(n) && Next(n, s, m) && Unanswered(n, u, 0) && HasUid(m, u)
    requires ClockRuns(n, s, u) && FreeFor(n, s, u) && m.transmissions <= last.transmissions && AllFailed(n, last, u)
    ensures Unanswered(m, u, 0)
  {
    var x :| 0 <= x < |n.queue| && n.queue[x].uid == u && IsUnanswered(n.queue[x], 0);
    var z :| 0 <= z < |m.queue| && m.queue[z].uid == u;
    if s.DoUpdate? {
      var t := TransmitUpTo(n, s.slots, |n.queue|);
      assert SamePacket(n.accepted[u], n.queue[x]);
      UpdateFailsAgain(n, s.slots, last, x);
      TransmitFrame(n, s.slots, |n.queue|, x);
      TransmitAllKeeps(n, s.slots, |n.queue|);
      KeptUnanswered(t.queue, s.at, x, m.queue[z]);
    } else {
      QueueGrows(n, s, m);
      assert m.queue[x] == n.queue[x];
    }
  }

  /** The packet is queued in every state of the stretch, as it is at the end. */
  lemma {:induction false} QueuedAllAlong(ns: seq<Node>, steps: seq<Step>, u: nat, k: nat)
    requires Linked(ns, steps) && Inv(ns[0]) && k <= |steps| && u < |ns[0].accepted| && HasUid(ns[|steps|], u)
    ensures HasUid(ns[k], u) && u < |ns[k].accepted|
    decreases |steps| - k
  {
    LinkedAccepts(ns, steps, k);
    if k == |steps| {
    } else {
      QueuedAllAlong(ns, steps, u, k + 1);
      LinkedKeeps(ns, steps, k);
      QueuedBack(ns[k], steps[k], ns[k + 1], u);
    }
  }

  lemma {:induction false} LinkedAccepts(ns: seq<Node>, steps: seq<Step>, k: nat)
    requires Linked(ns, steps) && k <= |steps|
    ensures ns[0].accepted <= ns[k].accepted
    decreases k
  {
    if k == 0 {
    } else {
      LinkedAccepts(ns, steps, k - 1);
      NextAccepts(ns[k - 1], steps[k - 1], ns[k]);
    }
  }

  /** In every update the packet's turn finds the channel free and the clock past its registration. */
  predicate FreeTurns(ns: seq<Node>, steps: seq<Step>, u: nat)
    requires |ns| > |steps|
  {
    forall i :: 0 <= i < |steps| ==> ClockRuns(ns[i], steps[i], u) && FreeFor(ns[i], steps[i], u)
  }

  lemma LinkStaysUnanswered(ns: seq<Node>, steps: seq<Step>, u: nat, k: nat)
    requires Linked(ns, steps) && Inv(ns[0]) && k < |steps| && FreeTurns(ns, steps, u)
    requires u < |ns[0].accepted| && AllFailed(ns[0], ns[|steps|], u) && HasUid(ns[|steps|], u)
    requires Unanswered(ns[k], u, 0)
    ensures Unanswered(ns[k + 1], u, 0)
  {
    LinkedKeeps(ns, steps, k);
    QueuedAllAlong(ns, steps, u, k + 1);
    LogStays(ns, steps, 0, k);
    LogStays(ns, steps, k + 1, |steps|);
    FailedSince(ns[0], ns[k], ns[|steps|], u);
    assert Next(ns[k], steps[k], ns[k + 1]);
    hide *;
    assert ClockRuns(ns[k], steps[k], u) && FreeFor(ns[k], steps[k], u) by { FreeTurn(ns, steps, u, k); }
    StepStaysUnanswered(ns[k], steps[k], ns[k + 1], ns[|steps|], u);
  }

  lemma FreeTurn(ns: seq<Node>, steps: seq<Step>, u: nat, k: nat)
    requires |ns| > |steps| && FreeTurns(ns, steps, u) && k < |steps|
    ensures ClockRuns(ns[k], steps[k], u) && FreeFor(ns[k], steps[k], u)
  {}

  lemma {:induction false} StaysUnanswered(ns: seq<Node>, steps: seq<Step>, u: nat, k: nat)
    requires Linked(ns, steps) && Inv(ns[0]) && k <= |steps| && FreeTurns(ns, steps, u)
    requires u < |ns[0].accepted| && AllFailed(ns[0], ns[|steps|], u) && HasUid(ns[|steps|], u)
    requires Unanswered(ns[0], u, 0)
    ensures Unanswered(ns[k], u, 0)
    decreases k
  {
    hide Inv;
    hide Next;
    hide FreeTurns;
    hide AllFailed;
    hide HasUid;
    hide Unanswered;
    if k == 0 {
    } else {
      StaysUnanswered(ns, steps, u, k - 1);
      LinkStaysUnanswered(ns, steps, u, k - 1);
    }
  }

  lemma FailedSince(n: Node, m: Node, last: Node, u: nat)
    requires n.transmissions <= m.transmissions && AllFailed(n, last, u)
    ensures AllFailed(m, last, u)
  {}

  lemma UnansweredIsAccepted(n: Node, u: nat)
    requires Inv(n) && Unanswered(n, u, 0)
    ensures u < |n.accepted|
  {}

  /**
   * A one-shot packet whose turns find the channel free and whose transmissions all fail is gone after its 126th
   * update, however the clock runs from its registration on: while it is still queued, there were at most 125.
   */
  lemma UnansweredEnds(ns: seq<Node>, steps: seq<Step>, u: nat)
    requires Linked(ns, steps) && Inv(ns[0]) && Unanswered(ns[0], u, 0) && FreeTurns(ns, steps, u)
    requires AllFailed(ns[0], ns[|steps|], u) && HasUid(ns[|steps|], u)
    ensures Updates(steps) <= 125
  {
    UnansweredIsAccepted(ns[0], u);
    hide Inv;
    hide AllFailed;
    hide HasUid;
    hide Unanswered;
    forall n | n in ns ensures Unanswered(n, u, 0) {
      var k :| 0 <= k < |ns| && ns[k] == n;
      StaysUnanswered(ns, steps, u, k);
    }
    UnansweredBound(ns, steps, u);
  }
}
