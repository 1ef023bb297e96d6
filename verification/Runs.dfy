/** What holds of a protocol object after any interleaving of dispatches, updates, receptions and arrivals. */
module Runs {
  import opened PjonConstants
  import opened Frames
  import opened Cleanup
  import opened Nodes

  datatype Step =
    | DoDispatch(request: Request, at: int)
    | DoUpdate(slots: seq<Slot>, at: int)
    | DoReceive(at: int)
    | DoArrive(bytes: seq<byte>)
    | DoConfigure(acknowledge: bool, senderInfo: bool)

  /** The step leads from n to m. An update that raises leads nowhere. */
  predicate Next(n: Node, s: Step, m: Node) {
    match s
    case DoDispatch(r, at) => m == Dispatch(n, r, at).0
    case DoUpdate(slots, at) => |slots| == |n.queue| && Update(n, slots, at) == Some(m)
    case DoReceive(at) => m == ReceiveStep(n, at).0
    case DoArrive(bytes) => m == n.(port := Arrived(n.port, bytes))
    case DoConfigure(a, s) => m == n.(acknowledge := a, senderInfo := s)
  }

  /** Consecutive states are linked by steps. */
  predicate Linked(ns: seq<Node>, steps: seq<Step>) {
    && |ns| == |steps| + 1
    && forall i {:trigger steps[i]} :: 0 <= i < |steps| ==> Next(ns[i], steps[i], ns[i + 1])
  }

  predicate IsRun(ns: seq<Node>, steps: seq<Step>) {
    Linked(ns, steps) && ns[0] == NewNode(ns[0].id)
  }

  // ----- The invariant -----

  /** p is the accepted packet a, some time later. */
  predicate SamePacket(a: Packet, p: Packet) {
    && p.uid == a.uid && p.message == a.message && p.text == a.text && p.timing == a.timing
    && (a.timing == 0 ==> p.registration == a.registration)
  }

  predicate IsAtRest(state: int) {
    state == TO_BE_SENT || state == BUSY || state == FAIL
  }

  predicate EventFits(a: Packet, e: Event) {
    match e
    case Acknowledged(_) => a.timing == 0
    case Exhausted(_, d) => a.timing == 0 && d == a.message.recipient
    case GivenUp(_, d) => a.timing > 0 && d == a.message.recipient
    case Adopted(_, d) => d == a.message.recipient && |a.message.payload| > 0 && AcquiresId(a)
    case Overflow => true
  }

  function UpTo(n: nat): multiset<nat> {
    if n == 0 then multiset{} else UpTo(n - 1) + multiset{n - 1}
  }

  predicate Known(n: Node) {
    forall i :: 0 <= i < |n.accepted| ==> n.accepted[i].uid == i
  }

  predicate Tracked(n: Node) {
    forall i :: 0 <= i < |n.queue| ==>
      var p := n.queue[i];
      p.uid < |n.accepted| && SamePacket(n.accepted[p.uid], p) && p.attempts <= MAX_ATTEMPTS
      && (p.timing == 0 && p.state == TO_BE_SENT ==> p.attempts == 0)
  }

  predicate Explained(n: Node) {
    forall e :: e in n.events && !e.Overflow? ==> e.uid < |n.accepted| && EventFits(n.accepted[e.uid], e)
  }

  predicate Bookkeeping(n: Node) {
    && Known(n) && Ordered(n.queue) && Tracked(n) && Explained(n)
    && |n.queue| <= MAX_PACKETS + 1
    && Uids(n.queue) + Gone(n.events) == UpTo(|n.accepted|)
  }

  /** How many transmissions of the packet came back with FAIL. */
  function Fails(ts: seq<Transmission>, uid: nat): nat {
    if |ts| == 0 then 0
    else Fails(ts[..|ts| - 1], uid) + if ts[|ts| - 1].uid == uid && ts[|ts| - 1].code == FAIL then 1 else 0
  }

  /** A transmission after k failed ones happens no earlier than k cubed milliseconds after registration. */
  predicate BackedOff(n: Node, j: nat)
    requires j < |n.transmissions|
  {
    var t := n.transmissions[j];
    t.uid < |n.accepted| &&
    (n.accepted[t.uid].timing == 0 ==>
      t.at - n.accepted[t.uid].registration >= 1000 * Cube(Fails(n.transmissions[..j], t.uid)))
  }

  /** Failed transmissions are bounded by attempts; those of the first k packets may be one ahead. */
  predicate Counted(n: Node, k: nat) {
    forall i :: 0 <= i < |n.queue| && n.queue[i].timing == 0 ==>
      Fails(n.transmissions, n.queue[i].uid)
        <= n.queue[i].attempts + if i < k && n.queue[i].state == FAIL then 1 else 0
  }

  predicate Bounded(n: Node) {
    forall u :: 0 <= u < |n.accepted| && n.accepted[u].timing == 0 ==>
      Fails(n.transmissions, u) <= MAX_ATTEMPTS + 1
  }

  predicate Paced(n: Node) {
    forall j :: 0 <= j < |n.transmissions| ==> BackedOff(n, j)
  }

  predicate Sent(n: Node, uid: nat, code: int) {
    exists j :: 0 <= j < |n.transmissions| && n.transmissions[j].uid == uid && n.transmissions[j].code == code
  }

  /** A verdict on a packet rests on one of its transmissions. */
  predicate Justified(n: Node) {
    && (forall i :: 0 <= i < |n.queue| && (n.queue[i].state == ACK || n.queue[i].state == FAIL) ==>
          Sent(n, n.queue[i].uid, n.queue[i].state))
    && (forall e :: e in n.events && !e.Overflow? ==> Sent(n, e.uid, if e.Acknowledged? then ACK else FAIL))
  }

  predicate Resting(n: Node) {
    forall i :: 0 <= i < |n.queue| ==> IsAtRest(n.queue[i].state)
  }

  predicate Inv(n: Node) {
    Bookkeeping(n) && Justified(n) && Resting(n) && Counted(n, 0) && Bounded(n) && Paced(n)
  }

  /** In the middle of an update, with the first k packets served. */
  predicate Mid(n: Node, k: nat) {
    && Bookkeeping(n) && Justified(n) && Counted(n, k) && Bounded(n) && Paced(n)
    && (forall i :: 0 <= i < |n.queue| ==> IsAtRest(n.queue[i].state) || (i < k && n.queue[i].state == ACK))
  }

  // ----- The sending half of an update -----

  lemma CubeMonotone(a: nat, b: nat)
    requires a <= b
    ensures Cube(a) <= Cube(b)
  {
    assert a * a <= b * b;
    assert a * a * a <= b * b * a <= b * b * b;
  }

  lemma {:induction false} UidsUpdate(q: seq<Packet>, i: nat, p: Packet)
    requires i < |q| && p.uid == q[i].uid
    ensures Uids(q[i := p]) == Uids(q)
    decreases |q|
  {
    if i == 0 {
    } else {
      assert q[i := p][1..] == q[1..][i - 1 := p];
      UidsUpdate(q[1..], i - 1, p);
    }
  }

  lemma {:induction false} FailsSilent(ts: seq<Transmission>, uid: nat)
    requires forall j :: 0 <= j < |ts| ==> ts[j].uid != uid
    ensures Fails(ts, uid) == 0
    decreases |ts|
  {
    if |ts| == 0 {
    } else {
      FailsSilent(ts[..|ts| - 1], uid);
    }
  }

  lemma FailsMore(ts: seq<Transmission>, t: Transmission, uid: nat)
    ensures Fails(ts + [t], uid) == Fails(ts, uid) + if t.uid == uid && t.code == FAIL then 1 else 0
  {
    assert (ts + [t])[..|ts|] == ts;
  }

  lemma SendStringCodes(port: Port, m: Message, slot: Slot)
    ensures var code := SendString(port, m, slot).1;
            && (code == ACK || code == BUSY || code == FAIL)
            && (!CanStart(port, slot.now) ==> code == BUSY)
  {}

  /** From n to m the k-th packet had its turn: nothing was sent, or one due transmission was logged. */
  predicate Turn(n: Node, m: Node, k: nat, logged: bool, t: Transmission) {
    && k < |n.queue| == |m.queue|
    && m.accepted == n.accepted && m.events == n.events
    && m.transmissions == n.transmissions + (if logged then [t] else [])
    && var p, state := n.queue[k], m.queue[k].state;
       && m.queue == n.queue[k := p.(state := state)]
       && (logged ==> t == Transmission(p.uid, t.at, state) && Due(p, t.at))
       && (!logged ==> state == p.state || state == BUSY)
       && (state == p.state || state == ACK || state == BUSY || state == FAIL)
  }

  lemma TransmitIsTurn(n: Node, k: nat, slot: Slot) returns (logged: bool, t: Transmission)
    requires k < |n.queue|
    ensures Turn(n, TransmitAt(n, k, slot), k, logged, t)
  {
    var m, p, port := TransmitAt(n, k, slot), n.queue[k], Arrived(n.port, slot.before);
    logged := p.state != 0 && Due(p, slot.now) && CanStart(port, slot.now);
    t := Transmission(p.uid, slot.now, m.queue[k].state);
    SendStringCodes(port, p.message, slot);
    assert n.transmissions + [] == n.transmissions;
    assert n.queue == n.queue[k := p];
  }

  lemma TurnKeepsBooks(n: Node, m: Node, k: nat, logged: bool, t: Transmission)
    requires Turn(n, m, k, logged, t) && Bookkeeping(n)
    ensures Bookkeeping(m)
  {
    UidsUpdate(n.queue, k, m.queue[k]);
  }

  lemma TurnPaces(n: Node, m: Node, k: nat, logged: bool, t: Transmission)
    requires Turn(n, m, k, logged, t) && Tracked(n) && Counted(n, k) && Paced(n)
    ensures Paced(m)
  {
    var p := n.queue[k];
    forall j | 0 <= j < |m.transmissions| ensures BackedOff(m, j) {
      if j < |n.transmissions| {
        assert BackedOff(n, j);
        assert m.transmissions[..j] == n.transmissions[..j];
      } else {
        assert m.transmissions[..j] == n.transmissions;
        if p.timing == 0 { CubeMonotone(Fails(n.transmissions, p.uid), p.attempts); }
      }
    }
  }

  lemma TurnFails(n: Node, m: Node, k: nat, logged: bool, t: Transmission, uid: nat)
    requires Turn(n, m, k, logged, t)
    ensures Fails(m.transmissions, uid) == Fails(n.transmissions, uid)
              + if logged && uid == n.queue[k].uid && m.queue[k].state == FAIL then 1 else 0
  {
    if logged { FailsMore(n.transmissions, t, uid); } else { assert m.transmissions == n.transmissions; }
  }

  lemma TurnCounts(n: Node, m: Node, k: nat, logged: bool, t: Transmission)
    requires Turn(n, m, k, logged, t) && Tracked(n) && Ordered(n.queue) && Counted(n, k) && Bounded(n)
    ensures Counted(m, k + 1) && Bounded(m)
  {
    forall i | 0 <= i < |m.queue| && m.queue[i].timing == 0
      ensures Fails(m.transmissions, m.queue[i].uid)
                <= m.queue[i].attempts + if i < k + 1 && m.queue[i].state == FAIL then 1 else 0
    {
      TurnFails(n, m, k, logged, t, m.queue[i].uid);
      assert i < k ==> n.queue[i].uid < n.queue[k].uid;
      assert k < i ==> n.queue[k].uid < n.queue[i].uid;
    }
    forall u: nat | u < |m.accepted| && m.accepted[u].timing == 0
      ensures Fails(m.transmissions, u) <= MAX_ATTEMPTS + 1
    {
      TurnFails(n, m, k, logged, t, u);
    }
  }

  lemma TurnJustifies(n: Node, m: Node, k: nat, logged: bool, t: Transmission)
    requires Turn(n, m, k, logged, t) && Justified(n)
    ensures Justified(m)
  {
    forall u: nat, code: int | Sent(n, u, code) ensures Sent(m, u, code) {
      var j :| 0 <= j < |n.transmissions| && n.transmissions[j].uid == u && n.transmissions[j].code == code;
      assert m.transmissions[j] == n.transmissions[j];
    }
    if logged { assert m.transmissions[|n.transmissions|] == t; }
  }

  lemma TransmitKeeps(n: Node, k: nat, slot: Slot)
    requires k < |n.queue| && Mid(n, k)
    ensures Mid(TransmitAt(n, k, slot), k + 1)
  {
    var m := TransmitAt(n, k, slot);
    var logged, t := TransmitIsTurn(n, k, slot);
    TurnKeepsBooks(n, m, k, logged, t);
    TurnCounts(n, m, k, logged, t);
    TurnPaces(n, m, k, logged, t);
    TurnJustifies(n, m, k, logged, t);
  }

  lemma {:induction false} TransmitAllKeeps(n: Node, slots: seq<Slot>, k: nat)
    requires Inv(n) && k <= |n.queue| && k <= |slots|
    ensures Mid(TransmitUpTo(n, slots, k), k)
    decreases k
  {
    if k == 0 {
    } else {
      TransmitAllKeeps(n, slots, k - 1);
      TransmitKeeps(TransmitUpTo(n, slots, k - 1), k - 1, slots[k - 1]);
    }
  }

  // ----- The cleaning half -----

  /** From n to m the queue was settled. */
  predicate Cleaned(n: Node, m: Node, now: int) {
    CleanUp(n, now) == Some(m)
  }

  /** The event of a packet fits it, and tells the verdict that it rests on. */
  lemma FateFits(a: Packet, p: Packet, visits: nat, now: int)
    requires SamePacket(a, p)
    ensures var f := FateOf(p, visits, now);
            f.Ends? || f.Restarts? ==>
              && !f.event.Overflow? && f.event.uid == p.uid && EventFits(a, f.event)
              && p.state == if f.event.Acknowledged? then ACK else FAIL
  {}

  lemma NewEventExplained(n: Node, now: int, e: Event)
    requires Tracked(n) && Justified(n) && Settle(n.queue, now).Settled?
    requires e in Flatten(Settle(n.queue, now).walks)
    ensures !e.Overflow? && e.uid < |n.accepted| && EventFits(n.accepted[e.uid], e)
    ensures Sent(n, e.uid, if e.Acknowledged? then ACK else FAIL)
  {
    var i := EventFrom(n.queue, now, e);
    var p := n.queue[i];
    hide *;
    FateFits(n.accepted[p.uid], p, DeletedBehind(n.queue, i, now) + 1, now);
    assert FateAt(n.queue, i, now) == FateOf(p, DeletedBehind(n.queue, i, now) + 1, now);
  }

  lemma CleanUpExplains(n: Node, m: Node, now: int)
    requires Cleaned(n, m, now) && Tracked(n) && Explained(n) && Justified(n)
    ensures Explained(m)
    ensures forall e :: e in m.events && !e.Overflow? ==> Sent(m, e.uid, if e.Acknowledged? then ACK else FAIL)
  {
    forall e | e in m.events && !e.Overflow?
      ensures e.uid < |m.accepted| && EventFits(m.accepted[e.uid], e)
      ensures Sent(m, e.uid, if e.Acknowledged? then ACK else FAIL)
    {
      var code := if e.Acknowledged? then ACK else FAIL;
      if e !in n.events { NewEventExplained(n, now, e); }
      assert Sent(n, e.uid, code);
      SentCongruent(n, m, e.uid, code);
    }
  }

  lemma SentCongruent(n: Node, m: Node, u: nat, code: int)
    requires m.transmissions == n.transmissions
    ensures Sent(m, u, code) == Sent(n, u, code)
  {}

  lemma CleanUpKeepsQueue(n: Node, m: Node, now: int)
    requires Cleaned(n, m, now) && Mid(n, |n.queue|)
    ensures Tracked(m) && Resting(m) && Counted(m, 0)
    ensures forall i :: 0 <= i < |m.queue| && m.queue[i].state == FAIL ==> Sent(m, m.queue[i].uid, FAIL)
  {
    forall i | 0 <= i < |m.queue|
      ensures var p := m.queue[i];
              && p.uid < |m.accepted| && SamePacket(m.accepted[p.uid], p) && p.attempts <= MAX_ATTEMPTS
              && (p.timing == 0 && p.state == TO_BE_SENT ==> p.attempts == 0)
              && IsAtRest(p.state)
              && (p.timing == 0 ==> Fails(m.transmissions, p.uid) <= p.attempts)
              && (p.state == FAIL ==> Sent(m, p.uid, FAIL))
    {
      var j := KeptFrom(n.queue, now, m.queue[i]);
      hide Settle;
      hide DeletedBehind;
      hide Fails;
      assert n.queue[j].state == FAIL ==> Sent(n, n.queue[j].uid, FAIL);
    }
  }

  lemma CleanUpConserves(n: Node, m: Node, now: int)
    requires Cleaned(n, m, now) && Bookkeeping(n)
    ensures Uids(m.queue) + Gone(m.events) == UpTo(|m.accepted|)
    ensures Ordered(m.queue) && |m.queue| <= |n.queue|
  {
    var s := Settle(n.queue, now);
    var events := Flatten(s.walks);
    SettleConserves(n.queue, now);
    SettleOrdered(n.queue, now);
    GoneAppend(n.events, events);
    MultisetSwap(Uids(s.kept), Gone(n.events), Gone(events));
  }

  lemma MultisetSwap(a: multiset<nat>, b: multiset<nat>, c: multiset<nat>)
    ensures a + (b + c) == (a + c) + b
  {}

  lemma HistoryCongruent(n: Node, m: Node)
    requires m.accepted == n.accepted && m.transmissions == n.transmissions && Bounded(n) && Paced(n)
    ensures Bounded(m) && Paced(m)
  {
    forall j | 0 <= j < |m.transmissions| ensures BackedOff(m, j) { assert BackedOff(n, j); }
  }

  lemma CleanUpKeeps(n: Node, m: Node, now: int)
    requires Cleaned(n, m, now) && Mid(n, |n.queue|)
    ensures Inv(m)
  {
    hide Settle;
    hide BackedOff;
    hide Fails;
    CleanUpConserves(n, m, now);
    CleanUpExplains(n, m, now);
    CleanUpKeepsQueue(n, m, now);
    HistoryCongruent(n, m);
  }

  // ----- The other steps -----

  lemma {:induction false} UidsAppend(q: seq<Packet>, p: Packet)
    ensures Uids(q + [p]) == Uids(q) + multiset{p.uid}
    decreases |q|
  {
    if |q| > 0 {
      assert (q + [p])[1..] == q[1..] + [p];
      UidsAppend(q[1..], p);
    } else {
      assert q + [p] == [p];
    }
  }

  lemma AcceptKeepsBooks(n: Node, m: Node, p: Packet)
    requires Bookkeeping(n) && |n.queue| <= MAX_PACKETS && p.uid == |n.accepted| && p.attempts == 0
    requires m == n.(queue := n.queue + [p], accepted := n.accepted + [p])
    ensures Bookkeeping(m)
  {
    hide Uids;
    UidsAppend(n.queue, p);
    assert UpTo(|m.accepted|) == UpTo(|n.accepted|) + multiset{p.uid};
    forall i | 0 <= i < |m.queue|
      ensures var a := m.queue[i];
              a.uid < |m.accepted| && SamePacket(m.accepted[a.uid], a) && a.attempts <= MAX_ATTEMPTS
              && (a.timing == 0 && a.state == TO_BE_SENT ==> a.attempts == 0)
    {}
  }

  lemma AcceptKeeps(n: Node, m: Node, p: Packet)
    requires Inv(n) && |n.queue| <= MAX_PACKETS
    requires p.uid == |n.accepted| && p.attempts == 0 && p.state == TO_BE_SENT
    requires m == n.(queue := n.queue + [p], accepted := n.accepted + [p])
    ensures Inv(m)
  {
    AcceptKeepsBooks(n, m, p);
    forall j | 0 <= j < |n.transmissions| ensures n.transmissions[j].uid != p.uid && BackedOff(m, j) {
      assert BackedOff(n, j);
    }
    FailsSilent(n.transmissions, p.uid);
    JustifiedCongruent(n, m);
  }

  lemma RefuseKeeps(n: Node, m: Node)
    requires Inv(n) && m == n.(events := n.events + [Overflow])
    ensures Inv(m)
  {
    GoneAppend(n.events, [Overflow]);
    assert Gone([Overflow]) == multiset{} + Gone([]);
    assert Gone(m.events) == Gone(n.events);
    HistoryCongruent(n, m);
    JustifiedCongruent(n, m);
  }

  lemma JustifiedCongruent(n: Node, m: Node)
    requires Justified(n) && m.transmissions == n.transmissions
    requires forall i :: 0 <= i < |m.queue| && m.queue[i].state != TO_BE_SENT ==>
               i < |n.queue| && m.queue[i] == n.queue[i]
    requires forall e :: e in m.events && !e.Overflow? ==> e in n.events
    ensures Justified(m)
  {
    forall u: nat, code: int ensures Sent(m, u, code) == Sent(n, u, code) {}
  }

  lemma DispatchKeeps(n: Node, r: Request, at: int)
    requires Inv(n)
    ensures Inv(Dispatch(n, r, at).0)
  {
    if |r.payload| < PACKET_MAX_LENGTH {
      if |n.queue| <= MAX_PACKETS {
        AcceptKeeps(n, Dispatch(n, r, at).0, RequestedPacket(n, r, at));
      } else {
        RefuseKeeps(n, Dispatch(n, r, at).0);
      }
    }
  }

  /** The invariant looks at nothing but the queue and the sending history. */
  lemma InvCongruent(n: Node, m: Node)
    requires Inv(n) && m.queue == n.queue && m.accepted == n.accepted
    requires m.events == n.events && m.transmissions == n.transmissions
    ensures Inv(m)
  {
    HistoryCongruent(n, m);
    JustifiedCongruent(n, m);
  }

  lemma NextKeeps(n: Node, s: Step, m: Node)
    requires Inv(n) && Next(n, s, m)
    ensures Inv(m)
  {
    match s
    case DoDispatch(r, at) => DispatchKeeps(n, r, at);
    case DoUpdate(slots, at) =>
      TransmitAllKeeps(n, slots, |n.queue|);
      CleanUpKeeps(TransmitUpTo(n, slots, |n.queue|), m, at);
    case _ => InvCongruent(n, m);
  }

  lemma {:induction false} LinkedKeeps(ns: seq<Node>, steps: seq<Step>, k: nat)
    requires Linked(ns, steps) && Inv(ns[0]) && k <= |steps|
    ensures Inv(ns[k])
    decreases k
  {
    if k == 0 {
    } else {
      LinkedKeeps(ns, steps, k - 1);
      NextKeeps(ns[k - 1], steps[k - 1], ns[k]);
    }
  }

  /** Every state of every run satisfies the invariant. */
  lemma RunsKeep(ns: seq<Node>, steps: seq<Step>, k: nat)
    requires IsRun(ns, steps) && k <= |steps|
    ensures Inv(ns[k])
  {
    LinkedKeeps(ns, steps, k);
  }
}
