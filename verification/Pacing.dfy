/**
 * The cubic back-off of all packets, also of those that are rescheduled: it starts anew with every registration, and
 * counts the transmissions that have failed since.
 */
module Pacing {
  import opened PjonConstants
  import opened Frames
  import opened Cleanup
  import opened Nodes
  import opened Runs
  import opened Guarantees

  /** The packet is queued and was not sent since it was dispatched or rescheduled. */
  predicate Fresh(n: Node, u: nat) {
    exists x :: 0 <= x < |n.queue| && n.queue[x].uid == u && n.queue[x].state == TO_BE_SENT
  }

  predicate Queued(n: Node, u: nat, registration: int) {
    exists x :: 0 <= x < |n.queue| && n.queue[x].uid == u && n.queue[x].registration == registration
  }

  // ----- What one update adds to the log -----

  lemma TurnAt(n: Node, slots: seq<Slot>, k: nat) returns (logged: bool, t: Transmission)
    requires 0 < k <= |n.queue| && k <= |slots|
    ensures Turn(TransmitUpTo(n, slots, k - 1), TransmitUpTo(n, slots, k), k - 1, logged, t)
  {
    logged, t := TransmitIsTurn(TransmitUpTo(n, slots, k - 1), k - 1, slots[k - 1]);
  }

  /** A packet fails at most once in the turns of one update, in its own turn, and then its state is FAIL. */
  lemma {:induction false} FailsInTurns(n: Node, slots: seq<Slot>, k: nat, x: nat)
    requires Ordered(n.queue) && k <= |n.queue| && k <= |slots| && x < |n.queue|
    ensures var t, u := TransmitUpTo(n, slots, k), n.queue[x].uid;
            && Fails(n.transmissions, u) <= Fails(t.transmissions, u)
            && Fails(t.transmissions, u)
                 <= Fails(n.transmissions, u) + (if x < k && t.queue[x].state == FAIL then 1 else 0)
    decreases k
  {
    if k == 0 {
    } else {
      FailsInTurns(n, slots, k - 1, x);
      var s, m := TransmitUpTo(n, slots, k - 1), TransmitUpTo(n, slots, k);
      var logged, t := TurnAt(n, slots, k);
      TurnFails(s, m, k - 1, logged, t, n.queue[x].uid);
      TransmitFrame(n, slots, k - 1, k - 1);
      hide TransmitUpTo;
      if x != k - 1 {
        assert n.queue[x].uid != n.queue[k - 1].uid;
      }
    }
  }

  /** A transmission that the first k turns have added: whose it is, and that it was due. */
  predicate Logged(n: Node, m: Node, j: nat, x: nat)
    requires j < |m.transmissions| && x < |n.queue|
  {
    var t, p := m.transmissions[j], n.queue[x];
    t.uid == p.uid && Due(p, t.at) && Fails(m.transmissions[..j], p.uid) == Fails(n.transmissions, p.uid)
  }

  lemma TurnLogs(n: Node, m: Node, k: nat, logged: bool, t: Transmission)
    requires Turn(n, m, k, logged, t)
    ensures n.transmissions <= m.transmissions
    ensures |m.transmissions| == |n.transmissions| + if logged then 1 else 0
  {}

  lemma LoggedStays(n: Node, s: Node, m: Node, j: nat, x: nat)
    requires j < |s.transmissions| && s.transmissions <= m.transmissions && x < |n.queue| && Logged(n, s, j, x)
    ensures Logged(n, m, j, x)
  {
    assert m.transmissions[..j] == s.transmissions[..j];
  }

  lemma LoggedNow(n: Node, s: Node, m: Node, x: nat, t: Transmission)
    requires x < |n.queue| && Turn(s, m, x, true, t) && s.queue[x] == n.queue[x]
    requires Fails(s.transmissions, n.queue[x].uid) == Fails(n.transmissions, n.queue[x].uid)
    ensures |m.transmissions| == |s.transmissions| + 1 && Logged(n, m, |s.transmissions|, x)
  {
    hide Due;
    assert m.transmissions[..|s.transmissions|] == s.transmissions;
  }

  lemma {:induction false} TurnsLog(n: Node, slots: seq<Slot>, k: nat, j: nat) returns (x: nat)
    requires Ordered(n.queue) && k <= |n.queue| && k <= |slots|
    requires |n.transmissions| <= j < |TransmitUpTo(n, slots, k).transmissions|
    ensures x < |n.queue| && Logged(n, TransmitUpTo(n, slots, k), j, x)
    decreases k
  {
    var s, m := TransmitUpTo(n, slots, k - 1), TransmitUpTo(n, slots, k);
    var logged, t := TurnAt(n, slots, k);
    TurnLogs(s, m, k - 1, logged, t);
    hide TransmitUpTo;
    hide Logged;
    hide Turn;
    hide Fails;
    if j < |s.transmissions| {
      x := TurnsLog(n, slots, k - 1, j);
      LoggedStays(n, s, m, j, x);
    } else {
      x := k - 1;
      TransmitFrame(n, slots, k - 1, k - 1);
      FailsInTurns(n, slots, k - 1, k - 1);
      assert logged && j == |s.transmissions|;
      LoggedNow(n, s, m, x, t);
    }
  }

  lemma {:induction false} LogGrows(n: Node, slots: seq<Slot>, k: nat)
    requires k <= |n.queue| && k <= |slots|
    ensures n.transmissions <= TransmitUpTo(n, slots, k).transmissions
    decreases k
  {
    if k == 0 {
    } else {
      LogGrows(n, slots, k - 1);
      var logged, t := TurnAt(n, slots, k);
      hide TransmitUpTo;
    }
  }

  // ----- One step back -----

  /** A packet kept by a clean-up without being rescheduled was there, and an attempt was counted if it had failed. */
  lemma KeptFailed(q: seq<Packet>, now: int, p: Packet) returns (y: nat)
    requires Settle(q, now).Settled? && p in Settle(q, now).kept && p.state != TO_BE_SENT
    ensures y < |q| && q[y].uid == p.uid && q[y].registration == p.registration
    ensures q[y].state == p.state && p.attempts >= q[y].attempts + if q[y].state == FAIL then 1 else 0
  {
    y := KeptFrom(q, now, p);
    hide Settle;
  }

  /** A queued packet that is not fresh was queued before the step, with the same registration. */
  lemma StepBack(n: Node, s: Step, m: Node, x: nat) returns (y: nat)
    requires Inv(n) && Next(n, s, m) && x < |m.queue| && m.queue[x].state != TO_BE_SENT
    ensures y < |n.queue| && n.queue[y].uid == m.queue[x].uid && n.queue[y].registration == m.queue[x].registration
    ensures var u := m.queue[x].uid;
            && m.queue[x].attempts >= n.queue[y].attempts + Fails(m.transmissions, u) - Fails(n.transmissions, u)
            && Fails(n.transmissions, u) <= Fails(m.transmissions, u)
  {
    if s.DoUpdate? {
      var t := TransmitUpTo(n, s.slots, |n.queue|);
      y := KeptFailed(t.queue, s.at, m.queue[x]);
      TransmitFrame(n, s.slots, |n.queue|, y);
      FailsInTurns(n, s.slots, |n.queue|, y);
      hide TransmitUpTo;
      hide Settle;
    } else {
      QueueGrows(n, s, m);
      y := x;
    }
  }

  // ----- Back to the last registration -----

  /** From state l to state i the packet was queued with this registration, and only in state l was it fresh. */
  predicate Since(ns: seq<Node>, l: nat, i: nat, u: nat, registration: int)
    requires l <= i < |ns|
  {
    && Fresh(ns[l], u) && Queued(ns[l], u, registration)
    && forall k :: l < k <= i ==> Queued(ns[k], u, registration) && !Fresh(ns[k], u)
  }

  lemma FreshIsQueued(n: Node, x: nat)
    requires Ordered(n.queue) && x < |n.queue|
    ensures Fresh(n, n.queue[x].uid) <==> n.queue[x].state == TO_BE_SENT
    ensures Queued(n, n.queue[x].uid, n.queue[x].registration)
  {
    if y :| 0 <= y < |n.queue| && n.queue[y].uid == n.queue[x].uid && n.queue[y].state == TO_BE_SENT {
      SameUid(n.queue, x, y);
    }
  }

  lemma SinceMore(ns: seq<Node>, l: nat, i: nat, u: nat, registration: int)
    requires l < i < |ns| && Since(ns, l, i - 1, u, registration)
    requires Queued(ns[i], u, registration) && !Fresh(ns[i], u)
    ensures Since(ns, l, i, u, registration)
  {}

  lemma SinceNow(ns: seq<Node>, i: nat, u: nat, registration: int)
    requires i < |ns| && Queued(ns[i], u, registration) && Fresh(ns[i], u)
    ensures Since(ns, i, i, u, registration)
  {}

  lemma NothingAtFirst(ns: seq<Node>, steps: seq<Step>)
    requires IsRun(ns, steps)
    ensures |ns[0].queue| == 0 && |ns[0].transmissions| == 0
  {}

  /** Every queued packet was registered last in some state before, and its attempts cover the failures since. */
  lemma {:induction false} LastRegistered(ns: seq<Node>, steps: seq<Step>, i: nat, x: nat) returns (l: nat)
    requires IsRun(ns, steps) && i <= |steps| && x < |ns[i].queue|
    ensures var p := ns[i].queue[x];
            && l <= i && Since(ns, l, i, p.uid, p.registration)
            && p.attempts >= Fails(ns[i].transmissions, p.uid) - Fails(ns[l].transmissions, p.uid) >= 0
    decreases i
  {
    var p := ns[i].queue[x];
    RunsKeep(ns, steps, i);
    FreshIsQueued(ns[i], x);
    NothingAtFirst(ns, steps);
    hide Inv;
    hide Next;
    hide Since;
    hide Fresh;
    hide Queued;
    hide Fails;
    if p.state == TO_BE_SENT {
      l := i;
      SinceNow(ns, i, p.uid, p.registration);
    } else {
      RunsKeep(ns, steps, i - 1);
      var y := StepBack(ns[i - 1], steps[i - 1], ns[i], x);
      l := LastRegistered(ns, steps, i - 1, y);
      SinceMore(ns, l, i, p.uid, p.registration);
    }
  }

  lemma {:induction false} AcceptedStays(ns: seq<Node>, steps: seq<Step>, i: nat, k: nat)
    requires IsRun(ns, steps) && i <= k <= |steps|
    ensures ns[i].accepted <= ns[k].accepted
    decreases k
  {
    if i == k {
    } else {
      AcceptedStays(ns, steps, i, k - 1);
      NextAccepts(ns[k - 1], steps[k - 1], ns[k]);
    }
  }

  lemma NextAccepts(n: Node, s: Step, m: Node)
    requires Next(n, s, m)
    ensures n.accepted <= m.accepted
  {
    if s.DoUpdate? {
      TurnsKeepAccepted(n, s.slots, |n.queue|);
      hide TransmitUpTo;
      hide Settle;
    }
  }

  /** A due packet is paced by its attempts, and so by the failures that they cover. */
  lemma DuePaces(p: Packet, at: int, failures: nat)
    requires Due(p, at) && failures <= p.attempts
    ensures at - p.registration >= 1000 * (p.timing + Cube(failures))
  {
    CubeMonotone(failures, p.attempts);
  }

  /** The update that makes the j-th transmission, and the packet it sends. */
  lemma MadeBy(n: Node, s: Step, m: Node, j: nat) returns (x: nat)
    requires Inv(n) && Next(n, s, m) && |n.transmissions| <= j < |m.transmissions|
    ensures x < |n.queue| && Logged(n, m, j, x)
  {
    assert s.DoUpdate?;
    var t := TransmitUpTo(n, s.slots, |n.queue|);
    x := TurnsLog(n, s.slots, |n.queue|, j);
    LoggedStays(n, t, m, j, x);
  }

  lemma NextLogs(n: Node, s: Step, m: Node)
    requires Next(n, s, m)
    ensures n.transmissions <= m.transmissions
  {
    if s.DoUpdate? {
      LogGrows(n, s.slots, |n.queue|);
      hide TransmitUpTo;
      hide Settle;
    }
  }

  /** The step that made the j-th transmission. */
  lemma {:induction false} StepOf(ns: seq<Node>, steps: seq<Step>, k: nat, j: nat) returns (i: nat)
    requires IsRun(ns, steps) && k <= |steps| && j < |ns[k].transmissions|
    ensures i < k && |ns[i].transmissions| <= j < |ns[i + 1].transmissions|
    ensures ns[i + 1].transmissions <= ns[k].transmissions
    decreases k
  {
    NothingAtFirst(ns, steps);
    hide Next;
    NextLogs(ns[k - 1], steps[k - 1], ns[k]);
    if |ns[k - 1].transmissions| <= j {
      i := k - 1;
    } else {
      i := StepOf(ns, steps, k - 1, j);
    }
  }

  /**
   * In every run every transmission, also of a packet that is rescheduled, was made in a state i, in which its packet
   * was queued with the registration it got last, in a state l: no earlier than its timing and the cube of the
   * failures since then after that registration.
   */
  lemma Paces(ns: seq<Node>, steps: seq<Step>, k: nat, j: nat) returns (i: nat, l: nat, registration: int)
    requires IsRun(ns, steps) && k <= |steps| && j < |ns[k].transmissions|
    ensures var t, before := ns[k].transmissions[j], ns[k].transmissions[..j];
            && l <= i < k && |ns[i].transmissions| <= j < |ns[i + 1].transmissions|
            && Since(ns, l, i, t.uid, registration)
            && t.uid < |ns[k].accepted|
            && Fails(ns[l].transmissions, t.uid) <= Fails(before, t.uid)
            && t.at - registration >=
                 1000 * (ns[k].accepted[t.uid].timing + Cube(Fails(before, t.uid) - Fails(ns[l].transmissions, t.uid)))
  {
    i := StepOf(ns, steps, k, j);
    RunsKeep(ns, steps, i);
    hide Next;
    hide Since;
    hide Fails;
    hide Cube;
    var x := MadeBy(ns[i], steps[i], ns[i + 1], j);
    LoggedStays(ns[i], ns[i + 1], ns[k], j, x);
    l := LastRegistered(ns, steps, i, x);
    AcceptedStays(ns, steps, i, k);
    var p := ns[i].queue[x];
    registration := p.registration;
    assert SamePacket(ns[i].accepted[p.uid], p);
    DuePaces(p, ns[k].transmissions[j].at, Fails(ns[i].transmissions, p.uid) - Fails(ns[l].transmissions, p.uid));
  }
}
