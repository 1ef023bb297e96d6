/** What the invariant of all runs means for the application that dispatches packets. */
module Guarantees {
  import opened PjonConstants
  import opened Frames
  import opened Cleanup
  import opened Nodes
  import opened Runs

  // ----- Conservation: one fate for every accepted packet -----

  lemma {:induction false} GoneCounts(events: seq<Event>, u: nat, d: byte)
    requires forall e :: e in events && Removes(e) && e.uid == u && !e.Acknowledged? ==> e.device == d
    ensures Gone(events)[u]
         == multiset(events)[Acknowledged(u)] + multiset(events)[Exhausted(u, d)] + multiset(events)[Adopted(u, d)]
    decreases |events|
  {
    if |events| == 0 {
    } else {
      assert events == [events[0]] + events[1..];
      GoneCounts(events[1..], u, d);
    }
  }

  lemma {:induction false} UpToCounts(n: nat, u: nat)
    ensures UpTo(n)[u] == if u < n then 1 else 0
  {
    if n == 0 {
    } else {
      UpToCounts(n - 1, u);
    }
  }

  lemma {:induction false} UidsCounts(q: seq<Packet>, u: nat)
    ensures u in Uids(q) <==> exists i :: 0 <= i < |q| && q[i].uid == u
    decreases |q|
  {
    if |q| == 0 {
    } else {
      UidsCounts(q[1..], u);
      if u in Uids(q[1..]) {
        var i :| 0 <= i < |q[1..]| && q[1..][i].uid == u;
        assert q[i + 1].uid == u;
      }
      if i :| 0 <= i < |q| && q[i].uid == u && i > 0 { assert q[1..][i - 1].uid == u; }
    }
  }

  lemma StateFate(n: Node, u: nat)
    requires Inv(n) && u < |n.accepted|
    ensures var m, d := multiset(n.events), n.accepted[u].message.recipient;
            Uids(n.queue)[u] + m[Acknowledged(u)] + m[Exhausted(u, d)] + m[Adopted(u, d)] == 1
  {
    UpToCounts(|n.accepted|, u);
    assert (Uids(n.queue) + Gone(n.events))[u] == 1;
    GoneCounts(n.events, u, n.accepted[u].message.recipient);
  }

  /**
   * In every run, an accepted packet is either still queued, or was removed by exactly one event: its
   * acknowledgement, its exhaustion, or the adoption of its address.
   */
  lemma OneFate(ns: seq<Node>, steps: seq<Step>, k: nat, u: nat)
    requires IsRun(ns, steps) && k <= |steps| && u < |ns[k].accepted|
    ensures var n := ns[k];
            var m, d := multiset(n.events), n.accepted[u].message.recipient;
            Uids(n.queue)[u] + m[Acknowledged(u)] + m[Exhausted(u, d)] + m[Adopted(u, d)] == 1
  {
    RunsKeep(ns, steps, k);
    StateFate(ns[k], u);
  }

  /** An update that raises keeps the books as well: every accepted packet is queued or was removed, not both. */
  lemma UpdatedConserves(n: Node, slots: seq<Slot>, now: int)
    requires Inv(n) && |slots| == |n.queue|
    ensures var m := Updated(n, slots, now);
            && m.accepted == n.accepted && Ordered(m.queue)
            && Uids(m.queue) + Gone(m.events) == UpTo(|m.accepted|)
  {
    TransmitAllKeeps(n, slots, |n.queue|);
    var t := TransmitUpTo(n, slots, |n.queue|);
    TurnsKeepAccepted(n, slots, |n.queue|);
    LoopConserves(t.queue, now);
    GoneAppend(t.events, Loop(t.queue, now).1);
  }

  lemma {:induction false} TurnsKeepAccepted(n: Node, slots: seq<Slot>, k: nat)
    requires k <= |n.queue| && k <= |slots|
    ensures TransmitUpTo(n, slots, k).accepted == n.accepted
    decreases k
  {
    if k == 0 {
    } else {
      TurnsKeepAccepted(n, slots, k - 1);
    }
  }

  predicate IsConnectionLost(e: Event) {
    e.Exhausted? || e.GivenUp?
  }

  /** How often the application was told that the connection of this packet is lost. */
  function LostCalls(events: seq<Event>, u: nat): nat {
    if |events| == 0 then 0
    else (if IsConnectionLost(events[0]) && events[0].uid == u then 1 else 0) + LostCalls(events[1..], u)
  }

  lemma {:induction false} LostCallsAre(events: seq<Event>, u: nat, d: byte)
    requires forall e :: e in events && IsConnectionLost(e) && e.uid == u ==> e == Exhausted(u, d)
    ensures LostCalls(events, u) == multiset(events)[Exhausted(u, d)]
    decreases |events|
  {
    if |events| == 0 {
    } else {
      assert events == [events[0]] + events[1..];
      LostCallsAre(events[1..], u, d);
    }
  }

  /** A one-shot packet is reported lost exactly when it is removed by exhaustion: once, with its recipient. */
  lemma LostOnce(ns: seq<Node>, steps: seq<Step>, k: nat, u: nat)
    requires IsRun(ns, steps) && k <= |steps| && u < |ns[k].accepted| && ns[k].accepted[u].timing == 0
    ensures var n := ns[k];
            var d := n.accepted[u].message.recipient;
            && LostCalls(n.events, u) == multiset(n.events)[Exhausted(u, d)] <= 1
            && (u in Uids(n.queue) ==> LostCalls(n.events, u) == 0)
  {
    RunsKeep(ns, steps, k);
    StateFate(ns[k], u);
    LostCallsAre(ns[k].events, u, ns[k].accepted[u].message.recipient);
  }

  // ----- Retries -----

  /** At most MAX_ATTEMPTS + 1 transmissions of a one-shot packet ever fail, and a queued one has attempts left. */
  lemma RetryBound(ns: seq<Node>, steps: seq<Step>, k: nat, u: nat)
    requires IsRun(ns, steps) && k <= |steps| && u < |ns[k].accepted| && ns[k].accepted[u].timing == 0
    ensures Fails(ns[k].transmissions, u) <= MAX_ATTEMPTS + 1
    ensures forall i :: 0 <= i < |ns[k].queue| && ns[k].queue[i].uid == u ==>
              Fails(ns[k].transmissions, u) <= ns[k].queue[i].attempts <= MAX_ATTEMPTS
  {
    RunsKeep(ns, steps, k);
  }

  /** The j-th transmission waits for the cube of the failures before it. */
  lemma PacedInRuns(ns: seq<Node>, steps: seq<Step>, k: nat, j: nat)
    requires IsRun(ns, steps) && k <= |steps| && j < |ns[k].transmissions|
    ensures var n := ns[k];
            var t := n.transmissions[j];
            && t.uid < |n.accepted|
            && (n.accepted[t.uid].timing == 0 ==>
                  t.at >= n.accepted[t.uid].registration + 1000 * Cube(Fails(n.transmissions[..j], t.uid)))
  {
    RunsKeep(ns, steps, k);
    assert BackedOff(ns[k], j);
  }

  lemma SameUid(q: seq<Packet>, i: nat, j: nat)
    requires Ordered(q) && i < |q| && j < |q| && q[i].uid == q[j].uid
    ensures i == j
  {}

  /** A clean-up that leaves a packet failed has counted at least one attempt. */
  lemma CleanUpProgress(q: seq<Packet>, now: int, i: nat, p: Packet)
    requires Ordered(q) && Settle(q, now).Settled? && i < |q|
    requires p in Settle(q, now).kept && p.uid == q[i].uid && p.state == FAIL
    ensures p.attempts >= q[i].attempts + 1
  {
    var k := KeptFrom(q, now, p);
    SameUid(q, i, k);
  }

  /** An update that leaves a packet failed has used up at least one of its attempts. */
  lemma Progress(n: Node, slots: seq<Slot>, now: int, m: Node, i: nat, j: nat)
    requires Inv(n) && |slots| == |n.queue| && Update(n, slots, now) == Some(m)
    requires i < |n.queue| && j < |m.queue| && m.queue[j].uid == n.queue[i].uid
    requires m.queue[j].state == FAIL
    ensures m.queue[j].attempts >= n.queue[i].attempts + 1
  {
    var t := TransmitUpTo(n, slots, |n.queue|);
    TransmitAllKeeps(n, slots, |n.queue|);
    TransmitFrame(n, slots, |n.queue|, i);
    CleanUpProgress(t.queue, now, i, m.queue[j]);
  }

  /** Sending changes nothing of a packet but its state, and that only in the packet's own turn. */
  lemma {:induction false} TransmitFrame(n: Node, slots: seq<Slot>, k: nat, i: nat)
    requires k <= |n.queue| && k <= |slots| && i < |n.queue|
    ensures var t := TransmitUpTo(n, slots, k);
            && t.queue[i] == n.queue[i].(state := t.queue[i].state)
            && (k <= i ==> t.queue[i] == n.queue[i])
            && (t.queue[i].state == n.queue[i].state || t.queue[i].state in {ACK, BUSY, FAIL})
            && (i < k && n.queue[i].state != 0 && Due(n.queue[i], slots[i].now) ==>
                  t.queue[i].state in {ACK, BUSY, FAIL})
    decreases k
  {
    if k == 0 {
    } else {
      TransmitFrame(n, slots, k - 1, i);
      TurnFrame(TransmitUpTo(n, slots, k - 1), k - 1, slots[k - 1], i);
    }
  }

  lemma TurnFrame(n: Node, k: nat, slot: Slot, i: nat)
    requires k < |n.queue| && i < |n.queue|
    ensures var m := TransmitAt(n, k, slot);
            && m.queue[i] == n.queue[i].(state := m.queue[i].state)
            && (i != k ==> m.queue[i] == n.queue[i])
            && (m.queue[i].state == n.queue[i].state || m.queue[i].state in {ACK, BUSY, FAIL})
            && (i == k && n.queue[i].state != 0 && Due(n.queue[i], slot.now) ==> m.queue[i].state in {ACK, BUSY, FAIL})
  {
    SendStringCodes(Arrived(n.port, slot.before), n.queue[k].message, slot);
  }

  /** A one-shot packet that is fresh, or whose last `send_string` returned FAIL, with that many attempts counted. */
  predicate IsUnanswered(p: Packet, attempts: nat) {
    p.timing == 0 && if p.state == FAIL then p.attempts >= attempts else p.state == TO_BE_SENT && attempts == 0
  }

  predicate Unanswered(n: Node, u: nat, attempts: nat) {
    exists i :: 0 <= i < |n.queue| && n.queue[i].uid == u && IsUnanswered(n.queue[i], attempts)
  }

  predicate AllUnanswered(ns: seq<Node>, u: nat) {
    forall n :: n in ns ==> Unanswered(n, u, 0)
  }

  /** No clock reading of the step is before the time at which the packet was registered. */
  predicate ClockRuns(n: Node, s: Step, u: nat) {
    s.DoUpdate? && u < |n.accepted| ==>
      forall i :: 0 <= i < |s.slots| ==> s.slots[i].now >= n.accepted[u].registration
  }

  function Updates(steps: seq<Step>): nat {
    if |steps| == 0 then 0 else Updates(steps[..|steps| - 1]) + if steps[|steps| - 1].DoUpdate? then 1 else 0
  }

  lemma QueueGrows(n: Node, s: Step, m: Node)
    requires Next(n, s, m) && !s.DoUpdate?
    ensures |n.queue| <= |m.queue| && forall i :: 0 <= i < |n.queue| ==> m.queue[i] == n.queue[i]
  {}

  lemma CleanUpNeverFreshens(q: seq<Packet>, now: int, i: nat, p: Packet)
    requires Ordered(q) && Settle(q, now).Settled? && i < |q| && q[i].timing == 0 && q[i].state != TO_BE_SENT
    requires p in Settle(q, now).kept && p.uid == q[i].uid
    ensures p.state != TO_BE_SENT
  {
    var k := KeptFrom(q, now, p);
    SameUid(q, i, k);
  }

  lemma FreshIsDue(n: Node, i: nat, now: int)
    requires Tracked(n) && i < |n.queue| && n.queue[i].timing == 0 && n.queue[i].state == TO_BE_SENT
    requires now >= n.queue[i].registration
    ensures Due(n.queue[i], now)
  {}

  /** No one-shot packet that was there before an update is fresh after it. */
  lemma UpdateLeavesNoneFresh(n: Node, slots: seq<Slot>, now: int, m: Node, i: nat, j: nat)
    requires Inv(n) && |slots| == |n.queue| && Update(n, slots, now) == Some(m)
    requires i < |n.queue| && j < |m.queue| && m.queue[j].uid == n.queue[i].uid && n.queue[i].timing == 0
    requires n.queue[i].state == TO_BE_SENT ==> slots[i].now >= n.queue[i].registration
    ensures m.queue[j].state != TO_BE_SENT
  {
    if n.queue[i].state == TO_BE_SENT { FreshIsDue(n, i, slots[i].now); }
    TransmitFrame(n, slots, |n.queue|, i);
    TransmitAllKeeps(n, slots, |n.queue|);
    CleanUpNeverFreshens(TransmitUpTo(n, slots, |n.queue|).queue, now, i, m.queue[j]);
  }

  lemma StepUnanswered(n: Node, s: Step, m: Node, u: nat, attempts: nat)
    requires Inv(n) && Next(n, s, m) && Unanswered(n, u, attempts) && Unanswered(m, u, 0) && ClockRuns(n, s, u)
    ensures Unanswered(m, u, attempts + if s.DoUpdate? then 1 else 0)
  {
    var i :| 0 <= i < |n.queue| && n.queue[i].uid == u && IsUnanswered(n.queue[i], attempts);
    var j :| 0 <= j < |m.queue| && m.queue[j].uid == u && IsUnanswered(m.queue[j], 0);
    if s.DoUpdate? {
      UpdateLeavesNoneFresh(n, s.slots, s.at, m, i, j);
      Progress(n, s.slots, s.at, m, i, j);
    } else {
      NextKeeps(n, s, m);
      QueueGrows(n, s, m);
      SameUid(m.queue, i, j);
    }
  }

  lemma LinkUnanswered(ns: seq<Node>, steps: seq<Step>, u: nat, k: nat, attempts: nat)
    requires Linked(ns, steps) && Inv(ns[0]) && AllUnanswered(ns, u) && k < |steps| && Unanswered(ns[k], u, attempts)
    requires ClockRuns(ns[k], steps[k], u)
    ensures Unanswered(ns[k + 1], u, attempts + if steps[k].DoUpdate? then 1 else 0)
  {
    LinkedKeeps(ns, steps, k);
    assert ns[k + 1] in ns;
    StepUnanswered(ns[k], steps[k], ns[k + 1], u, attempts);
  }

  /** A packet that stays unanswered through a stretch of a run has an attempt counted for every update in it. */
  lemma {:induction false} AttemptsCountUpdates(ns: seq<Node>, steps: seq<Step>, u: nat, k: nat)
    requires Linked(ns, steps) && Inv(ns[0]) && AllUnanswered(ns, u) && k <= |steps|
    requires forall i :: 0 <= i < |steps| ==> ClockRuns(ns[i], steps[i], u)
    ensures Unanswered(ns[k], u, Updates(steps[..k]))
    decreases k
  {
    hide Inv;
    hide Next;
    hide ClockRuns;
    hide Unanswered;
    if k == 0 {
      assert ns[0] in ns;
    } else {
      AttemptsCountUpdates(ns, steps, u, k - 1);
      LinkUnanswered(ns, steps, u, k - 1, Updates(steps[..k - 1]));
      assert steps[..k][..k - 1] == steps[..k - 1];
    }
  }

  /** However the clock advances, an unanswered packet leaves the queue by its MAX_ATTEMPTS + 1st update. */
  lemma UnansweredBound(ns: seq<Node>, steps: seq<Step>, u: nat)
    requires Linked(ns, steps) && Inv(ns[0]) && AllUnanswered(ns, u)
    requires forall i :: 0 <= i < |steps| ==> ClockRuns(ns[i], steps[i], u)
    ensures Updates(steps) <= MAX_ATTEMPTS
  {
    AttemptsCountUpdates(ns, steps, u, |steps|);
    LinkedKeeps(ns, steps, |steps|);
    assert steps[..|steps|] == steps;
    assert Unanswered(ns[|steps|], u, Updates(steps));
  }

  // ----- Where the code falls short of its documentation -----

  /** The packet has no content, and the deletions behind it take it past its attempts. */
  predicate IsFatal(q: seq<Packet>, i: nat, now: int)
    requires i < |q|
  {
    && Settle(q[i + 1..], now).Settled?
    && q[i].state == FAIL && |q[i].message.payload| == 0
    && q[i].attempts + 1 + DeletedBehind(q, i, now) > MAX_ATTEMPTS
  }

  /** `update` raises exactly when some packet without content runs out of attempts. */
  lemma {:induction false} RaisesExactly(q: seq<Packet>, now: int)
    ensures Settle(q, now).Faulted? <==> exists i :: 0 <= i < |q| && IsFatal(q, i, now)
    decreases |q|
  {
    if |q| == 0 {
    } else {
      RaisesExactly(q[1..], now);
      forall i | 0 <= i < |q| - 1 ensures IsFatal(q, i + 1, now) == IsFatal(q[1..], i, now) {
        assert q[1..][i + 1..] == q[i + 2..];
      }
      if Settle(q, now).Faulted? {
        if Settle(q[1..], now).Settled? {
          assert IsFatal(q, 0, now);
        } else {
          var i :| 0 <= i < |q[1..]| && IsFatal(q[1..], i, now);
          assert IsFatal(q, i + 1, now);
        }
      }
      if i :| 0 <= i < |q| && IsFatal(q, i, now) {
        if i > 0 { assert IsFatal(q[1..], i - 1, now); }
      }
    }
  }

  /** So it never does as long as every queued packet has content, whatever the environment does. */
  lemma ContentNeverRaises(n: Node, slots: seq<Slot>, now: int)
    requires |slots| == |n.queue|
    requires forall i :: 0 <= i < |n.queue| ==> |n.queue[i].message.payload| > 0
    ensures Update(n, slots, now).Some?
  {
    var q := TransmitUpTo(n, slots, |n.queue|).queue;
    forall i | 0 <= i < |q| ensures |q[i].message.payload| > 0 { TransmitFrame(n, slots, |n.queue|, i); }
    RaisesExactly(q, now);
  }

  lemma {:induction false} AllAcknowledged(q: seq<Packet>, now: int)
    requires forall i :: 0 <= i < |q| ==> q[i].state == ACK && q[i].timing == 0
    ensures Settle(q, now).Settled? && Settle(q, now).kept == [] && |Settle(q, now).walks| == |q| + 1
    decreases |q|
  {
    if |q| == 0 {
    } else {
      AllAcknowledged(q[1..], now);
    }
  }

  /**
   * Attempts count walks, not transmissions: a packet is reported lost after its first failed transmission
   * when MAX_ATTEMPTS packets behind it are acknowledged in the same update.
   */
  lemma LostAfterOneTry(p: Packet, behind: seq<Packet>, now: int)
    requires p.state == FAIL && p.timing == 0 && |p.message.payload| > 0 && !AcquiresId(p)
    requires forall i :: 0 <= i < |behind| ==> behind[i].state == ACK && behind[i].timing == 0
    ensures var s := Settle([p] + behind, now);
            && s.Settled?
            && (p.attempts + |behind| >= MAX_ATTEMPTS <==> Exhausted(p.uid, p.message.recipient) in Flatten(s.walks))
            && s.kept == if p.attempts + |behind| >= MAX_ATTEMPTS then []
                         else [p.(attempts := p.attempts + |behind| + 1)]
  {
    var q := [p] + behind;
    assert q[1..] == behind;
    AllAcknowledged(behind, now);
    var t := Settle(behind, now);
    PlaceEvents(p, t.kept, t.walks, now, Exhausted(p.uid, p.message.recipient));
    if Exhausted(p.uid, p.message.recipient) in Flatten(t.walks) {
      var i := EventFrom(behind, now, Exhausted(p.uid, p.message.recipient));
    }
  }

  /** The header of a request that gives none, as the two switches say. */
  function DefaultHeader(acknowledge: bool, senderInfo: bool): byte {
    if acknowledge && senderInfo then 6 else if acknowledge then 4 else if senderInfo then 2 else 0
  }

  /**
   * The answer of `dispatch`: the index of the new last packet, which is never the FAIL code, or FAIL. The new packet
   * is the requested one, registered at the time of the call; a refusal for a full queue is reported.
   */
  lemma DispatchAnswer(n: Node, r: Request, now: int)
    requires Inv(n)
    ensures var (m, answer) := Dispatch(n, r, now);
            if |r.payload| < 50 && |n.queue| <= 128 then
              && answer == |n.queue| < 256 && |m.queue| == |n.queue| + 1 && m.queue[..answer] == n.queue
              && m.accepted == n.accepted + [m.queue[answer]]
              && var p := m.queue[answer];
                 && p.uid == |n.accepted| && p.text == r.text
                 && p.message.recipient == r.recipient && p.message.payload == r.payload
                 && p.message.header == (if r.header.Some? then r.header.value
                                         else DefaultHeader(n.acknowledge, n.senderInfo))
                 && p.message.sender == (if r.forcedSender.Some? then r.forcedSender.value else n.id)
                 && p.timing == (if r.timing.Some? then r.timing.value else 0)
                 && p.registration == now && p.state == 74 && p.attempts == 0
                 && m == n.(queue := m.queue, accepted := m.accepted)
            else
              answer == 256 && m == if |r.payload| >= 50 then n else n.(events := n.events + [Overflow])
  {}

  /** After an update nothing is left acknowledged, and a packet removed as acknowledged had its ACK. */
  lemma AcknowledgedIsGone(ns: seq<Node>, steps: seq<Step>, k: nat, u: nat)
    requires IsRun(ns, steps) && k <= |steps| && Acknowledged(u) in ns[k].events
    ensures u < |ns[k].accepted| && u !in Uids(ns[k].queue) && Sent(ns[k], u, ACK)
  {
    RunsKeep(ns, steps, k);
    assert EventFits(ns[k].accepted[u], Acknowledged(u));
    StateFate(ns[k], u);
    assert multiset(ns[k].events)[Acknowledged(u)] > 0;
  }
}
