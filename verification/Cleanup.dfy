/**
 * The clean-up half of `update`: the queue is walked from the front until something is deleted, then walked
 * again from the front, until a walk deletes nothing. Every walk counts another attempt against the failed
 * packets it passes.
 */
module Cleanup {
  import opened PjonConstants
  import opened Frames

  /** An outgoing packet. Its uid stands for the identity of the queued object. */
  datatype Packet = Packet(uid: nat, message: Message, text: bool, timing: nat,
                           registration: int, state: int, attempts: nat)

  /** What the application can observe of a clean-up. */
  datatype Event =
    | Acknowledged(uid: nat)                 // removed after ACK
    | Exhausted(uid: nat, device: byte)      // removed after a CONNECTION_LOST call
    | GivenUp(uid: nat, device: byte)        // rescheduled after a CONNECTION_LOST call
    | Adopted(uid: nat, device: byte)        // removed as ACQUIRE_ID; the device takes the packet's address
    | Overflow                               // PACKETS_BUFFER_FULL call of a refused dispatch

  predicate Removes(e: Event) {
    e.Acknowledged? || e.Exhausted? || e.Adopted?
  }

  function Rescheduled(p: Packet, now: int): Packet {
    p.(attempts := 0, registration := now, state := TO_BE_SENT)
  }

  /** An integer payload starting with 63; a character never equals an integer. */
  predicate AcquiresId(p: Packet)
    requires |p.message.payload| > 0
  {
    !p.text && p.message.payload[0] == ACQUIRE_ID
  }

  // ----- One walk, as the code takes it -----

  /** A fault is the IndexError of looking at the content of a packet that has none. */
  datatype Visit = Stay(packet: Packet, events: seq<Event>) | Leave(event: Event) | Fault(packet: Packet)

  function VisitPacket(p: Packet, now: int): Visit {
    if p.state == ACK then
      if p.timing == 0 then Leave(Acknowledged(p.uid)) else Stay(Rescheduled(p, now), [])
    else if p.state == FAIL then
      if p.attempts + 1 <= MAX_ATTEMPTS then Stay(p.(attempts := p.attempts + 1), [])
      else if |p.message.payload| == 0 then Fault(p.(attempts := p.attempts + 1))
      else if AcquiresId(p) then Leave(Adopted(p.uid, p.message.recipient))
      else if p.timing == 0 then Leave(Exhausted(p.uid, p.message.recipient))
      else Stay(Rescheduled(p, now), [GivenUp(p.uid, p.message.recipient)])
    else Stay(p, [])
  }

  datatype Walk =
    | Walked(queue: seq<Packet>, events: seq<Event>, deleted: bool)
    | WalkFault(queue: seq<Packet>, events: seq<Event>)

  function WalkQueue(q: seq<Packet>, now: int): (w: Walk)
    ensures |w.queue| == if w.Walked? && w.deleted then |q| - 1 else |q|
  {
    if |q| == 0 then Walked([], [], false)
    else match VisitPacket(q[0], now)
      case Fault(p) => WalkFault([p] + q[1..], [])
      case Leave(e) => Walked(q[1..], [e], true)
      case Stay(p, es) =>
        match WalkQueue(q[1..], now)
        case WalkFault(rest, more) => WalkFault([p] + rest, es + more)
        case Walked(rest, more, deleted) => Walked([p] + rest, es + more, deleted)
  }

  /** Walking until nothing is deleted, or until a walk faults: the queue left behind and the events on the way. */
  function Loop(q: seq<Packet>, now: int): (seq<Packet>, seq<Event>)
    decreases |q|
  {
    var w := WalkQueue(q, now);
    if w.Walked? && w.deleted then (Loop(w.queue, now).0, w.events + Loop(w.queue, now).1) else (w.queue, w.events)
  }

  // ----- The whole clean-up in one pass from the right -----

  /** The packets that remain, and the events of each walk; every walk but the last deletes one packet. */
  datatype Settled = Settled(kept: seq<Packet>, walks: seq<seq<Event>>) | Faulted

  function Settle(q: seq<Packet>, now: int): (s: Settled)
    ensures s.Settled? ==> |s.walks| > 0
  {
    if |q| == 0 then Settled([], [[]])
    else match Settle(q[1..], now)
      case Faulted => Faulted
      case Settled(kept, walks) => Place(q[0], kept, walks, now)
  }

  /** The walk in which a failed packet exceeds its attempts, if there are that many walks. */
  function LastWalk(p: Packet): nat {
    if p.attempts < MAX_ATTEMPTS then MAX_ATTEMPTS - p.attempts else 0
  }

  /** The event of a packet that has run out of attempts. */
  function Ending(p: Packet): Event
    requires |p.message.payload| > 0
  {
    if AcquiresId(p) then Adopted(p.uid, p.message.recipient)
    else if p.timing == 0 then Exhausted(p.uid, p.message.recipient)
    else GivenUp(p.uid, p.message.recipient)
  }

  /** A deletion makes a walk of its own. */
  function NewWalk(walks: seq<seq<Event>>, k: nat, e: Event): seq<seq<Event>>
    requires k <= |walks|
  {
    walks[..k] + [[e]] + walks[k..]
  }

  /** Any other event comes before those of the packets behind. */
  function InWalk(walks: seq<seq<Event>>, k: nat, e: Event): seq<seq<Event>>
    requires k < |walks|
  {
    walks[k := [e] + walks[k]]
  }

  lemma WalksShift(w: seq<Event>, walks: seq<seq<Event>>, k: nat, e: Event)
    ensures k <= |walks| ==> NewWalk([w] + walks, k + 1, e) == [w] + NewWalk(walks, k, e)
    ensures k < |walks| ==> InWalk([w] + walks, k + 1, e) == [w] + InWalk(walks, k, e)
    ensures NewWalk(walks, 0, e) == [[e]] + walks
    ensures InWalk([w] + walks, 0, e) == [[e] + w] + walks
  {}

  datatype Fate =
    | Remains(packet: Packet)
    | Ends(event: Event, walk: nat)
    | Restarts(packet: Packet, event: Event, walk: nat)
    | Faults

  /** What becomes of a packet that up to `visits` walks reach: one more than the deletions behind it. */
  function FateOf(p: Packet, visits: nat, now: int): (f: Fate)
    ensures f.Remains? || f.Restarts? ==> f.packet.uid == p.uid
    ensures f.Ends? ==> Removes(f.event) && f.event.uid == p.uid && (visits > 0 ==> f.walk < visits)
    ensures f.Restarts? ==> !Removes(f.event) && (visits > 0 ==> f.walk < visits)
  {
    if p.state == ACK then
      if p.timing == 0 then Ends(Acknowledged(p.uid), 0) else Remains(Rescheduled(p, now))
    else if p.state == FAIL then
      if p.attempts + visits <= MAX_ATTEMPTS then Remains(p.(attempts := p.attempts + visits))
      else if |p.message.payload| == 0 then Faults
      else if Removes(Ending(p)) then Ends(Ending(p), LastWalk(p))
      else Restarts(Rescheduled(p, now), Ending(p), LastWalk(p))
    else Remains(p)
  }

  function Place(p: Packet, kept: seq<Packet>, walks: seq<seq<Event>>, now: int): (s: Settled)
    requires |walks| > 0
    ensures s.Settled? ==> |s.walks| > 0
  {
    match FateOf(p, |walks|, now)
    case Remains(p') => Settled([p'] + kept, walks)
    case Ends(e, k) => Settled(kept, NewWalk(walks, k, e))
    case Restarts(p', e, k) => Settled([p'] + kept, InWalk(walks, k, e))
    case Faults => Faulted
  }

  // ----- The restarting walks and the single pass agree -----

  function After(events: seq<Event>, s: Settled): Settled {
    match s
    case Faulted => Faulted
    case Settled(kept, walks) => Settled(kept, [events] + walks)
  }

  function Later(f: Fate): Fate {
    match f
    case Ends(e, k) => Ends(e, k + 1)
    case Restarts(p, e, k) => Restarts(p, e, k + 1)
    case _ => f
  }

  /** A packet that stays put in one walk has one walk less before it. */
  lemma FateAfter(p: Packet, visits: nat, now: int)
    requires visits > 0 && VisitPacket(p, now).Stay?
    ensures var v := VisitPacket(p, now);
            if |v.events| == 0 then FateOf(p, visits + 1, now) == Later(FateOf(v.packet, visits, now))
            else |v.events| == 1 && FateOf(p, visits + 1, now) == Restarts(v.packet, v.events[0], 0)
                 && FateOf(v.packet, visits, now) == Remains(v.packet)
  {}

  lemma PlaceAfter(p: Packet, kept: seq<Packet>, e: seq<Event>, walks: seq<seq<Event>>, now: int)
    requires |walks| > 0 && VisitPacket(p, now).Stay?
    ensures var v := VisitPacket(p, now);
            Place(p, kept, [e] + walks, now) == After(v.events + e, Place(v.packet, kept, walks, now))
  {
    var v := VisitPacket(p, now);
    FateAfter(p, |walks|, now);
    if |v.events| > 0 {
      WalksShift(e, walks, 0, v.events[0]);
      assert v.events == [v.events[0]];
    } else {
      assert [] + e == e;
      match FateOf(v.packet, |walks|, now)
      case Ends(g, k) => WalksShift(e, walks, k, g);
      case Restarts(_, g, k) => WalksShift(e, walks, k, g);
      case _ =>
    }
  }

  lemma PlaceLast(p: Packet, kept: seq<Packet>, e: seq<Event>, now: int)
    requires VisitPacket(p, now).Stay?
    ensures var v := VisitPacket(p, now);
            Place(p, kept, [e], now) == Settled([v.packet] + kept, [v.events + e])
  {
    assert [] + e == e;
    if |p.message.payload| > 0 {
      WalksShift(e, [], 0, Ending(p));
      assert [e] + [] == [e] && [[Ending(p)] + e] + [] == [[Ending(p)] + e];
    }
  }

  lemma LeaveFirst(p: Packet, kept: seq<Packet>, walks: seq<seq<Event>>, now: int)
    requires |walks| > 0 && VisitPacket(p, now).Leave?
    ensures Place(p, kept, walks, now) == Settled(kept, [[VisitPacket(p, now).event]] + walks)
  {
    WalksShift([], walks, 0, VisitPacket(p, now).event);
  }

  /** A walk that deletes a packet is the first walk of the settlement; one that deletes none is all of it. */
  lemma {:induction false} WalkSettles(q: seq<Packet>, now: int)
    ensures match WalkQueue(q, now)
            case WalkFault(_, _) => Settle(q, now) == Faulted
            case Walked(rest, events, deleted) =>
              && (deleted ==> |rest| == |q| - 1 && Settle(q, now) == After(events, Settle(rest, now)))
              && (!deleted ==> |rest| == |q| && Settle(q, now) == Settled(rest, [events]))
    decreases |q|
  {
    if |q| == 0 {
    } else {
      WalkSettles(q[1..], now);
      var v := VisitPacket(q[0], now);
      match v
      case Fault(_) =>
      case Leave(e) =>
        match Settle(q[1..], now) {
          case Faulted =>
          case Settled(kept, walks) => LeaveFirst(q[0], kept, walks, now);
        }
      case Stay(p, es) =>
        match WalkQueue(q[1..], now)
        case WalkFault(_, _) =>
        case Walked(rest, more, deleted) =>
          if deleted {
            assert ([p] + rest)[1..] == rest;
            match Settle(rest, now)
            case Faulted =>
            case Settled(kept, walks) => PlaceAfter(q[0], kept, more, walks, now);
          } else {
            PlaceLast(q[0], rest, more, now);
          }
    }
  }

  // ----- What a settlement keeps and removes -----

  /** The queue is in dispatch order, without repetition. */
  predicate Ordered(q: seq<Packet>) {
    forall i, j :: 0 <= i < j < |q| ==> q[i].uid < q[j].uid
  }

  function Flatten(walks: seq<seq<Event>>): seq<Event> {
    if |walks| == 0 then [] else walks[0] + Flatten(walks[1..])
  }

  function Uids(q: seq<Packet>): (u: multiset<nat>) {
    if |q| == 0 then multiset{} else multiset{q[0].uid} + Uids(q[1..])
  }

  /** The uids of the packets that events remove from the queue. */
  function Gone(events: seq<Event>): multiset<nat> {
    if |events| == 0 then multiset{}
    else (if Removes(events[0]) then multiset{events[0].uid} else multiset{}) + Gone(events[1..])
  }

  lemma {:induction false} GoneAppend(a: seq<Event>, b: seq<Event>)
    ensures Gone(a + b) == Gone(a) + Gone(b)
    decreases |a|
  {
    if |a| == 0 {
      assert a + b == b;
    } else {
      assert (a + b)[1..] == a[1..] + b;
      GoneAppend(a[1..], b);
    }
  }

  lemma {:induction false} FlattenAppend(a: seq<seq<Event>>, b: seq<seq<Event>>)
    ensures Flatten(a + b) == Flatten(a) + Flatten(b)
    decreases |a|
  {
    if |a| == 0 {
      assert a + b == b;
    } else {
      assert (a + b)[1..] == a[1..] + b;
      FlattenAppend(a[1..], b);
    }
  }

  lemma FlattenSplit(walks: seq<seq<Event>>, k: nat)
    requires k <= |walks|
    ensures Flatten(walks) == Flatten(walks[..k]) + Flatten(walks[k..])
  {
    assert walks == walks[..k] + walks[k..];
    FlattenAppend(walks[..k], walks[k..]);
  }

  lemma FlattenNewWalk(walks: seq<seq<Event>>, k: nat, e: Event)
    requires k <= |walks|
    ensures Flatten(NewWalk(walks, k, e)) == Flatten(walks[..k]) + ([e] + Flatten(walks[k..]))
  {
    var right := [[e]] + walks[k..];
    assert NewWalk(walks, k, e) == walks[..k] + right;
    assert right[1..] == walks[k..];
    FlattenAppend(walks[..k], right);
  }

  lemma FlattenInWalk(walks: seq<seq<Event>>, k: nat, e: Event)
    requires k < |walks|
    ensures Flatten(InWalk(walks, k, e)) == Flatten(walks[..k]) + ([e] + Flatten(walks[k..]))
  {
    var right := [[e] + walks[k]] + walks[k + 1..];
    assert InWalk(walks, k, e) == walks[..k] + right;
    FlattenAppend(walks[..k], right);
    assert right[1..] == walks[k + 1..] == walks[k..][1..];
    assert ([e] + walks[k]) + Flatten(walks[k + 1..]) == [e] + (walks[k] + Flatten(walks[k + 1..]));
  }

  lemma GonePlaced(l: seq<Event>, es: seq<Event>, r: seq<Event>)
    ensures Gone(l + (es + r)) == Gone(l + r) + Gone(es)
  {
    GoneAppend(l, es + r);
    GoneAppend(es, r);
    GoneAppend(l, r);
  }

  lemma GoneNewWalk(walks: seq<seq<Event>>, k: nat, e: Event)
    requires k <= |walks| && Removes(e)
    ensures Gone(Flatten(NewWalk(walks, k, e))) == multiset{e.uid} + Gone(Flatten(walks))
  {
    FlattenSplit(walks, k);
    FlattenNewWalk(walks, k, e);
    GonePlaced(Flatten(walks[..k]), [e], Flatten(walks[k..]));
    assert Gone([e]) == multiset{e.uid} + Gone([]);
  }

  lemma GoneInWalk(walks: seq<seq<Event>>, k: nat, e: Event)
    requires k < |walks| && !Removes(e)
    ensures Gone(Flatten(InWalk(walks, k, e))) == Gone(Flatten(walks))
  {
    FlattenSplit(walks, k);
    FlattenInWalk(walks, k, e);
    GonePlaced(Flatten(walks[..k]), [e], Flatten(walks[k..]));
    assert Gone([e]) == Gone([]);
  }

  lemma UidsFront(p: Packet, kept: seq<Packet>)
    ensures Uids([p] + kept) == multiset{p.uid} + Uids(kept)
  {}

  lemma PlaceConserves(p: Packet, kept: seq<Packet>, walks: seq<seq<Event>>, now: int)
    requires |walks| > 0 && Place(p, kept, walks, now).Settled?
    ensures var s := Place(p, kept, walks, now);
            && Uids(s.kept) + Gone(Flatten(s.walks)) == multiset{p.uid} + Uids(kept) + Gone(Flatten(walks))
            && |s.kept| + |s.walks| == |kept| + |walks| + 1
  {
    match FateOf(p, |walks|, now)
    case Remains(p') => UidsFront(p', kept);
    case Ends(e, k) => GoneNewWalk(walks, k, e);
    case Restarts(p', e, k) => UidsFront(p', kept); GoneInWalk(walks, k, e);
  }

  /** Nothing is lost and nothing is removed twice; all walks but the last delete exactly one packet. */
  lemma {:induction false} SettleConserves(q: seq<Packet>, now: int)
    requires Settle(q, now).Settled?
    ensures var s := Settle(q, now);
            && Uids(s.kept) + Gone(Flatten(s.walks)) == Uids(q)
            && |s.kept| + |s.walks| == |q| + 1
    decreases |q|
  {
    if |q| == 0 {
      assert Flatten([[]]) == [];
    } else {
      var s := Settle(q[1..], now);
      SettleConserves(q[1..], now);
      PlaceConserves(q[0], s.kept, s.walks, now);
    }
  }

  /** Where the settlement exists, the loop of walks ends in it. */
  lemma {:induction false} LoopSettles(q: seq<Packet>, now: int)
    requires Settle(q, now).Settled?
    ensures Loop(q, now) == (Settle(q, now).kept, Flatten(Settle(q, now).walks))
    decreases |q|
  {
    WalkSettles(q, now);
    var w := WalkQueue(q, now);
    if w.deleted {
      LoopSettles(w.queue, now);
      assert ([w.events] + Settle(w.queue, now).walks)[1..] == Settle(w.queue, now).walks;
    } else {
      assert [w.events][1..] == [] && w.events + [] == w.events;
    }
  }

  lemma VisitKeepsUid(p: Packet, now: int)
    ensures var v := VisitPacket(p, now);
            && (v.Stay? ==> v.packet.uid == p.uid && Gone(v.events) == multiset{})
            && (v.Fault? ==> v.packet.uid == p.uid)
            && (v.Leave? ==> Gone([v.event]) == multiset{p.uid})
  {
    var v := VisitPacket(p, now);
    if v.Leave? { assert Gone([v.event]) == multiset{v.event.uid} + Gone([]); }
  }

  lemma {:induction false} WalkConserves(q: seq<Packet>, now: int)
    ensures Uids(WalkQueue(q, now).queue) + Gone(WalkQueue(q, now).events) == Uids(q)
    decreases |q|
  {
    if |q| == 0 {
    } else {
      WalkConserves(q[1..], now);
      VisitKeepsUid(q[0], now);
      var v, r := VisitPacket(q[0], now), WalkQueue(q[1..], now);
      hide VisitPacket;
      if v.Stay? {
        UidsFront(v.packet, r.queue);
        GoneAppend(v.events, r.events);
      } else if v.Fault? {
        UidsFront(v.packet, q[1..]);
      }
    }
  }

  /** The packets of kept stand as in q, without the one at position k if one is missing. */
  predicate Stands(q: seq<Packet>, kept: seq<Packet>, k: nat) {
    && (|kept| == |q| || |kept| + 1 == |q|)
    && forall i :: 0 <= i < |kept| ==> kept[i].uid == q[if |kept| < |q| && i >= k then i + 1 else i].uid
  }

  lemma StandsBehind(q: seq<Packet>, p: Packet, kept: seq<Packet>, k: nat)
    requires |q| > 0 && p.uid == q[0].uid && Stands(q[1..], kept, k)
    ensures Stands(q, [p] + kept, k + 1)
  {
    var all := [p] + kept;
    forall i | 0 <= i < |all| ensures all[i].uid == q[if |all| < |q| && i >= k + 1 then i + 1 else i].uid {
      if i > 0 { assert all[i] == kept[i - 1]; }
    }
  }

  lemma {:induction false} WalkPlaces(q: seq<Packet>, now: int) returns (k: nat)
    ensures Stands(q, WalkQueue(q, now).queue, k)
    decreases |q|
  {
    k := 0;
    if |q| == 0 {
    } else {
      VisitKeepsUid(q[0], now);
      var v := VisitPacket(q[0], now);
      hide VisitPacket;
      if v.Stay? {
        var j := WalkPlaces(q[1..], now);
        hide Stands;
        k := j + 1;
        StandsBehind(q, v.packet, WalkQueue(q[1..], now).queue, j);
      }
    }
  }

  lemma WalkOrdered(q: seq<Packet>, now: int)
    requires Ordered(q)
    ensures Ordered(WalkQueue(q, now).queue)
  {
    var k := WalkPlaces(q, now);
  }

  /** Even a clean-up that raises loses no packet, removes none twice, and keeps the order. */
  lemma {:induction false} LoopConserves(q: seq<Packet>, now: int)
    ensures var (kept, events) := Loop(q, now);
            Uids(kept) + Gone(events) == Uids(q) && (Ordered(q) ==> Ordered(kept))
    decreases |q|
  {
    hide Ordered;
    hide Gone;
    hide Uids;
    WalkConserves(q, now);
    if Ordered(q) { WalkOrdered(q, now); }
    var w := WalkQueue(q, now);
    hide WalkQueue;
    if w.WalkFault? || !w.deleted {
    } else {
      LoopConserves(w.queue, now);
      GoneAppend(w.events, Loop(w.queue, now).1);
    }
  }

  // ----- Which packet meets which fate -----

  lemma PlaceEvents(p: Packet, kept: seq<Packet>, walks: seq<seq<Event>>, now: int, e: Event)
    requires |walks| > 0 && Place(p, kept, walks, now).Settled?
    ensures var f := FateOf(p, |walks|, now);
            e in Flatten(Place(p, kept, walks, now).walks)
            <==> e in Flatten(walks) || ((f.Ends? || f.Restarts?) && e == f.event)
  {
    match FateOf(p, |walks|, now)
    case Remains(p') =>
    case Ends(e, k) => FlattenSplit(walks, k); FlattenNewWalk(walks, k, e);
    case Restarts(p', e, k) => FlattenSplit(walks, k); FlattenInWalk(walks, k, e);
  }

  /** How many packets behind the i-th are deleted. */
  function DeletedBehind(q: seq<Packet>, i: nat, now: int): int
    requires i < |q|
  {
    match Settle(q[i + 1..], now)
    case Faulted => 0
    case Settled(kept, walks) => |walks| - 1
  }

  function FateAt(q: seq<Packet>, i: nat, now: int): Fate
    requires i < |q|
  {
    FateOf(q[i], DeletedBehind(q, i, now) + 1, now)
  }

  lemma FateShift(q: seq<Packet>, i: nat, now: int)
    requires 0 < i < |q|
    ensures FateAt(q, i, now) == FateAt(q[1..], i - 1, now)
  {
    assert q[1..][i..] == q[i + 1..];
  }

  /** Each packet meets the fate that its own attempts and the deletions behind it decide. */
  lemma {:induction false} EveryFate(q: seq<Packet>, now: int, i: nat)
    requires i < |q| && Settle(q, now).Settled?
    ensures var s, f := Settle(q, now), FateAt(q, i, now);
            && !f.Faults?
            && (f.Remains? || f.Restarts? ==> f.packet in s.kept)
            && (f.Ends? || f.Restarts? ==> f.event in Flatten(s.walks))
    decreases |q|
  {
    var t, f := Settle(q[1..], now), FateAt(q, i, now);
    if i == 0 {
    } else {
      FateShift(q, i, now);
      EveryFate(q[1..], now, i - 1);
    }
    if f.Ends? || f.Restarts? { PlaceEvents(q[0], t.kept, t.walks, now, f.event); }
  }

  /** Conversely every kept packet is the survival of a queued one. */
  lemma {:induction false} KeptFrom(q: seq<Packet>, now: int, p: Packet) returns (i: nat)
    requires Settle(q, now).Settled? && p in Settle(q, now).kept
    ensures i < |q|
    ensures var f := FateAt(q, i, now);
            (f.Remains? || f.Restarts?) && p == f.packet
    decreases |q|
  {
    i := 0;
    if p in Settle(q[1..], now).kept {
      var j := KeptFrom(q[1..], now, p);
      i := j + 1;
      FateShift(q, i, now);
    }
  }

  /** And every event is the end or the restart of a queued one. */
  lemma {:induction false} EventFrom(q: seq<Packet>, now: int, e: Event) returns (i: nat)
    requires Settle(q, now).Settled? && e in Flatten(Settle(q, now).walks)
    ensures i < |q|
    ensures var f := FateAt(q, i, now);
            (f.Ends? || f.Restarts?) && e == f.event
    decreases |q|
  {
    i := 0;
    if |q| == 0 {
    } else {
      var t := Settle(q[1..], now);
      PlaceEvents(q[0], t.kept, t.walks, now, e);
      if e in Flatten(t.walks) {
        var j := EventFrom(q[1..], now, e);
        i := j + 1;
        FateShift(q, i, now);
      }
    }
  }

  lemma FateLaw(p: Packet, visits: nat, now: int)
    ensures var f, anew := FateOf(p, visits, now), p.(attempts := 0, registration := now, state := 74);
            if p.state == 6 then
              if p.timing == 0 then f.Ends? && f.event == Acknowledged(p.uid) else f == Remains(anew)
            else if p.state != 256 then f == Remains(p)
            else if p.attempts + visits <= 125 then f == Remains(p.(attempts := p.attempts + visits))
            else if |p.message.payload| == 0 then f.Faults?
            else if !p.text && p.message.payload[0] == 63 then f.Ends? && f.event == Adopted(p.uid, p.message.recipient)
            else if p.timing == 0 then f.Ends? && f.event == Exhausted(p.uid, p.message.recipient)
            else f.Restarts? && f.packet == anew && f.event == GivenUp(p.uid, p.message.recipient)
  {}

  /**
   * What a clean-up does, packet by packet, in the numbers of the protocol: D packets behind the i-th are removed, and
   * with each of them the walks start again and count one more attempt against it.
   */
  lemma CleanUpLaw(q: seq<Packet>, now: int, i: nat)
    requires i < |q| && Settle(q, now).Settled?
    ensures var s, p, behind := Settle(q, now), q[i], Settle(q[i + 1..], now);
            && behind.Settled?
            && var d, events := |q| - (i + 1) - |behind.kept|, Flatten(s.walks);
               var lost := p.state == 256 && p.attempts + 1 + d > 125;
               var anew := p.(attempts := 0, registration := now, state := 74);
               && d >= 0
               && (p.state == 6 && p.timing == 0 ==> Acknowledged(p.uid) in events)
               && (p.state == 6 && p.timing > 0 ==> anew in s.kept)
               && (p.state == 256 && !lost ==> p.(attempts := p.attempts + 1 + d) in s.kept)
               && (lost ==>
                     && |p.message.payload| > 0
                     && if !p.text && p.message.payload[0] == 63 then Adopted(p.uid, p.message.recipient) in events
                        else if p.timing == 0 then Exhausted(p.uid, p.message.recipient) in events
                        else GivenUp(p.uid, p.message.recipient) in events && anew in s.kept)
               && (p.state != 6 && p.state != 256 ==> p in s.kept)
  {
    EveryFate(q, now, i);
    SettledBehind(q, now, i + 1);
    SettleConserves(q[i + 1..], now);
    var behind := Settle(q[i + 1..], now);
    var f := FateAt(q, i, now);
    assert f == FateOf(q[i], |behind.walks|, now);
    hide *;
    FateLaw(q[i], |behind.walks|, now);
  }

  lemma {:induction false} SettledBehind(q: seq<Packet>, now: int, i: nat)
    requires i <= |q| && Settle(q, now).Settled?
    ensures Settle(q[i..], now).Settled?
    decreases i
  {
    if i == 0 {
      assert q[0..] == q;
    } else {
      SettledBehind(q[1..], now, i - 1);
      assert q[1..][i - 1..] == q[i..];
    }
  }

  /** A kept packet that is to be sent anew was so before, or has a timing and is registered at the clean-up's clock. */
  lemma RescheduledAnew(q: seq<Packet>, now: int, p: Packet) returns (y: nat)
    requires Settle(q, now).Settled? && p in Settle(q, now).kept && p.state == 74
    ensures y < |q| && q[y].uid == p.uid
    ensures if q[y].state == 74 then p == q[y] else p.timing > 0 && p.registration == now && p.attempts == 0
    ensures p.message == q[y].message && p.timing == q[y].timing
  {
    y := KeptFrom(q, now, p);
    hide Settle;
  }

  /** A walk that raises stops at a packet without content whose count it has just taken past the limit. */
  lemma {:induction false} WalkFaultsAt(q: seq<Packet>, now: int) returns (i: nat)
    requires WalkQueue(q, now).WalkFault?
    ensures var w := WalkQueue(q, now);
            && i < |q| && q[i].state == 256 && q[i].attempts >= 125 && |q[i].message.payload| == 0
            && w.queue[i] == q[i].(attempts := q[i].attempts + 1) && w.queue[i + 1..] == q[i + 1..]
    decreases |q|
  {
    i := 0;
    var w := WalkQueue(q, now);
    match VisitPacket(q[0], now)
    case Fault(p) =>
      assert w.queue[1..] == q[1..];
    case Stay(p, es) =>
      var j := WalkFaultsAt(q[1..], now);
      i := j + 1;
      assert w.queue[1..] == WalkQueue(q[1..], now).queue;
      assert w.queue[i + 1..] == w.queue[1..][j + 1..];
      assert q[i + 1..] == q[1..][j + 1..];
    case Leave(_) =>
  }

  lemma {:induction false} SettleOrdered(q: seq<Packet>, now: int)
    requires Ordered(q) && Settle(q, now).Settled?
    ensures Ordered(Settle(q, now).kept)
    decreases |q|
  {
    if |q| == 0 {
    } else {
      var t := Settle(q[1..], now);
      SettleOrdered(q[1..], now);
      forall j | 0 <= j < |t.kept| ensures q[0].uid < t.kept[j].uid {
        var i := KeptFrom(q[1..], now, t.kept[j]);
      }
    }
  }
}
