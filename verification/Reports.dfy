/** The calls of the application's error function: which there are, for which packets, and in which order. */
module Reports {
  import opened PjonConstants
  import opened Frames
  import opened Cleanup
  import opened Nodes
  import opened Runs
  import opened Guarantees

  /** One call of the application's error function. */
  datatype ErrorCall = ErrorCall(code: int, data: ErrorData)
  datatype ErrorData = Device(id: byte) | Limit(packets: nat)

  function CallsOf(e: Event): seq<ErrorCall> {
    match e
    case Exhausted(_, d) => [ErrorCall(CONNECTION_LOST, Device(d))]
    case GivenUp(_, d) => [ErrorCall(CONNECTION_LOST, Device(d))]
    case Overflow => [ErrorCall(PACKETS_BUFFER_FULL, Limit(MAX_PACKETS))]
    case _ => []
  }

  function ErrorCalls(events: seq<Event>): seq<ErrorCall> {
    if |events| == 0 then [] else ErrorCalls(events[..|events| - 1]) + CallsOf(events[|events| - 1])
  }

  lemma ErrorCallsPush(events: seq<Event>, e: Event)
    ensures ErrorCalls(events + [e]) == ErrorCalls(events) + CallsOf(e)
  {
    assert (events + [e])[..|events|] == events;
  }

  // ----- Which calls there are -----

  predicate Loses(e: Event, d: byte) {
    (e.Exhausted? || e.GivenUp?) && e.device == d
  }

  /** How many packets to device d were given up so far, each time it happened. */
  function Losses(events: seq<Event>, d: byte): nat {
    if |events| == 0 then 0
    else Losses(events[..|events| - 1], d) + if Loses(events[|events| - 1], d) then 1 else 0
  }

  /** How many dispatches were refused for a full queue. */
  function Overflows(events: seq<Event>): nat {
    if |events| == 0 then 0
    else Overflows(events[..|events| - 1]) + if events[|events| - 1].Overflow? then 1 else 0
  }

  lemma CallsOfOne(e: Event, d: byte)
    ensures multiset(CallsOf(e))[ErrorCall(101, Device(d))] == if Loses(e, d) then 1 else 0
    ensures multiset(CallsOf(e))[ErrorCall(102, Limit(128))] == if e.Overflow? then 1 else 0
  {}

  /** Each loss makes one call with code 101 and the device, each overflow one with code 102 and the limit. */
  lemma {:induction false} CallsAreCounted(events: seq<Event>, d: byte)
    ensures multiset(ErrorCalls(events))[ErrorCall(101, Device(d))] == Losses(events, d)
    ensures multiset(ErrorCalls(events))[ErrorCall(102, Limit(128))] == Overflows(events)
    decreases |events|
  {
    hide CallsOf;
    hide Loses;
    if |events| == 0 {
    } else {
      CallsAreCounted(events[..|events| - 1], d);
      CallsOfOne(events[|events| - 1], d);
    }
  }

  /** And there are no other calls. */
  lemma {:induction false} CallsAreReports(events: seq<Event>, c: ErrorCall)
    requires c in ErrorCalls(events)
    ensures c == ErrorCall(102, Limit(128)) || (c.code == 101 && c.data.Device?)
    decreases |events|
  {
    if |events| == 0 {
    } else if c in ErrorCalls(events[..|events| - 1]) {
      CallsAreReports(events[..|events| - 1], c);
    }
  }

  /** What happened later is reported later. */
  lemma {:induction false} CallsAreInOrder(a: seq<Event>, b: seq<Event>)
    ensures ErrorCalls(a + b) == ErrorCalls(a) + ErrorCalls(b)
    decreases |b|
  {
    hide CallsOf;
    if |b| == 0 {
      assert a + b == a;
    } else {
      var front, last := b[..|b| - 1], b[|b| - 1];
      CallsAreInOrder(a, front);
      assert a + b == (a + front) + [last];
      ErrorCallsPush(a + front, last);
    }
  }

  // ----- Whose loss is reported -----

  /** The packets to device d that were removed as exhausted. */
  function ExhaustedTo(events: seq<Event>, n: nat, d: byte): set<nat> {
    set u: nat | u < n && Exhausted(u, d) in events
  }

  /** How often packets to device d were rescheduled after their attempts had run out. */
  function GiveUps(events: seq<Event>, d: byte): nat {
    if |events| == 0 then 0
    else
      var e := events[|events| - 1];
      GiveUps(events[..|events| - 1], d) + if e.GivenUp? && e.device == d then 1 else 0
  }

  /** No packet was exhausted twice, and all were accepted. */
  ghost predicate ExhaustsOnce(events: seq<Event>, n: nat, d: byte) {
    forall u: nat :: multiset(events)[Exhausted(u, d)] <= 1 && (Exhausted(u, d) in events ==> u < n)
  }

  lemma ExhaustsOnceFront(front: seq<Event>, e: Event, n: nat, d: byte)
    requires ExhaustsOnce(front + [e], n, d)
    ensures ExhaustsOnce(front, n, d)
    ensures e.Exhausted? && e.device == d ==> e !in front && e.uid < n
  {
    var events := front + [e];
    assert multiset(events) == multiset(front) + multiset{e};
    forall u: nat ensures multiset(front)[Exhausted(u, d)] <= 1 && (Exhausted(u, d) in front ==> u < n) {
      assert multiset(front)[Exhausted(u, d)] <= multiset(events)[Exhausted(u, d)];
      assert Exhausted(u, d) in front ==> Exhausted(u, d) in events;
    }
    if e.Exhausted? && e.device == d {
      assert e == Exhausted(e.uid, d) && multiset(events)[e] == multiset(front)[e] + 1;
      assert e in events;
    }
  }

  lemma ExhaustedToPush(front: seq<Event>, e: Event, n: nat, d: byte)
    requires e.Exhausted? && e.device == d ==> e !in front && e.uid < n
    ensures |ExhaustedTo(front + [e], n, d)|
         == |ExhaustedTo(front, n, d)| + if e.Exhausted? && e.device == d then 1 else 0
  {
    var before, after := ExhaustedTo(front, n, d), ExhaustedTo(front + [e], n, d);
    if e.Exhausted? && e.device == d {
      assert after == before + {e.uid};
    } else {
      assert after == before;
    }
  }

  lemma {:induction false} LossesAre(events: seq<Event>, n: nat, d: byte)
    requires ExhaustsOnce(events, n, d)
    ensures Losses(events, d) == |ExhaustedTo(events, n, d)| + GiveUps(events, d)
    decreases |events|
  {
    if |events| == 0 {
      assert ExhaustedTo(events, n, d) == {};
    } else {
      var front, e := events[..|events| - 1], events[|events| - 1];
      assert events == front + [e];
      ExhaustsOnceFront(front, e, n, d);
      hide ExhaustsOnce;
      hide ExhaustedTo;
      LossesAre(front, n, d);
      ExhaustedToPush(front, e, n, d);
    }
  }

  lemma ExhaustedOnce(n: Node, u: nat, d: byte)
    requires Inv(n)
    ensures multiset(n.events)[Exhausted(u, d)] <= 1
    ensures Exhausted(u, d) in n.events ==> u < |n.accepted|
  {
    if Exhausted(u, d) in n.events {
      assert EventFits(n.accepted[u], Exhausted(u, d));
      StateFate(n, u);
    }
  }

  /**
   * In every run the application is told of device d, with code 101, exactly once for each packet to it that was
   * removed as exhausted, and once for each time that one with a timing was given up.
   */
  lemma LossesAreReported(ns: seq<Node>, steps: seq<Step>, k: nat, d: byte)
    requires IsRun(ns, steps) && k <= |steps|
    ensures var n := ns[k];
            multiset(ErrorCalls(n.events))[ErrorCall(101, Device(d))]
              == |ExhaustedTo(n.events, |n.accepted|, d)| + GiveUps(n.events, d)
  {
    RunsKeep(ns, steps, k);
    forall u: nat ensures multiset(ns[k].events)[Exhausted(u, d)] <= 1
                      && (Exhausted(u, d) in ns[k].events ==> u < |ns[k].accepted|)
    {
      ExhaustedOnce(ns[k], u, d);
    }
    hide Inv;
    hide Next;
    CallsAreCounted(ns[k].events, d);
    LossesAre(ns[k].events, |ns[k].accepted|, d);
  }
}
