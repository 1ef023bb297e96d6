/** The simulated serial line of pjon_python/utils/fakeserial.py: a broadcast log and one cursor per client. */
module Bus {
  import opened PjonConstants

  datatype Envelope = Envelope(originator: nat, payload: seq<byte>)

  /** A client: where its subscription began, how far it has fetched, what it has taken out, and `_data`. */
  datatype Client = Client(start: nat, position: nat, taken: seq<byte>, data: seq<byte>)

  /** The bytes written by everybody but the given client, in order of publication. */
  function Foreign(log: seq<Envelope>, id: nat): seq<byte> {
    if |log| == 0 then []
    else Foreign(log[..|log| - 1], id) + if log[|log| - 1].originator != id then log[|log| - 1].payload else []
  }

  lemma {:induction false} ForeignAppend(a: seq<Envelope>, b: seq<Envelope>, id: nat)
    ensures Foreign(a + b, id) == Foreign(a, id) + Foreign(b, id)
    decreases |b|
  {
    if |b| == 0 {
      assert a + b == a;
    } else {
      assert (a + b)[..|a + b| - 1] == a + b[..|b| - 1];
      ForeignAppend(a, b[..|b| - 1], id);
    }
  }

  lemma ForeignNone(log: seq<Envelope>, i: nat, id: nat)
    requires i <= |log|
    ensures Foreign(log[i..i], id) == []
  {}

  lemma ForeignPush(log: seq<Envelope>, from: nat, to: nat, id: nat)
    requires from < to <= |log|
    ensures Foreign(log[from..to], id)
         == Foreign(log[from..to - 1], id) + if log[to - 1].originator != id then log[to - 1].payload else []
  {
    assert log[from..to][..to - from - 1] == log[from..to - 1];
  }

  // ----- The operations on values -----

  function Fetched(log: seq<Envelope>, c: Client, id: nat): Client {
    if c.position >= |log| then c
    else c.(position := |log|, data := c.data + Foreign(log[c.position..], id))
  }

  lemma FetchedIs(log: seq<Envelope>, c: Client, id: nat)
    requires c.position <= |log|
    ensures Fetched(log, c, id) == c.(position := |log|, data := c.data + Foreign(log[c.position..], id))
  {
    if c.position == |log| { assert c.data + [] == c.data; }
  }

  function Taken(c: Client, n: nat): Client {
    if n <= |c.data| then c.(taken := c.taken + c.data[..n], data := c.data[n..])
    else c.(taken := c.taken + c.data, data := [])
  }

  /** A read takes as many bytes as were asked for, or all if there are fewer, from the front of all published. */
  lemma ReadTakes(log: seq<Envelope>, c: Client, id: nat, size: nat)
    requires c.position <= |log|
    ensures var there, r := c.data + Foreign(log[c.position..], id), Taken(Fetched(log, c, id), size);
            var n := if size < |there| then size else |there|;
            r == c.(position := |log|, taken := c.taken + there[..n], data := there[n..])
  {
    FetchedIs(log, c, id);
    hide Foreign;
    var there := c.data + Foreign(log[c.position..], id);
    assert there[..|there|] == there;
  }

  // ----- The objects -----

  class Broker {
    var log: seq<Envelope>

    constructor ()
      ensures log == []
    {
      log := [];
    }

    method Publish(e: Envelope)
      modifies this
      ensures log == old(log) + [e]
    {
      log := log + [e];
    }
  }

  class Serial {
    const broker: Broker
    const uuid: nat
    ghost const start: nat
    var position: nat            // of the subscription
    var data: seq<byte>
    ghost var taken: seq<byte>   // everything read or flushed so far

    ghost function Value(): Client
      reads this
    {
      Client(start, position, taken, data)
    }

    ghost predicate Valid()
      reads this, broker
    {
      Consistent(broker.log, Value(), uuid)
    }

    constructor (broker: Broker, uuid: nat)
      ensures Valid() && this.broker == broker && this.uuid == uuid
      ensures Value() == Client(|broker.log|, |broker.log|, [], [])
    {
      this.broker, this.uuid, this.start, position := broker, uuid, |broker.log|, |broker.log|;
      data, taken := [], [];
      new;
      assert broker.log[start..position] == [];
    }

    method Write(bytes: seq<byte>)
      requires Valid()
      modifies broker
      ensures Valid() && broker.log == old(broker.log) + [Envelope(uuid, bytes)]
    {
      broker.Publish(Envelope(uuid, bytes));
      assert broker.log[start..position] == old(broker.log)[start..position];
    }

    /** The next message of the subscription, if there is one. */
    method Listen() returns (message: Option<Envelope>)
      requires position <= |broker.log|
      modifies this`position
      ensures if old(position) < |broker.log|
              then message == Some(broker.log[old(position)]) && position == old(position) + 1
              else message == None && position == old(position)
    {
      message := None;
      if position < |broker.log| {
        message := Some(broker.log[position]);
        position := position + 1;
      }
    }

    method UpdateInputQueue()
      requires Valid()
      modifies this`position, this`data
      ensures Valid() && Value() == Fetched(broker.log, old(Value()), uuid)
    {
      hide Foreign;
      hide Fetched;
      ghost var from := position;
      var newByteData := true;
      ForeignNone(broker.log, from, uuid);
      assert data + [] == data;
      while newByteData
        invariant from <= position <= |broker.log|
        invariant data == old(data) + Foreign(broker.log[from..position], uuid)
        invariant !newByteData ==> position == |broker.log|
        decreases |broker.log| - position, newByteData
      {
        var message := Listen();
        newByteData := message.Some?;
        if newByteData {
          ForeignPush(broker.log, from, position, uuid);
          if message.value.originator != uuid {
            data := data + message.value.payload;
          } else {
            assert data + [] == data;
          }
        }
      }
      assert broker.log[from..position] == broker.log[from..];
      FetchedIs(broker.log, old(Value()), uuid);
      FetchedConsistent(broker.log, old(Value()), uuid);
    }

    method Read(size: nat) returns (s: seq<byte>)
      requires Valid()
      modifies this
      ensures Valid() && Value() == Taken(Fetched(broker.log, old(Value()), uuid), size)
      ensures taken == old(taken) + s
      ensures var there := old(data) + Foreign(broker.log[old(position)..], uuid);
              s == there[..if size < |there| then size else |there|]
    {
      FetchedIs(broker.log, Value(), uuid);
      UpdateInputQueue();
      s := if size <= |data| then data[..size] else data;
      data := if size <= |data| then data[size..] else [];
      taken := taken + s;
      TakenConsistent(broker.log, Fetched(broker.log, old(Value()), uuid), uuid, size);
    }

    method InWaiting() returns (count: nat)
      requires Valid()
      modifies this`position, this`data
      ensures Valid() && Value() == Fetched(broker.log, old(Value()), uuid) && count == |data|
    {
      UpdateInputQueue();
      count := |data|;
    }

    method FlushInput()
      requires Valid()
      modifies this
      ensures Valid() && var c := Fetched(broker.log, old(Value()), uuid); Value() == Taken(c, |c.data|)
    {
      UpdateInputQueue();
      TakenConsistent(broker.log, Fetched(broker.log, old(Value()), uuid), uuid, |data|);
      taken := taken + data;
      data := [];
    }
  }

  // ----- Any number of clients, any interleaving -----

  /** What a client has taken and holds is what the others wrote while it was fetching. */
  predicate Consistent(log: seq<Envelope>, c: Client, id: nat) {
    c.start <= c.position <= |log| && c.taken + c.data == Foreign(log[c.start..c.position], id)
  }

  lemma FetchedConsistent(log: seq<Envelope>, c: Client, id: nat)
    requires Consistent(log, c, id)
    ensures Consistent(log, Fetched(log, c, id), id)
  {
    FetchedIs(log, c, id);
    assert log[c.start..|log|] == log[c.start..c.position] + log[c.position..];
    ForeignAppend(log[c.start..c.position], log[c.position..], id);
    assert c.taken + (c.data + Foreign(log[c.position..], id)) == (c.taken + c.data) + Foreign(log[c.position..], id);
  }

  lemma TakenConsistent(log: seq<Envelope>, c: Client, id: nat, n: nat)
    requires Consistent(log, c, id)
    ensures Consistent(log, Taken(c, n), id)
  {
    if n <= |c.data| { assert c.data == c.data[..n] + c.data[n..]; }
  }

  /** The clients are numbered; each number is the uuid of one client. */
  datatype Line = Line(log: seq<Envelope>, clients: seq<Client>)

  datatype Action = Connect | Write(id: nat, bytes: seq<byte>) | Read(id: nat, size: nat) | InWaiting(id: nat)

  predicate Enabled(l: Line, a: Action) {
    a.Connect? || a.id < |l.clients|
  }

  function Act(l: Line, a: Action): Line
    requires Enabled(l, a)
  {
    match a
    case Connect => l.(clients := l.clients + [Client(|l.log|, |l.log|, [], [])])
    case Write(id, bytes) => l.(log := l.log + [Envelope(id, bytes)])
    case Read(id, size) => l.(clients := l.clients[id := Taken(Fetched(l.log, l.clients[id], id), size)])
    case InWaiting(id) => l.(clients := l.clients[id := Fetched(l.log, l.clients[id], id)])
  }

  predicate LineInv(l: Line) {
    forall i :: 0 <= i < |l.clients| ==> Consistent(l.log, l.clients[i], i)
  }

  lemma ActKeeps(l: Line, a: Action)
    requires LineInv(l) && Enabled(l, a)
    ensures LineInv(Act(l, a))
  {
    var m := Act(l, a);
    forall i | 0 <= i < |m.clients| ensures Consistent(m.log, m.clients[i], i) {
      if i < |l.clients| {
        var c := l.clients[i];
        assert Consistent(l.log, c, i);
        assert m.log[c.start..c.position] == l.log[c.start..c.position];
        FetchedConsistent(l.log, c, i);
        if a.Read? { TakenConsistent(l.log, Fetched(l.log, c, i), i, a.size); }
      } else {
        assert m.log[|l.log|..|l.log|] == [];
      }
    }
  }

  predicate IsTrace(ls: seq<Line>, actions: seq<Action>) {
    && |ls| == |actions| + 1 && ls[0] == Line([], [])
    && forall i {:trigger actions[i]} :: 0 <= i < |actions| ==>
         Enabled(ls[i], actions[i]) && ls[i + 1] == Act(ls[i], actions[i])
  }

  lemma {:induction false} TraceKeeps(ls: seq<Line>, actions: seq<Action>, k: nat)
    requires IsTrace(ls, actions) && k <= |actions|
    ensures LineInv(ls[k])
    decreases k
  {
    if k == 0 {
    } else {
      TraceKeeps(ls, actions, k - 1);
      ActKeeps(ls[k - 1], actions[k - 1]);
    }
  }

  /**
   * In every trace: what a client has read, then what it holds, then what it has not fetched, is exactly what
   * the others have written since it connected, in order and without a byte of its own.
   */
  lemma NothingLostNothingOwn(ls: seq<Line>, actions: seq<Action>, k: nat, id: nat)
    requires IsTrace(ls, actions) && k <= |actions| && id < |ls[k].clients|
    ensures var l, c := ls[k], ls[k].clients[id];
            && c.start <= c.position <= |l.log|
            && c.taken + c.data + Foreign(l.log[c.position..], id) == Foreign(l.log[c.start..], id)
  {
    TraceKeeps(ls, actions, k);
    var l, c := ls[k], ls[k].clients[id];
    assert l.log[c.start..] == l.log[c.start..c.position] + l.log[c.position..];
    ForeignAppend(l.log[c.start..c.position], l.log[c.position..], id);
  }
}
