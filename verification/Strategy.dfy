/** The serial strategy of pjon_python/strategies/pjon_hwserial_strategy.py over an abstract port. */
module SerialStrategy {
  import opened PjonConstants
  import opened Nodes

  const MAX_WAIT_FOR_BYTE: int := 10_000
  const MAX_WAIT_FOR_RESPONSE: int := 500_000

  /** One turn of the waiting loop: the clock at its guard, and the bytes that arrive until the port is read. */
  datatype Poll = Poll(at: int, arriving: seq<byte>)

  function MaxWait(isAckResponse: bool): int {
    if isAckResponse then MAX_WAIT_FOR_RESPONSE else MAX_WAIT_FOR_BYTE
  }

  /** The polls that happen before the time is up. */
  function InTime(start: int, wait: int, polls: seq<Poll>): (n: nat)
    ensures n <= |polls|
  {
    if |polls| == 0 || polls[0].at - start >= wait then 0 else 1 + InTime(start, wait, polls[1..])
  }

  /** All that arrives in the first n polls. */
  function Arriving(polls: seq<Poll>, n: nat): seq<byte>
    requires n <= |polls|
  {
    if n == 0 then [] else Arriving(polls, n - 1) + polls[n - 1].arriving
  }

  /** The port and the byte that waiting for one leads to. */
  function Wait(port: Port, start: int, wait: int, polls: seq<Poll>): (Port, Option<byte>)
    decreases |polls|
  {
    if |polls| == 0 || polls[0].at - start >= wait then (port, None)
    else if |port.incoming + polls[0].arriving| > 0 then ReadByte(Arrived(port, polls[0].arriving), polls[0].at)
    else Wait(port, start, wait, polls[1..])
  }

  lemma {:induction false} ArrivingFirst(polls: seq<Poll>, n: nat)
    requires 0 < n <= |polls|
    ensures Arriving(polls, n) == polls[0].arriving + Arriving(polls[1..], n - 1)
    decreases n
  {
    if n == 1 {
      assert [] + polls[0].arriving == polls[0].arriving + [];
    } else {
      ArrivingFirst(polls, n - 1);
      assert polls[1..][n - 2] == polls[n - 1];
    }
  }

  /** One poll in time: its bytes are taken up, or it brought none and waiting goes on. */
  lemma WaitStep(port: Port, start: int, wait: int, polls: seq<Poll>)
    requires InTime(start, wait, polls) > 0
    ensures |polls| > 0 && InTime(start, wait, polls) == 1 + InTime(start, wait, polls[1..])
    ensures var here := port.incoming + polls[0].arriving;
            Wait(port, start, wait, polls) ==
              if |here| == 0 then Wait(port, start, wait, polls[1..])
              else (Port(here[1..], polls[0].at, port.sent), Some(here[0]))
  {}

  /** The bytes that are there at the f-th poll, the first at which there are any. */
  predicate FirstAt(port: Port, polls: seq<Poll>, f: nat, here: seq<byte>)
    requires f < |polls|
  {
    && here == port.incoming + Arriving(polls, f + 1) && |here| > 0
    && (f > 0 ==> |port.incoming + Arriving(polls, f)| == 0)
  }

  /**
   * Waiting fails, and changes nothing, exactly when no byte waits or arrives before the time is up. Otherwise it
   * takes the first byte of those that are there at the first poll that finds any, leaves the others, and notes the
   * clock of that poll.
   */
  lemma {:induction false} WaitLaw(port: Port, start: int, wait: int, polls: seq<Poll>)
    returns (f: nat, here: seq<byte>)
    ensures var n := InTime(start, wait, polls);
            if n == 0 || |port.incoming + Arriving(polls, n)| == 0 then
              Wait(port, start, wait, polls) == (port, None)
            else
              && f < n && FirstAt(port, polls, f, here)
              && Wait(port, start, wait, polls) == (Port(here[1..], polls[f].at, port.sent), Some(here[0]))
    decreases |polls|
  {
    f, here := 0, [];
    var n := InTime(start, wait, polls);
    if n == 0 {
    } else {
      WaitStep(port, start, wait, polls);
      ArrivingFirst(polls, n);
      ArrivingFirst(polls, 1);
      var first, later := polls[0].arriving, Arriving(polls[1..], n - 1);
      assert Arriving(polls[1..], 0) == [] && first + [] == first;
      if |port.incoming + first| > 0 {
        here := port.incoming + first;
        assert FirstAt(port, polls, 0, here);
      } else {
        f, here := WaitLaw(port, start, wait, polls[1..]);
        if n > 1 && |port.incoming + later| > 0 {
          ArrivingFirst(polls, f + 1);
          ArrivingFirst(polls, f + 2);
          NothingFirst(port.incoming, first, Arriving(polls[1..], f));
          NothingFirst(port.incoming, first, Arriving(polls[1..], f + 1));
          assert FirstAt(port, polls, f + 1, here);
          f := f + 1;
        }
      }
      hide *;
    }
  }

  lemma NothingFirst(waiting: seq<byte>, first: seq<byte>, later: seq<byte>)
    requires |waiting + first| == 0
    ensures waiting + (first + later) == waiting + later
  {}

  /** If all bytes of the waiting time are there at its first poll, waiting is reading. */
  lemma OnePoll(port: Port, now: int, isAckResponse: bool, bytes: seq<byte>)
    ensures Wait(port, now, MaxWait(isAckResponse), [Poll(now, bytes)]) ==
      if |Arrived(port, bytes).incoming| > 0 then ReadByte(Arrived(port, bytes), now) else (port, None)
  {}

  class Strategy {
    var incoming: seq<byte>     // arrived and not yet read
    var readBuffer: seq<byte>
    var lastReceived: int
    var sent: seq<byte>         // everything written so far

    ghost function Value(): Port
      reads this
    {
      Port(incoming, lastReceived, sent)
    }

    constructor ()
      ensures Value() == Port([], 0, []) && readBuffer == []
    {
      incoming, readBuffer, lastReceived, sent := [], [], 0, [];
    }

    /** The environment: bytes reach the port. */
    method Arrive(bytes: seq<byte>)
      modifies this`incoming
      ensures Value() == Arrived(old(Value()), bytes)
    {
      incoming := incoming + bytes;
    }

    method CanStart(now: int) returns (free: bool)
      ensures free == Nodes.CanStart(Value(), now)
    {
      if |incoming| == 0 {
        if now - lastReceived > MIN_CHANNEL_CLEARANCE {
          return true;
        }
      }
      return false;
    }

    method SendByte(b: byte)
      modifies this`sent
      ensures Value() == old(Value()).(sent := old(sent) + [b])
    {
      sent := sent + [b];
    }

    /**
     * The last byte of the read buffer if there is one, else what waiting at the port yields. None is the
     * out-of-band FAIL of a read that timed out.
     */
    method ReceiveByte(isAckResponse: bool, start: int, polls: seq<Poll>) returns (r: Option<byte>)
      modifies this`incoming, this`readBuffer, this`lastReceived
      ensures var n := |old(readBuffer)|;
              if n > 0 then
                r == Some(old(readBuffer)[n - 1]) && readBuffer == old(readBuffer)[..n - 1] && Value() == old(Value())
              else
                && readBuffer == []
                && (Value(), r) == Wait(old(Value()), start, if isAckResponse then 500_000 else 10_000, polls)
    {
      if |readBuffer| > 0 {
        r := Some(readBuffer[|readBuffer| - 1]);
        readBuffer := readBuffer[..|readBuffer| - 1];
        return;
      }
      var receiveWaitTime := MAX_WAIT_FOR_BYTE;
      if isAckResponse {
        receiveWaitTime := MAX_WAIT_FOR_RESPONSE;
      }
      assert polls[0..] == polls;
      var i := 0;
      while i < |polls| && polls[i].at - start < receiveWaitTime
        invariant i <= |polls| && Value() == old(Value()) && readBuffer == []
        invariant Wait(Value(), start, receiveWaitTime, polls[i..]) == Wait(old(Value()), start, receiveWaitTime, polls)
      {
        Arrive(polls[i].arriving);
        if |incoming| > 0 {
          r := Some(incoming[0]);
          incoming := incoming[1..];
          lastReceived := polls[i].at;
          return;
        }
        i := i + 1;
      }
      return None;
    }

    method ReceiveResponse(start: int, polls: seq<Poll>) returns (r: Option<byte>)
      modifies this`incoming, this`readBuffer, this`lastReceived
      ensures var n := |old(readBuffer)|;
              if n > 0 then
                r == Some(old(readBuffer)[n - 1]) && readBuffer == old(readBuffer)[..n - 1] && Value() == old(Value())
              else
                readBuffer == [] && (Value(), r) == Wait(old(Value()), start, 500_000, polls)
    {
      r := ReceiveByte(true, start, polls);
    }

    method SendResponse(response: byte)
      modifies this`sent
      ensures Value() == old(Value()).(sent := old(sent) + [response])
    {
      SendByte(response);
    }
  }
}
