/**
 * The text that the PJON-piper process prints, as pjon_python/wrapper_client.py queues it: read line by line and
 * stripped, whatever the payloads in it contain.
 */
module PiperOutput {
  import opened Text
  import opened Piper

  // ----- Reading lines -----

  /** What readline() takes off the text: up to a line break and with it. */
  function FirstLine(text: string): (line: string)
    ensures line <= text && (|text| > 0 ==> |line| > 0)
  {
    if |text| == 0 then "" else if text[0] == '\n' then text[..1] else text[..1 + |FirstLine(text[1..])|]
  }

  function ReadLines(text: string): seq<string> {
    if |text| == 0 then [] else [FirstLine(text)] + ReadLines(text[|FirstLine(text)|..])
  }

  function StripAll(lines: seq<string>): seq<string> {
    seq(|lines|, i requires 0 <= i < |lines| => Strip(lines[i]))
  }

  /** The lines that a text puts into the queue. */
  function Queued(text: string): seq<string> {
    StripAll(ReadLines(text))
  }

  method AttachQueueToStdout(text: string) returns (queue: seq<string>)
    ensures queue == Queued(text)
  {
    queue := [];
    var rest := text;
    assert [] + Queued(text) == Queued(text);
    while |rest| > 0
      invariant queue + Queued(rest) == Queued(text)
      decreases |rest|
    {
      var nextLine := FirstLine(rest);
      assert Queued(rest) == [Strip(nextLine)] + Queued(rest[|nextLine|..]);
      queue := queue + [Strip(nextLine)];
      rest := rest[|nextLine|..];
    }
    assert queue + [] == queue;
  }

  lemma {:induction false} FirstLineIs(a: string, rest: string)
    requires '\n' !in a
    ensures FirstLine(a + "\n" + rest) == a + "\n"
    decreases |a|
  {
    var text := a + "\n" + rest;
    if |a| == 0 {
    } else {
      assert text[1..] == a[1..] + "\n" + rest;
      FirstLineIs(a[1..], rest);
    }
  }

  /** A line break can only be the last character. */
  predicate IsOneLine(line: string) {
    forall i :: 0 <= i < |line| - 1 ==> line[i] != '\n'
  }

  lemma {:induction false} FirstLineIsOne(text: string)
    ensures IsOneLine(FirstLine(text))
    decreases |text|
  {
    if |text| == 0 || text[0] == '\n' {
    } else {
      FirstLineIsOne(text[1..]);
      var later := FirstLine(text[1..]);
      assert FirstLine(text) == [text[0]] + later;
      forall i | 0 <= i < |later| ensures ([text[0]] + later)[i] != '\n' {
        if i > 0 { assert later[i - 1] != '\n'; }
      }
    }
  }

  lemma QueuedLine(a: string, rest: string)
    requires '\n' !in a
    ensures Queued(a + "\n" + rest) == [Strip(a + "\n")] + Queued(rest)
  {
    var text := a + "\n" + rest;
    FirstLineIs(a, rest);
    assert text[|a| + 1..] == rest;
    assert ReadLines(text) == [a + "\n"] + ReadLines(rest);
  }

  lemma {:induction false} ReceiptsAppend(a: seq<string>, b: seq<string>)
    ensures Receipts(a + b) == Receipts(a) + Receipts(b)
    decreases |b|
  {
    hide Process;
    if |b| == 0 {
      assert a + b == a && Receipts(a) + [] == Receipts(a);
    } else {
      var front, last := b[..|b| - 1], b[|b| - 1];
      ReceiptsAppend(a, front);
      assert a + b == (a + front) + [last] && b == front + [last];
      PushLine(a + front, last);
      PushLine(front, last);
      var r := Process(last);
      var more := if r.Received? then [r.packet] else [];
      assert (Receipts(a) + Receipts(front)) + more == Receipts(a) + (Receipts(front) + more);
    }
  }

  function ReceivedFrom(r: Reaction): seq<PiperPacket> {
    if r.Received? then [r.packet] else []
  }

  lemma ReceiptsOfOne(line: string)
    ensures Receipts([line]) == ReceivedFrom(Process(line))
  {
    hide Process;
    NoLines();
    PushLine([], line);
    assert [] + [line] == [line];
    assert [] + ReceivedFrom(Process(line)) == ReceivedFrom(Process(line));
  }

  // ----- A printed packet without a line break -----

  predicate WellFormed(p: Printed) {
    |p.senderNet| > 0 && |p.receiverNet| > 0
  }

  /** What the process prints for a packet. */
  function TextOf(p: Printed): string
    requires WellFormed(p)
  {
    LinePrinted(p) + "\n"
  }

  lemma NoBreakInNumber(n: nat)
    ensures '\n' !in Decimal(n)
  {}

  lemma {:induction false} NoBreakInNet(ns: seq<nat>)
    requires |ns| > 0
    ensures '\n' !in Dotted(ns)
    decreases |ns|
  {
    NoBreakInNumber(ns[0]);
    if |ns| == 1 {
    } else {
      NoBreakInNet(ns[1..]);
    }
  }

  lemma NoBreakInValue(p: Printed, k: nat)
    requires WellFormed(p)
    ensures '\n' !in ValueOf(p, k)
  {
    hide Decimal;
    hide Dotted;
    NoBreakInNumber(p.sender);
    NoBreakInNumber(p.receiver);
    NoBreakInNumber(p.id);
    NoBreakInNumber(p.header);
    NoBreakInNumber(p.count);
    NoBreakInNumber(|p.payload|);
    NoBreakInNet(p.senderNet);
    NoBreakInNet(p.receiverNet);
  }

  lemma NoBreakInName(k: nat)
    requires k < 8
    ensures '\n' !in NAMES[k]
  {}

  lemma {:induction false} NoBreakInRest(value: string, fields: seq<Field>, payload: string)
    requires '\n' !in value && '\n' !in payload
    requires forall i :: 0 <= i < |fields| ==> '\n' !in fields[i].name && '\n' !in fields[i].value
    ensures '\n' !in Rest(value, fields, payload)
    decreases |fields|
  {
    if |fields| == 0 {
    } else {
      NoBreakInRest(fields[0].value, fields[1..], payload);
    }
  }

  /** Only the payload can break the line of a packet. */
  lemma NoBreakInLine(p: Printed, payload: string)
    requires WellFormed(p) && '\n' !in payload
    ensures '\n' !in LineOf(FieldsOf(p), payload)
  {
    hide ValueOf;
    var fields := FieldsOf(p);
    forall i | 0 <= i < 8 ensures '\n' !in fields[i].name && '\n' !in fields[i].value {
      NoBreakInName(i);
      NoBreakInValue(p, i);
    }
    NoBreakInRest(fields[0].value, fields[1..], payload);
  }

  lemma StripRightBreak(s: string)
    ensures StripRight(s + "\n") == StripRight(s)
  {
    assert (s + "\n")[..|s|] == s;
  }

  /** Reading and stripping a line does not change what is made of it. */
  lemma QueuedLineProcessed(fields: seq<Field>, payload: string)
    requires |fields| > 0
    ensures Process(Strip(LineOf(fields, payload) + "\n")) == Process(LineOf(fields, payload))
  {
    hide LineOf;
    hide Strip;
    hide StripRight;
    var line := LineOf(fields, payload);
    var pre := LineSplit(fields);
    StripLine(fields, payload);
    StripLine(fields, payload + "\n");
    StripRightBreak(payload);
    assert line + "\n" == LineOf(fields, payload + "\n");
    StripTwice(line);
    hide PacketOf;
    hide StartsWith;
    assert |line| > 1 && |Strip(line)| > 1;
  }

  /** A packet whose payload has no line break arrives as the one line that it is. */
  lemma UnbrokenText(p: Printed, rest: string)
    requires WellFormed(p) && '\n' !in p.payload
    ensures Receipts(Queued(TextOf(p) + rest)) == ReceivedFrom(Process(LinePrinted(p))) + Receipts(Queued(rest))
  {
    hide Process;
    hide Queued;
    hide LineOf;
    hide FieldsOf;
    hide Receipts;
    NoBreakInLine(p, p.payload);
    QueuedLine(LinePrinted(p), rest);
    QueuedLineProcessed(FieldsOf(p), p.payload);
    var first := [Strip(LinePrinted(p) + "\n")];
    ReceiptsAppend(first, Queued(rest));
    ReceiptsOfOne(first[0]);
  }

  // ----- A line break in the payload -----

  lemma {:induction false} LastIsEnd(s: string, sep: string) returns (k: nat)
    requires |sep| > 0
    ensures k <= |s| && Last(s, sep) == s[k..]
    decreases |s|
  {
    var i := Find(s, sep, 0);
    if i == |s| {
      k := 0;
    } else {
      var j := LastIsEnd(s[i + |sep|..], sep);
      k := i + |sep| + j;
      assert s[i + |sep|..][j..] == s[k..];
    }
  }

  lemma {:induction false} StripLeftIsEnd(s: string) returns (k: nat)
    ensures k <= |s| && StripLeft(s) == s[k..]
    decreases |s|
  {
    if |s| == 0 || !IsSpace(s[0]) {
      k := 0;
    } else {
      var j := StripLeftIsEnd(s[1..]);
      k := j + 1;
    }
  }

  /** A stripped line has no line break: the one at its end is whitespace. */
  lemma StrippedHasNoBreak(line: string)
    requires IsOneLine(line)
    ensures '\n' !in Strip(line)
  {
    var k := StripLeftIsEnd(line);
    StripRightPrefix(StripLeft(line));
    StripRightEnds(StripLeft(line));
    FrontHasNoBreak(line, k, Strip(line));
  }

  lemma FrontHasNoBreak(line: string, k: nat, s: string)
    requires IsOneLine(line) && k <= |line| && s <= line[k..] && (|s| > 0 ==> !IsSpace(s[|s| - 1]))
    ensures '\n' !in s
  {
    forall i | 0 <= i < |s| ensures s[i] != '\n' {
      assert s[i] == line[k + i];
      if i < |s| - 1 { assert k + i < |line| - 1; }
    }
  }

  lemma StripAgain(s: string)
    requires '\n' !in s
    ensures '\n' !in Strip(s)
  {
    StrippedHasNoBreak(s);
  }

  lemma ReceivedHasNoBreak(line: string)
    requires '\n' !in line && Process(line).Received?
    ensures '\n' !in Process(line).packet.payload
  {
    StripAgain(line);
    var k := LastIsEnd(Strip(line), "data=");
    hide Last;
    hide Strip;
    hide ParseInt;
    hide ParseNet;
    hide FieldText;
    hide StartsWith;
  }

  /** No line of any text is received as a packet with a line break in its payload. */
  lemma {:induction false} NothingBrokenReceived(text: string, packet: PiperPacket)
    requires '\n' in packet.payload
    ensures packet !in Receipts(Queued(text))
    decreases |text|
  {
    hide Process;
    hide Strip;
    if |text| == 0 {
      NoLines();
      assert Queued(text) == [];
    } else {
      var line, rest := FirstLine(text), text[|FirstLine(text)|..];
      FirstLineIsOne(text);
      StrippedHasNoBreak(line);
      NothingBrokenReceived(rest, packet);
      var first := [Strip(line)];
      assert Queued(text) == first + Queued(rest);
      hide Receipts;
      ReceiptsAppend(first, Queued(rest));
      ReceiptsOfOne(Strip(line));
      if Process(Strip(line)).Received? { ReceivedHasNoBreak(Strip(line)); }
    }
  }

  // ----- The printed text -----

  /**
   * The text printed for a packet is received as this one packet exactly when the payload survives the line and
   * does not break it.
   */
  lemma PrintedIsDelivered(p: Printed)
    requires WellFormed(p)
    ensures Receipts(Queued(TextOf(p))) == [PacketPrinted(p)] <==> Survives(p) && '\n' !in p.payload
  {
    hide Process;
    hide Queued;
    hide Survives;
    hide LinePrinted;
    if '\n' in p.payload {
      NothingBrokenReceived(TextOf(p), PacketPrinted(p));
    } else {
      UnbrokenText(p, "");
      NothingQueued();
      LineIsDelivered(p);
      assert TextOf(p) + "" == TextOf(p);
      assert ReceivedFrom(Process(LinePrinted(p))) + [] == ReceivedFrom(Process(LinePrinted(p)));
    }
  }

  lemma NothingQueued()
    ensures Receipts(Queued("")) == []
  {
    assert Queued("") == [];
  }

  function TextOfAll(ps: seq<Printed>): string
    requires forall p :: p in ps ==> WellFormed(p)
  {
    if |ps| == 0 then "" else TextOf(ps[0]) + TextOfAll(ps[1..])
  }

  function AllPrinted(ps: seq<Printed>): seq<PiperPacket> {
    if |ps| == 0 then [] else [PacketPrinted(ps[0])] + AllPrinted(ps[1..])
  }

  /** So any number of packets with such payloads are received as printed, in order, each once. */
  lemma {:induction false} AllAreDelivered(ps: seq<Printed>)
    requires forall p :: p in ps ==> WellFormed(p) && Survives(p) && '\n' !in p.payload
    ensures Receipts(Queued(TextOfAll(ps))) == AllPrinted(ps)
    decreases |ps|
  {
    hide Process;
    hide Queued;
    hide Survives;
    hide LinePrinted;
    hide Receipts;
    if |ps| == 0 {
      NothingQueued();
    } else {
      assert ps[0] in ps;
      UnbrokenText(ps[0], TextOfAll(ps[1..]));
      LineIsDelivered(ps[0]);
      AllAreDelivered(ps[1..]);
    }
  }

  /** A payload that breaks the line and goes on with a packet line is received as that packet, whoever sent it. */
  lemma LineInPayload(p: Printed, a: string, q: Printed)
    requires WellFormed(p) && WellFormed(q) && '\n' !in a && p.payload == a + "\n" + LinePrinted(q)
    requires Survives(q) && '\n' !in q.payload
    ensures Receipts(Queued(TextOf(p))) == ReceivedFrom(Process(LineOf(FieldsOf(p), a))) + [PacketPrinted(q)]
  {
    hide Process;
    hide Queued;
    hide Survives;
    hide LineOf;
    hide FieldsOf;
    hide Receipts;
    var front := LineOf(FieldsOf(p), a);
    var pre := LineSplit(FieldsOf(p));
    assert TextOf(p) == front + "\n" + TextOf(q);
    NoBreakInLine(p, a);
    QueuedLine(front, TextOf(q));
    QueuedLineProcessed(FieldsOf(p), a);
    ReceiptsAppend([Strip(front + "\n")], Queued(TextOf(q)));
    ReceiptsOfOne(Strip(front + "\n"));
    PrintedIsDelivered(q);
  }
}
