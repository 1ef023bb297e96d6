/** The packet lines of the PJON-piper process, as pjon_python/wrapper_client.py reads them. */
module Piper {
  import opened PjonConstants
  import opened Text

  datatype PiperInfo = PiperInfo(receiverId: int, receiverNet: seq<int>, senderId: int, senderNet: seq<int>)
  datatype PiperPacket = PiperPacket(payload: string, length: int, info: PiperInfo)

  // ----- The extractors; None is a ValueError -----

  function FieldText(line: string, key: string): string
    requires |key| > 0
  {
    First(Last(line, key), " ")
  }

  function ParseAll(items: seq<string>): Option<seq<int>> {
    if |items| == 0 then Some([])
    else
      var head, tail := ParseInt(items[0]), ParseAll(items[1..]);
      if head.None? || tail.None? then None else Some([head.value] + tail.value)
  }

  function ParseNet(s: string): Option<seq<int>> {
    ParseAll(Split(s, "."))
  }

  function PayloadText(line: string): string {
    Last(line, "data=")
  }

  function PacketOf(line: string): Option<PiperPacket> {
    var receiver, receiverNet := ParseInt(FieldText(line, "rcv_id=")), ParseNet(FieldText(line, "rcv_net="));
    var sender, senderNet := ParseInt(FieldText(line, "snd_id=")), ParseNet(FieldText(line, "snd_net="));
    var length := ParseInt(FieldText(line, "len="));
    if receiver.None? || receiverNet.None? || sender.None? || senderNet.None? || length.None? then None
    else Some(PiperPacket(PayloadText(line), length.value,
                          PiperInfo(receiver.value, receiverNet.value, sender.value, senderNet.value)))
  }

  predicate StartsWith(s: string, w: string) {
    |w| <= |s| && s[..|w|] == w
  }

  datatype Reaction = Ignored | Received(packet: PiperPacket) | Failed(code: int, data: int)

  /** What one line from the process leads to. */
  function Process(line: string): Reaction {
    if |line| <= 1 then Ignored
    else
      var l := Strip(line);
      if StartsWith(Strip(l), "#RCV") then
        match PacketOf(l)
        case None => Ignored
        case Some(p) => if p.length == |p.payload| then Received(p) else Ignored
      else if StartsWith(Strip(l), "#ERR") then
        var code, data := ParseInt(First(Last(l, "code="), " ")), ParseInt(Last(l, "data="));
        if code.None? || data.None? then Ignored else Failed(code.value, data.value)
      else Ignored
  }

  // ----- The documented shape of a packet line -----

  datatype Field = Field(name: string, value: string)

  /** The text behind an equals sign: a value, the other fields, and the payload. */
  function Rest(value: string, fields: seq<Field>, payload: string): string
    decreases |fields|
  {
    if |fields| == 0 then value + [' '] + ("data" + "=" + payload)
    else value + [' '] + (fields[0].name + "=" + Rest(fields[0].value, fields[1..], payload))
  }

  function LineOf(fields: seq<Field>, payload: string): string
    requires |fields| > 0
  {
    "#RCV " + fields[0].name + "=" + Rest(fields[0].value, fields[1..], payload)
  }

  predicate IsPlain(s: string) {
    ' ' !in s && '=' !in s
  }

  predicate PlainFields(fields: seq<Field>) {
    forall i :: 0 <= i < |fields| ==> IsPlain(fields[i].name) && IsPlain(fields[i].value)
  }

  /** No later field has a name that ends in w. */
  predicate NoneEndsIn(fields: seq<Field>, w: string) {
    !EndsWith("data", w) && forall i :: 0 <= i < |fields| ==> !EndsWith(fields[i].name, w)
  }

  lemma {:induction false} NotInRest(w: string, value: string, fields: seq<Field>, payload: string)
    requires IsPlain(w) && IsPlain(value) && PlainFields(fields) && NoneEndsIn(fields, w)
    requires !Occurs(w + "=", payload)
    ensures !Occurs(w + "=", Rest(value, fields, payload))
    decreases |fields|
  {
    var sep := w + "=";
    OccursNeedsEquals(w, value);
    if |fields| == 0 {
      if Occurs(sep, "data" + "=" + payload) { OccursAtEquals(w, "data", payload); }
      if Occurs(sep, Rest(value, fields, payload)) { OccursAround(sep, value, ' ', "data" + "=" + payload); }
    } else {
      var rest := Rest(fields[0].value, fields[1..], payload);
      NotInRest(w, fields[0].value, fields[1..], payload);
      if Occurs(sep, fields[0].name + "=" + rest) { OccursAtEquals(w, fields[0].name, rest); }
      if Occurs(sep, Rest(value, fields, payload)) { OccursAround(sep, value, ' ', fields[0].name + "=" + rest); }
    }
  }

  lemma WordUnbordered(w: string)
    requires '=' !in w
    ensures Unbordered(w + "=")
  {
    var sep := w + "=";
    forall k | 0 < k < |sep| ensures sep[k..] != sep[..|sep| - k] {
      assert sep[k..][|sep| - k - 1] == '=';
      assert sep[..|sep| - k][|sep| - k - 1] == w[|sep| - k - 1];
    }
  }

  /** If word= does not occur in what follows it, that is the last piece. */
  lemma LastWord(pre: string, w: string, rest: string)
    requires '=' !in w && !Occurs(w + "=", rest)
    ensures Last(pre + (w + "=" + rest), w + "=") == rest
  {
    var sep, s := w + "=", pre + (w + "=" + rest);
    var d := |pre| + |sep|;
    WordUnbordered(w);
    assert s[d..] == rest;
    assert At(s, sep, |pre|);
    forall j: nat | |pre| < j <= |s| ensures !At(s, sep, j) {
      if j < d { NotAt(s, sep, j, d - 1 - j); } else { AtShift(s, sep, d, j - d); }
    }
    LastPiece(s, sep, |pre|);
  }

  lemma {:induction false} RestSplit(value: string, fields: seq<Field>, payload: string, i: nat) returns (pre: string)
    requires i < |fields|
    ensures Rest(value, fields, payload)
         == pre + (fields[i].name + "=" + Rest(fields[i].value, fields[i + 1..], payload))
    decreases |fields|
  {
    if i == 0 {
      pre := value + [' '];
    } else {
      var front := RestSplit(fields[0].value, fields[1..], payload, i - 1);
      assert fields[1..][i..] == fields[i + 1..];
      pre := value + [' '] + fields[0].name + "=" + front;
    }
  }

  lemma {:induction false} PayloadSplit(value: string, fields: seq<Field>, payload: string) returns (pre: string)
    ensures forall p :: Rest(value, fields, p) == pre + ("data" + "=" + p)
    decreases |fields|
  {
    if |fields| == 0 {
      pre := value + [' '];
    } else {
      var front := PayloadSplit(fields[0].value, fields[1..], payload);
      pre := value + [' '] + fields[0].name + "=" + front;
      forall p ensures Rest(value, fields, p) == pre + ("data" + "=" + p) {
        assert Rest(fields[0].value, fields[1..], p) == front + ("data" + "=" + p);
      }
    }
  }

  /** A field is found by its name if no later name ends in it and the payload does not mention it. */
  lemma FieldFound(fields: seq<Field>, payload: string, i: nat)
    requires i < |fields| && PlainFields(fields) && NoneEndsIn(fields[i + 1..], fields[i].name)
    requires !Occurs(fields[i].name + "=", payload)
    ensures FieldText(LineOf(fields, payload), fields[i].name + "=") == fields[i].value
  {
    var f, rest := fields[i], Rest(fields[i].value, fields[i + 1..], payload);
    var pre := "#RCV ";
    if i > 0 {
      var front := RestSplit(fields[0].value, fields[1..], payload, i - 1);
      assert fields[1..][i..] == fields[i + 1..];
      pre := "#RCV " + fields[0].name + "=" + front;
    }
    assert LineOf(fields, payload) == pre + (f.name + "=" + rest);
    NotInRest(f.name, f.value, fields[i + 1..], payload);
    LastWord(pre, f.name, rest);
    var more := rest[|f.value| + 1..];
    assert rest == f.value + [' '] + more;
    FirstPiece(f.value, ' ', more);
  }

  // ----- The payload -----

  lemma {:induction false} LastOccurrence(s: string, sep: string, from: nat) returns (i: nat)
    requires |sep| > 0 && At(s, sep, from)
    ensures from <= i && At(s, sep, i) && forall j :: i < j <= |s| ==> !At(s, sep, j)
    decreases |s| - from
  {
    if j :| from < j <= |s| && At(s, sep, j) {
      i := LastOccurrence(s, sep, j);
    } else {
      i := from;
    }
  }

  /** A key that occurs in the end of a text is last found there. */
  lemma LastInside(pre: string, text: string, sep: string)
    requires |sep| > 0 && Unbordered(sep) && Occurs(sep, text)
    ensures Last(pre + text, sep) == Last(text, sep) && |Last(text, sep)| + |sep| <= |text|
  {
    hide Last;
    hide Unbordered;
    var s, d := pre + text, |pre|;
    assert s[d..] == text;
    var k: nat :| k <= |text| && At(text, sep, k);
    AtShift(s, sep, d, k);
    var i := LastOccurrence(s, sep, d + k);
    LastPiece(s, sep, i);
    forall j: nat ensures At(text, sep, j) == At(s, sep, d + j) { AtShift(s, sep, d, j); }
    LastPiece(text, sep, i - d);
    assert text[i - d + |sep|..] == s[i + |sep|..];
  }

  /** The extracted payload is the printed one behind its last data=, and all of it only if it has none. */
  lemma PayloadFound(pre: string, payload: string)
    ensures var text := PayloadText(pre + ("data" + "=" + payload));
            && text == Last(payload, "data=")
            && (text == payload <==> !Occurs("data=", payload))
            && (|text| == |payload| <==> !Occurs("data=", payload))
            && |text| <= |payload|
  {
    assert "data" + "=" == "data=";
    WordUnbordered("data");
    if Occurs("data=", payload) {
      LastInside(pre + ("data" + "="), payload, "data=");
      assert pre + ("data" + "=" + payload) == pre + ("data" + "=") + payload;
    } else {
      LastWord(pre, "data", payload);
      NoneLeft(payload, "data=");
    }
  }

  // ----- Dotted addresses -----

  function Dotted(ns: seq<nat>): string
    requires |ns| > 0
  {
    if |ns| == 1 then Decimal(ns[0]) else Decimal(ns[0]) + ['.'] + Dotted(ns[1..])
  }

  lemma {:induction false} ParseDotted(ns: seq<nat>)
    requires |ns| > 0
    ensures ParseNet(Dotted(ns)) == Some(ns)
    ensures IsPlain(Dotted(ns))
    decreases |ns|
  {
    var head := Decimal(ns[0]);
    ParseDecimal(ns[0]);
    if |ns| == 1 {
      SplitNone(head, '.');
      ParseAllPush(head, [], ns[0], []);
      assert [head] + [] == [head] && [ns[0] as int] + [] == ns;
    } else {
      var tail := Dotted(ns[1..]);
      ParseDotted(ns[1..]);
      SplitFirst(head, '.', tail);
      ParseAllPush(head, Split(tail, "."), ns[0], ns[1..]);
      assert [ns[0] as int] + ns[1..] == ns;
    }
  }

  lemma ParseAllPush(item: string, items: seq<string>, n: int, ns: seq<int>)
    requires ParseInt(item) == Some(n) && ParseAll(items) == Some(ns)
    ensures ParseAll([item] + items) == Some([n] + ns)
  {
    assert ([item] + items)[1..] == items;
  }

  // ----- The whole line -----

  const NAMES: seq<string> := ["snd_id", "snd_net", "rcv_id", "rcv_net", "id", "hdr", "pckt_cnt", "len"]

  /** A packet as the process prints it. */
  datatype Printed = Printed(sender: nat, senderNet: seq<nat>, receiver: nat, receiverNet: seq<nat>,
                             id: nat, header: nat, count: nat, payload: string)

  function ValueOf(p: Printed, k: nat): string
    requires |p.senderNet| > 0 && |p.receiverNet| > 0
  {
    if k == 0 then Decimal(p.sender) else if k == 1 then Dotted(p.senderNet)
    else if k == 2 then Decimal(p.receiver) else if k == 3 then Dotted(p.receiverNet)
    else if k == 4 then Decimal(p.id) else if k == 5 then Decimal(p.header)
    else if k == 6 then Decimal(p.count) else Decimal(|p.payload|)
  }

  function FieldsOf(p: Printed): (fields: seq<Field>)
    requires |p.senderNet| > 0 && |p.receiverNet| > 0
    ensures |fields| == 8
  {
    seq(8, k requires 0 <= k < 8 => Field(NAMES[k], ValueOf(p, k)))
  }

  /** What the parser finds for a key: the payload's own mention of it, if there is one. */
  function Seen(payload: string, key: string, printed: string): string
    requires |key| > 0
  {
    if Occurs(key, payload) then First(Last(payload, key), " ") else printed
  }

  /** A text with a different character so far from its end does not end in w. */
  lemma Apart(a: string, w: string, fromEnd: nat)
    requires fromEnd < |w| && (fromEnd < |a| ==> a[|a| - 1 - fromEnd] != w[|w| - 1 - fromEnd])
    ensures !EndsWith(a, w)
  {
    if |w| <= |a| { assert a[|a| - |w|..][|w| - 1 - fromEnd] == a[|a| - 1 - fromEnd]; }
  }

  lemma NamesApart(k: nat)
    requires k < 4 || k == 7
    ensures forall j :: k < j < 8 ==> !EndsWith(NAMES[j], NAMES[k])
    ensures !EndsWith("data", NAMES[k])
  {
    hide EndsWith;
    if k == 0 {
      Apart("snd_net", "snd_id", 0);
      Apart("rcv_id", "snd_id", 3);
      Apart("rcv_net", "snd_id", 0);
      Apart("id", "snd_id", 2);
      Apart("hdr", "snd_id", 0);
      Apart("pckt_cnt", "snd_id", 0);
      Apart("len", "snd_id", 0);
      Apart("data", "snd_id", 0);
    } else if k == 1 {
      Apart("rcv_id", "snd_net", 0);
      Apart("rcv_net", "snd_net", 4);
      Apart("id", "snd_net", 0);
      Apart("hdr", "snd_net", 0);
      Apart("pckt_cnt", "snd_net", 1);
      Apart("len", "snd_net", 0);
      Apart("data", "snd_net", 0);
    } else if k == 2 {
      Apart("rcv_net", "rcv_id", 0);
      Apart("id", "rcv_id", 2);
      Apart("hdr", "rcv_id", 0);
      Apart("pckt_cnt", "rcv_id", 0);
      Apart("len", "rcv_id", 0);
      Apart("data", "rcv_id", 0);
    } else if k == 3 {
      Apart("id", "rcv_net", 0);
      Apart("hdr", "rcv_net", 0);
      Apart("pckt_cnt", "rcv_net", 1);
      Apart("len", "rcv_net", 0);
      Apart("data", "rcv_net", 0);
    } else if k == 7 {
      Apart("data", "len", 0);
    }
  }

  lemma NamesArePlain(k: nat)
    requires k < 8
    ensures IsPlain(NAMES[k])
  {}

  lemma DecimalIsPlain(n: nat)
    ensures IsPlain(Decimal(n))
  {}

  lemma ValueIsPlain(p: Printed, k: nat)
    requires |p.senderNet| > 0 && |p.receiverNet| > 0
    ensures IsPlain(ValueOf(p, k))
  {
    hide IsPlain;
    hide Decimal;
    hide Dotted;
    DecimalIsPlain(p.sender);
    DecimalIsPlain(p.receiver);
    DecimalIsPlain(p.id);
    DecimalIsPlain(p.header);
    DecimalIsPlain(p.count);
    DecimalIsPlain(|p.payload|);
    ParseDotted(p.senderNet);
    ParseDotted(p.receiverNet);
  }

  lemma FieldsArePlain(p: Printed)
    requires |p.senderNet| > 0 && |p.receiverNet| > 0
    ensures PlainFields(FieldsOf(p))
  {
    hide IsPlain;
    hide ValueOf;
    forall k | 0 <= k < 8 ensures IsPlain(FieldsOf(p)[k].name) && IsPlain(FieldsOf(p)[k].value) {
      NamesArePlain(k);
      ValueIsPlain(p, k);
    }
  }

  lemma FieldExtracted(p: Printed, payload: string, k: nat)
    requires |p.senderNet| > 0 && |p.receiverNet| > 0 && (k < 4 || k == 7)
    ensures FieldText(LineOf(FieldsOf(p), payload), NAMES[k] + "=") == Seen(payload, NAMES[k] + "=", ValueOf(p, k))
  {
    hide EndsWith;
    hide IsPlain;
    hide ValueOf;
    hide LineOf;
    var fields, key := FieldsOf(p), NAMES[k] + "=";
    if Occurs(key, payload) {
      var pre := LineSplit(fields);
      WordPlain(k);
      WordUnbordered(NAMES[k]);
      LastInside(pre + ("data" + "="), payload, key);
      assert LineOf(fields, payload) == pre + ("data" + "=") + payload;
    } else {
      FieldsArePlain(p);
      NamesApart(k);
      FieldFound(fields, payload, k);
    }
  }

  lemma WordPlain(k: nat)
    requires k < 8
    ensures '=' !in NAMES[k]
  {
    NamesArePlain(k);
  }

  /** What the parser makes of the line of p with the given rest of its payload. */
  function ReadBack(p: Printed, payload: string): Option<PiperPacket>
    requires |p.senderNet| > 0 && |p.receiverNet| > 0
  {
    var receiver := ParseInt(Seen(payload, "rcv_id=", Decimal(p.receiver)));
    var receiverNet := ParseNet(Seen(payload, "rcv_net=", Dotted(p.receiverNet)));
    var sender := ParseInt(Seen(payload, "snd_id=", Decimal(p.sender)));
    var senderNet := ParseNet(Seen(payload, "snd_net=", Dotted(p.senderNet)));
    var length := ParseInt(Seen(payload, "len=", Decimal(|p.payload|)));
    if receiver.None? || receiverNet.None? || sender.None? || senderNet.None? || length.None? then None
    else Some(PiperPacket(Last(payload, "data="), length.value,
                          PiperInfo(receiver.value, receiverNet.value, sender.value, senderNet.value)))
  }

  lemma FieldsExtracted(p: Printed, payload: string)
    requires |p.senderNet| > 0 && |p.receiverNet| > 0
    ensures PacketOf(LineOf(FieldsOf(p), payload)) == ReadBack(p, payload)
  {
    hide Occurs;
    hide FieldText;
    hide LineOf;
    hide ParseNet;
    hide ParseInt;
    hide PayloadText;
    hide Decimal;
    hide Dotted;
    hide Seen;
    hide Last;
    assert NAMES[0] + "=" == "snd_id=" && NAMES[1] + "=" == "snd_net=" && NAMES[2] + "=" == "rcv_id=";
    assert NAMES[3] + "=" == "rcv_net=" && NAMES[7] + "=" == "len=";
    FieldExtracted(p, payload, 0);
    FieldExtracted(p, payload, 1);
    FieldExtracted(p, payload, 2);
    FieldExtracted(p, payload, 3);
    FieldExtracted(p, payload, 7);
    var pre := LineSplit(FieldsOf(p));
    PayloadFound(pre, payload);
  }

  function LinePrinted(p: Printed): string
    requires |p.senderNet| > 0 && |p.receiverNet| > 0
  {
    LineOf(FieldsOf(p), p.payload)
  }

  lemma LineSplit(fields: seq<Field>) returns (pre: string)
    requires |fields| > 0
    ensures |pre| > 4 && pre[..4] == "#RCV"
    ensures forall payload :: LineOf(fields, payload) == pre + ("data" + "=" + payload)
  {
    hide Rest;
    var front := PayloadSplit(fields[0].value, fields[1..], "");
    pre := "#RCV " + fields[0].name + "=" + front;
    forall payload ensures LineOf(fields, payload) == pre + ("data" + "=" + payload) {
      assert Rest(fields[0].value, fields[1..], payload) == front + ("data" + "=" + payload);
    }
  }

  /** Stripping the line strips the payload. */
  lemma StripLine(fields: seq<Field>, payload: string)
    requires |fields| > 0
    ensures Strip(LineOf(fields, payload)) == LineOf(fields, StripRight(payload))
  {
    hide LineOf;
    hide StripRight;
    var pre := LineSplit(fields);
    var head := pre + "data" + "=";
    assert LineOf(fields, payload) == head + payload;
    assert LineOf(fields, StripRight(payload)) == head + StripRight(payload);
    assert (head + payload)[0] == '#';
    StripRightStops(head, payload);
  }

  predicate EndsInSpace(s: string) {
    |s| > 0 && IsSpace(s[|s| - 1])
  }

  /** For every payload: the line is reacted to as its fields are read back, if the length then fits. */
  lemma LineLaw(p: Printed)
    requires |p.senderNet| > 0 && |p.receiverNet| > 0
    ensures Process(LinePrinted(p)) ==
      var packet := ReadBack(p, StripRight(p.payload));
      if packet.Some? && packet.value.length == |packet.value.payload| then Received(packet.value) else Ignored
  {
    hide PacketOf;
    hide FieldsOf;
    hide LineOf;
    hide Strip;
    hide StripRight;
    hide ReadBack;
    var payload, fields := StripRight(p.payload), FieldsOf(p);
    StripLine(fields, p.payload);
    StripTwice(LineOf(fields, p.payload));
    FieldsExtracted(p, payload);
    var pre := LineSplit(fields);
    var line, l := LineOf(fields, p.payload), LineOf(fields, payload);
    assert |line| > 1 && Strip(line) == l && Strip(l) == l && StartsWith(l, "#RCV");
  }

  /** If the payload mentions the key, what stands behind the last mention is the printed number. */
  predicate AgreesOnNumber(payload: string, key: string, printed: nat)
    requires |key| > 0
  {
    Occurs(key, payload) ==> ParseInt(First(Last(payload, key), " ")) == Some(printed)
  }

  predicate AgreesOnNet(payload: string, key: string, printed: seq<nat>)
    requires |key| > 0
  {
    Occurs(key, payload) ==> ParseNet(First(Last(payload, key), " ")) == Some(printed)
  }

  /** The payload survives the line: nothing of it is stripped, begins the payload anew or contradicts a field. */
  predicate Survives(p: Printed) {
    && !Occurs("data=", p.payload) && !EndsInSpace(p.payload)
    && AgreesOnNumber(p.payload, "snd_id=", p.sender) && AgreesOnNet(p.payload, "snd_net=", p.senderNet)
    && AgreesOnNumber(p.payload, "rcv_id=", p.receiver) && AgreesOnNet(p.payload, "rcv_net=", p.receiverNet)
    && AgreesOnNumber(p.payload, "len=", |p.payload|)
  }

  lemma SeenNumber(payload: string, key: string, printed: nat)
    requires |key| > 0
    ensures ParseInt(Seen(payload, key, Decimal(printed))) == Some(printed) <==> AgreesOnNumber(payload, key, printed)
  {
    hide ParseInt;
    hide Last;
    hide First;
    ParseDecimal(printed);
  }

  lemma SeenNet(payload: string, key: string, printed: seq<nat>)
    requires |key| > 0 && |printed| > 0
    ensures ParseNet(Seen(payload, key, Dotted(printed))) == Some(printed) <==> AgreesOnNet(payload, key, printed)
  {
    hide ParseNet;
    hide Last;
    hide First;
    ParseDotted(printed);
  }

  function PacketPrinted(p: Printed): PiperPacket {
    PiperPacket(p.payload, |p.payload|, PiperInfo(p.receiver, p.receiverNet, p.sender, p.senderNet))
  }

  /** The fields are read back as printed exactly when the whole payload is left and agrees with them. */
  lemma ReadBackExactly(p: Printed, payload: string)
    requires |p.senderNet| > 0 && |p.receiverNet| > 0 && payload <= p.payload
    ensures ReadBack(p, payload) == Some(PacketPrinted(p))
            <==> && payload == p.payload && !Occurs("data=", payload)
                 && AgreesOnNumber(payload, "snd_id=", p.sender) && AgreesOnNet(payload, "snd_net=", p.senderNet)
                 && AgreesOnNumber(payload, "rcv_id=", p.receiver) && AgreesOnNet(payload, "rcv_net=", p.receiverNet)
                 && AgreesOnNumber(payload, "len=", |p.payload|)
  {
    hide ParseInt;
    hide ParseNet;
    hide Seen;
    hide AgreesOnNumber;
    hide AgreesOnNet;
    hide Last;
    hide Occurs;
    PayloadFound("", payload);
    SeenNumber(payload, "snd_id=", p.sender);
    SeenNet(payload, "snd_net=", p.senderNet);
    SeenNumber(payload, "rcv_id=", p.receiver);
    SeenNet(payload, "rcv_net=", p.receiverNet);
    SeenNumber(payload, "len=", |p.payload|);
  }

  /** A packet whose line is handed over whole is delivered as printed exactly when its payload survives the line. */
  lemma LineIsDelivered(p: Printed)
    requires |p.senderNet| > 0 && |p.receiverNet| > 0
    ensures Process(LinePrinted(p)) == Received(PacketPrinted(p)) <==> Survives(p)
  {
    hide ReadBack;
    hide Process;
    hide LinePrinted;
    hide AgreesOnNumber;
    hide AgreesOnNet;
    hide Occurs;
    hide StripRight;
    var payload := StripRight(p.payload);
    LineLaw(p);
    StripRightPrefix(p.payload);
    assert payload == p.payload[..|payload|];
    assert payload == p.payload <==> !EndsInSpace(p.payload);
    ReadBackExactly(p, payload);
  }

  /** A mention of one key is none of another key that its name does not end in. */
  lemma MentionsOnly(name: string, w: string, value: string)
    requires '=' !in w && '=' !in name && '=' !in value && !EndsWith(name, w)
    ensures !Occurs(w + "=", name + "=" + value)
  {
    if Occurs(w + "=", name + "=" + value) {
      OccursAtEquals(w, name, value);
      OccursNeedsEquals(w, value);
    }
  }

  lemma MentionRead(name: string, value: string)
    requires IsPlain(name) && IsPlain(value)
    ensures Occurs(name + "=", name + "=" + value)
    ensures First(Last(name + "=" + value, name + "="), " ") == value
  {
    var key, text := name + "=", name + "=" + value;
    assert At(text, key, 0);
    OccursNeedsEquals(name, value);
    LastWord("", name, value);
    assert "" + (key + value) == text;
    SplitNone(value, ' ');
  }

  lemma MentionStays(name: string, n: nat)
    ensures StripRight(name + "=" + Decimal(n)) == name + "=" + Decimal(n)
  {
    DecimalIsPlain(n);
  }

  lemma SenderMention(n: nat)
    ensures var q := "snd_id" + "=" + Decimal(n);
            && !Occurs("data=", q) && !Occurs("snd_net=", q) && !Occurs("rcv_id=", q)
            && !Occurs("rcv_net=", q) && !Occurs("len=", q)
  {
    hide Occurs;
    hide EndsWith;
    DecimalIsPlain(n);
    Apart("snd_id", "data", 0);
    Apart("snd_id", "snd_net", 0);
    Apart("snd_id", "rcv_id", 3);
    Apart("snd_id", "rcv_net", 0);
    Apart("snd_id", "len", 0);
    MentionsOnly("snd_id", "data", Decimal(n));
    MentionsOnly("snd_id", "snd_net", Decimal(n));
    MentionsOnly("snd_id", "rcv_id", Decimal(n));
    MentionsOnly("snd_id", "rcv_net", Decimal(n));
    MentionsOnly("snd_id", "len", Decimal(n));
    assert "data" + "=" == "data=" && "snd_net" + "=" == "snd_net=" && "rcv_id" + "=" == "rcv_id=";
    assert "rcv_net" + "=" == "rcv_net=" && "len" + "=" == "len=";
  }

  /** A payload that spells a sender id is delivered under that id, whoever sent it. */
  lemma SenderFromPayload(p: Printed, n: nat)
    requires |p.senderNet| > 0 && |p.receiverNet| > 0 && p.payload == "snd_id" + "=" + Decimal(n)
    ensures Process(LinePrinted(p)) == Received(PacketPrinted(p.(sender := n)))
  {
    hide Process;
    hide LinePrinted;
    hide Occurs;
    hide StripRight;
    hide ParseInt;
    hide ParseNet;
    hide First;
    hide Last;
    LineLaw(p);
    MentionStays("snd_id", n);
    SenderMention(n);
    DecimalIsPlain(n);
    MentionRead("snd_id", Decimal(n));
    assert "snd_id" + "=" == "snd_id=";
    ParseDecimal(n);
    ParseDecimal(p.receiver);
    ParseDecimal(|p.payload|);
    ParseDotted(p.senderNet);
    ParseDotted(p.receiverNet);
    PayloadFound("", p.payload);
  }

  /** A payload that spells a wrong length is ignored. */
  lemma LengthFromPayload(p: Printed, n: nat)
    requires |p.senderNet| > 0 && |p.receiverNet| > 0 && p.payload == "len" + "=" + Decimal(n) && n != |p.payload|
    ensures Process(LinePrinted(p)) == Ignored
  {
    hide Process;
    hide LinePrinted;
    hide Occurs;
    hide StripRight;
    hide ParseInt;
    hide ParseNet;
    hide First;
    hide Last;
    LineLaw(p);
    MentionStays("len", n);
    DecimalIsPlain(n);
    MentionRead("len", Decimal(n));
    assert "len" + "=" == "len=";
    ParseDecimal(n);
    PayloadFound("", p.payload);
    Apart("len", "data", 0);
    MentionsOnly("len", "data", Decimal(n));
    assert "data" + "=" == "data=";
  }

  // ----- Other lines -----

  function ErrorText(code: nat, data: nat): string {
    "#ERR " + ("code" + "=" + (Decimal(code) + [' '] + ("data" + "=" + Decimal(data))))
  }

  lemma ErrorFields(code: nat, data: nat)
    ensures FieldText(ErrorText(code, data), "code=") == Decimal(code)
    ensures Last(ErrorText(code, data), "data=") == Decimal(data)
  {
    hide Last;
    hide EndsWith;
    hide Occurs;
    var tail := "data" + "=" + Decimal(data);
    var rest := Decimal(code) + [' '] + tail;
    DecimalIsPlain(code);
    DecimalIsPlain(data);
    OccursNeedsEquals("code", Decimal(code));
    OccursNeedsEquals("code", Decimal(data));
    OccursNeedsEquals("data", Decimal(data));
    Apart("data", "code", 0);
    assert "code" + "=" == "code=" && "data" + "=" == "data=";
    if Occurs("code=", tail) { OccursAtEquals("code", "data", Decimal(data)); }
    if Occurs("code=", rest) { OccursAround("code=", Decimal(code), ' ', tail); }
    LastWord("#ERR ", "code", rest);
    FirstPiece(Decimal(code), ' ', tail);
    var pre := "#ERR " + ("code" + "=" + (Decimal(code) + [' ']));
    assert ErrorText(code, data) == pre + tail;
    LastWord(pre, "data", Decimal(data));
  }

  lemma ErrorTextStays(code: nat, data: nat)
    ensures var line := ErrorText(code, data); |line| > 4 && Strip(line) == line && line[..4] == "#ERR"
  {
    var line, digits := ErrorText(code, data), Decimal(data);
    hide Decimal;
    assert line[|line| - 1] == digits[|digits| - 1];
    assert IsDigit(line[|line| - 1]);
    StripLaw("", line, "");
    assert "" + line + "" == line;
  }

  /** An error line is reported with its code and its data. */
  lemma ErrorIsReported(code: nat, data: nat)
    ensures Process(ErrorText(code, data)) == Failed(code, data)
  {
    ErrorFields(code, data);
    ErrorTextStays(code, data);
    ParseDecimal(code);
    ParseDecimal(data);
    hide ErrorText;
    hide PacketOf;
    hide Strip;
    hide Last;
    hide First;
    hide ParseInt;
  }

  /** Lines of another kind, and lines of at most one character, make no call. */
  lemma OthersAreIgnored(line: string)
    requires |line| <= 1 || (!StartsWith(Strip(Strip(line)), "#RCV") && !StartsWith(Strip(Strip(line)), "#ERR"))
    ensures Process(line) == Ignored
  {}

  // ----- The processor's loop -----

  function Receipts(lines: seq<string>): seq<PiperPacket> {
    if |lines| == 0 then []
    else
      var r := Process(lines[|lines| - 1]);
      Receipts(lines[..|lines| - 1]) + if r.Received? then [r.packet] else []
  }

  function Failures(lines: seq<string>): seq<(int, int)> {
    if |lines| == 0 then []
    else
      var r := Process(lines[|lines| - 1]);
      Failures(lines[..|lines| - 1]) + if r.Failed? then [(r.code, r.data)] else []
  }

  /** The line was read as a packet, whether or not its length fits. */
  predicate IsRead(line: string) {
    |line| > 1 && StartsWith(Strip(Strip(line)), "#RCV") && PacketOf(Strip(line)).Some?
  }

  lemma PushLine(lines: seq<string>, line: string)
    ensures var r := Process(line);
            && Receipts(lines + [line]) == Receipts(lines) + (if r.Received? then [r.packet] else [])
            && Failures(lines + [line]) == Failures(lines) + (if r.Failed? then [(r.code, r.data)] else [])
  {
    assert (lines + [line])[..|lines|] == lines;
  }

  /** How the application's function takes a call: OtherError stands for an IOError or an AttributeError. */
  datatype Callback = Returns | RaisesValueError | RaisesOther

  /** A line taken off the queue, and what the application's function would do if the line made a call. */
  datatype Handling = Handling(line: string, callback: Callback)

  predicate MakesCall(line: string) {
    Process(line).Received? || Process(line).Failed?
  }

  /** The call raised an error that ends the thread. */
  predicate Breaks(h: Handling) {
    h.callback.RaisesOther? && MakesCall(h.line)
  }

  /** A line that was read resets the watchdog, unless its receiver call raised. */
  predicate Resets(h: Handling) {
    IsRead(h.line) && (Process(h.line).Received? ==> h.callback.Returns?)
  }

  function LinesOf(hs: seq<Handling>): seq<string> {
    seq(|hs|, i requires 0 <= i < |hs| => hs[i].line)
  }

  function ResetCount(hs: seq<Handling>): nat {
    if |hs| == 0 then 0 else ResetCount(hs[..|hs| - 1]) + if Resets(hs[|hs| - 1]) then 1 else 0
  }

  lemma PushHandling(hs: seq<Handling>, h: Handling)
    ensures LinesOf(hs + [h]) == LinesOf(hs) + [h.line]
    ensures ResetCount(hs + [h]) == ResetCount(hs) + if Resets(h) then 1 else 0
  {
    assert (hs + [h])[..|hs|] == hs;
  }

  lemma NoLines()
    ensures LinesOf([]) == [] && Receipts([]) == [] && Failures([]) == [] && ResetCount([]) == 0
  {}

  /** One turn of the thread's loop: whether the start of the client has failed, and the line waiting, if any. */
  datatype Turn = Turn(startFailed: bool, handling: Option<Handling>)

  /** The lines that are taken off the queue before the thread stops or breaks off. */
  function Taken(stopped: bool, turns: seq<Turn>): seq<Handling> {
    if |turns| == 0 || stopped || turns[0].startFailed then []
    else if turns[0].handling.None? then Taken(false, turns[1..])
    else
      var h := turns[0].handling.value;
      [h] + if Breaks(h) then [] else Taken(false, turns[1..])
  }

  /** The thread comes to the turn in which the start of the client has failed. */
  function MeetsFailure(stopped: bool, turns: seq<Turn>): bool {
    |turns| > 0 &&
    (turns[0].startFailed ||
      (!stopped && !(turns[0].handling.Some? && Breaks(turns[0].handling.value)) && MeetsFailure(false, turns[1..])))
  }

  lemma PrintedIsRead(p: Printed)
    requires |p.senderNet| > 0 && |p.receiverNet| > 0
    ensures IsRead(LinePrinted(p)) <==> ReadBack(p, StripRight(p.payload)).Some?
  {
    hide PacketOf;
    hide FieldsOf;
    hide LineOf;
    hide Strip;
    hide StripRight;
    hide ReadBack;
    var payload, fields := StripRight(p.payload), FieldsOf(p);
    StripLine(fields, p.payload);
    StripTwice(LineOf(fields, p.payload));
    FieldsExtracted(p, payload);
    var pre := LineSplit(fields);
    var line, l := LineOf(fields, p.payload), LineOf(fields, payload);
    assert |line| > 1 && Strip(line) == l && Strip(l) == l && StartsWith(l, "#RCV");
  }

  /**
   * A printed packet whose fields can be read resets the watchdog, with a right length or not, unless the receiver
   * function raises; only an error that is no ValueError ends the loop, and only if there was a call.
   */
  lemma PrintedIsHandled(p: Printed, callback: Callback)
    requires |p.senderNet| > 0 && |p.receiverNet| > 0
    ensures var packet, h := ReadBack(p, StripRight(p.payload)), Handling(LinePrinted(p), callback);
            var called := packet.Some? && packet.value.length == |packet.value.payload|;
            && Resets(h) == (packet.Some? && (called ==> callback == Returns))
            && Breaks(h) == (called && callback == RaisesOther)
  {
    PrintedIsRead(p);
    LineLaw(p);
    hide Process;
    hide IsRead;
    hide ReadBack;
    hide LinePrinted;
    hide StripRight;
  }

  function LinesIn(turns: seq<Turn>): seq<string> {
    if |turns| == 0 then []
    else (if turns[0].handling.Some? then [turns[0].handling.value.line] else []) + LinesIn(turns[1..])
  }

  /** Without a failed start and without a call that ends the loop, every line is handled, in order. */
  lemma {:induction false} AllLinesTaken(turns: seq<Turn>)
    requires forall i :: 0 <= i < |turns| ==>
               !turns[i].startFailed && (turns[i].handling.Some? ==> !Breaks(turns[i].handling.value))
    ensures LinesOf(Taken(false, turns)) == LinesIn(turns) && !MeetsFailure(false, turns)
    decreases |turns|
  {
    hide Breaks;
    if |turns| == 0 {
    } else {
      AllLinesTaken(turns[1..]);
      if turns[0].handling.Some? {
        var h, later := turns[0].handling.value, Taken(false, turns[1..]);
        assert LinesOf([h] + later) == [h.line] + LinesOf(later);
      } else {
        assert [] + LinesIn(turns[1..]) == LinesIn(turns[1..]);
      }
    }
  }

  lemma LastTurn(hs: seq<Handling>, stopped: bool, turns: seq<Turn>)
    requires |turns| == 0 || stopped || turns[0].startFailed
    ensures hs + Taken(stopped, turns) == hs
    ensures MeetsFailure(stopped, turns) == (|turns| > 0 && turns[0].startFailed)
  {}

  lemma NextTurn(hs: seq<Handling>, turns: seq<Turn>)
    requires |turns| > 0 && !turns[0].startFailed
    ensures var handling, rest := turns[0].handling, turns[1..];
            if handling.None? then
              Taken(false, turns) == Taken(false, rest) && MeetsFailure(false, turns) == MeetsFailure(false, rest)
            else
              var broke := Breaks(handling.value);
              && hs + Taken(false, turns) == (hs + [handling.value]) + (if broke then [] else Taken(false, rest))
              && MeetsFailure(false, turns) == (!broke && MeetsFailure(false, rest))
  {
    hide Breaks;
    if turns[0].handling.Some? {
      var h := turns[0].handling.value;
      var later := if Breaks(h) then [] else Taken(false, turns[1..]);
      assert hs + ([h] + later) == (hs + [h]) + later;
    }
  }

  class ReceivedPacketsProcessor {
    const watchdogEnabled: bool
    var stopped: bool
    var clientStopped: bool
    var receiverCalls: seq<PiperPacket>
    var errorCalls: seq<(int, int)>
    var watchdogResets: nat

    constructor (watchdogEnabled: bool)
      ensures this.watchdogEnabled == watchdogEnabled && !stopped && !clientStopped
      ensures receiverCalls == [] && errorCalls == [] && watchdogResets == 0
    {
      this.watchdogEnabled := watchdogEnabled;
      stopped, clientStopped, receiverCalls, errorCalls, watchdogResets := false, false, [], [], 0;
    }

    ghost predicate HasHandled(hs: seq<Handling>, receipts: seq<PiperPacket>, failures: seq<(int, int)>, resets: nat)
      reads this
    {
      && receiverCalls == receipts + Receipts(LinesOf(hs)) && errorCalls == failures + Failures(LinesOf(hs))
      && watchdogResets == resets + if watchdogEnabled then ResetCount(hs) else 0
    }

    /** One line; a ValueError is caught, another error goes on. */
    method HandleLine(h: Handling) returns (broke: bool)
      modifies this`receiverCalls, this`errorCalls, this`watchdogResets
      ensures broke == Breaks(h)
      ensures var r := Process(h.line);
              && receiverCalls == old(receiverCalls) + (if r.Received? then [r.packet] else [])
              && errorCalls == old(errorCalls) + (if r.Failed? then [(r.code, r.data)] else [])
              && watchdogResets == old(watchdogResets) + if watchdogEnabled && Resets(h) then 1 else 0
    {
      hide PacketOf;
      hide Strip;
      hide ParseInt;
      hide First;
      hide Last;
      broke := false;
      if |h.line| > 1 {
        var text := Strip(h.line);
        if StartsWith(Strip(text), "#RCV") {
          var packet := PacketOf(text);
          if packet.Some? {
            if packet.value.length == |packet.value.payload| {
              receiverCalls := receiverCalls + [packet.value];
              if !h.callback.Returns? {
                return h.callback.RaisesOther?;
              }
            }
            if watchdogEnabled {
              watchdogResets := watchdogResets + 1;
            }
          }
        } else if StartsWith(Strip(text), "#ERR") {
          var code, data := ParseInt(First(Last(text, "code="), " ")), ParseInt(Last(text, "data="));
          if code.Some? && data.Some? {
            errorCalls := errorCalls + [(code.value, data.value)];
            broke := h.callback.RaisesOther?;
          }
        }
      }
    }

    /** One more line after those in hs. */
    method HandleNext(h: Handling, ghost hs: seq<Handling>, ghost receipts: seq<PiperPacket>,
                      ghost failures: seq<(int, int)>, ghost resets: nat)
      returns (broke: bool)
      requires HasHandled(hs, receipts, failures, resets)
      modifies this`receiverCalls, this`errorCalls, this`watchdogResets
      ensures broke == Breaks(h) && HasHandled(hs + [h], receipts, failures, resets)
    {
      hide Process;
      hide Breaks;
      hide Resets;
      hide Receipts;
      hide Failures;
      hide ResetCount;
      hide LinesOf;
      PushHandling(hs, h);
      PushLine(LinesOf(hs), h.line);
      broke := HandleLine(h);
    }

    /** Works off the queue until the start of the client has failed, the thread is stopped, or a call breaks it off. */
    method Run(turns: seq<Turn>)
      modifies this
      ensures HasHandled(Taken(old(stopped), turns), old(receiverCalls), old(errorCalls), old(watchdogResets))
      ensures stopped <==> old(stopped) || MeetsFailure(old(stopped), turns)
      ensures clientStopped <==> old(clientStopped) || MeetsFailure(old(stopped), turns)
    {
      hide Process;
      hide IsRead;
      hide Breaks;
      hide Resets;
      hide Receipts;
      hide Failures;
      hide ResetCount;
      hide LinesOf;
      hide Taken;
      hide MeetsFailure;
      NoLines();
      ghost var hs: seq<Handling> := [];
      assert receiverCalls + [] == receiverCalls && errorCalls + [] == errorCalls;
      assert turns[0..] == turns && [] + Taken(stopped, turns) == Taken(stopped, turns);
      var i := 0;
      while i < |turns|
        invariant i <= |turns|
        invariant HasHandled(hs, old(receiverCalls), old(errorCalls), old(watchdogResets))
        invariant Taken(old(stopped), turns) == hs + Taken(stopped, turns[i..])
        invariant MeetsFailure(old(stopped), turns) == MeetsFailure(stopped, turns[i..])
        invariant stopped == old(stopped) && clientStopped == old(clientStopped)
      {
        ghost var rest := turns[i..];
        assert rest[0] == turns[i] && rest[1..] == turns[i + 1..];
        if stopped || turns[i].startFailed { LastTurn(hs, stopped, rest); } else { NextTurn(hs, rest); }
        if turns[i].startFailed {
          clientStopped, stopped := true, true;
        }
        if stopped {
          return;
        }
        if turns[i].handling.Some? {
          var h := turns[i].handling.value;
          var broke := HandleNext(h, hs, old(receiverCalls), old(errorCalls), old(watchdogResets));
          hs := hs + [h];
          if broke {
            assert hs + [] == hs;
            return;
          }
        }
        i := i + 1;
      }
      LastTurn(hs, stopped, turns[i..]);
    }
  }
}
