/** Repeated `receive` calls on a byte stream, and `receive` on damaged frames. */
module Streams {
  import opened PjonConstants
  import opened Crc8
  import opened CrcAlgebra
  import opened Frames

  // ----- One call -----

  /** ACK and NAK read exactly the declared length; only ACK delivers, and only it answers. */
  lemma ReceptionDiscipline(id: byte, s: seq<byte>)
    ensures var r := Receive(id, s);
            && (r.code == ACK || r.code == NAK ==> |s| > 1 && r.consumed == Value(s[1]))
            && (r.delivery.Some? <==> r.code == ACK)
            && (r.acknowledged <==> r.code == ACK && WantsAck(s[2]) && s[0] != BROADCAST)
  {
    if Receive(id, s).code == ACK { AcceptedIsFrame(id, s); }
  }

  /** A call that did not run dry is blind to whatever follows the bytes it has read. */
  lemma ReceptionIsLocal(id: byte, s: seq<byte>, more: seq<byte>)
    requires Receive(id, s).code != FAIL || (|s| > 1 && !ValidLength(Value(s[1])))
    ensures Receive(id, s + more) == Receive(id, s)
  {
    if |s| > 2 && Value(s[1]) <= |s| {
      assert (s + more)[..Value(s[1])] == s[..Value(s[1])];
    }
  }

  /** The frame is addressed to this device, and one that `receive` can take. */
  predicate Takes(id: byte, m: Message) {
    ForMe(id, m.recipient) && Receivable(m)
  }

  /** The same fields on the wire: the sender counts only if it travels. */
  predicate SameOnWire(a: Message, b: Message) {
    && a.recipient == b.recipient && a.header == b.header && a.payload == b.payload
    && (HasSender(a.header) ==> a.sender == b.sender)
  }

  lemma FrameOnWire(m: Message, rest: seq<byte>)
    ensures var s, n, p := Frame(m) + rest, FrameLength(m), MetaSize(m.header) - 1;
            && s[0] == m.recipient && Value(s[1]) == n && s[2] == m.header
            && (HasSender(m.header) ==> s[3] == m.sender)
            && s[p..n - 1] == m.payload && s[n..] == rest
  {
    ValueByte(FrameLength(m));
  }

  /** No frame is a proper prefix of another, and equal frames spell equal messages. */
  lemma FramesPrefixFree(a: Message, x: seq<byte>, b: Message, y: seq<byte>)
    requires Frame(a) + x == Frame(b) + y
    ensures SameOnWire(a, b) && x == y
  {
    FrameOnWire(a, x);
    FrameOnWire(b, y);
  }

  lemma SameOnWireDelivers(a: Message, b: Message)
    requires SameOnWire(a, b)
    ensures DeliveryOf(a) == DeliveryOf(b) && Receivable(a) == Receivable(b)
  {}

  /** A frame accepted from its first byte on is accepted for what it says, to its last byte. */
  lemma AcceptedFrame(id: byte, m: Message)
    requires Receive(id, Frame(m)).code == ACK
    ensures ForMe(id, m.recipient) && Receivable(m)
    ensures var r := Receive(id, Frame(m));
            && r.delivery == Some(DeliveryOf(m)) && r.consumed == FrameLength(m)
            && r.acknowledged == (WantsAck(m.header) && m.recipient != BROADCAST)
  {
    hide Crc;
    hide Receive;
    hide Frame;
    var f, n := Frame(m), Receive(id, Frame(m)).consumed;
    AcceptedIsFrame(id, f);
    var read: Message := MessageOf(f[..n]);
    assert Frame(read) + f[n..] == Frame(m) + [];
    FramesPrefixFree(read, f[n..], m, []);
    SameOnWireDelivers(read, m);
  }

  /** A call returns ACK exactly when the input starts with a frame that the device takes. */
  lemma AcceptedExactly(id: byte, s: seq<byte>)
    ensures Receive(id, s).code == ACK <==> exists m: Message :: Takes(id, m) && Frame(m) <= s
  {
    hide Crc;
    hide Receive;
    hide Frame;
    if Receive(id, s).code == ACK {
      AcceptedIsFrame(id, s);
      var m: Message := MessageOf(s[..Receive(id, s).consumed]);
      assert Takes(id, m) && Frame(m) <= s;
    }
    if m: Message :| Takes(id, m) && Frame(m) <= s {
      ReceiveFrame(id, m, s[|Frame(m)|..]);
      assert s == Frame(m) + s[|Frame(m)|..];
    }
  }

  // ----- A stream of frames -----

  /** The calls it takes to use up the bytes s. */
  function Calls(id: byte, s: seq<byte>): seq<Reception>
    decreases |s|
  {
    if |s| == 0 then []
    else
      var r := Receive(id, s);
      [r] + Calls(id, s[r.consumed..])
  }

  function Delivered(calls: seq<Reception>): seq<Delivery> {
    if |calls| == 0 then []
    else (if calls[0].delivery.Some? then [calls[0].delivery.value] else []) + Delivered(calls[1..])
  }

  function Wire(ms: seq<Message>): seq<byte>
  {
    if |ms| == 0 then [] else Frame(ms[0]) + Wire(ms[1..])
  }

  /** No byte of s could be taken for the start of a packet to this device. */
  predicate Silent(id: byte, s: seq<byte>) {
    forall k :: 0 <= k < |s| ==> !ForMe(id, s[k])
  }

  /** The call ends because no further byte arrives. */
  predicate RunsDry(id: byte, s: seq<byte>) {
    Receive(id, s).code == FAIL && (|s| < 2 || ValidLength(Value(s[1])))
  }

  /** The calls on s alone accept nothing, and none of them waits for a byte behind s. */
  predicate Idle(id: byte, s: seq<byte>)
    decreases |s|
  {
    |s| == 0 || (Receive(id, s).code != ACK && !RunsDry(id, s) && Idle(id, s[Receive(id, s).consumed..]))
  }

  /** The frame is taken, or leaves the device idle. */
  predicate Separable(id: byte, m: Message) {
    Takes(id, m) || Idle(id, Frame(m))
  }

  predicate AllSeparable(id: byte, ms: seq<Message>) {
    forall k :: 0 <= k < |ms| ==> Separable(id, ms[k])
  }

  /** What the device should be handed: the frames it takes, in order. */
  function Addressed(id: byte, ms: seq<Message>): seq<Delivery> {
    if |ms| == 0 then []
    else (if Takes(id, ms[0]) then [DeliveryOf(ms[0])] else []) + Addressed(id, ms[1..])
  }

  /** The first call on idle bytes ends within them, delivers nothing and leaves idle bytes. */
  lemma IdleCall(id: byte, junk: seq<byte>, s: seq<byte>)
    requires Idle(id, junk) && |junk| > 0
    ensures var r := Receive(id, junk + s);
            && r == Receive(id, junk) && 0 < r.consumed <= |junk|
            && r.delivery.None? && !r.acknowledged
            && Idle(id, junk[r.consumed..]) && (junk + s)[r.consumed..] == junk[r.consumed..] + s
  {
    ReceptionIsLocal(id, junk, s);
    ReceptionDiscipline(id, junk);
  }

  lemma {:induction false} SkipIdle(id: byte, junk: seq<byte>, s: seq<byte>)
    requires Idle(id, junk)
    ensures Delivered(Calls(id, junk + s)) == Delivered(Calls(id, s))
    decreases |junk|
  {
    hide Receive;
    if |junk| == 0 {
      assert junk + s == s;
    } else {
      IdleCall(id, junk, s);
      SkipIdle(id, junk[Receive(id, junk).consumed..], s);
    }
  }

  lemma OwnFrameFirst(id: byte, m: Message, s: seq<byte>)
    requires ForMe(id, m.recipient) && Receivable(m)
    ensures var calls := Calls(id, Frame(m) + s);
            && calls == [calls[0]] + Calls(id, s)
            && calls[0].code == ACK && calls[0].delivery == Some(DeliveryOf(m))
  {
    hide Receive;
    ReceiveFrame(id, m, s);
    assert (Frame(m) + s)[FrameLength(m)..] == s;
  }

  lemma SeparableFirst(id: byte, m: Message, s: seq<byte>)
    requires Separable(id, m)
    ensures Delivered(Calls(id, Frame(m) + s)) == Addressed(id, [m]) + Delivered(Calls(id, s))
  {
    hide Receive;
    hide Frame;
    assert Addressed(id, [m]) == (if Takes(id, m) then [DeliveryOf(m)] else []) + Addressed(id, []);
    if Takes(id, m) {
      OwnFrameFirst(id, m, s);
    } else {
      SkipIdle(id, Frame(m), s);
    }
  }

  /** Any concatenation of separable frames is decoded to exactly the addressed ones, whatever follows. */
  lemma {:induction false} StreamDecoding(id: byte, ms: seq<Message>, rest: seq<byte>)
    requires AllSeparable(id, ms)
    ensures Delivered(Calls(id, Wire(ms) + rest)) == Addressed(id, ms) + Delivered(Calls(id, rest))
    decreases |ms|
  {
    hide Receive;
    hide Frame;
    hide Separable;
    hide Takes;
    hide DeliveryOf;
    hide Calls;
    hide Delivered;
    if |ms| == 0 {
      assert [] + rest == rest;
    } else {
      var after := Wire(ms[1..]) + rest;
      StreamDecoding(id, ms[1..], rest);
      assert Wire(ms) + rest == Frame(ms[0]) + after;
      SeparableFirst(id, ms[0], after);
      assert Addressed(id, ms) == Addressed(id, [ms[0]]) + Addressed(id, ms[1..]);
    }
  }

  // ----- Separability is exactly what it takes -----

  lemma {:induction false} DeliveredFits(id: byte, s: seq<byte>, d: Delivery)
    requires d in Delivered(Calls(id, s))
    ensures 5 <= d.length <= |s|
    decreases |s|
  {
    if |s| == 0 {
    } else {
      var r := Receive(id, s);
      if r.code == ACK { AcceptedIsFrame(id, s); }
      ReceptionDiscipline(id, s);
      if d in Delivered(Calls(id, s[r.consumed..])) { DeliveredFits(id, s[r.consumed..], d); }
    }
  }

  lemma ShortStream(id: byte, s: seq<byte>)
    requires |s| < 5
    ensures Delivered(Calls(id, s)) == []
  {
    hide Receive;
    var ds := Delivered(Calls(id, s));
    if |ds| > 0 { DeliveredFits(id, s, ds[0]); }
  }

  function Repeated(c: byte, n: nat): (s: seq<byte>)
    ensures |s| == n && forall k :: 0 <= k < n ==> s[k] == c
  {
    if n == 0 then [] else [c] + Repeated(c, n - 1)
  }

  /** A byte that addresses nobody here and is the header of a local bus. */
  function Filler(id: byte): (c: byte)
    ensures !ForMe(id, c) && !IsShared(c)
  {
    if id == 2 then 4 else 2
  }

  lemma {:induction false} SilentIsIdle(id: byte, s: seq<byte>)
    requires Silent(id, s)
    ensures Idle(id, s)
    decreases |s|
  {
    if |s| == 0 {
    } else {
      SilentIsIdle(id, s[1..]);
    }
  }

  lemma Completes(id: byte, g: seq<byte>, fill: seq<byte>)
    requires |g| > 1 && ForMe(id, g[0]) && ValidLength(Value(g[1])) && |g| + |fill| + 1 == Value(g[1])
    requires !IsShared((g + fill)[2])
    ensures var s := g + fill + [Crc(g + fill)];
            Receive(id, s).code == ACK && Receive(id, s).consumed == |s|
  {
    var s := g + fill + [Crc(g + fill)];
    assert s[..|s|] == s && s[..|s| - 1] == g + fill;
  }

  function MissingFill(id: byte, g: seq<byte>): (fill: seq<byte>)
    requires |g| > 1 && |g| < Value(g[1])
    ensures |fill| == Value(g[1]) - |g| - 1 && forall k :: 0 <= k < |fill| ==> !ForMe(id, fill[k]) && !IsShared(fill[k])
  {
    Repeated(Filler(id), Value(g[1]) - |g| - 1)
  }

  /** A started packet, filled up to its length and sealed. */
  function Filled(id: byte, g: seq<byte>): (s: seq<byte>)
    requires |g| > 1 && |g| < Value(g[1])
    ensures |s| == Value(g[1]) - |g|
  {
    MissingFill(id, g) + [Crc(g + MissingFill(id, g))]
  }

  lemma FilledCompletes(id: byte, g: seq<byte>)
    requires |g| > 1 && ForMe(id, g[0]) && ValidLength(Value(g[1])) && |g| < Value(g[1])
    requires |g| > 2 ==> !IsShared(g[2])
    ensures Receive(id, g + Filled(id, g)).code == ACK && Receive(id, g + Filled(id, g)).consumed == |g + Filled(id, g)|
  {
    hide Crc;
    hide Receive;
    hide IsShared;
    hide ForMe;
    var fill := MissingFill(id, g);
    Completes(id, g, fill);
    assert g + Filled(id, g) == g + fill + [Crc(g + fill)];
  }

  lemma FilledIsNothing(id: byte, g: seq<byte>)
    requires |g| > 1 && |g| < Value(g[1])
    ensures Delivered(Calls(id, Filled(id, g))) == []
  {
    hide Crc;
    hide Receive;
    hide Calls;
    hide Delivered;
    var fill := MissingFill(id, g);
    SilentIsIdle(id, fill);
    SkipIdle(id, fill, [Crc(g + fill)]);
    ShortStream(id, [Crc(g + fill)]);
  }

  lemma RunsDryShort(id: byte, s: seq<byte>)
    requires |s| > 0 && RunsDry(id, s)
    ensures ForMe(id, s[0])
    ensures |s| > 1 ==> ValidLength(Value(s[1])) && |s| < Value(s[1]) && (|s| > 2 ==> !IsShared(s[2]))
  {}

  /** The address alone is completed to a packet of five bytes. */
  lemma CompletionOfAddress(id: byte, s: seq<byte>, five: byte) returns (rest: seq<byte>)
    requires |s| == 1 && ForMe(id, s[0]) && Value(five) == 5
    ensures Receive(id, s + rest).code == ACK && Receive(id, s + rest).consumed == |s + rest|
    ensures Delivered(Calls(id, rest)) == []
  {
    assert ValidLength(5);
    hide *;
    var g := s + [five];
    FilledCompletes(id, g);
    rest := [five] + Filled(id, g);
    assert s + rest == g + Filled(id, g);
    ShortStream(id, rest);
  }

  /** Bytes that run dry can be completed by bytes that mean nothing on their own. */
  lemma Completion(id: byte, s: seq<byte>) returns (rest: seq<byte>)
    requires |s| > 0 && RunsDry(id, s)
    ensures Receive(id, s + rest).code == ACK && Receive(id, s + rest).consumed == |s + rest|
    ensures Delivered(Calls(id, rest)) == []
  {
    hide Receive;
    RunsDryShort(id, s);
    hide *;
    if |s| == 1 {
      ValueByte(5);
      rest := CompletionOfAddress(id, s, ByteOf(5));
    } else {
      rest := Filled(id, s);
      FilledCompletes(id, s);
      FilledIsNothing(id, s);
    }
  }

  lemma AcceptedAtOnce(id: byte, s: seq<byte>)
    requires Receive(id, s).code == ACK
    ensures |Delivered(Calls(id, s))| > 0
  {
    ReceptionDiscipline(id, s);
  }

  /** Bytes that are not idle change what is delivered after them, for some continuation. */
  lemma {:induction false} Disturbs(id: byte, junk: seq<byte>) returns (rest: seq<byte>)
    requires !Idle(id, junk)
    ensures Delivered(Calls(id, junk + rest)) != Delivered(Calls(id, rest))
    decreases |junk|
  {
    var r := Receive(id, junk);
    hide Receive;
    if r.code == ACK {
      rest := [];
      AcceptedAtOnce(id, junk);
      assert junk + rest == junk;
    } else if RunsDry(id, junk) {
      rest := Completion(id, junk);
      AcceptedAtOnce(id, junk + rest);
    } else {
      rest := Disturbs(id, junk[r.consumed..]);
      ReceptionIsLocal(id, junk, rest);
      ReceptionDiscipline(id, junk);
      assert (junk + rest)[r.consumed..] == junk[r.consumed..] + rest;
    }
  }

  /** Whatever is delivered spells a receivable message: no byte stream delivers any other. */
  lemma {:induction false} UnreceivableIsLost(id: byte, m: Message, s: seq<byte>)
    requires !Receivable(m)
    ensures DeliveryOf(m) !in Delivered(Calls(id, s))
    decreases |s|
  {
    if |s| == 0 {
    } else {
      var r := Receive(id, s);
      UnreceivableIsLost(id, m, s[r.consumed..]);
      ReceptionDiscipline(id, s);
      if r.code == ACK { AcceptedIsFrame(id, s); }
    }
  }

  ghost predicate DecodedBefore(id: byte, m: Message, rest: seq<byte>) {
    Delivered(Calls(id, Frame(m) + rest)) == Addressed(id, [m]) + Delivered(Calls(id, rest))
  }

  /** A frame is decoded as it should be in front of every continuation exactly when it is separable. */
  lemma SeparableExactly(id: byte, m: Message)
    ensures Separable(id, m) <==> forall rest :: DecodedBefore(id, m, rest)
  {
    hide Receive;
    hide Frame;
    if Separable(id, m) {
      forall rest ensures DecodedBefore(id, m, rest) { SeparableFirst(id, m, rest); }
    } else {
      assert Addressed(id, [m]) == [] + Addressed(id, []);
      var rest := Disturbs(id, Frame(m));
      assert !DecodedBefore(id, m, rest);
    }
  }

  /** So the filter leaks: a frame for somebody else hands over all the frames it carries. */
  lemma EmbeddedFramesAreDelivered(id: byte, inner: seq<Message>, recipient: byte, header: byte)
    requires AllSeparable(id, inner) && |Wire(inner)| + 4 < 256
    requires !HasSender(header) && Silent(id, [recipient, LengthByte(|Wire(inner)| + 4), header])
    ensures Delivered(Calls(id, Frame(Fields(recipient, header, 0, Wire(inner))))) == Addressed(id, inner)
  {
    hide Receive;
    hide Crc;
    hide AllSeparable;
    var outer := Fields(recipient, header, 0, Wire(inner));
    var seal := Crc(Body(outer));
    var start := [recipient, LengthByte(|Wire(inner)| + 4), header];
    assert Frame(outer) == start + (Wire(inner) + [seal]);
    SilentIsIdle(id, start);
    SkipIdle(id, start, Wire(inner) + [seal]);
    StreamDecoding(id, inner, [seal]);
    ShortStream(id, [seal]);
  }

  // ----- Streams without an error code -----

  predicate NoErrors(calls: seq<Reception>) {
    forall k :: 0 <= k < |calls| ==> calls[k].code == ACK || calls[k].code == BUSY
  }

  /** Every frame is taken, or never mentions the device's id or the broadcast address. */
  predicate AllQuiet(id: byte, ms: seq<Message>) {
    forall k :: 0 <= k < |ms| ==> Takes(id, ms[k]) || Silent(id, Frame(ms[k]))
  }

  lemma {:induction false} SkipSilent(id: byte, junk: seq<byte>, s: seq<byte>)
    requires Silent(id, junk) && NoErrors(Calls(id, s))
    ensures NoErrors(Calls(id, junk + s))
    decreases |junk|
  {
    if |junk| == 0 {
      assert junk + s == s;
    } else {
      var t := junk + s;
      assert Receive(id, t) == Refused(BUSY, 1);
      assert t[1..] == junk[1..] + s;
      SkipSilent(id, junk[1..], s);
    }
  }

  /** Frames of which the others are silent are decoded without any call failing. */
  lemma {:induction false} QuietStream(id: byte, ms: seq<Message>)
    requires AllQuiet(id, ms)
    ensures AllSeparable(id, ms) && NoErrors(Calls(id, Wire(ms)))
    decreases |ms|
  {
    hide Receive;
    hide Frame;
    if |ms| == 0 {
    } else {
      QuietStream(id, ms[1..]);
      if Takes(id, ms[0]) {
        OwnFrameFirst(id, ms[0], Wire(ms[1..]));
      } else {
        SkipSilent(id, Frame(ms[0]), Wire(ms[1..]));
        SilentIsIdle(id, Frame(ms[0]));
      }
      forall k | 0 <= k < |ms| ensures Separable(id, ms[k]) {
        if k > 0 { assert Separable(id, ms[1..][k - 1]); }
      }
    }
  }

  // ----- Damaged frames -----

  /**
   * Damaged input is accepted exactly when what it then says is addressed, local, of a valid length and in reach,
   * and the intact bytes up to that length have the checksum of the errors up to it.
   */
  lemma Damaged(id: byte, s: seq<byte>, e: seq<byte>)
    requires |e| == |s| > 2
    ensures var n := Value(Plus(s[1], e[1]));
            Receive(id, Flip(s, e)).code == ACK
            <==> && ForMe(id, Plus(s[0], e[0])) && !IsShared(Plus(s[2], e[2]))
                 && ValidLength(n) && n <= |s| && Crc(s[..n]) == Crc(e[..n])
  {
    hide Crc;
    var g, n := Flip(s, e), Value(Plus(s[1], e[1]));
    if ValidLength(n) && n <= |s| {
      assert g[..n] == Flip(s[..n], e[..n]);
      ResidueOfSealed(g[..n]);
      CrcLinear(s[..n], e[..n]);
      PlusZero(Crc(s[..n]), Crc(e[..n]));
    }
  }

  lemma FrameResidue(m: Message)
    ensures Crc(Frame(m)) == 0
  {
    hide Crc;
    FrameSealed(m);
    ResidueOfSealed(Frame(m));
  }

  /** No error at all in the bytes behind. */
  function NoError(n: nat): (e: seq<byte>)
    ensures |e| == n
  {
    Repeated(0, n)
  }

  lemma FlipFront(f: seq<byte>, e: seq<byte>, rest: seq<byte>)
    requires |f| == |e|
    ensures Flip(f + rest, e + NoError(|rest|)) == Flip(f, e) + rest
  {
    forall i | 0 <= i < |rest| ensures Plus(rest[i], NoError(|rest|)[i]) == rest[i] { PlusZero(rest[i], 0); }
  }

  /** With its length byte intact, a damaged frame is accepted exactly when the error has a zero checksum. */
  lemma DamagedFrame(id: byte, m: Message, e: seq<byte>, rest: seq<byte>)
    requires |e| == FrameLength(m) && e[1] == 0
    ensures var r := Receive(id, Flip(Frame(m), e) + rest);
            && (r.code == ACK <==> && ValidLength(FrameLength(m))
                                   && ForMe(id, Plus(m.recipient, e[0]))
                                   && !IsShared(Plus(m.header, e[2]))
                                   && Crc(e) == 0)
            && (r.delivery.Some? <==> r.code == ACK)
            && (r.acknowledged ==> r.code == ACK)
  {
    hide Crc;
    hide Frame;
    hide Receive;
    var s, errors := Frame(m) + rest, e + NoError(|rest|);
    FrameOnWire(m, rest);
    FrameResidue(m);
    FlipFront(Frame(m), e, rest);
    PlusZero(s[1], 0);
    Damaged(id, s, errors);
    assert s[..FrameLength(m)] == Frame(m) && errors[..FrameLength(m)] == e;
    ReceptionDiscipline(id, Flip(Frame(m), e) + rest);
  }

  lemma ResidueOfSealed(s: seq<byte>)
    requires |s| > 0
    ensures Sealed(s) <==> Crc(s) == 0
  {
    var n := |s| - 1;
    assert s == s[..n] + [s[n]];
    CrcResidue(s[..n], s[n]);
  }

  /** Errors the checksum is sure to see. */
  ghost predicate Detectable(e: seq<byte>) {
    || Odd(Bits(e))
    || (exists at: nat :: IsBurst(Bits(e), at))
    || (exists i: nat, j: nat :: TwoBits(Bits(e), i, j) && (j - i) % 127 != 0)
  }

  /** A frame hit outside its length byte by such an error is never accepted, delivered or answered. */
  lemma DamageIsDetected(id: byte, m: Message, e: seq<byte>, rest: seq<byte>)
    requires |e| == FrameLength(m) && e[1] == 0 && Detectable(e)
    ensures var r := Receive(id, Flip(Frame(m), e) + rest);
            r.code != ACK && r.delivery.None? && !r.acknowledged
  {
    DamagedFrame(id, m, e, rest);
    if Odd(Bits(e)) {
      CrcParity(e);
      assert !OddByte(0);
    } else if at: nat :| IsBurst(Bits(e), at) {
      BurstDetected(e, at);
    } else {
      var i: nat, j: nat :| TwoBits(Bits(e), i, j) && (j - i) % 127 != 0;
      TwoBitLaw(e, i, j);
    }
  }

  /** The error that a wrong length byte is, seen from the first n bytes. */
  function LengthError(m: Message, length: byte, n: nat): (e: seq<byte>)
    requires n > 1
    ensures |e| == n
  {
    [0, Plus(LengthByte(FrameLength(m)), length)] + Repeated(0, n - 2)
  }

  lemma PlusCancels(a: byte, b: byte)
    ensures Plus(a, Plus(a, b)) == b
  {}

  lemma LengthErrorFront(m: Message, length: byte, n: nat, k: nat)
    requires 1 < k <= n
    ensures LengthError(m, length, n)[..k] == LengthError(m, length, k)
  {}

  lemma LengthByteFirst(m: Message, rest: seq<byte>)
    ensures (Frame(m) + rest)[1] == LengthByte(FrameLength(m))
  {
    hide Crc;
  }

  lemma FlipLength(m: Message, length: byte, s: seq<byte>)
    requires |s| > 1 && s[1] == LengthByte(FrameLength(m))
    ensures Flip(s, LengthError(m, length, |s|)) == s[1 := length]
  {
    forall i | 0 <= i < |s| ensures Plus(s[i], LengthError(m, length, |s|)[i]) == s[1 := length][i] {
      PlusZero(s[i], 0);
      PlusCancels(s[i], length);
    }
  }

  /**
   * With a wrong length byte, the frame and what follows it are accepted exactly when the new length is valid
   * and in reach, and the intact bytes up to it have the checksum of the error in the length byte alone.
   */
  lemma DamagedLength(id: byte, m: Message, length: byte, rest: seq<byte>)
    ensures var s, n := Frame(m) + rest, Value(length);
            Receive(id, s[1 := length]).code == ACK
            <==> && ForMe(id, m.recipient) && !IsShared(m.header)
                 && ValidLength(n) && n <= |s|
                 && Crc(s[..n]) == Crc(LengthError(m, length, n))
  {
    var s, n := Frame(m) + rest, Value(length);
    var e := LengthError(m, length, |s|);
    FrameOnWire(m, rest);
    LengthByteFirst(m, rest);
    FlipLength(m, length, s);
    PlusZero(s[0], 0);
    PlusZero(s[2], 0);
    PlusCancels(s[1], length);
    Damaged(id, s, e);
    if 1 < n <= |s| { LengthErrorFront(m, length, |s|, n); }
    assert e[0] == 0 && e[1] == Plus(s[1], length) && e[2] == 0;
    assert ValidLength(n) ==> n > 1;
    hide *;
  }

  lemma Relabelled(short: Message, long: Message, more: seq<byte>)
    requires Receivable(short) && FrameLength(short) + 1 + |more| < 256
    requires long == short.(payload := short.payload + [Crc(Body(short))] + more)
    ensures Frame(long)[1 := LengthByte(FrameLength(short))] == Frame(short) + (more + [Crc(Body(long))])
  {}

  /**
   * So the length byte is the exception: a frame whose payload happens to spell a shorter message and its
   * checksum is accepted as that message once the length byte alone is damaged.
   */
  lemma DamagedLengthIsAccepted(id: byte, short: Message, more: seq<byte>)
    requires ForMe(id, short.recipient) && Receivable(short) && FrameLength(short) + 1 + |more| < 256
    ensures var long := short.(payload := short.payload + [Crc(Body(short))] + more);
            var damaged := Frame(long)[1 := LengthByte(FrameLength(short))];
            Receive(id, damaged).delivery == Some(DeliveryOf(short))
  {
    var long := short.(payload := short.payload + [Crc(Body(short))] + more);
    var damaged := Frame(long)[1 := LengthByte(FrameLength(short))];
    ReceiveFrame(id, short, more + [Crc(Body(long))]);
    Relabelled(short, long, more);
  }
}
