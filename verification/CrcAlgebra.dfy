/** What the checksum of pjon_python/utils/crc8.py can and cannot see, for messages of every length. */
module CrcAlgebra {
  import opened PjonConstants
  import opened Crc8

  // ----- The register is a linear bijection -----

  lemma TickLinear(a: byte, b: byte)
    ensures Tick(Plus(a, b)) == Plus(Tick(a), Tick(b))
  {}

  lemma {:induction false} TicksLinear(a: byte, b: byte, n: nat)
    ensures Ticks(Plus(a, b), n) == Plus(Ticks(a, n), Ticks(b, n))
  {
    if n == 0 {
    } else {
      TicksLinear(a, b, n - 1);
      TickLinear(Ticks(a, n - 1), Ticks(b, n - 1));
    }
  }

  function Untick(r: byte): byte {
    if r & 0x80 == 0x80 then ((r ^ 0x8C) << 1) | 1 else r << 1
  }

  lemma TickUntick(r: byte)
    ensures Untick(Tick(r)) == r && Tick(Untick(r)) == r
  {}

  lemma {:induction false} TicksInjective(a: byte, b: byte, n: nat)
    requires Ticks(a, n) == Ticks(b, n)
    ensures a == b
  {
    if n == 0 {
    } else {
      TickUntick(Ticks(a, n - 1));
      TickUntick(Ticks(b, n - 1));
      TicksInjective(a, b, n - 1);
    }
  }

  function Unticks(r: byte, n: nat): byte
    decreases n
  {
    if n == 0 then r else Unticks(Untick(r), n - 1)
  }

  /** The table is onto: every register value has exactly one byte that produces it. */
  lemma {:induction false} TicksUnticks(r: byte, n: nat)
    ensures Ticks(Unticks(r, n), n) == r
    decreases n
  {
    if n == 0 {
    } else {
      TicksUnticks(Untick(r), n - 1);
      TickUntick(r);
    }
  }

  lemma {:induction false} TicksZero(n: nat)
    ensures Ticks(0, n) == 0
  {
    if n == 0 {
    } else {
      TicksZero(n - 1);
    }
  }

  lemma {:induction false} TicksAdd(r: byte, m: nat, n: nat)
    ensures Ticks(Ticks(r, m), n) == Ticks(r, m + n)
  {
    if n == 0 {
    } else {
      TicksAdd(r, m, n - 1);
    }
  }

  lemma TicksNonzero(r: byte, n: nat)
    ensures Ticks(r, n) == 0 <==> r == 0
  {
    TicksZero(n);
    if Ticks(r, n) == 0 { TicksInjective(r, 0, n); }
  }

  lemma TableBijection(a: byte, b: byte)
    ensures Table(Plus(a, b)) == Plus(Table(a), Table(b))
    ensures Table(a) == Table(b) <==> a == b
    ensures Table(Unticks(a, 8)) == a
  {
    TicksLinear(a, b, 8);
    TicksUnticks(a, 8);
    if Table(a) == Table(b) { TicksInjective(a, b, 8); }
  }

  // ----- Messages -----

  /** The message m with the bits of e flipped. */
  function Flip(m: seq<byte>, e: seq<byte>): (r: seq<byte>)
    requires |m| == |e|
    ensures |r| == |m|
  {
    seq(|m|, i requires 0 <= i < |m| => Plus(m[i], e[i]))
  }

  lemma {:induction false} CrcLinear(m: seq<byte>, e: seq<byte>)
    requires |m| == |e|
    ensures Crc(Flip(m, e)) == Plus(Crc(m), Crc(e))
    decreases |m|
  {
    if |m| == 0 {
    } else {
      var n := |m| - 1;
      CrcLinear(m[..n], e[..n]);
      assert Flip(m, e)[..n] == Flip(m[..n], e[..n]);
      PlusShuffle(m[n], e[n], Crc(m[..n]), Crc(e[..n]));
      TableBijection(Plus(m[n], Crc(m[..n])), Plus(e[n], Crc(e[..n])));
    }
  }

  lemma PlusShuffle(a: byte, b: byte, c: byte, d: byte)
    ensures Plus(Plus(a, b), Plus(c, d)) == Plus(Plus(a, c), Plus(b, d))
  {
    PlusAssoc(a, b, Plus(c, d));
    PlusAssoc(b, c, d);
    PlusAssoc(c, b, d);
    PlusZero(b, c);
    PlusAssoc(a, c, Plus(b, d));
  }

  lemma PlusAssoc(a: byte, b: byte, c: byte)
    ensures Plus(Plus(a, b), c) == Plus(a, Plus(b, c))
  {}

  /** A message followed by x leaves the register at zero exactly when x is the message's own CRC. */
  lemma CrcResidue(m: seq<byte>, x: byte)
    ensures Crc(m + [x]) == 0 <==> x == Crc(m)
  {
    assert (m + [x])[..|m|] == m;
    TicksZero(8);
    TableBijection(Plus(x, Crc(m)), 0);
    PlusZero(x, Crc(m));
  }

  lemma PlusZero(a: byte, b: byte)
    ensures Plus(a, b) == 0 <==> a == b
    ensures Plus(a, b) == Plus(b, a)
    ensures Plus(a, 0) == a
    ensures Plus(Plus(a, b), b) == a
    ensures Plus(a, b) == a <==> b == 0
  {}

  /** A flipped message has the same residue as the original exactly when the error itself has none. */
  lemma ErrorUnseen(m: seq<byte>, e: seq<byte>)
    requires |m| == |e|
    ensures Crc(Flip(m, e)) == Crc(m) <==> Crc(e) == 0
  {
    CrcLinear(m, e);
    PlusZero(Crc(m), Crc(e));
  }

  // ----- The bit-serial definition: division of the bit stream by the polynomial -----

  function BitCrc(bits: seq<bool>, r: byte): byte
    decreases |bits|
  {
    if |bits| == 0 then r else BitCrc(bits[1..], Tick(Plus(r, Bit(bits[0]))))
  }

  lemma {:induction false} BitCrcAppend(a: seq<bool>, b: seq<bool>, r: byte)
    ensures BitCrc(a + b, r) == BitCrc(b, BitCrc(a, r))
    decreases |a|
  {
    if |a| == 0 {
      assert a + b == b;
    } else {
      assert (a + b)[1..] == a[1..] + b;
      BitCrcAppend(a[1..], b, Tick(Plus(r, Bit(a[0]))));
    }
  }

  lemma {:induction false} BitCrcOfByte(b: byte, r: byte, n: nat)
    requires Dropped(b, n) == 0
    ensures BitCrc(BitsOf(b, n), r) == Ticks(Plus(r, b), n)
    decreases n
  {
    if n == 0 {
      PlusZero(r, b);
    } else {
      var next := Tick(Plus(r, Bit(b & 1 == 1)));
      assert BitsOf(b, n)[1..] == BitsOf(b >> 1, n - 1);
      BitCrcOfByte(b >> 1, next, n - 1);
      TickOfByte(r, b);
      TicksAdd(Plus(r, b), 1, n - 1);
      assert Ticks(Plus(r, b), 1) == Tick(Ticks(Plus(r, b), 0));
    }
  }

  lemma TickOfByte(r: byte, b: byte)
    ensures Plus(Tick(Plus(r, Bit(b & 1 == 1))), b >> 1) == Tick(Plus(r, b))
  {}

  lemma {:induction false} BitsAppend(a: seq<byte>, b: seq<byte>)
    ensures Bits(a + b) == Bits(a) + Bits(b)
    decreases |a|
  {
    if |a| == 0 {
      assert a + b == b;
    } else {
      assert (a + b)[1..] == a[1..] + b;
      BitsAppend(a[1..], b);
    }
  }

  /** The byte-wise checksum is the bit-serial one. */
  lemma {:induction false} CrcIsBitSerial(m: seq<byte>)
    ensures Crc(m) == BitCrc(Bits(m), 0)
    decreases |m|
  {
    if |m| == 0 {
    } else {
      var front, last := m[..|m| - 1], m[|m| - 1];
      CrcIsBitSerial(front);
      assert m == front + [last];
      BitsAppend(front, [last]);
      assert Bits([last]) == BitsOf(last, 8);
      BitCrcAppend(Bits(front), BitsOf(last, 8), 0);
      AllDropped(last, 8);
      BitCrcOfByte(last, Crc(front), 8);
      PlusZero(last, Crc(front));
    }
  }

  // ----- Parity: every odd number of flips is seen -----

  /** Whether an odd number of the bits are set. */
  function Odd(bits: seq<bool>): bool {
    if |bits| == 0 then false else bits[0] != Odd(bits[1..])
  }

  function OddByte(r: byte): bool {
    var a := r ^ (r >> 4);
    var b := a ^ (a >> 2);
    (b ^ (b >> 1)) & 1 == 1
  }

  lemma TickParity(r: byte, b: bool)
    ensures OddByte(Tick(Plus(r, Bit(b)))) == (OddByte(r) != b)
  {}

  lemma {:induction false} BitCrcParity(bits: seq<bool>, r: byte)
    ensures OddByte(BitCrc(bits, r)) == (OddByte(r) != Odd(bits))
    decreases |bits|
  {
    if |bits| == 0 {
    } else {
      TickParity(r, bits[0]);
      BitCrcParity(bits[1..], Tick(Plus(r, Bit(bits[0]))));
    }
  }

  /** The parity of the checksum is the parity of the whole message. */
  lemma CrcParity(m: seq<byte>)
    ensures OddByte(Crc(m)) == Odd(Bits(m))
  {
    CrcIsBitSerial(m);
    BitCrcParity(Bits(m), 0);
    assert !OddByte(0);
  }

  // ----- Bursts -----

  ghost predicate Clear(bits: seq<bool>, lo: nat, hi: nat) {
    forall k :: lo <= k < hi && k < |bits| ==> !bits[k]
  }

  lemma {:induction false} BitCrcClear(bits: seq<bool>, r: byte)
    requires Clear(bits, 0, |bits|)
    ensures BitCrc(bits, r) == Ticks(r, |bits|)
    decreases |bits|
  {
    if |bits| == 0 {
    } else {
      assert !bits[0];
      PlusZero(r, 0);
      BitCrcClear(bits[1..], Tick(r));
      assert Ticks(r, 1) == Tick(Ticks(r, 0));
      TicksAdd(r, 1, |bits| - 1);
    }
  }

  lemma {:induction false} PackDropped(w: seq<bool>)
    requires |w| <= 8
    ensures Dropped(Pack(w), |w|) == 0
    decreases |w|
  {
    if |w| == 0 {
    } else {
      PackStep(w);
      PackDropped(w[1..]);
    }
  }

  lemma {:induction false} ZeroBits(n: nat)
    ensures Clear(BitsOf(0, n), 0, n)
  {
    if n == 0 {
    } else {
      ZeroBits(n - 1);
    }
  }

  /** A window of at most eight bits with a one in it never brings the register back to zero. */
  lemma BurstInWindow(w: seq<bool>, k: nat)
    requires |w| <= 8 && k < |w| && w[k]
    ensures BitCrc(w, 0) != 0
  {
    var b := Pack(w);
    BitsOfPack(w);
    PackDropped(w);
    BitCrcOfByte(b, 0, |w|);
    PlusZero(0, b);
    TicksNonzero(b, |w|);
    if b == 0 { ZeroBits(|w|); assert false; }
  }

  /** The error has a set bit and all its set bits lie within eight consecutive serial positions. */
  ghost predicate IsBurst(bits: seq<bool>, at: nat) {
    && Clear(bits, 0, at)
    && Clear(bits, at + 8, |bits|)
    && exists k :: at <= k < at + 8 && k < |bits| && bits[k]
  }

  lemma BurstValue(bits: seq<bool>, at: nat, hi: nat)
    requires at <= hi <= |bits|
    requires Clear(bits, 0, at) && Clear(bits, hi, |bits|)
    ensures BitCrc(bits, 0) == Ticks(BitCrc(bits[at..hi], 0), |bits| - hi)
  {
    var head, w, tail := bits[..at], bits[at..hi], bits[hi..];
    assert bits == head + (w + tail);
    BitCrcAppend(head, w + tail, 0);
    BitCrcClear(head, 0);
    TicksZero(|head|);
    BitCrcAppend(w, tail, 0);
    BitCrcClear(tail, BitCrc(w, 0));
  }

  lemma BurstBits(bits: seq<bool>, at: nat, k: nat, hi: nat)
    requires at <= k < hi <= |bits| && hi <= at + 8 && bits[k]
    requires Clear(bits, 0, at) && Clear(bits, hi, |bits|)
    ensures BitCrc(bits, 0) != 0
  {
    var r := BitCrc(bits[at..hi], 0);
    BurstValue(bits, at, hi);
    BurstInWindow(bits[at..hi], k - at);
    TicksNonzero(r, |bits| - hi);
  }

  /** Every burst of at most eight serial bits changes the checksum. */
  lemma BurstDetected(e: seq<byte>, at: nat)
    requires IsBurst(Bits(e), at)
    ensures Crc(e) != 0
  {
    var bits := Bits(e);
    var k :| at <= k < at + 8 && k < |bits| && bits[k];
    CrcIsBitSerial(e);
    BurstBits(bits, at, k, if at + 8 <= |bits| then at + 8 else |bits|);
  }

  // ----- Two flipped bits: seen unless their distance is a multiple of 127 -----

  /** n clocks lead from r to end without leaving a register of one on the way. */
  predicate Path(r: byte, n: nat, end: byte)
    decreases n
  {
    if n == 0 then r == end else r != 1 && Path(Tick(r), n - 1, end)
  }

  lemma {:induction false} PathJoin(r: byte, m: nat, mid: byte, n: nat, end: byte)
    requires Path(r, m, mid) && Path(mid, n, end)
    ensures Path(r, m + n, end)
    decreases m
  {
    if m == 0 {
    } else {
      PathJoin(Tick(r), m - 1, mid, n, end);
    }
  }

  lemma OrbitStart()
    ensures Path(0x8C, 42, 0xB6)
  {
    assert Path(0x8C, 6, 0xBC);
    assert Path(0xBC, 6, 0x76);
    PathJoin(0x8C, 6, 0xBC, 6, 0x76);
    assert Path(0x76, 6, 0x94);
    PathJoin(0x8C, 12, 0x76, 6, 0x94);
    assert Path(0x94, 6, 0xD9);
    PathJoin(0x8C, 18, 0x94, 6, 0xD9);
    assert Path(0xD9, 6, 0x07);
    PathJoin(0x8C, 24, 0xD9, 6, 0x07);
    assert Path(0x07, 6, 0x3E);
    PathJoin(0x8C, 30, 0x07, 6, 0x3E);
    assert Path(0x3E, 6, 0xB6);
    PathJoin(0x8C, 36, 0x3E, 6, 0xB6);
  }

  lemma OrbitMiddle()
    ensures Path(0xB6, 42, 0xFE)
  {
    assert Path(0xB6, 6, 0x97);
    assert Path(0x97, 6, 0x7A);
    PathJoin(0xB6, 6, 0x97, 6, 0x7A);
    assert Path(0x7A, 6, 0x2A);
    PathJoin(0xB6, 12, 0x7A, 6, 0x2A);
    assert Path(0x2A, 6, 0x6D);
    PathJoin(0xB6, 18, 0x2A, 6, 0x6D);
    assert Path(0x6D, 6, 0x52);
    PathJoin(0xB6, 24, 0x6D, 6, 0x52);
    assert Path(0x52, 6, 0x85);
    PathJoin(0xB6, 30, 0x52, 6, 0x85);
    assert Path(0x85, 6, 0xFE);
    PathJoin(0xB6, 36, 0x85, 6, 0xFE);
  }

  lemma OrbitEnd()
    ensures Path(0xFE, 42, 0x01)
  {
    assert Path(0xFE, 6, 0xB5);
    assert Path(0xB5, 6, 0x34);
    PathJoin(0xFE, 6, 0xB5, 6, 0x34);
    assert Path(0x34, 6, 0x57);
    PathJoin(0xFE, 12, 0x34, 6, 0x57);
    assert Path(0x57, 6, 0x79);
    PathJoin(0xFE, 18, 0x57, 6, 0x79);
    assert Path(0x79, 6, 0x89);
    PathJoin(0xFE, 24, 0x79, 6, 0x89);
    assert Path(0x89, 6, 0x40);
    PathJoin(0xFE, 30, 0x89, 6, 0x40);
    assert Path(0x40, 6, 0x01);
    PathJoin(0xFE, 36, 0x40, 6, 0x01);
  }

  /** The orbit of a single one: 127 clocks, and no earlier return. */
  lemma Orbit()
    ensures Path(Tick(1), 126, 1)
  {
    OrbitStart();
    OrbitMiddle();
    OrbitEnd();
    PathJoin(0x8C, 42, 0xB6, 42, 0xFE);
    PathJoin(0x8C, 84, 0xFE, 42, 0x01);
    assert Tick(1) == 0x8C;
  }

  lemma {:induction false} PathTicks(r: byte, n: nat, end: byte, k: nat)
    requires Path(r, n, end) && k <= n
    ensures k < n ==> Ticks(r, k) != 1
    ensures k == n ==> Ticks(r, k) == end
    decreases n
  {
    if k == 0 {
    } else {
      PathTicks(Tick(r), n - 1, end, k - 1);
      assert Ticks(r, 1) == Tick(Ticks(r, 0));
      TicksAdd(r, 1, k - 1);
    }
  }

  /** A single one in the register comes back after exactly 127 clocks and its multiples. */
  lemma {:induction false} OrderIs127(d: nat)
    ensures Ticks(1, d) == 1 <==> d % 127 == 0
    decreases d
  {
    if d == 0 {
    } else {
      var k := if d < 127 then d else 127;
      Orbit();
      PathTicks(Tick(1), 126, 1, k - 1);
      assert Ticks(1, 1) == Tick(Ticks(1, 0));
      TicksAdd(1, 1, k - 1);
      if d >= 127 {
        TicksAdd(1, 127, d - 127);
        OrderIs127(d - 127);
      }
    }
  }

  ghost predicate TwoBits(bits: seq<bool>, i: nat, j: nat) {
    && i < j < |bits| && bits[i] && bits[j]
    && forall k :: 0 <= k < |bits| && k != i && k != j ==> !bits[k]
  }

  lemma TwoBitValue(bits: seq<bool>, i: nat, j: nat)
    requires TwoBits(bits, i, j)
    ensures BitCrc(bits, 0) == Ticks(Tick(Plus(Ticks(1, j - i), 1)), |bits| - 1 - j)
  {
    var w := bits[i..j + 1];
    BurstValue(bits, i, j + 1);
    var gap := bits[i + 1..j];
    assert w == [true] + (gap + [true]);
    BitCrcAppend([true], gap + [true], 0);
    PlusZero(1, 0);
    BitCrcAppend(gap, [true], Tick(1));
    BitCrcClear(gap, Tick(1));
    assert Ticks(1, 1) == Tick(Ticks(1, 0));
    TicksAdd(1, 1, |gap|);
  }

  lemma SecondBitClears(r: byte, n: nat)
    ensures Ticks(Tick(Plus(r, 1)), n) == 0 <==> r == 1
  {
    PlusZero(r, 1);
    TicksNonzero(Tick(Plus(r, 1)), n);
    TicksNonzero(Plus(r, 1), 1);
    assert Ticks(Plus(r, 1), 1) == Tick(Ticks(Plus(r, 1), 0));
  }

  /** Flipping exactly two bits goes unseen exactly when their serial distance is a multiple of 127. */
  lemma TwoBitLaw(e: seq<byte>, i: nat, j: nat)
    requires TwoBits(Bits(e), i, j)
    ensures Crc(e) == 0 <==> (j - i) % 127 == 0
  {
    CrcIsBitSerial(e);
    TwoBitValue(Bits(e), i, j);
    SecondBitClears(Ticks(1, j - i), |Bits(e)| - 1 - j);
    OrderIs127(j - i);
  }

  lemma CrcOfNothing()
    ensures Crc([]) == 0
  {}
}
