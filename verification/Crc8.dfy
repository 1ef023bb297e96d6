/** The CRC of pjon_python/utils/crc8.py: the reflected register of x^8 + x^5 + x^4 + 1. */
module Crc8 {
  import opened PjonConstants

  // ----- The register and the checksum of a message -----

  /** One clock of the register: shift right, feed the polynomial back when a one falls out. */
  function Tick(r: byte): byte {
    if r & 1 == 1 then (r >> 1) ^ 0x8C else r >> 1
  }

  /** Bytes are added without carries. */
  function Plus(a: byte, b: byte): byte {
    a ^ b
  }

  function Ticks(r: byte, n: nat): byte {
    if n == 0 then r else Tick(Ticks(r, n - 1))
  }

  /** Eight clocks: what one byte does to the register. */
  function Table(r: byte): byte {
    Ticks(r, 8)
  }

  function Crc(msg: seq<byte>): byte {
    if |msg| == 0 then 0 else Table(Plus(msg[|msg| - 1], Crc(msg[..|msg| - 1])))
  }

  // ----- Bits, lowest bit first -----

  function Bit(b: bool): byte {
    if b then 1 else 0
  }

  function Pack(bits: seq<bool>): byte {
    if |bits| == 0 then 0 else Bit(bits[0]) | (Pack(bits[1..]) << 1)
  }

  function BitsOf(b: byte, n: nat): (bits: seq<bool>)
    ensures |bits| == n
  {
    if n == 0 then [] else [b & 1 == 1] + BitsOf(b >> 1, n - 1)
  }

  /** The bits of a message in the order they travel on the wire. */
  function Bits(msg: seq<byte>): (bits: seq<bool>)
    ensures |bits| == 8 * |msg|
  {
    if |msg| == 0 then [] else BitsOf(msg[0], 8) + Bits(msg[1..])
  }

  /** The n low bits of an integer in two's complement. */
  function IntBits(b: int, n: nat): (bits: seq<bool>)
    ensures |bits| == n
    decreases n, b
  {
    if n == 0 then [] else [b % 2 == 1] + IntBits(b / 2, n - 1)
  }

  function ByteOf(b: int): byte {
    Pack(IntBits(b, 8))
  }

  function BytesOf(a: seq<int>): seq<byte> {
    seq(|a|, i requires 0 <= i < |a| => ByteOf(a[i]))
  }

  /** The integer a byte stands for. */
  function Value(b: byte): nat {
    Unpack(BitsOf(b, 8))
  }

  function Unpack(bits: seq<bool>): nat {
    if |bits| == 0 then 0 else (if bits[0] then 1 else 0) + 2 * Unpack(bits[1..])
  }

  function Limit(n: nat): byte {
    if n == 0 then 1 else Limit(n - 1) << 1
  }

  lemma {:induction false} PackFits(bits: seq<bool>)
    requires |bits| <= 7
    ensures Pack(bits) < Limit(|bits|) <= 0x80
  {
    if |bits| == 0 {
    } else {
      PackFits(bits[1..]);
      LimitFits(|bits| - 1);
    }
  }

  lemma {:induction false} LimitFits(n: nat)
    requires n <= 6
    ensures Limit(n) <= 0x40
  {
    assert Limit(6) == 0x40 && Limit(5) == 0x20 && Limit(4) == 0x10 && Limit(3) == 8;
  }

  lemma PackStep(bits: seq<bool>)
    requires 0 < |bits| <= 8
    ensures Pack(bits) >> 1 == Pack(bits[1..])
    ensures (Pack(bits) & 1 == 1) == bits[0]
  {
    PackFits(bits[1..]);
  }

  function Power2(n: nat): nat {
    if n == 0 then 1 else 2 * Power2(n - 1)
  }

  lemma {:induction false} UnpackIntBits(b: nat, n: nat)
    requires b < Power2(n)
    ensures Unpack(IntBits(b, n)) == b
    decreases n
  {
    if n == 0 {
    } else {
      UnpackIntBits(b / 2, n - 1);
    }
  }

  lemma {:induction false} IntBitsUnpack(bits: seq<bool>)
    ensures IntBits(Unpack(bits), |bits|) == bits
    ensures Unpack(bits) < Power2(|bits|)
    decreases |bits|
  {
    if |bits| == 0 {
    } else {
      IntBitsUnpack(bits[1..]);
    }
  }

  lemma {:induction false} BitsOfPack(bits: seq<bool>)
    requires |bits| <= 8
    ensures BitsOf(Pack(bits), |bits|) == bits
    decreases |bits|
  {
    if |bits| == 0 {
    } else {
      PackStep(bits);
      BitsOfPack(bits[1..]);
    }
  }

  function Dropped(b: byte, n: nat): byte {
    if n == 0 then b else Dropped(b >> 1, n - 1)
  }

  lemma {:induction false} AllDropped(b: byte, n: nat)
    requires n <= 8 && (n < 8 ==> b < Limit(n))
    ensures Dropped(b, n) == 0
    decreases n
  {
    if n == 0 {
    } else {
      if n < 8 { LimitFits(n - 1); }
      assert n == 8 ==> Limit(7) == Limit(6) << 1 && Limit(6) == 0x40;
      AllDropped(b >> 1, n - 1);
    }
  }

  lemma {:induction false} PackBitsOf(b: byte, n: nat)
    requires n <= 8 && Dropped(b, n) == 0
    ensures Pack(BitsOf(b, n)) == b
    decreases n
  {
    if n == 0 {
    } else {
      PackBitsOf(b >> 1, n - 1);
      assert BitsOf(b, n)[1..] == BitsOf(b >> 1, n - 1);
    }
  }

  /** Bytes and the integers below 256 are the same thing. */
  lemma ByteValue(b: byte)
    ensures Value(b) < 256 && ByteOf(Value(b)) == b
  {
    assert Power2(8) == 256;
    IntBitsUnpack(BitsOf(b, 8));
    AllDropped(b, 8);
    PackBitsOf(b, 8);
  }

  lemma ValueByte(n: nat)
    requires n < 256
    ensures Value(ByteOf(n)) == n
  {
    assert Power2(8) == 256;
    BitsOfPack(IntBits(n, 8));
    UnpackIntBits(n, 8);
  }

  /** m is a multiple of two to the n. */
  predicate Divides2(n: nat, m: int) {
    n == 0 || (m % 2 == 0 && Divides2(n - 1, m / 2))
  }

  lemma {:induction false} IntBitsPeriod(b: int, m: int, n: nat)
    requires Divides2(n, m)
    ensures IntBits(b + m, n) == IntBits(b, n)
    decreases n
  {
    if n == 0 {
    } else {
      var half := m / 2;
      assert b + m == b + 2 * half;
      IntBitsPeriod(b / 2, half, n - 1);
    }
  }

  /** A negative byte is lifted by 256, which leaves its low eight bits alone. */
  lemma NegativeByte(b: int)
    ensures ByteOf(b + 256) == ByteOf(b)
  {
    IntBitsPeriod(b, 256, 8);
  }

  // ----- crc8.py:27-37 -----

  /** What is still to be shifted in, added to the register. */
  function Pending(rest: int, r: byte, n: nat): byte {
    Plus(Pack(IntBits(rest, n)), r)
  }

  function Fed(r: byte, odd: bool): byte {
    if odd then (r >> 1) ^ 0x8C else r >> 1
  }

  /** One turn of the loop on the pair (remaining bits of b, crc) is one clock of their xor. */
  lemma AddToCrcStep(rest: int, r: byte, n: nat)
    requires 0 < n <= 8
    ensures Pending(rest / 2, Fed(r, (rest % 2 == 1) != (r & 1 == 1)), n - 1) == Tick(Pending(rest, r, n))
  {
    var bits := IntBits(rest, n);
    assert bits[1..] == IntBits(rest / 2, n - 1);
    PackStep(bits);
    XorTick(r, Pack(bits));
  }

  lemma XorTick(r: byte, p: byte)
    ensures Fed(r, (p & 1 == 1) != (r & 1 == 1)) ^ (p >> 1) == Tick(r ^ p)
  {}

  method AddToCRC(b: int, crc: byte) returns (r: byte)
    ensures r == Table(Plus(ByteOf(b), crc))
  {
    var rest := b;
    if rest < 0 {
      NegativeByte(b);
      rest := rest + 256;
    }
    r := crc;
    ghost var state := Pending(rest, r, 8);
    for i := 0 to 8
      invariant Pending(rest, r, 8 - i) == Ticks(state, i)
    {
      AddToCrcStep(rest, r, 8 - i);
      var odd := (rest % 2 == 1) != (r & 1 == 1);
      ghost var fed := Fed(r, odd);
      r := r >> 1;
      rest := rest / 2;
      if odd {
        r := r ^ 0x8C;
      }
      assert r == fed;
    }
  }

  method CalcCrcForByteArray(byteArray: seq<int>) returns (crc: byte)
    ensures crc == Crc(BytesOf(byteArray))
  {
    crc := 0;
    for i := 0 to |byteArray|
      invariant crc == Crc(BytesOf(byteArray[..i]))
    {
      crc := AddToCRC(byteArray[i], crc);
      assert BytesOf(byteArray[..i + 1])[..i] == BytesOf(byteArray[..i]);
    }
    assert byteArray[..|byteArray|] == byteArray;
  }
}
