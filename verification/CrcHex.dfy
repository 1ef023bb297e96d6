/** Checksums of messages written in hexadecimal: crc8.py:14-24 and crc8.py:40-52. */
module CrcHex {
  import opened PjonConstants
  import opened Crc8
  import opened CrcAlgebra
  import opened Text

  function HexDigitOf(c: char): Option<nat> {
    if '0' <= c <= '9' then Some((c - '0') as nat)
    else if 'a' <= c <= 'f' then Some((c - 'a') as nat + 10)
    else if 'A' <= c <= 'F' then Some((c - 'A') as nat + 10)
    else None
  }

  function HexDigit(d: nat): char
    requires d < 16
  {
    if d < 10 then '0' + d as char else 'a' + (d - 10) as char
  }

  /** The hex codec: two digits a byte. None stands for its exception. */
  function Decode(s: string): Option<seq<int>> {
    if |s| == 0 then Some([])
    else if |s| == 1 then None
    else
      var high, low, rest := HexDigitOf(s[0]), HexDigitOf(s[1]), Decode(s[2..]);
      if high.None? || low.None? || rest.None? then None
      else Some([16 * high.value + low.value] + rest.value)
  }

  /** hex(): no leading zeros. */
  function Hex(n: nat): string
    requires n < 256
  {
    "0x" + if n < 16 then [HexDigit(n)] else [HexDigit(n / 16), HexDigit(n % 16)]
  }

  function ZFill2(s: string): string {
    if |s| == 0 then "00" else if |s| == 1 then "0" + s else s
  }

  /** The checksum of a message, as it is printed. */
  function HexCrc(bytes: seq<int>): string {
    var crc := Crc(BytesOf(bytes));
    ByteValue(crc);
    Hex(Crc8.Value(crc))
  }

  /** None when the input is not hexadecimal. */
  method CalcCrcForHexString(incoming: string) returns (result: Option<string>)
    ensures result == match Decode(incoming)
                      case None => None
                      case Some(bytes) => Some(HexCrc(bytes))
  {
    var message := Decode(incoming);
    if message.None? {
      return None;
    }
    hide Crc;
    var crc := CalcCrcForByteArray(message.value);
    ByteValue(crc);
    result := Some(Hex(Crc8.Value(crc)));
  }

  // ----- Printing and reading a checksum -----

  function TwoDigits(n: nat): string
    requires n < 256
  {
    [HexDigit(n / 16), HexDigit(n % 16)]
  }

  lemma HexDigitRoundTrip(d: nat)
    requires d < 16
    ensures HexDigitOf(HexDigit(d)) == Some(d)
  {}

  lemma HexDigitIsNoX(d: nat)
    requires d < 16
    ensures HexDigit(d) != 'x'
  {}

  /** Splitting off the prefix and padding yields two digits, also for values below sixteen. */
  lemma PaddedIsTwoDigits(n: nat)
    requires n < 256
    ensures |Split(Hex(n), "x")| == 2 && ZFill2(Split(Hex(n), "x")[1]) == TwoDigits(n)
  {
    hide Split;
    hide HexDigit;
    var digits := if n < 16 then [HexDigit(n)] else [HexDigit(n / 16), HexDigit(n % 16)];
    ZeroDigit();
    assert Hex(n) == "0" + ['x'] + digits;
    HexDigitIsNoX(n / 16);
    HexDigitIsNoX(n % 16);
    SplitFirst("0", 'x', digits);
    SplitNone(digits, 'x');
  }

  lemma ZeroDigit()
    ensures HexDigit(0) == '0'
  {}

  predicate IsZero(result: string) {
    result == "0x0" || result == "0x00"
  }

  lemma HexIsZero(n: nat)
    requires n < 256
    ensures IsZero(Hex(n)) <==> n == 0
  {
    if n >= 16 {
      assert |Hex(n)| == 4 && Hex(n)[2] == HexDigit(n / 16) != '0';
    } else {
      assert |Hex(n)| == 3 && Hex(n)[2] == HexDigit(n);
      assert n > 0 ==> HexDigit(n) != '0';
      if n == 0 { assert Hex(n) == "0x0"; }
    }
  }

  // ----- check and append -----

  function Check(incoming: string): Option<bool> {
    match Decode(incoming)
    case None => None
    case Some(bytes) => Some(IsZero(HexCrc(bytes)))
  }

  function Append(incoming: string): Option<string> {
    match Decode(incoming)
    case None => None
    case Some(bytes) =>
      ByteValue(Crc(BytesOf(bytes)));
      PaddedIsTwoDigits(Crc8.Value(Crc(BytesOf(bytes))));
      Some(incoming + ZFill2(Split(HexCrc(bytes), "x")[1]))
  }

  lemma {:induction false} DecodeAppend(s: string, n: nat)
    requires Decode(s).Some? && n < 256
    ensures Decode(s + TwoDigits(n)) == Some(Decode(s).value + [n])
    decreases |s|
  {
    HexDigitRoundTrip(n / 16);
    HexDigitRoundTrip(n % 16);
    if |s| == 0 {
      assert s + TwoDigits(n) == TwoDigits(n);
      assert TwoDigits(n)[2..] == [] && 16 * (n / 16) + n % 16 == n;
      assert [n as int] + [] == [n] && [] + [n as int] == [n];
    } else {
      var t, first := s + TwoDigits(n), [Decode(s).value[0]];
      assert t[0] == s[0] && t[1] == s[1] && t[2..] == s[2..] + TwoDigits(n);
      DecodeAppend(s[2..], n);
      assert first + (Decode(s[2..]).value + [n]) == (first + Decode(s[2..]).value) + [n];
    }
  }

  /** `check` accepts exactly the messages whose residue is zero. */
  lemma CheckIsResidue(s: string)
    requires Decode(s).Some?
    ensures Check(s) == Some(Crc(BytesOf(Decode(s).value)) == 0)
  {
    hide Crc;
    var b := Crc(BytesOf(Decode(s).value));
    ByteValue(b);
    ValueZero(b);
    HexIsZero(Crc8.Value(b));
  }

  lemma ValueZero(b: byte)
    ensures Crc8.Value(b) == 0 <==> b == 0
  {
    ByteValue(b);
    ValueByte(0);
    assert ByteOf(0) == 0;
  }

  lemma BytesOfPush(a: seq<int>, x: int)
    ensures BytesOf(a + [x]) == BytesOf(a) + [ByteOf(x)]
  {}

  /** What `append` produces is the message and two more digits, and passes `check`. */
  lemma AppendChecks(s: string)
    requires Decode(s).Some?
    ensures Append(s).Some? && Check(Append(s).value) == Some(true)
    ensures |Append(s).value| == |s| + 2 && s <= Append(s).value
  {
    hide Crc;
    var bytes := Decode(s).value;
    var crc := Crc(BytesOf(bytes));
    var n := Crc8.Value(crc);
    ByteValue(crc);
    PaddedIsTwoDigits(n);
    DecodeAppend(s, n);
    BytesOfPush(bytes, n);
    CrcResidue(BytesOf(bytes), crc);
    CheckIsResidue(s + TwoDigits(n));
  }

  predicate IsLowerHex(c: char) {
    '0' <= c <= '9' || 'a' <= c <= 'f'
  }

  predicate IsHex(c: char) {
    IsLowerHex(c) || 'A' <= c <= 'F'
  }

  /** hex() prints the prefix and the lower-case digits of the number, without leading zeros. */
  lemma HexLaw(n: nat)
    requires n < 256
    ensures var h := Hex(n);
            && h[..2] == "0x" && |h| == (if n < 16 then 3 else 4)
            && (forall i :: 2 <= i < |h| ==> IsLowerHex(h[i]) && HexDigitOf(h[i]).Some?)
            && n == if n < 16 then HexDigitOf(h[2]).value else 16 * HexDigitOf(h[2]).value + HexDigitOf(h[3]).value
  {
    HexDigitRoundTrip(n / 16);
    HexDigitRoundTrip(n % 16);
    if n < 16 { HexDigitRoundTrip(n); }
  }

  /** Exactly texts of an even number of hexadecimal digits, of either case, are decoded: two digits a byte. */
  lemma {:induction false} DecodeLaw(s: string)
    ensures Decode(s).Some? <==> |s| % 2 == 0 && forall i :: 0 <= i < |s| ==> IsHex(s[i])
    ensures Decode(s).Some? ==>
      && |Decode(s).value| * 2 == |s|
      && forall k :: 0 <= k < |Decode(s).value| ==>
           && HexDigitOf(s[2 * k]).Some? && HexDigitOf(s[2 * k + 1]).Some?
           && Decode(s).value[k] == 16 * HexDigitOf(s[2 * k]).value + HexDigitOf(s[2 * k + 1]).value
    decreases |s|
  {
    if |s| < 2 {
    } else {
      DecodeLaw(s[2..]);
      if Decode(s[2..]).Some? && IsHex(s[0]) && IsHex(s[1]) {
        forall i | 0 <= i < |s| ensures IsHex(s[i]) { if i > 1 { assert s[2..][i - 2] == s[i]; } }
        var values, tail := Decode(s).value, Decode(s[2..]).value;
        forall k | 0 <= k < |values|
          ensures HexDigitOf(s[2 * k]).Some? && HexDigitOf(s[2 * k + 1]).Some?
          ensures values[k] == 16 * HexDigitOf(s[2 * k]).value + HexDigitOf(s[2 * k + 1]).value
        {
          if k > 0 {
            assert s[2..][2 * (k - 1)] == s[2 * k] && s[2..][2 * (k - 1) + 1] == s[2 * k + 1];
            assert values[k] == tail[k - 1];
          }
        }
      } else if |s| % 2 == 0 && forall i :: 0 <= i < |s| ==> IsHex(s[i]) {
        forall i | 0 <= i < |s[2..]| ensures IsHex(s[2..][i]) { assert s[2..][i] == s[i + 2]; }
      }
    }
  }

  /** A digit is worth its place among the sixteen. */
  lemma HexDigitLaw(c: char)
    ensures HexDigitOf(c).Some? <==> IsHex(c)
    ensures forall d :: 0 <= d < 16 ==>
              (HexDigitOf(c) == Some(d) <==> c == "0123456789abcdef"[d] || c == "0123456789ABCDEF"[d])
  {}

  /** A non-empty message passes `check` exactly when its last byte is the CRC of the others. */
  lemma CheckIsLastByte(s: string)
    requires Decode(s).Some? && |s| > 0
    ensures var bytes := BytesOf(Decode(s).value);
            |bytes| > 0 && (Check(s) == Some(true) <==> bytes[|bytes| - 1] == Crc(bytes[..|bytes| - 1]))
  {
    hide Crc;
    hide Check;
    var bytes := BytesOf(Decode(s).value);
    CheckIsResidue(s);
    CrcResidue(bytes[..|bytes| - 1], bytes[|bytes| - 1]);
    assert bytes == bytes[..|bytes| - 1] + [bytes[|bytes| - 1]];
  }
}
