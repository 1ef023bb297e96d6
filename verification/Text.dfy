/** The string operations of Python that the repository parses with. */
module Text {
  import opened PjonConstants

  // ----- Occurrences and split -----

  predicate At(s: string, sep: string, i: nat) {
    i + |sep| <= |s| && forall k :: 0 <= k < |sep| ==> s[i + k] == sep[k]
  }

  predicate Occurs(sep: string, s: string) {
    exists i: nat :: i <= |s| && At(s, sep, i)
  }

  /** The position of the first occurrence, or the length of s. */
  function Find(s: string, sep: string, from: nat): (i: nat)
    requires from <= |s|
    ensures from <= i <= |s|
    ensures forall j :: from <= j < i ==> !At(s, sep, j)
    ensures i < |s| && |sep| > 0 ==> At(s, sep, i)
    decreases |s| - from
  {
    if from == |s| || At(s, sep, from) then from else Find(s, sep, from + 1)
  }

  /** str.split with a separator: the pieces between the occurrences found from the left. */
  function Split(s: string, sep: string): (pieces: seq<string>)
    requires |sep| > 0
    ensures |pieces| > 0
    decreases |s|
  {
    var i := Find(s, sep, 0);
    if i == |s| then [s] else [s[..i]] + Split(s[i + |sep|..], sep)
  }

  function Last(s: string, sep: string): string
    requires |sep| > 0
  {
    var pieces := Split(s, sep);
    pieces[|pieces| - 1]
  }

  function First(s: string, sep: string): string
    requires |sep| > 0
  {
    Split(s, sep)[0]
  }

  /** No proper end of the separator is a beginning of it, so its occurrences never overlap. */
  predicate Unbordered(sep: string) {
    forall k :: 0 < k < |sep| ==> sep[k..] != sep[..|sep| - k]
  }

  lemma Overlap(s: string, sep: string, i: nat, j: nat)
    requires At(s, sep, i) && At(s, sep, j) && i < j < i + |sep|
    ensures !Unbordered(sep)
  {
    var k := j - i;
    forall m | 0 <= m < |sep| - k ensures sep[k + m] == sep[m] { assert s[i + (k + m)] == s[j + m]; }
    assert sep[k..] == sep[..|sep| - k];
  }

  /** Dropping a front moves the occurrences behind it. */
  lemma AtShift(s: string, sep: string, d: nat, j: nat)
    requires d <= |s|
    ensures At(s[d..], sep, j) == At(s, sep, d + j)
  {
    if At(s[d..], sep, j) {
      forall k | 0 <= k < |sep| ensures s[d + j + k] == sep[k] { assert s[d..][j + k] == sep[k]; }
    }
  }

  lemma NoneLeft(s: string, sep: string)
    requires |sep| > 0 && forall j :: 0 <= j <= |s| ==> !At(s, sep, j)
    ensures Split(s, sep) == [s]
  {}

  /** The last piece begins behind an occurrence after which there is no other. */
  lemma {:induction false} LastPiece(s: string, sep: string, i: nat)
    requires |sep| > 0 && Unbordered(sep) && At(s, sep, i)
    requires forall j :: i < j <= |s| ==> !At(s, sep, j)
    ensures Last(s, sep) == s[i + |sep|..]
    decreases |s|
  {
    var f := Find(s, sep, 0);
    var d := f + |sep|;
    var rest := s[d..];
    forall j: nat ensures At(rest, sep, j) == At(s, sep, d + j) { AtShift(s, sep, d, j); }
    if f == i {
      NoneLeft(rest, sep);
    } else {
      if i < d { Overlap(s, sep, f, i); }
      LastPiece(rest, sep, i - d);
      assert rest[i - d + |sep|..] == s[i + |sep|..];
    }
  }

  /** The first piece ends before the first separator. */
  lemma FirstPiece(a: string, c: char, b: string)
    requires c !in a
    ensures First(a + [c] + b, [c]) == a
  {
    SplitFirst(a, c, b);
  }

  lemma SplitFirst(a: string, c: char, b: string)
    requires c !in a
    ensures Split(a + [c] + b, [c]) == [a] + Split(b, [c])
  {
    var s := a + [c] + b;
    forall j | 0 <= j < |a| ensures !At(s, [c], j) { NotAt(s, [c], j, 0); }
    assert At(s, [c], |a|);
    assert Find(s, [c], 0) == |a|;
    assert s[..|a|] == a && s[|a| + 1..] == b;
  }

  lemma SplitNone(a: string, c: char)
    requires c !in a
    ensures Split(a, [c]) == [a]
  {
    forall j | 0 <= j <= |a| ensures !At(a, [c], j) { if j < |a| { NotAt(a, [c], j, 0); } }
    NoneLeft(a, [c]);
  }

  /** A differing character rules an occurrence out. */
  lemma NotAt(s: string, sep: string, i: nat, k: nat)
    requires k < |sep| && (i + k < |s| ==> s[i + k] != sep[k])
    ensures !At(s, sep, i)
  {}

  // ----- Where a separator of the form word= can occur -----

  /** An occurrence in a text around a character that the separator does not contain is on one side of it. */
  lemma OccursAround(sep: string, a: string, c: char, b: string)
    requires c !in sep && Occurs(sep, a + [c] + b)
    ensures Occurs(sep, a) || Occurs(sep, b)
  {
    var s := a + [c] + b;
    var i: nat :| i <= |s| && At(s, sep, i);
    if i + |sep| <= |a| {
      forall k | 0 <= k < |sep| ensures a[i + k] == sep[k] { assert a[i + k] == s[i + k]; }
      assert At(a, sep, i);
    } else if i > |a| {
      var d := |a| + 1;
      assert s[d..] == b;
      AtShift(s, sep, d, i - d);
      assert At(b, sep, i - d);
    } else {
      NotAt(s, sep, i, |a| - i);
    }
  }

  predicate EndsWith(a: string, w: string) {
    |w| <= |a| && a[|a| - |w|..] == w
  }

  /** In text around an equals sign, word= occurs at that sign or behind it. */
  lemma OccursAtEquals(w: string, a: string, b: string)
    requires '=' !in w && '=' !in a && Occurs(w + "=", a + "=" + b)
    ensures EndsWith(a, w) || Occurs(w + "=", b)
  {
    var sep, s := w + "=", a + "=" + b;
    var i: nat :| i <= |s| && At(s, sep, i);
    var d := |a| + 1;
    if i + |w| < |a| {
      NotAt(s, sep, i, |w|);
    } else if i + |w| == |a| {
      forall k | 0 <= k < |w| ensures a[i + k] == w[k] { assert s[i + k] == sep[k]; }
      assert a[i..] == w;
    } else if i <= |a| {
      NotAt(s, sep, i, |a| - i);
    } else {
      assert s[d..] == b;
      AtShift(s, sep, d, i - d);
      assert At(b, sep, i - d);
    }
  }

  lemma OccursNeedsEquals(w: string, a: string)
    requires '=' !in a
    ensures !Occurs(w + "=", a)
  {
    forall i: nat ensures !At(a, w + "=", i) { NotAt(a, w + "=", i, |w|); }
  }

  // ----- strip and int -----

  predicate IsSpace(c: char) {
    c == ' ' || c == '\t' || c == '\n' || c == '\r' || c == '\U{0B}' || c == '\U{0C}'
  }

  function StripLeft(s: string): string {
    if |s| > 0 && IsSpace(s[0]) then StripLeft(s[1..]) else s
  }

  function StripRight(s: string): string {
    if |s| > 0 && IsSpace(s[|s| - 1]) then StripRight(s[..|s| - 1]) else s
  }

  function Strip(s: string): string {
    StripRight(StripLeft(s))
  }

  /** Stripping on the right goes no further than the last character that is not a space. */
  lemma {:induction false} StripRightStops(a: string, b: string)
    requires |a| > 0 && !IsSpace(a[|a| - 1])
    ensures StripRight(a + b) == a + StripRight(b)
    decreases |b|
  {
    if |b| == 0 {
      assert a + b == a;
    } else if IsSpace(b[|b| - 1]) {
      StripRightStops(a, b[..|b| - 1]);
      assert (a + b)[..|a + b| - 1] == a + b[..|b| - 1];
    }
  }

  lemma {:induction false} StripRightPrefix(s: string)
    ensures StripRight(s) <= s
    ensures |StripRight(s)| < |s| <==> |s| > 0 && IsSpace(s[|s| - 1])
    decreases |s|
  {
    if |s| == 0 {
    } else {
      StripRightPrefix(s[..|s| - 1]);
    }
  }

  lemma {:induction false} StripLeftStarts(s: string)
    ensures |StripLeft(s)| > 0 ==> !IsSpace(StripLeft(s)[0])
    decreases |s|
  {
    if |s| == 0 || !IsSpace(s[0]) {
    } else {
      StripLeftStarts(s[1..]);
    }
  }

  lemma {:induction false} StripRightEnds(s: string)
    ensures |StripRight(s)| > 0 ==> !IsSpace(StripRight(s)[|StripRight(s)| - 1])
    decreases |s|
  {
    if |s| == 0 || !IsSpace(s[|s| - 1]) {
    } else {
      StripRightEnds(s[..|s| - 1]);
    }
  }

  lemma StripTwice(s: string)
    ensures Strip(Strip(s)) == Strip(s)
  {
    StripLeftStarts(s);
    StripRightEnds(StripLeft(s));
    StripRightPrefix(StripLeft(s));
  }

  predicate IsDigit(c: char) { '0' <= c <= '9' }

  function DigitOf(c: char): nat
    requires IsDigit(c)
  {
    (c - '0') as nat
  }

  function Digit(d: nat): char
    requires d < 10
  {
    '0' + d as char
  }

  predicate AllDigits(s: string) {
    forall i :: 0 <= i < |s| ==> IsDigit(s[i])
  }

  function Number(s: string): nat
    requires AllDigits(s)
  {
    if |s| == 0 then 0 else 10 * Number(s[..|s| - 1]) + DigitOf(s[|s| - 1])
  }

  /** int() of a string; None stands for ValueError. */
  function ParseInt(s: string): Option<int> {
    var t := Strip(s);
    if |t| > 0 && AllDigits(t) then Some(Number(t))
    else if |t| > 1 && t[0] == '+' && AllDigits(t[1..]) then Some(Number(t[1..]))
    else if |t| > 1 && t[0] == '-' && AllDigits(t[1..]) then (var n: int := Number(t[1..]); Some(-n))
    else None
  }

  /** How a number is printed. */
  function Decimal(n: nat): (s: string)
    ensures |s| > 0 && AllDigits(s)
  {
    if n < 10 then [Digit(n)] else Decimal(n / 10) + [Digit(n % 10)]
  }

  lemma {:induction false} NumberOfDecimal(n: nat)
    ensures Number(Decimal(n)) == n
    decreases n
  {
    if n < 10 {
    } else {
      NumberOfDecimal(n / 10);
      assert Decimal(n)[..|Decimal(n)| - 1] == Decimal(n / 10);
    }
  }

  lemma ParseDecimal(n: nat)
    ensures ParseInt(Decimal(n)) == Some(n)
  {
    NumberOfDecimal(n);
    assert Strip(Decimal(n)) == Decimal(n);
  }

  /** A sign in front of the digits is read as one. */
  lemma ParseSigned(n: nat)
    ensures var m: int := n; ParseInt("-" + Decimal(n)) == Some(-m) && ParseInt("+" + Decimal(n)) == Some(m)
  {
    NumberOfDecimal(n);
    SignStays('-', Decimal(n));
    SignStays('+', Decimal(n));
  }

  lemma SignStays(sign: char, digits: string)
    requires (sign == '-' || sign == '+') && |digits| > 0 && AllDigits(digits)
    ensures var s := [sign] + digits; Strip(s) == s && s[1..] == digits && s[0] == sign && !AllDigits(s)
  {
    var s := [sign] + digits;
    assert !IsDigit(s[0]) && IsDigit(s[|s| - 1]);
    assert !IsSpace(s[|s| - 1]) && !IsSpace(s[0]);
  }

  predicate AllSpaces(s: string) {
    forall i :: 0 <= i < |s| ==> IsSpace(s[i])
  }

  /** Stripping takes off exactly the whitespace around a text. */
  lemma {:induction false} StripLaw(a: string, s: string, b: string)
    requires AllSpaces(a) && AllSpaces(b) && |s| > 0 && !IsSpace(s[0]) && !IsSpace(s[|s| - 1])
    ensures Strip(a + s + b) == s
    decreases |a|
  {
    if |a| == 0 {
      assert a + s + b == s + b;
      StripRightStops(s, b);
      StripRightAll(b);
      assert s + [] == s;
    } else {
      var t := a + s + b;
      assert t[1..] == a[1..] + s + b;
      StripLaw(a[1..], s, b);
    }
  }

  lemma {:induction false} StripRightAll(b: string)
    requires AllSpaces(b)
    ensures StripRight(b) == ""
    decreases |b|
  {
    if |b| == 0 {
    } else {
      StripRightAll(b[..|b| - 1]);
    }
  }
}
