/** The few JavaScript built-ins the core relies on, with their exact
    ECMAScript meaning: string length and `charCodeAt` (UTF-16 code units),
    `ToInt32` and the 32-bit operators `<<` and `&`, `Math.abs`, `String(n)`
    for an integer and `parseInt(s, 10)`. */
module Js {
  import opened Common

  // ---------------------------------------------------------------------
  // Strings are sequences of UTF-16 code units
  // ---------------------------------------------------------------------

  type CodeUnit = x: int | 0 <= x < 0x1_0000

  /** The one or two UTF-16 code units that encode a character. */
  function CodeUnitsOf(c: char): (u: seq<CodeUnit>)
    ensures |u| == (if c as int < 0x1_0000 then 1 else 2)
    ensures c as int < 0x1_0000 ==> u[0] == c as int
  {
    var n := c as int;
    if n < 0x1_0000 then [n]
    else [0xD800 + (n - 0x1_0000) / 0x400, 0xDC00 + (n - 0x1_0000) % 0x400]
  }

  /** The code units of a string, as `charCodeAt` sees them. */
  function Utf16(s: string): (u: seq<CodeUnit>)
    ensures |s| <= |u| <= 2 * |s|
  {
    if s == [] then [] else CodeUnitsOf(s[0]) + Utf16(s[1..])
  }

  /** `s.length`: the number of code units, not of characters. */
  function Length(s: string): nat {
    |Utf16(s)|
  }

  /** Inside the Basic Multilingual Plane each character is one code unit,
      so `length` and `charCodeAt` agree with the characters. */
  lemma {:induction false} Utf16OfBmp(s: string)
    requires forall i :: 0 <= i < |s| ==> s[i] as int < 0x1_0000
    ensures |Utf16(s)| == |s|
    ensures forall i :: 0 <= i < |s| ==> Utf16(s)[i] == s[i] as int
  {
    if s != [] {
      Utf16OfBmp(s[1..]);
    }
  }

  // ---------------------------------------------------------------------
  // 32-bit integer conversions and operators
  // ---------------------------------------------------------------------

  const TwoTo31: int := 0x8000_0000
  const TwoTo32: int := 0x1_0000_0000

  predicate IsInt32(x: int) {
    -TwoTo31 <= x < TwoTo31
  }

  /** ECMAScript ToInt32 on an integral value: the signed 32-bit integer
      congruent to x modulo 2^32. */
  function ToInt32(x: int): (r: int)
    ensures IsInt32(r)
    ensures (r - x) % TwoTo32 == 0
    ensures IsInt32(x) ==> r == x
  {
    (x + TwoTo31) % TwoTo32 - TwoTo31
  }

  /** ToInt32 depends only on the residue modulo 2^32. */
  lemma ToInt32Congruent(x: int, y: int)
    requires (x - y) % TwoTo32 == 0
    ensures ToInt32(x) == ToInt32(y)
  {
    var k := (x - y) / TwoTo32;
    assert x == y + k * TwoTo32;
    assert (x + TwoTo31) % TwoTo32 == (y + TwoTo31 + k * TwoTo32) % TwoTo32;
    ModMultiple(y + TwoTo31, k);
  }

  /** Scaling and shifting both sides keeps a congruence modulo 2^32. */
  lemma CongruentStep(a: int, b: int, m: int, c: int)
    requires (a - b) % TwoTo32 == 0
    ensures ((m * a + c) - (m * b + c)) % TwoTo32 == 0
  {
    var k := (a - b) / TwoTo32;
    assert a - b == k * TwoTo32;
    assert (m * a + c) - (m * b + c) == m * (a - b);
    assert m * (a - b) == (m * k) * TwoTo32;
    ModMultiple(0, m * k);
  }

  lemma ModMultiple(a: int, k: int)
    ensures (a + k * TwoTo32) % TwoTo32 == a % TwoTo32
  {
  }

  /** ECMAScript ToUint32 on an integral value. */
  function ToUint32(x: int): (r: nat)
    ensures r < TwoTo32
    ensures (r - x) % TwoTo32 == 0
  {
    x % TwoTo32
  }

  function Pow2(n: nat): (r: nat)
    ensures r >= 1
  {
    if n == 0 then 1 else 2 * Pow2(n - 1)
  }

  /** `x << n`: ToInt32(x) shifted left by n modulo 32 bits, read back as a
      signed 32-bit integer. */
  function ShiftLeft(x: int, n: nat): (r: int)
    ensures IsInt32(r)
  {
    ToInt32(ToInt32(x) * Pow2(n % 32))
  }

  /** The bitwise and of the low k bits of two naturals. */
  function AndBits(a: nat, b: nat, k: nat): (r: nat)
    ensures r < Pow2(k)
  {
    if k == 0 then 0
    else 2 * AndBits(a / 2, b / 2, k - 1) + (if a % 2 == 1 && b % 2 == 1 then 1 else 0)
  }

  /** `a & b`: bitwise and of the two 32-bit patterns, read back signed. */
  function BitAnd(a: int, b: int): (r: int)
    ensures IsInt32(r)
  {
    ToInt32(AndBits(ToUint32(a), ToUint32(b), 32))
  }

  /** A pattern and-ed with itself is unchanged (on its low k bits). */
  lemma {:induction false} AndBitsSelf(a: nat, k: nat)
    ensures AndBits(a, a, k) == a % Pow2(k)
  {
    if k > 0 {
      AndBitsSelf(a / 2, k - 1);
      assert AndBits(a, a, k) == 2 * (a / 2 % Pow2(k - 1)) + a % 2;
      ModDouble(a, Pow2(k - 1));
    }
  }

  lemma ModDouble(a: nat, p: nat)
    requires p > 0
    ensures a % (2 * p) == 2 * (a / 2 % p) + a % 2
  {
    var h, b := a / 2, a % 2;
    var q, r := h / p, h % p;
    assert a == 2 * h + b;
    assert h == p * q + r;
    assert a == (2 * p) * q + (2 * r + b) by {
      assert 2 * (p * q) == (2 * p) * q;
    }
    DivUnique(a, 2 * p, q, 2 * r + b);
  }

  lemma MulLe(m: nat, x: int, y: int)
    requires x <= y
    ensures m * x <= m * y
  {
  }

  lemma DivUnique(a: int, m: int, q: int, r: int)
    requires m > 0 && 0 <= r < m && a == m * q + r
    ensures a / m == q && a % m == r
  {
    var q0, r0 := a / m, a % m;
    assert a == m * q0 + r0;
    if q > q0 {
      MulLe(m, q0 + 1, q);
      assert false;
    } else if q < q0 {
      MulLe(m, q + 1, q0);
      assert false;
    }
  }

  lemma {:induction false} Pow2Add(a: nat, b: nat)
    ensures Pow2(a + b) == Pow2(a) * Pow2(b)
  {
    if a > 0 {
      Pow2Add(a - 1, b);
    }
  }

  lemma Pow2Of32()
    ensures Pow2(32) == TwoTo32
  {
    assert Pow2(4) == 16;
    Pow2Add(4, 4);
    Pow2Add(8, 8);
    Pow2Add(16, 16);
  }

  /** `x & x` is the usual idiom for "convert to a 32-bit integer". */
  lemma BitAndSelf(x: int)
    ensures BitAnd(x, x) == ToInt32(x)
  {
    var v := ToUint32(x);
    Pow2Of32();
    AndBitsSelfBelow(v, 32);
    ToInt32Congruent(v, x);
  }

  /** A pattern that fits in k bits, and-ed with itself, is unchanged. */
  lemma AndBitsSelfBelow(a: nat, k: nat)
    requires a < Pow2(k)
    ensures AndBits(a, a, k) == a
  {
    AndBitsSelf(a, k);
  }

  /** `Math.abs` on an integer. */
  function Abs(x: int): (r: nat)
    ensures r == x || r == -x
  {
    if x < 0 then -x else x
  }

  // ---------------------------------------------------------------------
  // Decimal rendering and parsing
  // ---------------------------------------------------------------------

  predicate IsDigit(c: char) {
    '0' <= c <= '9'
  }

  function DigitChar(d: nat): (c: char)
    requires d < 10
    ensures IsDigit(c)
  {
    (48 + d) as char
  }

  function DigitValue(c: char): (d: nat)
    requires IsDigit(c)
    ensures d < 10
  {
    c as int - 48
  }

  /** Decimal digits of a natural number, most significant first. */
  function NatToString(n: nat): (s: string)
    ensures s != []
    ensures forall i :: 0 <= i < |s| ==> IsDigit(s[i])
  {
    if n < 10 then [DigitChar(n)] else NatToString(n / 10) + [DigitChar(n % 10)]
  }

  /** From 10^21 in magnitude on, `String(n)` uses exponent notation. */
  const ExponentFrom: int := 1_000_000_000_000_000_000_000

  /** `String(n)` for an integral Number (below 10^21 in magnitude, where
      JavaScript switches to exponent notation). */
  function NumberToString(n: int): (s: string)
    ensures s != []
  {
    if n < 0 then "-" + NatToString(-n) else NatToString(n)
  }

  /** The value of a run of decimal digits. */
  function DigitsValue(d: string): nat
    requires forall i :: 0 <= i < |d| ==> IsDigit(d[i])
  {
    if d == [] then 0 else 10 * DigitsValue(d[..|d| - 1]) + DigitValue(d[|d| - 1])
  }

  /** StrWhiteSpaceChar: the white space and line terminators that
      `parseInt` skips before the number. */
  predicate IsStrWhiteSpace(c: char) {
    if c <= ' ' then
      c == '\t' || c == '\n' || c == '\U{000B}' || c == '\U{000C}' || c == '\r' || c == ' '
    else
      && '\U{00A0}' <= c
      && (|| c == '\U{00A0}' || c == '\U{1680}'
          || ('\U{2000}' <= c <= '\U{200A}')
          || c == '\U{2028}' || c == '\U{2029}' || c == '\U{202F}' || c == '\U{205F}'
          || c == '\U{3000}' || c == '\U{FEFF}')
  }

  function TrimStart(s: string): (r: string)
    ensures |r| <= |s|
    ensures r == [] || !IsStrWhiteSpace(r[0])
  {
    if s != [] && IsStrWhiteSpace(s[0]) then TrimStart(s[1..]) else s
  }

  /** The longest prefix of s made of decimal digits. */
  function DigitPrefix(s: string): (r: string)
    ensures |r| <= |s| && r == s[..|r|]
    ensures forall i :: 0 <= i < |r| ==> IsDigit(r[i])
    ensures |r| < |s| ==> !IsDigit(s[|r|])
  {
    if s != [] && IsDigit(s[0]) then [s[0]] + DigitPrefix(s[1..]) else []
  }

  /** What follows an optional leading sign. */
  function Unsigned(t: string): (u: string)
    ensures |u| <= |t|
    ensures u == [] || t != []
  {
    if t != [] && (t[0] == '-' || t[0] == '+') then t[1..] else t
  }

  /** `parseInt(s, 10)`: skip leading white space, read an optional sign and
      the longest run of digits after it; no digit at all gives NaN (None).
      The result -0 is represented by 0. */
  function ParseInt(s: string): Option<int> {
    ParseSigned(TrimStart(s))
  }

  /** The number at the start of t, which has no leading white space. */
  function ParseSigned(t: string): Option<int> {
    var z := DigitPrefix(Unsigned(t));
    if z == [] then None
    else
      var v: int := DigitsValue(z);
      if t[0] == '-' then Some(-v) else Some(v)
  }

  lemma {:induction false} DigitPrefixOfDigits(s: string)
    requires forall i :: 0 <= i < |s| ==> IsDigit(s[i])
    ensures DigitPrefix(s) == s
  {
    if s != [] {
      DigitPrefixOfDigits(s[1..]);
    }
  }

  lemma {:induction false} DigitsValueOfNatToString(n: nat)
    ensures DigitsValue(NatToString(n)) == n
  {
    if n >= 10 {
      var s := NatToString(n);
      assert s[..|s| - 1] == NatToString(n / 10);
      DigitsValueOfNatToString(n / 10);
    }
  }

  /** `parseInt(String(n), 10) == n`: rendering an integer below 10^21 in
      magnitude and parsing it back gives the same integer. */
  lemma ParseIntOfNumberToString(n: int)
    requires -ExponentFrom < n < ExponentFrom
    ensures ParseInt(NumberToString(n)) == Some(n)
  {
    var m := if n < 0 then -n else n;
    var d := NatToString(m);
    DigitsValueOfNatToString(m);
    if n < 0 {
      ParseIntOfSignedDigits(d);
    } else {
      ParseIntOfDigits(d);
    }
  }

  /** A run of digits parses to its value... */
  lemma ParseIntOfDigits(d: string)
    requires d != [] && forall i :: 0 <= i < |d| ==> IsDigit(d[i])
    ensures ParseInt(d) == Some(DigitsValue(d))
  {
    NoWhiteSpaceBeforeDigits(d);
    ParseSignedOfDigits(d);
  }

  /** ... and with a minus sign in front, to its opposite. */
  lemma ParseIntOfSignedDigits(d: string)
    requires d != [] && forall i :: 0 <= i < |d| ==> IsDigit(d[i])
    ensures ParseInt("-" + d) == Some(-(DigitsValue(d) as int))
  {
    var s := "-" + d;
    assert TrimStart(s) == s;
    ParseSignedOfMinusDigits(d);
  }

  lemma NoWhiteSpaceBeforeDigits(d: string)
    requires d != [] && IsDigit(d[0])
    ensures TrimStart(d) == d
  {
  }

  lemma ParseSignedOfDigits(d: string)
    requires d != [] && forall i :: 0 <= i < |d| ==> IsDigit(d[i])
    ensures ParseSigned(d) == Some(DigitsValue(d))
  {
    assert d[0] != '-' && Unsigned(d) == d by {
      assert IsDigit(d[0]);
    }
    DigitPrefixOfDigits(d);
    ParseSignedOfPrefix(d, d);
  }

  lemma ParseSignedOfMinusDigits(d: string)
    requires d != [] && forall i :: 0 <= i < |d| ==> IsDigit(d[i])
    ensures ParseSigned("-" + d) == Some(-(DigitsValue(d) as int))
  {
    var s := "-" + d;
    assert s[0] == '-' && Unsigned(s) == d by {
      assert s[1..] == d;
    }
    DigitPrefixOfDigits(d);
    ParseSignedOfPrefix(s, d);
  }

  /** ParseSigned in terms of the digits it reads. */
  lemma ParseSignedOfPrefix(t: string, z: string)
    requires z != [] && DigitPrefix(Unsigned(t)) == z
    ensures t != []
    ensures ParseSigned(t) == if t[0] == '-' then Some(-(DigitsValue(z) as int)) else Some(DigitsValue(z))
  {
  }
}
