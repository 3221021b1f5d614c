/** Decimal numbers as the C++ library prints and reads them: to_string, strtol, stol and stoul. */
module Decimal {
  const LONG_MAX: int := 0x7FFF_FFFF_FFFF_FFFF
  const WORD: int := 0x1_0000_0000_0000_0000

  predicate IsDigit(c: char) {
    '0' <= c <= '9'
  }

  predicate AllDigits(s: string) {
    forall i :: 0 <= i < |s| ==> IsDigit(s[i])
  }

  predicate IsSpace(c: char) {
    c in " \t\n\r\U{000B}\U{000C}"
  }

  function DigitOf(d: nat): (c: char)
    requires d < 10
    ensures IsDigit(c) && ValueOf(c) == d
  {
    ('0' as int + d) as char
  }

  function ValueOf(c: char): (d: nat)
    requires IsDigit(c)
    ensures d < 10
  {
    c as int - '0' as int
  }

  function ToString(n: nat): (s: string)
    ensures s != "" && AllDigits(s)
  {
    if n < 10 then [DigitOf(n)] else ToString(n / 10) + [DigitOf(n % 10)]
  }

  /** The lengths of the parts, printed. */
  function SizesOf(parts: seq<string>): (r: seq<string>)
    ensures |r| == |parts| && forall i :: 0 <= i < |r| ==> r[i] == ToString(|parts[i]|)
  {
    seq(|parts|, i requires 0 <= i < |parts| => ToString(|parts[i]|))
  }

  lemma {:induction false} ToStringIsShort(n: nat)
    ensures |ToString(n)| <= n / 10 + 1
  {
    if n >= 10 {
      ToStringIsShort(n / 10);
    }
  }

  /** The value of the leading digits of `s`, after those that made up `soFar`. */
  function Accumulate(s: string, soFar: nat): nat {
    if s == "" || !IsDigit(s[0]) then soFar else Accumulate(s[1..], 10 * soFar + ValueOf(s[0]))
  }

  lemma {:induction false} AccumulateAppend(a: string, b: string, soFar: nat)
    requires AllDigits(a)
    ensures Accumulate(a + b, soFar) == Accumulate(b, Accumulate(a, soFar))
  {
    if a == "" {
      assert a + b == b;
    } else {
      assert (a + b)[1..] == a[1..] + b;
      AccumulateAppend(a[1..], b, 10 * soFar + ValueOf(a[0]));
    }
  }

  lemma {:induction false} AccumulateInvertsToString(n: nat)
    ensures Accumulate(ToString(n), 0) == n
  {
    if n >= 10 {
      AccumulateInvertsToString(n / 10);
      AccumulateAppend(ToString(n / 10), [DigitOf(n % 10)], 0);
    }
  }

  datatype Scanned = NoDigits | Number(value: int)

  function SkipSpace(s: string): (r: string)
    ensures r == "" || !IsSpace(r[0])
  {
    if s != "" && IsSpace(s[0]) then SkipSpace(s[1..]) else s
  }

  /** White space, an optional sign, and as many digits as there are; whatever follows is ignored. */
  function Scan(s: string): Scanned {
    var t := SkipSpace(s);
    var negative := t != "" && t[0] == '-';
    var u := if t != "" && t[0] in "+-" then t[1..] else t;
    if u == "" || !IsDigit(u[0]) then NoDigits
    else
      var n: int := Accumulate(u, 0);
      Number(if negative then -n else n)
  }

  lemma ScanInvertsToString(n: nat)
    ensures Scan(ToString(n)) == Number(n)
  {
    AccumulateInvertsToString(n);
    assert IsDigit(ToString(n)[0]);
  }

  lemma {:induction false} SkipsSpace(space: string, t: string)
    requires (forall i :: 0 <= i < |space| ==> space[i] in " \t\n\r\U{000B}\U{000C}") && (t == "" || !IsSpace(t[0]))
    ensures SkipSpace(space + t) == t
  {
    if space == "" {
      assert space + t == t;
    } else {
      assert (space + t)[1..] == space[1..] + t;
      SkipsSpace(space[1..], t);
    }
  }

  function Signed(sign: string, n: int): int {
    if sign == "-" then -n else n
  }

  /** White space in front, a sign, and whatever follows the digits do not matter but for the sign. */
  lemma ScansSigned(space: string, sign: string, n: nat, rest: string)
    requires forall i :: 0 <= i < |space| ==> space[i] in " \t\n\r\U{000B}\U{000C}"
    requires sign == "" || sign == "+" || sign == "-"
    requires rest == "" || !('0' <= rest[0] <= '9')
    ensures Scan(space + (sign + (ToString(n) + rest))) == Number(Signed(sign, n))
  {
    hide ToString, SkipSpace;
    var digits := ToString(n);
    assert IsDigit(digits[0]) && (digits + rest)[0] == digits[0];
    assert (sign + (digits + rest))[|sign|..] == digits + rest;
    SkipsSpace(space, sign + (digits + rest));
    AccumulateAppend(digits, rest, 0);
    AccumulateInvertsToString(n);
  }

  /** Without a digit behind white space and sign there is nothing to convert. */
  lemma ScansNothing(space: string, sign: string, rest: string)
    requires forall i :: 0 <= i < |space| ==> space[i] in " \t\n\r\U{000B}\U{000C}"
    requires sign == "" || sign == "+" || sign == "-"
    requires rest == "" || !('0' <= rest[0] <= '9')
    requires sign == "" && rest != "" ==> rest[0] !in "+- \t\n\r\U{000B}\U{000C}"
    ensures Scan(space + (sign + rest)) == NoDigits
  {
    hide SkipSpace;
    SkipsSpace(space, sign + rest);
    assert (sign + rest)[|sign|..] == rest;
  }

  lemma ToStringInjective(m: nat, n: nat)
    requires ToString(m) == ToString(n)
    ensures m == n
  {
    ScanInvertsToString(m);
    ScanInvertsToString(n);
  }

  /** strtol: nothing to convert gives zero, and a number out of range the nearest bound. */
  function Strtol(s: string): (v: int)
    ensures -LONG_MAX - 1 <= v <= LONG_MAX
  {
    match Scan(s)
    case NoDigits => 0
    case Number(n) => if n < -LONG_MAX - 1 then -LONG_MAX - 1 else if n > LONG_MAX then LONG_MAX else n
  }

  datatype Converted = Fine(value: int) | InvalidArgument | OutOfRange

  function Stol(s: string): (r: Converted)
    ensures r.Fine? ==> -LONG_MAX - 1 <= r.value <= LONG_MAX
  {
    match Scan(s)
    case NoDigits => InvalidArgument
    case Number(n) => if -LONG_MAX - 1 <= n <= LONG_MAX then Fine(n) else OutOfRange
  }

  /** stoul accepts a minus sign and negates modulo the word size. */
  function Stoul(s: string): (r: Converted)
    ensures r.Fine? ==> 0 <= r.value < WORD
  {
    match Scan(s)
    case NoDigits => InvalidArgument
    case Number(n) => if -WORD < n < WORD then Fine(n % WORD) else OutOfRange
  }

  lemma ConversionsInvertToString(n: nat)
    ensures n < WORD ==> Stoul(ToString(n)) == Fine(n)
    ensures n <= LONG_MAX ==> Stol(ToString(n)) == Fine(n)
    ensures Strtol(ToString(n)) == if n <= LONG_MAX then n else LONG_MAX
  {
    ScanInvertsToString(n);
  }

  /** What the three conversions make of a printed number with white space and a sign in front and anything but a digit
      behind: strtol stops at the bounds, stol refuses what lies outside, and stoul wraps a negative number. */
  lemma ConversionsExactly(space: string, sign: string, n: nat, rest: string)
    requires forall i :: 0 <= i < |space| ==> space[i] in " \t\n\r\U{000B}\U{000C}"
    requires sign == "" || sign == "+" || sign == "-"
    requires rest == "" || !('0' <= rest[0] <= '9')
    ensures var text := space + (sign + (ToString(n) + rest));
      var v := Signed(sign, n);
      && Strtol(text) == (if v < -0x8000_0000_0000_0000 then -0x8000_0000_0000_0000
                          else if v > 0x7FFF_FFFF_FFFF_FFFF then 0x7FFF_FFFF_FFFF_FFFF else v)
      && Stol(text) == (if -0x8000_0000_0000_0000 <= v <= 0x7FFF_FFFF_FFFF_FFFF then Fine(v) else OutOfRange)
      && Stoul(text) == (if n >= 0x1_0000_0000_0000_0000 then OutOfRange
                         else if v < 0 then Fine(0x1_0000_0000_0000_0000 - n) else Fine(v))
  {
    hide Scan;
    ScansSigned(space, sign, n, rest);
  }

  lemma NothingConverts(space: string, sign: string, rest: string)
    requires forall i :: 0 <= i < |space| ==> space[i] in " \t\n\r\U{000B}\U{000C}"
    requires sign == "" || sign == "+" || sign == "-"
    requires rest == "" || !('0' <= rest[0] <= '9')
    requires sign == "" && rest != "" ==> rest[0] !in "+- \t\n\r\U{000B}\U{000C}"
    ensures var text := space + (sign + rest);
      Strtol(text) == 0 && Stol(text) == InvalidArgument && Stoul(text) == InvalidArgument
  {
    hide Scan;
    ScansNothing(space, sign, rest);
  }
}
