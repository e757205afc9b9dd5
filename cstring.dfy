/** The C library conversion `atoi` used by the C solutions, over a line of
  * characters: skip leading white space, accept one optional sign, then read
  * the longest run of decimal digits. Overflow is undefined in C and is not
  * modelled (integers are unbounded). */
module CString {
  predicate IsSpace(c: char)
  {
    c == ' ' || c == '\t' || c == '\n' || c == '\U{B}' || c == '\U{C}' || c == '\r'
  }

  predicate IsDigit(c: char) { '0' <= c <= '9' }

  function DigitValue(c: char): (d: nat)
    requires IsDigit(c)
    ensures d < 10
  {
    (c as int) - ('0' as int)
  }

  /** Length of the longest prefix of `s` made of decimal digits. */
  function DigitRun(s: string): (n: nat)
    ensures n <= |s|
    ensures forall i :: 0 <= i < n ==> IsDigit(s[i])
    ensures n < |s| ==> !IsDigit(s[n])
  {
    if s == [] || !IsDigit(s[0]) then 0 else 1 + DigitRun(s[1..])
  }

  /** Value of a string of decimal digits, most significant first. */
  function DigitsValue(s: string): nat
    requires forall i :: 0 <= i < |s| ==> IsDigit(s[i])
  {
    if s == [] then 0 else DigitsValue(s[..|s| - 1]) * 10 + DigitValue(s[|s| - 1])
  }

  function SkipSpace(s: string): (r: string)
    ensures |r| <= |s| && r == s[|s| - |r|..]
    ensures r == [] || !IsSpace(r[0])
  {
    if s != [] && IsSpace(s[0]) then SkipSpace(s[1..]) else s
  }

  /** `atoi(s)`. A string with no digits after the sign gives 0. */
  function Atoi(s: string): int
  {
    SignedDigits(SkipSpace(s))
  }

  /** Decimal digits of a natural number, without leading zeros ("0" for 0). */
  function Decimal(n: nat): (r: string)
    ensures |r| >= 1
    ensures forall i :: 0 <= i < |r| ==> IsDigit(r[i])
  {
    if n < 10 then [('0' as int + n) as char]
    else Decimal(n / 10) + [('0' as int + n % 10) as char]
  }

  lemma {:induction false} DecimalValue(n: nat)
    ensures DigitsValue(Decimal(n)) == n
  {
    if n >= 10 {
      DecimalValue(n / 10);
      var r := Decimal(n);
      assert r[..|r| - 1] == Decimal(n / 10);
    }
  }

  lemma {:induction false} DigitRunOfDigitsThen(d: string, rest: string)
    requires forall i :: 0 <= i < |d| ==> IsDigit(d[i])
    requires rest == [] || !IsDigit(rest[0])
    ensures DigitRun(d + rest) == |d|
  {
    if d != [] {
      assert (d + rest)[1..] == d[1..] + rest;
      DigitRunOfDigitsThen(d[1..], rest);
    } else {
      assert d + rest == rest;
    }
  }

  /** `atoi` after the white space: an optional sign, then digits. */
  function SignedDigits(t: string): int
  {
    var neg := t != [] && t[0] == '-';
    var u := if t != [] && (t[0] == '-' || t[0] == '+') then t[1..] else t;
    var v: int := DigitsValue(u[..DigitRun(u)]);
    if neg then -v else v
  }

  /** A number with no sign is read as it stands. */
  lemma SignedDigitsUnsigned(t: string)
    requires t != [] && IsDigit(t[0])
    ensures SkipSpace(t) == t
    ensures SignedDigits(t) == DigitsValue(t[..DigitRun(t)])
  {
  }

  lemma {:induction false} AtoiDigits(d: string, rest: string)
    requires |d| >= 1 && forall i :: 0 <= i < |d| ==> IsDigit(d[i])
    requires rest == [] || !IsDigit(rest[0])
    ensures Atoi(d + rest) == DigitsValue(d)
  {
    DigitRunOfDigitsThen(d, rest);
    var t := d + rest;
    assert t[0] == d[0];
    SignedDigitsUnsigned(t);
    assert t[..DigitRun(t)] == d;
  }

  lemma {:induction false} AtoiNegDigits(d: string, rest: string)
    requires |d| >= 1 && forall i :: 0 <= i < |d| ==> IsDigit(d[i])
    requires rest == [] || !IsDigit(rest[0])
    ensures Atoi("-" + d + rest) == -(DigitsValue(d) as int)
  {
    DigitRunOfDigitsThen(d, rest);
    var t := d + rest;
    var m := "-" + d + rest;
    assert SkipSpace(m) == m by {
      assert m[0] == '-';
    }
    assert SignedDigits(m) == -(DigitsValue(d) as int) by {
      assert m[0] == '-' && m[1..] == t;
      assert t[..DigitRun(t)] == d;
    }
  }

  /** `atoi` reads back a decimal number written out, whatever follows it
    * (such as the line's `'\n'`) as long as it is not another digit. */
  lemma AtoiDecimal(n: nat, rest: string)
    requires rest == [] || !IsDigit(rest[0])
    ensures Atoi(Decimal(n) + rest) == n
    ensures Atoi("-" + Decimal(n) + rest) == -(n as int)
  {
    DecimalValue(n);
    AtoiDigits(Decimal(n), rest);
    AtoiNegDigits(Decimal(n), rest);
  }
}
