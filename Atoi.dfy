/** `atoi` from the C standard library, as section 7.22.1.2 of ISO C11 describes it:
    equivalent to `strtol(s, NULL, 10)`, so it skips leading white space (the C locale's
    `isspace`), accepts one optional sign, reads the longest run of decimal digits and
    converts it; a string with no digits where the number should start converts to 0.
    The value is the mathematical one: the model does not represent values that would
    not fit in an `int`. */
module CLib {

  predicate IsSpace(c: char) {
    c == ' ' || c == '\t' || c == '\n' || c == '\U{000B}' || c == '\U{000C}' || c == '\r'
  }

  predicate IsDigit(c: char) {
    '0' <= c <= '9'
  }

  function DigitValue(c: char): nat
    requires IsDigit(c)
  {
    (c as int) - ('0' as int)
  }

  function DigitChar(d: nat): char
    requires d < 10
  {
    ((d + '0' as int) as char)
  }

  /** `s` with its leading white space skipped. */
  function SkipSpace(s: string): string {
    if s != [] && IsSpace(s[0]) then SkipSpace(s[1..]) else s
  }

  /** The longest prefix of `s` made of decimal digits. */
  function LeadingDigits(s: string): (r: string)
    ensures |r| <= |s| && r == s[..|r|]
    ensures forall i :: 0 <= i < |r| ==> IsDigit(r[i])
    ensures |r| < |s| ==> !IsDigit(s[|r|])
  {
    if s != [] && IsDigit(s[0]) then [s[0]] + LeadingDigits(s[1..]) else []
  }

  /** The value of a string of decimal digits, most significant first. */
  function DigitsValue(ds: string): nat
    requires forall i :: 0 <= i < |ds| ==> IsDigit(ds[i])
  {
    if ds == [] then 0 else DigitsValue(ds[..|ds| - 1]) * 10 + DigitValue(ds[|ds| - 1])
  }

  function Atoi(s: string): int {
    var t := SkipSpace(s);
    if t != [] && (t[0] == '-' || t[0] == '+') then
      var magnitude: int := DigitsValue(LeadingDigits(t[1..]));
      if t[0] == '-' then -magnitude else magnitude
    else
      DigitsValue(LeadingDigits(t))
  }

  /** The decimal rendering of `n`, without sign or leading zeros: how a priority is written. */
  function Decimal(n: nat): string {
    if n < 10 then [DigitChar(n)] else Decimal(n / 10) + [DigitChar(n % 10)]
  }

  /** The decimal rendering of an integer, with a leading '-' when it is negative. */
  function Signed(n: int): string {
    if n < 0 then "-" + Decimal(-n) else Decimal(n)
  }

  /** A run of digits followed by anything that does not start with a digit is read up to
      the first non-digit. */
  lemma {:induction false} LeadingDigitsOf(ds: string, rest: string)
    requires forall i :: 0 <= i < |ds| ==> IsDigit(ds[i])
    requires rest == [] || !IsDigit(rest[0])
    ensures LeadingDigits(ds + rest) == ds
  {
    if ds == [] {
      assert ds + rest == rest;
    } else {
      assert (ds + rest)[1..] == ds[1..] + rest;
      LeadingDigitsOf(ds[1..], rest);
    }
  }

  lemma {:induction false} DecimalDigits(n: nat)
    ensures Decimal(n) != [] && !IsSpace(Decimal(n)[0])
    ensures forall i :: 0 <= i < |Decimal(n)| ==> IsDigit(Decimal(n)[i])
  {
    if n >= 10 {
      DecimalDigits(n / 10);
    }
  }

  lemma {:induction false} DecimalValue(n: nat)
    ensures forall i :: 0 <= i < |Decimal(n)| ==> IsDigit(Decimal(n)[i])
    ensures DigitsValue(Decimal(n)) == n
  {
    DecimalDigits(n);
    if n >= 10 {
      DecimalValue(n / 10);
      var d := Decimal(n);
      assert d[..|d| - 1] == Decimal(n / 10);
    }
  }

  /** Text starting with a digit is read as its leading digits. */
  lemma AtoiUnsigned(t: string)
    requires t != [] && IsDigit(t[0])
    ensures Atoi(t) == DigitsValue(LeadingDigits(t))
  {
    assert SkipSpace(t) == t;
  }

  /** A '-' followed by a digit is read as the negated leading digits. */
  lemma AtoiNegative(t: string)
    requires t != [] && IsDigit(t[0])
    ensures Atoi("-" + t) == -(DigitsValue(LeadingDigits(t)) as int)
  {
    var u := "-" + t;
    assert SkipSpace(u) == u;
    assert u[1..] == t;
  }

  /** A number written in decimal, optionally followed by text that does not start with
      a digit, reads back as that number: atoi undoes the decimal rendering. */
  lemma AtoiSigned(n: int, rest: string)
    requires rest == [] || !IsDigit(rest[0])
    ensures Atoi(Signed(n) + rest) == n
  {
    var m: nat := if n < 0 then -n else n;
    var t := Decimal(m) + rest;
    DecimalDigits(m);
    DecimalValue(m);
    LeadingDigitsOf(Decimal(m), rest);
    assert t[0] == Decimal(m)[0];
    if n < 0 {
      assert Signed(n) + rest == "-" + t;
      AtoiNegative(t);
    } else {
      assert Signed(n) + rest == t;
      AtoiUnsigned(t);
    }
  }

  /** Leading white space does not change what atoi reads. */
  lemma {:induction false} AtoiSkipsSpace(ws: string, s: string)
    requires forall i :: 0 <= i < |ws| ==> IsSpace(ws[i])
    ensures Atoi(ws + s) == Atoi(s)
  {
    SkipSpacePrefix(ws, s);
  }

  lemma {:induction false} SkipSpacePrefix(ws: string, s: string)
    requires forall i :: 0 <= i < |ws| ==> IsSpace(ws[i])
    ensures SkipSpace(ws + s) == SkipSpace(s)
  {
    if ws == [] {
      assert ws + s == s;
    } else {
      assert (ws + s)[1..] == ws[1..] + s;
      SkipSpacePrefix(ws[1..], s);
    }
  }

  /** Text that does not start (after white space and an optional sign) with a digit
      converts to 0: non-numeric priorities are read as 0. */
  lemma NonNumericIsZero(s: string)
    requires var t := SkipSpace(s);
             t == [] || (if t[0] == '-' || t[0] == '+' then |t| == 1 || !IsDigit(t[1]) else !IsDigit(t[0]))
    ensures Atoi(s) == 0
  {
  }
}
