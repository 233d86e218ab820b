/**
 * Decimal text of integers: how JavaScript turns an integral Number into a
 * string (`'TestPayment-' + Date.now()`), and fixed-width zero-padded fields
 * (the digits of `toISOString`). Each printer has a parser as its partner.
 */
module Decimal {

  import opened Wrappers

  predicate IsDigit(c: char) {
    '0' <= c <= '9'
  }

  predicate AllDigits(s: string) {
    forall i :: 0 <= i < |s| ==> IsDigit(s[i])
  }

  function DigitChar(d: int): (c: char)
    requires 0 <= d < 10
    ensures IsDigit(c) && DigitValue(c) == d
  {
    ('0' as int + d) as char
  }

  function DigitValue(c: char): (d: int)
    requires IsDigit(c)
    ensures 0 <= d < 10
  {
    c as int - '0' as int
  }

  function Pow10(w: nat): (p: nat)
    ensures p >= 1
  {
    if w == 0 then 1 else 10 * Pow10(w - 1)
  }

  /** The value of a string of decimal digits (the empty string reads as 0). */
  function ParseNat(s: string): nat
    requires AllDigits(s)
  {
    if s == [] then 0 else ParseNat(s[..|s| - 1]) * 10 + DigitValue(s[|s| - 1])
  }

  /** Shortest decimal numeral of n: at least one digit and no leading zero. */
  function NatString(n: nat): (s: string)
    ensures |s| >= 1 && AllDigits(s)
    ensures s[0] == '0' ==> n == 0
  {
    if n < 10 then [DigitChar(n)] else NatString(n / 10) + [DigitChar(n % 10)]
  }

  /** `String(n)` for an integral JavaScript Number n: a minus sign for negatives. */
  function IntString(n: int): string {
    if n < 0 then "-" + NatString(-n) else NatString(n)
  }

  /** Reads back what IntString prints. */
  function ParseInt(s: string): Option<int> {
    if |s| > 1 && s[0] == '-' && AllDigits(s[1..]) then Some(0 - ParseNat(s[1..]))
    else if s != [] && AllDigits(s) then Some(ParseNat(s) as int)
    else None
  }

  /** The low `width` decimal digits of n, with leading zeros: `String(n).padStart(width, '0')` when n < 10^width. */
  function Padded(n: nat, width: nat): (s: string)
    ensures |s| == width && AllDigits(s)
  {
    if width == 0 then "" else Padded(n / 10, width - 1) + [DigitChar(n % 10)]
  }

  lemma {:induction false} ParseNatString(n: nat)
    ensures ParseNat(NatString(n)) == n
  {
    if n >= 10 {
      var s := NatString(n / 10) + [DigitChar(n % 10)];
      assert s[..|s| - 1] == NatString(n / 10);
      ParseNatString(n / 10);
    }
  }

  /** IntString and ParseInt are inverse: the printed numeral determines the number. */
  lemma ParseIntString(n: int)
    ensures ParseInt(IntString(n)) == Some(n)
  {
    if n < 0 {
      ParseNegative(-n);
    } else {
      var s := NatString(n);
      ParseNatString(n);
      assert IsDigit(s[0]);
    }
  }

  lemma ParseNegative(m: nat)
    requires m > 0
    ensures ParseInt("-" + NatString(m)) == Some(-(m as int))
  {
    var s := "-" + NatString(m);
    assert s[1..] == NatString(m);
    ParseNatString(m);
  }

  lemma {:induction false} ParsePadded(n: nat, width: nat)
    requires n < Pow10(width)
    ensures ParseNat(Padded(n, width)) == n
  {
    if width > 0 {
      var s := Padded(n, width);
      assert s[..|s| - 1] == Padded(n / 10, width - 1);
      ParsePadded(n / 10, width - 1);
    }
  }

  /** Zero-padded fields of one width are equal exactly when the numbers are. */
  lemma PaddedInjective(m: nat, n: nat, width: nat)
    requires m < Pow10(width) && n < Pow10(width)
    ensures Padded(m, width) == Padded(n, width) <==> m == n
  {
    ParsePadded(m, width);
    ParsePadded(n, width);
  }
}
