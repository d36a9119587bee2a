/** Decimal text of numbers, as JavaScript produces and reads it for the integers the kiosk
    uses: `1 * s` on a string of decimal digits (kiosk/js/kiosk.js:130) and `'' + n` or
    `'sched_id_' + n` on an integer (kiosk/js/kiosk.js:70-71, 78, 93-96). */
module Digits {

  predicate IsDigit(c: char) {
    '0' <= c <= '9'
  }

  predicate IsDigits(s: string) {
    forall i :: 0 <= i < |s| ==> IsDigit(s[i])
  }

  /** The way JavaScript writes a non-negative integer: at least one digit, and no leading
      zero unless the number is zero itself. */
  predicate Canonical(s: string) {
    IsDigits(s) && |s| >= 1 && (|s| == 1 || s[0] != '0')
  }

  function DigitChar(d: nat): (c: char)
    requires d < 10
    ensures IsDigit(c) && c as int - '0' as int == d
  {
    ('0' as int + d) as char
  }

  function DigitValue(c: char): (d: nat)
    requires IsDigit(c)
    ensures d < 10 && DigitChar(d) == c
  {
    c as int - '0' as int
  }

  /** The number a string of decimal digits denotes (`1 * s`); the empty string gives 0. */
  function DigitsValue(s: string): nat
    requires IsDigits(s)
  {
    if s == [] then 0 else DigitsValue(s[..|s| - 1]) * 10 + DigitValue(s[|s| - 1])
  }

  /** `'' + n` for a non-negative integer. */
  function Decimal(n: nat): (r: string)
    ensures Canonical(r)
    ensures r[0] == '0' <==> n == 0
    ensures |r| == 1 <==> n < 10
    ensures n < 100 ==> |r| <= 2
  {
    if n < 10 then [DigitChar(n)] else Decimal(n / 10) + [DigitChar(n % 10)]
  }

  /** `'' + n` for any integer: a minus sign before the digits of a negative one. */
  function NumberText(n: int): (r: string)
    ensures |r| >= 1
    ensures n >= 0 ==> Canonical(r)
    ensures n < 0 ==> r[0] == '-' && Canonical(r[1..])
  {
    if n < 0 then "-" + Decimal(-n) else Decimal(n)
  }

  /** Reading back the text of a number gives the number. */
  lemma {:induction false} DecimalRoundTrip(n: nat)
    ensures DigitsValue(Decimal(n)) == n
  {
    if n >= 10 {
      var r := Decimal(n);
      assert r[..|r| - 1] == Decimal(n / 10);
      DecimalRoundTrip(n / 10);
    }
  }

  /** Writing the value of a canonical digit string gives the string back; a string with a
      leading zero (`"0480"`) does not come back, since its value is written without it. */
  lemma {:induction false} CanonicalRoundTrip(s: string)
    requires Canonical(s)
    ensures Decimal(DigitsValue(s)) == s
    ensures |s| > 1 ==> DigitsValue(s) >= 10
  {
    if |s| > 1 {
      var p := s[..|s| - 1];
      assert Canonical(p);
      CanonicalRoundTrip(p);
      if |p| == 1 {
        assert DigitsValue(p) == DigitValue(p[0]) >= 1;
      }
      var v := DigitsValue(s);
      assert v / 10 == DigitsValue(p) && v % 10 == DigitValue(s[|s| - 1]);
      assert Decimal(v) == Decimal(DigitsValue(p)) + [DigitChar(DigitValue(s[|s| - 1]))];
    } else {
      assert s == [s[0]];
    }
  }

  /** Two canonical digit strings denote the same number only if they are the same string. */
  lemma CanonicalInjective(s: string, u: string)
    requires Canonical(s) && Canonical(u)
    ensures DigitsValue(s) == DigitsValue(u) <==> s == u
  {
    CanonicalRoundTrip(s);
    CanonicalRoundTrip(u);
  }

  /** `(n < 10 ? '0' : '') + n`: the minutes and seconds of the clock. */
  function Pad2(n: nat): (r: string)
    requires n < 100
    ensures |r| == 2 && IsDigits(r) && DigitsValue(r) == n
  {
    DecimalRoundTrip(n);
    if n < 10 then
      var r := "0" + Decimal(n);
      assert r[..1] == "0" && r[1] == DigitChar(n);
      r
    else
      Decimal(n)
  }
}
