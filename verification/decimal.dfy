/** Decimal digits and the rendering of integers as JavaScript prints them
    (`${n}`, `String(n)`, or a number child in JSX). */
module Decimal {

  predicate IsDigit(c: char) {
    '0' <= c <= '9'
  }

  predicate AllDigits(s: string) {
    forall i :: 0 <= i < |s| ==> IsDigit(s[i])
  }

  function DigitValue(c: char): (d: nat)
    requires IsDigit(c)
    ensures d < 10
  {
    (c as int) - ('0' as int)
  }

  function DigitChar(d: nat): (c: char)
    requires d < 10
    ensures IsDigit(c) && DigitValue(c) == d
  {
    (('0' as int) + d) as char
  }

  /** Value of a string of decimal digits, most significant digit first;
      the empty string has value 0. */
  function DigitsValue(s: string): nat
    requires AllDigits(s)
  {
    if |s| == 0 then 0 else 10 * DigitsValue(s[..|s| - 1]) + DigitValue(s[|s| - 1])
  }

  /** Shortest decimal rendering of a natural number: non-empty, digits only,
      and no leading zero unless the number is 0 itself. */
  function ShowNat(n: nat): (s: string)
    ensures |s| >= 1 && AllDigits(s)
    ensures |s| > 1 ==> s[0] != '0'
    ensures n < 10 <==> |s| == 1
  {
    if n < 10 then [DigitChar(n)] else ShowNat(n / 10) + [DigitChar(n % 10)]
  }

  /** Rendering of an integer: a `-` sign before the magnitude when negative. */
  function ShowInt(i: int): (s: string)
    ensures |s| >= 1
    ensures i >= 0 ==> s == ShowNat(i)
    ensures i < 0 ==> s == "-" + ShowNat(-i)
  {
    if i < 0 then "-" + ShowNat(-i) else ShowNat(i)
  }

  /** Reading a rendering back gives the number: ShowNat is a right inverse
      of DigitsValue. */
  lemma {:induction false} ShowNatRoundTrip(n: nat)
    ensures DigitsValue(ShowNat(n)) == n
  {
    if n >= 10 {
      var s := ShowNat(n);
      ShowNatRoundTrip(n / 10);
      assert s[..|s| - 1] == ShowNat(n / 10);
    }
  }

  /** Distinct numbers have distinct renderings. */
  lemma ShowNatInjective(a: nat, b: nat)
    ensures ShowNat(a) == ShowNat(b) <==> a == b
  {
    if ShowNat(a) == ShowNat(b) {
      ShowNatRoundTrip(a);
      ShowNatRoundTrip(b);
    }
  }

  /** Distinct integers have distinct renderings. */
  lemma ShowIntInjective(a: int, b: int)
    ensures ShowInt(a) == ShowInt(b) <==> a == b
  {
    if ShowInt(a) == ShowInt(b) {
      if a < 0 && b < 0 {
        assert ShowInt(a)[1..] == ShowNat(-a);
        assert ShowInt(b)[1..] == ShowNat(-b);
        ShowNatInjective(-a, -b);
      } else if a >= 0 && b >= 0 {
        ShowNatInjective(a, b);
      }
    }
  }

  /** A digit string in the form ShowNat produces: non-empty, and no
      leading zero unless it is "0". */
  predicate Canonical(s: string) {
    |s| > 0 && AllDigits(s) && (|s| == 1 || s[0] != '0')
  }

  lemma {:induction false} LeadingDigitNonZero(s: string)
    requires |s| > 0 && AllDigits(s) && s[0] != '0'
    ensures DigitsValue(s) >= 1
  {
    if |s| > 1 {
      LeadingDigitNonZero(s[..|s| - 1]);
    }
  }

  /** A canonical digit string is the rendering of its own value, so the
      canonical strings are exactly the renderings of natural numbers. */
  lemma {:induction false} CanonicalIsShowNat(s: string)
    requires Canonical(s)
    ensures ShowNat(DigitsValue(s)) == s
  {
    var last := s[|s| - 1];
    if |s| == 1 {
      assert s == [last];
    } else {
      var front := s[..|s| - 1];
      LeadingDigitNonZero(front);
      CanonicalIsShowNat(front);
      var v := DigitsValue(s);
      assert v / 10 == DigitsValue(front) && v % 10 == DigitValue(last);
      assert s == front + [last];
    }
  }

  /** Two-digit zero-padded rendering (Intl's `2-digit`). */
  function Pad2(n: nat): (s: string)
    requires n < 100
    ensures |s| == 2 && AllDigits(s) && DigitsValue(s) == n
  {
    ShowNatRoundTrip(n);
    if n < 10 then "0" + ShowNat(n) else ShowNat(n)
  }

  /** Four-digit zero-padded rendering of a year. */
  function Pad4(n: nat): (s: string)
    requires n < 10000
    ensures |s| == 4 && AllDigits(s) && DigitsValue(s) == n
  {
    var high, low := Pad2(n / 100), Pad2(n % 100);
    DigitsValueAppend2(high, low);
    high + low
  }

  /** Appending two digits scales the value by one hundred. */
  lemma DigitsValueAppend2(a: string, b: string)
    requires AllDigits(a) && AllDigits(b) && |b| == 2
    ensures AllDigits(a + b)
    ensures DigitsValue(a + b) == 100 * DigitsValue(a) + DigitsValue(b)
  {
    var ab := a + b;
    var a0 := a + [b[0]];
    assert ab[..|ab| - 1] == a0 && ab[|ab| - 1] == b[1];
    assert a0[..|a0| - 1] == a && a0[|a0| - 1] == b[0];
    assert DigitsValue(a0) == 10 * DigitsValue(a) + DigitValue(b[0]);
    assert b[..1][..0] == [];
    assert DigitsValue(b[..1]) == DigitValue(b[0]);
    assert DigitsValue(b) == 10 * DigitValue(b[0]) + DigitValue(b[1]);
  }
}
