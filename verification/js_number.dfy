/** The two string-to-number conversions the source applies to formatted
    dates and times: `parseInt(s, 10)` and `Number(s)`. Only integral values
    arise from those strings, so numbers are modelled as integers or NaN. */
module JsNumber {
  import opened Decimal
  import opened Text

  /** A JavaScript number as far as this model needs one. `Unmodelled`
      stands for the value of a numeric literal form outside the decimal
      integer grammar (fraction, exponent, hexadecimal, `Infinity`, ...),
      which `Number` accepts but this model does not evaluate. */
  datatype Num = Int(value: int) | NaN | Unmodelled

  /** Drops leading white space. */
  function TrimStart(s: string): (t: string)
    ensures |t| <= |s| && t == s[|s| - |t|..]
    ensures |t| > 0 ==> !IsJsSpace(t[0])
    ensures forall i :: 0 <= i < |s| - |t| ==> IsJsSpace(s[i])
  {
    if |s| > 0 && IsJsSpace(s[0]) then TrimStart(s[1..]) else s
  }

  /** Drops trailing white space. */
  function TrimEnd(s: string): (t: string)
    ensures |t| <= |s| && t == s[..|t|]
    ensures |t| > 0 ==> !IsJsSpace(t[|t| - 1])
    ensures forall i :: |t| <= i < |s| ==> IsJsSpace(s[i])
  {
    if |s| > 0 && IsJsSpace(s[|s| - 1]) then TrimEnd(s[..|s| - 1]) else s
  }

  /** Length of the longest prefix made of decimal digits. */
  function DigitPrefix(s: string): (k: nat)
    ensures k <= |s| && AllDigits(s[..k])
    ensures k < |s| ==> !IsDigit(s[k])
  {
    if |s| > 0 && IsDigit(s[0]) then
      var k := 1 + DigitPrefix(s[1..]);
      assert s[..k] == [s[0]] + s[1..][..k - 1];
      k
    else 0
  }

  /** Splits an optional leading sign off: (is negative, rest). */
  function Unsign(t: string): (bool, string) {
    if |t| > 0 && (t[0] == '-' || t[0] == '+') then (t[0] == '-', t[1..]) else (false, t)
  }

  /** `parseInt(s, 10)`: skip leading white space, read an optional sign and
      the longest run of digits after it; NaN when there is no digit. */
  function ParseInt(s: string): (r: Num)
    ensures r.Int? || r.NaN?
  {
    var (negative, u) := Unsign(TrimStart(s));
    var k := DigitPrefix(u);
    if k == 0 then NaN else Int(SignedValue(negative, u[..k]))
  }

  /** 2^53 - 1: every integer up to it is held exactly by a JavaScript
      number; above it the parse rounds to a nearby even multiple. */
  const MaxSafeInteger: nat := 9007199254740991

  function Pow10(k: nat): (p: nat)
    ensures p > 0
  {
    if k == 0 then 1 else 10 * Pow10(k - 1)
  }

  /** A digit run of at most k digits is below 10^k. */
  lemma {:induction false} DigitsBelowPow10(digits: string, k: nat)
    requires AllDigits(digits) && |digits| <= k
    ensures DigitsValue(digits) < Pow10(k)
  {
    if |digits| > 0 {
      var init := digits[..|digits| - 1];
      assert AllDigits(init);
      DigitsBelowPow10(init, k - 1);
    }
  }

  /** A run of at most fifteen digits stays within the safe integers, so the
      exact value the model gives is the value JavaScript computes. */
  lemma ShortRunIsSafe(digits: string)
    requires AllDigits(digits) && |digits| <= 15
    ensures DigitsValue(digits) <= MaxSafeInteger
  {
    DigitsBelowPow10(digits, 15);
    assert Pow10(15) == 1000000000000000;
  }

  // ---------------------------------------------------------------------
  // The StringNumericLiteral grammar of section 7.1.4.1.1 of ECMA-262

  /** The base a non-decimal prefix letter selects: `x` 16, `o` 8, `b` 2
      (either case); 0 for any other letter. */
  function RadixOf(c: char): nat {
    if c == 'x' || c == 'X' then 16
    else if c == 'o' || c == 'O' then 8
    else if c == 'b' || c == 'B' then 2
    else 0
  }

  /** A digit of the given base (hexadecimal letters in either case). */
  predicate IsRadixDigit(c: char, radix: nat) {
    ('0' <= c <= '9' && (c as int - '0' as int) < radix)
    || (radix == 16 && ('a' <= c <= 'f' || 'A' <= c <= 'F'))
  }

  /** NonDecimalIntegerLiteral: `0x`, `0o` or `0b` and at least one digit
      of that base; no sign is allowed in front. */
  predicate IsNonDecimalLiteral(t: string) {
    |t| >= 3 && t[0] == '0' && RadixOf(t[1]) > 0 &&
    forall i :: 2 <= i < |t| ==> IsRadixDigit(t[i], RadixOf(t[1]))
  }

  /** ExponentPart: `e` or `E`, an optional sign, and at least one digit. */
  predicate IsExponentPart(x: string) {
    |x| >= 2 && (x[0] == 'e' || x[0] == 'E') &&
    var digits := Unsign(x[1..]).1;
    |digits| > 0 && AllDigits(digits)
  }

  /** StrUnsignedDecimalLiteral: `Infinity`, or digits with an optional
      fraction and exponent, where at least one digit stands before or
      after the point. */
  predicate IsUnsignedDecimalLiteral(u: string) {
    u == "Infinity" ||
    var k := DigitPrefix(u);
    var rest := u[k..];
    if |rest| > 0 && rest[0] == '.' then
      var f := DigitPrefix(rest[1..]);
      var exponent := rest[1..][f..];
      k + f > 0 && (|exponent| == 0 || IsExponentPart(exponent))
    else
      k > 0 && (|rest| == 0 || IsExponentPart(rest))
  }

  /** StringNumericLiteral with the surrounding white space already removed:
      empty, a non-decimal integer, or an optionally signed decimal. */
  predicate IsStringNumericLiteral(t: string) {
    |t| == 0 || IsNonDecimalLiteral(t) || IsUnsignedDecimalLiteral(Unsign(t).1)
  }

  /** The signed value of an optionally signed digit run. */
  function SignedValue(negative: bool, digits: string): int
    requires AllDigits(digits)
  {
    var magnitude: int := DigitsValue(digits);
    if negative then -magnitude else magnitude
  }

  /** The value of a string with its surrounding white space removed. */
  function LiteralValue(t: string): Num {
    if |t| == 0 then Int(0)
    else
      var (negative, u) := Unsign(t);
      if |u| > 0 && AllDigits(u) then Int(SignedValue(negative, u))
      else if IsNonDecimalLiteral(t) || IsUnsignedDecimalLiteral(u) then Unmodelled
      else NaN
  }

  /** NaN exactly for the strings outside the literal grammar; an integer
      for a non-empty string only when it is a signed digit run. */
  lemma LiteralValueCases(t: string)
    ensures LiteralValue(t).NaN? <==> !IsStringNumericLiteral(t)
    ensures LiteralValue(t).Int? && |t| > 0 ==>
      var u := Unsign(t).1;
      |u| > 0 && AllDigits(u) && LiteralValue(t).value == SignedValue(Unsign(t).0, u)
  {
    var u := Unsign(t).1;
    if |t| > 0 && |u| > 0 && AllDigits(u) {
      assert DigitPrefix(u) == |u|;
    }
  }

  /** `Number(s)`: white space around the literal is ignored; the empty
      string is 0, an optionally signed run of decimal digits is its value
      (leading zeros ignored), any other numeric literal is `Unmodelled`,
      and a string that is no numeric literal is NaN. */
  function ToNumber(s: string): Num {
    LiteralValue(TrimEnd(TrimStart(s)))
  }

  /** `Number(s)` is NaN exactly when `s`, trimmed, is no numeric literal. */
  lemma ToNumberNaNIff(s: string)
    ensures ToNumber(s).NaN? <==> !IsStringNumericLiteral(TrimEnd(TrimStart(s)))
  {
    LiteralValueCases(TrimEnd(TrimStart(s)));
  }

  /** parseInt reads a digit string back as its value and ignores anything
      after the digits. */
  lemma ParseIntOfDigits(digits: string, rest: string)
    requires |digits| > 0 && AllDigits(digits)
    requires |rest| == 0 || !IsDigit(rest[0])
    ensures ParseInt(digits + rest) == Int(DigitsValue(digits))
  {
    var s := digits + rest;
    assert s[0] == digits[0];
    DigitFirstIsBare(s);
    ParseIntReads(s, false, digits, rest);
  }

  /** parseInt reads `-` and a digit run as the negated run. */
  lemma ParseIntOfNegative(s: string, digits: string, rest: string)
    requires |s| > 0 && s[0] == '-' && s[1..] == digits + rest
    requires |digits| > 0 && AllDigits(digits)
    requires |rest| == 0 || !IsDigit(rest[0])
    ensures ParseInt(s) == Int(-(DigitsValue(digits) as int))
  {
    MinusFirstIsBare(s);
    ParseIntReads(s, true, digits, rest);
  }

  /** A string that starts with `-` has no white space to skip, and its
      sign is negative. */
  lemma MinusFirstIsBare(s: string)
    requires |s| > 0 && s[0] == '-'
    ensures TrimStart(s) == s && Unsign(s) == (true, s[1..])
  {
  }

  /** A string that starts with a digit has no white space or sign to skip. */
  lemma DigitFirstIsBare(s: string)
    requires |s| > 0 && IsDigit(s[0])
    ensures TrimStart(s) == s && Unsign(s) == (false, s)
  {
  }

  /** The digit prefix of a digit string followed by a non-digit is that
      digit string. */
  lemma {:induction false} DigitPrefixOf(digits: string, rest: string)
    requires AllDigits(digits)
    requires |rest| == 0 || !IsDigit(rest[0])
    ensures DigitPrefix(digits + rest) == |digits|
  {
    if |digits| > 0 {
      DigitPrefixOf(digits[1..], rest);
      assert (digits + rest)[1..] == digits[1..] + rest;
    } else {
      assert digits + rest == rest;
    }
  }

  /** Number reads a digit string as its value: leading zeros are dropped. */
  lemma ToNumberOfDigits(digits: string)
    requires |digits| > 0 && AllDigits(digits)
    ensures ToNumber(digits) == Int(DigitsValue(digits))
  {
    assert !IsJsSpace(digits[0]);
    assert TrimStart(digits) == digits;
    assert !IsJsSpace(digits[|digits| - 1]);
    assert TrimEnd(digits) == digits;
    assert Unsign(digits) == (false, digits);
  }

  /** parseInt inverts the decimal rendering of a natural number. */
  lemma ParseIntShowNat(n: nat)
    ensures ParseInt(ShowNat(n)) == Int(n)
  {
    ParseIntOfDigits(ShowNat(n), "");
    assert ShowNat(n) + "" == ShowNat(n);
    ShowNatRoundTrip(n);
  }

  /** Where `Number` gives an integer for a non-blank string, `parseInt`
      gives the same integer: trailing white space stops parseInt's digit
      run exactly where `Number` trims it. */
  lemma ToNumberAgreesWithParseInt(s: string)
    requires ToNumber(s).Int? && |TrimEnd(TrimStart(s))| > 0
    ensures ParseInt(s) == ToNumber(s)
  {
    var t := TrimEnd(TrimStart(s));
    LiteralValueCases(t);
    TrimEndSplits(TrimStart(s));
    ParseIntOfTrimmed(s, t, TrimStart(s)[|t|..]);
  }

  /** What `TrimEnd` removes is white space, so it starts with no digit. */
  lemma TrimEndSplits(ts: string)
    ensures ts == TrimEnd(ts) + ts[|TrimEnd(ts)|..]
    ensures |ts| > |TrimEnd(ts)| ==> !IsDigit(ts[|TrimEnd(ts)|])
  {
    var t := TrimEnd(ts);
    if |ts| > |t| {
      SpaceIsNotDigit(ts[|t|]);
    }
  }

  /** parseInt of a string whose trimmed form is a signed digit run reads
      that run. */
  lemma ParseIntOfTrimmed(s: string, t: string, tail: string)
    requires TrimStart(s) == t + tail && |t| > 0
    requires |tail| == 0 || !IsDigit(tail[0])
    requires |Unsign(t).1| > 0 && AllDigits(Unsign(t).1)
    ensures ParseInt(s) == Int(SignedValue(Unsign(t).0, Unsign(t).1))
  {
    UnsignAppend(t, tail);
    ParseIntReads(s, Unsign(t).0, Unsign(t).1, tail);
  }

  lemma SpaceIsNotDigit(c: char)
    requires IsJsSpace(c)
    ensures !IsDigit(c)
  {
  }

  /** A sign is read off the front of a string whatever follows. */
  lemma UnsignAppend(t: string, tail: string)
    requires |t| > 0
    ensures Unsign(t + tail) == (Unsign(t).0, Unsign(t).1 + tail)
  {
    assert (t + tail)[0] == t[0];
    assert (t + tail)[1..] == t[1..] + tail;
  }

  /** parseInt of a string whose signed digit run stops at a non-digit. */
  lemma ParseIntReads(s: string, negative: bool, digits: string, rest: string)
    requires Unsign(TrimStart(s)) == (negative, digits + rest)
    requires |digits| > 0 && AllDigits(digits)
    requires |rest| == 0 || !IsDigit(rest[0])
    ensures ParseInt(s) == Int(SignedValue(negative, digits))
  {
    DigitPrefixOf(digits, rest);
    assert (digits + rest)[..|digits|] == digits;
  }

  /** Letters, in front of or after digits, make a string NaN. */
  lemma NotALiteralIsNaN()
    ensures ToNumber("abc") == NaN
    ensures ToNumber("1a") == NaN
  {
    NoSpaceNoTrim("abc");
    NoSpaceNoTrim("1a");
    assert DigitPrefix("1a") == 1 && "1a"[1..] == "a";
  }

  /** A literal takes one sign only. */
  lemma DoubleSignIsNaN()
    ensures ToNumber("--1") == NaN
  {
    NoSpaceNoTrim("--1");
    assert "--1"[1..] == "-1";
  }

  /** A non-decimal literal takes no sign. */
  lemma SignedHexIsNaN()
    ensures ToNumber("-0x1") == NaN
  {
    NoSpaceNoTrim("-0x1");
    assert "-0x1"[1..] == "0x1";
    assert DigitPrefix("0x1") == 1 && "0x1"[1..] == "x1";
  }

  /** A literal that is not an optionally signed digit run is accepted but
      not evaluated. */
  lemma OtherLiteralIsUnmodelled(t: string)
    requires |t| > 0 && !IsJsSpace(t[0]) && !IsJsSpace(t[|t| - 1])
    requires IsNonDecimalLiteral(t) || IsUnsignedDecimalLiteral(Unsign(t).1)
    requires !AllDigits(Unsign(t).1)
    ensures ToNumber(t) == Unmodelled
  {
    NoSpaceNoTrim(t);
  }

  /** A hexadecimal literal is a number the model does not evaluate. */
  lemma HexIsUnmodelled()
    ensures ToNumber("0x1F") == Unmodelled
  {
    assert IsNonDecimalLiteral("0x1F") by {
      assert RadixOf("0x1F"[1]) == 16;
    }
    assert !AllDigits("0x1F") by {
      assert !IsDigit("0x1F"[1]);
    }
    OtherLiteralIsUnmodelled("0x1F");
  }

  /** A fraction is a number the model does not evaluate. */
  lemma FractionIsUnmodelled()
    ensures ToNumber("1.5") == Unmodelled
  {
    assert IsUnsignedDecimalLiteral("1.5") by {
      assert DigitPrefix("1.5") == 1 && "1.5"[1..] == ".5" && ".5"[1..] == "5";
      assert DigitPrefix("5") == 1 && "5"[1..] == "";
    }
    assert !AllDigits("1.5") by {
      assert !IsDigit("1.5"[1]);
    }
    OtherLiteralIsUnmodelled("1.5");
  }

  /** A signed `Infinity` is a number the model does not evaluate. */
  lemma InfinityIsUnmodelled()
    ensures ToNumber("-Infinity") == Unmodelled
  {
    assert Unsign("-Infinity").1 == "Infinity" by {
      assert "-Infinity"[1..] == "Infinity";
    }
    assert !AllDigits("Infinity") by {
      assert !IsDigit("Infinity"[0]);
    }
    OtherLiteralIsUnmodelled("-Infinity");
  }

  /** The empty string is 0 and a digit run is its value. */
  lemma IntegerExamples()
    ensures ToNumber("42") == Int(42)
    ensures ToNumber("") == Int(0)
  {
    ToNumberOfDigits("42");
    assert DigitsValue("42") == 42 by {
      assert "42"[..1] == "4" && "4"[..0] == "";
    }
  }

  /** A string with no white space at either end is its own trimming. */
  lemma NoSpaceNoTrim(s: string)
    requires |s| > 0 && !IsJsSpace(s[0]) && !IsJsSpace(s[|s| - 1])
    ensures TrimEnd(TrimStart(s)) == s
  {
  }

  /** White space around a literal does not change its value. */
  lemma ToNumberIgnoresSpace(s: string)
    requires |s| > 0 && !IsJsSpace(s[0]) && !IsJsSpace(s[|s| - 1])
    ensures ToNumber(" " + s + " ") == ToNumber(s)
  {
    var padded := " " + s + " ";
    assert padded[1..] == s + " ";
    assert TrimStart(s + " ") == s + " " by {
      assert (s + " ")[0] == s[0];
    }
    assert (s + " ")[..|s|] == s;
    assert TrimEnd(s + " ") == s;
    NoSpaceNoTrim(s);
  }
}
