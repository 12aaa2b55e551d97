/** `detectInputType` of src/utils.ts: a login identifier is an email, a
    US/Taiwan phone number or a username, decided by two regular expressions,
    the email test first. */
module InputType {
  import opened Text
  import opened Pattern

  datatype InputType = Email | Phone | Username

  /** `^[^\s@]+@[^\s@]+\.[^\s@]+$` */
  const EmailPattern: seq<Piece> := [
    OneOrMore(NeitherSpaceNorAt), One(Char('@')),
    OneOrMore(NeitherSpaceNorAt), One(Char('.')),
    OneOrMore(NeitherSpaceNorAt)
  ]

  // The US alternative `^(?:\+1[\s.-]?)?(?:\(?\d{3}\)?[\s.-]?)?\d{3}[\s.-]?\d{4}$`
  // has two optional groups, hence four flat patterns.

  const UsSeparator: CharClass := SpaceOr(".-")

  /** `\+1[\s.-]?` */
  const UsCountryCode: seq<Piece> := Literal("+1") + [Optional(UsSeparator)]

  /** `\(?\d{3}\)?[\s.-]?` */
  const UsAreaCode: seq<Piece> :=
    [Optional(Char('(')), Times(AnyDigit, 3), Optional(Char(')')), Optional(UsSeparator)]

  /** `\d{3}[\s.-]?\d{4}` */
  const UsSubscriber: seq<Piece> := [Times(AnyDigit, 3), Optional(UsSeparator), Times(AnyDigit, 4)]

  const UsPatterns: seq<seq<Piece>> := [
    UsSubscriber,
    UsAreaCode + UsSubscriber,
    UsCountryCode + UsSubscriber,
    UsCountryCode + UsAreaCode + UsSubscriber
  ]

  // The Taiwan alternative `^(?:\+886[\s-]?|0)(?:9\d{8}|[2-8]\d{7,8})$`:
  // two prefixes times two number forms.

  /** `\+886[\s-]?` */
  const TwCountryCode: seq<Piece> := Literal("+886") + [Optional(SpaceOr("-"))]

  /** `0` */
  const TwTrunkPrefix: seq<Piece> := Literal("0")

  /** `9\d{8}` */
  const TwMobile: seq<Piece> := [One(Char('9')), Times(AnyDigit, 8)]

  /** `[2-8]\d{7,8}` */
  const TwLandline: seq<Piece> := [One(DigitRange('2', '8')), Between(AnyDigit, 7, 8)]

  const TwPatterns: seq<seq<Piece>> := [
    TwCountryCode + TwMobile,
    TwCountryCode + TwLandline,
    TwTrunkPrefix + TwMobile,
    TwTrunkPrefix + TwLandline
  ]

  const PhonePatterns: seq<seq<Piece>> := UsPatterns + TwPatterns

  predicate IsEmail(s: string) {
    Matches(EmailPattern, s)
  }

  predicate IsPhone(s: string) {
    MatchesAny(PhonePatterns, s)
  }

  /** The identifier's type. Because no phone number contains `@`, the order
      of the two tests never matters: the result is Phone exactly when the
      phone expression matches. */
  function DetectInputType(input: string): (t: InputType)
    ensures t == Email <==> IsEmail(input)
    ensures t == Phone <==> IsPhone(input)
    ensures t == Username <==> !IsEmail(input) && !IsPhone(input)
  {
    EmailIsNeverPhone(input);
    if IsEmail(input) then Email
    else if IsPhone(input) then Phone
    else Username
  }

  predicate NoSpace(s: string) {
    forall i :: 0 <= i < |s| ==> !IsJsSpace(s[i])
  }

  /** The email expression read structurally: no white space; exactly one
      `@`, with text before it; after it a `.` with text on both sides. */
  predicate EmailShape(s: string) {
    && NoSpace(s)
    && exists at, dot ::
      && 0 < at && at + 1 < dot < |s| - 1
      && s[at] == '@' && s[dot] == '.'
      && forall i :: 0 <= i < |s| && i != at ==> s[i] != '@'
  }

  predicate Plain(s: string) {
    |s| > 0 && forall i :: 0 <= i < |s| ==> Accepts(NeitherSpaceNorAt, s[i])
  }

  lemma EmailMatchHasShape(s: string)
    requires IsEmail(s)
    ensures EmailShape(s)
  {
    var chunks := ChunksOfMatch(EmailPattern, s);
    ConcatFive(chunks);
    assert PieceMatches(One(Char('@')), chunks[1]);
    assert PieceMatches(One(Char('.')), chunks[3]);
    assert chunks[1] == "@" && chunks[3] == ".";
    assert PieceMatches(OneOrMore(NeitherSpaceNorAt), chunks[0]);
    assert PieceMatches(OneOrMore(NeitherSpaceNorAt), chunks[2]);
    assert PieceMatches(OneOrMore(NeitherSpaceNorAt), chunks[4]);
    PartsHaveShape(chunks[0], chunks[2], chunks[4]);
  }

  lemma ConcatFive(chunks: seq<string>)
    requires |chunks| == 5
    ensures Concat(chunks) == chunks[0] + chunks[1] + chunks[2] + chunks[3] + chunks[4]
  {
    var t1 := chunks[1..];
    var t2 := t1[1..];
    var t3 := t2[1..];
    var t4 := t3[1..];
    assert t4[1..] == [] && t4[0] == chunks[4];
    assert Concat(t4) == chunks[4] + "";
    assert t3[0] == chunks[3] && t2[0] == chunks[2] && t1[0] == chunks[1];
    assert Concat(t3) == chunks[3] + Concat(t4);
    assert Concat(t2) == chunks[2] + Concat(t3);
    assert Concat(t1) == chunks[1] + Concat(t2);
  }

  lemma PartsHaveShape(a: string, b: string, c: string)
    requires Plain(a) && Plain(b) && Plain(c)
    ensures EmailShape(a + "@" + b + "." + c)
  {
    var s := a + "@" + b + "." + c;
    var at, dot := |a|, |a| + 1 + |b|;
    assert s[at] == '@' && s[dot] == '.';
    forall i | 0 <= i < |s|
      ensures !IsJsSpace(s[i]) && (i != at ==> s[i] != '@')
    {
      if i < at {
        assert s[i] == a[i];
      } else if at < i < dot {
        assert s[i] == b[i - at - 1];
      } else if i > dot {
        assert s[i] == c[i - dot - 1];
      }
    }
  }

  lemma ShapeIsEmailMatch(s: string)
    requires EmailShape(s)
    ensures IsEmail(s)
  {
    var at, dot :|
      && 0 < at && at + 1 < dot < |s| - 1
      && s[at] == '@' && s[dot] == '.'
      && forall i :: 0 <= i < |s| && i != at ==> s[i] != '@';
    var chunks := [s[..at], "@", s[at + 1..dot], ".", s[dot + 1..]];
    ConcatOfEmailParts(s, at, dot, chunks);
    PlainSlice(s, at, 0, at);
    PlainSlice(s, at, at + 1, dot);
    PlainSlice(s, at, dot + 1, |s|);
    assert Decomposes(EmailPattern, chunks, s);
    MatchOfChunks(EmailPattern, chunks, s);
  }

  lemma ConcatOfEmailParts(s: string, at: nat, dot: nat, chunks: seq<string>)
    requires 0 < at && at + 1 < dot < |s| - 1 && s[at] == '@' && s[dot] == '.'
    requires chunks == [s[..at], "@", s[at + 1..dot], ".", s[dot + 1..]]
    ensures Concat(chunks) == s
  {
    ConcatFive(chunks);
    assert s[dot..] == "." + s[dot + 1..];
    assert s[at + 1..] == s[at + 1..dot] + s[dot..];
    assert s[at..] == "@" + s[at + 1..];
    assert s == s[..at] + s[at..];
  }

  /** A non-empty stretch of a space-free string that avoids the one `@`
      is matched by `[^\s@]+`. */
  lemma PlainSlice(s: string, at: nat, lo: nat, hi: nat)
    requires NoSpace(s) && lo < hi <= |s| && (at < lo || hi <= at)
    requires forall i :: 0 <= i < |s| && i != at ==> s[i] != '@'
    ensures PieceMatches(OneOrMore(NeitherSpaceNorAt), s[lo..hi])
  {
    forall i | 0 <= i < hi - lo
      ensures Accepts(NeitherSpaceNorAt, s[lo..hi][i])
    {
      assert s[lo..hi][i] == s[lo + i];
    }
  }

  /** The email test accepts exactly the strings of email shape. */
  lemma EmailIff(s: string)
    ensures IsEmail(s) <==> EmailShape(s)
  {
    if IsEmail(s) {
      EmailMatchHasShape(s);
    }
    if EmailShape(s) {
      ShapeIsEmailMatch(s);
    }
  }

  predicate NoAtSign(ps: seq<Piece>) {
    forall j :: 0 <= j < |ps| ==> !Accepts(ps[j].cls, '@')
  }

  lemma NoAtSignAppend(a: seq<Piece>, b: seq<Piece>)
    requires NoAtSign(a) && NoAtSign(b)
    ensures NoAtSign(a + b)
  {
    forall j | 0 <= j < |a + b|
      ensures !Accepts((a + b)[j].cls, '@')
    {
      if j < |a| {
        assert (a + b)[j] == a[j];
      } else {
        assert (a + b)[j] == b[j - |a|];
      }
    }
  }

  lemma PartsHaveNoAtSign()
    ensures NoAtSign(UsCountryCode) && NoAtSign(UsAreaCode) && NoAtSign(UsSubscriber)
    ensures NoAtSign(TwCountryCode) && NoAtSign(TwTrunkPrefix)
    ensures NoAtSign(TwMobile) && NoAtSign(TwLandline)
  {
    assert NoAtSign(Literal("+1"));
    assert NoAtSign(Literal("+886"));
    NoAtSignAppend(Literal("+1"), [Optional(UsSeparator)]);
    NoAtSignAppend(Literal("+886"), [Optional(SpaceOr("-"))]);
  }

  lemma PhonePatternsHaveNoAtSign()
    ensures forall i :: 0 <= i < |PhonePatterns| ==> NoAtSign(PhonePatterns[i])
  {
    PartsHaveNoAtSign();
    NoAtSignAppend(UsAreaCode, UsSubscriber);
    NoAtSignAppend(UsCountryCode, UsSubscriber);
    NoAtSignAppend(UsCountryCode, UsAreaCode + UsSubscriber);
    assert UsCountryCode + UsAreaCode + UsSubscriber == UsCountryCode + (UsAreaCode + UsSubscriber);
    NoAtSignAppend(TwCountryCode, TwMobile);
    NoAtSignAppend(TwCountryCode, TwLandline);
    NoAtSignAppend(TwTrunkPrefix, TwMobile);
    NoAtSignAppend(TwTrunkPrefix, TwLandline);
    forall i | 0 <= i < |PhonePatterns|
      ensures NoAtSign(PhonePatterns[i])
    {
      if i < 4 {
        assert PhonePatterns[i] == UsPatterns[i];
      } else {
        assert PhonePatterns[i] == TwPatterns[i - 4];
      }
    }
  }

  /** Any input containing `@` is never a phone number. */
  lemma AtSignIsNeverPhone(s: string)
    requires '@' in s
    ensures !IsPhone(s)
  {
    if IsPhone(s) {
      var i :| 0 <= i < |PhonePatterns| && Matches(PhonePatterns[i], s);
      PhonePatternsHaveNoAtSign();
      MatchAvoids(PhonePatterns[i], s, '@');
    }
  }

  lemma EmailContainsAt(s: string)
    requires IsEmail(s)
    ensures '@' in s
  {
    EmailMatchHasShape(s);
    var at, dot :| 0 < at && at + 1 < dot < |s| - 1 && s[at] == '@' && s[dot] == '.';
  }

  /** The two expressions are disjoint: every email contains `@`. */
  lemma EmailIsNeverPhone(s: string)
    ensures IsEmail(s) ==> !IsPhone(s)
  {
    if IsEmail(s) {
      EmailContainsAt(s);
      AtSignIsNeverPhone(s);
    }
  }

  lemma PhonePatternsAreLong()
    ensures forall i :: 0 <= i < |PhonePatterns| ==> MinLength(PhonePatterns[i]) >= 7
  {
    assert MinLength(UsSubscriber) == 7 by {
      assert UsSubscriber[1..][1..] == [Times(AnyDigit, 4)];
      assert MinLength(UsSubscriber[1..][1..]) == 4;
      assert MinLength(UsSubscriber[1..]) == 4;
    }
    assert MinLength(TwMobile) == 9 by {
      assert TwMobile[1..][1..] == [];
    }
    assert MinLength(TwLandline) == 8 by {
      assert TwLandline[1..][1..] == [];
    }
    MinLengthAppend(UsAreaCode, UsSubscriber);
    MinLengthAppend(UsCountryCode, UsSubscriber);
    MinLengthAppend(UsCountryCode + UsAreaCode, UsSubscriber);
    MinLengthAppend(TwCountryCode, TwMobile);
    MinLengthAppend(TwCountryCode, TwLandline);
    MinLengthAppend(TwTrunkPrefix, TwMobile);
    MinLengthAppend(TwTrunkPrefix, TwLandline);
  }

  /** Phone numbers have at least seven characters. */
  lemma ShortInputIsNeverPhone(s: string)
    requires |s| < 7
    ensures !IsPhone(s)
  {
    if IsPhone(s) {
      var i :| 0 <= i < |PhonePatterns| && Matches(PhonePatterns[i], s);
      PhonePatternsAreLong();
      MatchAtLeastMinLength(PhonePatterns[i], s);
    }
  }

  /** Anything shorter than five characters, the empty string included, is
      a username. */
  lemma ShortInputIsUsername(s: string)
    requires |s| < 5
    ensures DetectInputType(s) == Username
  {
    if IsEmail(s) {
      MatchAtLeastMinLength(EmailPattern, s);
    }
    ShortInputIsNeverPhone(s);
  }
}

module InputTypeExamples {
  import opened Pattern
  import opened InputType

  /** The area code is optional: seven digits form a US number. */
  lemma SevenDigitsArePhone()
    ensures DetectInputType("5551234") == Phone
  {
    MatchOfChunks(UsSubscriber, ["555", "", "1234"], "5551234");
    assert PhonePatterns[0] == UsSubscriber;
  }

  /** A decomposition along one of the phone alternatives makes the input a phone number. */
  lemma PhoneByAlternative(k: nat, chunks: seq<string>, s: string)
    requires k < |PhonePatterns| && Decomposes(PhonePatterns[k], chunks, s)
    ensures DetectInputType(s) == Phone
  {
    MatchOfChunks(PhonePatterns[k], chunks, s);
  }

  lemma TenDigitsText()
    ensures "" + "555" + "" + "" + "123" == "555123"
    ensures "" + "4567" == "4567"
    ensures "555123" + "4567" == "5551234567"
  {
  }

  lemma TenDigitsChunks()
    ensures Concat(["", "555", "", "", "123", "", "4567"]) == "5551234567"
  {
    var c := ["", "555", "", "", "123", "", "4567"];
    ConcatSplit(c, 5);
    ConcatFive(c[..5]);
    ConcatTwo(c[5..]);
    TenDigitsText();
  }

  lemma TenDigitsDecompose(ps: seq<Piece>, chunks: seq<string>, s: string)
    requires ps == [Optional(Char('(')), Times(AnyDigit, 3), Optional(Char(')')), Optional(UsSeparator),
                    Times(AnyDigit, 3), Optional(UsSeparator), Times(AnyDigit, 4)]
    requires chunks == ["", "555", "", "", "123", "", "4567"]
    requires Concat(chunks) == s
    ensures Decomposes(ps, chunks, s)
  {
    assert PieceMatches(ps[1], chunks[1]);
    assert PieceMatches(ps[4], chunks[4]);
    assert PieceMatches(ps[6], chunks[6]);
  }

  lemma TenDigitsArePhone()
    ensures DetectInputType("5551234567") == Phone
  {
    var chunks := ["", "555", "", "", "123", "", "4567"];
    TenDigitsChunks();
    assert PhonePatterns[1] == UsAreaCode + UsSubscriber;
    TenDigitsDecompose(PhonePatterns[1], chunks, "5551234567");
    PhoneByAlternative(1, chunks, "5551234567");
  }

  lemma UsInternationalText()
    ensures "+" + "1" + " " + "" + "555" == "+1 555"
    ensures "" + "-" + "123" + "-" + "4567" == "-123-4567"
    ensures "+1 555" + "-123-4567" == "+1 555-123-4567"
  {
  }

  lemma UsInternationalChunks()
    ensures Concat(["+", "1", " ", "", "555", "", "-", "123", "-", "4567"]) == "+1 555-123-4567"
  {
    var c := ["+", "1", " ", "", "555", "", "-", "123", "-", "4567"];
    ConcatSplit(c, 5);
    ConcatFive(c[..5]);
    ConcatFive(c[5..]);
    UsInternationalText();
  }

  lemma UsInternationalPattern()
    ensures PhonePatterns[3] == [
      One(Char('+')), One(Char('1')), Optional(UsSeparator),
      Optional(Char('(')), Times(AnyDigit, 3), Optional(Char(')')), Optional(UsSeparator),
      Times(AnyDigit, 3), Optional(UsSeparator), Times(AnyDigit, 4)]
  {
    assert Literal("+1") == [One(Char('+')), One(Char('1'))];
  }

  lemma UsInternationalDecompose(ps: seq<Piece>, chunks: seq<string>, s: string)
    requires ps == [
      One(Char('+')), One(Char('1')), Optional(UsSeparator),
      Optional(Char('(')), Times(AnyDigit, 3), Optional(Char(')')), Optional(UsSeparator),
      Times(AnyDigit, 3), Optional(UsSeparator), Times(AnyDigit, 4)]
    requires chunks == ["+", "1", " ", "", "555", "", "-", "123", "-", "4567"]
    requires Concat(chunks) == s
    ensures Decomposes(ps, chunks, s)
  {
    assert PieceMatches(ps[2], chunks[2]);
    assert PieceMatches(ps[4], chunks[4]);
    assert PieceMatches(ps[6], chunks[6]);
    assert PieceMatches(ps[7], chunks[7]);
    assert PieceMatches(ps[8], chunks[8]);
    assert PieceMatches(ps[9], chunks[9]);
  }

  lemma UsInternationalIsPhone()
    ensures DetectInputType("+1 555-123-4567") == Phone
  {
    var chunks := ["+", "1", " ", "", "555", "", "-", "123", "-", "4567"];
    UsInternationalChunks();
    UsInternationalPattern();
    UsInternationalDecompose(PhonePatterns[3], chunks, "+1 555-123-4567");
    PhoneByAlternative(3, chunks, "+1 555-123-4567");
  }

  lemma TaiwanMobileIsPhone()
    ensures DetectInputType("0912345678") == Phone
  {
    MatchOfChunks(TwTrunkPrefix + TwMobile, ["0", "9", "12345678"], "0912345678");
    assert PhonePatterns[6] == TwTrunkPrefix + TwMobile;
  }

  lemma TaiwanInternationalText()
    ensures "+" + "8" + "8" + "6" + " " == "+886 "
    ensures "9" + "12345678" == "912345678"
    ensures "+886 " + "912345678" == "+886 912345678"
  {
  }

  lemma TaiwanInternationalChunks()
    ensures Concat(["+", "8", "8", "6", " ", "9", "12345678"]) == "+886 912345678"
  {
    var c := ["+", "8", "8", "6", " ", "9", "12345678"];
    ConcatSplit(c, 5);
    ConcatFive(c[..5]);
    ConcatTwo(c[5..]);
    TaiwanInternationalText();
  }

  lemma TaiwanInternationalPattern()
    ensures PhonePatterns[4] == [
      One(Char('+')), One(Char('8')), One(Char('8')), One(Char('6')), Optional(SpaceOr("-")),
      One(Char('9')), Times(AnyDigit, 8)]
  {
    assert Literal("+886") == [One(Char('+')), One(Char('8')), One(Char('8')), One(Char('6'))];
  }

  lemma TaiwanInternationalDecompose(ps: seq<Piece>, chunks: seq<string>, s: string)
    requires ps == [
      One(Char('+')), One(Char('8')), One(Char('8')), One(Char('6')), Optional(SpaceOr("-")),
      One(Char('9')), Times(AnyDigit, 8)]
    requires chunks == ["+", "8", "8", "6", " ", "9", "12345678"]
    requires Concat(chunks) == s
    ensures Decomposes(ps, chunks, s)
  {
    assert PieceMatches(ps[4], chunks[4]);
    assert PieceMatches(ps[6], chunks[6]);
  }

  lemma TaiwanInternationalIsPhone()
    ensures DetectInputType("+886 912345678") == Phone
  {
    var chunks := ["+", "8", "8", "6", " ", "9", "12345678"];
    TaiwanInternationalChunks();
    TaiwanInternationalPattern();
    TaiwanInternationalDecompose(PhonePatterns[4], chunks, "+886 912345678");
    PhoneByAlternative(4, chunks, "+886 912345678");
  }

  lemma EmailChunks()
    ensures Concat(["user", "@", "example", ".", "com"]) == "user@example.com"
  {
    ConcatFive(["user", "@", "example", ".", "com"]);
    assert "user" + "@" + "example" + "." + "com" == "user@example.com";
  }

  lemma EmailDecompose(chunks: seq<string>, s: string)
    requires chunks == ["user", "@", "example", ".", "com"]
    requires Concat(chunks) == s
    ensures Decomposes(EmailPattern, chunks, s)
  {
    assert PieceMatches(EmailPattern[0], chunks[0]);
    assert PieceMatches(EmailPattern[2], chunks[2]);
    assert PieceMatches(EmailPattern[4], chunks[4]);
  }

  lemma EmailExample()
    ensures DetectInputType("user@example.com") == Email
  {
    var chunks := ["user", "@", "example", ".", "com"];
    EmailChunks();
    EmailDecompose(chunks, "user@example.com");
    MatchOfChunks(EmailPattern, chunks, "user@example.com");
  }

  lemma UsernameExamples()
    ensures DetectInputType("") == Username
    ensures DetectInputType("alice") == Username
  {
    ShortInputIsUsername("");
    assert '@' !in "alice";
    ShortPlainIsUsername("alice");
  }

  lemma ShortPlainIsUsername(s: string)
    requires |s| < 7 && '@' !in s
    ensures DetectInputType(s) == Username
  {
    ShortInputIsNeverPhone(s);
    if IsEmail(s) {
      EmailContainsAt(s);
    }
  }
}
