/** The string part of `getTimeInZone` in src/utils.ts: the zone-local time
    that Intl formats (for instance "14:23:45") is split on `:` and each of
    the first three pieces is read with `parseInt(piece, 10)`. The formatting
    itself is an input. */
module ZoneTime {
  import opened Wrappers
  import opened Decimal
  import opened Text
  import opened JsNumber

  /** `{ hour, mins, secs }`; None is `undefined`, when the formatted text
      has fewer pieces than the destructuring asks for. */
  datatype TimeParts = TimeParts(hour: Option<Num>, mins: Option<Num>, secs: Option<Num>)

  function PieceAt(pieces: seq<string>, i: nat): Option<Num> {
    if i < |pieces| then Some(ParseInt(pieces[i])) else None
  }

  function TimeInZone(formatted: string): (t: TimeParts)
    ensures t.hour.Some?
    ensures t.mins.Some? <==> ':' in formatted
    ensures t.secs.Some? <==> Count(formatted, ':') >= 2
  {
    CountZero(formatted, ':');
    var pieces := Split(formatted, ':');
    TimeParts(PieceAt(pieces, 0), PieceAt(pieces, 1), PieceAt(pieces, 2))
  }

  /** Three digit groups joined by colons read back as their three values. */
  lemma TimeInZoneReadsDigits(h: string, m: string, s: string)
    requires |h| > 0 && |m| > 0 && |s| > 0
    requires AllDigits(h) && AllDigits(m) && AllDigits(s)
    ensures TimeInZone(h + ":" + m + ":" + s)
      == TimeParts(Some(Int(DigitsValue(h))), Some(Int(DigitsValue(m))), Some(Int(DigitsValue(s))))
  {
    SplitTime(h, m, s);
    DigitsRead(h);
    DigitsRead(m);
    DigitsRead(s);
  }

  lemma DigitsRead(d: string)
    requires |d| > 0 && AllDigits(d)
    ensures ParseInt(d) == Int(DigitsValue(d))
  {
    ParseIntOfDigits(d, "");
    assert d + "" == d;
  }

  lemma SplitTime(h: string, m: string, s: string)
    requires AllDigits(h) && AllDigits(m) && AllDigits(s)
    ensures Split(h + ":" + m + ":" + s, ':') == [h, m, s]
  {
    var parts := [h, m, s];
    NoColonInDigits(h);
    NoColonInDigits(m);
    NoColonInDigits(s);
    assert parts[1..] == [m, s] && parts[1..][1..] == [s];
    assert Join([s], ":") == s;
    assert Join([m, s], ":") == m + ":" + s;
    assert Join(parts, ":") == h + ":" + (m + ":" + s);
    assert h + ":" + (m + ":" + s) == h + ":" + m + ":" + s;
    JoinThenSplit(parts, ':');
  }

  lemma NoColonInDigits(d: string)
    requires AllDigits(d)
    ensures ':' !in d
  {
  }

  /** Reading a zero-padded `HH:MM:SS` rendering gives the clock values back. */
  lemma TimeInZoneRoundTrip(hour: nat, mins: nat, secs: nat)
    requires hour < 100 && mins < 100 && secs < 100
    ensures TimeInZone(Pad2(hour) + ":" + Pad2(mins) + ":" + Pad2(secs))
      == TimeParts(Some(Int(hour)), Some(Int(mins)), Some(Int(secs)))
  {
    TimeInZoneReadsDigits(Pad2(hour), Pad2(mins), Pad2(secs));
  }
}

/** `getErrorMessage` in src/utils.ts: the message of an Error, a thrown
    string itself, and a fixed text for anything else. */
module ErrorMessage {

  /** What a `catch` clause can receive, as far as the function tells apart. */
  datatype Thrown = ErrorObject(message: string) | StringValue(text: string) | OtherValue

  const UnknownError: string := "An unknown error occurred"

  function GetErrorMessage(error: Thrown): (msg: string)
    ensures error.ErrorObject? ==> msg == error.message
    ensures error.StringValue? ==> msg == error.text
    ensures error.OtherValue? ==> msg == UnknownError
  {
    match error
    case ErrorObject(message) => message
    case StringValue(text) => text
    case OtherValue => UnknownError
  }

  /** Throwing the extracted message again as a string extracts the same
      message: the login thunk's rejection payload is a fixed point. */
  lemma MessageIsFixedPoint(error: Thrown)
    ensures GetErrorMessage(StringValue(GetErrorMessage(error))) == GetErrorMessage(error)
  {
  }

  /** The text shown is never blank unless the thrown value itself carried
      a blank message: the fallback text is not empty. */
  lemma BlankOnlyWhenCarried(error: Thrown)
    ensures GetErrorMessage(error) == "" <==>
      (error.ErrorObject? && error.message == "") || (error.StringValue? && error.text == "")
  {
  }
}
