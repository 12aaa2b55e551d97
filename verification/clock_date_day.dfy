/** The day of the month shown on a clock face, src/components/clock/ClockDateDay.tsx:
    the zone's `YYYY-MM-DD` date from the date slice, split on `-`, each
    piece read with `Number`, and the third piece shown. */
module ClockDateDay {
  import opened Wrappers
  import opened Decimal
  import opened Text
  import opened JsNumber
  import opened ZoneDate
  import CivilDate

  /** None is `undefined`: no date stored for the zone yet, or a date with
      fewer than three pieces; React renders it as nothing. */
  function DayShown(dates: ZoneDates, tz: string): (day: Option<Num>)
    ensures day.Some? <==> tz in dates && Count(dates[tz], '-') >= 2
    ensures day.Some? ==> day.value == ToNumber(Split(dates[tz], '-')[2])
  {
    if tz !in dates then None
    else
      var parts := Split(dates[tz], '-');
      if |parts| >= 3 then Some(ToNumber(parts[2])) else None
  }

  lemma NoDashInDigits(d: string)
    requires AllDigits(d)
    ensures '-' !in d
  {
  }

  lemma SplitDate(y: string, m: string, d: string)
    requires AllDigits(y) && AllDigits(m) && AllDigits(d)
    ensures Split(y + "-" + m + "-" + d, '-') == [y, m, d]
  {
    NoDashInDigits(y);
    NoDashInDigits(m);
    NoDashInDigits(d);
    var tail := m + ['-'] + d;
    SplitFree(d, '-');
    SplitAtFirst(m, d, '-');
    assert Split(tail, '-') == [m, d];
    SplitAtFirst(y, tail, '-');
    assert Split(y + ['-'] + tail, '-') == [y, m, d];
    assert y + "-" + m + "-" + d == y + ['-'] + tail;
  }

  /** A zero-padded `YYYY-MM-DD` date shows its day of the month. */
  lemma DayOfPaddedDate(dates: ZoneDates, tz: string, year: nat, month: nat, day: nat)
    requires year < 10000 && month < 100 && day < 100
    requires tz in dates && dates[tz] == Pad4(year) + "-" + Pad2(month) + "-" + Pad2(day)
    ensures DayShown(dates, tz) == Some(Int(day))
  {
    SplitDate(Pad4(year), Pad2(month), Pad2(day));
    ToNumberOfDigits(Pad2(day));
  }

  /** After the slice stores a zone's date, that zone's clock shows the
      stored day; the other zones' clocks are unaffected. */
  lemma DayAfterSet(state: ZoneDates, tz: string, other: string, year: nat, month: nat, day: nat)
    requires year < 10000 && month < 100 && day < 100
    requires other != tz
    ensures DayShown(SetFormattedDate(state, tz, Pad4(year) + "-" + Pad2(month) + "-" + Pad2(day)), tz) == Some(Int(day))
    ensures DayShown(SetFormattedDate(state, tz, Pad4(year) + "-" + Pad2(month) + "-" + Pad2(day)), other)
      == DayShown(state, other)
  {
    var date := Pad4(year) + "-" + Pad2(month) + "-" + Pad2(day);
    DayOfPaddedDate(SetFormattedDate(state, tz, date), tz, year, month, day);
  }

  /** Before the zone's date is known nothing is shown. */
  lemma NothingBeforeInit(tz: string)
    ensures DayShown(InitialZoneDates, tz) == None
  {
  }

  /** "2025-05-01" shows 1: `Number` drops the leading zero. */
  lemma FirstOfMay(dates: ZoneDates, tz: string)
    requires tz in dates && dates[tz] == "2025-05-01"
    ensures DayShown(dates, tz) == Some(Int(1))
  {
    assert Pad4(2025) + "-" + Pad2(5) + "-" + Pad2(1) == "2025-05-01" by {
      PadExamples();
    }
    DayOfPaddedDate(dates, tz, 2025, 5, 1);
  }

  lemma PadExamples()
    ensures Pad4(2025) == "2025" && Pad2(5) == "05" && Pad2(1) == "01"
  {
    Year2025();
    assert ShowNat(5) == "5" && ShowNat(1) == "1";
  }

  lemma Year2025()
    ensures Pad4(2025) == "2025"
  {
    assert 2025 / 100 == 20 && 2025 % 100 == 25;
    Pad20();
    Pad25();
    assert "20" + "25" == "2025";
  }

  lemma Pad20()
    ensures Pad2(20) == "20"
  {
    assert ShowNat(2) == "2" && ShowNat(20) == ShowNat(2) + "0";
  }

  lemma Pad25()
    ensures Pad2(25) == "25"
  {
    assert ShowNat(2) == "2" && ShowNat(25) == ShowNat(2) + "5";
  }

  /** The `YYYY-MM-DD` rendering of a calendar date, as the en-CA locale
      writes it (the ISO 8601 extended calendar date). */
  function IsoDate(d: CivilDate.Date): (text: string)
    requires CivilDate.Valid(d) && 0 <= d.year < 10000
    ensures |text| == 10 && text[4] == '-' && text[7] == '-'
  {
    Pad4(d.year) + "-" + Pad2(d.month) + "-" + Pad2(d.day)
  }

  /** The clock of a zone whose stored date is a real calendar date shows
      that date's day of the month, a number from 1 to 31. */
  lemma DayOfCalendarDate(dates: ZoneDates, tz: string, d: CivilDate.Date)
    requires CivilDate.Valid(d) && 0 <= d.year < 10000
    requires tz in dates && dates[tz] == IsoDate(d)
    ensures DayShown(dates, tz) == Some(Int(d.day))
    ensures 1 <= d.day <= 31
  {
    DayOfPaddedDate(dates, tz, d.year, d.month, d.day);
  }

  /** "2025-04-30" shows 30. */
  lemma LastOfApril(dates: ZoneDates, tz: string)
    requires tz in dates && dates[tz] == "2025-04-30"
    ensures DayShown(dates, tz) == Some(Int(30))
  {
    var d := CivilDate.Date(2025, 4, 30);
    assert IsoDate(d) == "2025-04-30" by {
      Year2025();
      assert Pad2(4) == "04" by {
        assert ShowNat(4) == "4";
      }
      assert Pad2(30) == "30" by {
        assert ShowNat(3) == "3" && ShowNat(30) == ShowNat(3) + "0";
      }
      assert "2025" + "-" + "04" + "-" + "30" == "2025-04-30";
    }
    DayOfCalendarDate(dates, tz, d);
  }
}
