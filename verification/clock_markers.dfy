/** The sixty minute markers of src/components/clock/ClockMarkers.tsx. */
module ClockMarkers {
  import opened Decimal
  import ClockTicks

  const MarkerCount: nat := 60
  const MarkerGlyph: string := "|"

  /** Where marker i sits along the circumference, as a percentage; an
      exact rational here, a binary float in the source. */
  function Percentage(i: nat): real {
    (i as real) * (100.0 / (MarkerCount as real))
  }

  /** Every fifth marker marks an hour. */
  predicate IsHourMark(i: nat) {
    i % 5 == 0
  }

  function MarkerKey(i: nat): string {
    "marker-" + ShowNat(i)
  }

  datatype Marker = Marker(key: string, percentage: real, hourMark: bool, glyph: string)

  function Markers(): (ms: seq<Marker>)
    ensures |ms| == MarkerCount
    ensures forall i :: 0 <= i < |ms| ==> ms[i] == Marker(MarkerKey(i), Percentage(i), IsHourMark(i), MarkerGlyph)
  {
    seq(MarkerCount, i requires 0 <= i => Marker(MarkerKey(i), Percentage(i), IsHourMark(i), MarkerGlyph))
  }

  /** The markers start at 0% and stay below 100%, so none overlaps the
      first one. */
  lemma PercentageInRange(i: nat)
    requires i < MarkerCount
    ensures 0.0 <= Percentage(i) < 100.0
    ensures Percentage(i) == 0.0 <==> i == 0
  {
  }

  /** Later markers sit strictly further along the circumference. */
  lemma PercentageIncreasing(i: nat, j: nat)
    requires i < j
    ensures Percentage(i) < Percentage(j)
  {
    assert Percentage(j) - Percentage(i) == ((j - i) as real) * (100.0 / 60.0);
  }

  /** React keys are unique across the markers. */
  lemma MarkerKeysDistinct(i: nat, j: nat)
    ensures MarkerKey(i) == MarkerKey(j) <==> i == j
  {
    if MarkerKey(i) == MarkerKey(j) {
      assert ShowNat(i) == MarkerKey(i)[7..];
      assert ShowNat(j) == MarkerKey(j)[7..];
      ShowNatInjective(i, j);
    }
  }

  /** The hour markers are exactly the markers 5h for the twelve hours h. */
  lemma HourMarksAreTwelve(i: nat)
    requires i < MarkerCount
    ensures IsHourMark(i) <==> (i / 5 < ClockTicks.TickCount && i == 5 * (i / 5))
  {
  }

  /** An hour marker lies at the same place on the dial as the hour tick
      of the same hour: a percentage of the circle times 3.6 is degrees. */
  lemma HourMarkMeetsTick(i: nat)
    requires IsHourMark(i)
    ensures Percentage(i) * 3.6 == ClockTicks.TickAngle(i / 5) as real
  {
    var h := i / 5;
    assert i == 5 * h;
    assert Percentage(i) * 3.6 == (i as real) * 6.0;
    assert ClockTicks.TickAngle(h) == 30 * h;
  }

  /** How many of the markers are hour marks. */
  function HourMarkCount(ms: seq<Marker>): (n: nat)
    ensures n <= |ms|
  {
    if |ms| == 0 then 0
    else HourMarkCount(ms[..|ms| - 1]) + (if ms[|ms| - 1].hourMark then 1 else 0)
  }

  /** Among the first k markers, one in every five is an hour mark,
      starting with marker 0. */
  lemma {:induction false} HourMarksInPrefix(k: nat)
    requires k <= MarkerCount
    ensures HourMarkCount(Markers()[..k]) == (k + 4) / 5
  {
    if k > 0 {
      var ms := Markers();
      var j := k - 1;
      assert ms[..k][..j] == ms[..j];
      assert ms[..k][j].hourMark == (j % 5 == 0);
      HourMarksInPrefix(j);
      FifthStep(j);
    }
  }

  lemma FifthStep(j: nat)
    ensures (j + 5) / 5 == (j + 4) / 5 + (if j % 5 == 0 then 1 else 0)
  {
  }

  /** Exactly twelve of the sixty markers are hour marks, and the first
      marker is one of them. */
  lemma TwelveHourMarks()
    ensures HourMarkCount(Markers()) == 12
    ensures Markers()[0].hourMark
  {
    HourMarksInPrefix(MarkerCount);
    assert Markers()[..MarkerCount] == Markers();
  }
}
