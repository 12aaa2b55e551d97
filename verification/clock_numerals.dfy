/** The numeral ring of src/components/clock/ClockNumerals.tsx: four Roman
    numerals in luxury mode, twelve Arabic ones otherwise, spaced evenly
    from the top of the dial. */
module ClockNumerals {
  import opened Decimal
  import opened Theme
  import ClockTicks

  const RomanNumerals: seq<string> := ["I", "II", "III", "IV", "V", "VI", "VII", "VIII", "IX", "X", "XI", "XII"]

  function NumeralCount(mode: ThemeMode): (count: nat)
    ensures count == 4 || count == 12
    ensures count == 4 <==> mode == Luxury
  {
    if mode == Luxury then 4 else 12
  }

  /** Degrees between neighbouring numerals. */
  function Step(mode: ThemeMode): (step: nat)
    ensures step * NumeralCount(mode) == 360
  {
    360 / NumeralCount(mode)
  }

  /** The angle of numeral i; 270 degrees is the top of the dial. */
  function Deg(mode: ThemeMode, i: nat): (deg: nat)
    ensures deg < 360
  {
    (i * Step(mode) + 270) % 360
  }

  /** The hour a numeral stands for; the `|| 12` turns 0 into 12. */
  function HourOf(mode: ThemeMode, i: nat): (num: nat)
    ensures 1 <= num <= 12
  {
    var n := (i * (12 / NumeralCount(mode))) % 12;
    if n == 0 then 12 else n
  }

  /** The rendered text: the Roman numeral for the hour in luxury mode,
      otherwise 12 for the first numeral and the index for the others. */
  function Label(mode: ThemeMode, i: nat): (text: string)
    ensures mode == Luxury ==> text in RomanNumerals
    ensures mode != Luxury && i < 12 ==> text == ShowNat(HourOf(mode, i))
  {
    if mode == Luxury then RomanNumerals[HourOf(mode, i) - 1]
    else
      ArabicHour(mode, i);
      if i == 0 then ShowNat(12) else ShowNat(i)
  }

  /** Outside luxury mode the first twelve numerals stand for 12, then 1
      to 11. */
  lemma ArabicHour(mode: ThemeMode, i: nat)
    requires mode != Luxury
    ensures i < 12 ==> HourOf(mode, i) == if i == 0 then 12 else i
  {
    assert NumeralCount(mode) == 12 && 12 / NumeralCount(mode) == 1;
    assert i * (12 / NumeralCount(mode)) == i;
  }

  datatype Numeral = Numeral(deg: nat, text: string)

  function Numerals(mode: ThemeMode): (ns: seq<Numeral>)
    ensures |ns| == NumeralCount(mode)
    ensures forall i :: 0 <= i < |ns| ==> ns[i] == Numeral(Deg(mode, i), Label(mode, i))
  {
    seq(NumeralCount(mode), i requires 0 <= i => Numeral(Deg(mode, i), Label(mode, i)))
  }

  /** The first numeral sits at the top of the dial and stands for 12. */
  lemma FirstAtTop(mode: ThemeMode)
    ensures Deg(mode, 0) == 270 && HourOf(mode, 0) == 12
  {
  }

  /** No two numerals share an angle. */
  lemma AnglesDistinct(mode: ThemeMode, i: nat, j: nat)
    requires i < j < NumeralCount(mode)
    ensures Deg(mode, i) != Deg(mode, j)
  {
    var step := Step(mode);
    assert 0 < (j - i) * step < 360 by {
      assert j - i < NumeralCount(mode);
      if mode == Luxury {
        assert step == 90;
      } else {
        assert step == 30;
      }
    }
    assert (j - i) * step == j * step - i * step;
    DistinctRemainders(i * step + 270, j * step + 270);
  }

  /** Two numbers less than 360 apart have different remainders modulo 360. */
  lemma DistinctRemainders(a: nat, b: nat)
    requires a < b < a + 360
    ensures a % 360 != b % 360
  {
    var qa, qb := a / 360, b / 360;
    assert a == qa * 360 + a % 360 && b == qb * 360 + b % 360;
    assert b - a == (qb - qa) * 360 + (b % 360 - a % 360);
  }

  /** The luxury hours are 12, 3, 6 and 9, clockwise from the top. */
  lemma LuxuryHours()
    ensures HourOf(Luxury, 0) == 12 && HourOf(Luxury, 1) == 3
    ensures HourOf(Luxury, 2) == 6 && HourOf(Luxury, 3) == 9
  {
  }

  /** Luxury mode shows XII, III, VI and IX, clockwise from the top. */
  lemma LuxuryLabels()
    ensures Numerals(Luxury) == [Numeral(270, "XII"), Numeral(0, "III"), Numeral(90, "VI"), Numeral(180, "IX")]
  {
    var ns := Numerals(Luxury);
    assert |ns| == 4;
    assert ns[0] == Numeral(270, "XII") by {
      LuxuryHours();
      LuxuryDegrees();
      RomanInRange(0);
    }
    assert ns[1] == Numeral(0, "III") by {
      LuxuryHours();
      LuxuryDegrees();
      RomanInRange(1);
    }
    assert ns[2] == Numeral(90, "VI") by {
      LuxuryHours();
      LuxuryDegrees();
      RomanInRange(2);
    }
    assert ns[3] == Numeral(180, "IX") by {
      LuxuryHours();
      LuxuryDegrees();
      RomanInRange(3);
    }
  }

  /** The luxury numerals sit at 270, 0, 90 and 180 degrees. */
  lemma LuxuryDegrees()
    ensures Deg(Luxury, 0) == 270 && Deg(Luxury, 1) == 0
    ensures Deg(Luxury, 2) == 90 && Deg(Luxury, 3) == 180
  {
    assert Step(Luxury) == 90;
  }

  /** In the other modes numeral i reads as the decimal rendering of its
      hour: 12 first, then 1 to 11. */
  lemma ArabicLabels(mode: ThemeMode, i: nat)
    requires mode != Luxury && i < 12
    ensures Label(mode, i) == ShowNat(HourOf(mode, i))
    ensures HourOf(mode, i) == if i == 0 then 12 else i
  {
  }

  /** The Roman table is indexed in range for every numeral, and each
      luxury numeral shows the Roman form of its hour. */
  lemma RomanInRange(i: nat)
    ensures 0 <= HourOf(Luxury, i) - 1 < |RomanNumerals|
    ensures Label(Luxury, i) == RomanNumerals[HourOf(Luxury, i) - 1]
  {
  }

  /** Each numeral stands on the tick of its hour, turned a quarter so that
      the first one is at the top: numeral i sits on tick 12/count * i. */
  lemma NumeralOnItsTick(mode: ThemeMode, i: nat)
    requires i < NumeralCount(mode)
    ensures Deg(mode, i) == (ClockTicks.TickAngle((12 / NumeralCount(mode)) * i) + 270) % 360
    ensures HourOf(mode, i) % 12 == ((12 / NumeralCount(mode)) * i) % 12
  {
    if mode == Luxury {
      assert ClockTicks.TickAngle(3 * i) == 90 * i;
    } else {
      assert ClockTicks.TickAngle(i) == 30 * i;
    }
  }
}
