/** The twelve hour ticks of src/components/clock/ClockTicks.tsx. */
module ClockTicks {
  import opened Decimal
  import opened Theme

  const TickCount: nat := 12

  /** The two palettes of src/style.ts a tick can be drawn with. */
  datatype Palette = DefaultPalette | DarkPalette

  /** Only the light mode uses the default palette; dark and luxury share
      the dark one. */
  function TickPalette(mode: ThemeMode): (p: Palette)
    ensures p == DefaultPalette <==> mode == Light
  {
    if mode == Light then DefaultPalette else DarkPalette
  }

  /** The rotation of tick i, in degrees. */
  function TickAngle(i: nat): (deg: nat)
    ensures i < TickCount ==> deg < 360
    ensures deg % 30 == 0 && deg / 30 == i
  {
    (360 / TickCount) * i
  }

  /** The CSS value of the `--_angle` custom property. */
  function AngleText(i: nat): string {
    ShowNat(TickAngle(i)) + "deg"
  }

  function Ticks(): (angles: seq<string>)
    ensures |angles| == TickCount
    ensures forall i :: 0 <= i < |angles| ==> angles[i] == AngleText(i)
  {
    seq(TickCount, i requires 0 <= i => AngleText(i))
  }

  /** Distinct ticks get distinct rotations, and so distinct CSS values. */
  lemma AngleTextInjective(i: nat, j: nat)
    ensures AngleText(i) == AngleText(j) <==> i == j
  {
    if AngleText(i) == AngleText(j) {
      var a, b := ShowNat(TickAngle(i)), ShowNat(TickAngle(j));
      assert a == AngleText(i)[..|a|];
      assert b == AngleText(j)[..|b|];
      ShowNatInjective(TickAngle(i), TickAngle(j));
    }
  }

  /** Neighbouring ticks are 30 degrees apart. */
  lemma TicksEvenlySpaced(i: nat)
    ensures TickAngle(i + 1) - TickAngle(i) == 30
  {
  }

  /** The twelve ticks cover every multiple of 30 degrees below 360. */
  lemma TicksCoverDial(deg: nat)
    requires deg < 360 && deg % 30 == 0
    ensures TickAngle(deg / 30) == deg && deg / 30 < TickCount
  {
  }
}
