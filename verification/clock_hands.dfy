/** The hand-delay arithmetic of src/components/clock/ClockHands.tsx.
    Each hand is a CSS animation running one turn per period (60 s,
    3600 s and 43200 s, src/styles/clocksPageStyles.ts); a negative delay
    of d seconds starts it d seconds into its turn, so the hands show the
    current time. */
module ClockHands {
  import opened Theme
  import opened ClockState

  const SecondPeriod: int := 60
  const MinutePeriod: int := 3600
  const HourPeriod: int := 43200

  /** JavaScript's `%`: the remainder takes the sign of the dividend. */
  function JsRem(a: int, b: int): (r: int)
    requires b > 0
    ensures a >= 0 ==> 0 <= r < b && r == a % b
    ensures a < 0 ==> -b < r <= 0 && r == -((-a) % b)
  {
    if a >= 0 then a % b else -((-a) % b)
  }

  /** The three custom properties, in seconds: `--_ds`, `--_dm` and
      `--_dh` (the hour hand adds the minute delay to its own). */
  datatype HandDelays = HandDelays(second: int, minute: int, hour: int)

  function Delays(hour: int, mins: int, secs: int): (d: HandDelays)
    ensures d.second == -secs
    ensures d.minute == -60 * mins
    ensures d.hour == -3600 * JsRem(hour, 12) - 60 * mins
  {
    var secsDelay := -secs;
    var minsDelay := -60 * mins;
    var hourDelay := -3600 * JsRem(hour, 12);
    HandDelays(secsDelay, minsDelay, hourDelay + minsDelay)
  }

  /** A clock reading as `Intl` gives it with `hour12: false` (some
      engines write midnight as 24). */
  predicate ClockReading(hour: int, mins: int, secs: int) {
    0 <= hour <= 24 && 0 <= mins < 60 && 0 <= secs < 60
  }

  /** Every delay lies within one turn of its hand: the second delay in
      [-59, 0], the minute delay a multiple of 60 in [-3540, 0], the hour
      delay in [-43140, 0]. */
  lemma DelaysWithinOneTurn(hour: int, mins: int, secs: int)
    requires ClockReading(hour, mins, secs)
    ensures var d := Delays(hour, mins, secs);
      -59 <= d.second <= 0 && -d.second < SecondPeriod &&
      -3540 <= d.minute <= 0 && d.minute % 60 == 0 && -d.minute < MinutePeriod &&
      -43140 <= d.hour <= 0 && -d.hour < HourPeriod
  {
  }

  /** The hour hand has a twelve-hour dial: h and h + 12 show alike, and
      0, 12 and 24 all point straight up. */
  lemma TwelveHourDial(hour: int, mins: int, secs: int)
    requires 0 <= hour
    ensures Delays(hour + 12, mins, secs) == Delays(hour, mins, secs)
    ensures Delays(0, mins, secs) == Delays(12, mins, secs) == Delays(24, mins, secs)
  {
  }

  /** The hour delay determines the reading on the dial: the hour modulo
      12 and the minute can be read back from it. */
  lemma HourDelayDecodes(hour: int, mins: int, secs: int)
    requires ClockReading(hour, mins, secs)
    ensures var offset := -Delays(hour, mins, secs).hour;
      offset / 3600 == hour % 12 && offset % 3600 / 60 == mins
  {
    var offset := -Delays(hour, mins, secs).hour;
    assert offset == 3600 * (hour % 12) + 60 * mins;
    assert 0 <= 60 * mins < 3600;
    HourSplit(hour % 12, 60 * mins);
  }

  lemma HourSplit(q: int, r: int)
    requires 0 <= r < 3600
    ensures (3600 * q + r) / 3600 == q && (3600 * q + r) % 3600 == r
  {
  }

  /** `getTimeInZone` is asked for the zone of the city's slot, or for
      the empty zone when the slot holds no configuration. */
  function CityZone(clock: ClockRecord, city: string): (tz: string)
    ensures Get(clock, city).Zone? ==> tz == Get(clock, city).config.timeZone
    ensures !Get(clock, city).Zone? ==> tz == ""
  {
    match Get(clock, city)
    case Zone(config) => config.timeZone
    case _ => ""
  }

  /** From the initial state the two cities read their configured zones. */
  lemma InitialCityZones(now: int)
    ensures CityZone(InitialClock(now), "tpe") == "Asia/Taipei"
    ensures CityZone(InitialClock(now), "lv") == "America/Los_Angeles"
  {
  }

  /** The date-day child is rendered in luxury mode only. */
  function ShowsDateDay(mode: ThemeMode): (shown: bool)
    ensures shown <==> ModeLabel(mode) == "luxury"
  {
    assert ModeLabel(Light) != "luxury" && ModeLabel(Dark) != "luxury";
    mode == Luxury
  }
}
