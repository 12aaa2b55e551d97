/** The per-zone date slice of src/redux/dateReducer.ts: a map from IANA
    zone name to that zone's `YYYY-MM-DD` date. Formatting a timestamp in
    a zone (`toLocaleDateString('en-CA', { timeZone })`) is a parameter. */
module ZoneDate {
  type ZoneDates = map<string, string>

  const InitialZoneDates: ZoneDates := map[]

  /** `setFormattedDate({ tz, date })`. */
  function SetFormattedDate(state: ZoneDates, tz: string, date: string): (r: ZoneDates)
    ensures tz in r && r[tz] == date
    ensures r.Keys == state.Keys + {tz}
    ensures forall z :: z in state && z != tz ==> r[z] == state[z]
  {
    state[tz := date]
  }

  /** A later date for the same zone replaces the earlier one. */
  lemma LaterSetWins(state: ZoneDates, tz: string, first: string, second: string)
    ensures SetFormattedDate(SetFormattedDate(state, tz, first), tz, second) == SetFormattedDate(state, tz, second)
  {
  }

  /** Repeating a set changes nothing. */
  lemma SetIdempotent(state: ZoneDates, tz: string, date: string)
    ensures SetFormattedDate(SetFormattedDate(state, tz, date), tz, date) == SetFormattedDate(state, tz, date)
  {
  }

  /** Sets for different zones do not interfere. */
  lemma SetsCommute(state: ZoneDates, tz1: string, d1: string, tz2: string, d2: string)
    requires tz1 != tz2
    ensures SetFormattedDate(SetFormattedDate(state, tz1, d1), tz2, d2)
      == SetFormattedDate(SetFormattedDate(state, tz2, d2), tz1, d1)
  {
  }

  /** The dispatch loop of `initializeZoneDateScheduling`: one
      `setFormattedDate` per zone, in list order, with the zone's date at
      the single instant `now`. */
  method InitializeZoneDates(state: ZoneDates, timeZones: seq<string>, now: int, format: (int, string) -> string)
    returns (r: ZoneDates)
    ensures forall tz :: tz in timeZones ==> tz in r && r[tz] == format(now, tz)
    ensures r.Keys == state.Keys + set tz | tz in timeZones
    ensures forall z :: z in state && z !in timeZones ==> r[z] == state[z]
  {
    r := state;
    var i := 0;
    while i < |timeZones|
      invariant 0 <= i <= |timeZones|
      invariant forall j :: 0 <= j < i ==> timeZones[j] in r && r[timeZones[j]] == format(now, timeZones[j])
      invariant r.Keys == state.Keys + set j | 0 <= j < i :: timeZones[j]
      invariant forall z :: z in state && z !in timeZones[..i] ==> r[z] == state[z]
    {
      r := SetFormattedDate(r, timeZones[i], format(now, timeZones[i]));
      i := i + 1;
    }
    assert timeZones[..i] == timeZones;
    assert (set j | 0 <= j < i :: timeZones[j]) == set tz | tz in timeZones;
  }
}
