/** The clock slice of src/redux/clockReducer.ts and the zone table of
    src/config/clocksConfig.ts. The state is an index signature: every
    key maps to a zone configuration or a number, and reading an absent
    key gives `undefined`. */
module ClockState {
  datatype CityClockConfig = CityClockConfig(timeZone: string, cityLabel: string)

  /** A property value: `undefined`, a number, or a zone configuration
      (the only `object` values the index signature admits). */
  datatype Slot = Undefined | Num(n: int) | Zone(config: CityClockConfig)

  type ClockRecord = map<string, Slot>

  function Get(record: ClockRecord, key: string): Slot {
    if key in record then record[key] else Undefined
  }

  const TaipeiZone := "Asia/Taipei"
  const LasVegasZone := "America/Los_Angeles"

  /** The initial state: `now` is the start-up clock reading. */
  function InitialClock(now: int): (s: ClockRecord)
    ensures s.Keys == {"now", "tpe", "lv"}
    ensures s["now"] == Num(now)
    ensures s["tpe"] == Zone(CityClockConfig(TaipeiZone, ""))
    ensures s["lv"] == Zone(CityClockConfig(LasVegasZone, ""))
  {
    map["now" := Num(now), "tpe" := Zone(CityClockConfig(TaipeiZone, "")), "lv" := Zone(CityClockConfig(LasVegasZone, ""))]
  }

  /** The guarded copy: a payload zone replaces the old value only when it
      is a non-null object. */
  function KeepUnlessZone(current: Slot, incoming: Slot): (r: Slot)
    ensures r == incoming <==> incoming.Zone? || incoming == current
    ensures incoming.Zone? || r == current
  {
    if incoming.Zone? then incoming else current
  }

  /** `updateClocks(payload)`. */
  function UpdateClocks(state: ClockRecord, payload: ClockRecord): (r: ClockRecord)
    ensures r.Keys == state.Keys + {"now", "tpe", "lv"}
    ensures r["now"] == Get(payload, "now")
    ensures r["tpe"] == (if Get(payload, "tpe").Zone? then Get(payload, "tpe") else Get(state, "tpe"))
    ensures r["lv"] == (if Get(payload, "lv").Zone? then Get(payload, "lv") else Get(state, "lv"))
    ensures forall k :: k in state && k != "now" && k != "tpe" && k != "lv" ==> r[k] == state[k]
  {
    state["now" := Get(payload, "now")]
         ["tpe" := KeepUnlessZone(Get(state, "tpe"), Get(payload, "tpe"))]
         ["lv" := KeepUnlessZone(Get(state, "lv"), Get(payload, "lv"))]
  }

  /** Both zone slots hold configurations. */
  predicate ZonesConfigured(state: ClockRecord) {
    Get(state, "tpe").Zone? && Get(state, "lv").Zone?
  }

  /** The initial state has both zones, and no update can lose them:
      a non-object payload value leaves the old configuration. */
  lemma ZonesStayConfigured(state: ClockRecord, payload: ClockRecord, now: int)
    ensures ZonesConfigured(InitialClock(now))
    ensures ZonesConfigured(state) ==> ZonesConfigured(UpdateClocks(state, payload))
  {
  }

  /** Applying the same payload twice is applying it once. */
  lemma UpdateIdempotent(state: ClockRecord, payload: ClockRecord)
    ensures UpdateClocks(UpdateClocks(state, payload), payload) == UpdateClocks(state, payload)
  {
    var once := UpdateClocks(state, payload);
    var twice := UpdateClocks(once, payload);
    assert twice.Keys == once.Keys;
    forall k | k in once
      ensures twice[k] == once[k]
    {
    }
  }

  /** An update whose payload carries a number and both zones makes the
      state carry exactly those values at the three keys. */
  lemma FullPayload(state: ClockRecord, now: int, tpe: CityClockConfig, lv: CityClockConfig)
    ensures
      var r := UpdateClocks(state, map["now" := Num(now), "tpe" := Zone(tpe), "lv" := Zone(lv)]);
      r["now"] == Num(now) && r["tpe"] == Zone(tpe) && r["lv"] == Zone(lv)
  {
  }
}
