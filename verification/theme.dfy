/** The theme slice of src/redux/themeReducer.ts. */
module Theme {
  datatype ThemeMode = Light | Dark | Luxury

  /** The clock faces; `LuxuryFace` is the face labelled `luxury`. */
  datatype ClockFace = Minimalist | Classic | LuxuryFace

  datatype ThemeState = ThemeState(mode: ThemeMode, clockFace: ClockFace)

  function ModeLabel(mode: ThemeMode): string {
    match mode
    case Light => "light"
    case Dark => "dark"
    case Luxury => "luxury"
  }

  function FaceLabel(face: ClockFace): string {
    match face
    case Minimalist => "minimalist"
    case Classic => "classic"
    case LuxuryFace => "luxury"
  }

  /** The labels name the faces one to one. */
  lemma FaceLabelInjective(a: ClockFace, b: ClockFace)
    ensures FaceLabel(a) == FaceLabel(b) <==> a == b
  {
    if a != b {
      assert FaceLabel(a)[0] != FaceLabel(b)[0];
    }
  }

  const InitialTheme := ThemeState(Light, Minimalist)

  /** The app starts light with the minimalist face, so the first toggle
      turns it dark and keeps the face. */
  lemma FirstToggleFromInitial()
    ensures InitialTheme.mode == Light && InitialTheme.clockFace == Minimalist
    ensures ToggleMode(InitialTheme) == ThemeState(Dark, Minimalist)
  {
  }

  /** `toggleMode`: light becomes dark, and every other mode becomes light. */
  function ToggleMode(s: ThemeState): (r: ThemeState)
    ensures r.clockFace == s.clockFace
    ensures r.mode == Dark <==> s.mode == Light
    ensures r.mode == Light <==> s.mode != Light
  {
    s.(mode := if s.mode == Light then Dark else Light)
  }

  /** Between light and dark, toggling twice is the identity. */
  lemma ToggleTwice(s: ThemeState)
    requires s.mode != Luxury
    ensures ToggleMode(ToggleMode(s)) == s
  {
  }

  /** From luxury, toggling twice ends in dark, not back in luxury. */
  lemma ToggleTwiceFromLuxury(s: ThemeState)
    requires s.mode == Luxury
    ensures ToggleMode(ToggleMode(s)) == s.(mode := Dark)
  {
  }

  /** `setMode`. */
  function SetMode(s: ThemeState, mode: ThemeMode): (r: ThemeState)
    ensures r.mode == mode && r.clockFace == s.clockFace
  {
    s.(mode := mode)
  }

  /** `setClcokFace` (so spelled in the source). */
  function SetClockFace(s: ThemeState, face: ClockFace): (r: ThemeState)
    ensures r.clockFace == face && r.mode == s.mode
  {
    s.(clockFace := face)
  }

  /** Mode and face are independent: their setters commute. */
  lemma SettersCommute(s: ThemeState, mode: ThemeMode, face: ClockFace)
    ensures SetClockFace(SetMode(s, mode), face) == SetMode(SetClockFace(s, face), mode)
    ensures SetClockFace(SetMode(s, mode), face) == ThemeState(mode, face)
  {
  }
}
