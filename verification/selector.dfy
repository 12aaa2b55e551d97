/** The clock-face menu of src/components/FloatingCollapseSelector.tsx: a
    floating button that opens a list of face options on mobile and tablet
    (always shown on desktop), with staggered animation delays. The
    animation timer of src/hooks/useAnimationTimer.ts is reduced to its
    flag: starting it raises `animating`, and its expiry is the separate
    transition AnimationEnded. */
module Selector {
  import opened Theme

  /** One entry of `CLOCK_FACE_OPTIONS` in src/config/clocksConfig.ts. */
  datatype FaceOption = FaceOption(face: ClockFace, emoji: string)

  const FaceOptions: seq<FaceOption> := [
    FaceOption(Minimalist, "\U{1F551}"),
    FaceOption(Classic, "\U{1F522}"),
    FaceOption(LuxuryFace, "\U{1F570}\U{FE0F}")
  ]

  function OptionLabel(o: FaceOption): string {
    FaceLabel(o.face)
  }

  /** Every face is offered exactly once, in the configured order. */
  lemma OptionsListEveryFaceOnce(face: ClockFace)
    ensures exists i :: 0 <= i < |FaceOptions| && FaceOptions[i].face == face
    ensures forall i, j :: 0 <= i < j < |FaceOptions| ==> OptionLabel(FaceOptions[i]) != OptionLabel(FaceOptions[j])
  {
    match face
    case Minimalist => assert FaceOptions[0].face == face;
    case Classic => assert FaceOptions[1].face == face;
    case LuxuryFace => assert FaceOptions[2].face == face;
  }

  /** The component's own state: `open` and the animation flag. */
  datatype MenuState = MenuState(open: bool, animating: bool)

  const InitialMenu := MenuState(false, false)

  /** `toggleOpen`: nothing on desktop; otherwise flip `open` and start the
      animation. */
  function ToggleOpen(s: MenuState, isDesktop: bool): (r: MenuState)
    ensures isDesktop ==> r == s
    ensures !isDesktop ==> r.open == !s.open && r.animating
  {
    if isDesktop then s else MenuState(!s.open, true)
  }

  /** `closeMenu`: nothing on desktop; otherwise close and start the
      animation. */
  function CloseMenu(s: MenuState, isDesktop: bool): (r: MenuState)
    ensures isDesktop ==> r == s
    ensures !isDesktop ==> !r.open && r.animating
  {
    if isDesktop then s else MenuState(false, true)
  }

  /** The timer's expiry: the animation flag drops, `open` stays. */
  function AnimationEnded(s: MenuState): (r: MenuState)
    ensures r.open == s.open && !r.animating
  {
    s.(animating := false)
  }

  /** The options are rendered on desktop, while open, and while an
      animation runs. */
  predicate OptionsVisible(s: MenuState, isDesktop: bool) {
    isDesktop || s.open || s.animating
  }

  /** Toggling twice on a small screen restores `open`. */
  lemma ToggleTwiceRestoresOpen(s: MenuState, isDesktop: bool)
    ensures ToggleOpen(ToggleOpen(s, isDesktop), isDesktop).open == s.open
  {
  }

  /** Closing keeps the options on screen until the animation ends, and
      then hides them on a small screen. */
  lemma ClosingFadesOut(s: MenuState, isDesktop: bool)
    ensures OptionsVisible(CloseMenu(s, isDesktop), isDesktop)
    ensures OptionsVisible(AnimationEnded(CloseMenu(s, isDesktop)), isDesktop) <==> isDesktop
  {
  }

  /** Stagger delay, in milliseconds, of option `index` of `n`: upward
      when opening, mirrored when closing. */
  function Delay(open: bool, n: nat, index: nat): (ms: nat)
    requires index < n
    ensures ms <= (n - 1) * 100
    ensures ms % 100 == 0
    ensures open ==> ms == index * 100
  {
    if open then index * 100 else (n - 1 - index) * 100
  }

  /** The closing delay mirrors the opening one: together they always make
      the full stagger, so the last option to open is the first to close. */
  lemma DelaysMirror(n: nat, index: nat)
    requires index < n
    ensures Delay(true, n, index) + Delay(false, n, index) == (n - 1) * 100
    ensures Delay(false, n, index) == Delay(true, n, n - 1 - index)
  {
  }

  /** An option is highlighted when its label is the current face. */
  predicate IsActive(theme: ThemeState, o: FaceOption) {
    FaceLabel(theme.clockFace) == OptionLabel(o)
  }

  /** Exactly one option is highlighted, the one for the current face. */
  lemma ExactlyOneActive(theme: ThemeState, i: nat, j: nat)
    requires i < |FaceOptions| && j < |FaceOptions|
    ensures IsActive(theme, FaceOptions[i]) <==> theme.clockFace == FaceOptions[i].face
    ensures IsActive(theme, FaceOptions[i]) && IsActive(theme, FaceOptions[j]) ==> i == j
  {
    FaceLabelInjective(theme.clockFace, FaceOptions[i].face);
    FaceLabelInjective(theme.clockFace, FaceOptions[j].face);
    OptionsListEveryFaceOnce(theme.clockFace);
  }

  /** The theme mode an option selects: luxury for the luxury face, light
      for every other. */
  function ModeFor(optionLabel: string): (mode: ThemeMode)
    ensures mode == Luxury <==> optionLabel == "luxury"
    ensures mode == Light <==> optionLabel != "luxury"
  {
    if optionLabel == "luxury" then Luxury else Light
  }

  /** `handleOptionClick`: set the mode from the option's label, set the face, and
      close the menu. */
  function HandleOptionClick(theme: ThemeState, menu: MenuState, isDesktop: bool, o: FaceOption): (r: (ThemeState, MenuState))
    ensures r.0.clockFace == o.face
    ensures r.0.mode == Luxury <==> o.face == LuxuryFace
    ensures r.0.mode == Light <==> o.face != LuxuryFace
    ensures r.1 == CloseMenu(menu, isDesktop)
  {
    FaceLabelInjective(o.face, LuxuryFace);
    (SetClockFace(SetMode(theme, ModeFor(OptionLabel(o))), o.face), CloseMenu(menu, isDesktop))
  }

  /** After a click, the clicked option is the one highlighted. */
  lemma ClickedOptionActive(theme: ThemeState, menu: MenuState, isDesktop: bool, i: nat, j: nat)
    requires i < |FaceOptions| && j < |FaceOptions|
    ensures IsActive(HandleOptionClick(theme, menu, isDesktop, FaceOptions[i]).0, FaceOptions[j]) <==> i == j
  {
    var t := HandleOptionClick(theme, menu, isDesktop, FaceOptions[i]).0;
    ExactlyOneActive(t, i, j);
  }

  /** Picking a face decides the theme completely: the earlier mode and
      face do not matter. */
  lemma ClickForgetsTheme(a: ThemeState, b: ThemeState, menu: MenuState, isDesktop: bool, o: FaceOption)
    ensures HandleOptionClick(a, menu, isDesktop, o).0 == HandleOptionClick(b, menu, isDesktop, o).0
  {
  }
}
