/** The breakpoint and device-type ladders of src/rwd/useBreakpoint.ts and
    src/rwd/useDeviceType.ts. A hook's match result for a `(min-width: Npx)`
    query is its input; for a viewport `width` it is `width >= N`. */
module Viewport {
  import opened Breakpoints

  /** `matchMedia(mediaQueries[At(k)]).matches` for a viewport width. */
  predicate MatchesAt(k: BreakpointKey, width: int) {
    width >= QueryThreshold(k)
  }

  /** `useBreakpoint` given the four match results it consults; the `xs`
      query is never asked. */
  function SelectBreakpoint(isXl: bool, isLg: bool, isMd: bool, isSm: bool): (k: BreakpointKey)
    ensures k == Xl <==> isXl
    ensures k == Lg <==> !isXl && isLg
    ensures k == Md <==> !isXl && !isLg && isMd
    ensures k == Sm <==> !isXl && !isLg && !isMd && isSm
    ensures k == Xs <==> !isXl && !isLg && !isMd && !isSm
  {
    if isXl then Xl
    else if isLg then Lg
    else if isMd then Md
    else if isSm then Sm
    else Xs
  }

  /** The active breakpoint of a viewport width. */
  function BreakpointAt(width: int): BreakpointKey {
    SelectBreakpoint(MatchesAt(Xl, width), MatchesAt(Lg, width), MatchesAt(Md, width), MatchesAt(Sm, width))
  }

  /** The active breakpoint is the largest key whose threshold the width
      reaches; widths below `sm` (negative ones included) give `xs`. */
  lemma BreakpointIsLargestReached(width: int, k: BreakpointKey)
    ensures BreakpointAt(width) == k <==>
      (k == Xs || MinWidth(k) <= width) &&
      (forall j: BreakpointKey :: Rank(j) > Rank(k) ==> width < MinWidth(j))
  {
    if BreakpointAt(width) == k {
      forall j: BreakpointKey | Rank(j) > Rank(k)
        ensures width < MinWidth(j)
      {
      }
    }
    if (k == Xs || MinWidth(k) <= width) && (forall j: BreakpointKey :: Rank(j) > Rank(k) ==> width < MinWidth(j)) {
      LargestReachedIsActive(width, k);
    }
  }

  /** A key the width reaches, with no higher key reached, is the active
      breakpoint. */
  lemma LargestReachedIsActive(width: int, k: BreakpointKey)
    requires k == Xs || MinWidth(k) <= width
    requires forall j: BreakpointKey :: Rank(j) > Rank(k) ==> width < MinWidth(j)
    ensures BreakpointAt(width) == k
  {
    assert Rank(Xl) > Rank(k) ==> width < MinWidth(Xl);
    assert Rank(Lg) > Rank(k) ==> width < MinWidth(Lg);
    assert Rank(Md) > Rank(k) ==> width < MinWidth(Md);
    assert Rank(Sm) > Rank(k) ==> width < MinWidth(Sm);
  }

  /** A wider viewport never has a smaller breakpoint. */
  lemma BreakpointMonotone(narrow: int, wide: int)
    requires narrow <= wide
    ensures Rank(BreakpointAt(narrow)) <= Rank(BreakpointAt(wide))
  {
  }

  /** `xs` exactly when none of `sm`..`xl` matches, i.e. below 576px. */
  lemma XsBelowSm(width: int)
    ensures BreakpointAt(width) == Xs <==> width < MinWidth(Sm)
  {
  }

  datatype DeviceType = Mobile | Tablet | Desktop

  /** `useDeviceType` given the `md` and `lg` match results. */
  function SelectDeviceType(isTabletOrAbove: bool, isDesktop: bool): (d: DeviceType)
    ensures d == Desktop <==> isDesktop
    ensures d == Tablet <==> isTabletOrAbove && !isDesktop
    ensures d == Mobile <==> !isTabletOrAbove && !isDesktop
  {
    if isDesktop then Desktop
    else if isTabletOrAbove then Tablet
    else Mobile
  }

  function DeviceTypeAt(width: int): DeviceType {
    SelectDeviceType(MatchesAt(Md, width), MatchesAt(Lg, width))
  }

  /** Desktop from 1024px, tablet from 768px to 1023px, mobile below. */
  lemma DeviceTypeRanges(width: int)
    ensures DeviceTypeAt(width) == Desktop <==> width >= 1024
    ensures DeviceTypeAt(width) == Tablet <==> 768 <= width <= 1023
    ensures DeviceTypeAt(width) == Mobile <==> width < 768
  {
  }

  /** The device type is a coarsening of the breakpoint: `lg` and `xl` are
      desktop, `md` is tablet, `sm` and `xs` are mobile. */
  lemma DeviceTypeFollowsBreakpoint(width: int)
    ensures DeviceTypeAt(width) == Desktop <==> Rank(BreakpointAt(width)) >= Rank(Lg)
    ensures DeviceTypeAt(width) == Tablet <==> BreakpointAt(width) == Md
    ensures DeviceTypeAt(width) == Mobile <==> Rank(BreakpointAt(width)) <= Rank(Sm)
  {
  }
}
