/** The breakpoint table of src/rwd/breakpoints.ts and the query table of
    src/rwd/mediaQueries.ts. */
module Breakpoints {
  import opened Decimal

  datatype BreakpointKey = Xs | Sm | Md | Lg | Xl

  const AllKeys: seq<BreakpointKey> := [Xs, Sm, Md, Lg, Xl]

  /** The width, in px, at which each breakpoint starts. */
  function MinWidth(k: BreakpointKey): (px: nat)
    ensures k == Xs <==> px == 0
  {
    match k
    case Xs => 0
    case Sm => 576
    case Md => 768
    case Lg => 1024
    case Xl => 1280
  }

  /** Position of a key in the table, smallest first. */
  function Rank(k: BreakpointKey): (r: nat)
    ensures r < 5 && AllKeys[r] == k
  {
    match k
    case Xs => 0
    case Sm => 1
    case Md => 2
    case Lg => 3
    case Xl => 4
  }

  /** The table lists every key exactly once. */
  lemma FiveKeys(k: BreakpointKey)
    ensures |AllKeys| == 5
    ensures k in AllKeys
    ensures forall i, j :: 0 <= i < j < |AllKeys| ==> AllKeys[i] != AllKeys[j]
  {
    assert AllKeys[Rank(k)] == k;
  }

  /** Thresholds increase strictly with rank, so they order the keys. */
  lemma ThresholdsIncrease(a: BreakpointKey, b: BreakpointKey)
    ensures Rank(a) < Rank(b) <==> MinWidth(a) < MinWidth(b)
    ensures a == b <==> MinWidth(a) == MinWidth(b)
  {
  }

  /** The keys of the query table: the breakpoints and the two orientations. */
  datatype QueryKey = At(key: BreakpointKey) | Landscape | Portrait

  /** `(<feature>: <value>px)`, the shape of every width query. */
  function PxQuery(feature: string, value: string): string {
    "(" + feature + ": " + value + "px)"
  }

  function MinWidthQuery(px: int): string {
    PxQuery("min-width", ShowInt(px))
  }

  function MaxWidthQuery(px: int): string {
    PxQuery("max-width", ShowInt(px))
  }

  /** The value can be read back from a width query. */
  lemma PxQueryInjective(feature: string, a: string, b: string)
    ensures PxQuery(feature, a) == PxQuery(feature, b) <==> a == b
  {
    if PxQuery(feature, a) == PxQuery(feature, b) {
      var start := |feature| + 3;
      assert PxQuery(feature, a)[start..start + |a|] == a;
      assert PxQuery(feature, b)[start..start + |b|] == b;
    }
  }

  const LandscapeQuery := "(orientation: landscape)"
  const PortraitQuery := "(orientation: portrait)"

  /** The threshold a table query tests; for `xs` it is one below `sm`,
      not the `xs` breakpoint itself. */
  function QueryThreshold(k: BreakpointKey): (px: nat)
    ensures k != Xs ==> px == MinWidth(k)
    ensures k == Xs ==> px == MinWidth(Sm) - 1
  {
    if k == Xs then MinWidth(Sm) - 1 else MinWidth(k)
  }

  /** `mediaQueries[key]`. */
  function MediaQueryFor(q: QueryKey): string {
    match q
    case At(k) => MinWidthQuery(QueryThreshold(k))
    case Landscape => LandscapeQuery
    case Portrait => PortraitQuery
  }

  /** The `xs` query admits widths from 575px on. */
  lemma XsQuery()
    ensures MediaQueryFor(At(Xs)) == "(min-width: 575px)"
  {
    assert ShowNat(57) == "57";
    assert ShowInt(575) == "575";
    assert PxQuery("min-width", "575") == "(min-width: 575px)";
  }

  /** The thresholds of the query table ascend strictly from `xs` to `xl`. */
  lemma QueryThresholdsIncrease(a: BreakpointKey, b: BreakpointKey)
    ensures Rank(a) < Rank(b) <==> QueryThreshold(a) < QueryThreshold(b)
  {
  }

  lemma MinWidthQueryInjective(a: int, b: int)
    ensures MinWidthQuery(a) == MinWidthQuery(b) <==> a == b
  {
    PxQueryInjective("min-width", ShowInt(a), ShowInt(b));
    ShowIntInjective(a, b);
  }

  /** Every key of the table has its own query. */
  lemma QueriesDistinct(p: QueryKey, q: QueryKey)
    ensures MediaQueryFor(p) == MediaQueryFor(q) <==> p == q
  {
    if p.At? && q.At? {
      MinWidthQueryInjective(QueryThreshold(p.key), QueryThreshold(q.key));
    } else if p.At? != q.At? {
      MinWidthQueryPrefix(p);
      MinWidthQueryPrefix(q);
    } else if p != q {
      OrientationQueriesDiffer();
    }
  }

  lemma OrientationQueriesDiffer()
    ensures LandscapeQuery != PortraitQuery
  {
    assert LandscapeQuery[14] != PortraitQuery[14];
  }

  lemma MinWidthQueryPrefix(q: QueryKey)
    ensures q.At? ==> MediaQueryFor(q)[1] == 'm'
    ensures !q.At? ==> MediaQueryFor(q)[1] == 'o'
  {
    if q.At? {
      var t := ShowInt(QueryThreshold(q.key));
      assert MediaQueryFor(q) == "(" + "min-width" + ": " + t + "px)";
    }
  }
}
