/** `rwd()` of src/rwd/rwd.ts: responsive style input becomes a base style
    followed by an ordered list of `@media` blocks. Style objects are the
    type parameter `S`; a falsy entry (`false`, `null`, `undefined`) is
    `None`. */
module Rwd {
  import opened Wrappers
  import opened Decimal
  import opened Breakpoints

  /** The input object: named entries (breakpoints and orientations) in
      property order, and the optional `minWidth` / `maxWidth` records as
      (key, style) lists in insertion order; an absent record is empty. */
  datatype RwdInput<S> = RwdInput(
    named: seq<(QueryKey, Option<S>)>,
    minWidth: seq<(string, Option<S>)>,
    maxWidth: seq<(string, Option<S>)>)

  datatype MediaBlock<S> = MediaBlock(query: string, style: S)

  /** `css(base, ...mediaStyles)`: `None` is the empty base `{}`. */
  datatype RwdStyles<S> = RwdStyles(base: Option<S>, blocks: seq<MediaBlock<S>>)

  // ---------------------------------------------------------------------
  // Base style

  /** `styles.xs`: the style of the `xs` entry; a JavaScript object has
      at most one, and the first one is taken when a list repeats it. */
  function BaseStyle<S>(named: seq<(QueryKey, Option<S>)>): (b: Option<S>)
    ensures (forall i :: 0 <= i < |named| ==> named[i].0 != At(Xs)) ==> b == None
    ensures forall i :: (0 <= i < |named| && named[i].0 == At(Xs) &&
      (forall j :: 0 <= j < i ==> named[j].0 != At(Xs))) ==> b == named[i].1
  {
    if |named| == 0 then None
    else if named[0].0 == At(Xs) then named[0].1
    else BaseStyle(named[1..])
  }

  // ---------------------------------------------------------------------
  // Named breakpoints and orientations

  /** The query `rwd` writes for a named key: the orientation queries of
      the table, or `(min-width: <breakpoint>px)`. */
  function NamedQuery(k: QueryKey): string {
    match k
    case At(key) => MinWidthQuery(MinWidth(key))
    case Landscape => LandscapeQuery
    case Portrait => PortraitQuery
  }

  /** Apart from `xs`, which `rwd` never wraps, the named queries are the
      ones of the query table. */
  lemma NamedQueryIsTableQuery(k: QueryKey)
    requires k != At(Xs)
    ensures NamedQuery(k) == MediaQueryFor(k)
  {
  }

  /** Whether a named entry yields a block: not `xs`, and truthy. */
  predicate Wrapped<S>(entry: (QueryKey, Option<S>)) {
    entry.0 != At(Xs) && entry.1.Some?
  }

  function NamedBlock<S>(entry: (QueryKey, Option<S>)): seq<MediaBlock<S>> {
    if Wrapped(entry) then [MediaBlock(NamedQuery(entry.0), entry.1.value)] else []
  }

  /** The filter-and-map over the named entries, in entry order. */
  function NamedBlocks<S>(named: seq<(QueryKey, Option<S>)>): (blocks: seq<MediaBlock<S>>)
    ensures |blocks| <= |named|
  {
    if |named| == 0 then [] else NamedBlock(named[0]) + NamedBlocks(named[1..])
  }

  function CountWrapped<S>(named: seq<(QueryKey, Option<S>)>): nat {
    if |named| == 0 then 0 else (if Wrapped(named[0]) then 1 else 0) + CountWrapped(named[1..])
  }

  /** One block per wrapped entry: `xs` and falsy entries give none. */
  lemma {:induction false} NamedBlocksCount<S>(named: seq<(QueryKey, Option<S>)>)
    ensures |NamedBlocks(named)| == CountWrapped(named)
  {
    if |named| > 0 {
      NamedBlocksCount(named[1..]);
    }
  }

  /** Every named block wraps the style of a wrapped entry in that entry's
      query. */
  lemma NamedBlockOrigin<S>(named: seq<(QueryKey, Option<S>)>, i: nat)
    requires i < |NamedBlocks(named)|
    ensures exists j :: (0 <= j < |named| && Wrapped(named[j]) &&
      named[j].1 == Some(NamedBlocks(named)[i].style) && NamedBlocks(named)[i].query == NamedQuery(named[j].0))
  {
    var j := NamedBlockSource(named, i);
  }

  /** The position of the entry a named block comes from. */
  lemma {:induction false} NamedBlockSource<S>(named: seq<(QueryKey, Option<S>)>, i: nat) returns (j: nat)
    requires i < |NamedBlocks(named)|
    ensures j < |named| && Wrapped(named[j])
    ensures named[j].1 == Some(NamedBlocks(named)[i].style) && NamedBlocks(named)[i].query == NamedQuery(named[j].0)
  {
    var head, tail := NamedBlock(named[0]), named[1..];
    assert NamedBlocks(named) == head + NamedBlocks(tail);
    if i < |head| {
      j := 0;
      assert Wrapped(named[0]) && NamedBlocks(named)[i] == head[i];
    } else {
      var k := i - |head|;
      var t := NamedBlockSource(tail, k);
      assert NamedBlocks(named)[i] == NamedBlocks(tail)[k];
      j := t + 1;
      assert named[j] == tail[t];
    }
  }

  /** Blocks keep the order of their entries: the blocks of a concatenation
      are the concatenation of the blocks. */
  lemma {:induction false} NamedBlocksAppend<S>(a: seq<(QueryKey, Option<S>)>, b: seq<(QueryKey, Option<S>)>)
    ensures NamedBlocks(a + b) == NamedBlocks(a) + NamedBlocks(b)
  {
    if |a| == 0 {
      assert a + b == b;
    } else {
      var ab := a + b;
      assert ab[0] == a[0] && ab[1..] == a[1..] + b;
      NamedBlocksAppend(a[1..], b);
      calc {
        NamedBlocks(ab);
        NamedBlock(a[0]) + NamedBlocks(a[1..] + b);
        NamedBlock(a[0]) + (NamedBlocks(a[1..]) + NamedBlocks(b));
        (NamedBlock(a[0]) + NamedBlocks(a[1..])) + NamedBlocks(b);
      }
    }
  }

  // ---------------------------------------------------------------------
  // Property order of the minWidth / maxWidth records

  /** Largest array index plus one: section 6.1.7 of ECMA-262 counts a key
      as an array index when it is the canonical rendering of an integer
      below 2^32 - 1. */
  const ArrayIndexBound: nat := 0xFFFF_FFFF

  predicate IsArrayIndex(key: string) {
    Canonical(key) && DigitsValue(key) < ArrayIndexBound
  }

  /** The numeric value of an array-index key (0 for any other key). */
  function IndexValue(key: string): nat {
    if IsArrayIndex(key) then DigitsValue(key) else 0
  }

  predicate AllIndexKeys<S>(es: seq<(string, Option<S>)>) {
    forall i :: 0 <= i < |es| ==> IsArrayIndex(es[i].0)
  }

  predicate Ascending<S>(es: seq<(string, Option<S>)>) {
    forall i, j :: 0 <= i < j < |es| ==> IndexValue(es[i].0) <= IndexValue(es[j].0)
  }

  /** Insertion into an ascending list. */
  function InsertByIndex<S>(e: (string, Option<S>), sorted: seq<(string, Option<S>)>): (r: seq<(string, Option<S>)>)
    ensures |r| == |sorted| + 1
  {
    if |sorted| == 0 || IndexValue(e.0) <= IndexValue(sorted[0].0) then [e] + sorted
    else [sorted[0]] + InsertByIndex(e, sorted[1..])
  }

  lemma {:induction false} InsertKeepsKeys<S>(e: (string, Option<S>), sorted: seq<(string, Option<S>)>)
    requires IsArrayIndex(e.0) && AllIndexKeys(sorted)
    ensures AllIndexKeys(InsertByIndex(e, sorted))
  {
    if |sorted| > 0 && IndexValue(e.0) > IndexValue(sorted[0].0) {
      InsertKeepsKeys(e, sorted[1..]);
    }
  }

  lemma {:induction false} InsertAscending<S>(e: (string, Option<S>), sorted: seq<(string, Option<S>)>)
    requires Ascending(sorted)
    ensures Ascending(InsertByIndex(e, sorted))
    ensures |sorted| > 0 ==> InsertByIndex(e, sorted)[0] == e || InsertByIndex(e, sorted)[0] == sorted[0]
  {
    if |sorted| > 0 && IndexValue(e.0) > IndexValue(sorted[0].0) {
      InsertAscending(e, sorted[1..]);
      var rest := InsertByIndex(e, sorted[1..]);
      var r := [sorted[0]] + rest;
      forall i, j | 0 <= i < j < |r|
        ensures IndexValue(r[i].0) <= IndexValue(r[j].0)
      {
        if i == 0 {
          assert r[j] == rest[j - 1];
          if j > 1 || rest[0] != e {
            InsertMember(e, sorted[1..], j - 1);
          }
        }
      }
    }
  }

  /** Each element of an insertion is the inserted entry or an old one. */
  lemma {:induction false} InsertMember<S>(e: (string, Option<S>), sorted: seq<(string, Option<S>)>, k: nat)
    requires k < |InsertByIndex(e, sorted)|
    ensures InsertByIndex(e, sorted)[k] == e || InsertByIndex(e, sorted)[k] in sorted
  {
    if |sorted| > 0 && IndexValue(e.0) > IndexValue(sorted[0].0) && k > 0 {
      InsertMember(e, sorted[1..], k - 1);
    }
  }

  lemma {:induction false} InsertMultiset<S>(e: (string, Option<S>), sorted: seq<(string, Option<S>)>)
    ensures multiset(InsertByIndex(e, sorted)) == multiset(sorted) + multiset{e}
  {
    if |sorted| > 0 && IndexValue(e.0) > IndexValue(sorted[0].0) {
      InsertMultiset(e, sorted[1..]);
      assert sorted == [sorted[0]] + sorted[1..];
    }
  }

  function SortByIndex<S>(es: seq<(string, Option<S>)>): (r: seq<(string, Option<S>)>)
    ensures |r| == |es|
  {
    if |es| == 0 then [] else InsertByIndex(es[0], SortByIndex(es[1..]))
  }

  lemma {:induction false} SortByIndexSorts<S>(es: seq<(string, Option<S>)>)
    ensures Ascending(SortByIndex(es))
    ensures multiset(SortByIndex(es)) == multiset(es)
    ensures AllIndexKeys(es) ==> AllIndexKeys(SortByIndex(es))
  {
    SortAscending(es);
    SortPermutes(es);
    if AllIndexKeys(es) {
      SortKeepsKeys(es);
    }
  }

  lemma {:induction false} SortAscending<S>(es: seq<(string, Option<S>)>)
    ensures Ascending(SortByIndex(es))
  {
    if |es| > 0 {
      SortAscending(es[1..]);
      InsertAscending(es[0], SortByIndex(es[1..]));
    }
  }

  lemma {:induction false} SortPermutes<S>(es: seq<(string, Option<S>)>)
    ensures multiset(SortByIndex(es)) == multiset(es)
  {
    if |es| > 0 {
      var head, tail := es[0], es[1..];
      SortPermutes(tail);
      InsertMultiset(head, SortByIndex(tail));
      assert es == [head] + tail;
      assert multiset(es) == multiset(tail) + multiset{head};
    }
  }

  lemma {:induction false} SortKeepsKeys<S>(es: seq<(string, Option<S>)>)
    requires AllIndexKeys(es)
    ensures AllIndexKeys(SortByIndex(es))
  {
    if |es| > 0 {
      var head, tail := es[0], es[1..];
      assert IsArrayIndex(head.0);
      assert AllIndexKeys(tail) by {
        forall i | 0 <= i < |tail| ensures IsArrayIndex(tail[i].0) {
          assert tail[i] == es[i + 1];
        }
      }
      SortKeepsKeys(tail);
      InsertKeepsKeys(head, SortByIndex(tail));
    }
  }

  function IndexEntries<S>(es: seq<(string, Option<S>)>): (r: seq<(string, Option<S>)>)
    ensures AllIndexKeys(r)
  {
    if |es| == 0 then []
    else (if IsArrayIndex(es[0].0) then [es[0]] else []) + IndexEntries(es[1..])
  }

  function OtherEntries<S>(es: seq<(string, Option<S>)>): (r: seq<(string, Option<S>)>)
    ensures forall i :: 0 <= i < |r| ==> !IsArrayIndex(r[i].0)
  {
    if |es| == 0 then []
    else (if IsArrayIndex(es[0].0) then [] else [es[0]]) + OtherEntries(es[1..])
  }

  lemma {:induction false} SplitByIndex<S>(es: seq<(string, Option<S>)>)
    ensures multiset(IndexEntries(es)) + multiset(OtherEntries(es)) == multiset(es)
  {
    if |es| > 0 {
      var head, tail := es[0], es[1..];
      assert es == [head] + tail;
      assert IndexEntries(es) == (if IsArrayIndex(head.0) then [head] else []) + IndexEntries(tail);
      assert OtherEntries(es) == (if IsArrayIndex(head.0) then [] else [head]) + OtherEntries(tail);
      SplitByIndex(tail);
      SplitStep(head, tail, IndexEntries(es), OtherEntries(es),
        IndexEntries(tail), OtherEntries(tail), IsArrayIndex(head.0));
    }
  }

  /** Sending the head to one side of a split keeps the split a partition. */
  lemma SplitStep<T>(head: T, tail: seq<T>, left: seq<T>, right: seq<T>,
                     restLeft: seq<T>, restRight: seq<T>, toLeft: bool)
    requires multiset(restLeft) + multiset(restRight) == multiset(tail)
    requires left == (if toLeft then [head] else []) + restLeft
    requires right == (if toLeft then [] else [head]) + restRight
    ensures multiset(left) + multiset(right) == multiset([head] + tail)
  {
  }

  /** `Object.entries` order of a record: the array-index keys in ascending
      numeric order, then the other keys in insertion order. */
  function OwnEntryOrder<S>(es: seq<(string, Option<S>)>): (r: seq<(string, Option<S>)>)
    ensures multiset(r) == multiset(es)
    ensures CountStyled(r) == CountStyled(es)
  {
    SplitByIndex(es);
    SortByIndexSorts(IndexEntries(es));
    SortedSplitCount(es);
    SortByIndex(IndexEntries(es)) + OtherEntries(es)
  }

  /** The order is a permutation of the record's entries in which the
      array-index keys come first, ascending, and the other keys follow. */
  lemma OwnEntryOrderPermutes<S>(es: seq<(string, Option<S>)>)
    ensures multiset(OwnEntryOrder(es)) == multiset(es)
    ensures
      var n := |IndexEntries(es)|;
      var r := OwnEntryOrder(es);
      n <= |r| && AllIndexKeys(r[..n]) && Ascending(r[..n]) &&
      forall i :: n <= i < |r| ==> !IsArrayIndex(r[i].0)
  {
    SplitByIndex(es);
    SortByIndexSorts(IndexEntries(es));
    var r := OwnEntryOrder(es);
    assert r[..|IndexEntries(es)|] == SortByIndex(IndexEntries(es));
  }

  // ---------------------------------------------------------------------
  // minWidth / maxWidth blocks

  /** For an array-index key the interpolated query is the one for its
      numeric value. */
  lemma WidthQueryOfIndex(key: string)
    requires IsArrayIndex(key)
    ensures PxQuery("min-width", key) == MinWidthQuery(DigitsValue(key))
    ensures PxQuery("max-width", key) == MaxWidthQuery(DigitsValue(key))
  {
    CanonicalIsShowNat(key);
  }

  function EntryBlock<S>(feature: string, entry: (string, Option<S>)): seq<MediaBlock<S>> {
    if entry.1.Some? then [MediaBlock(PxQuery(feature, entry.0), entry.1.value)] else []
  }

  /** The blocks of already-ordered record entries; falsy styles are
      skipped (`continue`). */
  function EntryBlocks<S>(feature: string, ordered: seq<(string, Option<S>)>): (blocks: seq<MediaBlock<S>>)
    ensures |blocks| <= |ordered|
  {
    if |ordered| == 0 then [] else EntryBlock(feature, ordered[0]) + EntryBlocks(feature, ordered[1..])
  }

  function CountStyled<S>(es: seq<(string, Option<S>)>): nat {
    if |es| == 0 then 0 else (if es[0].1.Some? then 1 else 0) + CountStyled(es[1..])
  }

  lemma {:induction false} EntryBlocksCount<S>(feature: string, ordered: seq<(string, Option<S>)>)
    ensures |EntryBlocks(feature, ordered)| == CountStyled(ordered)
  {
    if |ordered| > 0 {
      EntryBlocksCount(feature, ordered[1..]);
    }
  }

  /** Every width block wraps the style of a styled entry in the query for
      that entry's key. */
  lemma {:induction false} EntryBlockOrigin<S>(feature: string, ordered: seq<(string, Option<S>)>, i: nat)
    requires i < |EntryBlocks(feature, ordered)|
    ensures exists j :: (0 <= j < |ordered| && ordered[j].1 == Some(EntryBlocks(feature, ordered)[i].style) &&
      EntryBlocks(feature, ordered)[i].query == PxQuery(feature, ordered[j].0))
  {
    var head := EntryBlock(feature, ordered[0]);
    if i >= |head| {
      EntryBlockOrigin(feature, ordered[1..], i - |head|);
      var j :| 0 <= j < |ordered[1..]| && ordered[1..][j].1 == Some(EntryBlocks(feature, ordered[1..])[i - |head|].style) &&
        EntryBlocks(feature, ordered[1..])[i - |head|].query == PxQuery(feature, ordered[1..][j].0);
      assert ordered[j + 1] == ordered[1..][j];
    }
  }

  lemma {:induction false} EntryBlocksAppend<S>(feature: string, a: seq<(string, Option<S>)>, b: seq<(string, Option<S>)>)
    ensures EntryBlocks(feature, a + b) == EntryBlocks(feature, a) + EntryBlocks(feature, b)
  {
    if |a| == 0 {
      assert a + b == b;
    } else {
      var ab := a + b;
      assert ab[0] == a[0] && ab[1..] == a[1..] + b;
      EntryBlocksAppend(feature, a[1..], b);
      calc {
        EntryBlocks(feature, ab);
        EntryBlock(feature, a[0]) + EntryBlocks(feature, a[1..] + b);
        EntryBlock(feature, a[0]) + (EntryBlocks(feature, a[1..]) + EntryBlocks(feature, b));
        (EntryBlock(feature, a[0]) + EntryBlocks(feature, a[1..])) + EntryBlocks(feature, b);
      }
    }
  }

  lemma {:induction false} CountStyledAppend<S>(a: seq<(string, Option<S>)>, b: seq<(string, Option<S>)>)
    ensures CountStyled(a + b) == CountStyled(a) + CountStyled(b)
  {
    if |a| == 0 {
      assert a + b == b;
    } else {
      CountStyledAppend(a[1..], b);
      assert (a + b)[1..] == a[1..] + b;
    }
  }

  lemma {:induction false} CountStyledInsert<S>(e: (string, Option<S>), sorted: seq<(string, Option<S>)>)
    ensures CountStyled(InsertByIndex(e, sorted)) == CountStyled([e]) + CountStyled(sorted)
  {
    if |sorted| > 0 && IndexValue(e.0) > IndexValue(sorted[0].0) {
      CountStyledInsert(e, sorted[1..]);
    }
  }

  lemma {:induction false} CountStyledSort<S>(es: seq<(string, Option<S>)>)
    ensures CountStyled(SortByIndex(es)) == CountStyled(es)
  {
    if |es| > 0 {
      CountStyledSort(es[1..]);
      CountStyledInsert(es[0], SortByIndex(es[1..]));
    }
  }

  lemma {:induction false} CountStyledSplit<S>(es: seq<(string, Option<S>)>)
    ensures CountStyled(IndexEntries(es)) + CountStyled(OtherEntries(es)) == CountStyled(es)
  {
    if |es| > 0 {
      CountStyledSplit(es[1..]);
      var e := es[0];
      var index := if IsArrayIndex(e.0) then [e] else [];
      var other := if IsArrayIndex(e.0) then [] else [e];
      CountStyledAppend(index, IndexEntries(es[1..]));
      CountStyledAppend(other, OtherEntries(es[1..]));
    }
  }

  /** Sorting the index entries in front of the others drops no styled
      entry. */
  lemma SortedSplitCount<S>(es: seq<(string, Option<S>)>)
    ensures CountStyled(SortByIndex(IndexEntries(es)) + OtherEntries(es)) == CountStyled(es)
  {
    CountStyledAppend(SortByIndex(IndexEntries(es)), OtherEntries(es));
    CountStyledSort(IndexEntries(es));
    CountStyledSplit(es);
  }

  // ---------------------------------------------------------------------
  // Which entries yield blocks, and in what order

  /** The truthy entries, in order: the ones the `for ... of` loop does not
      `continue` past. */
  function StyledEntries<S>(es: seq<(string, Option<S>)>): (r: seq<(string, Option<S>)>)
    ensures forall i :: 0 <= i < |r| ==> r[i].1.Some?
  {
    if |es| == 0 then []
    else (if es[0].1.Some? then [es[0]] else []) + StyledEntries(es[1..])
  }

  /** The blocks of ordered entries are exactly the truthy entries, in
      order, each wrapped in the query for its key. */
  lemma {:induction false} EntryBlocksOfStyled<S>(feature: string, ordered: seq<(string, Option<S>)>)
    ensures |EntryBlocks(feature, ordered)| == |StyledEntries(ordered)| == CountStyled(ordered)
    ensures forall i :: 0 <= i < |StyledEntries(ordered)| ==>
      EntryBlocks(feature, ordered)[i] == MediaBlock(PxQuery(feature, StyledEntries(ordered)[i].0), StyledEntries(ordered)[i].1.value)
  {
    if |ordered| > 0 {
      EntryBlocksOfStyled(feature, ordered[1..]);
    }
  }

  /** Every truthy entry is among the styled ones. */
  lemma {:induction false} StyledMember<S>(es: seq<(string, Option<S>)>, k: nat)
    requires k < |es| && es[k].1.Some?
    ensures es[k] in StyledEntries(es)
  {
    if k > 0 {
      StyledMember(es[1..], k - 1);
      assert es[1..][k - 1] == es[k];
    }
  }

  /** The styled entries are a sub-multiset of the entries. */
  lemma {:induction false} StyledSubMultiset<S>(es: seq<(string, Option<S>)>)
    ensures multiset(StyledEntries(es)) <= multiset(es)
  {
    if |es| > 0 {
      StyledSubMultiset(es[1..]);
      assert es == [es[0]] + es[1..];
    }
  }

  lemma {:induction false} StyledAppend<S>(a: seq<(string, Option<S>)>, b: seq<(string, Option<S>)>)
    ensures StyledEntries(a + b) == StyledEntries(a) + StyledEntries(b)
  {
    if |a| == 0 {
      assert a + b == b;
    } else {
      assert (a + b)[0] == a[0] && (a + b)[1..] == a[1..] + b;
      StyledAppend(a[1..], b);
    }
  }

  /** Dropping falsy entries keeps an ascending list ascending. */
  lemma {:induction false} StyledAscending<S>(es: seq<(string, Option<S>)>)
    requires Ascending(es)
    ensures Ascending(StyledEntries(es))
  {
    if |es| > 0 {
      var tail := es[1..];
      assert Ascending(tail) by {
        forall i, j | 0 <= i < j < |tail| ensures IndexValue(tail[i].0) <= IndexValue(tail[j].0) {
          assert tail[i] == es[i + 1] && tail[j] == es[j + 1];
        }
      }
      StyledAscending(tail);
      var rest := StyledEntries(tail);
      if es[0].1.Some? {
        var r := [es[0]] + rest;
        StyledSubMultiset(tail);
        forall i, j | 0 <= i < j < |r| ensures IndexValue(r[i].0) <= IndexValue(r[j].0) {
          if i == 0 {
            assert r[j] == rest[j - 1] && r[j] in multiset(tail);
            var k :| 0 <= k < |tail| && tail[k] == r[j];
            assert es[k + 1] == r[j];
          }
        }
      }
    }
  }

  /** Distinct array-index keys have distinct numeric values. */
  lemma IndexValueInjective(a: string, b: string)
    requires IsArrayIndex(a) && IsArrayIndex(b)
    ensures IndexValue(a) == IndexValue(b) ==> a == b
  {
    CanonicalIsShowNat(a);
    CanonicalIsShowNat(b);
  }

  /** The keys of a JavaScript object are distinct. */
  predicate DistinctKeys<S>(es: seq<(string, Option<S>)>) {
    forall i, j :: 0 <= i < j < |es| ==> es[i].0 != es[j].0
  }

  /** An element that occurs at two positions occurs twice. */
  lemma TwiceAtTwoPositions<T>(s: seq<T>, i: nat, j: nat)
    requires i < j < |s| && s[i] == s[j]
    ensures multiset(s)[s[i]] >= 2
  {
    assert s == s[..j] + [s[j]] + s[j + 1..];
    assert s[..j][i] == s[i];
    assert multiset(s[..j])[s[i]] >= 1;
  }

  /** An element that occurs twice occurs at two positions. */
  lemma TwoPositionsOfTwice<T>(s: seq<T>, x: T) returns (i: nat, j: nat)
    requires multiset(s)[x] >= 2
    ensures i < j < |s| && s[i] == x && s[j] == x
  {
    assert x in multiset(s);
    i :| 0 <= i < |s| && s[i] == x;
    assert s == s[..i] + [x] + s[i + 1..];
    assert multiset(s[..i] + s[i + 1..])[x] >= 1;
    if x in s[..i] {
      var k :| 0 <= k < i && s[..i][k] == x;
      i, j := k, i;
    } else {
      assert x in multiset(s[i + 1..]);
      var k :| 0 <= k < |s[i + 1..]| && s[i + 1..][k] == x;
      j := i + 1 + k;
    }
  }

  /** The truthy array-index entries of a record, as `Object.entries`
      visits them. */
  function SortedStyledIndex<S>(es: seq<(string, Option<S>)>): seq<(string, Option<S>)> {
    StyledEntries(SortByIndex(IndexEntries(es)))
  }

  /** Each of them is an entry of the record, and they are index keys. */
  lemma SortedStyledIndexFrom<S>(es: seq<(string, Option<S>)>)
    ensures multiset(SortedStyledIndex(es)) <= multiset(es)
    ensures AllIndexKeys(SortedStyledIndex(es)) && Ascending(SortedStyledIndex(es))
  {
    var sorted := SortByIndex(IndexEntries(es));
    SortByIndexSorts(IndexEntries(es));
    SplitByIndex(es);
    StyledSubMultiset(sorted);
    StyledAscending(sorted);
    var st := SortedStyledIndex(es);
    forall i | 0 <= i < |st| ensures IsArrayIndex(st[i].0) {
      assert st[i] in multiset(sorted);
    }
  }

  /** Two positions of a sub-multiset of `es` hold entries found at two
      different positions of `es`. */
  lemma DistinctPositions<T>(es: seq<T>, st: seq<T>, i: nat, j: nat) returns (p: nat, q: nat)
    requires multiset(st) <= multiset(es) && i < j < |st|
    ensures p < |es| && q < |es| && p != q && es[p] == st[i] && es[q] == st[j]
  {
    if st[i] == st[j] {
      TwiceAtTwoPositions(st, i, j);
      p, q := TwoPositionsOfTwice(es, st[i]);
    } else {
      assert st[i] in multiset(es) && st[j] in multiset(es);
      p :| 0 <= p < |es| && es[p] == st[i];
      q :| 0 <= q < |es| && es[q] == st[j];
    }
  }

  /** With distinct keys, the index-keyed blocks come out in strictly
      increasing numeric order. */
  lemma SortedStyledIndexStrict<S>(es: seq<(string, Option<S>)>, i: nat, j: nat)
    requires DistinctKeys(es)
    requires i < j < |SortedStyledIndex(es)|
    ensures IndexValue(SortedStyledIndex(es)[i].0) < IndexValue(SortedStyledIndex(es)[j].0)
  {
    var st := SortedStyledIndex(es);
    SortedStyledIndexFrom(es);
    var p, q := DistinctPositions(es, st, i, j);
    assert es[p].0 != es[q].0;
    IndexValueInjective(st[i].0, st[j].0);
  }

  /** The truthy entries of a record in visiting order: the array-index
      keys first, then the others in insertion order. */
  lemma StyledOwnOrder<S>(es: seq<(string, Option<S>)>)
    ensures StyledEntries(OwnEntryOrder(es)) == SortedStyledIndex(es) + StyledEntries(OtherEntries(es))
    ensures forall i :: 0 <= i < |StyledEntries(OtherEntries(es))| ==> !IsArrayIndex(StyledEntries(OtherEntries(es))[i].0)
  {
    StyledAppend(SortByIndex(IndexEntries(es)), OtherEntries(es));
    var others := OtherEntries(es);
    var st := StyledEntries(others);
    StyledSubMultiset(others);
    forall i | 0 <= i < |st| ensures !IsArrayIndex(st[i].0) {
      assert st[i] in multiset(others);
    }
  }

  /** The truthy entries of a record with distinct keys in visiting order:
      the array-index keys first in strictly increasing numeric order, the
      others after them. With `EntryBlocksOfStyled`, block `i` of the record
      wraps entry `i` of this list. */
  lemma RecordStyledOrder<S>(es: seq<(string, Option<S>)>)
    requires DistinctKeys(es)
    ensures
      var styled := StyledEntries(OwnEntryOrder(es));
      var k := |SortedStyledIndex(es)|;
      k <= |styled| &&
      (forall i :: 0 <= i < k ==> IsArrayIndex(styled[i].0)) &&
      (forall i, j :: 0 <= i < j < k ==> IndexValue(styled[i].0) < IndexValue(styled[j].0)) &&
      (forall i :: k <= i < |styled| ==> !IsArrayIndex(styled[i].0))
  {
    var index := SortedStyledIndex(es);
    var others := StyledEntries(OtherEntries(es));
    StyledOwnOrder(es);
    SortedStyledIndexFrom(es);
    forall i, j | 0 <= i < j < |index| ensures IndexValue(index[i].0) < IndexValue(index[j].0) {
      SortedStyledIndexStrict(es, i, j);
    }
    IndexThenOthers(StyledEntries(OwnEntryOrder(es)), index, others);
  }

  /** A list made of strictly ascending index entries followed by
      non-index entries has that shape position by position. */
  lemma IndexThenOthers<S>(styled: seq<(string, Option<S>)>, index: seq<(string, Option<S>)>, others: seq<(string, Option<S>)>)
    requires styled == index + others
    requires AllIndexKeys(index)
    requires forall i, j :: 0 <= i < j < |index| ==> IndexValue(index[i].0) < IndexValue(index[j].0)
    requires forall i :: 0 <= i < |others| ==> !IsArrayIndex(others[i].0)
    ensures |index| <= |styled|
    ensures forall i :: 0 <= i < |index| ==> IsArrayIndex(styled[i].0)
    ensures forall i, j :: 0 <= i < j < |index| ==> IndexValue(styled[i].0) < IndexValue(styled[j].0)
    ensures forall i :: |index| <= i < |styled| ==> !IsArrayIndex(styled[i].0)
  {
    forall i | |index| <= i < |styled| ensures !IsArrayIndex(styled[i].0) {
      assert styled[i] == others[i - |index|];
    }
  }

  /** Conversely to the origin lemma: every truthy entry of a record
      yields its block. */
  lemma RecordBlockComplete<S>(feature: string, es: seq<(string, Option<S>)>, k: nat)
    requires k < |es| && es[k].1.Some?
    ensures MediaBlock(PxQuery(feature, es[k].0), es[k].1.value) in EntryBlocks(feature, OwnEntryOrder(es))
  {
    var ordered := OwnEntryOrder(es);
    OwnEntryOrderPermutes(es);
    assert es[k] in multiset(ordered);
    var j :| 0 <= j < |ordered| && ordered[j] == es[k];
    StyledMember(ordered, j);
    var styled := StyledEntries(ordered);
    var i :| 0 <= i < |styled| && styled[i] == es[k];
    EntryBlocksOfStyled(feature, ordered);
    assert EntryBlocks(feature, ordered)[i] == MediaBlock(PxQuery(feature, es[k].0), es[k].1.value);
  }

  // ---------------------------------------------------------------------
  // rwd()

  /** `rwd(styles)`: the base style, then the named blocks in entry order,
      then every `minWidth` block, then every `maxWidth` block; one block
      per truthy non-`xs` named entry and per truthy record entry, since
      falsy entries are dropped everywhere. */
  function Rwd<S>(input: RwdInput<S>): (r: RwdStyles<S>)
    ensures |r.blocks| == CountWrapped(input.named) + CountStyled(input.minWidth) + CountStyled(input.maxWidth)
  {
    NamedBlocksCount(input.named);
    EntryBlocksCount("min-width", OwnEntryOrder(input.minWidth));
    EntryBlocksCount("max-width", OwnEntryOrder(input.maxWidth));
    RwdStyles(BaseStyle(input.named),
      NamedBlocks(input.named)
      + EntryBlocks("min-width", OwnEntryOrder(input.minWidth))
      + EntryBlocks("max-width", OwnEntryOrder(input.maxWidth)))
  }

  /** The first run of blocks: each wraps one truthy non-`xs` named entry
      in that entry's query. */
  lemma RwdNamedRun<S>(input: RwdInput<S>, i: nat)
    requires i < |Rwd(input).blocks| && i < CountWrapped(input.named)
    ensures
      var b := Rwd(input).blocks[i];
      exists j :: (0 <= j < |input.named| && Wrapped(input.named[j]) &&
        input.named[j].1 == Some(b.style) && b.query == NamedQuery(input.named[j].0))
  {
    var named := NamedBlocks(input.named);
    NamedBlocksCount(input.named);
    assert Rwd(input).blocks[i] == named[i];
    NamedBlockOrigin(input.named, i);
  }

  /** Every block of a record wraps one truthy entry of the record in
      the query for that entry's key. */
  lemma RecordBlockOrigin<S>(feature: string, es: seq<(string, Option<S>)>, i: nat)
    requires i < |EntryBlocks(feature, OwnEntryOrder(es))|
    ensures
      var b := EntryBlocks(feature, OwnEntryOrder(es))[i];
      exists k :: (0 <= k < |es| && es[k].1 == Some(b.style) && b.query == PxQuery(feature, es[k].0))
  {
    var ordered := OwnEntryOrder(es);
    var b := EntryBlocks(feature, ordered)[i];
    EntryBlockOrigin(feature, ordered, i);
    var j :| 0 <= j < |ordered| && ordered[j].1 == Some(b.style) && b.query == PxQuery(feature, ordered[j].0);
    OwnEntryOrderPermutes(es);
    assert ordered[j] in multiset(ordered);
    assert ordered[j] in es;
    var k :| 0 <= k < |es| && es[k] == ordered[j];
  }

  /** The second run: each block wraps one truthy `minWidth` entry in
      `(min-width: <key>px)`. */
  lemma RwdMinWidthRun<S>(input: RwdInput<S>, i: nat)
    requires CountWrapped(input.named) <= i < CountWrapped(input.named) + CountStyled(input.minWidth)
    ensures i < |Rwd(input).blocks|
    ensures
      var b := Rwd(input).blocks[i];
      exists j :: (0 <= j < |input.minWidth| &&
        input.minWidth[j].1 == Some(b.style) && b.query == PxQuery("min-width", input.minWidth[j].0))
  {
    var n, m := CountWrapped(input.named), CountStyled(input.minWidth);
    var mins := EntryBlocks("min-width", OwnEntryOrder(input.minWidth));
    RwdRuns(input);
    assert Rwd(input).blocks[i] == Rwd(input).blocks[n..n + m][i - n] == mins[i - n];
    RecordBlockOrigin("min-width", input.minWidth, i - n);
  }

  /** The last run: each block wraps one truthy `maxWidth` entry in
      `(max-width: <key>px)`. */
  lemma RwdMaxWidthRun<S>(input: RwdInput<S>, i: nat)
    requires CountWrapped(input.named) + CountStyled(input.minWidth) <= i < |Rwd(input).blocks|
    ensures
      var b := Rwd(input).blocks[i];
      exists j :: (0 <= j < |input.maxWidth| &&
        input.maxWidth[j].1 == Some(b.style) && b.query == PxQuery("max-width", input.maxWidth[j].0))
  {
    var nm := CountWrapped(input.named) + CountStyled(input.minWidth);
    var maxs := EntryBlocks("max-width", OwnEntryOrder(input.maxWidth));
    RwdRuns(input);
    assert Rwd(input).blocks[i] == Rwd(input).blocks[nm..][i - nm] == maxs[i - nm];
    RecordBlockOrigin("max-width", input.maxWidth, i - nm);
  }

  /** The output is the three runs one after the other: the named blocks,
      the `minWidth` blocks in visiting order, the `maxWidth` blocks in
      visiting order. */
  lemma RwdRuns<S>(input: RwdInput<S>)
    ensures
      var blocks := Rwd(input).blocks;
      var n := CountWrapped(input.named);
      var m := CountStyled(input.minWidth);
      n + m <= |blocks| &&
      blocks[..n] == NamedBlocks(input.named) &&
      blocks[n..n + m] == EntryBlocks("min-width", OwnEntryOrder(input.minWidth)) &&
      blocks[n + m..] == EntryBlocks("max-width", OwnEntryOrder(input.maxWidth))
  {
    var named := NamedBlocks(input.named);
    var mins := EntryBlocks("min-width", OwnEntryOrder(input.minWidth));
    var maxs := EntryBlocks("max-width", OwnEntryOrder(input.maxWidth));
    assert |named| == CountWrapped(input.named) by {
      NamedBlocksCount(input.named);
    }
    assert |mins| == CountStyled(input.minWidth) by {
      EntryBlocksCount("min-width", OwnEntryOrder(input.minWidth));
    }
    assert Rwd(input).blocks == named + mins + maxs;
    ThreeRuns(named, mins, maxs);
  }

  /** The three parts of a concatenation are its slices. */
  lemma ThreeRuns<T>(a: seq<T>, b: seq<T>, c: seq<T>)
    ensures (a + b + c)[..|a|] == a
    ensures (a + b + c)[|a|..|a| + |b|] == b
    ensures (a + b + c)[|a| + |b|..] == c
  {
    var abc := a + b + c;
    assert abc[..|a|] == a;
    assert abc[|a|..|a| + |b|] == b;
    assert abc[|a| + |b|..] == c;
  }

  /** Every truthy `minWidth` and `maxWidth` entry yields its block in the
      output. */
  lemma RwdRecordsComplete<S>(input: RwdInput<S>)
    ensures forall k :: 0 <= k < |input.minWidth| && input.minWidth[k].1.Some? ==>
      MediaBlock(PxQuery("min-width", input.minWidth[k].0), input.minWidth[k].1.value) in Rwd(input).blocks
    ensures forall k :: 0 <= k < |input.maxWidth| && input.maxWidth[k].1.Some? ==>
      MediaBlock(PxQuery("max-width", input.maxWidth[k].0), input.maxWidth[k].1.value) in Rwd(input).blocks
  {
    var named := NamedBlocks(input.named);
    var mins := EntryBlocks("min-width", OwnEntryOrder(input.minWidth));
    var maxs := EntryBlocks("max-width", OwnEntryOrder(input.maxWidth));
    assert Rwd(input).blocks == named + mins + maxs;
    forall k | 0 <= k < |input.minWidth| && input.minWidth[k].1.Some?
      ensures MediaBlock(PxQuery("min-width", input.minWidth[k].0), input.minWidth[k].1.value) in Rwd(input).blocks
    {
      RecordBlockComplete("min-width", input.minWidth, k);
    }
    forall k | 0 <= k < |input.maxWidth| && input.maxWidth[k].1.Some?
      ensures MediaBlock(PxQuery("max-width", input.maxWidth[k].0), input.maxWidth[k].1.value) in Rwd(input).blocks
    {
      RecordBlockComplete("max-width", input.maxWidth, k);
    }
  }
}

/** Concrete calls of `rwd`. */
module RwdExamples {
  import opened Wrappers
  import opened Decimal
  import opened Breakpoints
  import opened Rwd

  /** The documented call: `xs` is the base, `md` and `landscape` become
      blocks in entry order, and the falsy `lg` entry is dropped. */
  lemma NamedExample<S>(small: S, medium: S, turned: S)
    ensures Rwd.Rwd(RwdInput([(At(Xs), Some(small)), (At(Md), Some(medium)), (At(Lg), None), (Landscape, Some(turned))], [], []))
      == RwdStyles(Some(small), [MediaBlock(MinWidthQuery(768), medium), MediaBlock(LandscapeQuery, turned)])
  {
    var named := [(At(Xs), Some(small)), (At(Md), Some(medium)), (At(Lg), None), (Landscape, Some(turned))];
    assert named[1..][1..][1..][1..] == [];
    assert NamedBlocks(named[1..][1..][1..]) == [MediaBlock(LandscapeQuery, turned)];
    assert NamedBlocks(named[1..]) == [MediaBlock(MinWidthQuery(768), medium), MediaBlock(LandscapeQuery, turned)];
  }

  lemma Value768()
    ensures DigitsValue("768") == 768
  {
    assert "768"[..2] == "76" && "76"[..1] == "7" && "7"[..0] == "";
  }

  lemma Value1024()
    ensures DigitsValue("1024") == 1024
  {
    assert "1024"[..3] == "102" && "102"[..2] == "10" && "10"[..1] == "1" && "1"[..0] == "";
  }

  lemma IndexKeys()
    ensures IsArrayIndex("768") && IndexValue("768") == 768
    ensures IsArrayIndex("1024") && IndexValue("1024") == 1024
    ensures !IsArrayIndex("wide") && !IsArrayIndex("0768")
  {
    Value768();
    Value1024();
    assert !IsDigit("wide"[0]);
  }

  /** Record keys come out with array indices first, ascending, whatever
      their insertion order. */
  lemma OrderExample<S>(x: Option<S>, y: Option<S>, z: Option<S>)
    ensures OwnEntryOrder([("1024", x), ("wide", y), ("768", z)]) == [("768", z), ("1024", x), ("wide", y)]
  {
    IndexKeys();
    var es := [("1024", x), ("wide", y), ("768", z)];
    assert es[1..] == [("wide", y), ("768", z)];
    assert es[1..][1..] == [("768", z)];
    assert es[1..][1..][1..] == [];
    assert IndexEntries(es[1..][1..]) == [("768", z)];
    assert IndexEntries(es) == [("1024", x), ("768", z)];
    assert OtherEntries(es[1..][1..]) == [];
    assert OtherEntries(es) == [("wide", y)];
    var sorted := SortByIndex([("1024", x), ("768", z)]);
    assert [("1024", x), ("768", z)][1..] == [("768", z)];
    assert SortByIndex([("768", z)]) == [("768", z)];
    assert sorted == InsertByIndex(("1024", x), [("768", z)]);
    assert IndexValue("1024") > IndexValue("768");
    assert [("768", z)][1..] == [];
    assert InsertByIndex(("1024", x), []) == [("1024", x)];
    assert sorted == [("768", z), ("1024", x)];
  }
}
