/** The media-query string builders of src/rwd/mediaQueryHelpers.ts. A
    condition object is an ordered list of (key, value) entries; its entries
    become `(<feature>: <value>)` segments joined by ` and ` (every condition
    must hold, section 2.5 of W3C Media Queries Level 4) or by `, ` (a media
    query list, which holds when any query holds, section 2.1). Style
    objects are the type parameter `S`; Emotion's CSS generation is not
    modelled, so a block records its query and styles. */
module MediaQuery {
  import opened Decimal
  import opened Text
  import JsNumber

  predicate IsUpper(c: char) {
    'A' <= c <= 'Z'
  }

  function ToLower(c: char): (l: char)
    requires IsUpper(c)
    ensures 'a' <= l <= 'z'
  {
    ((c as int) + 32) as char
  }

  function CountUpper(s: string): nat {
    if |s| == 0 then 0 else (if IsUpper(s[0]) then 1 else 0) + CountUpper(s[1..])
  }

  predicate NoUpper(s: string) {
    forall i :: 0 <= i < |s| ==> !IsUpper(s[i])
  }

  /** How `normalizeMediaKey` rewrites one character. */
  function KebabChar(c: char): string {
    if IsUpper(c) then ['-', ToLower(c)] else [c]
  }

  /** `normalizeMediaKey`: camelCase to kebab-case. */
  function NormalizeMediaKey(key: string): (r: string)
    ensures |r| == |key| + CountUpper(key)
    ensures NoUpper(r)
  {
    if |key| == 0 then "" else KebabChar(key[0]) + NormalizeMediaKey(key[1..])
  }

  /** The rewriting works character by character: it distributes over
      concatenation. */
  lemma {:induction false} NormalizeConcat(a: string, b: string)
    ensures NormalizeMediaKey(a + b) == NormalizeMediaKey(a) + NormalizeMediaKey(b)
  {
    var ab := a + b;
    if |a| == 0 {
      assert ab == b;
    } else {
      assert ab[0] == a[0] && ab[1..] == a[1..] + b;
      NormalizeConcat(a[1..], b);
      calc {
        NormalizeMediaKey(ab);
        KebabChar(a[0]) + NormalizeMediaKey(a[1..] + b);
        KebabChar(a[0]) + (NormalizeMediaKey(a[1..]) + NormalizeMediaKey(b));
        (KebabChar(a[0]) + NormalizeMediaKey(a[1..])) + NormalizeMediaKey(b);
      }
    }
  }

  /** A key without upper-case letters is already normalized. */
  lemma {:induction false} NormalizeIdentity(key: string)
    requires NoUpper(key)
    ensures NormalizeMediaKey(key) == key
  {
    if |key| > 0 {
      NormalizeIdentity(key[1..]);
      assert key == [key[0]] + key[1..];
    }
  }

  /** Normalizing twice is normalizing once. */
  lemma NormalizeIdempotent(key: string)
    ensures NormalizeMediaKey(NormalizeMediaKey(key)) == NormalizeMediaKey(key)
  {
    NormalizeIdentity(NormalizeMediaKey(key));
  }

  /** A value of a condition entry. */
  datatype MediaValue = Number(n: int) | Str(s: string) | Flag(b: bool)

  /** Features whose numeric values carry no unit. */
  const UnitlessKeys: set<string> := {
    "orientation", "hover", "any-hover", "pointer", "any-pointer", "aspect-ratio",
    "prefers-color-scheme", "prefers-contrast", "inverted-colors", "monochrome",
    "resolution", "color-gamut", "update"
  }

  /** The list checked before warning about an unknown feature. */
  const ValidMediaFeatures: seq<string> := [
    "min-width", "max-width", "width", "min-height", "max-height", "height",
    "orientation", "aspect-ratio", "min-aspect-ratio", "max-aspect-ratio",
    "resolution", "hover", "any-hover", "pointer", "any-pointer", "color",
    "monochrome", "prefers-color-scheme", "prefers-reduced-motion",
    "prefers-contrast", "update", "overflow-block", "overflow-inline"
  ]

  /** The printed value: numbers get `px` unless the feature is unitless;
      strings and booleans print as they are. */
  function FormatValue(kebabKey: string, value: MediaValue): (r: string)
    ensures value.Str? ==> r == value.s
    ensures value.Flag? ==> r == (if value.b then "true" else "false")
    ensures value.Number? ==> ((|r| >= 2 && r[|r| - 2..] == "px") <==> kebabKey !in UnitlessKeys)
  {
    match value
    case Number(n) =>
      var unit := if kebabKey !in UnitlessKeys then "px" else "";
      UnitSuffix(n, unit);
      ShowInt(n) + unit
    case Str(s) => s
    case Flag(b) => if b then "true" else "false"
  }

  /** A number prints so that `parseInt` reads it back, `px` or not: the
      value a stylesheet reader sees is the one in the condition. */
  lemma NumberValueReadsBack(kebabKey: string, n: int)
    ensures JsNumber.ParseInt(FormatValue(kebabKey, Number(n))) == JsNumber.Int(n)
  {
    var unit := if kebabKey !in UnitlessKeys then "px" else "";
    assert FormatValue(kebabKey, Number(n)) == ShowInt(n) + unit;
    assert unit == "" || unit[0] == 'p';
    ShowIntReadsBack(n, unit);
  }

  /** A rendered integer ends in `px` exactly when the unit was appended. */
  lemma UnitSuffix(n: int, unit: string)
    requires unit == "" || unit == "px"
    ensures var r := ShowInt(n) + unit; (|r| >= 2 && r[|r| - 2..] == "px") <==> unit == "px"
  {
    var r := ShowInt(n) + unit;
    if unit == "" {
      ShowIntEndsInDigit(n);
      assert r[|r| - 1] == ShowInt(n)[|ShowInt(n)| - 1];
    } else {
      assert r[|r| - 2..] == unit;
    }
  }

  /** The last character of an integer's rendering is a digit. */
  lemma ShowIntEndsInDigit(n: int)
    ensures IsDigit(ShowInt(n)[|ShowInt(n)| - 1])
  {
    if n < 0 {
      var digits := ShowNat(-n);
      assert ShowInt(n)[|ShowInt(n)| - 1] == digits[|digits| - 1];
    }
  }

  /** `parseInt` reads an integer's rendering back when a non-digit or
      nothing follows it. */
  lemma ShowIntReadsBack(n: int, rest: string)
    requires |rest| == 0 || !IsDigit(rest[0])
    ensures JsNumber.ParseInt(ShowInt(n) + rest) == JsNumber.Int(n)
  {
    if n >= 0 {
      NatReadsBack(n, rest);
    } else {
      NegatedReadsBack(-n, rest);
    }
  }

  lemma NatReadsBack(m: nat, rest: string)
    requires |rest| == 0 || !IsDigit(rest[0])
    ensures JsNumber.ParseInt(ShowNat(m) + rest) == JsNumber.Int(m)
  {
    JsNumber.ParseIntOfDigits(ShowNat(m), rest);
    ShowNatRoundTrip(m);
  }

  lemma NegatedReadsBack(m: nat, rest: string)
    requires |rest| == 0 || !IsDigit(rest[0])
    ensures JsNumber.ParseInt("-" + ShowNat(m) + rest) == JsNumber.Int(-(m as int))
  {
    ShowNatRoundTrip(m);
    NegatedDigitsRead(ShowNat(m), m, rest);
  }

  /** A `-` sign, a digit run and a non-digit (or nothing) read back as the
      negated value of the digits. */
  lemma NegatedDigitsRead(digits: string, value: nat, rest: string)
    requires |digits| > 0 && AllDigits(digits) && DigitsValue(digits) == value
    requires |rest| == 0 || !IsDigit(rest[0])
    ensures JsNumber.ParseInt("-" + digits + rest) == JsNumber.Int(-(value as int))
  {
    var text := "-" + digits + rest;
    assert text[0] == '-' && text[1..] == digits + rest by {
      DropFirst('-', digits, rest);
    }
    assert JsNumber.ParseInt(text) == JsNumber.Int(-(value as int)) by {
      JsNumber.ParseIntOfNegative(text, digits, rest);
    }
  }

  lemma DropFirst(c: char, a: string, b: string)
    ensures ([c] + a + b)[0] == c && ([c] + a + b)[1..] == a + b
  {
    assert [c] + a + b == [c] + (a + b);
  }

  function Segment(key: string, value: MediaValue): (seg: string)
    ensures |seg| >= 4 && seg[0] == '(' && seg[|seg| - 1] == ')'
  {
    var kebab := NormalizeMediaKey(key);
    "(" + kebab + ": " + FormatValue(kebab, value) + ")"
  }

  /** A numeric value's segment ends in `px)` exactly when its feature is
      not unitless. */
  lemma PxSuffix(key: string, n: int)
    ensures
      var seg := Segment(key, Number(n));
      (|seg| >= 3 && seg[|seg| - 3..] == "px)") <==> NormalizeMediaKey(key) !in UnitlessKeys
  {
    var kebab := NormalizeMediaKey(key);
    var seg := Segment(key, Number(n));
    var digits := ShowInt(n);
    if kebab in UnitlessKeys {
      assert seg == "(" + kebab + ": " + digits + ")";
      assert seg[|seg| - 2] == digits[|digits| - 1];
      if n >= 0 {
        assert IsDigit(digits[|digits| - 1]);
      } else {
        assert digits[|digits| - 1] == ShowNat(-n)[|ShowNat(-n)| - 1];
        assert IsDigit(digits[|digits| - 1]);
      }
    } else {
      assert seg == "(" + kebab + ": " + digits + "px" + ")";
    }
  }

  datatype Combinator = And | Or

  function Separator(c: Combinator): string {
    if c == Or then ", " else " and "
  }

  /** One segment per condition entry, in entry order; unknown features are
      kept (the source only warns about them). */
  function Segments(condition: seq<(string, MediaValue)>): (segs: seq<string>)
    ensures |segs| == |condition|
    ensures forall i :: 0 <= i < |segs| ==> segs[i] == Segment(condition[i].0, condition[i].1)
  {
    if |condition| == 0 then []
    else [Segment(condition[0].0, condition[0].1)] + Segments(condition[1..])
  }

  /** The keys `toMediaString` warns about, in entry order. */
  function UnknownFeatures(condition: seq<(string, MediaValue)>): (keys: seq<string>)
    ensures forall i :: 0 <= i < |keys| ==> NormalizeMediaKey(keys[i]) !in ValidMediaFeatures
    ensures forall i :: 0 <= i < |keys| ==> exists j :: 0 <= j < |condition| && condition[j].0 == keys[i]
    ensures forall j :: 0 <= j < |condition| && NormalizeMediaKey(condition[j].0) !in ValidMediaFeatures ==>
      condition[j].0 in keys
    ensures |keys| <= |condition|
  {
    if |condition| == 0 then []
    else
      var rest := UnknownFeatures(condition[1..]);
      var keys := if NormalizeMediaKey(condition[0].0) in ValidMediaFeatures then rest else [condition[0].0] + rest;
      assert forall j :: 1 <= j < |condition| ==> condition[j] == condition[1..][j - 1];
      keys
  }

  /** `toMediaString(condition, combinator)`; the empty condition gives the
      empty string and no other condition does. */
  function ToMediaString(condition: seq<(string, MediaValue)>, combinator: Combinator): (q: string)
    ensures q == "" <==> |condition| == 0
  {
    var segs := Segments(condition);
    assert |segs| > 0 ==> |Join(segs, Separator(combinator))| >= |segs[0]|;
    Join(segs, Separator(combinator))
  }

  lemma {:induction false} JoinAppend(segs: seq<string>, sep: string, last: string)
    requires |segs| > 0
    ensures Join(segs + [last], sep) == Join(segs, sep) + sep + last
  {
    if |segs| > 1 {
      JoinAppend(segs[1..], sep, last);
      assert (segs + [last])[1..] == segs[1..] + [last];
    } else {
      assert (segs + [last])[1..] == [last];
    }
  }

  /** A later entry's segment comes after the earlier ones, behind one
      separator. */
  lemma AppendEntry(condition: seq<(string, MediaValue)>, key: string, value: MediaValue, combinator: Combinator)
    requires |condition| > 0
    ensures ToMediaString(condition + [(key, value)], combinator)
      == ToMediaString(condition, combinator) + Separator(combinator) + Segment(key, value)
  {
    var extended := condition + [(key, value)];
    assert Segments(extended) == Segments(condition) + [Segment(key, value)];
    JoinAppend(Segments(condition), Separator(combinator), Segment(key, value));
  }

  /** A camelCase key with one hump: `minWidth` becomes `min-width`. */
  lemma OneHump(head: string, hump: char, tail: string)
    requires NoUpper(head) && NoUpper(tail) && IsUpper(hump)
    ensures NormalizeMediaKey(head + [hump] + tail) == head + ['-', ToLower(hump)] + tail
  {
    var front := head + [hump];
    var dashed := ['-', ToLower(hump)];
    assert NormalizeMediaKey([hump]) == dashed by {
      assert [hump][0] == hump && [hump][1..] == [];
      assert NormalizeMediaKey([hump]) == KebabChar(hump) + NormalizeMediaKey([]);
    }
    NormalizeConcat(head, [hump]);
    NormalizeIdentity(head);
    assert NormalizeMediaKey(front) == head + dashed;
    NormalizeConcat(front, tail);
    NormalizeIdentity(tail);
  }

  // ---------------------------------------------------------------------
  // media(), media.or, media.and, media.raw

  /** A style object either applied as it is or wrapped in `@media query`. */
  datatype Block<S> = Plain(style: S) | AtMedia(query: string, style: S)

  /** `media(query, styles)` and the `.css(styles)` of `media.raw(query)`:
      an empty query returns the styles unwrapped. */
  function Media<S>(query: string, styles: S): (b: Block<S>)
    ensures b.style == styles
    ensures b.Plain? <==> query == ""
    ensures b.AtMedia? ==> b.query == query
  {
    if query == "" then Plain(styles) else AtMedia(query, styles)
  }

  /** `media.or(condition).css(styles)`. */
  function MediaOr<S>(condition: seq<(string, MediaValue)>, styles: S): (b: Block<S>)
    ensures b.style == styles
    ensures b.Plain? <==> |condition| == 0
    ensures b.AtMedia? ==> b.query == Join(Segments(condition), ", ")
  {
    Media(ToMediaString(condition, Or), styles)
  }

  /** `media.and(condition).css(styles)`. */
  function MediaAnd<S>(condition: seq<(string, MediaValue)>, styles: S): (b: Block<S>)
    ensures b.style == styles
    ensures b.Plain? <==> |condition| == 0
    ensures b.AtMedia? ==> b.query == Join(Segments(condition), " and ")
  {
    Media(ToMediaString(condition, And), styles)
  }

  const MobileLandscapeCondition: seq<(string, MediaValue)> :=
    [("orientation", Str("landscape")), ("maxHeight", Number(500)), ("pointer", Str("coarse"))]

  /** The query of a three-entry condition. */
  lemma ThreeEntries(e1: (string, MediaValue), e2: (string, MediaValue), e3: (string, MediaValue), combinator: Combinator)
    ensures ToMediaString([e1, e2, e3], combinator)
      == Segment(e1.0, e1.1) + Separator(combinator) + Segment(e2.0, e2.1) + Separator(combinator) + Segment(e3.0, e3.1)
  {
    var a, b, c := Segment(e1.0, e1.1), Segment(e2.0, e2.1), Segment(e3.0, e3.1);
    assert Segments([e1, e2, e3]) == [a, b, c];
    JoinThree(a, b, c, Separator(combinator));
  }

  lemma JoinThree(a: string, b: string, c: string, sep: string)
    ensures Join([a, b, c], sep) == a + sep + b + sep + c
  {
    assert [a, b, c][1..] == [b, c] && [b, c][1..] == [c];
    assert Join([b, c], sep) == b + sep + c;
    assert a + sep + (b + sep + c) == a + sep + b + sep + c;
  }

  /** Styles under three conditions that must all hold. */
  lemma AndOfThree<S>(e1: (string, MediaValue), e2: (string, MediaValue), e3: (string, MediaValue), styles: S)
    ensures MediaAnd([e1, e2, e3], styles)
      == AtMedia(Segment(e1.0, e1.1) + " and " + Segment(e2.0, e2.1) + " and " + Segment(e3.0, e3.1), styles)
  {
    ThreeEntries(e1, e2, e3, And);
  }

  /** `media.mobileLandscape.css(styles)`: the styles under the three
      conditions of the shortcut, all of which must hold. */
  function MobileLandscape<S>(styles: S): (b: Block<S>)
    ensures b == AtMedia(Segment("orientation", Str("landscape")) + " and "
      + Segment("maxHeight", Number(500)) + " and " + Segment("pointer", Str("coarse")), styles)
  {
    AndOfThree(MobileLandscapeCondition[0], MobileLandscapeCondition[1], MobileLandscapeCondition[2], styles);
    MediaAnd(MobileLandscapeCondition, styles)
  }
}

/** Concrete media queries from the helpers' documentation. */
module MediaQueryExamples {
  import opened Decimal
  import opened Text
  import opened MediaQuery

  /** A segment from its two halves, for concrete entries. */
  lemma SegmentOf(key: string, value: MediaValue, kebab: string, text: string, expected: string)
    requires NormalizeMediaKey(key) == kebab && FormatValue(kebab, value) == text
    requires "(" + kebab + ": " + text + ")" == expected
    ensures Segment(key, value) == expected
  {
  }

  lemma FormatString(kebab: string, text: string)
    ensures FormatValue(kebab, Str(text)) == text
  {
  }

  lemma KeyMinWidth()
    ensures NormalizeMediaKey("minWidth") == "min-width"
  {
    OneHump("min", 'W', "idth");
    assert "min" + ['W'] + "idth" == "minWidth";
    assert "min" + ['-', ToLower('W')] + "idth" == "min-width";
  }

  lemma Px768()
    ensures FormatValue("min-width", Number(768)) == "768px"
  {
    assert "min-width" !in UnitlessKeys;
    assert ShowNat(76) == "76";
  }

  lemma TextMinWidth768()
    ensures "(" + "min-width" + ": " + "768px" + ")" == "(min-width: 768px)"
  {
  }

  lemma Segment768()
    ensures Segment("minWidth", Number(768)) == "(min-width: 768px)"
  {
    KeyMinWidth();
    Px768();
    TextMinWidth768();
    SegmentOf("minWidth", Number(768), "min-width", "768px", "(min-width: 768px)");
  }

  lemma KeyOrientation()
    ensures NormalizeMediaKey("orientation") == "orientation"
  {
    NormalizeIdentity("orientation");
  }

  lemma TextLandscape()
    ensures "(" + "orientation" + ": " + "landscape" + ")" == "(orientation: landscape)"
  {
  }

  lemma SegmentLandscape()
    ensures Segment("orientation", Str("landscape")) == "(orientation: landscape)"
  {
    KeyOrientation();
    TextLandscape();
    FormatString("orientation", "landscape");
    SegmentOf("orientation", Str("landscape"), "orientation", "landscape", "(orientation: landscape)");
  }

  /** The query of a two-entry condition. */
  lemma TwoEntries(e1: (string, MediaValue), e2: (string, MediaValue), combinator: Combinator)
    ensures ToMediaString([e1, e2], combinator)
      == Segment(e1.0, e1.1) + Separator(combinator) + Segment(e2.0, e2.1)
  {
    var segs := Segments([e1, e2]);
    var sep := Separator(combinator);
    assert segs[1..] == [Segment(e2.0, e2.1)];
    assert Join(segs[1..], sep) == Segment(e2.0, e2.1);
    assert Join(segs, sep) == segs[0] + sep + Join(segs[1..], sep);
  }

  lemma TextAnd()
    ensures "(min-width: 768px)" + " and " + "(orientation: landscape)"
      == "(min-width: 768px) and (orientation: landscape)"
  {
  }

  lemma AndExample()
    ensures ToMediaString([("minWidth", Number(768)), ("orientation", Str("landscape"))], And)
      == "(min-width: 768px) and (orientation: landscape)"
  {
    TwoEntries(("minWidth", Number(768)), ("orientation", Str("landscape")), And);
    Segment768();
    SegmentLandscape();
    TextAnd();
  }

  lemma KeyMaxWidth()
    ensures NormalizeMediaKey("maxWidth") == "max-width"
  {
    OneHump("max", 'W', "idth");
    assert "max" + ['W'] + "idth" == "maxWidth";
    assert "max" + ['-', ToLower('W')] + "idth" == "max-width";
  }

  lemma Px1024()
    ensures FormatValue("max-width", Number(1024)) == "1024px"
  {
    assert "max-width" !in UnitlessKeys;
    assert ShowNat(10) == "10";
    assert ShowNat(102) == "102";
  }

  lemma TextMaxWidth1024()
    ensures "(" + "max-width" + ": " + "1024px" + ")" == "(max-width: 1024px)"
  {
  }

  lemma Segment1024()
    ensures Segment("maxWidth", Number(1024)) == "(max-width: 1024px)"
  {
    KeyMaxWidth();
    Px1024();
    TextMaxWidth1024();
    SegmentOf("maxWidth", Number(1024), "max-width", "1024px", "(max-width: 1024px)");
  }

  lemma KeyAspectRatio()
    ensures NormalizeMediaKey("aspectRatio") == "aspect-ratio"
  {
    OneHump("aspect", 'R', "atio");
    assert "aspect" + ['R'] + "atio" == "aspectRatio";
    assert "aspect" + ['-', ToLower('R')] + "atio" == "aspect-ratio";
  }

  lemma TextAspectRatio()
    ensures "(" + "aspect-ratio" + ": " + "16/9" + ")" == "(aspect-ratio: 16/9)"
  {
  }

  lemma SegmentAspectRatio()
    ensures Segment("aspectRatio", Str("16/9")) == "(aspect-ratio: 16/9)"
  {
    KeyAspectRatio();
    TextAspectRatio();
    FormatString("aspect-ratio", "16/9");
    SegmentOf("aspectRatio", Str("16/9"), "aspect-ratio", "16/9", "(aspect-ratio: 16/9)");
  }

  lemma TextOr()
    ensures "(max-width: 1024px)" + ", " + "(aspect-ratio: 16/9)"
      == "(max-width: 1024px), (aspect-ratio: 16/9)"
  {
  }

  lemma OrExample()
    ensures ToMediaString([("maxWidth", Number(1024)), ("aspectRatio", Str("16/9"))], Or)
      == "(max-width: 1024px), (aspect-ratio: 16/9)"
  {
    TwoEntries(("maxWidth", Number(1024)), ("aspectRatio", Str("16/9")), Or);
    Segment1024();
    SegmentAspectRatio();
    TextOr();
  }

  lemma KeyMaxHeight()
    ensures NormalizeMediaKey("maxHeight") == "max-height"
  {
    OneHump("max", 'H', "eight");
    assert "max" + ['H'] + "eight" == "maxHeight";
    assert "max" + ['-', ToLower('H')] + "eight" == "max-height";
  }

  lemma Px500()
    ensures FormatValue("max-height", Number(500)) == "500px"
  {
    assert "max-height" !in UnitlessKeys;
    assert ShowNat(50) == "50";
  }

  lemma TextMaxHeight500()
    ensures "(" + "max-height" + ": " + "500px" + ")" == "(max-height: 500px)"
  {
  }

  lemma Segment500()
    ensures Segment("maxHeight", Number(500)) == "(max-height: 500px)"
  {
    KeyMaxHeight();
    Px500();
    TextMaxHeight500();
    SegmentOf("maxHeight", Number(500), "max-height", "500px", "(max-height: 500px)");
  }

  lemma TextCoarse()
    ensures "(" + "pointer" + ": " + "coarse" + ")" == "(pointer: coarse)"
  {
  }

  lemma SegmentCoarse()
    ensures Segment("pointer", Str("coarse")) == "(pointer: coarse)"
  {
    NormalizeIdentity("pointer");
    FormatString("pointer", "coarse");
    TextCoarse();
    SegmentOf("pointer", Str("coarse"), "pointer", "coarse", "(pointer: coarse)");
  }

  /** The mobile-landscape shortcut wraps styles in one fixed query. */
  lemma TextMobileLandscape()
    ensures "(orientation: landscape)" + " and " + "(max-height: 500px)" + " and " + "(pointer: coarse)"
      == "(orientation: landscape) and (max-height: 500px) and (pointer: coarse)"
  {
    TextLandscapeHeight();
    TextLandscapeHeightCoarse();
  }

  lemma TextLandscapeHeight()
    ensures "(orientation: landscape)" + " and " + "(max-height: 500px)"
      == "(orientation: landscape) and (max-height: 500px)"
  {
  }

  lemma TextLandscapeHeightCoarse()
    ensures "(orientation: landscape) and (max-height: 500px)" + " and " + "(pointer: coarse)"
      == "(orientation: landscape) and (max-height: 500px) and (pointer: coarse)"
  {
  }

  lemma MobileLandscapeQuery<S>(styles: S)
    ensures MobileLandscape(styles)
      == AtMedia("(orientation: landscape) and (max-height: 500px) and (pointer: coarse)", styles)
  {
    SegmentLandscape();
    Segment500();
    SegmentCoarse();
    TextMobileLandscape();
  }
}
