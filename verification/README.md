# Clock app core in Dafny

This project models the pure logic of a React/Redux world-clock app (two city
clocks, a theme switcher, a login form) and proves properties about it. The
modelled parts are:

- **Identifier classification** (`detectInputType`). The email and US/Taiwan
  phone regular expressions become flat patterns. Matching is defined by
  decomposition into chunks.
- **Date and time helpers.**
  - The `Date.UTC` arithmetic behind `getNextMidnightTimestamp`, following
    section 21.4.1 of ECMA-262 (DayFromYear, MakeDay, MakeDate, TimeClip,
    and the 0..99 year rule of `Date.UTC`).
  - The `H:M:S` split of `getTimeInZone`, with `parseInt`.
  - `getErrorMessage`.
- **Responsive-design helpers.**
  - camelCase to kebab-case key normalisation.
  - Media-query strings built from condition records, joined with ` and ` or
    `, ` (sections 2.1 and 2.5 of W3C Media Queries Level 4).
  - The `media`, `media.or`, `media.and`, `media.raw` and `media.mobileLandscape`
    wrappers.
  - The breakpoint and media-query tables.
  - The breakpoint and device-type ladders, with `matchMedia('(min-width: n)')`
    read as `width >= n`.
  - `rwd()` as a base style plus an ordered list of (query, style) blocks. The
    own-key order of JavaScript objects is included: array-index keys come first,
    ascending, then the others in insertion order (section 10.1.11.1 of
    ECMA-262).
- **Redux slices as pure transition functions:** theme, auth (including the
  pending/fulfilled/rejected cases of the `login` thunk), per-zone dates, clock
  and app. The loop that fills the date slice at start-up is a method.
- **Integer logic of the clock and UI components:**
  - hand animation delays;
  - numeral angles and labels;
  - marker and tick layout;
  - the day shown on a luxury clock face;
  - the clock-face menu (stagger delays, option to mode/face mapping, desktop
    no-op, active flag, visibility);
  - the credentials payload of the login form.

Style objects are a type parameter `S`. A falsy style is `None`. Intl
formatting is a parameter or an input throughout. So are the current time and
`matchMedia`.

The model follows the code where the code and its comments disagree:

- `getNextMidnightTimestamp` is documented as the next midnight *in the time
  zone*. The code returns `Date.UTC(y, m - 1, d + 1)`, which is 00:00 **UTC** of
  the next zone-local date. `CivilDate.NextMidnightTimestamp` models the code.
- The doc comment of `media.or` shows `(max-width: 768)` without a unit. The
  code appends `px` to numeric values of non-unitless features, and so does
  `MediaQuery.Segment`.
- The `xs` entry of the media-query table is `(min-width: 575px)`, one pixel
  below `sm`. It is never consulted by `useBreakpoint`, and `rwd` never wraps
  `xs`: it is the base style.

## Model

| member | source | states |
|---|---|---|
| `InputType.DetectInputType` | src/utils.ts:14-20 | The result is email iff the email regex matches; phone iff the phone regex matches (the email test runs first); username iff neither matches. |
| `InputType.EmailIff` | src/utils.ts:15 | The email regex matches exactly the strings made of a part before a single `@`, then text with a `.` that has non-empty, space-free text on both sides. |
| `InputType.EmailIsNeverPhone` | src/utils.ts:15-18 | No string matches both regexes, so exactly one type is returned. |
| `InputType.AtSignIsNeverPhone` | src/utils.ts:16 | A string containing `@` never matches the phone regex. |
| `InputType.ShortInputIsNeverPhone` | src/utils.ts:16 | Every phone alternative needs at least seven characters. |
| `InputType.ShortInputIsUsername` | src/utils.ts:15-19 | Inputs shorter than five characters, the empty one included, are usernames. |
| `InputTypeExamples.SevenDigitsArePhone` | src/utils.ts:16 | `5551234` is a phone number because the area code is optional. |
| `InputTypeExamples.TenDigitsArePhone` | src/utils.ts:16 | `5551234567` is a phone number. |
| `InputTypeExamples.UsInternationalIsPhone` | src/utils.ts:16 | `+1 555-123-4567` is a phone number. |
| `InputTypeExamples.TaiwanMobileIsPhone` | src/utils.ts:16 | `0912345678` is a phone number. |
| `InputTypeExamples.TaiwanInternationalIsPhone` | src/utils.ts:16 | `+886 912345678` is a phone number. |
| `InputTypeExamples.EmailExample` | src/utils.ts:15 | `user@example.com` is an email. |
| `InputTypeExamples.UsernameExamples` | src/utils.ts:17-19 | The empty string and `alice` are usernames. |
| `Pattern.MatchOfChunks` | src/utils.ts:15-16 | A split of the input into chunks, each accepted by its pattern piece, is a match of the whole pattern. |
| `Pattern.ChunksOfMatch` | src/utils.ts:15-16 | Every match splits into such chunks: the converse of MatchOfChunks. |
| `Pattern.MatchAtLeastMinLength` | src/utils.ts:16 | A match is at least as long as the pattern's minimal length. |
| `Pattern.MatchAvoids` | src/utils.ts:15-16 | A character no piece accepts never occurs in a match. |
| `CivilDate.DateUtc` | src/utils.ts:90 | A `Date.UTC` result that is not NaN is a whole number of days, within the time-value range. |
| `CivilDate.NextMidnightTimestamp` | src/utils.ts:86-90 | The next-midnight value is always a multiple of 86 400 000 ms. |
| `CivilDate.Successor` | src/utils.ts:88-90 | The day after a valid calendar date is a valid calendar date. |
| `CivilDate.EpochDayIsMakeDay` | src/utils.ts:90 | The day number of a date is what MakeDay gives for its year, zero-based month and day, the arguments `Date.UTC` receives. |
| `CivilDate.SuccessorIsNextDay` | src/utils.ts:88-90 | The successor's day number is one more than the date's. |
| `CivilDate.EpochDayInjective` | src/utils.ts:90 | Distinct valid dates have distinct day numbers. |
| `CivilDate.EpochDayIncreases` | src/utils.ts:90 | Day numbers follow calendar order. |
| `CivilDate.NextMidnightIsSuccessorMidnight` | src/utils.ts:86-90 | For years outside 0..99, the result is 00:00 UTC of the successor date, one day after the date's own 00:00 UTC. |
| `CivilDate.NextMidnightIdentifiesSuccessor` | src/utils.ts:86-90 | The result is the 00:00 UTC of a valid date x iff x is the successor. |
| `CivilDate.YearRollover` | src/utils.ts:88-90 | December 31 rolls over to January 1 of the next year. |
| `CivilDate.MonthRollover` | src/utils.ts:88-90 | The last day of a month rolls over to the first of the next month. |
| `CivilDate.LeapDay` | src/utils.ts:88-90 | February 28 is followed by February 29 in leap years and by March 1 otherwise. |
| `CivilDate.TwoDigitYears` | src/utils.ts:90 | `Date.UTC` reads years 0..99 as 1900..1999. |
| `CivilDate.NextMidnightExample` | src/utils.ts:86-90 | The local date 2025-05-01 gives 1746144000000, which is 2025-05-02T00:00Z. |
| `ZoneTime.TimeInZone` | src/utils.ts:43-48 | The hour is always present; minutes are present iff the text has a `:`; seconds iff it has two. |
| `ZoneTime.TimeInZoneReadsDigits` | src/utils.ts:43-48 | Three digit groups joined by `:` read back as their three integer values. |
| `ZoneTime.TimeInZoneRoundTrip` | src/utils.ts:43-48 | A zero-padded `HH:MM:SS` rendering reads back as the hour, minutes and seconds. |
| `ErrorMessage.GetErrorMessage` | src/utils.ts:210-218 | An Error gives its message, a string gives itself, and anything else gives `An unknown error occurred`. |
| `ErrorMessage.MessageIsFixedPoint` | src/utils.ts:210-218 | Re-throwing an extracted message as a string extracts the same message. |
| `ErrorMessage.BlankOnlyWhenCarried` | src/utils.ts:210-218 | The message is blank iff the thrown Error or string carried a blank message; the fallback text is never blank. |
| `Text.Split` | src/utils.ts:45 | A split on one character has one more piece than the separator's occurrences, and no piece contains the separator. |
| `Text.SplitThenJoin` | src/utils.ts:45 | Joining the pieces of a split with the separator rebuilds the string. |
| `Text.JoinThenSplit` | src/utils.ts:45 | Splitting a join of separator-free pieces gives the pieces back. |
| `JsNumber.ParseInt` | src/utils.ts:47 | `parseInt(s, 10)` is an integer or NaN. |
| `JsNumber.ParseIntOfDigits` | src/utils.ts:47 | `parseInt` of a digit run followed by a non-digit reads the digit run. |
| `JsNumber.ParseIntShowNat` | src/utils.ts:47 | `parseInt` reads back the decimal rendering of a natural number. |
| `JsNumber.ToNumberOfDigits` | src/components/clock/ClockDateDay.tsx:20 | `Number` of a non-empty digit string is its decimal value, leading zeros ignored. |
| `JsNumber.ShortRunIsSafe` | src/utils.ts:47 | A run of at most fifteen digits is at most 2^53 - 1, where the exact value the model gives is the one JavaScript computes. |
| `JsNumber.ToNumberNaNIff` | src/components/clock/ClockDateDay.tsx:20 | `Number(s)` is NaN iff `s` without its surrounding white space is not a StringNumericLiteral (section 7.1.4.1.1 of ECMA-262). |
| `JsNumber.LiteralValueCases` | src/components/clock/ClockDateDay.tsx:20 | A trimmed string is NaN iff it is no numeric literal, and a non-empty one is an integer only when it is a signed digit run, with that run's signed value. |
| `JsNumber.ToNumberAgreesWithParseInt` | src/components/clock/ClockDateDay.tsx:20 | Where `Number` gives an integer for a non-blank string, `parseInt` gives the same integer. |
| `JsNumber.ToNumberIgnoresSpace` | src/components/clock/ClockDateDay.tsx:20 | White space around a literal does not change its value. |
| `JsNumber.OtherLiteralIsUnmodelled` | src/components/clock/ClockDateDay.tsx:20 | A numeric literal that is not a signed digit run is accepted, not NaN, and its value is left unevaluated. |
| `JsNumber.NotALiteralIsNaN` | src/components/clock/ClockDateDay.tsx:20 | `Number("abc")` and `Number("1a")` are NaN. |
| `JsNumber.DoubleSignIsNaN` | src/components/clock/ClockDateDay.tsx:20 | `Number("--1")` is NaN: a literal takes one sign. |
| `JsNumber.SignedHexIsNaN` | src/components/clock/ClockDateDay.tsx:20 | `Number("-0x1")` is NaN: a hexadecimal literal takes no sign. |
| `JsNumber.HexIsUnmodelled` | src/components/clock/ClockDateDay.tsx:20 | `Number("0x1F")` is a number (not NaN). |
| `JsNumber.FractionIsUnmodelled` | src/components/clock/ClockDateDay.tsx:20 | `Number("1.5")` is a number (not NaN). |
| `JsNumber.InfinityIsUnmodelled` | src/components/clock/ClockDateDay.tsx:20 | `Number("-Infinity")` is a number (not NaN). |
| `JsNumber.IntegerExamples` | src/components/clock/ClockDateDay.tsx:20 | `Number("42")` is 42 and `Number("")` is 0. |
| `Decimal.ShowNat` | src/rwd/mediaQueryHelpers.ts:56-57 | The decimal rendering of a number is non-empty, all digits, and has no leading zero. |
| `Decimal.ShowNatRoundTrip` | src/rwd/mediaQueryHelpers.ts:56-57 | Reading the rendering back gives the number. |
| `Decimal.ShowIntInjective` | src/rwd/mediaQueryHelpers.ts:56-57 | Distinct integers render differently. |
| `Decimal.CanonicalIsShowNat` | src/rwd/rwd.ts:76-85 | A digit string with no leading zero is the rendering of its own value. |
| `MediaQuery.NormalizeMediaKey` | src/rwd/mediaQueryHelpers.ts:11 | The kebab-case key has no upper-case letter, and is one character longer per upper-case letter of the input. |
| `MediaQuery.NormalizeConcat` | src/rwd/mediaQueryHelpers.ts:11 | Normalisation works character by character, so it distributes over concatenation. |
| `MediaQuery.OneHump` | src/rwd/mediaQueryHelpers.ts:11 | An upper-case letter becomes `-` plus its lower-case form, and other characters are kept. |
| `MediaQuery.NormalizeIdentity` | src/rwd/mediaQueryHelpers.ts:11 | A key with no upper-case letter is unchanged. |
| `MediaQuery.NormalizeIdempotent` | src/rwd/mediaQueryHelpers.ts:11 | Normalising twice equals normalising once. |
| `MediaQuery.Segment` | src/rwd/mediaQueryHelpers.ts:49-59 | Every condition entry yields one parenthesised segment. |
| `MediaQuery.FormatValue` | src/rwd/mediaQueryHelpers.ts:56-57 | A string value prints as itself and a boolean as `true`/`false`; a number ends in `px` exactly when its feature is not unitless. |
| `MediaQuery.NumberValueReadsBack` | src/rwd/mediaQueryHelpers.ts:56-57 | A numeric value prints so that `parseInt` reads the number back, with or without `px`. |
| `MediaQuery.PxSuffix` | src/rwd/mediaQueryHelpers.ts:33-47 | A numeric value's segment ends in `px)` iff its kebab key is not a unitless feature. |
| `MediaQuery.Segments` | src/rwd/mediaQueryHelpers.ts:49-59 | There is exactly one segment per entry, in entry order. Unknown features are kept. |
| `MediaQuery.UnknownFeatures` | src/rwd/mediaQueryHelpers.ts:49-54 | Every warned-about key is a key of the condition whose kebab form is not a known media feature, and every such key of the condition is warned about. |
| `MediaQuery.ToMediaString` | src/rwd/mediaQueryHelpers.ts:29-63 | The query is empty iff the condition has no entries. |
| `MediaQuery.AppendEntry` | src/rwd/mediaQueryHelpers.ts:49-62 | One more entry appends the separator and its segment to the query. |
| `MediaQuery.Media` | src/rwd/mediaQueryHelpers.ts:77-88 | An empty query returns the styles unwrapped; otherwise they are wrapped in `@media` with that query. `media.raw(query).css` behaves the same. |
| `MediaQuery.MediaOr` | src/rwd/mediaQueryHelpers.ts:109-129 | An empty condition returns the styles unwrapped; otherwise the query is the segments joined by `, `. |
| `MediaQuery.MediaAnd` | src/rwd/mediaQueryHelpers.ts:150-170 | An empty condition returns the styles unwrapped; otherwise the query is the segments joined by ` and `. |
| `MediaQueryExamples.TwoEntries` | src/rwd/mediaQueryHelpers.ts:61-62 | Two entries give segment, separator, segment. |
| `MediaQuery.ThreeEntries` | src/rwd/mediaQueryHelpers.ts:61-62 | Three entries give the three segments with a separator between each pair. |
| `MediaQueryExamples.Segment768` | src/rwd/mediaQueryHelpers.ts:21-28 | `minWidth: 768` becomes `(min-width: 768px)`. |
| `MediaQueryExamples.SegmentLandscape` | src/rwd/mediaQueryHelpers.ts:21-28 | `orientation: 'landscape'` becomes `(orientation: landscape)`. |
| `MediaQueryExamples.AndExample` | src/rwd/mediaQueryHelpers.ts:21-31 | `{minWidth: 768, orientation: 'landscape'}` gives `(min-width: 768px) and (orientation: landscape)`. |
| `MediaQueryExamples.OrExample` | src/rwd/mediaQueryHelpers.ts:109-129 | `or` joins `(max-width: 1024px)` and `(aspect-ratio: 16/9)` with `, `. |
| `MediaQuery.MobileLandscape` | src/rwd/mediaQueryHelpers.ts:207-211 | `mobileLandscape` wraps the styles in the `and` of its three segments: landscape orientation, `maxHeight` 500 and a coarse pointer. |
| `MediaQueryExamples.MobileLandscapeQuery` | src/rwd/mediaQueryHelpers.ts:207-211 | `mobileLandscape` wraps the styles in `(orientation: landscape) and (max-height: 500px) and (pointer: coarse)`. |
| `Breakpoints.MinWidth` | src/rwd/breakpoints.ts:14-20 | Only `xs` has threshold 0. |
| `Breakpoints.FiveKeys` | src/rwd/breakpoints.ts:14-20 | There are exactly five distinct keys. |
| `Breakpoints.ThresholdsIncrease` | src/rwd/breakpoints.ts:14-20 | Thresholds strictly increase in key order, `xs` < `sm` < `md` < `lg` < `xl`, and distinct keys have distinct thresholds. |
| `Breakpoints.QueryThreshold` | src/rwd/mediaQueries.ts:12-20 | The query threshold is the breakpoint for `sm`..`xl`, and one less than `sm` for `xs`. |
| `Breakpoints.XsQuery` | src/rwd/mediaQueries.ts:13 | The `xs` query is `(min-width: 575px)`. |
| `Breakpoints.QueryThresholdsIncrease` | src/rwd/mediaQueries.ts:13-17 | Query thresholds strictly ascend from `xs` to `xl`. |
| `Breakpoints.QueriesDistinct` | src/rwd/mediaQueries.ts:12-20 | The seven table queries are pairwise distinct. |
| `Breakpoints.MinWidthQueryInjective` | src/rwd/mediaQueries.ts:14-17 | A `(min-width: Npx)` query determines N. |
| `Viewport.SelectBreakpoint` | src/rwd/useBreakpoint.ts:18-22 | `xl` iff its query matches, else `lg`, `md`, `sm` in turn; `xs` iff none of them matches. |
| `Viewport.BreakpointIsLargestReached` | src/rwd/useBreakpoint.ts:12-23 | The active breakpoint is the largest key whose threshold the width reaches. |
| `Viewport.BreakpointMonotone` | src/rwd/useBreakpoint.ts:12-23 | A wider viewport never gives a smaller breakpoint. |
| `Viewport.XsBelowSm` | src/rwd/useBreakpoint.ts:22 | `xs` is active iff the width is below 576 px. |
| `Viewport.SelectDeviceType` | src/rwd/useDeviceType.ts:19-21 | Desktop iff the `lg` query matches; tablet iff `md` matches and `lg` does not; mobile otherwise. |
| `Viewport.DeviceTypeRanges` | src/rwd/useDeviceType.ts:15-22 | Desktop from 1024 px, tablet from 768 to 1023 px, mobile below 768 px. |
| `Viewport.DeviceTypeFollowsBreakpoint` | src/rwd/useDeviceType.ts:15-22 | The device type agrees with the breakpoint: desktop for `lg`/`xl`, tablet for `md`, mobile below. |
| `Rwd.BaseStyle` | src/rwd/rwd.ts:42 | The base style is the `xs` style when there is one, else none. |
| `Rwd.NamedQueryIsTableQuery` | src/rwd/rwd.ts:48-71 | Named keys other than `xs` map to the table queries: orientation or `(min-width: breakpoint px)`. |
| `Rwd.NamedBlocksCount` | src/rwd/rwd.ts:46-72 | There is one block per truthy, non-`xs` named entry. |
| `Rwd.NamedBlockOrigin` | src/rwd/rwd.ts:46-72 | Every named block comes from a truthy named entry, with that entry's query and style. |
| `Rwd.NamedBlocksAppend` | src/rwd/rwd.ts:45-72 | Named blocks keep entry order. |
| `Rwd.SortByIndexSorts` | src/rwd/rwd.ts:77 | Sorting array-index keys gives an ascending permutation of them. |
| `Rwd.InsertMultiset` | src/rwd/rwd.ts:77 | Insertion adds exactly the inserted entry. |
| `Rwd.OwnEntryOrderPermutes` | src/rwd/rwd.ts:77-89 | Record entries are visited as a permutation: array-index keys first, ascending, then the other keys. |
| `Rwd.WidthQueryOfIndex` | src/rwd/rwd.ts:76-97 | An integer key `N` yields `(min-width: Npx)` or `(max-width: Npx)`. |
| `Rwd.EntryBlocksCount` | src/rwd/rwd.ts:76-97 | There is one block per truthy record entry. Falsy entries are skipped (`continue`). |
| `Rwd.EntryBlockOrigin` | src/rwd/rwd.ts:76-97 | Every width block comes from a truthy entry, with that entry's query and style. |
| `Rwd.OwnEntryOrder` | src/rwd/rwd.ts:77-89 | `Object.entries` visits a permutation of the record's entries with the same number of truthy ones. |
| `Rwd.Rwd` | src/rwd/rwd.ts:40-101 | The output has exactly one block per truthy non-`xs` named entry and per truthy `minWidth` or `maxWidth` entry. |
| `Rwd.RwdRuns` | src/rwd/rwd.ts:45-100 | The blocks are the named blocks, then the `minWidth` blocks in visiting order, then the `maxWidth` blocks in visiting order, each run exactly as long as its count of truthy entries. |
| `Rwd.EntryBlocksOfStyled` | src/rwd/rwd.ts:76-97 | The blocks of a record are its truthy entries in visiting order, each wrapped in `(<feature>: <key>px)`, block i for truthy entry i. |
| `Rwd.RecordStyledOrder` | src/rwd/rwd.ts:77-89 | For a record with distinct keys, the truthy entries come out with the array-index keys first in strictly increasing numeric order, then the other keys. |
| `Rwd.SortedStyledIndexStrict` | src/rwd/rwd.ts:77-89 | With distinct keys, no two index-keyed blocks share a width, and they increase. |
| `Rwd.IndexValueInjective` | src/rwd/rwd.ts:77 | Two array-index keys with the same numeric value are the same key. |
| `Rwd.RecordBlockComplete` | src/rwd/rwd.ts:76-97 | Every truthy entry of a record yields its block. |
| `Rwd.RwdRecordsComplete` | src/rwd/rwd.ts:76-97 | Every truthy `minWidth` and `maxWidth` entry yields its block in the output. |
| `Rwd.RwdNamedRun` | src/rwd/rwd.ts:45-72 | The leading run of blocks comes from the named entries. |
| `Rwd.RwdMinWidthRun` | src/rwd/rwd.ts:76-85 | The next run consists of the `min-width` blocks of the `minWidth` entries. |
| `Rwd.RwdMaxWidthRun` | src/rwd/rwd.ts:88-97 | The last run consists of the `max-width` blocks of the `maxWidth` entries. |
| `Rwd.RecordBlockOrigin` | src/rwd/rwd.ts:76-97 | A width block of a record comes from one of its truthy entries. |
| `RwdExamples.NamedExample` | src/rwd/rwd.ts:40-101 | The `xs` style is the base; `md` and `landscape` give blocks in entry order; a falsy `lg` gives none. |
| `RwdExamples.OrderExample` | src/rwd/rwd.ts:77 | Keys `1024`, `wide`, `768` are visited as `768`, `1024`, `wide`. |
| `Theme.ToggleMode` | src/redux/themeReducer.ts:21-23 | Light becomes dark; dark and luxury become light; the face is kept. |
| `Theme.ToggleTwice` | src/redux/themeReducer.ts:22 | Toggling twice from light or dark restores the state. |
| `Theme.ToggleTwiceFromLuxury` | src/redux/themeReducer.ts:22 | Toggling twice from luxury ends in dark. |
| `Theme.SetMode` | src/redux/themeReducer.ts:24-26 | Sets exactly the given mode and keeps the face. |
| `Theme.SetClockFace` | src/redux/themeReducer.ts:27-29 | Sets the face and keeps the mode. |
| `Theme.SettersCommute` | src/redux/themeReducer.ts:24-29 | The two setters commute and together decide the whole state. |
| `Theme.FaceLabelInjective` | src/redux/themeReducer.ts:27-29 | Face labels name the faces one to one. |
| `Theme.FirstToggleFromInitial` | src/redux/themeReducer.ts:8-11 | The theme starts light with the minimalist face, so the first toggle gives dark with the same face. |
| `Auth.InitialAuth` | src/redux/authReducer.ts:9-15 | The initial state has no user, no error, no loading and a hidden error. The token is the stored one. |
| `Auth.LogoutUser` | src/redux/authReducer.ts:61-68 | Logout resets all five fields, token included. |
| `Auth.LogoutIdempotent` | src/redux/authReducer.ts:61-68 | Logging out twice equals logging out once. |
| `Auth.SetUserFromStorage` | src/redux/authReducer.ts:69-71 | Sets only the access token. |
| `Auth.ShowError` | src/redux/authReducer.ts:72-74 | Sets only the error-visible flag. |
| `Auth.ClearError` | src/redux/authReducer.ts:75-78 | Clears and hides the error, and nothing else. |
| `Auth.LoginPending` | src/redux/authReducer.ts:86-89 | Starts loading and clears the error. User, token and visibility are kept. |
| `Auth.LoginFulfilled` | src/redux/authReducer.ts:90-96 | Stops loading and stores the response and its token. The error is untouched. |
| `Auth.LoginRejected` | src/redux/authReducer.ts:97-101 | Stops loading, drops the token and stores the message. The user is kept. |
| `Auth.LoadingOnlyWhilePending` | src/redux/authReducer.ts:63-99 | Loading is off after fulfilled, rejected and logout, and on after pending. |
| `Auth.Settle` | src/redux/authReducer.ts:41-44 | A settled login is either fulfilled or rejected. |
| `Auth.LoginRoundOutcome` | src/redux/authReducer.ts:41-44 | A pending-then-settled round stores the response on success, and the extracted message and no token on failure. |
| `Auth.UnknownFailure` | src/redux/authReducer.ts:41-44 | A failure with a non-Error, non-string value stores `An unknown error occurred`. |
| `ZoneDate.SetFormattedDate` | src/redux/dateReducer.ts:20-22 | Stores the date for the zone and leaves every other zone unchanged. |
| `ZoneDate.LaterSetWins` | src/redux/dateReducer.ts:21 | A later set for the same zone overwrites the earlier one. |
| `ZoneDate.SetIdempotent` | src/redux/dateReducer.ts:21 | Repeating a set changes nothing. |
| `ZoneDate.SetsCommute` | src/redux/dateReducer.ts:20-22 | Sets for different zones commute. |
| `ZoneDate.InitializeZoneDates` | src/redux/dateReducer.ts:66-69 | After the start-up loop, each listed zone holds format(now, zone), the keys are the old keys plus the zones, and other zones keep their dates. |
| `ClockState.InitialClock` | src/redux/clockReducer.ts:9-19 | The initial state holds `now` and the Taipei and Los Angeles zones with empty labels. |
| `ClockState.KeepUnlessZone` | src/redux/clockReducer.ts:36-41 | An incoming value replaces the old one iff it is a zone object; otherwise the old value stays. |
| `ClockState.UpdateClocks` | src/redux/clockReducer.ts:34-42 | Sets `now`. Replaces `tpe` and `lv` only with object payload values. Leaves every other key unchanged. |
| `ClockState.ZonesStayConfigured` | src/redux/clockReducer.ts:34-42 | Once both cities have zones, no update loses them. |
| `ClockState.UpdateIdempotent` | src/redux/clockReducer.ts:34-42 | Applying the same update twice equals applying it once. |
| `ClockState.FullPayload` | src/redux/clockReducer.ts:34-42 | A full payload is stored as given. |
| `AppState.InitialApp` | src/redux/appReducer.ts:6-13 | The app starts unbooted. |
| `AppState.AppSetStatus` | src/redux/appReducer.ts:15-17 | Sets booted and keeps the environment, build time and user. |
| `AppState.AppSetStatusIdempotent` | src/redux/appReducer.ts:15-17 | Setting the status twice equals once. |
| `AppState.AppBoot` | src/redux/appReducer.ts:24-26 | Booting dispatches exactly one status action. |
| `AppState.BootBoots` | src/redux/appReducer.ts:24-26 | Booting from the initial state ends booted, with all else unchanged. |
| `AppState.BootedStays` | src/redux/appReducer.ts:15-26 | Once booted, any sequence of actions, the app's own or other slices', keeps the app booted. |
| `AppState.ReduceAllBootsOnStatus` | src/redux/appReducer.ts:4-22 | After any sequence of actions the app is booted iff it was booted or a status action was dispatched, and no other field changes. |
| `AppState.UnbootedWithoutStatus` | src/redux/appReducer.ts:4-22 | Without a status action an unbooted app is left exactly as it was. |
| `ClockHands.JsRem` | src/components/clock/ClockHands.tsx:45 | `%` truncates toward zero: the remainder takes the dividend's sign. |
| `ClockHands.Delays` | src/components/clock/ClockHands.tsx:43-51 | The second delay is -secs, the minute delay -60·mins, and the hour hand's offset -3600·(hour % 12) - 60·mins. |
| `ClockHands.DelaysWithinOneTurn` | src/components/clock/ClockHands.tsx:43-51 | For a clock reading, each delay lies within one period of its hand: [-59, 0], [-3540, 0] in steps of 60, and [-43140, 0]. |
| `ClockHands.TwelveHourDial` | src/components/clock/ClockHands.tsx:45 | Hours h and h + 12 give the same delays, and so do 0, 12 and 24. |
| `ClockHands.HourDelayDecodes` | src/components/clock/ClockHands.tsx:45-51 | The hour hand's offset encodes the hour on the dial and the minutes. |
| `ClockHands.CityZone` | src/components/clock/ClockHands.tsx:34-37 | A city's zone is read from its clock entry when that is an object, else it is empty. |
| `ClockHands.InitialCityZones` | src/components/clock/ClockHands.tsx:34-37 | Initially the two cities read their configured zones. |
| `ClockHands.ShowsDateDay` | src/components/clock/ClockHands.tsx:52 | The day of the month is shown iff the mode is luxury. |
| `ClockNumerals.NumeralCount` | src/components/clock/ClockNumerals.tsx:22 | There are four numerals in luxury mode and twelve otherwise. |
| `ClockNumerals.Step` | src/components/clock/ClockNumerals.tsx:23 | The step times the count is a full turn. |
| `ClockNumerals.Deg` | src/components/clock/ClockNumerals.tsx:28 | A numeral's angle is within one turn, below 360 degrees. |
| `ClockNumerals.HourOf` | src/components/clock/ClockNumerals.tsx:29 | A numeral stands for an hour from 1 to 12: the fallback to 12 never leaves 0. |
| `ClockNumerals.Label` | src/components/clock/ClockNumerals.tsx:35 | Luxury labels are Roman numerals; the other modes show the numeral's hour in decimal. |
| `ClockNumerals.Numerals` | src/components/clock/ClockNumerals.tsx:21-38 | One numeral per position, each with its angle and label. |
| `ClockNumerals.FirstAtTop` | src/components/clock/ClockNumerals.tsx:28-29 | The first numeral sits at 270 degrees (the top) and stands for 12. |
| `ClockNumerals.AnglesDistinct` | src/components/clock/ClockNumerals.tsx:28 | No two numerals share an angle. |
| `ClockNumerals.RomanInRange` | src/components/clock/ClockNumerals.tsx:29-35 | The Roman-numeral index is always in 0..11. |
| `ClockNumerals.LuxuryLabels` | src/components/clock/ClockNumerals.tsx:21-35 | Luxury mode shows XII, III, VI and IX at 270, 0, 90 and 180 degrees. |
| `ClockNumerals.ArabicLabels` | src/components/clock/ClockNumerals.tsx:29-35 | Other modes show 12, 1, ..., 11, each equal to the numeral's hour. |
| `ClockNumerals.NumeralOnItsTick` | src/components/clock/ClockNumerals.tsx:28-29 | Each numeral sits a quarter turn from the hour tick it stands for. |
| `ClockMarkers.Markers` | src/components/clock/ClockMarkers.tsx:30-47 | There are 60 markers, each drawn with the bar glyph and keyed `marker-i`, with its position and hour flag. |
| `ClockMarkers.PercentageInRange` | src/components/clock/ClockMarkers.tsx:31-37 | Positions lie in [0, 100), and only the first marker is at 0. |
| `ClockMarkers.PercentageIncreasing` | src/components/clock/ClockMarkers.tsx:31-37 | Positions strictly increase with the index. |
| `ClockMarkers.MarkerKeysDistinct` | src/components/clock/ClockMarkers.tsx:41 | Marker keys are pairwise distinct. |
| `ClockMarkers.HourMarksAreTwelve` | src/components/clock/ClockMarkers.tsx:38 | The hour marks are the markers 5h for h in 0..11. |
| `ClockMarkers.HourMarksInPrefix` | src/components/clock/ClockMarkers.tsx:38 | Among the first k markers, ceil(k / 5) are hour marks. |
| `ClockMarkers.TwelveHourMarks` | src/components/clock/ClockMarkers.tsx:30-38 | Exactly twelve markers are hour marks, marker 0 among them. |
| `ClockMarkers.HourMarkMeetsTick` | src/components/clock/ClockMarkers.tsx:37-38 | An hour mark sits at the same angle as the tick of its hour. |
| `ClockTicks.TickPalette` | src/components/clock/ClockTicks.tsx:19 | Light mode uses the default theme; dark and luxury use the dark theme. |
| `ClockTicks.TickAngle` | src/components/clock/ClockTicks.tsx:24 | Tick i is at 30·i degrees, below 360 for the twelve ticks. |
| `ClockTicks.Ticks` | src/components/clock/ClockTicks.tsx:23-24 | There are exactly twelve ticks, tick i carrying its angle as `<deg>deg`. |
| `ClockTicks.TicksEvenlySpaced` | src/components/clock/ClockTicks.tsx:24 | Neighbouring ticks are 30 degrees apart. |
| `ClockTicks.AngleTextInjective` | src/components/clock/ClockTicks.tsx:24 | Distinct ticks get distinct angle values. |
| `ClockTicks.TicksCoverDial` | src/components/clock/ClockTicks.tsx:23-24 | Every multiple of 30 below 360 is the angle of a tick. |
| `ClockDateDay.DayShown` | src/components/clock/ClockDateDay.tsx:19-20 | The day is defined iff the zone has a stored date with at least three `-`-separated fields; it is `Number` of the third field. |
| `ClockDateDay.DayOfPaddedDate` | src/components/clock/ClockDateDay.tsx:20 | A zero-padded `YYYY-MM-DD` date shows its day number. |
| `ClockDateDay.DayOfCalendarDate` | src/components/clock/ClockDateDay.tsx:20 | The `YYYY-MM-DD` form of a valid date shows that date's day, which is in 1..31. |
| `ClockDateDay.DayAfterSet` | src/components/clock/ClockDateDay.tsx:19-20 | After a zone's date is stored, that zone shows its day and other zones are unaffected. |
| `ClockDateDay.FirstOfMay` | src/components/clock/ClockDateDay.tsx:20 | `2025-05-01` shows 1: the leading zero is dropped. |
| `ClockDateDay.LastOfApril` | src/components/clock/ClockDateDay.tsx:20 | `2025-04-30` shows 30. |
| `Selector.ToggleOpen` | src/components/FloatingCollapseSelector.tsx:27-31 | Nothing happens on desktop; otherwise `open` flips and the animation starts. |
| `Selector.CloseMenu` | src/components/FloatingCollapseSelector.tsx:33-37 | Nothing happens on desktop; otherwise the menu closes and the animation starts. |
| `Selector.ToggleTwiceRestoresOpen` | src/components/FloatingCollapseSelector.tsx:27-31 | Toggling twice restores `open`. |
| `Selector.ClosingFadesOut` | src/components/FloatingCollapseSelector.tsx:33-37 | While closing, the options stay rendered; after the animation they are rendered only on desktop. |
| `Selector.Delay` | src/components/FloatingCollapseSelector.tsx:70-72 | Delays are multiples of 100 ms in [0, (n-1)·100]. Opening delays are index·100. |
| `Selector.DelaysMirror` | src/components/FloatingCollapseSelector.tsx:70-72 | The closing delay mirrors the opening one: the two sum to (n-1)·100. |
| `Selector.OptionsListEveryFaceOnce` | src/config/clocksConfig.ts:22-35 | Every face is offered, under pairwise distinct labels. |
| `Selector.ExactlyOneActive` | src/components/FloatingCollapseSelector.tsx:73 | An option is active iff its face is the current face, and at most one is active. |
| `Selector.ModeFor` | src/components/FloatingCollapseSelector.tsx:54 | The label `luxury` selects luxury mode; every other label selects light. |
| `Selector.HandleOptionClick` | src/components/FloatingCollapseSelector.tsx:53-58 | A click sets the face. It sets luxury mode iff the face is luxury, else light, and closes the menu. |
| `Selector.ClickedOptionActive` | src/components/FloatingCollapseSelector.tsx:53-73 | After a click, exactly the clicked option is active. |
| `LoginForm.BuildCredentials` | src/components/form/LoginForm.tsx:56-64 | The payload's identifier field is the detected type's. It carries the identifier and password unchanged. |
| `LoginForm.HandleSubmit` | src/components/form/LoginForm.tsx:54-67 | Email identifiers go as `email`, phone identifiers as `phone`, the rest as `username`. `rememberMe` is forwarded unchanged. |
| `LoginForm.CredentialsDetermined` | src/components/form/LoginForm.tsx:59-64 | A payload is fixed by its kind, identifier and password. |
| `LoginForm.SubmitIsUnique` | src/components/form/LoginForm.tsx:59-64 | The dispatched payload is the only one that agrees with the detected type. |
| `LoginForm.AtSignNeverSentAsPhone` | src/components/form/LoginForm.tsx:59-64 | An identifier with `@` is never sent as a phone number. |
| `LoginForm.EmptyIdentifierIsUsername` | src/components/form/LoginForm.tsx:59-66 | An empty identifier is sent as an empty username. |

## Left out

- Timer scheduling (src/utils.ts:103-156, src/redux/dateReducer.ts:29-52, src/hooks/useAnimationTimer.ts). `setTimeout`, `setInterval` and clock reads are not modelled. The animation timer is reduced to its flag and its expiry, `Selector.AnimationEnded`. The next-midnight arithmetic these timers use is modelled.
- Intl and the IANA time-zone database are not modelled. The zone-local date parts and formatted strings are inputs. So is the formatter of the date slice's start-up loop.
- Browser storage (`tokenStorage`, src/utils.ts:165-202), the network (fetchClient, userApi) and the async body of the `login` thunk are not modelled. The thunk's outcome is an input, `Auth.LoginOutcome`.
- Emotion CSS generation and the style tables are not modelled. That includes the numerals' trigonometry and `console.warn` (only the warned-about keys are computed, by `MediaQuery.UnknownFeatures`).
- ClockMarkers.Percentage: the position is an exact rational. The source computes a binary floating-point number and prints it with JavaScript's number-to-string conversion.
- JsNumber.ParseInt: a digit run is read as its exact unbounded value. JavaScript rounds values above 2^53 - 1 to the nearest double and gives `Infinity` for runs of 309 digits or more. `JsNumber.ShortRunIsSafe` shows runs of up to fifteen digits are exact; the source only parses date and time fields of at most four digits.
- JsNumber.ParseIntOfDigits: exact for every digit run, while JavaScript rounds above 2^53 - 1, for the reason given for `JsNumber.ParseInt`.
- JsNumber.ParseIntShowNat: every natural round-trips here; in JavaScript only the safe integers, up to 2^53 - 1, do.
- JsNumber.ToNumberOfDigits: `Number` of a digit run is its exact value here, while JavaScript rounds above 2^53 - 1 and gives `Infinity` for 309 digits or more.
- JsNumber.LiteralValueCases: a signed digit run gets its exact value, while JavaScript rounds above 2^53 - 1.
- JsNumber.ToNumber: the value of a numeric literal outside the signed decimal integer grammar is not evaluated. Fractions, exponents, `0x`/`0o`/`0b` literals and `Infinity` give `Unmodelled`; they are recognised, so they are not NaN. A string that is no numeric literal gives NaN. `-0` is not told apart from `0`.
- MediaQuery.FormatValue: a numeric condition value is an integer printed in decimal. JavaScript numbers with a fraction (`767.98`) or of magnitude 1e21 or more (printed in exponent form) are not modelled. Every condition in the source uses integers.
- MediaQuery.Segment: inherits the integer-only numeric values of `MediaQuery.FormatValue`, so segments such as `(min-width: 767.98px)` are not expressible.
- ClockHands.Delays: NaN from a malformed time string is not propagated. The delays are stated for integer readings.
- React rendering and hook plumbing are not modelled: `useMediaQuery` listeners, routing, store setup, click-outside listeners, icons and layouts. `matchMedia` is read as a width comparison.
- Rwd.OwnEntryOrder: the numeric record keys are modelled as the strings a JavaScript object holds. Keys that are not canonical array indices keep insertion order. A record is a list of entries; the order lemmas that need the distinct keys of a JavaScript object say so (`Rwd.DistinctKeys`).
