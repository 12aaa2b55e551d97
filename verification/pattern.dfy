/** A small regular-expression language for anchored patterns (`^...$`)
    built from character classes repeated between a minimum and a maximum
    number of times, with alternation between whole patterns. Optional groups
    of a regular expression are expanded into alternatives, since
    `(X)?Y` matches exactly what `XY | Y` matches. */
module Pattern {
  import opened Wrappers
  import opened Text

  datatype CharClass =
    | Char(c: char)                    // a literal character
    | AnyDigit                         // \d
    | DigitRange(lo: char, hi: char)   // [2-8]
    | SpaceOr(chars: seq<char>)        // [\s.-], [\s-]
    | NeitherSpaceNorAt                // [^\s@]

  predicate Accepts(cls: CharClass, c: char) {
    match cls
    case Char(d) => c == d
    case AnyDigit => '0' <= c <= '9'
    case DigitRange(lo, hi) => lo <= c <= hi
    case SpaceOr(chars) => IsJsSpace(c) || c in chars
    case NeitherSpaceNorAt => !IsJsSpace(c) && c != '@'
  }

  /** A character class with a repetition count; `max == None` is unbounded. */
  datatype Piece = Piece(cls: CharClass, min: nat, max: Option<nat>)

  function One(cls: CharClass): Piece { Piece(cls, 1, Some(1)) }
  function Optional(cls: CharClass): Piece { Piece(cls, 0, Some(1)) }
  function Times(cls: CharClass, n: nat): Piece { Piece(cls, n, Some(n)) }
  function Between(cls: CharClass, lo: nat, hi: nat): Piece { Piece(cls, lo, Some(hi)) }
  function OneOrMore(cls: CharClass): Piece { Piece(cls, 1, None) }

  /** A literal string, one piece per character. */
  function Literal(s: string): (ps: seq<Piece>)
    ensures |ps| == |s|
    ensures forall i :: 0 <= i < |s| ==> ps[i] == One(Char(s[i]))
  {
    if |s| == 0 then [] else [One(Char(s[0]))] + Literal(s[1..])
  }

  /** One piece matches a whole chunk: the length is within the count and
      every character is in the class. */
  predicate PieceMatches(p: Piece, chunk: string) {
    && p.min <= |chunk|
    && (p.max.None? || |chunk| <= p.max.value)
    && forall i :: 0 <= i < |chunk| ==> Accepts(p.cls, chunk[i])
  }

  /** The anchored pattern matches the whole of `s`. */
  predicate Matches(ps: seq<Piece>, s: string)
    decreases |ps|
  {
    if |ps| == 0 then |s| == 0
    else exists k :: 0 <= k <= |s| && PieceMatches(ps[0], s[..k]) && Matches(ps[1..], s[k..])
  }

  /** `^A$|^B$|...`: some alternative matches the whole of `s`. */
  predicate MatchesAny(alternatives: seq<seq<Piece>>, s: string) {
    exists i :: 0 <= i < |alternatives| && Matches(alternatives[i], s)
  }

  function Concat(chunks: seq<string>): (s: string) {
    if |chunks| == 0 then "" else chunks[0] + Concat(chunks[1..])
  }

  /** Concatenation distributes over a split of the chunk list. */
  lemma {:induction false} ConcatSplit(chunks: seq<string>, k: nat)
    requires k <= |chunks|
    ensures Concat(chunks) == Concat(chunks[..k]) + Concat(chunks[k..])
  {
    if k > 0 {
      ConcatSplit(chunks[1..], k - 1);
      assert chunks[1..][..k - 1] == chunks[..k][1..];
      assert chunks[1..][k - 1..] == chunks[k..];
    } else {
      assert chunks[..0] == [];
      assert chunks[0..] == chunks;
    }
  }

  lemma ConcatTwo(chunks: seq<string>)
    requires |chunks| == 2
    ensures Concat(chunks) == chunks[0] + chunks[1]
  {
    assert chunks[1..][1..] == [];
    assert Concat(chunks[1..]) == chunks[1] + "";
  }

  /** `s` splits into consecutive chunks, chunk i matched by piece i. */
  predicate Decomposes(ps: seq<Piece>, chunks: seq<string>, s: string) {
    && |chunks| == |ps|
    && Concat(chunks) == s
    && forall i :: 0 <= i < |ps| ==> PieceMatches(ps[i], chunks[i])
  }

  /** A decomposition into matching chunks is a match. */
  lemma {:induction false} MatchOfChunks(ps: seq<Piece>, chunks: seq<string>, s: string)
    requires Decomposes(ps, chunks, s)
    ensures Matches(ps, s)
  {
    if |ps| > 0 {
      var rest := Concat(chunks[1..]);
      assert Decomposes(ps[1..], chunks[1..], rest) by {
        forall i | 0 <= i < |ps| - 1
          ensures PieceMatches(ps[1..][i], chunks[1..][i])
        {
          assert PieceMatches(ps[i + 1], chunks[i + 1]);
        }
      }
      MatchOfChunks(ps[1..], chunks[1..], rest);
      var k := |chunks[0]|;
      assert s[..k] == chunks[0] && s[k..] == rest;
    }
  }

  /** Every match decomposes into chunks, one per piece. */
  lemma {:induction false} ChunksOfMatch(ps: seq<Piece>, s: string) returns (chunks: seq<string>)
    requires Matches(ps, s)
    ensures Decomposes(ps, chunks, s)
  {
    if |ps| == 0 {
      chunks := [];
    } else {
      var k :| 0 <= k <= |s| && PieceMatches(ps[0], s[..k]) && Matches(ps[1..], s[k..]);
      var rest := ChunksOfMatch(ps[1..], s[k..]);
      chunks := [s[..k]] + rest;
      assert chunks[1..] == rest;
      assert s == s[..k] + s[k..];
      forall i | 0 <= i < |ps|
        ensures PieceMatches(ps[i], chunks[i])
      {
        if i > 0 {
          assert PieceMatches(ps[1..][i - 1], rest[i - 1]);
        }
      }
    }
  }

  /** Total of the minimum counts: the shortest length any match can have. */
  function MinLength(ps: seq<Piece>): nat {
    if |ps| == 0 then 0 else ps[0].min + MinLength(ps[1..])
  }

  lemma {:induction false} MinLengthAppend(a: seq<Piece>, b: seq<Piece>)
    ensures MinLength(a + b) == MinLength(a) + MinLength(b)
  {
    if |a| > 0 {
      MinLengthAppend(a[1..], b);
      assert (a + b)[1..] == a[1..] + b;
    } else {
      assert a + b == b;
    }
  }

  /** A match is at least as long as the pattern's minimum length. */
  lemma {:induction false} MatchAtLeastMinLength(ps: seq<Piece>, s: string)
    requires Matches(ps, s)
    ensures |s| >= MinLength(ps)
  {
    if |ps| > 0 {
      var k :| 0 <= k <= |s| && PieceMatches(ps[0], s[..k]) && Matches(ps[1..], s[k..]);
      MatchAtLeastMinLength(ps[1..], s[k..]);
    }
  }

  /** A character that no class of the pattern accepts never occurs in a match. */
  lemma {:induction false} MatchAvoids(ps: seq<Piece>, s: string, c: char)
    requires Matches(ps, s)
    requires forall i :: 0 <= i < |ps| ==> !Accepts(ps[i].cls, c)
    ensures c !in s
  {
    if |ps| > 0 {
      var k :| 0 <= k <= |s| && PieceMatches(ps[0], s[..k]) && Matches(ps[1..], s[k..]);
      MatchAvoids(ps[1..], s[k..], c);
      assert s == s[..k] + s[k..];
    }
  }
}
