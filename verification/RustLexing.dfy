// What the masker means by a comment or a literal: how each kind of segment
// opens and where it ends, and the unique division of a text into segments.

module RustLexing {
  import opened PyStrings

  datatype Kind = Code | LineComment | BlockComment | PlainString | RawString | CharLiteral

  // The half-open range text[lo..hi].
  datatype Segment = Segment(kind: Kind, lo: nat, hi: nat)

  // ======== Raw strings ========

  /** Length of the raw-string prefix `br` or `r` at i, 0 when there is none. */
  function RawPrefix(text: string, i: nat): nat {
    if PairAt(text, i, 'b', 'r') then 2 else if i < |text| && text[i] == 'r' then 1 else 0
  }

  /** A quote at e followed by n hashes. */
  predicate FenceAt(text: string, e: nat, n: nat) {
    e + n < |text| && text[e] == '\"' && forall k | e < k <= e + n :: text[k] == '#'
  }

  /** A raw string opens at lo: prefix of length p, n hashes, a quote. */
  ghost predicate RawOpens(text: string, lo: nat, p: nat, n: nat) {
    && ((p == 2 && PairAt(text, lo, 'b', 'r')) || (p == 1 && lo < |text| && text[lo] == 'r'))
    && lo + p + n < |text| && text[lo + p + n] == '\"'
    && forall k :: lo + p <= k < lo + p + n ==> text[k] == '#'
  }

  function SkipHashes(text: string, c: nat): (q: nat)
    ensures c <= q && (c <= |text| ==> q <= |text|)
    ensures q < |text| ==> text[q] != '#'
    decreases |text| - c
  {
    if c < |text| && text[c] == '#' then SkipHashes(text, c + 1) else c
  }

  lemma {:induction false} SkipsOnlyHashes(text: string, c: nat)
    ensures forall k :: c <= k < SkipHashes(text, c) && k < |text| ==> text[k] == '#'
    decreases |text| - c
  {
    if c < |text| && text[c] == '#' {
      SkipsOnlyHashes(text, c + 1);
    }
  }

  lemma {:induction false} SkipStopsAt(text: string, c: nat, q: nat)
    requires c <= q < |text| && text[q] != '#' && forall k :: c <= k < q ==> text[k] == '#'
    ensures SkipHashes(text, c) == q
    decreases q - c
  {
    if c < q {
      SkipStopsAt(text, c + 1, q);
    }
  }

  /** The end of the first fence of n hashes at or after e, or of the text. */
  function FenceEnd(text: string, e: nat, n: nat): (hi: nat)
    requires e <= |text|
    ensures e <= hi <= |text|
    decreases |text| - e
  {
    if e == |text| then |text| else if FenceAt(text, e, n) then e + n + 1 else FenceEnd(text, e + 1, n)
  }

  // ======== Escapes ========

  /** How many backslashes stand directly before i, counting back no further than lo + 1. */
  function Backslashes(text: string, lo: nat, i: nat): nat
    requires i <= |text|
  {
    if lo + 1 < i && text[i - 1] == '\\' then 1 + Backslashes(text, lo, i - 1) else 0
  }

  /** The character at i, inside a literal opened at lo, is not escaped. */
  predicate Live(text: string, lo: nat, i: nat)
    requires i < |text|
  {
    Backslashes(text, lo, i) % 2 == 0
  }

  function StringEnd(text: string, i: nat): (hi: nat)
    requires i <= |text|
    ensures i <= hi <= |text|
    decreases |text| - i
  {
    if i == |text| then i
    else if text[i] == '\\' then (if i + 1 == |text| then |text| else StringEnd(text, i + 2))
    else if text[i] == '\"' then i + 1
    else StringEnd(text, i + 1)
  }

  function CharEnd(text: string, i: nat): (hi: nat)
    requires i <= |text|
    ensures i <= hi <= |text|
    decreases |text| - i
  {
    if i == |text| then i
    else if text[i] == '\\' then (if i + 1 == |text| then |text| else CharEnd(text, i + 2))
    else if text[i] == '\'' then i + 1
    else if text[i] == '\n' then i
    else CharEnd(text, i + 1)
  }

  // ======== Nested block comments ========

  // One step of a block comment read left to right.
  datatype Mark = Opening | Closing | Other

  function MarkAt(text: string, i: nat): Mark {
    if PairAt(text, i, '/', '*') then Opening else if PairAt(text, i, '*', '/') then Closing else Other
  }

  function MarkLen(m: Mark): nat {
    if m.Other? then 1 else 2
  }

  function Weight(m: Mark): int {
    match m case Opening => 1 case Closing => -1 case Other => 0
  }

  /** Opens minus closes. */
  ghost function Nesting(marks: seq<Mark>): int {
    if marks == [] then 0 else Weight(marks[0]) + Nesting(marks[1..])
  }

  /** The text at i is `/*`, `*/`, or neither. */
  ghost predicate IsMark(text: string, i: nat, m: Mark) {
    match m
    case Opening => PairAt(text, i, '/', '*')
    case Closing => PairAt(text, i, '*', '/')
    case Other => !PairAt(text, i, '/', '*') && !PairAt(text, i, '*', '/')
  }

  /** The marks of text[lo..hi], read left to right, are exactly these. */
  ghost predicate Reads(text: string, lo: nat, marks: seq<Mark>, hi: nat)
    decreases |marks|
  {
    if marks == [] then lo == hi
    else lo < |text| && IsMark(text, lo, marks[0]) && Reads(text, lo + MarkLen(marks[0]), marks[1..], hi)
  }

  /** Where a comment of the given nesting depth at i closes, or the end of the text. */
  function BlockEnd(text: string, i: nat, depth: nat): (hi: nat)
    requires i <= |text|
    ensures i <= hi <= |text|
    decreases |text| - i
  {
    if depth == 0 || i == |text| then i
    else
      match MarkAt(text, i)
      case Opening => BlockEnd(text, i + 2, depth + 1)
      case Closing => BlockEnd(text, i + 2, depth - 1)
      case Other => BlockEnd(text, i + 1, depth)
  }

  // ======== Lines ========

  function LineEnd(text: string, i: nat): (hi: nat)
    requires i < |text|
    ensures i < hi <= |text|
  {
    var end := Find(text, "\n", i);
    if end < 0 then |text| else end + 1
  }

  // ======== Segments ========

  /** What segment starts at lo. */
  function KindAt(text: string, lo: nat): Kind
    requires lo < |text|
  {
    var p := RawPrefix(text, lo);
    var q := SkipHashes(text, lo + p);
    if p > 0 && q < |text| && text[q] == '\"' then RawString
    else if PairAt(text, lo, '/', '/') then LineComment
    else if PairAt(text, lo, '/', '*') then BlockComment
    else if text[lo] == '\"' then PlainString
    else if text[lo] == '\'' then CharLiteral
    else Code
  }

  function SegmentEnd(text: string, lo: nat): (hi: nat)
    requires lo < |text|
    ensures lo < hi <= |text|
  {
    match KindAt(text, lo)
    case Code => lo + 1
    case LineComment => LineEnd(text, lo)
    case BlockComment => BlockEnd(text, lo + 2, 1)
    case PlainString => StringEnd(text, lo + 1)
    case CharLiteral => CharEnd(text, lo + 1)
    case RawString =>
      var p := RawPrefix(text, lo);
      var q := SkipHashes(text, lo + p);
      FenceEnd(text, q + 1, q - lo - p)
  }

  function NextSegment(text: string, lo: nat): Segment
    requires lo < |text|
  {
    Segment(KindAt(text, lo), lo, SegmentEnd(text, lo))
  }

  function Lex(text: string, lo: nat): seq<Segment>
    requires lo <= |text|
    decreases |text| - lo
  {
    if lo == |text| then [] else [NextSegment(text, lo)] + Lex(text, SegmentEnd(text, lo))
  }

  // ======== The declarative reading ========

  ghost predicate OpensAt(text: string, kind: Kind, lo: nat)
    requires lo < |text|
  {
    match kind
    case RawString => exists p, n :: RawOpens(text, lo, p, n)
    case LineComment => PairAt(text, lo, '/', '/')
    case BlockComment => PairAt(text, lo, '/', '*')
    case PlainString => text[lo] == '\"'
    case CharLiteral => text[lo] == '\''
    case Code =>
      && !PairAt(text, lo, '/', '/') && !PairAt(text, lo, '/', '*') && text[lo] != '\"' && text[lo] != '\''
      && forall p, n :: !RawOpens(text, lo, p, n)
  }

  /** text[lo..hi] runs exactly to where a segment of this kind ends. */
  ghost predicate EndsAt(text: string, kind: Kind, lo: nat, hi: nat)
    requires lo < hi <= |text|
  {
    match kind
    case Code => hi == lo + 1
    case LineComment =>
      // through the first newline, or to the end of the text
      && (forall k :: lo <= k < hi - 1 ==> text[k] != '\n')
      && (hi == |text| || text[hi - 1] == '\n')
    case BlockComment =>
      // to the first point where nested opens and closes balance
      exists marks ::
        && Reads(text, lo, marks, hi) && marks != [] && marks[0] == Opening
        && (forall k :: 0 < k < |marks| ==> Nesting(marks[..k]) > 0)
        && (Nesting(marks) == 0 || (hi == |text| && Nesting(marks) > 0))
    case PlainString =>
      // through the first unescaped quote after the opening one
      && (forall k :: lo < k < hi - 1 && text[k] == '\"' ==> !Live(text, lo, k))
      && (hi == |text| || (lo < hi - 1 && text[hi - 1] == '\"' && Live(text, lo, hi - 1)))
    case CharLiteral =>
      // through the first unescaped tick, but never past an unescaped newline
      && (forall k :: lo < k < hi - 1 && text[k] == '\'' ==> !Live(text, lo, k))
      && (forall k :: lo < k < hi && text[k] == '\n' ==> !Live(text, lo, k))
      && (hi == |text| || (text[hi] == '\n' && Live(text, lo, hi))
                       || (lo < hi - 1 && text[hi - 1] == '\'' && Live(text, lo, hi - 1)))
    case RawString =>
      // through the first quote followed by as many hashes as opened it
      exists p, n :: RawOpens(text, lo, p, n) && RawEndsAt(text, lo + p + n, n, hi)
  }

  ghost predicate RawEndsAt(text: string, q: nat, n: nat, hi: nat) {
    || (q + n + 1 < hi <= |text| && FenceAt(text, hi - n - 1, n)
        && forall e :: q < e < hi - n - 1 ==> !FenceAt(text, e, n))
    || (hi == |text| && forall e :: q < e < |text| ==> !FenceAt(text, e, n))
  }

  ghost predicate IsSegment(text: string, s: Segment) {
    s.lo < s.hi <= |text| && OpensAt(text, s.kind, s.lo) && EndsAt(text, s.kind, s.lo, s.hi)
  }

  /** The segments cover text[lo..] without gaps, each one a segment of its kind. */
  ghost predicate Segmentation(text: string, lo: nat, segs: seq<Segment>)
    decreases |segs|
  {
    if segs == [] then lo == |text|
    else segs[0].lo == lo && IsSegment(text, segs[0]) && Segmentation(text, segs[0].hi, segs[1..])
  }

  // ======== The functions compute the declarative reading ========

  lemma RawOpensIff(text: string, lo: nat)
    requires lo < |text|
    ensures (exists p, n :: RawOpens(text, lo, p, n)) <==> KindAt(text, lo) == RawString
    ensures forall p, n :: RawOpens(text, lo, p, n) ==>
      p == RawPrefix(text, lo) && n == SkipHashes(text, lo + p) - lo - p
  {
    var p := RawPrefix(text, lo);
    var q := SkipHashes(text, lo + p);
    if KindAt(text, lo) == RawString {
      SkipsOnlyHashes(text, lo + p);
      assert RawOpens(text, lo, p, q - lo - p);
    }
    forall r, n | RawOpens(text, lo, r, n) ensures r == p && lo + r + n == q {
      SkipStopsAt(text, lo + r, lo + r + n);
    }
  }

  lemma KindIff(text: string, kind: Kind, lo: nat)
    requires lo < |text|
    ensures OpensAt(text, kind, lo) <==> kind == KindAt(text, lo)
  {
    RawOpensIff(text, lo);
  }

  lemma {:induction false} StringEndStops(text: string, lo: nat, i: nat)
    requires lo < i <= |text| && Backslashes(text, lo, i) % 2 == 0
    requires forall k :: lo < k < i && text[k] == '\"' ==> !Live(text, lo, k)
    ensures var hi := StringEnd(text, i);
      && (forall k :: lo < k < hi - 1 && text[k] == '\"' ==> !Live(text, lo, k))
      && (hi == |text| || (i <= hi - 1 && text[hi - 1] == '\"' && Live(text, lo, hi - 1)))
    decreases |text| - i
  {
    if i < |text| {
      if text[i] == '\\' {
        if i + 1 < |text| {
          assert Backslashes(text, lo, i + 1) == 1 + Backslashes(text, lo, i) || i == lo;
          StringEndStops(text, lo, i + 2);
        }
      } else if text[i] != '\"' {
        StringEndStops(text, lo, i + 1);
      }
    }
  }

  lemma {:induction false} CharEndStops(text: string, lo: nat, i: nat)
    requires lo < i <= |text| && Backslashes(text, lo, i) % 2 == 0
    requires forall k :: lo < k < i && (text[k] == '\'' || text[k] == '\n') ==> !Live(text, lo, k)
    ensures var hi := CharEnd(text, i);
      && (forall k :: lo < k < hi - 1 && text[k] == '\'' ==> !Live(text, lo, k))
      && (forall k :: lo < k < hi && text[k] == '\n' ==> !Live(text, lo, k))
      && (hi == |text| || (text[hi] == '\n' && Live(text, lo, hi))
                       || (i <= hi - 1 && text[hi - 1] == '\'' && Live(text, lo, hi - 1)))
    decreases |text| - i
  {
    if i < |text| {
      if text[i] == '\\' {
        if i + 1 < |text| {
          assert Backslashes(text, lo, i + 1) == 1 + Backslashes(text, lo, i) || i == lo;
          CharEndStops(text, lo, i + 2);
        }
      } else if text[i] != '\'' && text[i] != '\n' {
        CharEndStops(text, lo, i + 1);
      }
    }
  }

  lemma {:induction false} FenceEndStops(text: string, q: nat, e: nat, n: nat)
    requires q < e <= |text| && forall k :: q < k < e ==> !FenceAt(text, k, n)
    ensures RawEndsAt(text, q, n, FenceEnd(text, e, n))
    decreases |text| - e
  {
    if e < |text| && !FenceAt(text, e, n) {
      FenceEndStops(text, q, e + 1, n);
    }
  }

  lemma {:induction false} BlockEndBalances(text: string, i: nat, depth: nat) returns (marks: seq<Mark>)
    requires i <= |text|
    ensures Reads(text, i, marks, BlockEnd(text, i, depth))
    ensures forall k :: 0 <= k < |marks| ==> depth + Nesting(marks[..k]) > 0
    ensures depth + Nesting(marks) == 0 || (BlockEnd(text, i, depth) == |text| && depth + Nesting(marks) > 0)
    decreases |text| - i
  {
    if depth == 0 || i == |text| {
      marks := [];
    } else {
      var m := MarkAt(text, i);
      var d := depth + Weight(m);
      var rest := BlockEndBalances(text, i + MarkLen(m), d);
      marks := [m] + rest;
      assert marks[1..] == rest;
      forall k | 0 <= k < |marks| ensures depth + Nesting(marks[..k]) > 0 {
        if k > 0 {
          assert marks[..k][1..] == rest[..k - 1];
        }
      }
    }
  }

  lemma LineEndHolds(text: string, lo: nat)
    requires lo < |text|
    ensures EndsAt(text, LineComment, lo, LineEnd(text, lo))
  {
    var hi := LineEnd(text, lo);
    FindNewline(text, lo);
  }

  lemma BlockEndHolds(text: string, lo: nat)
    requires lo < |text| && PairAt(text, lo, '/', '*')
    ensures EndsAt(text, BlockComment, lo, BlockEnd(text, lo + 2, 1))
  {
    var rest := BlockEndBalances(text, lo + 2, 1);
    var marks := [Opening] + rest;
    assert marks[1..] == rest;
    forall k | 0 < k < |marks| ensures Nesting(marks[..k]) > 0 {
      assert marks[..k][1..] == rest[..k - 1];
    }
    assert Reads(text, lo, marks, BlockEnd(text, lo + 2, 1));
  }

  lemma RawEndHolds(text: string, lo: nat)
    requires lo < |text| && KindAt(text, lo) == RawString
    ensures EndsAt(text, RawString, lo, SegmentEnd(text, lo))
  {
    var p := RawPrefix(text, lo);
    var q := SkipHashes(text, lo + p);
    SkipsOnlyHashes(text, lo + p);
    assert RawOpens(text, lo, p, q - lo - p);
    FenceEndStops(text, q, q + 1, q - lo - p);
  }

  lemma SegmentEndHolds(text: string, lo: nat)
    requires lo < |text|
    ensures EndsAt(text, KindAt(text, lo), lo, SegmentEnd(text, lo))
  {
    match KindAt(text, lo)
    case Code =>
    case LineComment => LineEndHolds(text, lo);
    case BlockComment => BlockEndHolds(text, lo);
    case PlainString => StringEndStops(text, lo, lo + 1);
    case CharLiteral => CharEndStops(text, lo, lo + 1);
    case RawString => RawEndHolds(text, lo);
  }

  // Two readings from the same place agree as far as both go.
  lemma {:induction false} ReadingsAgree(text: string, lo: nat, a: seq<Mark>, hiA: nat, b: seq<Mark>, hiB: nat)
    requires Reads(text, lo, a, hiA) && Reads(text, lo, b, hiB) && |a| <= |b|
    ensures a == b[..|a|] && (|a| == |b| ==> hiA == hiB) && (|a| < |b| ==> hiA < |text|)
    decreases |a|
  {
    if a != [] {
      ReadingsAgree(text, lo + MarkLen(a[0]), a[1..], hiA, b[1..], hiB);
      assert a == [a[0]] + a[1..] && b[..|a|] == [b[0]] + b[1..][..|a| - 1];
    }
  }

  lemma EndsUnique(text: string, kind: Kind, lo: nat, h: nat, j: nat)
    requires lo < h <= |text| && lo < j <= |text| && OpensAt(text, kind, lo)
    requires EndsAt(text, kind, lo, h) && EndsAt(text, kind, lo, j)
    ensures h == j
  {
    if kind == BlockComment {
      var a :| Reads(text, lo, a, h) && a != [] && a[0] == Opening
        && (forall k :: 0 < k < |a| ==> Nesting(a[..k]) > 0)
        && (Nesting(a) == 0 || (h == |text| && Nesting(a) > 0));
      var b :| Reads(text, lo, b, j) && b != [] && b[0] == Opening
        && (forall k :: 0 < k < |b| ==> Nesting(b[..k]) > 0)
        && (Nesting(b) == 0 || (j == |text| && Nesting(b) > 0));
      if |a| <= |b| {
        ReadingsAgree(text, lo, a, h, b, j);
      } else {
        ReadingsAgree(text, lo, b, j, a, h);
      }
    } else if kind == RawString {
      RawOpensIff(text, lo);
    }
  }

  /** A segment is declared at lo exactly when the functions compute it: segments are unambiguous. */
  lemma SegmentIff(text: string, s: Segment)
    requires s.lo < |text|
    ensures IsSegment(text, s) <==> s == NextSegment(text, s.lo)
  {
    KindIff(text, s.kind, s.lo);
    KindIff(text, KindAt(text, s.lo), s.lo);
    SegmentEndHolds(text, s.lo);
    if IsSegment(text, s) {
      EndsUnique(text, s.kind, s.lo, s.hi, SegmentEnd(text, s.lo));
    }
  }

  /** Every text has exactly one division into segments. */
  lemma {:induction false} SegmentationIff(text: string, lo: nat, segs: seq<Segment>)
    requires lo <= |text|
    ensures Segmentation(text, lo, segs) <==> segs == Lex(text, lo)
    decreases |text| - lo
  {
    if lo < |text| && segs != [] && segs[0].lo == lo {
      SegmentIff(text, segs[0]);
      if segs[0] == NextSegment(text, lo) {
        SegmentationIff(text, segs[0].hi, segs[1..]);
        assert segs == [segs[0]] + segs[1..];
      }
    }
  }
}
