// Finding the words `f32` and `f64` in masked Rust source.

module FloatScan {
  import opened Lists
  import opened PyStrings
  import opened RustLexing
  import opened RustMasker

  /** The regex class `\w`; how it treats characters beyond ASCII is the parameter `wide`. */
  predicate IsWord(c: char, wide: char -> bool) {
    || 'a' <= c <= 'z' || 'A' <= c <= 'Z' || '0' <= c <= '9' || c == '_'
    || (c as int >= 128 && wide(c))
  }

  lemma RunOf(first: char, run: string, c: char)
    requires first as int + |run| < 128 && forall i :: 0 <= i < |run| ==> run[i] as int == first as int + i
    ensures c in run <==> first as int <= c as int < first as int + |run|
  {
    if first as int <= c as int < first as int + |run| {
      assert run[c as int - first as int] == c;
    }
  }

  /** Among the ASCII characters, the word characters are letters, digits and the underscore. */
  lemma WordCharsAre(c: char, wide: char -> bool, lower: string, upper: string, digits: string)
    requires lower == "abcdefghijklmnopqrstuvwxyz" && upper == "ABCDEFGHIJKLMNOPQRSTUVWXYZ" && digits == "0123456789"
    requires c as int < 128
    ensures IsWord(c, wide) <==> c in lower || c in upper || c in digits || c == '_'
  {
    RunOf('a', lower, c);
    RunOf('A', upper, c);
    RunOf('0', digits, c);
  }

  /** The regex assertion `\b` at position i. */
  predicate WordBoundary(text: string, i: nat, wide: char -> bool)
    requires i <= |text|
  {
    (i > 0 && IsWord(text[i - 1], wide)) != (i < |text| && IsWord(text[i], wide))
  }

  predicate FloatTokenAt(text: string, p: nat) {
    && p + 3 <= |text| && text[p] == 'f'
    && ((text[p + 1] == '3' && text[p + 2] == '2') || (text[p + 1] == '6' && text[p + 2] == '4'))
  }

  /** A match of `\b(?:f32|f64)\b` at p. */
  predicate FloatWordAt(text: string, p: nat, wide: char -> bool) {
    FloatTokenAt(text, p) && WordBoundary(text, p, wide) && WordBoundary(text, p + 3, wide)
  }

  datatype Finding = Finding(line: nat, token: string)

  /** The matches at or after pos, left to right. */
  function FloatStarts(code: string, pos: nat, wide: char -> bool): (starts: seq<nat>)
    ensures forall p :: p in starts <==> pos <= p && FloatWordAt(code, p, wide)
    ensures forall i, j :: 0 <= i < j < |starts| ==> starts[i] < starts[j]
    decreases |code| - pos
  {
    if pos >= |code| then []
    else if FloatWordAt(code, pos, wide) then
      var rest := FloatStarts(code, pos + 1, wide);
      assert forall j :: 0 <= j < |rest| ==> rest[j] in rest;
      [pos] + rest
    else FloatStarts(code, pos + 1, wide)
  }

  lemma TokenIff(text: string, p: nat)
    ensures FloatTokenAt(text, p) <==> p + 3 <= |text| && (text[p..p + 3] == "f32" || text[p..p + 3] == "f64")
  {
    if p + 3 <= |text| {
      assert text[p..p + 3] == [text[p], text[p + 1], text[p + 2]];
    }
  }

  lemma TokenChars(text: string, p: nat)
    requires FloatTokenAt(text, p)
    ensures p + 3 <= |text| && text[p] == 'f' && (text[p + 1] == '3' || text[p + 1] == '6')
    ensures text[p + 2] == '2' || text[p + 2] == '4'
  {}

  // finditer resumes after a match; nothing can match inside one.
  lemma NoOverlap(code: string, p: nat, wide: char -> bool)
    requires FloatWordAt(code, p, wide)
    ensures FloatStarts(code, p, wide) == [p] + FloatStarts(code, p + 3, wide)
  {
    TokenChars(code, p);
    assert !FloatTokenAt(code, p + 1) && !FloatTokenAt(code, p + 2);
    assert FloatStarts(code, p + 1, wide) == FloatStarts(code, p + 2, wide) == FloatStarts(code, p + 3, wide);
  }

  /** What is reported for a token at p: its line and its text in the original. */
  function Report(original: string, p: nat): Finding
    requires p + 3 <= |original|
  {
    Finding(LineForOffset(original, p), original[p..p + 3])
  }

  ghost predicate Inside(text: string, starts: seq<nat>) {
    forall i :: 0 <= i < |starts| ==> starts[i] + 3 <= |text|
  }

  function ReportAll(original: string, starts: seq<nat>): (r: seq<Finding>)
    requires Inside(original, starts)
    ensures |r| == |starts| && forall i :: 0 <= i < |r| ==> r[i] == Report(original, starts[i])
  {
    seq(|starts|, i requires 0 <= i < |starts| => Report(original, starts[i]))
  }

  /** What the scan has found when it stands at pos in the masked text. */
  ghost predicate Scanned(original: string, code: string, wide: char -> bool,
                          done: seq<nat>, pos: nat, findings: seq<Finding>) {
    && FloatStarts(code, 0, wide) == done + FloatStarts(code, pos, wide)
    && Inside(original, done) && findings == ReportAll(original, done)
  }

  /** Every token of the masked text is reported as it stands in the original. */
  ghost predicate ReportsAlike(original: string, code: string) {
    forall p: nat :: FloatTokenAt(code, p) ==>
      && p + 3 <= |original| && |code| == |original|
      && Finding(LineForOffset(code, p), code[p..p + 3]) == Report(original, p)
  }

  lemma ScanHit(original: string, code: string, wide: char -> bool, done: seq<nat>, pos: nat, findings: seq<Finding>)
    requires Scanned(original, code, wide, done, pos, findings) && FloatWordAt(code, pos, wide)
    requires ReportsAlike(original, code)
    ensures pos + 3 <= |code|
    ensures Scanned(original, code, wide, done + [pos], pos + 3,
                    findings + [Finding(LineForOffset(code, pos), code[pos..pos + 3])])
  {
    ScanHitStarts(code, wide, done, pos);
    ReportAllNext(original, done, pos);
  }

  lemma ScanHitStarts(code: string, wide: char -> bool, done: seq<nat>, pos: nat)
    requires FloatWordAt(code, pos, wide)
    ensures done + FloatStarts(code, pos, wide) == (done + [pos]) + FloatStarts(code, pos + 3, wide)
  {
    NoOverlap(code, pos, wide);
    var rest := FloatStarts(code, pos + 3, wide);
    Assoc(done, [pos], rest);
  }

  lemma ReportAllNext(original: string, done: seq<nat>, pos: nat)
    requires Inside(original, done) && pos + 3 <= |original|
    ensures Inside(original, done + [pos])
    ensures ReportAll(original, done + [pos]) == ReportAll(original, done) + [Report(original, pos)]
  {
    assert ReportAll(original, done + [pos]) == ReportAll(original, done) + [Report(original, pos)];
  }

  lemma ScanMiss(original: string, code: string, wide: char -> bool, done: seq<nat>, pos: nat, findings: seq<Finding>)
    requires Scanned(original, code, wide, done, pos, findings) && pos < |code| && !FloatWordAt(code, pos, wide)
    ensures Scanned(original, code, wide, done, pos + 1, findings)
  {
  }

  lemma ScanEnds(original: string, code: string, wide: char -> bool, done: seq<nat>, pos: nat, findings: seq<Finding>)
    requires Scanned(original, code, wide, done, pos, findings) && pos >= |code|
    ensures Inside(original, FloatStarts(code, 0, wide)) && findings == ReportAll(original, FloatStarts(code, 0, wide))
  {
    assert done + [] == done;
  }

  /** The loop over the matches in the masked text. */
  method ScanCode(original: string, code: string, wide: char -> bool) returns (findings: seq<Finding>)
    requires ReportsAlike(original, code)
    ensures var starts := FloatStarts(code, 0, wide);
      Inside(original, starts) && findings == ReportAll(original, starts)
  {
    findings := [];
    var pos := 0;
    ghost var done: seq<nat> := [];
    while pos < |code|
      invariant 0 <= pos <= |code|
      invariant Scanned(original, code, wide, done, pos, findings)
      decreases |code| - pos
    {
      if FloatWordAt(code, pos, wide) {
        ScanHit(original, code, wide, done, pos, findings);
        findings := findings + [Finding(LineForOffset(code, pos), code[pos..pos + 3])];
        done := done + [pos];
        pos := pos + 3;
      } else {
        ScanMiss(original, code, wide, done, pos, findings);
        pos := pos + 1;
      }
    }
    ScanEnds(original, code, wide, done, pos, findings);
  }

  /** The float-type pass of `scan_file`: every match in masked text, reported as it stands in the original. */
  method ScanFile(original: string, wide: char -> bool) returns (findings: seq<Finding>)
    ensures var starts := FloatStarts(Masked(original), 0, wide);
      && Inside(original, starts) && findings == ReportAll(original, starts)
      && forall p :: p in starts <==> CodeWord(original, p, wide) || RunsIntoRawString(original, p, wide)
  {
    var code := StripRustCommentsAndLiterals(original);
    forall p: nat | FloatTokenAt(Masked(original), p)
      ensures p + 3 <= |original| && |Masked(original)| == |original|
      ensures Finding(LineForOffset(Masked(original), p), Masked(original)[p..p + 3]) == Report(original, p)
    {
      ReportsAgree(original, p);
    }
    findings := ScanCode(original, code, wide);
    forall p
      ensures p in FloatStarts(code, 0, wide) <==> CodeWord(original, p, wide) || RunsIntoRawString(original, p, wide) {
      FoundIff(original, p, wide);
    }
  }

  lemma ReportsAgree(text: string, p: nat)
    requires FloatTokenAt(Masked(text), p)
    ensures |Masked(text)| == |text| && p + 3 <= |text|
    ensures Finding(LineForOffset(Masked(text), p), Masked(text)[p..p + 3]) == Report(text, p)
  {
    MatchIsVerbatim(text, p);
    LinesAgree(text, p);
  }

  lemma MatchIsVerbatim(text: string, p: nat)
    requires FloatTokenAt(Masked(text), p)
    ensures |Masked(text)| == |text| && p + 3 <= |text|
    ensures Masked(text)[p..p + 3] == text[p..p + 3]
    ensures InCode(text, p) && InCode(text, p + 1) && InCode(text, p + 2)
  {
    TokenChars(Masked(text), p);
    VisibleIsCode(text, p);
    VisibleIsCode(text, p + 1);
    VisibleIsCode(text, p + 2);
    SameThree(Masked(text), text, p);
  }

  /** What masking leaves visible is code, copied. */
  lemma VisibleIsCode(text: string, k: nat)
    requires k < |Masked(text)| && Masked(text)[k] != ' ' && Masked(text)[k] != '\n'
    ensures |Masked(text)| == |text| && Masked(text)[k] == text[k] && InCode(text, k)
  {
    MaskingKeepsLayout(text);
  }

  lemma SameThree(a: string, b: string, p: nat)
    requires p + 3 <= |a| == |b| && a[p] == b[p] && a[p + 1] == b[p + 1] && a[p + 2] == b[p + 2]
    ensures a[p..p + 3] == b[p..p + 3]
  {
    assert a[p..p + 3] == [a[p], a[p + 1], a[p + 2]];
    assert b[p..p + 3] == [b[p], b[p + 1], b[p + 2]];
  }

  // ======== Where literals and comments meet code ========

  lemma {:induction false} ClosedCommentEndsInSlash(text: string, i: nat, depth: nat)
    requires i <= |text| && depth > 0 && BlockEnd(text, i, depth) < |text|
    ensures BlockEnd(text, i, depth) >= i + 2 && text[BlockEnd(text, i, depth) - 1] == '/'
    decreases |text| - i
  {
    var m := MarkAt(text, i);
    if m == Opening {
      ClosedCommentEndsInSlash(text, i + 2, depth + 1);
    } else if m == Other {
      ClosedCommentEndsInSlash(text, i + 1, depth);
    } else if depth > 1 {
      ClosedCommentEndsInSlash(text, i + 2, depth - 1);
    } else {
      assert text[i..i + 2][1] == text[i + 1];
    }
  }

  // The last character of a closed comment or literal is no word character,
  // unless the literal was cut short by the newline after it.
  lemma LiteralEndsNonWord(text: string, lo: nat, wide: char -> bool)
    requires lo < |text| && KindAt(text, lo) != Code && SegmentEnd(text, lo) < |text|
    ensures !IsWord(text[SegmentEnd(text, lo) - 1], wide) || text[SegmentEnd(text, lo)] == '\n'
  {
    var hi := SegmentEnd(text, lo);
    SegmentEndHolds(text, lo);
    match KindAt(text, lo)
    case BlockComment => ClosedCommentEndsInSlash(text, lo + 2, 1);
    case RawString => RawStringEndsNonWord(text, lo);
    case _ =>
  }

  lemma RawStringEndsNonWord(text: string, lo: nat)
    requires lo < |text| && KindAt(text, lo) == RawString && SegmentEnd(text, lo) < |text|
    ensures text[SegmentEnd(text, lo) - 1] == '\"' || text[SegmentEnd(text, lo) - 1] == '#'
  {
    var hi := SegmentEnd(text, lo);
    SegmentEndHolds(text, lo);
    var p, n :| RawOpens(text, lo, p, n) && RawEndsAt(text, lo + p + n, n, hi);
  }

  // Where code begins after something else, a comment or literal has just ended.
  lemma {:induction false} CodeStartsAfterSegment(text: string, lo: nat, p: nat) returns (s: nat)
    requires lo < p < |text| && KindOf(text, lo, p) == Code && KindOf(text, lo, p - 1) != Code
    ensures s < p && KindAt(text, s) != Code && SegmentEnd(text, s) == p
    decreases |text| - lo
  {
    var hi := SegmentEnd(text, lo);
    if p == hi {
      s := lo;
    } else {
      assert p > hi;
      assert KindOf(text, lo, p) == KindOf(text, hi, p);
      assert KindOf(text, lo, p - 1) == KindOf(text, hi, p - 1);
      s := CodeStartsAfterSegment(text, hi, p);
    }
  }

  // The character after code starts a segment of its own.
  lemma {:induction false} SegmentStartsAfterCode(text: string, lo: nat, p: nat)
    requires lo < p < |text| && KindOf(text, lo, p - 1) == Code
    ensures KindOf(text, lo, p) == KindAt(text, p)
    decreases |text| - lo
  {
    var hi := SegmentEnd(text, lo);
    assert KindOf(text, lo, p) == KindOf(text, hi, p);
    if p > hi {
      assert KindOf(text, lo, p - 1) == KindOf(text, hi, p - 1);
      SegmentStartsAfterCode(text, hi, p);
    }
  }

  lemma WordOpensRawOrCode(text: string, p: nat, wide: char -> bool)
    requires p < |text| && IsWord(text[p], wide)
    ensures KindAt(text, p) == Code || KindAt(text, p) == RawString
  {}

  // ======== Exactly what is found ========

  /** The three characters at p spell one of the two types. */
  ghost predicate Spelled(text: string, p: nat) {
    p + 3 <= |text| && (text[p..p + 3] == "f32" || text[p..p + 3] == "f64")
  }

  /** No word character stands directly before p. */
  ghost predicate FreeOnLeft(text: string, p: nat, wide: char -> bool)
    requires p <= |text|
  {
    p == 0 || !IsWord(text[p - 1], wide)
  }

  /** No word character stands at p. */
  ghost predicate FreeOnRight(text: string, p: nat, wide: char -> bool)
    requires p <= |text|
  {
    p == |text| || !IsWord(text[p], wide)
  }

  ghost predicate ThreeInCode(text: string, p: nat)
    requires p + 3 <= |text|
  {
    InCode(text, p) && InCode(text, p + 1) && InCode(text, p + 2)
  }

  /** `f32` or `f64`, standing in code as a word of the original text. */
  ghost predicate CodeWord(text: string, p: nat, wide: char -> bool) {
    Spelled(text, p) && ThreeInCode(text, p) && FreeOnLeft(text, p, wide) && FreeOnRight(text, p + 3, wide)
  }

  /** `f32` or `f64` in code, running straight into a raw string's prefix. */
  ghost predicate RunsIntoRawString(text: string, p: nat, wide: char -> bool) {
    && Spelled(text, p) && ThreeInCode(text, p) && FreeOnLeft(text, p, wide)
    && p + 3 < |text| && OpensAt(text, RawString, p + 3)
  }

  // A match in terms of the three characters and their neighbours.
  lemma FloatWordIff(text: string, p: nat, wide: char -> bool)
    ensures FloatWordAt(text, p, wide)
       <==> Spelled(text, p) && FreeOnLeft(text, p, wide) && FreeOnRight(text, p + 3, wide)
  {
    TokenIff(text, p);
  }

  lemma LeftNeighbour(text: string, p: nat, wide: char -> bool)
    requires 0 < p < |text| && InCode(text, p) && text[p] != '\n'
    ensures |Masked(text)| == |text|
    ensures IsWord(Masked(text)[p - 1], wide) == IsWord(text[p - 1], wide)
  {
    MaskingKeepsLayout(text);
    if !InCode(text, p - 1) {
      var s := CodeStartsAfterSegment(text, 0, p);
      LiteralEndsNonWord(text, s, wide);
    }
  }

  lemma RightNeighbour(text: string, p: nat, wide: char -> bool)
    requires 0 < p < |text| && InCode(text, p - 1)
    ensures |Masked(text)| == |text|
    ensures IsWord(Masked(text)[p], wide) <==> IsWord(text[p], wide) && KindAt(text, p) != RawString
  {
    MaskingKeepsLayout(text);
    SegmentStartsAfterCode(text, 0, p);
    if IsWord(text[p], wide) {
      WordOpensRawOrCode(text, p, wide);
    }
  }

  /** The scan reports exactly the code words of the original, and tokens that run into a raw string. */
  lemma FoundIff(text: string, p: nat, wide: char -> bool)
    ensures p in FloatStarts(Masked(text), 0, wide) <==> CodeWord(text, p, wide) || RunsIntoRawString(text, p, wide)
  {
    var m := Masked(text);
    MaskingKeepsLayout(text);
    FloatWordIff(m, p, wide);
    TokenIff(m, p);
    TokenIff(text, p);
    if FloatTokenAt(m, p) {
      MatchIsVerbatim(text, p);
      Neighbours(text, p, wide);
    } else if Spelled(text, p) && ThreeInCode(text, p) {
      SameThree(m, text, p);
      assert false;
    }
  }

  lemma Neighbours(text: string, p: nat, wide: char -> bool)
    requires |Masked(text)| == |text| && Spelled(text, p) && ThreeInCode(text, p)
    ensures FreeOnLeft(Masked(text), p, wide) <==> FreeOnLeft(text, p, wide)
    ensures FreeOnRight(Masked(text), p + 3, wide)
       <==> FreeOnRight(text, p + 3, wide) || (p + 3 < |text| && OpensAt(text, RawString, p + 3))
  {
    TokenIff(text, p);
    TokenChars(text, p);
    if p > 0 {
      LeftNeighbour(text, p, wide);
    }
    if p + 3 < |text| {
      RightNeighbour(text, p + 3, wide);
      KindIff(text, RawString, p + 3);
    }
  }

  /** A finding need not be a word of the original: here it is the start of `f32r`. */
  lemma FindingInsideLongerWord(text: string, wide: char -> bool)
    requires text == "f32r\"x\""
    ensures 0 in FloatStarts(Masked(text), 0, wide) && !FreeOnRight(text, 3, wide)
  {
    CodeAt(text, 0);
    CodeAt(text, 1);
    CodeAt(text, 2);
    assert KindOf(text, 0, 1) == KindOf(text, 1, 1);
    assert KindOf(text, 0, 2) == KindOf(text, 1, 2) == KindOf(text, 2, 2);
    assert RawPrefix(text, 3) == 1 && SkipHashes(text, 4) == 4;
    assert KindAt(text, 3) == RawString;
    KindIff(text, RawString, 3);
    assert Spelled(text, 0) && ThreeInCode(text, 0);
    FoundIff(text, 0, wide);
  }

  lemma CodeAt(text: string, lo: nat)
    requires lo + 1 < |text| && (text[lo] == 'f' || '0' <= text[lo] <= '9')
    ensures KindAt(text, lo) == Code
  {
  }
}
