// Blanking comments and literals out of Rust source without moving anything.

module RustMasker {
  import opened Lists
  import opened PyStrings
  import opened RustLexing

  function BlankChar(c: char): char {
    if c == '\n' then '\n' else ' '
  }

  /** `_mask_preserve_newlines`. */
  function Blank(s: string): string {
    seq(|s|, i requires 0 <= i < |s| => BlankChar(s[i]))
  }

  /** What one segment becomes: code is copied, everything else blanked. */
  function Render(text: string, s: Segment): string
    requires s.lo <= s.hi <= |text|
  {
    if s.kind == Code then text[s.lo..s.hi] else Blank(text[s.lo..s.hi])
  }

  function MaskedFrom(text: string, lo: nat): string
    requires lo <= |text|
    decreases |text| - lo
  {
    if lo == |text| then "" else Render(text, NextSegment(text, lo)) + MaskedFrom(text, SegmentEnd(text, lo))
  }

  function Masked(text: string): string {
    MaskedFrom(text, 0)
  }

  ghost predicate WithinText(text: string, segs: seq<Segment>) {
    forall i :: 0 <= i < |segs| ==> segs[i].lo <= segs[i].hi <= |text|
  }

  ghost function RenderAll(text: string, segs: seq<Segment>): string
    requires WithinText(text, segs)
  {
    if segs == [] then ""
    else Render(text, segs[0]) + RenderAll(text, segs[1..])
  }

  lemma {:induction false} SegmentsWithin(text: string, lo: nat, segs: seq<Segment>)
    requires lo <= |text| && Segmentation(text, lo, segs)
    ensures WithinText(text, segs)
    decreases |segs|
  {
    if segs != [] {
      SegmentIff(text, segs[0]);
      SegmentsWithin(text, segs[0].hi, segs[1..]);
      assert forall i :: 0 < i < |segs| ==> segs[i] == segs[1..][i - 1];
    }
  }

  /** Masked text is the rendering of the one division of the text into segments. */
  lemma {:induction false} MaskedRendersSegments(text: string, lo: nat, segs: seq<Segment>)
    requires lo <= |text| && Segmentation(text, lo, segs)
    ensures WithinText(text, segs) && RenderAll(text, segs) == MaskedFrom(text, lo)
    decreases |segs|
  {
    SegmentsWithin(text, lo, segs);
    if segs != [] {
      SegmentIff(text, segs[0]);
      MaskedStep(text, lo);
      MaskedRendersSegments(text, segs[0].hi, segs[1..]);
    }
  }

  // ======== The scanning loop ========

  /** `_raw_string_end`, with None for "no raw string here". */
  method RawStringEnd(text: string, index: nat) returns (found: bool, end: nat)
    requires index < |text|
    ensures found <==> KindAt(text, index) == RawString
    ensures found ==> end == SegmentEnd(text, index)
  {
    var prefix := 0;
    if PairAt(text, index, 'b', 'r') {
      prefix := 2;
    } else if text[index] == 'r' {
      prefix := 1;
    } else {
      return false, 0;
    }
    var cursor := SkipHashRun(text, index + prefix);
    if cursor >= |text| || text[cursor] != '\"' {
      return false, 0;
    }
    SkipsOnlyHashes(text, index + prefix);
    end := FenceSearch(text, cursor + 1, text[index + prefix..cursor]);
    RawStringEndsAtFence(text, index);
    return true, end;
  }

  /** The inner loop over the hashes before a raw string's quote. */
  method SkipHashRun(text: string, start: nat) returns (cursor: nat)
    requires start <= |text|
    ensures cursor == SkipHashes(text, start)
  {
    cursor := start;
    while cursor < |text| && text[cursor] == '#'
      invariant start <= cursor <= |text|
      invariant SkipHashes(text, start) == SkipHashes(text, cursor)
    {
      cursor := cursor + 1;
    }
  }

  /** The search for the closing quote and hashes; without one the literal runs to the end of the text. */
  method FenceSearch(text: string, e: nat, hashes: string) returns (end: nat)
    requires e <= |text| && forall k :: 0 <= k < |hashes| ==> hashes[k] == '#'
    ensures end == FenceEnd(text, e, |hashes|)
  {
    var terminator := "\"" + hashes;
    var at := Find(text, terminator, e);
    FenceEndIsFind(text, e, hashes);
    if at == -1 {
      return |text|;
    }
    return at + |terminator|;
  }

  lemma RawStringEndsAtFence(text: string, lo: nat)
    requires lo < |text| && KindAt(text, lo) == RawString
    ensures var p := RawPrefix(text, lo); var q := SkipHashes(text, lo + p);
      q < |text| && SegmentEnd(text, lo) == FenceEnd(text, q + 1, q - lo - p)
  {
  }

  lemma FenceIsMatch(text: string, e: nat, hashes: string)
    requires forall k :: 0 <= k < |hashes| ==> hashes[k] == '#'
    ensures FenceAt(text, e, |hashes|) <==> MatchesAt(text, e, "\"" + hashes)
  {
    var t := "\"" + hashes;
    if FenceAt(text, e, |hashes|) {
      var s := text[e..e + |t|];
      forall k | 0 <= k < |t| ensures s[k] == t[k] {}
    }
    if MatchesAt(text, e, t) {
      assert text[e] == text[e..e + |t|][0];
      forall k | e < k <= e + |hashes| ensures text[k] == '#' {
        assert text[k] == text[e..e + |t|][k - e];
      }
    }
  }

  lemma {:induction false} FenceEndIsFind(text: string, e: nat, hashes: string)
    requires e <= |text| && forall k :: 0 <= k < |hashes| ==> hashes[k] == '#'
    ensures var at := Find(text, "\"" + hashes, e);
      FenceEnd(text, e, |hashes|) == if at == -1 then |text| else at + 1 + |hashes|
    decreases |text| - e
  {
    FenceIsMatch(text, e, hashes);
    if e < |text| && !FenceAt(text, e, |hashes|) {
      FenceEndIsFind(text, e + 1, hashes);
    }
  }

  lemma BlankSplit(s: string, i: nat, k: nat, j: nat)
    requires i <= k <= j <= |s|
    ensures Blank(s[i..k]) + Blank(s[k..j]) == Blank(s[i..j])
  {}

  function Min(a: int, b: int): int {
    if a < b then a else b
  }

  function Spaces(n: nat): string {
    seq(n, _ => ' ')
  }

  /** What the loop still has to produce at i, inside a comment nested depth deep. */
  ghost function Pending(text: string, i: nat, depth: nat): string
    requires i <= |text|
  {
    Blank(text[i..BlockEnd(text, i, depth)]) + MaskedFrom(text, BlockEnd(text, i, depth))
  }

  // A step that blanks text[i..k] and moves to k at the given depth.
  lemma PendingStep(text: string, i: nat, depth: nat, k: nat, next: nat)
    requires i <= k <= |text| && BlockEnd(text, i, depth) == BlockEnd(text, k, next) >= k
    ensures Pending(text, i, depth) == Blank(text[i..k]) + Pending(text, k, next)
  {
    PendingSplit(text, i, k, BlockEnd(text, k, next));
  }

  // Outside a comment the next thing produced is the next segment.
  lemma PendingSegment(text: string, i: nat)
    requires i < |text|
    ensures Pending(text, i, 0) == Render(text, NextSegment(text, i)) + Pending(text, SegmentEnd(text, i), 0)
  {}

  lemma PendingBlank(text: string, i: nat, hi: nat)
    requires i < |text| && KindAt(text, i) != Code && hi == SegmentEnd(text, i)
    ensures Pending(text, i, 0) == Blank(text[i..hi]) + Pending(text, hi, 0)
  {
    PendingSegment(text, i);
  }

  lemma PendingCode(text: string, i: nat)
    requires i < |text| && KindAt(text, i) == Code
    ensures Pending(text, i, 0) == [text[i]] + Pending(text, i + 1, 0)
  {
    PendingSegment(text, i);
    assert text[i..i + 1] == [text[i]];
  }

  lemma PendingSplit(text: string, i: nat, k: nat, hi: nat)
    requires i <= k <= hi <= |text|
    ensures Blank(text[i..hi]) + MaskedFrom(text, hi) == Blank(text[i..k]) + (Blank(text[k..hi]) + MaskedFrom(text, hi))
  {
    BlankSplit(text, i, k, hi);
    Assoc(Blank(text[i..k]), Blank(text[k..hi]), MaskedFrom(text, hi));
  }

  // A comment's opening mark leaves the rest of the comment pending.
  lemma PendingComment(text: string, i: nat)
    requires i < |text| && KindAt(text, i) == BlockComment
    ensures Pending(text, i, 0) == "  " + Pending(text, i + 2, 1)
  {
    var hi := SegmentEnd(text, i);
    CommentSegment(text, i);
    PendingBlank(text, i, hi);
    MarkIsBlank(text, i);
    PendingNone(text, hi);
    PendingSplit(text, i, i + 2, hi);
  }

  lemma CommentSegment(text: string, i: nat)
    requires i < |text| && KindAt(text, i) == BlockComment
    ensures MarkAt(text, i) == Opening && i + 2 <= SegmentEnd(text, i) == BlockEnd(text, i + 2, 1)
  {}

  lemma PendingNone(text: string, i: nat)
    requires i <= |text|
    ensures Pending(text, i, 0) == MaskedFrom(text, i)
  {
    assert Blank(text[i..i]) == "";
  }

  lemma MarkIsBlank(text: string, i: nat)
    requires MarkAt(text, i) != Other
    ensures Blank(text[i..i + 2]) == "  "
  {
  }

  lemma LineIsBlank(text: string, i: nat, end: nat)
    requires i <= end <= |text| && forall k :: i <= k < end ==> text[k] != '\n'
    ensures Blank(text[i..end]) == Spaces(end - i)
  {
  }

  /** The inner loop over a string literal; the index may end one past the text. */
  method SkipString(text: string, start: nat) returns (i: nat)
    requires start < |text|
    ensures start < i <= |text| + 1 && Min(i, |text|) == StringEnd(text, start + 1)
  {
    i := start + 1;
    while i < |text|
      invariant start < i <= |text| + 1
      invariant StringEnd(text, start + 1) == StringEnd(text, Min(i, |text|))
      decreases |text| + 1 - i
    {
      if text[i] == '\\' {
        i := i + 2;
        continue;
      }
      if text[i] == '\"' {
        i := i + 1;
        break;
      }
      i := i + 1;
    }
  }

  /** The inner loop over a char literal, which gives up at a newline. */
  method SkipCharLiteral(text: string, start: nat) returns (i: nat)
    requires start < |text|
    ensures start < i <= |text| + 1 && Min(i, |text|) == CharEnd(text, start + 1)
  {
    i := start + 1;
    while i < |text|
      invariant start < i <= |text| + 1
      invariant CharEnd(text, start + 1) == CharEnd(text, Min(i, |text|))
      decreases |text| + 1 - i
    {
      if text[i] == '\\' {
        i := i + 2;
        continue;
      }
      if text[i] == '\'' {
        i := i + 1;
        break;
      }
      if text[i] == '\n' {
        break;
      }
      i := i + 1;
    }
  }

  /** One turn of the main loop inside a block comment. */
  method CommentStep(text: string, i: nat, depth: nat) returns (piece: string, next: nat, newDepth: nat)
    requires i < |text| && depth > 0
    ensures i < next <= |text| && Pending(text, i, depth) == piece + Pending(text, next, newDepth)
  {
    if PairAt(text, i, '/', '*') {
      piece, next, newDepth := "  ", i + 2, depth + 1;
      MarkIsBlank(text, i);
    } else if PairAt(text, i, '*', '/') {
      piece, next, newDepth := "  ", i + 2, depth - 1;
      MarkIsBlank(text, i);
    } else {
      piece, next, newDepth := [if text[i] == '\n' then '\n' else ' '], i + 1, depth;
      assert Blank(text[i..i + 1]) == [BlankChar(text[i])];
    }
    PendingStep(text, i, depth, next, newDepth);
  }

  /** The line-comment branch: spaces up to the newline, then the newline. */
  method LineStep(text: string, i: nat) returns (piece: string, next: nat)
    requires i < |text|
    ensures next == LineEnd(text, i) && piece == Blank(text[i..next])
  {
    FindNewline(text, i);
    var end := Find(text, "\n", i);
    if end == -1 {
      LineIsBlank(text, i, |text|);
      return Spaces(|text| - i), |text|;
    }
    LineIsBlank(text, i, end);
    BlankSplit(text, i, end, end + 1);
    assert Blank(text[end..end + 1]) == "\n";
    return Spaces(end - i) + "\n", end + 1;
  }

  /** One turn of the main loop outside block comments; the index may end one past the text. */
  method CodeStep(text: string, i: nat) returns (piece: string, next: nat, depth: nat)
    requires i < |text|
    ensures i < next <= |text| + 1 && (depth == 0 || next <= |text|)
    ensures Pending(text, i, 0) == piece + Pending(text, Min(next, |text|), depth)
  {
    depth := 0;
    var raw, rawEnd := RawStringEnd(text, i);
    if raw {
      PendingBlank(text, i, rawEnd);
      return Blank(text[i..rawEnd]), rawEnd, 0;
    }
    if PairAt(text, i, '/', '/') {
      piece, next := LineStep(text, i);
      PendingBlank(text, i, next);
    } else if PairAt(text, i, '/', '*') {
      PendingComment(text, i);
      piece, next, depth := "  ", i + 2, 1;
    } else if text[i] == '\"' {
      next := SkipString(text, i);
      piece := Blank(text[i..Min(next, |text|)]);
      PendingBlank(text, i, Min(next, |text|));
    } else if text[i] == '\'' {
      next := SkipCharLiteral(text, i);
      piece := Blank(text[i..Min(next, |text|)]);
      PendingBlank(text, i, Min(next, |text|));
    } else {
      PendingCode(text, i);
      piece, next := [text[i]], i + 1;
    }
  }

  /** `strip_rust_comments_and_literals`: every text is masked segment by segment. */
  method StripRustCommentsAndLiterals(text: string) returns (out: string)
    ensures out == Masked(text)
  {
    out := "";
    var i := 0;
    var blockDepth := 0;
    while i < |text|
      invariant 0 <= i <= |text| + 1 && (blockDepth == 0 || i <= |text|)
      invariant Masked(text) == out + Pending(text, Min(i, |text|), blockDepth)
      decreases |text| + 1 - i
    {
      var piece: string;
      if blockDepth != 0 {
        piece, i, blockDepth := CommentStep(text, i, blockDepth);
      } else {
        piece, i, blockDepth := CodeStep(text, i);
      }
      Assoc(out, piece, Pending(text, Min(i, |text|), blockDepth));
      out := out + piece;
    }
  }

  // ======== Layout ========

  /** The kind of the segment that holds the character at k, reading segments from lo. */
  ghost function KindOf(text: string, lo: nat, k: nat): Kind
    requires lo <= k < |text|
    decreases |text| - lo
  {
    if k < SegmentEnd(text, lo) then KindAt(text, lo) else KindOf(text, SegmentEnd(text, lo), k)
  }

  /** The character at k belongs to a code segment. */
  ghost predicate InCode(text: string, k: nat)
    requires k < |text|
  {
    KindOf(text, 0, k) == Code
  }

  lemma {:induction false} MaskedPointwise(text: string, lo: nat, k: nat)
    requires lo <= k < |text|
    ensures |MaskedFrom(text, lo)| == |text| - lo
    ensures MaskedFrom(text, lo)[k - lo] == if KindOf(text, lo, k) == Code then text[k] else BlankChar(text[k])
    decreases |text| - lo
  {
    var hi := SegmentEnd(text, lo);
    var first, rest := Render(text, NextSegment(text, lo)), MaskedFrom(text, hi);
    MaskedStep(text, lo);
    MaskedLength(text, hi);
    if k < hi {
      RenderAt(text, lo, hi, k);
    } else {
      MaskedPointwise(text, hi, k);
      assert (first + rest)[k - lo] == rest[k - hi];
    }
  }

  lemma MaskedStep(text: string, lo: nat)
    requires lo < |text|
    ensures MaskedFrom(text, lo) == Render(text, NextSegment(text, lo)) + MaskedFrom(text, SegmentEnd(text, lo))
    ensures |Render(text, NextSegment(text, lo))| == SegmentEnd(text, lo) - lo
  {
  }

  lemma RenderAt(text: string, lo: nat, hi: nat, k: nat)
    requires lo <= k < hi <= |text| && hi == SegmentEnd(text, lo)
    ensures var r := Render(text, NextSegment(text, lo));
      |r| == hi - lo && r[k - lo] == if KindAt(text, lo) == Code then text[k] else BlankChar(text[k])
  {
  }

  lemma {:induction false} MaskedLength(text: string, lo: nat)
    requires lo <= |text|
    ensures |MaskedFrom(text, lo)| == |text| - lo
    decreases |text| - lo
  {
    if lo < |text| {
      MaskedLength(text, SegmentEnd(text, lo));
    }
  }

  /** Nothing moves: same length, code copied, the rest blanked, newlines at exactly the same offsets. */
  lemma MaskingKeepsLayout(text: string)
    ensures |Masked(text)| == |text|
    ensures forall k :: 0 <= k < |text| ==>
      Masked(text)[k] == if InCode(text, k) || text[k] == '\n' then text[k] else ' '
    ensures forall k :: 0 <= k < |text| ==> (Masked(text)[k] == '\n' <==> text[k] == '\n')
  {
    MaskedLength(text, 0);
    forall k | 0 <= k < |text|
      ensures Masked(text)[k] == if InCode(text, k) || text[k] == '\n' then text[k] else ' '
    {
      MaskedPointwise(text, 0, k);
    }
  }

  lemma {:induction false} CountAgrees(a: string, b: string, offset: nat)
    requires |a| == |b| && offset <= |a|
    requires forall k :: 0 <= k < |a| ==> (a[k] == '\n' <==> b[k] == '\n')
    ensures CountNewlines(a, offset) == CountNewlines(b, offset)
  {
    if offset > 0 {
      CountAgrees(a, b, offset - 1);
    }
  }

  /** Line numbers computed on the masked text are those of the original. */
  lemma LinesAgree(text: string, offset: nat)
    requires offset <= |text|
    ensures |Masked(text)| == |text| && LineForOffset(Masked(text), offset) == LineForOffset(text, offset)
  {
    MaskingKeepsLayout(text);
    CountAgrees(Masked(text), text, offset);
  }

  // ======== Idempotence ========

  /** Text in which nothing can open but code. */
  ghost predicate NothingOpens(text: string) {
    forall k | 0 <= k < |text| ::
      text[k] != '\"' && text[k] != '\'' && !PairAt(text, k, '/', '/') && !PairAt(text, k, '/', '*')
  }

  lemma {:induction false} CodeCharOpensCode(text: string, lo: nat, k: nat)
    requires lo <= k < |text| && KindOf(text, lo, k) == Code
    ensures KindAt(text, k) == Code
    decreases |text| - lo
  {
    if k >= SegmentEnd(text, lo) {
      CodeCharOpensCode(text, SegmentEnd(text, lo), k);
    }
  }

  lemma NoOpenerAt(text: string, m: string, k: nat)
    requires |m| == |text| && k < |text| && KindAt(text, k) == Code && m[k] == text[k]
    requires k + 1 < |text| ==> m[k + 1] == text[k + 1] || m[k + 1] == BlankChar(text[k + 1])
    ensures m[k] != '\"' && m[k] != '\'' && !PairAt(m, k, '/', '/') && !PairAt(m, k, '/', '*')
  {
  }

  lemma BlankOpensNothing(m: string, k: nat)
    requires k < |m| && (m[k] == ' ' || m[k] == '\n')
    ensures m[k] != '\"' && m[k] != '\'' && !PairAt(m, k, '/', '/') && !PairAt(m, k, '/', '*')
  {
  }

  /** Masked text holds no quote, no tick and no comment opener. */
  lemma NothingOpensInMasked(text: string)
    ensures NothingOpens(Masked(text))
  {
    var m := Masked(text);
    MaskingKeepsLayout(text);
    forall k | 0 <= k < |m|
      ensures m[k] != '\"' && m[k] != '\'' && !PairAt(m, k, '/', '/') && !PairAt(m, k, '/', '*')
    {
      if InCode(text, k) {
        CodeCharOpensCode(text, 0, k);
        NoOpenerAt(text, m, k);
      } else {
        BlankOpensNothing(m, k);
      }
    }
  }

  lemma {:induction false} PlainTextUnchanged(text: string, lo: nat)
    requires NothingOpens(text) && lo <= |text|
    ensures MaskedFrom(text, lo) == text[lo..]
    decreases |text| - lo
  {
    if lo < |text| {
      var q := SkipHashes(text, lo + RawPrefix(text, lo));
      assert KindAt(text, lo) == Code;
      PlainTextUnchanged(text, lo + 1);
      assert text[lo..] == text[lo..lo + 1] + text[lo + 1..];
    }
  }

  /** Masking changes nothing exactly when the text holds no literal and no comment. */
  lemma MaskedUnchangedIff(text: string)
    ensures Masked(text) == text <==> NothingOpens(text)
  {
    NothingOpensInMasked(text);
    if NothingOpens(text) {
      PlainTextUnchanged(text, 0);
    }
  }

  /** Masking twice is masking once. */
  lemma MaskingIsIdempotent(text: string)
    ensures Masked(Masked(text)) == Masked(text)
  {
    NothingOpensInMasked(text);
    MaskedUnchangedIff(Masked(text));
  }
}
