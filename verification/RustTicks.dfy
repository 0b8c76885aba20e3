// Which apostrophes open a character literal and which begin a lifetime, and
// how far the masker, which takes every one for a literal, agrees with that.

module RustTicks {
  import opened RustLexing
  import opened RustMasker
  import opened FloatScan
  import opened PyStrings

  // ======== The division in which a lifetime's tick is code ========

  /** A tick opens a character literal when an escape follows it, or one character and the closing tick. */
  predicate OpensChar(text: string, lo: nat) {
    && lo + 1 < |text| && text[lo] == '\''
    && (text[lo + 1] == '\\'
        || (lo + 2 < |text| && text[lo + 1] != '\'' && text[lo + 1] != '\n' && text[lo + 2] == '\''))
  }

  /** A tick that opens no literal: a lifetime's or a label's. */
  predicate IsStray(text: string, lo: nat) {
    lo < |text| && text[lo] == '\'' && !OpensChar(text, lo)
  }

  /** The segment at lo when stray ticks are code. */
  function TrueSegment(text: string, lo: nat): (s: Segment)
    requires lo < |text|
    ensures s.lo == lo < s.hi <= |text|
  {
    if IsStray(text, lo) then Segment(Code, lo, lo + 1) else NextSegment(text, lo)
  }

  function TrueLex(text: string, lo: nat): seq<Segment>
    requires lo <= |text|
    decreases |text| - lo
  {
    if lo == |text| then [] else [TrueSegment(text, lo)] + TrueLex(text, TrueSegment(text, lo).hi)
  }

  /** A segment of a division in which exactly the ticks that open a literal are not code. */
  ghost predicate IsTrueSegment(text: string, s: Segment) {
    && s.lo < s.hi <= |text|
    && if IsStray(text, s.lo) then s.kind == Code && s.hi == s.lo + 1 else IsSegment(text, s)
  }

  ghost predicate TrueSegmentation(text: string, lo: nat, segs: seq<Segment>)
    decreases |segs|
  {
    if segs == [] then lo == |text|
    else segs[0].lo == lo && IsTrueSegment(text, segs[0]) && TrueSegmentation(text, segs[0].hi, segs[1..])
  }

  /** This division, too, exists for every text and is the only one. */
  lemma {:induction false} TrueSegmentationIff(text: string, lo: nat, segs: seq<Segment>)
    requires lo <= |text|
    ensures TrueSegmentation(text, lo, segs) <==> segs == TrueLex(text, lo)
    decreases |text| - lo
  {
    if lo < |text| && segs != [] && segs[0].lo == lo {
      SegmentIff(text, segs[0]);
      if segs[0] == TrueSegment(text, lo) {
        TrueSegmentationIff(text, segs[0].hi, segs[1..]);
        assert segs == [segs[0]] + segs[1..];
      }
    }
  }

  /** No tick stands in code: every one opens a literal or lies in a comment or literal. */
  ghost predicate NoStrayTick(text: string, segs: seq<Segment>) {
    forall s :: s in segs && s.kind == Code ==> s.lo < |text| && text[s.lo] != '\''
  }

  lemma CodeAtTickIsStray(text: string, lo: nat)
    requires lo < |text| && text[lo] == '\''
    ensures TrueSegment(text, lo).kind == Code <==> IsStray(text, lo)
    ensures KindAt(text, lo) == CharLiteral
  {}

  /** The masker divides the text as it should exactly when no lifetime's tick stands in code. */
  lemma {:induction false} LexIsTrueIff(text: string, lo: nat)
    requires lo <= |text|
    ensures Lex(text, lo) == TrueLex(text, lo) <==> NoStrayTick(text, TrueLex(text, lo))
    decreases |text| - lo
  {
    if lo < |text| {
      var s, hi := TrueSegment(text, lo), TrueSegment(text, lo).hi;
      var rest := TrueLex(text, hi);
      assert TrueLex(text, lo) == [s] + rest;
      NoStrayTickCons(text, s, rest);
      if IsStray(text, lo) {
        CodeAtTickIsStray(text, lo);
        assert Lex(text, lo)[0] != s;
      } else {
        LexIsTrueIff(text, hi);
        assert Lex(text, lo) == [s] + Lex(text, hi);
        assert ([s] + Lex(text, hi))[1..] == Lex(text, hi) && ([s] + rest)[1..] == rest;
        if s.kind == Code && text[lo] == '\'' {
          CodeAtTickIsStray(text, lo);
        }
      }
    }
  }

  lemma NoStrayTickCons(text: string, s: Segment, rest: seq<Segment>)
    ensures NoStrayTick(text, [s] + rest)
      <==> (s.kind == Code ==> s.lo < |text| && text[s.lo] != '\'') && NoStrayTick(text, rest)
  {
    assert forall t :: t in [s] + rest <==> t == s || t in rest;
  }

  // ======== What is masked ========

  /** What masking by this division would give. */
  function TrueMasked(text: string, lo: nat): string
    requires lo <= |text|
    decreases |text| - lo
  {
    if lo == |text| then ""
    else Render(text, TrueSegment(text, lo)) + TrueMasked(text, TrueSegment(text, lo).hi)
  }

  /** The masker blanks exactly the comments and literals of a text exactly when no lifetime's tick stands in code. */
  lemma {:induction false} MaskingIsTrueIff(text: string, lo: nat)
    requires lo <= |text|
    ensures MaskedFrom(text, lo) == TrueMasked(text, lo) <==> NoStrayTick(text, TrueLex(text, lo))
    decreases |text| - lo
  {
    if lo < |text| {
      var s, hi := TrueSegment(text, lo), TrueSegment(text, lo).hi;
      MaskedStep(text, lo);
      NoStrayTickCons(text, s, TrueLex(text, hi));
      if IsStray(text, lo) {
        CodeAtTickIsStray(text, lo);
        RenderAt(text, lo, SegmentEnd(text, lo), lo);
        assert MaskedFrom(text, lo)[0] == ' ' && TrueMasked(text, lo)[0] == '\'';
      } else {
        MaskingIsTrueIff(text, hi);
        SameAfterPrefix(Render(text, s), MaskedFrom(text, hi), TrueMasked(text, hi));
        if s.kind == Code && text[lo] == '\'' {
          CodeAtTickIsStray(text, lo);
        }
      }
    }
  }

  lemma SameAfterPrefix(a: string, b: string, c: string)
    ensures a + b == a + c <==> b == c
  {
    assert (a + b)[|a|..] == b && (a + c)[|a|..] == c;
  }

  // ======== What is found ========

  ghost function TrueKindOf(text: string, lo: nat, k: nat): Kind
    requires lo <= k < |text|
    decreases |text| - lo
  {
    var s := TrueSegment(text, lo);
    if k < s.hi then s.kind else TrueKindOf(text, s.hi, k)
  }

  /** The character at k belongs to code when stray ticks are code. */
  ghost predicate InTrueCode(text: string, k: nat)
    requires k < |text|
  {
    TrueKindOf(text, 0, k) == Code
  }

  lemma {:induction false} KindsAgree(text: string, lo: nat, k: nat)
    requires lo <= k < |text| && NoStrayTick(text, TrueLex(text, lo))
    ensures KindOf(text, lo, k) == TrueKindOf(text, lo, k)
    decreases |text| - lo
  {
    var s := TrueSegment(text, lo);
    NoStrayTickCons(text, s, TrueLex(text, s.hi));
    if text[lo] == '\'' {
      CodeAtTickIsStray(text, lo);
    }
    if k >= s.hi {
      KindsAgree(text, s.hi, k);
    }
  }

  /** A word `f32` or `f64` that stands in code when stray ticks are code. */
  ghost predicate TrueCodeWord(text: string, p: nat, wide: char -> bool) {
    && p + 3 <= |text| && (text[p..p + 3] == "f32" || text[p..p + 3] == "f64")
    && InTrueCode(text, p) && InTrueCode(text, p + 1) && InTrueCode(text, p + 2)
    && FreeOnLeft(text, p, wide) && FreeOnRight(text, p + 3, wide)
  }

  /** Without a lifetime's tick in code no float word is missed, and only a raw string's prefix adds one. */
  lemma NoneMissedWithoutLifetimes(text: string, p: nat, wide: char -> bool)
    requires NoStrayTick(text, TrueLex(text, 0))
    ensures p in FloatStarts(Masked(text), 0, wide)
       <==> TrueCodeWord(text, p, wide) || RunsIntoRawString(text, p, wide)
  {
    FoundIff(text, p, wide);
    forall k | 0 <= k < |text| ensures InCode(text, k) <==> InTrueCode(text, k) {
      KindsAgree(text, 0, k);
    }
  }

  // ======== How far a tick hides what follows ========

  lemma {:induction false} InsideSegment(text: string, from: nat, lo: nat, p: nat)
    requires from <= lo < p < |text| && text[lo] == '\'' && SegmentEnd(text, lo) > p && KindAt(text, lo) == CharLiteral
    requires from == lo || KindOf(text, from, lo - 1) == Code
    ensures KindOf(text, from, p) == CharLiteral
    decreases |text| - from
  {
    var hi := SegmentEnd(text, from);
    if from < lo {
      assert hi <= lo;
      if hi < lo {
        assert KindOf(text, from, lo - 1) == KindOf(text, hi, lo - 1);
      }
      InsideSegment(text, hi, lo, p);
      assert KindOf(text, from, p) == KindOf(text, hi, p);
    }
  }

  /** A tick met in code hides exactly what comes before the first unescaped newline or up to the first unescaped
      tick. */
  lemma TickHidesIff(text: string, lo: nat, p: nat)
    requires lo < p < |text| && text[lo] == '\'' && (lo == 0 || InCode(text, lo - 1))
    ensures p < SegmentEnd(text, lo)
      <==> (forall k :: lo < k < p && text[k] == '\'' ==> !Live(text, lo, k))
           && (forall k :: lo < k <= p && text[k] == '\n' ==> !Live(text, lo, k))
    ensures p < SegmentEnd(text, lo) ==> !InCode(text, p)
  {
    KindIff(text, CharLiteral, lo);
    SegmentEndHolds(text, lo);
    if p < SegmentEnd(text, lo) {
      InsideSegment(text, 0, lo, p);
    }
  }

  /** So a lone apostrophe hides the rest of its line, up to a further tick or a backslash. */
  lemma ApostropheHidesRestOfLine(text: string, lo: nat, p: nat, wide: char -> bool)
    requires lo < p < |text| && text[lo] == '\'' && (lo == 0 || InCode(text, lo - 1))
    requires forall k :: lo < k <= p ==> text[k] != '\'' && text[k] != '\\' && text[k] != '\n'
    ensures !InCode(text, p) && p !in FloatStarts(Masked(text), 0, wide)
  {
    TickHidesIff(text, lo, p);
    FoundIff(text, p, wide);
  }

  // ---- Two declarations with lifetimes ----

  /** A character that starts no segment but a code one. */
  predicate IsPlain(c: char) {
    c != '\'' && c != '\"' && c != '/' && c != 'r' && c != 'b'
  }

  lemma {:induction false} PlainRunIsCode(text: string, lo: nat, k: nat)
    requires lo <= k < |text| && forall j :: lo <= j <= k ==> IsPlain(text[j])
    ensures KindOf(text, lo, k) == Code
    decreases k - lo
  {
    if lo < k {
      PlainRunIsCode(text, lo + 1, k);
    }
  }

  /** Without any lifetime or literal: the one float type is reported, on line 1. */
  lemma FloatIsReported(text: string, wide: char -> bool)
    requires text == "let x: f64 = y;"
    ensures var starts := FloatStarts(Masked(text), 0, wide);
      Inside(text, starts) && ReportAll(text, starts) == [Finding(1, "f64")]
  {
    var starts := FloatStarts(Masked(text), 0, wide);
    OneFloatWord(text, wide);
    assert text[7..10] == [text[7], text[8], text[9]];
    OnlyStart(starts, 7);
    CountNewlinesMonotone(text, 0, 7);
  }

  lemma OneFloatWord(text: string, wide: char -> bool)
    requires text == "let x: f64 = y;"
    ensures forall p: nat :: p in FloatStarts(Masked(text), 0, wide) <==> p == 7
  {
    PlainRunIsCode(text, 0, 7);
    PlainRunIsCode(text, 0, 8);
    PlainRunIsCode(text, 0, 9);
    forall p: nat ensures p in FloatStarts(Masked(text), 0, wide) <==> p == 7 {
      FoundIff(text, p, wide);
      SpelledStart(text, p);
    }
  }

  lemma SpelledStart(text: string, p: nat)
    ensures Spelled(text, p) ==> text[p] == 'f'
  {
    if p + 3 <= |text| {
      assert text[p..p + 3] == [text[p], text[p + 1], text[p + 2]];
    }
  }

  lemma OnlyStart(starts: seq<nat>, p: nat)
    requires forall q: nat :: q in starts <==> q == p
    requires forall i, j :: 0 <= i < j < |starts| ==> starts[i] < starts[j]
    ensures starts == [p]
  {
    assert p in starts;
    assert |starts| > 1 ==> starts[0] < starts[1];
    forall i | 0 <= i < |starts| ensures starts[i] == p {
      assert starts[i] in starts;
    }
    assert starts == [p];
  }

  lemma {:induction false} TrueRunIsCode(text: string, lo: nat, k: nat)
    requires lo <= k < |text| && forall j :: lo <= j <= k ==> IsPlain(text[j]) || IsStray(text, j)
    ensures TrueKindOf(text, lo, k) == Code
    decreases k - lo
  {
    if lo < k {
      TrueRunIsCode(text, lo + 1, k);
    }
  }

  /** A float type behind a lifetime is code, and is missed. */
  lemma LifetimeHidesFloat(text: string, wide: char -> bool)
    requires text == "&'a f32"
    ensures TrueCodeWord(text, 4, wide) && 4 !in FloatStarts(Masked(text), 0, wide)
  {
    assert IsStray(text, 1);
    TrueRunIsCode(text, 0, 4);
    TrueRunIsCode(text, 0, 5);
    TrueRunIsCode(text, 0, 6);
    PlainRunIsCode(text, 0, 0);
    ApostropheHidesRestOfLine(text, 1, 4, wide);
  }

  lemma {:induction false} SkipPlain(text: string, from: nat, lo: nat, k: nat)
    requires from <= lo <= k < |text| && forall j :: from <= j < lo ==> IsPlain(text[j])
    ensures KindOf(text, from, k) == KindOf(text, lo, k)
    decreases lo - from
  {
    if from < lo {
      SkipPlain(text, from + 1, lo, k);
    }
  }

  lemma {:induction false} CharEndAtTick(text: string, i: nat, q: nat)
    requires i <= q < |text| && text[q] == '\''
    requires forall k :: i <= k < q ==> text[k] != '\'' && text[k] != '\\' && text[k] != '\n'
    ensures CharEnd(text, i) == q + 1
    decreases q - i
  {
    if i < q {
      CharEndAtTick(text, i + 1, q);
    }
  }

  /** What stands between two ticks is hidden; plain text behind the second one is code again. */
  lemma SecondTickReveals(text: string, lo: nat, q: nat, p: nat)
    requires lo < q < p < |text| && text[lo] == '\'' && text[q] == '\''
    requires forall k :: 0 <= k <= p && k != lo && k != q ==> IsPlain(text[k])
    requires forall k :: lo < k < q ==> text[k] != '\\' && text[k] != '\n'
    ensures InCode(text, p)
  {
    SkipPlain(text, 0, lo, p);
    CharEndAtTick(text, lo + 1, q);
    CodeAtTickIsStray(text, lo);
    PlainRunIsCode(text, q + 1, p);
  }

  /** So here the float type is found, although it stands behind a lifetime. */
  lemma SecondLifetimeReveals(text: string, wide: char -> bool)
    requires text == "&'a x: &'a f32"
    ensures 11 in FloatStarts(Masked(text), 0, wide)
  {
    SecondTickReveals(text, 1, 8, 11);
    SecondTickReveals(text, 1, 8, 12);
    SecondTickReveals(text, 1, 8, 13);
    FoundIff(text, 11, wide);
  }
}
