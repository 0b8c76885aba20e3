// The Python `str` operations the text scanners use.

module PyStrings {

  /** `text.startswith(pat, i)`. */
  predicate MatchesAt(text: string, i: nat, pat: string) {
    i + |pat| <= |text| && text[i..i + |pat|] == pat
  }

  /** `text.startswith` for a pattern of two characters. */
  predicate PairAt(text: string, i: nat, a: char, b: char) {
    i + 1 < |text| && text[i] == a && text[i + 1] == b
  }

  /** `text.find(pat, start)`. */
  function Find(text: string, pat: string, start: nat): (r: int)
    ensures r >= -1 && (r >= 0 ==> start <= r && r + |pat| <= |text|)
    decreases |text| - start
  {
    if start + |pat| > |text| then -1
    else if MatchesAt(text, start, pat) then start
    else Find(text, pat, start + 1)
  }

  /** `find` gives the leftmost place at or after start where the pattern matches, if there is one. */
  lemma {:induction false} FindSpec(text: string, pat: string, start: nat)
    ensures var r := Find(text, pat, start);
      && (r >= 0 ==> MatchesAt(text, r, pat))
      && forall i: nat :: start <= i && (r < 0 || i < r) ==> !MatchesAt(text, i, pat)
    decreases |text| - start
  {
    if start + |pat| <= |text| && !MatchesAt(text, start, pat) {
      FindSpec(text, pat, start + 1);
    }
  }

  /** Searching for a newline finds the first one. */
  lemma FindNewline(text: string, i: nat)
    requires i <= |text|
    ensures var e := Find(text, "\n", i);
      && (e >= 0 ==> i <= e < |text| && text[e] == '\n')
      && forall k :: i <= k < (if e >= 0 then e else |text|) ==> text[k] != '\n'
  {
    FindSpec(text, "\n", i);
    var e := Find(text, "\n", i);
    NewlineMatches(text, if e >= 0 then e else i);
    forall k: nat | i <= k < (if e >= 0 then e else |text|) ensures text[k] != '\n' {
      NewlineMatches(text, k);
    }
  }

  lemma NewlineMatches(text: string, k: nat)
    ensures MatchesAt(text, k, "\n") <==> k < |text| && text[k] == '\n'
  {
    if k < |text| {
      assert text[k..k + 1] == [text[k]];
    }
  }

  /** `text.count("\n", 0, offset)`. */
  function CountNewlines(text: string, offset: nat): (n: nat)
    requires offset <= |text|
    ensures n <= offset
  {
    if offset == 0 then 0
    else CountNewlines(text, offset - 1) + if text[offset - 1] == '\n' then 1 else 0
  }

  /** The 1-based line number a finding at offset reports. */
  function LineForOffset(text: string, offset: nat): nat
    requires offset <= |text|
  {
    CountNewlines(text, offset) + 1
  }

  lemma {:induction false} CountNewlinesMonotone(text: string, a: nat, b: nat)
    requires a <= b <= |text|
    ensures CountNewlines(text, a) <= CountNewlines(text, b)
    ensures CountNewlines(text, a) == CountNewlines(text, b) <==> forall k :: a <= k < b ==> text[k] != '\n'
    decreases b - a
  {
    if a < b {
      CountNewlinesMonotone(text, a, b - 1);
    }
  }

  /** A line number is one more than the count of newlines before the offset. */
  lemma {:induction false} LineCountsNewlines(text: string, offset: nat)
    requires offset <= |text|
    ensures LineForOffset(text, offset) == 1 + |set k | 0 <= k < offset && text[k] == '\n'|
  {
    var before := set k | 0 <= k < offset && text[k] == '\n';
    if offset > 0 {
      LineCountsNewlines(text, offset - 1);
      var rest := set k | 0 <= k < offset - 1 && text[k] == '\n';
      assert before == rest + if text[offset - 1] == '\n' then {offset - 1} else {};
    } else {
      assert before == {};
    }
  }
}
