// Searching texts for forbidden markers and excusing allowed lines.

module MarkerSearch {
  import opened Lists
  import opened PyStrings

  // ======== Lines ========

  /** The characters and pairs `str.splitlines` breaks at. */
  predicate IsBreak(c: char) {
    || '\n' <= c <= '\r' || '\U{1C}' <= c <= '\U{1E}' || c == '\U{85}' || c == '\U{2028}' || c == '\U{2029}'
  }

  predicate IsCrLf(text: string, e: nat) {
    e + 1 < |text| && text[e] == '\r' && text[e + 1] == '\n'
  }

  /** `text.splitlines()`. */
  function SplitLines(text: string): seq<string>
    decreases |text|
  {
    if text == "" then []
    else
      var e := LineBreak(text, 0);
      if e == |text| then [text]
      else [text[..e]] + SplitLines(text[if IsCrLf(text, e) then e + 2 else e + 1..])
  }

  /** The first line break at or after i. */
  function LineBreak(text: string, i: nat): (e: nat)
    requires i <= |text|
    ensures i <= e <= |text| && (e < |text| ==> IsBreak(text[e]))
    decreases |text| - i
  {
    if i == |text| || IsBreak(text[i]) then i else LineBreak(text, i + 1)
  }

  /** `_line_at`. */
  function LineAt(text: string, line: nat): string {
    NthLine(SplitLines(text), line)
  }

  function NthLine(lines: seq<string>, line: nat): string {
    if line == 0 || line > |lines| then "" else lines[line - 1]
  }

  /** Where the line holding position i starts, counting only `\n` as a break. */
  function LineStart(text: string, i: nat): (s: nat)
    requires i <= |text|
    ensures s <= i
  {
    if i == 0 || text[i - 1] == '\n' then i else LineStart(text, i - 1)
  }

  function LineStop(text: string, i: nat): (e: nat)
    requires i <= |text|
    ensures i <= e <= |text|
    decreases |text| - i
  {
    if i == |text| || text[i] == '\n' then i else LineStop(text, i + 1)
  }

  /** Between the two ends of its line a position meets no line break. */
  lemma {:induction false} StopIsFirst(text: string, i: nat)
    requires i <= |text|
    ensures forall k :: i <= k < LineStop(text, i) ==> text[k] != '\n'
    ensures LineStop(text, i) < |text| ==> text[LineStop(text, i)] == '\n'
    decreases |text| - i
  {
    if i < |text| && text[i] != '\n' {
      StopIsFirst(text, i + 1);
    }
  }

  lemma {:induction false} StartIsLast(text: string, i: nat)
    requires i <= |text|
    ensures forall k :: LineStart(text, i) <= k < i ==> text[k] != '\n'
    ensures LineStart(text, i) > 0 ==> text[LineStart(text, i) - 1] == '\n'
  {
    if i > 0 && text[i - 1] != '\n' {
      StartIsLast(text, i - 1);
    }
  }

  /** The line holding position i. */
  function LineOf(text: string, i: nat): string
    requires i <= |text|
  {
    text[LineStart(text, i)..LineStop(text, i)]
  }

  /** The only line break in the text is `\n`. */
  ghost predicate PlainLines(text: string) {
    forall k :: 0 <= k < |text| && IsBreak(text[k]) ==> text[k] == '\n'
  }

  lemma {:induction false} StopIsBreak(text: string, i: nat)
    requires PlainLines(text) && i <= |text|
    ensures LineStop(text, i) == LineBreak(text, i)
    decreases |text| - i
  {
    if i < |text| && text[i] != '\n' {
      StopIsBreak(text, i + 1);
    }
  }

  lemma {:induction false} StopOfSuffix(text: string, s: nat, i: nat)
    requires s <= i <= |text|
    ensures LineStop(text[s..], i - s) == LineStop(text, i) - s
    decreases |text| - i
  {
    if i < |text| && text[i] != '\n' {
      StopOfSuffix(text, s, i + 1);
    }
  }

  lemma {:induction false} CountOfSuffix(text: string, s: nat, i: nat)
    requires s <= |text| && i <= |text| - s
    ensures CountNewlines(text[s..], i) == CountNewlines(text, s + i) - CountNewlines(text, s)
  {
    if i > 0 {
      CountOfSuffix(text, s, i - 1);
    }
  }

  lemma {:induction false} StartOfSuffix(text: string, s: nat, i: nat)
    requires 0 < s <= i <= |text| && text[s - 1] == '\n'
    ensures s <= LineStart(text, i) && LineStart(text[s..], i - s) == LineStart(text, i) - s
    decreases i
  {
    if s < i && text[i - 1] != '\n' {
      StartOfSuffix(text, s, i - 1);
    }
  }

  /** Past the first line, lines are looked up in what follows it. */
  lemma LineAtStep(text: string, e: nat, line: nat)
    requires e == LineBreak(text, 0) && e < |text| && text[e] == '\n' && line >= 2
    ensures LineAt(text, line) == LineAt(text[e + 1..], line - 1)
  {
    SplitStep(text, e);
    NthOfTail(text[..e], SplitLines(text[e + 1..]), line);
  }

  lemma SplitStep(text: string, e: nat)
    requires e == LineBreak(text, 0) && e < |text| && text[e] == '\n'
    ensures SplitLines(text) == [text[..e]] + SplitLines(text[e + 1..])
  {
  }

  lemma NthOfTail(first: string, rest: seq<string>, line: nat)
    requires line >= 2
    ensures NthLine([first] + rest, line) == NthLine(rest, line - 1)
  {
  }

  lemma LineOfStep(text: string, s: nat, i: nat)
    requires 0 < s <= i <= |text| && text[s - 1] == '\n'
    ensures LineOf(text[s..], i - s) == LineOf(text, i)
  {
    StartOfSuffix(text, s, i);
    StopOfSuffix(text, s, i);
    SameSlice(text, text[s..], s, LineStart(text, i), LineStop(text, i));
  }

  lemma SameSlice(text: string, rest: string, s: nat, a: nat, b: nat)
    requires s <= a <= b <= |text| && rest == text[s..]
    ensures rest[a - s..b - s] == text[a..b]
  {}

  lemma {:induction false} StartOnFirstLine(text: string, i: nat)
    requires i <= LineStop(text, 0)
    ensures LineStart(text, i) == 0
  {
    StopIsFirst(text, 0);
    if i > 0 {
      StartOnFirstLine(text, i - 1);
    }
  }

  lemma LineForStep(text: string, e: nat, i: nat)
    requires e == LineStop(text, 0) && e < i <= |text|
    ensures LineForOffset(text, i) >= 2 && LineForOffset(text[e + 1..], i - e - 1) == LineForOffset(text, i) - 1
  {
    CountOfSuffix(text, e + 1, i - e - 1);
    CountNewlinesMonotone(text, 0, e);
    StopIsFirst(text, 0);
  }

  lemma PlainSuffix(text: string, s: nat)
    requires PlainLines(text) && s <= |text|
    ensures PlainLines(text[s..])
  {
    var rest := text[s..];
    forall k | 0 <= k < |rest| && IsBreak(rest[k]) ensures rest[k] == '\n' {
      assert rest[k] == text[s + k];
    }
  }

  /** In plain text the line looked up by number is the line the position is on. */
  lemma {:induction false} LineAtIsLineOf(text: string, i: nat)
    requires PlainLines(text) && i <= |text|
    ensures LineAt(text, LineForOffset(text, i)) == LineOf(text, i)
    decreases |text|
  {
    var e := LineStop(text, 0);
    if i <= e {
      FirstLine(text, i);
    } else {
      StopIsFirst(text, 0);
      PlainSuffix(text, e + 1);
      LineAtIsLineOf(text[e + 1..], i - e - 1);
      LaterLineAt(text, e, i);
      LineOfStep(text, e + 1, i);
    }
  }

  lemma LaterLineAt(text: string, e: nat, i: nat)
    requires PlainLines(text) && e == LineStop(text, 0) && e < i <= |text|
    ensures LineAt(text, LineForOffset(text, i)) == LineAt(text[e + 1..], LineForOffset(text[e + 1..], i - e - 1))
  {
    var line := LineForOffset(text, i);
    LineForStep(text, e, i);
    StopIsBreak(text, 0);
    StopIsFirst(text, 0);
    LineAtStep(text, e, line);
  }

  lemma FirstLine(text: string, i: nat)
    requires i <= LineStop(text, 0) && PlainLines(text)
    ensures LineAt(text, LineForOffset(text, i)) == LineOf(text, i)
  {
    FirstLineNumber(text, i);
    StopIsBreak(text, 0);
    var e := LineStop(text, 0);
    StartOnFirstLine(text, i);
    StopIsFirst(text, 0);
    SameStop(text, 0, i);
    if text != "" {
      assert text[..|text|] == text;
    }
  }

  lemma FirstLineNumber(text: string, i: nat)
    requires i <= LineStop(text, 0)
    ensures LineForOffset(text, i) == 1
  {
    StopIsFirst(text, 0);
    CountNewlinesMonotone(text, 0, i);
  }

  lemma {:induction false} SameStop(text: string, a: nat, b: nat)
    requires a <= b <= |text| && forall k :: a <= k < b ==> text[k] != '\n'
    ensures LineStop(text, a) == LineStop(text, b)
    decreases b - a
  {
    if a < b {
      SameStop(text, a + 1, b);
    }
  }

  // ======== The search ========

  datatype Allowance = Allowance(path: string, token: string)

  datatype Finding = Finding(path: string, line: nat, marker: string)

  /** `needle in text`. */
  predicate Contains(text: string, needle: string) {
    Find(text, needle, 0) >= 0
  }

  /** `_allowed`. */
  predicate Allowed(allowances: seq<Allowance>, path: string, excerpt: string) {
    allowances != [] &&
    ((allowances[0].path == path && Contains(excerpt, allowances[0].token)) || Allowed(allowances[1..], path, excerpt))
  }

  /** How far the search moves on from an occurrence. */
  function Advance(marker: string): (n: nat)
    ensures n > 0 && n >= |marker| && (marker != "" ==> n == |marker|)
  {
    if marker == "" then 1 else |marker|
  }

  /** What one visited occurrence reports. */
  function ReportOne(allowances: seq<Allowance>, path: string, text: string, marker: string, index: nat): seq<Finding>
    requires index <= |text|
  {
    var line := LineForOffset(text, index);
    if Allowed(allowances, path, LineAt(text, line)) then [] else [Finding(path, line, marker)]
  }

  predicate Within(text: string, visits: seq<nat>) {
    forall k :: 0 <= k < |visits| ==> visits[k] <= |text|
  }

  /** The occurrences the loop visits from start on: leftmost, then leftmost after the end of the last. */
  function Visits(text: string, marker: string, start: nat): seq<nat>
    decreases |text| + 1 - start
  {
    var index := Find(text, marker, start);
    if index < 0 then [] else [index as nat] + Visits(text, marker, index + Advance(marker))
  }

  lemma {:induction false} VisitsWithin(text: string, marker: string, start: nat)
    ensures Within(text, Visits(text, marker, start))
    decreases |text| + 1 - start
  {
    var index := Find(text, marker, start);
    if index >= 0 {
      VisitsWithin(text, marker, index + Advance(marker));
    }
  }

  function Reports(allowances: seq<Allowance>, path: string, text: string, marker: string,
          visits: seq<nat>): seq<seq<Finding>>
    requires Within(text, visits)
  {
    seq(|visits|, k requires 0 <= k < |visits| => ReportOne(allowances, path, text, marker, visits[k]))
  }

  /** What the search of one text for one marker reports. */
  function ReportMarker(allowances: seq<Allowance>, path: string, text: string, marker: string): seq<Finding> {
    VisitsWithin(text, marker, 0);
    Concat(Reports(allowances, path, text, marker, Visits(text, marker, 0)))
  }

  /** Where the search goes on after the first k visits. */
  function ResumeAt(marker: string, visits: seq<nat>, k: nat): nat
    requires k <= |visits|
  {
    if k == 0 then 0 else visits[k - 1] + Advance(marker)
  }

  lemma ResumeShift(marker: string, index: nat, rest: seq<nat>, k: nat)
    requires 0 < k <= |rest| + 1
    ensures var visits := [index] + rest;
      && ResumeAt(marker, visits, k) == (if k == 1 then index + Advance(marker) else ResumeAt(marker, rest, k - 1))
      && (k < |visits| ==> visits[k] == rest[k - 1])
  {}

  /** From the k-th visit on the search finds the next one, and after the last it finds nothing. */
  lemma {:induction false} NextVisit(text: string, marker: string, start: nat, k: nat)
    requires k <= |Visits(text, marker, start)|
    ensures var visits := Visits(text, marker, start);
      Find(text, marker, if k == 0 then start else ResumeAt(marker, visits, k))
        == if k < |visits| then visits[k] else -1
    decreases k
  {
    if k > 0 {
      var index := Find(text, marker, start);
      var rest := Visits(text, marker, index + Advance(marker));
      NextVisit(text, marker, index + Advance(marker), k - 1);
      ResumeShift(marker, index, rest, k);
    }
  }

  /** The `while` loop over one text and marker. */
  method SearchMarker(allowances: seq<Allowance>, path: string, text: string, marker: string)
      returns (findings: seq<Finding>)
    ensures findings == ReportMarker(allowances, path, text, marker)
  {
    ghost var visits := Visits(text, marker, 0);
    VisitsWithin(text, marker, 0);
    ghost var parts := Reports(allowances, path, text, marker, visits);
    ghost var k: nat := 0;
    findings := [];
    var start: nat := 0;
    while true
      invariant start <= |text| + 1 && k <= |visits|
      invariant start == ResumeAt(marker, visits, k)
      invariant findings == Concat(parts[..k])
      decreases |text| + 1 - start
    {
      NextVisit(text, marker, 0, k);
      var index := Find(text, marker, start);
      if index < 0 {
        break;
      }
      var more := ReportAt(allowances, path, text, marker, index);
      ConcatUpTo(parts, k);
      findings := findings + more;
      start := index + Advance(marker);
      k := k + 1;
    }
    assert parts[..k] == parts;
  }

  /** The loop's body after an occurrence is found. */
  method ReportAt(allowances: seq<Allowance>, path: string, text: string, marker: string, index: nat)
      returns (findings: seq<Finding>)
    requires index <= |text|
    ensures findings == ReportOne(allowances, path, text, marker, index)
  {
    findings := [];
    var line := LineForOffset(text, index);
    var excerpt := LineAt(text, line);
    if !Allowed(allowances, path, excerpt) {
      findings := [Finding(path, line, marker)];
    }
  }

  datatype Source = Source(path: string, text: string)

  function ReportMarkers(allowances: seq<Allowance>, source: Source, markers: seq<string>): seq<seq<Finding>> {
    seq(|markers|, j requires 0 <= j < |markers| => ReportMarker(allowances, source.path, source.text, markers[j]))
  }

  function ReportSources(allowances: seq<Allowance>, sources: seq<Source>, markers: seq<string>): seq<seq<Finding>> {
    seq(|sources|, i requires 0 <= i < |sources| => Concat(ReportMarkers(allowances, sources[i], markers)))
  }

  /** The loop over the markers, for one text. */
  method SearchText(allowances: seq<Allowance>, source: Source, markers: seq<string>) returns (findings: seq<Finding>)
    ensures findings == Concat(ReportMarkers(allowances, source, markers))
  {
    findings := [];
    ghost var parts := ReportMarkers(allowances, source, markers);
    for j := 0 to |markers|
      invariant findings == Concat(parts[..j])
    {
      var more := SearchMarker(allowances, source.path, source.text, markers[j]);
      findings := findings + more;
      ConcatUpTo(parts, j);
    }
    assert parts[..|markers|] == parts;
  }

  /** `_forbidden_marker_check`. */
  method ForbiddenMarkerCheck(allowances: seq<Allowance>, sources: seq<Source>, markers: seq<string>)
      returns (ok: bool, findings: seq<Finding>)
    ensures findings == Concat(ReportSources(allowances, sources, markers)) && (ok <==> findings == [])
  {
    findings := [];
    ghost var parts := ReportSources(allowances, sources, markers);
    for i := 0 to |sources|
      invariant findings == Concat(parts[..i])
    {
      var more := SearchText(allowances, sources[i], markers);
      findings := findings + more;
      ConcatUpTo(parts, i);
    }
    assert parts[..|sources|] == parts;
    ok := findings == [];
  }

  // ======== Completeness per line ========

  /** The marker has no line break in it. */
  ghost predicate OneLine(marker: string) {
    forall k :: 0 <= k < |marker| ==> marker[k] != '\n'
  }

  /** The marker occurs at p. */
  ghost predicate Occurs(text: string, p: nat, marker: string) {
    p + |marker| <= |text| && MatchesAt(text, p, marker)
  }

  lemma {:induction false} VisitsOccur(text: string, marker: string, start: nat)
    ensures forall k :: 0 <= k < |Visits(text, marker, start)| ==> Occurs(text, Visits(text, marker, start)[k], marker)
    decreases |text| + 1 - start
  {
    var index := Find(text, marker, start);
    FindSpec(text, marker, start);
    if index >= 0 {
      VisitsOccur(text, marker, index + Advance(marker));
    }
  }

  /** Every occurrence has a visited one at or before it on its line. */
  lemma {:induction false} VisitsEveryLine(text: string, marker: string, start: nat, p: nat) returns (index: nat)
    requires OneLine(marker) && Occurs(text, p, marker)
    requires start <= LineStart(text, p)
    ensures index in Visits(text, marker, start) && LineStart(text, p) <= index <= p
    decreases |text| + 1 - start
  {
    var found := FoundBy(text, marker, start, p);
    var first := LineStart(text, p);
    VisitsFound(text, marker, start, found);
    if first <= found {
      index := found;
    } else {
      StartIsLast(text, p);
      OccurrenceStaysOnLine(text, marker, found, first);
      index := VisitsEveryLine(text, marker, found + Advance(marker), p);
    }
  }

  lemma FoundBy(text: string, marker: string, start: nat, p: nat) returns (index: nat)
    requires Occurs(text, p, marker) && start <= p
    ensures start <= index <= p && Occurs(text, index, marker) && index == Find(text, marker, start)
  {
    FindSpec(text, marker, start);
    index := Find(text, marker, start);
  }

  lemma VisitsFound(text: string, marker: string, start: nat, index: nat)
    requires index == Find(text, marker, start)
    ensures index in Visits(text, marker, start)
    ensures forall later ::
      later in Visits(text, marker, index + Advance(marker)) ==> later in Visits(text, marker, start)
  {
  }

  lemma OccurrenceStaysOnLine(text: string, marker: string, i: nat, s: nat)
    requires MatchesAt(text, i, marker) && i < s <= |text| && text[s - 1] == '\n'
    requires forall k :: 0 <= k < |marker| ==> marker[k] != '\n'
    ensures i + Advance(marker) <= s
  {
    forall k | i <= k < i + |marker| ensures text[k] != '\n' {
      assert text[k] == text[i..i + |marker|][k - i];
    }
  }

  lemma {:induction false} SameLine(text: string, i: nat, p: nat)
    requires i <= p <= |text| && LineStart(text, p) <= i
    ensures LineStart(text, i) == LineStart(text, p) && LineStop(text, i) == LineStop(text, p)
    decreases p - i
  {
    if i < p {
      StartIsLast(text, p);
      SameLine(text, i, p - 1);
      SameStop(text, i, p);
    }
  }

  // ---- Which findings there are ----

  /** The allowance is for this path, and its token stands somewhere in the line. */
  ghost predicate Excuses(a: Allowance, path: string, excerpt: string) {
    a.path == path && exists k: nat :: MatchesAt(excerpt, k, a.token)
  }

  /** A line is allowed exactly when some allowance excuses it. */
  lemma {:induction false} AllowedIff(allowances: seq<Allowance>, path: string, excerpt: string)
    ensures Allowed(allowances, path, excerpt) <==>
      exists i :: 0 <= i < |allowances| && Excuses(allowances[i], path, excerpt)
  {
    if allowances != [] {
      FindSpec(excerpt, allowances[0].token, 0);
      assert Contains(excerpt, allowances[0].token) ==>
        MatchesAt(excerpt, Find(excerpt, allowances[0].token, 0), allowances[0].token);
      AllowedIff(allowances[1..], path, excerpt);
      assert forall i :: 0 < i < |allowances| ==> allowances[i] == allowances[1..][i - 1];
    }
  }

  lemma SameLineNumber(text: string, i: nat, p: nat)
    requires i <= p <= |text| && LineStart(text, p) <= i
    ensures LineForOffset(text, i) == LineForOffset(text, p)
  {
    StartIsLast(text, p);
    CountNewlinesMonotone(text, i, p);
  }

  /** The marker occurs on this line, and what is looked up for the line is not allowed. */
  ghost predicate Reportable(allowances: seq<Allowance>, path: string, text: string, marker: string, line: nat) {
    && !Allowed(allowances, path, LineAt(text, line))
    && exists p: nat :: Occurs(text, p, marker) && LineForOffset(text, p) == line
  }

  lemma ReportedByVisit(allowances: seq<Allowance>, path: string, text: string, marker: string, f: Finding)
    ensures f in ReportMarker(allowances, path, text, marker) <==>
      exists v :: v in Visits(text, marker, 0) && v <= |text| && f in ReportOne(allowances, path, text, marker, v)
  {
    var visits := Visits(text, marker, 0);
    VisitsWithin(text, marker, 0);
    var parts := Reports(allowances, path, text, marker, visits);
    ConcatMembers(parts, f);
    if f in ReportMarker(allowances, path, text, marker) {
      var k :| 0 <= k < |parts| && f in parts[k];
      assert visits[k] in visits;
    }
    forall v | v in visits && v <= |text| && f in ReportOne(allowances, path, text, marker, v)
      ensures f in Concat(parts) {
      var k :| 0 <= k < |visits| && visits[k] == v;
      assert f in parts[k];
    }
  }

  lemma ReportOneIff(allowances: seq<Allowance>, path: string, text: string, marker: string, v: nat, f: Finding)
    requires v <= |text|
    ensures f in ReportOne(allowances, path, text, marker, v) <==>
      f == Finding(path, LineForOffset(text, v), marker) && !Allowed(allowances, path, LineAt(text, f.line))
  {}

  lemma OccurrenceIsReported(allowances: seq<Allowance>, path: string, text: string, marker: string, p: nat, f: Finding)
    requires OneLine(marker) && Occurs(text, p, marker) && f == Finding(path, LineForOffset(text, p), marker)
    requires !Allowed(allowances, path, LineAt(text, f.line))
    ensures f in ReportMarker(allowances, path, text, marker)
  {
    var v := VisitsEveryLine(text, marker, 0, p);
    SameLineNumber(text, v, p);
    ReportOneIff(allowances, path, text, marker, v, f);
    ReportedByVisit(allowances, path, text, marker, f);
  }

  lemma ReportedOccurs(allowances: seq<Allowance>, path: string, text: string, marker: string, f: Finding)
    requires f in ReportMarker(allowances, path, text, marker)
    ensures f.path == path && f.marker == marker && Reportable(allowances, path, text, marker, f.line)
  {
    ReportedByVisit(allowances, path, text, marker, f);
    var v :| v in Visits(text, marker, 0) && v <= |text| && f in ReportOne(allowances, path, text, marker, v);
    ReportOneIff(allowances, path, text, marker, v, f);
    VisitsOccur(text, marker, 0);
  }

  /** A finding is reported exactly for each line that holds the marker and is not allowed as looked up, with the
      path and the marker searched for. */
  lemma FindingIff(allowances: seq<Allowance>, path: string, text: string, marker: string, f: Finding)
    requires OneLine(marker)
    ensures f in ReportMarker(allowances, path, text, marker) <==>
      f.path == path && f.marker == marker && Reportable(allowances, path, text, marker, f.line)
  {
    if f in ReportMarker(allowances, path, text, marker) {
      ReportedOccurs(allowances, path, text, marker, f);
    }
    if f.path == path && f.marker == marker && Reportable(allowances, path, text, marker, f.line) {
      var p: nat :| Occurs(text, p, marker) && LineForOffset(text, p) == f.line;
      OccurrenceIsReported(allowances, path, text, marker, p, f);
    }
  }

  /** The line holding position p is an allowed one. */
  predicate Excused(allowances: seq<Allowance>, path: string, text: string, p: nat) {
    p <= |text| && Allowed(allowances, path, LineOf(text, p))
  }

  lemma ReportOneEmptyIff(allowances: seq<Allowance>, path: string, text: string, marker: string, p: nat)
    requires PlainLines(text) && p <= |text|
    ensures ReportOne(allowances, path, text, marker, p) == [] <==> Excused(allowances, path, text, p)
  {
    LineAtIsLineOf(text, p);
  }

  lemma ReportEmptyIff(allowances: seq<Allowance>, path: string, text: string, marker: string, visits: seq<nat>)
    requires PlainLines(text) && Within(text, visits)
    ensures Concat(Reports(allowances, path, text, marker, visits)) == [] <==>
      forall k :: 0 <= k < |visits| ==> Excused(allowances, path, text, visits[k])
  {
    var parts := Reports(allowances, path, text, marker, visits);
    ConcatEmptyIff(parts);
    forall k | 0 <= k < |visits| ensures parts[k] == [] <==> Excused(allowances, path, text, visits[k]) {
      ReportOneEmptyIff(allowances, path, text, marker, visits[k]);
    }
  }

  /** Every occurrence of the marker lies on an allowed line. */
  ghost predicate OnlyAllowed(allowances: seq<Allowance>, path: string, text: string, marker: string) {
    forall p: nat :: Occurs(text, p, marker) ==> Excused(allowances, path, text, p)
  }

  /** Skipping overlapping occurrences loses no line: nothing is reported exactly when every line with the marker
      is allowed. */
  lemma NothingReportedIff(allowances: seq<Allowance>, path: string, text: string, marker: string)
    requires PlainLines(text) && OneLine(marker)
    ensures ReportMarker(allowances, path, text, marker) == [] <==> OnlyAllowed(allowances, path, text, marker)
  {
    var visits := Visits(text, marker, 0);
    VisitsWithin(text, marker, 0);
    ReportEmptyIff(allowances, path, text, marker, visits);
    VisitsOccur(text, marker, 0);
    if forall k :: 0 <= k < |visits| ==> Excused(allowances, path, text, visits[k]) {
      forall p: nat | Occurs(text, p, marker) ensures Excused(allowances, path, text, p) {
        SameLineExcused(allowances, path, text, marker, p);
      }
    }
  }

  lemma SameLineExcused(allowances: seq<Allowance>, path: string, text: string, marker: string, p: nat)
    requires OneLine(marker) && Occurs(text, p, marker)
    requires forall index :: index in Visits(text, marker, 0) ==> Excused(allowances, path, text, index)
    ensures Excused(allowances, path, text, p)
  {
    var index := VisitsEveryLine(text, marker, 0, p);
    SameLine(text, index, p);
  }

  /** Every line of the text that holds one of the markers is an allowed one. */
  ghost predicate CleanText(allowances: seq<Allowance>, source: Source, markers: seq<string>) {
    forall j :: 0 <= j < |markers| ==> OnlyAllowed(allowances, source.path, source.text, markers[j])
  }

  lemma TextCleanIff(allowances: seq<Allowance>, source: Source, markers: seq<string>)
    requires PlainLines(source.text) && forall j :: 0 <= j < |markers| ==> OneLine(markers[j])
    ensures Concat(ReportMarkers(allowances, source, markers)) == [] <==> CleanText(allowances, source, markers)
  {
    var parts := ReportMarkers(allowances, source, markers);
    ConcatEmptyIff(parts);
    forall j | 0 <= j < |markers|
      ensures parts[j] == [] <==> OnlyAllowed(allowances, source.path, source.text, markers[j]) {
      NothingReportedIff(allowances, source.path, source.text, markers[j]);
    }
  }

  /** The whole check is clean exactly when every line of every text that holds a marker is an allowed one. */
  lemma CheckCleanIff(allowances: seq<Allowance>, sources: seq<Source>, markers: seq<string>)
    requires forall i :: 0 <= i < |sources| ==> PlainLines(sources[i].text)
    requires forall j :: 0 <= j < |markers| ==> OneLine(markers[j])
    ensures Concat(ReportSources(allowances, sources, markers)) == [] <==>
      forall i :: 0 <= i < |sources| ==> CleanText(allowances, sources[i], markers)
  {
    var parts := ReportSources(allowances, sources, markers);
    ConcatEmptyIff(parts);
    forall i | 0 <= i < |sources| ensures parts[i] == [] <==> CleanText(allowances, sources[i], markers) {
      TextCleanIff(allowances, sources[i], markers);
    }
  }

  // ======== Exactly which texts are searched line by line ========

  ghost predicate NoBreaks(line: string) {
    forall k :: 0 <= k < |line| ==> !IsBreak(line[k])
  }

  lemma {:induction false} BeforeBreak(text: string, i: nat)
    requires i <= |text|
    ensures forall k :: i <= k < LineBreak(text, i) ==> !IsBreak(text[k])
    decreases |text| - i
  {
    if i < |text| && !IsBreak(text[i]) {
      BeforeBreak(text, i + 1);
    }
  }

  /** No line `splitlines` gives holds a line break of any kind. */
  lemma {:induction false} LinesHoldNoBreak(text: string)
    ensures forall j :: 0 <= j < |SplitLines(text)| ==> NoBreaks(SplitLines(text)[j])
    decreases |text|
  {
    if text != "" {
      var e := LineBreak(text, 0);
      BeforeBreak(text, 0);
      if e < |text| {
        LinesHoldNoBreak(text[if IsCrLf(text, e) then e + 2 else e + 1..]);
      }
    }
  }

  lemma LookedUpHoldsNoBreak(text: string, line: nat)
    ensures NoBreaks(LineAt(text, line))
  {
    LinesHoldNoBreak(text);
  }

  /** A break other than `\n` stands on the line of every position that holds it. */
  lemma BreakOnItsLine(text: string, e: nat)
    requires e < |text| && text[e] != '\n'
    ensures LineStart(text, e) <= e < LineStop(text, e)
    ensures text[e] == LineOf(text, e)[e - LineStart(text, e)]
  {}

  /** The line looked up is the line the position is on, for every position, exactly in plain texts. */
  lemma LookupIsRightIff(text: string)
    ensures PlainLines(text) <==>
      forall i: nat :: i <= |text| ==> LineAt(text, LineForOffset(text, i)) == LineOf(text, i)
  {
    if PlainLines(text) {
      forall i: nat | i <= |text| ensures LineAt(text, LineForOffset(text, i)) == LineOf(text, i) {
        LineAtIsLineOf(text, i);
      }
    } else {
      var e: nat :| e < |text| && IsBreak(text[e]) && text[e] != '\n';
      BreakMisleads(text, e);
    }
  }

  lemma BreakMisleads(text: string, e: nat)
    requires e < |text| && IsBreak(text[e]) && text[e] != '\n'
    ensures LineAt(text, LineForOffset(text, e)) != LineOf(text, e)
  {
    var line := LineAt(text, LineForOffset(text, e));
    LookedUpHoldsNoBreak(text, LineForOffset(text, e));
    BreakOnItsLine(text, e);
    assert forall k :: 0 <= k < |line| ==> !IsBreak(line[k]);
  }

  /** For these allowances and this marker, silence means that every line with the marker is an allowed one. */
  ghost predicate Judges(allowances: seq<Allowance>, path: string, text: string, marker: string) {
    ReportMarker(allowances, path, text, marker) == [] <==> OnlyAllowed(allowances, path, text, marker)
  }

  /** The search judges every marker under all allowances correctly exactly in plain texts. */
  lemma SearchIsRightIff(text: string)
    ensures PlainLines(text) <==>
      forall allowances, path, marker :: OneLine(marker) ==> Judges(allowances, path, text, marker)
  {
    if PlainLines(text) {
      forall allowances, path, marker | OneLine(marker) ensures Judges(allowances, path, text, marker) {
        NothingReportedIff(allowances, path, text, marker);
      }
    } else {
      var e: nat :| e < |text| && IsBreak(text[e]) && text[e] != '\n';
      BreakIsMisjudged(text, e);
      assert OneLine([text[e]]) && !Judges([Allowance("", [text[e]])], "", text, [text[e]]);
    }
  }

  lemma ContainsIff(text: string, c: char)
    ensures Contains(text, [c]) <==> c in text
  {
    FindSpec(text, [c], 0);
    if c in text {
      var k: nat :| k < |text| && text[k] == c;
      assert MatchesAt(text, k, [c]);
    }
    if Contains(text, [c]) {
      var r: nat := Find(text, [c], 0);
      assert text[r] == text[r..r + 1][0];
    }
  }

  /** The break itself as marker and as allowed token: every line with it is allowed, and yet it is reported. */
  lemma BreakIsMisjudged(text: string, e: nat)
    requires e < |text| && IsBreak(text[e]) && text[e] != '\n'
    ensures var mark, al := [text[e]], [Allowance("", [text[e]])];
      OnlyAllowed(al, "", text, mark) && ReportMarker(al, "", text, mark) != []
  {
    var c := text[e];
    var al := [Allowance("", [c])];
    forall p: nat | Occurs(text, p, [c]) ensures Excused(al, "", text, p) {
      assert text[p..p + 1][0] == text[p];
      BreakOnItsLine(text, p);
      OneTokenIff("", c, LineOf(text, p));
    }
    assert MatchesAt(text, e, [c]);
    var v := FoundBy(text, [c], 0, e);
    VisitsFound(text, [c], 0, v);
    VisitedBreakIsReported(text, c, v);
  }

  lemma VisitedBreakIsReported(text: string, c: char, v: nat)
    requires IsBreak(c) && v in Visits(text, [c], 0)
    ensures ReportMarker([Allowance("", [c])], "", text, [c]) != []
  {
    var al := [Allowance("", [c])];
    var visits := Visits(text, [c], 0);
    VisitsWithin(text, [c], 0);
    var parts := Reports(al, "", text, [c], visits);
    var k: nat :| k < |visits| && visits[k] == v;
    var excerpt := LineAt(text, LineForOffset(text, v));
    LookedUpHoldsNoBreak(text, LineForOffset(text, v));
    OneTokenIff("", c, excerpt);
    assert parts[k] != [];
    ConcatEmptyIff(parts);
  }

  /** A form feed, which reading a file keeps: the token of another line excuses a marker on a line without it. */
  lemma FormFeedMisleads(path: string)
    ensures var text, al := "ok\U{0C}x\nm", [Allowance(path, "x")];
      ReportMarker(al, path, text, "m") == [] && !OnlyAllowed(al, path, text, "m")
  {
    var text := "ok\U{0C}x\nm";
    FormFeedLines();
    OneTokenIff(path, 'x', "x");
    OneTokenIff(path, 'x', "m");
    assert text[5..6] == "m";
    assert Occurs(text, 5, "m") && !Excused([Allowance(path, "x")], path, text, 5);
    forall v: nat | Occurs(text, v, "m") ensures ReportOne([Allowance(path, "x")], path, text, "m", v) == [] {
      assert text[v..v + 1][0] == text[v];
    }
    OccurrencesExcused([Allowance(path, "x")], path, text, "m");
  }

  lemma OneTokenIff(path: string, token: char, excerpt: string)
    ensures Allowed([Allowance(path, [token])], path, excerpt) <==> token in excerpt
  {
    ContainsIff(excerpt, token);
    assert [Allowance(path, [token])][1..] == [];
  }

  lemma OccurrencesExcused(allowances: seq<Allowance>, path: string, text: string, marker: string)
    requires forall v: nat :: Occurs(text, v, marker) ==> ReportOne(allowances, path, text, marker, v) == []
    ensures ReportMarker(allowances, path, text, marker) == []
  {
    VisitsOccur(text, marker, 0);
    VisitsWithin(text, marker, 0);
    ConcatEmptyIff(Reports(allowances, path, text, marker, Visits(text, marker, 0)));
  }

  lemma FormFeedLines()
    ensures var text := "ok\U{0C}x\nm";
      LineForOffset(text, 5) == 2 && LineAt(text, 2) == "x" && LineOf(text, 5) == "m"
  {
    var text, rest := "ok\U{0C}x\nm", "x\nm";
    assert LineBreak(text, 0) == 2 && text[..2] == "ok" && text[3..] == rest;
    assert LineBreak(rest, 0) == 1 && rest[..1] == "x" && rest[2..] == "m";
    assert LineBreak("m", 0) == 1;
    assert SplitLines(rest) == ["x"] + SplitLines("m");
    assert SplitLines(text) == ["ok"] + SplitLines(rest);
    assert CountNewlines(text, 4) == 0 && CountNewlines(text, 5) == 1;
    assert LineStart(text, 5) == 5 && LineStop(text, 5) == 6;
    assert text[5..6] == "m";
  }
}
