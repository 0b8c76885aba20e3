// Whole JSON values: the compact printer, the decoder, and the proof that the
// decoder inverts the printer.

module JsonDecoder {
  import opened Texts
  import opened Sorting
  import opened Json
  import opened JsonText
  import opened Lists
  import opened Wrappers

  // ======== Printing ========

  /** `json.dumps(v, separators=(",", ":"), ensure_ascii=True)`, keys in stored order, then tail. */
  function Print(v: Json, tail: string): string
    decreases v, 1
  {
    match v
    case Null => "null" + tail
    case Bool(b) => (if b then "true" else "false") + tail
    case Int(n) => IntText(n) + tail
    case Float(t) => t + tail
    case Str(s) => Quote(s, tail)
    case Arr(items) => "[" + PrintItems(items, "]" + tail)
    case Obj(ms) => "{" + PrintMembers(ms, "}" + tail)
  }

  function PrintItems(vs: seq<Json>, tail: string): string
    decreases vs, 0
  {
    if vs == [] then tail
    else if |vs| == 1 then Print(vs[0], tail)
    else Print(vs[0], "," + PrintItems(vs[1..], tail))
  }

  function PrintMembers(ms: seq<Member>, tail: string): string
    decreases ms, 0
  {
    if ms == [] then tail
    else if |ms| == 1 then PrintMember(ms[0], tail)
    else PrintMember(ms[0], "," + PrintMembers(ms[1..], tail))
  }

  function PrintMember(m: Member, tail: string): string
    decreases m, 0
  {
    Quote(m.key, ":" + Print(m.value, tail))
  }

  /** `canonical_json`: keys sorted at every depth. */
  function CanonicalJson(v: Json): string {
    Print(SortKeys(v), "")
  }

  // ---- The compact form, part by part ----

  /** The parts with a comma between neighbours and nothing else. */
  ghost function Commas(parts: seq<string>): string {
    if parts == [] then "" else if |parts| == 1 then parts[0] else parts[0] + "," + Commas(parts[1..])
  }

  /** A value's compact text: no space anywhere outside a string. */
  ghost function Compact(v: Json): string
    decreases v, 1
  {
    match v
    case Null => "null"
    case Bool(b) => if b then "true" else "false"
    case Int(n) => IntText(n)
    case Float(t) => t
    case Str(s) => Quote(s, "")
    case Arr(items) => "[" + Commas(Parts(items)) + "]"
    case Obj(ms) => "{" + Commas(MemberParts(ms)) + "}"
  }

  ghost function Parts(vs: seq<Json>): seq<string>
    decreases vs, 0
  {
    seq(|vs|, i requires 0 <= i < |vs| => Compact(vs[i]))
  }

  ghost function MemberParts(ms: seq<Member>): seq<string>
    decreases ms, 0
  {
    seq(|ms|, i requires 0 <= i < |ms| => Quote(ms[i].key, "") + ":" + Compact(ms[i].value))
  }

  lemma Enclose(open: string, inner: string, close: string, tail: string)
    ensures open + (inner + (close + tail)) == open + inner + close + tail
  {}

  lemma {:induction false} EscapeAll(t: Text, tail: string)
    ensures Escape(t, tail) == Escape(t, "") + tail
  {
    if t != [] {
      EscapeAll(t[1..], tail);
      EscapeTail(t[0], Escape(t[1..], tail));
      EscapeTail(t[0], Escape(t[1..], ""));
      Assoc(EscapePoint(t[0], ""), Escape(t[1..], ""), tail);
    }
  }

  lemma QuoteTail(t: Text, tail: string)
    ensures Quote(t, tail) == Quote(t, "") + tail
  {
    EscapeAll(t, "\"" + tail);
    EscapeAll(t, "\"" + "");
    assert "\"" + "" + tail == "\"" + tail;
  }

  /** What is printed is the compact form: brackets, single commas, a colon after each key, no white space. */
  lemma {:induction false} PrintIsCompact(v: Json, tail: string)
    ensures Print(v, tail) == Compact(v) + tail
    decreases v, 1
  {
    match v
    case Str(s) => QuoteTail(s, tail);
    case Arr(items) =>
      ItemsAreCompact(items, "]" + tail);
      Enclose("[", Commas(Parts(items)), "]", tail);
    case Obj(ms) =>
      MembersAreCompact(ms, "}" + tail);
      Enclose("{", Commas(MemberParts(ms)), "}", tail);
    case _ =>
  }

  lemma {:induction false} ItemsAreCompact(vs: seq<Json>, tail: string)
    ensures PrintItems(vs, tail) == Commas(Parts(vs)) + tail
    decreases vs, 0
  {
    if vs != [] {
      var rest := if |vs| == 1 then tail else "," + PrintItems(vs[1..], tail);
      PrintIsCompact(vs[0], rest);
      if |vs| > 1 {
        ItemsAreCompact(vs[1..], tail);
        assert Parts(vs)[1..] == Parts(vs[1..]);
      }
    }
  }

  lemma {:induction false} MemberIsCompact(m: Member, tail: string)
    ensures PrintMember(m, tail) == Quote(m.key, "") + ":" + Compact(m.value) + tail
    decreases m, 0
  {
    PrintIsCompact(m.value, tail);
    QuoteTail(m.key, ":" + Print(m.value, tail));
    assert Quote(m.key, "") + ":" + Compact(m.value) + tail == Quote(m.key, "") + (":" + (Compact(m.value) + tail));
  }

  lemma {:induction false} MembersAreCompact(ms: seq<Member>, tail: string)
    ensures PrintMembers(ms, tail) == Commas(MemberParts(ms)) + tail
    decreases ms, 0
  {
    if ms != [] {
      var rest := if |ms| == 1 then tail else "," + PrintMembers(ms[1..], tail);
      MemberIsCompact(ms[0], rest);
      if |ms| > 1 {
        MembersAreCompact(ms[1..], tail);
        assert MemberParts(ms)[1..] == MemberParts(ms[1..]);
      }
    }
  }

  // ======== Decoding ========

  function SkipSpace(s: string): (r: string)
    ensures |r| <= |s|
    ensures r == "" || r[0] !in " \t\n\r"
  {
    if s != "" && s[0] in " \t\n\r" then SkipSpace(s[1..]) else s
  }

  /** A Python dict built from pairs in order: a repeated key keeps its place and takes the last value. */
  function DictOf(ms: seq<Member>, done: seq<Member>): seq<Member> {
    if ms == [] then done else DictOf(ms[1..], SetKey(done, ms[0].key, ms[0].value))
  }

  function ParseValue(s: string): (r: Option<(Json, string)>)
    ensures r.Some? ==> |r.value.1| < |s|
    decreases |s|, 0
  {
    if s == "" then None
    else if s[0] == '\"' then
      var t :- ReadString(s[1..]);
      Some((Str(t.0), t.1))
    else if s[0] == '[' then
      var t := SkipSpace(s[1..]);
      if t != "" && t[0] == ']' then Some((Arr([]), t[1..]))
      else
        var vs :- ParseItems(t);
        Some((Arr(vs.0), vs.1))
    else if s[0] == '{' then
      var t := SkipSpace(s[1..]);
      if t != "" && t[0] == '}' then Some((Obj([]), t[1..]))
      else
        var ms :- ParseMembers(t);
        Some((Obj(DictOf(ms.0, [])), ms.1))
    else if "null" <= s then Some((Null, s[4..]))
    else if "true" <= s then Some((Bool(true), s[4..]))
    else if "false" <= s then Some((Bool(false), s[5..]))
    else ParseNumber(s)
  }

  function ParseItems(s: string): (r: Option<(seq<Json>, string)>)
    ensures r.Some? ==> |r.value.1| < |s|
    decreases |s|, 1
  {
    var v :- ParseValue(s);
    var t := SkipSpace(v.1);
    if t != "" && t[0] == ']' then Some(([v.0], t[1..]))
    else if t != "" && t[0] == ',' then
      var vs :- ParseItems(SkipSpace(t[1..]));
      Some(([v.0] + vs.0, vs.1))
    else None
  }

  function ParseMembers(s: string): (r: Option<(seq<Member>, string)>)
    ensures r.Some? ==> |r.value.1| < |s|
    decreases |s|, 1
  {
    if s == "" || s[0] != '\"' then None else
    var k :- ReadString(s[1..]);
    var c := SkipSpace(k.1);
    if c == "" || c[0] != ':' then None else
    var v :- ParseValue(SkipSpace(c[1..]));
    var t := SkipSpace(v.1);
    if t != "" && t[0] == '}' then Some(([Member(k.0, v.0)], t[1..]))
    else if t != "" && t[0] == ',' then
      var ms :- ParseMembers(SkipSpace(t[1..]));
      Some(([Member(k.0, v.0)] + ms.0, ms.1))
    else None
  }

  /** `json.loads`. */
  function Loads(s: string): Option<Json> {
    var v :- ParseValue(SkipSpace(s));
    if SkipSpace(v.1) == "" then Some(v.0) else None
  }

  // ======== Which values the theorems speak of ========

  ghost predicate FloatTokens(v: Json) {
    match v
    case Float(t) => FloatToken(t)
    case Arr(items) => forall x | x in items :: FloatTokens(x)
    case Obj(ms) => forall m | m in ms :: FloatTokens(m.value)
    case _ => true
  }

  /** No string or key holds an unmerged surrogate pair. */
  ghost predicate PairFreeTexts(v: Json) {
    match v
    case Str(s) => PairFree(s)
    case Arr(items) => forall x | x in items :: PairFreeTexts(x)
    case Obj(ms) => forall m | m in ms :: PairFree(m.key) && PairFreeTexts(m.value)
    case _ => true
  }

  /** A JSON value a Python program can hold, NaN and the infinities aside. */
  ghost predicate Held(v: Json) {
    Dicts(v) && FloatTokens(v)
  }

  // ======== The decoder inverts the printer ========

  predicate NumberStart(c: char) {
    c == '-' || IsDigit(c)
  }

  predicate ValueStart(c: char) {
    c == '\"' || c == '[' || c == '{' || c == 'n' || c == 't' || c == 'f' || NumberStart(c)
  }

  lemma NumberHead(t: string, tail: string)
    requires IntLen(t) > 0
    ensures t + tail != "" && NumberStart((t + tail)[0])
  {}

  lemma ValueStartIsNoSpace(s: string)
    requires s != "" && ValueStart(s[0])
    ensures SkipSpace(s) == s
  {}

  lemma PrintNumberHead(v: Json, tail: string)
    requires FloatTokens(v) && (v.Int? || v.Float?)
    ensures var s := Print(v, tail); s != "" && NumberStart(s[0])
  {
    if v.Int? {
      IntTextIsToken(v.n);
      NumberHead(IntText(v.n), tail);
    } else {
      NumberHead(v.token, tail);
    }
  }

  lemma PrintStart(v: Json, tail: string)
    requires FloatTokens(v)
    ensures var s := Print(v, tail); s != "" && ValueStart(s[0])
  {
    if v.Int? || v.Float? {
      PrintNumberHead(v, tail);
    }
  }

  lemma PrintHead(v: Json, tail: string)
    requires FloatTokens(v)
    ensures var s := Print(v, tail); s != "" && ValueStart(s[0]) && SkipSpace(s) == s
    ensures var s := Print(v, tail); v.Int? || v.Float? ==> NumberStart(s[0])
  {
    PrintStart(v, tail);
    ValueStartIsNoSpace(Print(v, tail));
    if v.Int? || v.Float? {
      PrintNumberHead(v, tail);
    }
  }

  lemma {:induction false} SetKeyAppends(ms: seq<Member>, m: Member)
    requires forall i :: 0 <= i < |ms| ==> ms[i].key != m.key
    ensures SetKey(ms, m.key, m.value) == ms + [m]
  {
    if ms != [] {
      SetKeyAppends(ms[1..], m);
      assert ms == [ms[0]] + ms[1..];
    }
  }

  lemma {:induction false} DictOfDistinct(ms: seq<Member>, done: seq<Member>)
    requires DistinctKeys(done + ms)
    ensures DictOf(ms, done) == done + ms
  {
    if ms == [] {
      assert done + ms == done;
    } else {
      var all := done + ms;
      forall i | 0 <= i < |done| ensures done[i].key != ms[0].key {
        assert all[i] == done[i] && all[|done|] == ms[0];
      }
      SetKeyAppends(done, ms[0]);
      assert done + [ms[0]] + ms[1..] == all;
      DictOfDistinct(ms[1..], done + [ms[0]]);
    }
  }

  lemma DictOfItself(ms: seq<Member>)
    requires DistinctKeys(ms)
    ensures DictOf(ms, []) == ms
  {
    assert [] + ms == ms;
    DictOfDistinct(ms, []);
  }

  lemma ScalarRoundTrip(v: Json, tail: string)
    requires Held(v) && PairFreeTexts(v) && Stop(tail) && !v.Arr? && !v.Obj?
    ensures ParseValue(Print(v, tail)) == Some((v, tail))
  {
    var s := Print(v, tail);
    match v
    case Null => assert s[4..] == tail;
    case Bool(b) => assert s[(if b then 4 else 5)..] == tail;
    case Int(n) =>
      ParseInt(n, tail);
      PrintHead(v, tail);
      NumberDispatch(s);
    case Float(t) =>
      ParseFloat(t, tail);
      PrintHead(v, tail);
      NumberDispatch(s);
    case Str(t) =>
      StringRoundTrip(t, tail);
      assert s[1..] == Escape(t, "\"" + tail);
  }

  lemma NumberDispatch(s: string)
    requires s != "" && NumberStart(s[0])
    ensures ParseValue(s) == ParseNumber(s)
  {
    NoWordStarts(s, "null");
    NoWordStarts(s, "true");
    NoWordStarts(s, "false");
  }

  lemma NoWordStarts(s: string, word: string)
    requires s != "" && word != "" && NumberStart(s[0]) && !NumberStart(word[0])
    ensures !(word <= s)
  {}

  lemma {:induction false} ValueRoundTrip(v: Json, tail: string)
    requires Held(v) && PairFreeTexts(v) && Stop(tail)
    ensures ParseValue(Print(v, tail)) == Some((v, tail))
    decreases v, 1
  {
    if v.Arr? {
      ItemsRoundTrip(v.items, tail);
    } else if v.Obj? {
      MembersRoundTrip(v.members, tail);
      DictOfItself(v.members);
    } else {
      ScalarRoundTrip(v, tail);
    }
  }

  lemma ItemsStep(s: string, v: Json, vs: seq<Json>, rest: string, tail: string)
    requires ParseValue(s) == Some((v, if vs == [] then "]" + tail else "," + rest))
    requires vs != [] ==> SkipSpace(rest) == rest && ParseItems(rest) == Some((vs, tail))
    ensures ParseItems(s) == Some(([v] + vs, tail))
  {
    var t := ParseValue(s).value.1;
    assert SkipSpace(t) == t;
    if vs == [] {
      assert t[1..] == tail && [v] + vs == [v];
    } else {
      assert t[1..] == rest;
    }
  }

  lemma {:induction false} ItemsRoundTrip(vs: seq<Json>, tail: string)
    requires forall x | x in vs :: Held(x) && PairFreeTexts(x)
    ensures var s := PrintItems(vs, "]" + tail);
      && s != "" && SkipSpace(s) == s && (s[0] == ']' <==> vs == [])
      && (if vs == [] then s[1..] == tail else ParseItems(s) == Some((vs, tail)))
      && ("[" + s)[1..] == s
    decreases vs, 0
  {
    var close := "]" + tail;
    assert close[1..] == tail;
    if vs != [] {
      assert vs[0] in vs;
      var rest := PrintItems(vs[1..], close);
      var more := if |vs| == 1 then close else "," + rest;
      ValueRoundTrip(vs[0], more);
      PrintHead(vs[0], more);
      ItemsRoundTrip(vs[1..], tail);
      ItemsStep(PrintItems(vs, close), vs[0], vs[1..], rest, tail);
      assert vs == [vs[0]] + vs[1..];
    }
  }

  lemma {:induction false} MemberRoundTrip(m: Member, tail: string)
    requires Held(m.value) && PairFreeTexts(m.value) && PairFree(m.key) && Stop(tail)
    ensures var s := PrintMember(m, tail);
      && s != "" && s[0] == '\"'
      && ReadString(s[1..]) == Some((m.key, ":" + Print(m.value, tail)))
      && SkipSpace((":" + Print(m.value, tail))[1..]) == Print(m.value, tail)
      && ParseValue(Print(m.value, tail)) == Some((m.value, tail))
    decreases m, 0
  {
    var rest := ":" + Print(m.value, tail);
    StringRoundTrip(m.key, rest);
    assert PrintMember(m, tail)[1..] == Escape(m.key, "\"" + rest);
    PrintHead(m.value, tail);
    assert rest[1..] == Print(m.value, tail);
    ValueRoundTrip(m.value, tail);
  }

  lemma MembersStep(s: string, m: Member, v: string, ms: seq<Member>, rest: string, tail: string)
    requires s != "" && s[0] == '\"' && ReadString(s[1..]) == Some((m.key, ":" + v))
    requires SkipSpace((":" + v)[1..]) == v
    requires ParseValue(v) == Some((m.value, if ms == [] then "}" + tail else "," + rest))
    requires ms != [] ==> SkipSpace(rest) == rest && ParseMembers(rest) == Some((ms, tail))
    ensures ParseMembers(s) == Some(([m] + ms, tail))
  {
    var t := ParseValue(v).value.1;
    assert SkipSpace(t) == t;
    assert SkipSpace(":" + v) == ":" + v;
    if ms == [] {
      assert t[1..] == tail && [m] + ms == [m];
    } else {
      assert t[1..] == rest;
    }
    assert Member(m.key, m.value) == m;
  }

  lemma {:induction false} MembersRoundTrip(ms: seq<Member>, tail: string)
    requires forall m | m in ms :: Held(m.value) && PairFreeTexts(m.value) && PairFree(m.key)
    ensures var s := PrintMembers(ms, "}" + tail);
      && s != "" && SkipSpace(s) == s && (s[0] == '}' <==> ms == [])
      && (if ms == [] then s[1..] == tail else ParseMembers(s) == Some((ms, tail)))
      && ("{" + s)[1..] == s
    decreases ms, 0
  {
    var close := "}" + tail;
    assert close[1..] == tail;
    if ms != [] {
      assert ms[0] in ms;
      var rest := PrintMembers(ms[1..], close);
      var more := if |ms| == 1 then close else "," + rest;
      MemberRoundTrip(ms[0], more);
      MembersRoundTrip(ms[1..], tail);
      MembersStep(PrintMembers(ms, close), ms[0], Print(ms[0].value, more), ms[1..], rest, tail);
      assert ms == [ms[0]] + ms[1..];
    }
  }

  // ======== Everything the decoder returns is well formed ========

  lemma {:induction false} SetKeyDistinct(ms: seq<Member>, k: Text, v: Json)
    requires DistinctKeys(ms)
    ensures DistinctKeys(SetKey(ms, k, v))
    ensures forall m :: m in SetKey(ms, k, v) ==> m == Member(k, v) || (m in ms && m.key != k)
  {
    if ms != [] && ms[0].key != k {
      SetKeyDistinct(ms[1..], k, v);
      var r := SetKey(ms[1..], k, v);
      forall i | 0 <= i < |r| ensures r[i].key != ms[0].key {
        assert r[i] in r;
      }
    }
  }

  lemma {:induction false} DictOfIsDict(ms: seq<Member>, done: seq<Member>)
    requires DistinctKeys(done)
    ensures DistinctKeys(DictOf(ms, done))
    ensures forall m :: m in DictOf(ms, done) ==> m in ms || m in done
  {
    if ms != [] {
      SetKeyDistinct(done, ms[0].key, ms[0].value);
      DictOfIsDict(ms[1..], SetKey(done, ms[0].key, ms[0].value));
    }
  }

  lemma PrefixDigits(s: string, k: nat)
    requires Digits(s) <= k <= |s|
    ensures Digits(s[..k]) == Digits(s)
    decreases |s|
  {
    if s != "" && IsDigit(s[0]) {
      PrefixDigits(s[1..], k - 1);
      assert s[..k][1..] == s[1..][..k - 1];
    }
  }

  lemma FracPrefix(s: string, m: nat)
    requires FracLen(s) <= m <= |s|
    ensures FracLen(s) > 0 ==> FracLen(s[..m]) == FracLen(s)
  {
    if FracLen(s) > 0 {
      assert s[..m][1..] == s[1..][..m - 1];
      PrefixDigits(s[1..], m - 1);
    }
  }

  lemma ExpPrefix(e: string)
    ensures ExpLen(e[..ExpLen(e)]) == ExpLen(e)
  {
    var n := ExpLen(e);
    if n > 0 {
      var sign := SignLen(e[1..], "-+");
      assert e[..n][1..] == e[1..][..n - 1];
      assert e[..n][1 + sign..] == e[1 + sign..][..n - 1 - sign];
      PrefixDigits(e[1 + sign..], n - 1 - sign);
    }
  }

  lemma SuffixPrefix(s: string)
    ensures SuffixLen(s[..SuffixLen(s)]) == SuffixLen(s)
  {
    var f, m := FracLen(s), SuffixLen(s);
    FracPrefix(s, m);
    ExpPrefix(s[f..]);
    assert s[..m][f..] == s[f..][..m - f];
    if f == 0 && m > 0 {
      assert s[..m][0] == s[0];
    }
  }

  lemma NumberIsHeld(s: string)
    requires ParseNumber(s).Some?
    ensures Held(ParseNumber(s).value.0) && PairFreeTexts(ParseNumber(s).value.0)
  {
    NumberIsToken(s);
    TokenIsHeld(ParseNumber(s).value.0);
  }

  lemma NumberIsToken(s: string)
    requires ParseNumber(s).Some?
    ensures var v := ParseNumber(s).value.0; v.Int? || (v.Float? && FloatToken(v.token))
  {
    var k := IntLen(s);
    var m := SuffixLen(s[k..]);
    NumberShape(s, k, m);
    if m > 0 {
      FloatTokenOfPrefix(s, k, m);
    }
  }

  lemma NumberShape(s: string, k: nat, m: nat)
    requires k == IntLen(s) && m == SuffixLen(s[k..]) && ParseNumber(s).Some?
    ensures k > 0 && if m == 0 then ParseNumber(s).value.0.Int? else ParseNumber(s).value.0 == Float(s[..k + m])
  {}

  lemma TokenIsHeld(v: Json)
    requires v.Int? || (v.Float? && FloatToken(v.token))
    ensures Held(v) && PairFreeTexts(v)
  {}

  lemma FloatTokenOfPrefix(s: string, k: nat, m: nat)
    requires 0 < k == IntLen(s) && 0 < m == SuffixLen(s[k..])
    ensures FloatToken(s[..k + m])
  {
    IntLenOfPrefix(s, k + m);
    SuffixPrefix(s[k..]);
    DropOfTake(s, k, m);
    JoinedToken(s[..k + m], k, s[k..][..m]);
  }

  lemma JoinedToken(t: string, k: nat, suffix: string)
    requires 0 < k == IntLen(t) && suffix == t[k..] && 0 < SuffixLen(suffix) == |suffix|
    ensures FloatToken(t)
  {}

  lemma DropOfTake(s: string, k: nat, m: nat)
    requires k + m <= |s|
    ensures s[..k + m][k..] == s[k..][..m]
  {}

  lemma IntLenOfPrefix(s: string, n: nat)
    requires IntLen(s) <= n <= |s| && IntLen(s) > 0
    ensures IntLen(s[..n]) == IntLen(s)
  {
    var sign := SignLen(s, "-");
    assert s[..n][sign..] == s[sign..][..n - sign];
    if s[sign] != '0' {
      PrefixDigits(s[sign..], n - sign);
    }
  }

  lemma {:induction false} ParsedIsHeld(s: string)
    requires ParseValue(s).Some?
    ensures Held(ParseValue(s).value.0) && PairFreeTexts(ParseValue(s).value.0)
    decreases |s|, 0
  {
    if s[0] == '\"' {
      DecodedIsPairFree(s[1..]);
    } else if s[0] == '[' {
      var t := SkipSpace(s[1..]);
      if t == "" || t[0] != ']' {
        ParsedItemsAreHeld(t);
      }
    } else if s[0] == '{' {
      var t := SkipSpace(s[1..]);
      if t == "" || t[0] != '}' {
        ParsedMembersAreHeld(t);
        DictOfIsDict(ParseMembers(t).value.0, []);
      }
    } else if !("null" <= s || "true" <= s || "false" <= s) {
      NumberIsHeld(s);
    }
  }

  lemma {:induction false} ParsedItemsAreHeld(s: string)
    requires ParseItems(s).Some?
    ensures forall x | x in ParseItems(s).value.0 :: Held(x) && PairFreeTexts(x)
    decreases |s|, 1
  {
    ParsedIsHeld(s);
    var t := SkipSpace(ParseValue(s).value.1);
    if t[0] == ',' {
      ParsedItemsAreHeld(SkipSpace(t[1..]));
    }
  }

  lemma {:induction false} ParsedMembersAreHeld(s: string)
    requires ParseMembers(s).Some?
    ensures forall m | m in ParseMembers(s).value.0 :: Held(m.value) && PairFreeTexts(m.value) && PairFree(m.key)
    decreases |s|, 1
  {
    DecodedIsPairFree(s[1..]);
    var c := SkipSpace(ReadString(s[1..]).value.1);
    var v := SkipSpace(c[1..]);
    ParsedIsHeld(v);
    var t := SkipSpace(ParseValue(v).value.1);
    if t[0] == ',' {
      ParsedMembersAreHeld(SkipSpace(t[1..]));
    }
  }

  /** Every document `json.loads` returns satisfies what the theorems below require. */
  lemma LoadedIsHeld(s: string)
    requires Loads(s).Some?
    ensures Held(Loads(s).value) && PairFreeTexts(Loads(s).value)
  {
    ParsedIsHeld(SkipSpace(s));
  }

  // ======== Main results about the text ========

  lemma {:induction false} RebuildKeepsTokens(v: Json, f: string -> string)
    requires FloatTokens(v) && forall t :: FloatToken(t) ==> FloatToken(f(t))
    ensures FloatTokens(Rebuild(v, f))
  {
    match v
    case Arr(items) =>
      forall x | x in RebuildItems(items, f) ensures FloatTokens(x) {
        var i :| 0 <= i < |items| && x == Rebuild(items[i], f);
        RebuildKeepsTokens(items[i], f);
      }
    case Obj(ms) =>
      RebuiltMembers(ms, f);
      forall m | m in SortBy(RebuildMembers(ms, f), KeyLe) ensures FloatTokens(m.value) {
        var i :| 0 <= i < |ms| && m == Member(ms[i].key, Rebuild(ms[i].value, f));
        RebuildKeepsTokens(ms[i].value, f);
      }
    case _ =>
  }

  lemma {:induction false} RebuildKeepsPairs(v: Json, f: string -> string)
    requires PairFreeTexts(v)
    ensures PairFreeTexts(Rebuild(v, f))
  {
    match v
    case Arr(items) =>
      forall x | x in RebuildItems(items, f) ensures PairFreeTexts(x) {
        var i :| 0 <= i < |items| && x == Rebuild(items[i], f);
        RebuildKeepsPairs(items[i], f);
      }
    case Obj(ms) =>
      RebuiltMembers(ms, f);
      forall m | m in SortBy(RebuildMembers(ms, f), KeyLe) ensures PairFree(m.key) && PairFreeTexts(m.value) {
        var i :| 0 <= i < |ms| && m == Member(ms[i].key, Rebuild(ms[i].value, f));
        assert ms[i] in ms;
        RebuildKeepsPairs(ms[i].value, f);
      }
    case _ =>
  }

  lemma {:induction false} RebuiltPairsWereFree(v: Json, f: string -> string)
    requires PairFreeTexts(Rebuild(v, f))
    ensures PairFreeTexts(v)
  {
    match v
    case Arr(items) =>
      var r := RebuildItems(items, f);
      forall x | x in items ensures PairFreeTexts(x) {
        var i :| 0 <= i < |items| && x == items[i];
        assert r[i] in r;
        RebuiltPairsWereFree(items[i], f);
      }
    case Obj(ms) =>
      RebuiltMembers(ms, f);
      forall m | m in ms ensures PairFree(m.key) && PairFreeTexts(m.value) {
        var i :| 0 <= i < |ms| && ms[i] == m;
        assert Member(m.key, Rebuild(m.value, f)) in SortBy(RebuildMembers(ms, f), KeyLe);
        RebuiltPairsWereFree(m.value, f);
      }
    case _ =>
  }

  /** Printing any held value and loading it back gives that value. */
  lemma PrintLoads(v: Json)
    requires Held(v) && PairFreeTexts(v)
    ensures Loads(Print(v, "")) == Some(v)
  {
    PrintHead(v, "");
    ValueRoundTrip(v, "");
  }

  /** The canonical text loads back as the key-sorted value, exactly when no string holds an unmerged pair. */
  lemma CanonicalJsonLoadsIff(v: Json)
    requires Held(v)
    ensures Loads(CanonicalJson(v)) == Some(SortKeys(v)) <==> PairFreeTexts(v)
  {
    RebuildKeepsTokens(v, Keep);
    RebuildKeepsDicts(v, Keep);
    if PairFreeTexts(v) {
      RebuildKeepsPairs(v, Keep);
      PrintLoads(SortKeys(v));
    }
    if Loads(CanonicalJson(v)) == Some(SortKeys(v)) {
      LoadedIsHeld(CanonicalJson(v));
      RebuiltPairsWereFree(v, Keep);
    }
  }
}
