// The compact JSON text `json.dumps(..., separators=(",", ":"), ensure_ascii=True)`
// and the decoder `json.loads`, following RFC 8259 sections 2 to 7.
//
// Printers take the text that follows as a `tail`, so that a printed value is
// a prefix of its result by construction and decoding it needs no re-bracketing.

module JsonText {
  import opened Texts
  import opened Json
  import opened Wrappers

  // What may follow a value inside a compact text.
  predicate Stop(tail: string) {
    tail == "" || tail[0] in ",]}"
  }

  // ======== Numbers ========

  predicate IsDigit(c: char) {
    '0' <= c <= '9'
  }

  function DigitChar(d: nat): char
    requires d < 10
  {
    '0' + d as char
  }

  function NatText(n: nat): string {
    if n < 10 then [DigitChar(n)] else NatText(n / 10) + [DigitChar(n % 10)]
  }

  function IntText(n: int): string {
    if n < 0 then "-" + NatText(-n) else NatText(n)
  }

  function NatValue(s: string): nat
    requires forall i :: 0 <= i < |s| ==> IsDigit(s[i])
  {
    if s == "" then 0
    else
      assert IsDigit(s[|s| - 1]);
      NatValue(s[..|s| - 1]) * 10 + (s[|s| - 1] as int - '0' as int)
  }

  /** The length of the leading run of digits. */
  function Digits(s: string): (k: nat)
    ensures k <= |s| && forall i :: 0 <= i < k ==> IsDigit(s[i])
  {
    if s != "" && IsDigit(s[0]) then 1 + Digits(s[1..]) else 0
  }

  function SignLen(s: string, signs: string): (k: nat)
    ensures k <= 1 && k <= |s|
  {
    if s != "" && s[0] in signs then 1 else 0
  }

  /** The length of the integer part `-?(0|[1-9][0-9]*)` at the front, 0 when there is none. */
  function IntLen(s: string): (k: nat)
    ensures k <= |s|
  {
    var sign := SignLen(s, "-");
    var d := s[sign..];
    if d != "" && d[0] == '0' then sign + 1
    else if d != "" && IsDigit(d[0]) then sign + Digits(d)
    else 0
  }

  /** The length of `\.[0-9]+` at the front, 0 when there is none. */
  function FracLen(s: string): (k: nat)
    ensures k <= |s|
  {
    if s != "" && s[0] == '.' && Digits(s[1..]) > 0 then 1 + Digits(s[1..]) else 0
  }

  /** The length of `[eE][-+]?[0-9]+` at the front, 0 when there is none. */
  function ExpLen(s: string): (k: nat)
    ensures k <= |s|
  {
    if s != "" && s[0] in "eE" then
      var sign := SignLen(s[1..], "-+");
      var d := Digits(s[1 + sign..]);
      if d > 0 then 1 + sign + d else 0
    else 0
  }

  /** The length of the number's fraction and exponent, given the text after its integer part. */
  function SuffixLen(s: string): (k: nat)
    ensures k <= |s|
  {
    FracLen(s) + ExpLen(s[FracLen(s)..])
  }

  /** A complete number token with a fraction or an exponent: the shape of a float's `repr`. */
  predicate FloatToken(t: string) {
    IntLen(t) > 0 && SuffixLen(t[IntLen(t)..]) > 0 && IntLen(t) + SuffixLen(t[IntLen(t)..]) == |t|
  }

  function IntValue(t: string): int
    requires t != "" && IntLen(t) == |t|
  {
    IntTokenDigits(t);
    if t[0] == '-' then 0 - NatValue(t[1..]) else NatValue(t)
  }

  lemma IntTokenDigits(t: string)
    requires t != "" && IntLen(t) == |t|
    ensures forall i :: (if t[0] == '-' then 1 else 0) <= i < |t| ==> IsDigit(t[i])
  {
    var sign := SignLen(t, "-");
    var d := t[sign..];
    assert IntLen(t) == if d != "" && d[0] == '0' then sign + 1 else sign + Digits(d);
    forall i | sign <= i < |t| ensures IsDigit(t[i]) {
      assert t[i] == d[i - sign];
    }
  }

  lemma IntPrefix(s: string)
    requires IntLen(s) > 0
    ensures IntLen(s[..IntLen(s)]) == IntLen(s)
  {
    var k := IntLen(s);
    var t := s[..k];
    var sign := SignLen(s, "-");
    assert t[sign..] == s[sign..][..k - sign];
    if s[sign] != '0' {
      DigitsPrefix(s[sign..], k - sign);
    }
  }

  lemma {:induction false} DigitsPrefix(s: string, k: nat)
    requires k <= Digits(s)
    ensures Digits(s[..k]) == k
  {
    if k > 0 {
      DigitsPrefix(s[1..], k - 1);
      assert s[..k][1..] == s[1..][..k - 1];
    }
  }

  function ParseNumber(s: string): (r: Option<(Json, string)>)
    ensures r.Some? ==> |r.value.1| < |s|
  {
    var k := IntLen(s);
    if k == 0 then None else
    var m := SuffixLen(s[k..]);
    IntPrefix(s);
    Some((if m == 0 then Int(IntValue(s[..k])) else Float(s[..k + m]), s[k + m..]))
  }

  // ---- A token followed by a stop scans as the token alone ----

  lemma {:induction false} DigitsOfToken(t: string, tail: string)
    requires tail == "" || !IsDigit(tail[0])
    ensures Digits(t + tail) == Digits(t)
  {
    if t == "" {
      assert t + tail == tail;
    } else {
      assert (t + tail)[1..] == t[1..] + tail;
      DigitsOfToken(t[1..], tail);
    }
  }

  lemma IntDigitsOfToken(d: string, tail: string)
    requires Stop(tail)
    ensures Digits(d + tail) == Digits(d)
    ensures d + tail != "" && IsDigit((d + tail)[0]) ==> d != "" && (d + tail)[0] == d[0]
  {
    DigitsOfToken(d, tail);
    if d == "" {
      assert d + tail == tail;
    }
  }

  lemma IntOfToken(t: string, tail: string)
    requires Stop(tail)
    ensures IntLen(t + tail) == IntLen(t)
  {
    if t == "" {
      assert t + tail == tail;
    } else {
      var sign := SignLen(t, "-");
      SignOfToken(t, tail, "-");
      DropOfAppend(t, sign, tail);
      IntDigitsOfToken(t[sign..], tail);
    }
  }

  lemma FracOfToken(t: string, tail: string)
    requires Stop(tail)
    ensures FracLen(t + tail) == FracLen(t)
  {
    if t == "" {
      assert t + tail == tail;
    } else {
      assert (t + tail)[1..] == t[1..] + tail;
      DigitsOfToken(t[1..], tail);
    }
  }

  lemma ExpOfToken(t: string, tail: string)
    requires Stop(tail)
    ensures ExpLen(t + tail) == ExpLen(t)
  {
    if t == "" {
      assert t + tail == tail;
    } else if t[0] in "eE" {
      var sign := SignLen(t[1..], "-+");
      DropOfAppend(t, 1, tail);
      DropOfAppend(t, 1 + sign, tail);
      SignOfToken(t[1..], tail, "-+");
      DigitsOfToken(t[1 + sign..], tail);
    }
  }

  lemma DropOfAppend(t: string, k: nat, tail: string)
    requires k <= |t|
    ensures (t + tail)[k..] == t[k..] + tail
  {}

  lemma SignOfToken(t: string, tail: string, signs: string)
    requires Stop(tail) && (signs == "-" || signs == "-+")
    ensures SignLen(t + tail, signs) == SignLen(t, signs)
  {
    if t == "" {
      assert t + tail == tail;
    }
  }

  lemma SuffixOfToken(t: string, tail: string)
    requires Stop(tail)
    ensures SuffixLen(t + tail) == SuffixLen(t)
  {
    FracOfToken(t, tail);
    assert (t + tail)[FracLen(t)..] == t[FracLen(t)..] + tail;
    ExpOfToken(t[FracLen(t)..], tail);
  }

  lemma ParseFloat(t: string, tail: string)
    requires FloatToken(t) && Stop(tail)
    ensures ParseNumber(t + tail) == Some((Float(t), tail))
  {
    IntOfToken(t, tail);
    var k := IntLen(t);
    assert (t + tail)[k..] == t[k..] + tail;
    SuffixOfToken(t[k..], tail);
    assert (t + tail)[..|t|] == t && (t + tail)[|t|..] == tail;
  }

  lemma {:induction false} NatTextDigits(n: nat)
    ensures var t := NatText(n);
      && t != "" && (forall i :: 0 <= i < |t| ==> IsDigit(t[i])) && NatValue(t) == n
      && (t[0] == '0' ==> t == "0") && (n > 0 ==> t[0] != '0')
  {
    if n >= 10 {
      NatTextDigits(n / 10);
      var t := NatText(n);
      assert t[..|t| - 1] == NatText(n / 10);
    } else {
      assert NatText(n)[..0] == "";
    }
  }

  lemma {:induction false} AllDigits(t: string)
    requires forall i :: 0 <= i < |t| ==> IsDigit(t[i])
    ensures Digits(t) == |t|
  {
    if t != "" {
      AllDigits(t[1..]);
    }
  }

  lemma IntTextIsToken(n: int)
    ensures IntText(n) != "" && IntLen(IntText(n)) == |IntText(n)| && IntValue(IntText(n)) == n
  {
    var u := NatText(if n < 0 then -n else n);
    NatTextDigits(if n < 0 then -n else n);
    AllDigits(u);
    if n < 0 {
      assert ("-" + u)[1..] == u;
    }
  }

  lemma ParseInt(n: int, tail: string)
    requires Stop(tail)
    ensures ParseNumber(IntText(n) + tail) == Some((Int(n), tail))
  {
    var t := IntText(n);
    IntTextIsToken(n);
    IntOfToken(t, tail);
    assert (t + tail)[|t|..] == tail && (t + tail)[..|t|] == t;
    assert tail[0..] == tail;
    assert SuffixLen(tail) == 0;
  }

  // ======== Strings ========

  predicate IsHigh(c: CodePoint) { 0xD800 <= c < 0xDC00 }
  predicate IsLow(c: CodePoint) { 0xDC00 <= c < 0xE000 }

  /** The code point a surrogate pair spells. */
  function Joined(hi: CodePoint, lo: CodePoint): (c: CodePoint)
    requires IsHigh(hi) && IsLow(lo)
    ensures (c - 0x10000) / 1024 == hi - 0xD800 && (c - 0x10000) % 1024 == lo - 0xDC00 && c >= 0x10000
  {
    0x10000 + (hi - 0xD800) * 1024 + (lo - 0xDC00)
  }

  function HexChar(d: nat): char
    requires d < 16
  {
    if d < 10 then '0' + d as char else 'a' + (d - 10) as char
  }

  function HexValue(c: char): (d: Option<nat>)
    ensures d.Some? ==> d.value < 16
  {
    if '0' <= c <= '9' then Some(c as int - '0' as int)
    else if 'a' <= c <= 'f' then Some(c as int - 'a' as int + 10)
    else if 'A' <= c <= 'F' then Some(c as int - 'A' as int + 10)
    else None
  }

  /** `\uXXXX` for one 16-bit unit. */
  function UnitEscape(u: nat, tail: string): string
    requires u < 0x10000
  {
    ['\\', 'u', HexChar(u / 4096), HexChar(u / 256 % 16), HexChar(u / 16 % 16), HexChar(u % 16)] + tail
  }

  /** One code point as `ensure_ascii` prints it inside a string. */
  function EscapePoint(c: CodePoint, tail: string): string {
    if c == 0x22 then "\\\"" + tail
    else if c == 0x5C then "\\\\" + tail
    else if c == 0x08 then "\\b" + tail
    else if c == 0x0C then "\\f" + tail
    else if c == 0x0A then "\\n" + tail
    else if c == 0x0D then "\\r" + tail
    else if c == 0x09 then "\\t" + tail
    else if 0x20 <= c <= 0x7E then [c as char] + tail
    else if c < 0x10000 then UnitEscape(c, tail)
    else UnitEscape(0xD800 + (c - 0x10000) / 1024, UnitEscape(0xDC00 + (c - 0x10000) % 1024, tail))
  }

  function Escape(t: Text, tail: string): string {
    if t == [] then tail else EscapePoint(t[0], Escape(t[1..], tail))
  }

  function Quote(t: Text, tail: string): string {
    "\"" + Escape(t, "\"" + tail)
  }

  /** The four hex digits after `\u`. */
  function ReadUnit(s: string): (u: Option<nat>)
    ensures u.Some? ==> |s| >= 6 && u.value < 0x10000
  {
    if |s| >= 6 && s[0] == '\\' && s[1] == 'u' then
      var a :- HexValue(s[2]);
      var b :- HexValue(s[3]);
      var c :- HexValue(s[4]);
      var d :- HexValue(s[5]);
      Some(a * 4096 + b * 256 + c * 16 + d)
    else None
  }

  function ShortEscape(c: char): Option<CodePoint> {
    match c
    case '\"' => Some(0x22)
    case '\\' => Some(0x5C)
    case '/' => Some(0x2F)
    case 'b' => Some(0x08)
    case 'f' => Some(0x0C)
    case 'n' => Some(0x0A)
    case 'r' => Some(0x0D)
    case 't' => Some(0x09)
    case _ => None
  }

  /** One code point of a string body; a high surrogate absorbs a following low one. */
  function ReadPoint(s: string): (r: Option<(CodePoint, string)>)
    requires s != ""
    ensures r.Some? ==> |r.value.1| < |s|
  {
    if s[0] == '\\' then
      if |s| >= 2 && s[1] == 'u' then
        var u :- ReadUnit(s);
        var low := ReadUnit(s[6..]);
        if IsHigh(u) && low.Some? && IsLow(low.value) then
          Some((0x10000 + (u - 0xD800) * 1024 + (low.value - 0xDC00), s[12..]))
        else Some((u, s[6..]))
      else if |s| >= 2 then
        var c :- ShortEscape(s[1]);
        Some((c, s[2..]))
      else None
    else if s[0] < ' ' then None
    else Some((s[0] as int, s[1..]))
  }

  /** A string body up to and including its closing quote. */
  function ReadString(s: string): (r: Option<(Text, string)>)
    ensures r.Some? ==> |r.value.1| < |s|
    decreases |s|
  {
    if s == "" then None
    else if s[0] == '\"' then Some(([], s[1..]))
    else
      var p :- ReadPoint(s);
      var q :- ReadString(p.1);
      Some(([p.0] + q.0, q.1))
  }

  /** No high surrogate is directly followed by a low one. */
  ghost predicate PairFree(t: Text) {
    forall i :: 0 <= i < |t| - 1 && IsHigh(t[i]) ==> !IsLow(t[i + 1])
  }

  lemma HexRoundTrip(d: nat)
    requires d < 16
    ensures HexValue(HexChar(d)) == Some(d)
  {}

  lemma HexSplit(u: nat)
    requires u < 0x10000
    ensures u == u / 4096 * 4096 + u / 256 % 16 * 256 + u / 16 % 16 * 16 + u % 16
  {
    assert u / 16 / 16 == u / 256 && u / 256 / 16 == u / 4096;
  }

  lemma UnitRoundTrip(u: nat, tail: string)
    requires u < 0x10000
    ensures ReadUnit(UnitEscape(u, tail)) == Some(u) && UnitEscape(u, tail)[6..] == tail
  {
    var a, b, c, d := u / 4096, u / 256 % 16, u / 16 % 16, u % 16;
    HexSplit(u);
    HexRoundTrip(a);
    HexRoundTrip(b);
    HexRoundTrip(c);
    HexRoundTrip(d);
    var digits := ['\\', 'u', HexChar(a), HexChar(b), HexChar(c), HexChar(d)];
    assert UnitEscape(u, tail) == digits + tail;
  }

  // Two escapes in a row that spell a surrogate pair are read as one point.
  lemma ReadPair(s: string, hi: CodePoint, lo: CodePoint)
    requires IsHigh(hi) && IsLow(lo) && ReadUnit(s) == Some(hi) && ReadUnit(s[6..]) == Some(lo)
    ensures |s| >= 12 && s[0] != '\"' && ReadPoint(s) == Some((Joined(hi, lo), s[12..]))
  {}

  // A point beyond the first plane is escaped as the pair that spells it.
  lemma JoinedEscape(hi: CodePoint, lo: CodePoint, tail: string)
    requires IsHigh(hi) && IsLow(lo)
    ensures EscapePoint(Joined(hi, lo), tail) == UnitEscape(hi, UnitEscape(lo, tail))
  {}

  lemma SplitPoint(c: CodePoint) returns (hi: CodePoint, lo: CodePoint)
    requires c >= 0x10000
    ensures IsHigh(hi) && IsLow(lo) && Joined(hi, lo) == c
  {
    hi, lo := 0xD800 + (c - 0x10000) / 1024, 0xDC00 + (c - 0x10000) % 1024;
  }

  lemma PairRoundTrip(c: CodePoint, tail: string)
    requires c >= 0x10000
    ensures var s := EscapePoint(c, tail); s != "" && s[0] != '\"' && ReadPoint(s) == Some((c, tail))
  {
    var hi, lo := SplitPoint(c);
    JoinedEscape(hi, lo, tail);
    PairEscape(hi, lo, tail);
  }

  lemma PairEscape(hi: CodePoint, lo: CodePoint, tail: string)
    requires IsHigh(hi) && IsLow(lo)
    ensures var s := UnitEscape(hi, UnitEscape(lo, tail));
      s != "" && s[0] != '\"' && ReadPoint(s) == Some((Joined(hi, lo), tail))
  {
    var s := UnitEscape(hi, UnitEscape(lo, tail));
    UnitRoundTrip(lo, tail);
    UnitRoundTrip(hi, UnitEscape(lo, tail));
    ReadPair(s, hi, lo);
    assert s[12..] == s[6..][6..];
  }

  // The escape of c reads back as c unless a lone high surrogate meets a low one.
  lemma PointRoundTrip(c: CodePoint, tail: string)
    requires IsHigh(c) ==> (ReadUnit(tail).Some? ==> !IsLow(ReadUnit(tail).value))
    ensures var s := EscapePoint(c, tail); s != "" && s[0] != '\"' && ReadPoint(s) == Some((c, tail))
  {
    if c >= 0x10000 {
      PairRoundTrip(c, tail);
    } else {
      UnitRoundTrip(c, tail);
    }
  }

  // The text after an escaped string starts with a low-surrogate escape only
  // when the string starts with a lone low surrogate.
  lemma EscapeHead(t: Text, tail: string)
    requires tail != "" && tail[0] == '\"'
    requires ReadUnit(Escape(t, tail)).Some? && IsLow(ReadUnit(Escape(t, tail)).value)
    ensures t != [] && IsLow(t[0])
  {
    if t != [] {
      PointHead(t[0], Escape(t[1..], tail));
    }
  }

  lemma PointHead(c: CodePoint, rest: string)
    ensures ReadUnit(EscapePoint(c, rest)).Some? && IsLow(ReadUnit(EscapePoint(c, rest)).value) ==> IsLow(c)
  {
    if c >= 0x10000 {
      UnitRoundTrip(0xD800 + (c - 0x10000) / 1024, UnitEscape(0xDC00 + (c - 0x10000) % 1024, rest));
    } else {
      UnitRoundTrip(c, rest);
    }
  }

  lemma {:induction false} StringRoundTrip(t: Text, tail: string)
    requires PairFree(t)
    ensures ReadString(Escape(t, "\"" + tail)) == Some((t, tail))
  {
    var close := "\"" + tail;
    if t == [] {
      assert close[1..] == tail;
    } else {
      var rest := Escape(t[1..], close);
      forall i | 0 <= i < |t[1..]| - 1 && IsHigh(t[1..][i]) ensures !IsLow(t[1..][i + 1]) {
        assert t[1..][i] == t[i + 1] && t[1..][i + 1] == t[i + 2];
      }
      StringRoundTrip(t[1..], tail);
      if IsHigh(t[0]) && ReadUnit(rest).Some? && IsLow(ReadUnit(rest).value) {
        EscapeHead(t[1..], close);
        assert false;
      }
      PointRoundTrip(t[0], rest);
      assert t == [t[0]] + t[1..];
    }
  }

  // Only an escape produces a surrogate.
  lemma SurrogateIsEscaped(s: string)
    requires s != "" && ReadPoint(s).Some?
    requires 0xD800 <= ReadPoint(s).value.0 < 0xE000
    ensures ReadUnit(s) == Some(ReadPoint(s).value.0) && ReadPoint(s).value.1 == s[6..]
  {}

  /** Whatever the decoder accepts, it never leaves a surrogate pair unmerged. */
  lemma {:induction false} DecodedIsPairFree(s: string)
    requires ReadString(s).Some?
    ensures PairFree(ReadString(s).value.0)
    decreases |s|
  {
    if s[0] != '\"' {
      var p := ReadPoint(s).value;
      DecodedIsPairFree(p.1);
      var t := ReadString(s).value.0;
      var u := ReadString(p.1).value.0;
      assert t == [p.0] + u;
      if IsHigh(p.0) && u != [] && IsLow(u[0]) {
        SurrogateIsEscaped(s);
        SurrogateIsEscaped(p.1);
        assert false;
      }
    }
  }

  // ---- Which escapes are chosen ----

  /** Printable ASCII only. */
  ghost predicate Plain(s: string) {
    forall i :: 0 <= i < |s| ==> ' ' <= s[i] <= '~'
  }

  /** `\u` and four lower-case hex digits. */
  ghost predicate IsUnitEscape(s: string) {
    && |s| == 6 && s[0] == '\\' && s[1] == 'u'
    && forall i :: 2 <= i < 6 ==> '0' <= s[i] <= '9' || 'a' <= s[i] <= 'f'
  }

  lemma UnitIsHex(u: nat, tail: string)
    requires u < 0x10000
    ensures |UnitEscape(u, tail)| == 6 + |tail| && IsUnitEscape(UnitEscape(u, tail)[..6])
    ensures UnitEscape(u, tail)[6..] == tail
  {
    var digits := ['\\', 'u', HexChar(u / 4096), HexChar(u / 256 % 16), HexChar(u / 16 % 16), HexChar(u % 16)];
    assert UnitEscape(u, tail)[..6] == digits;
  }

  // A printable ASCII character but the quote and the backslash stands for itself,
  // those two and five control characters have a two-character escape, every other
  // code point one `\u` escape or, beyond the first plane, two.
  lemma EscapeChoice(c: CodePoint)
    ensures var e := EscapePoint(c, "");
      if 0x20 <= c <= 0x7E && c != 0x22 && c != 0x5C then e == [c as char]
      else if c in {0x22, 0x5C, 0x08, 0x09, 0x0A, 0x0C, 0x0D} then |e| == 2 && e[0] == '\\' && Plain(e)
      else if c < 0x10000 then IsUnitEscape(e)
      else |e| == 12 && IsUnitEscape(e[..6]) && IsUnitEscape(e[6..])
  {
    if c >= 0x10000 {
      var hi, lo := 0xD800 + (c - 0x10000) / 1024, 0xDC00 + (c - 0x10000) % 1024;
      UnitIsHex(lo, "");
      UnitIsHex(hi, UnitEscape(lo, ""));
      assert UnitEscape(lo, "")[..6] == UnitEscape(lo, "");
    } else {
      UnitIsHex(c, "");
      assert UnitEscape(c, "")[..6] == UnitEscape(c, "");
    }
  }

  lemma UnitTail(u: nat, tail: string, rest: string)
    requires u < 0x10000
    ensures UnitEscape(u, rest + tail) == UnitEscape(u, rest) + tail
  {
    var digits := ['\\', 'u', HexChar(u / 4096), HexChar(u / 256 % 16), HexChar(u / 16 % 16), HexChar(u % 16)];
    assert digits + (rest + tail) == (digits + rest) + tail;
  }

  lemma EscapeTail(c: CodePoint, tail: string)
    ensures EscapePoint(c, tail) == EscapePoint(c, "") + tail
  {
    if c >= 0x10000 {
      var hi, lo := 0xD800 + (c - 0x10000) / 1024, 0xDC00 + (c - 0x10000) % 1024;
      UnitTail(lo, tail, "");
      UnitTail(hi, tail, UnitEscape(lo, ""));
    } else {
      UnitTail(c, tail, "");
    }
  }

  lemma EscapeIsPlain(c: CodePoint)
    ensures Plain(EscapePoint(c, ""))
  {
    EscapeChoice(c);
    var e := EscapePoint(c, "");
    if |e| == 12 {
      assert e == e[..6] + e[6..];
    }
  }

  /** A printed string is printable ASCII, whatever code points it holds. */
  lemma {:induction false} QuotedIsPlain(t: Text, tail: string)
    requires Plain(tail)
    ensures Plain(Escape(t, tail))
  {
    if t != [] {
      QuotedIsPlain(t[1..], tail);
      EscapeIsPlain(t[0]);
      EscapeTail(t[0], Escape(t[1..], tail));
    }
  }

  /** A string survives printing and decoding exactly when it holds no unmerged surrogate pair. */
  lemma StringDecodesIff(t: Text)
    ensures ReadString(Escape(t, "\"")) == Some((t, "")) <==> PairFree(t)
  {
    assert "\"" + "" == "\"";
    if PairFree(t) {
      StringRoundTrip(t, "");
    }
    if ReadString(Escape(t, "\"")) == Some((t, "")) {
      DecodedIsPairFree(Escape(t, "\""));
    }
  }

  lemma PairHead(hi: CodePoint, lo: CodePoint, after: Text, tail: string)
    requires IsHigh(hi) && IsLow(lo)
    ensures Escape([hi, lo] + after, tail) == Escape([Joined(hi, lo)] + after, tail)
  {
    var pair, point := [hi, lo] + after, [Joined(hi, lo)] + after;
    assert pair[1..] == [lo] + after && ([lo] + after)[1..] == after && point[1..] == after;
    JoinedEscape(hi, lo, Escape(after, tail));
  }

  /** Without that condition the text is ambiguous: a pair anywhere prints like the point it spells. */
  lemma {:induction false} SurrogatePairCollides(before: Text, hi: CodePoint, lo: CodePoint, after: Text, tail: string)
    requires IsHigh(hi) && IsLow(lo)
    ensures Joined(hi, lo) != hi
    ensures Escape(before + [hi, lo] + after, tail) == Escape(before + [Joined(hi, lo)] + after, tail)
  {
    if before == [] {
      PairHead(hi, lo, after, tail);
      assert before + [hi, lo] + after == [hi, lo] + after;
      assert before + [Joined(hi, lo)] + after == [Joined(hi, lo)] + after;
    } else {
      assert (before + [hi, lo] + after)[1..] == before[1..] + [hi, lo] + after;
      assert (before + [Joined(hi, lo)] + after)[1..] == before[1..] + [Joined(hi, lo)] + after;
      SurrogatePairCollides(before[1..], hi, lo, after, tail);
    }
  }
}
