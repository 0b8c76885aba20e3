// Python strings as the JSON tools see them: sequences of code points, ordered
// the way Python orders `str` values.

module Texts {

  // A Python `str` element: any code point, lone surrogates included.
  type CodePoint = n: nat | n < 0x110000

  type Text = seq<CodePoint>

  /** The text a Python string literal denotes. */
  function Lit(s: string): (t: Text)
    ensures |t| == |s|
  {
    seq(|s|, i requires 0 <= i < |s| => s[i] as int)
  }

  /** Python's `<=` on strings: lexicographic by code point. */
  predicate TextLe(a: Text, b: Text) {
    a == [] || (b != [] && (a[0] < b[0] || (a[0] == b[0] && TextLe(a[1..], b[1..]))))
  }

  predicate TextLt(a: Text, b: Text) {
    TextLe(a, b) && a != b
  }

  lemma {:induction false} TextLeTotal(a: Text, b: Text)
    ensures TextLe(a, b) || TextLe(b, a)
  {
    if a != [] && b != [] && a[0] == b[0] {
      TextLeTotal(a[1..], b[1..]);
    }
  }

  lemma {:induction false} TextLeTransitive(a: Text, b: Text, c: Text)
    requires TextLe(a, b) && TextLe(b, c)
    ensures TextLe(a, c)
  {
    if a != [] && a[0] == b[0] == c[0] {
      TextLeTransitive(a[1..], b[1..], c[1..]);
    }
  }

  lemma {:induction false} TextLeAntisymmetric(a: Text, b: Text)
    requires TextLe(a, b) && TextLe(b, a)
    ensures a == b
  {
    if a != [] {
      TextLeAntisymmetric(a[1..], b[1..]);
      assert a == [a[0]] + a[1..] && b == [b[0]] + b[1..];
    }
  }

  /** Code points Python's `str.strip` removes and `str.isspace` accepts. */
  predicate IsSpace(c: CodePoint) {
    || 0x09 <= c <= 0x0D || 0x1C <= c <= 0x20 || c == 0x85 || c == 0xA0 || c == 0x1680
    || 0x2000 <= c <= 0x200A || c == 0x2028 || c == 0x2029 || c == 0x202F || c == 0x205F || c == 0x3000
  }

  /** `bool(t.strip())`. */
  predicate HasInk(t: Text) {
    t != [] && (!IsSpace(t[0]) || HasInk(t[1..]))
  }

  /** A text is blank exactly when all of it is white space. */
  lemma {:induction false} HasInkIff(t: Text)
    ensures HasInk(t) <==> exists i :: 0 <= i < |t| && !IsSpace(t[i])
  {
    if t != [] {
      HasInkIff(t[1..]);
      assert forall i :: 0 < i < |t| ==> t[i] == t[1..][i - 1];
    }
  }

  lemma SharedHead(a: Text, b: Text, i: nat)
    requires i < |a| && i < |b| && a[..i] == b[..i]
    ensures i == 0 || a[0] == b[0]
  {
    if i > 0 {
      assert a[0] == a[..i][0] == b[..i][0];
    }
  }

  /** One text comes before another exactly when it is a prefix, or smaller at the first place they differ. */
  lemma {:induction false} TextLeIff(a: Text, b: Text)
    ensures TextLe(a, b) <==> a <= b || exists i :: 0 <= i < |a| && i < |b| && a[..i] == b[..i] && a[i] < b[i]
  {
    if a != [] && b != [] {
      var c, d := a[1..], b[1..];
      TextLeIff(c, d);
      if a[0] == b[0] {
        if i :| 0 <= i < |c| && i < |d| && c[..i] == d[..i] && c[i] < d[i] {
          assert a[..i + 1] == [a[0]] + c[..i] && b[..i + 1] == [b[0]] + d[..i];
          assert a[i + 1] < b[i + 1];
        }
        if i :| 0 <= i < |a| && i < |b| && a[..i] == b[..i] && a[i] < b[i] {
          assert a[0] == a[..i][0] || i == 0;
          assert c[..i - 1] == a[..i][1..] && d[..i - 1] == b[..i][1..];
          assert c[i - 1] < d[i - 1];
        }
        assert a == [a[0]] + c && b == [b[0]] + d;
      } else if a[0] < b[0] {
        assert a[..0] == b[..0];
      } else {
        forall i | 0 <= i < |a| && i < |b| && a[..i] == b[..i] ensures a[i] >= b[i] {
          SharedHead(a, b, i);
        }
      }
    }
  }
}
