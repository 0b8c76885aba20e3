// Extracting a brace-delimited body after a signature.

module BraceMatcher {
  import opened PyStrings

  /** Opening minus closing braces in source[from..end]. */
  function Depth(source: string, from: nat, end: nat): int
    requires from <= end <= |source|
    decreases end
  {
    if from == end then 0 else Depth(source, from, end - 1) + Weight(source[end - 1])
  }

  function Weight(c: char): int {
    if c == '{' then 1 else if c == '}' then -1 else 0
  }

  /** No prefix closes more than it opens, and the whole closes all it opens. */
  ghost predicate Balanced(body: string) {
    Depth(body, 0, |body|) == 0 && forall k :: 0 <= k <= |body| ==> Depth(body, 0, k) >= 0
  }

  lemma {:induction false} DepthOfSlice(source: string, from: nat, end: nat, k: nat)
    requires from <= end <= |source| && k <= end - from
    ensures Depth(source[from..end], 0, k) == Depth(source, from, from + k)
  {
    if k > 0 {
      DepthOfSlice(source, from, end, k - 1);
    }
  }

  /** The brace at `close` is where the depth opened at `open` first returns to zero. */
  ghost predicate Closes(source: string, open: nat, close: nat) {
    && open < close < |source| && source[open] == '{'
    && Depth(source, open, close + 1) == 0
    && forall k :: open < k <= close ==> Depth(source, open, k) != 0
  }

  /** Where the body's opening brace is: the first one after the signature. */
  function OpenBrace(source: string, signature: string): int {
    var start := Find(source, signature, 0);
    if start < 0 then -1 else Find(source, "{", start)
  }

  /** The signature first occurs at `start`, and `open` is the first opening brace from there on. */
  ghost predicate OpensBody(source: string, signature: string, start: nat, open: nat) {
    && MatchesAt(source, start, signature) && (forall i: nat :: i < start ==> !MatchesAt(source, i, signature))
    && start <= open < |source| && source[open] == '{' && forall k :: start <= k < open ==> source[k] != '{'
  }

  lemma BraceMatches(source: string, k: nat)
    ensures MatchesAt(source, k, "{") <==> k < |source| && source[k] == '{'
  {
    if k < |source| {
      assert source[k..k + 1] == [source[k]];
    }
  }

  lemma FindBrace(source: string, start: nat)
    ensures var o := Find(source, "{", start);
      && (o >= 0 ==> start <= o < |source| && source[o] == '{')
      && forall k: nat :: start <= k < |source| && (o < 0 || k < o) ==> source[k] != '{'
  {
    FindSpec(source, "{", start);
    var o := Find(source, "{", start);
    if o >= 0 {
      BraceMatches(source, o);
    }
    forall k: nat | start <= k < |source| && (o < 0 || k < o) ensures source[k] != '{' {
      BraceMatches(source, k);
    }
  }

  /** The search from the start, then from the signature, finds exactly that brace. */
  lemma OpenBraceIff(source: string, signature: string, open: nat)
    ensures OpenBrace(source, signature) == open <==> exists start: nat :: OpensBody(source, signature, start, open)
  {
    var start := Find(source, signature, 0);
    FindSpec(source, signature, 0);
    if start >= 0 {
      FindBrace(source, start);
      if OpenBrace(source, signature) == open {
        assert OpensBody(source, signature, start, open);
      }
    }
    forall s: nat | OpensBody(source, signature, s, open) ensures OpenBrace(source, signature) == open {
      assert start == s;
    }
  }

  /** The brace at `open` is never matched. */
  ghost predicate NeverCloses(source: string, open: nat) {
    forall close: nat :: !Closes(source, open, close)
  }

  /** `_body_after_signature`: the text between the first brace after the signature and its match, or nothing. */
  method BodyAfterSignature(source: string, signature: string) returns (body: string)
    ensures (forall start: nat, open: nat :: !OpensBody(source, signature, start, open)) ==> body == ""
    ensures forall start: nat, open: nat ::
      OpensBody(source, signature, start, open) && NeverCloses(source, open) ==> body == ""
    ensures forall start: nat, open: nat, close: nat ::
      OpensBody(source, signature, start, open) && Closes(source, open, close) ==> body == source[open + 1..close]
  {
    forall start: nat, open: nat | OpensBody(source, signature, start, open)
      ensures OpenBrace(source, signature) == open {
      OpenBraceIff(source, signature, open);
    }
    var start := Find(source, signature, 0);
    if start < 0 {
      return "";
    }
    var open := Find(source, "{", start);
    if open < 0 {
      return "";
    }
    FindBrace(source, start);
    OpenBraceIff(source, signature, open);
    var depth := 0;
    var index: nat := open;
    while index < |source|
      invariant open <= index <= |source|
      invariant depth == Depth(source, open, index)
      invariant index > open ==> depth > 0
      invariant forall k :: open < k <= index ==> Depth(source, open, k) > 0
    {
      if source[index] == '{' {
        depth := depth + 1;
      } else if source[index] == '}' {
        depth := depth - 1;
        if depth == 0 {
          assert Closes(source, open, index);
          forall close: nat | Closes(source, open, close) ensures close == index {
            ClosingIsUnique(source, open, close, index);
          }
          return source[open + 1..index];
        }
      }
      index := index + 1;
    }
    forall close: nat ensures !Closes(source, open, close) {
      if close < |source| && open < close {
        assert Depth(source, open, close + 1) > 0;
      }
    }
    return "";
  }

  lemma ClosingIsUnique(source: string, open: nat, a: nat, b: nat)
    requires Closes(source, open, a) && Closes(source, open, b)
    ensures a == b
  {
    ClosesNoLater(source, open, a, b);
    ClosesNoLater(source, open, b, a);
  }

  lemma ClosesNoLater(source: string, open: nat, a: nat, b: nat)
    requires Closes(source, open, a) && Closes(source, open, b)
    ensures a <= b
  {
    var k := b + 1;
    assert Depth(source, open, k) == 0;
  }

  lemma {:induction false} DepthSplits(source: string, open: nat, k: nat)
    requires open < k <= |source| && source[open] == '{'
    ensures Depth(source, open, k) == 1 + Depth(source, open + 1, k)
    decreases k
  {
    if k == open + 1 {
      assert Depth(source, open, open) == 0;
    } else {
      DepthSplits(source, open, k - 1);
    }
  }

  lemma {:induction false} StaysOpen(source: string, open: nat, close: nat, k: nat)
    requires Closes(source, open, close) && open < k <= close
    ensures Depth(source, open, k) > 0
    decreases k
  {
    if k == open + 1 {
      assert Depth(source, open, open) == 0;
    } else {
      StaysOpen(source, open, close, k - 1);
    }
  }

  /** Where the depth first returns to zero there is a closing brace, and what lies between is balanced; and
      conversely. */
  lemma ClosesIffBalanced(source: string, open: nat, close: nat)
    requires open < close < |source| && source[open] == '{'
    ensures Closes(source, open, close) <==> source[close] == '}' && Balanced(source[open + 1..close])
  {
    var body := source[open + 1..close];
    forall k | 0 <= k <= |body| ensures Depth(body, 0, k) == Depth(source, open, open + 1 + k) - 1 {
      DepthOfSlice(source, open + 1, close, k);
      DepthSplits(source, open, open + 1 + k);
    }
    if Closes(source, open, close) {
      StaysOpen(source, open, close, close);
      forall k | 0 <= k <= |body| ensures Depth(body, 0, k) >= 0 {
        StaysOpen(source, open, close, open + 1 + k);
      }
      assert Depth(body, 0, |body|) == Depth(source, open, close) - 1;
    }
    if source[close] == '}' && Balanced(body) {
      forall k | open < k <= close ensures Depth(source, open, k) != 0 {
        assert Depth(body, 0, k - open - 1) >= 0;
      }
    }
  }

  /** A body is returned exactly when the first brace after the signature opens a balanced body. */
  lemma BodyFoundIff(source: string, open: nat)
    requires open < |source| && source[open] == '{'
    ensures (exists close :: Closes(source, open, close)) <==>
      exists close :: open < close < |source| && source[close] == '}' && Balanced(source[open + 1..close])
  {
    forall close | open < close < |source|
      ensures Closes(source, open, close) <==> source[close] == '}' && Balanced(source[open + 1..close]) {
      ClosesIffBalanced(source, open, close);
    }
  }
}
