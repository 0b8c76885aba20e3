// Joining the lists that a loop appends one after another.

module Lists {
  import opened Sorting

  lemma Assoc<T>(a: seq<T>, b: seq<T>, c: seq<T>)
    ensures a + (b + c) == (a + b) + c
  {}

  function Concat<T>(parts: seq<seq<T>>): seq<T> {
    if parts == [] then [] else Concat(parts[..|parts| - 1]) + parts[|parts| - 1]
  }

  lemma ConcatNext<T>(parts: seq<seq<T>>, part: seq<T>)
    ensures Concat(parts + [part]) == Concat(parts) + part
  {
    assert (parts + [part])[..|parts|] == parts;
  }

  /** A loop that has joined the first n parts joins the next one. */
  lemma ConcatUpTo<T>(parts: seq<seq<T>>, n: nat)
    requires n < |parts|
    ensures Concat(parts[..n + 1]) == Concat(parts[..n]) + parts[n]
  {
    assert parts[..n + 1] == parts[..n] + [parts[n]];
    ConcatNext(parts[..n], parts[n]);
  }

  lemma {:induction false} ConcatEmptyIff<T>(parts: seq<seq<T>>)
    ensures Concat(parts) == [] <==> forall k :: 0 <= k < |parts| ==> parts[k] == []
  {
    if parts != [] {
      var front := parts[..|parts| - 1];
      ConcatEmptyIff(front);
      assert forall k :: 0 <= k < |front| ==> front[k] == parts[k];
    }
  }

  lemma {:induction false} ConcatMembers<T>(parts: seq<seq<T>>, x: T)
    ensures x in Concat(parts) <==> exists k :: 0 <= k < |parts| && x in parts[k]
  {
    if parts != [] {
      var front := parts[..|parts| - 1];
      ConcatMembers(front, x);
      assert forall k :: 0 <= k < |front| ==> front[k] == parts[k];
    }
  }

  /** What a loop over xs collects when each turn appends f(x). */
  function ConcatMap<S, T>(f: S -> seq<T>, xs: seq<S>): seq<T> {
    if xs == [] then [] else ConcatMap(f, xs[..|xs| - 1]) + f(xs[|xs| - 1])
  }

  lemma ConcatMapUpTo<S, T>(f: S -> seq<T>, xs: seq<S>, n: nat)
    requires n < |xs|
    ensures ConcatMap(f, xs[..n + 1]) == ConcatMap(f, xs[..n]) + f(xs[n])
  {
    assert xs[..n + 1][..n] == xs[..n];
  }

  lemma {:induction false} ConcatMapAppend<S, T>(f: S -> seq<T>, a: seq<S>, b: seq<S>)
    ensures ConcatMap(f, a + b) == ConcatMap(f, a) + ConcatMap(f, b)
  {
    if b == [] {
      assert a + b == a;
    } else {
      var last := |b| - 1;
      ConcatMapAppend(f, a, b[..last]);
      assert (a + b)[..|a + b| - 1] == a + b[..last];
      Assoc(ConcatMap(f, a), ConcatMap(f, b[..last]), f(b[last]));
    }
  }

  /** Every collected element comes from some x. */
  lemma {:induction false} ConcatMapSource<S, T>(f: S -> seq<T>, xs: seq<S>, y: T)
    ensures y in ConcatMap(f, xs) <==> exists k :: 0 <= k < |xs| && y in f(xs[k])
  {
    if xs != [] {
      var front := xs[..|xs| - 1];
      ConcatMapSource(f, front, y);
      assert forall k :: 0 <= k < |front| ==> front[k] == xs[k];
    }
  }

  lemma ConcatMapOne<S, T>(f: S -> seq<T>, x: S)
    ensures ConcatMap(f, [x]) == f(x)
  {
    assert [x][..0] == [];
  }

  // Taking one element out of the middle takes what it contributes out of the whole.
  lemma ConcatMapWithout<S, T>(f: S -> seq<T>, xs: seq<S>, p: nat)
    requires p < |xs|
    ensures multiset(ConcatMap(f, xs)) == multiset(f(xs[p])) + multiset(ConcatMap(f, xs[..p] + xs[p + 1..]))
  {
    var before, after := xs[..p], xs[p + 1..];
    assert xs == before + ([xs[p]] + after);
    ConcatMapAround(f, before, xs[p], after);
    ConcatMapAppend(f, before, after);
    MiddleOut(ConcatMap(f, before), f(xs[p]), ConcatMap(f, after));
  }

  lemma ConcatMapAround<S, T>(f: S -> seq<T>, before: seq<S>, x: S, after: seq<S>)
    ensures ConcatMap(f, before + ([x] + after)) == ConcatMap(f, before) + (f(x) + ConcatMap(f, after))
  {
    ConcatMapAppend(f, before, [x] + after);
    ConcatMapAppend(f, [x], after);
    ConcatMapOne(f, x);
  }

  lemma MiddleOut<T>(a: seq<T>, b: seq<T>, c: seq<T>)
    ensures multiset(a + (b + c)) == multiset(b) + multiset(a + c)
  {}

  /** A reordered list collects the same elements. */
  lemma {:induction false} ConcatMapPermutes<S, T>(f: S -> seq<T>, a: seq<S>, b: seq<S>)
    requires multiset(a) == multiset(b)
    ensures multiset(ConcatMap(f, a)) == multiset(ConcatMap(f, b))
  {
    SameMembers(a, b);
    if a != [] {
      var p := RemoveHead(a, b);
      ConcatMapPermutes(f, a[1..], b[..p] + b[p + 1..]);
      ConcatMapWithout(f, b, p);
      ConcatMapWithout(f, a, 0);
      assert a[..0] + a[1..] == a[1..];
    }
  }

  /** Collecting the same elements of each x, in whatever order, collects the same elements. */
  lemma {:induction false} ConcatMapSameParts<S, T>(f: S -> seq<T>, g: S -> seq<T>, xs: seq<S>)
    requires forall k :: 0 <= k < |xs| ==> multiset(f(xs[k])) == multiset(g(xs[k]))
    ensures multiset(ConcatMap(f, xs)) == multiset(ConcatMap(g, xs))
  {
    if xs != [] {
      var front := xs[..|xs| - 1];
      assert forall k :: 0 <= k < |front| ==> front[k] == xs[k];
      ConcatMapSameParts(f, g, front);
    }
  }

  /** Lists that contribute the same, element by element, collect the same. */
  lemma {:induction false} ConcatMapPointwise<S, T>(f: S -> seq<T>, a: seq<S>, b: seq<S>)
    requires |a| == |b| && forall k :: 0 <= k < |a| ==> f(a[k]) == f(b[k])
    ensures ConcatMap(f, a) == ConcatMap(f, b)
  {
    if a != [] {
      ConcatMapPointwise(f, a[..|a| - 1], b[..|b| - 1]);
    }
  }

  /** Parts in order, each after those before it, make a whole in order. */
  lemma {:induction false} ConcatMapSorted<S, T>(f: S -> seq<T>, xs: seq<S>, le: (T, T) -> bool)
    requires forall k :: 0 <= k < |xs| ==> Sorted(f(xs[k]), le)
    requires forall i, j, x, y :: 0 <= i < j < |xs| && x in f(xs[i]) && y in f(xs[j]) ==> le(x, y)
    ensures Sorted(ConcatMap(f, xs), le)
  {
    if xs != [] {
      var front, last := xs[..|xs| - 1], xs[|xs| - 1];
      assert forall k :: 0 <= k < |front| ==> front[k] == xs[k];
      ConcatMapSorted(f, front, le);
      var a, b := ConcatMap(f, front), f(last);
      forall x, y | x in a && y in b ensures le(x, y) {
        ConcatMapSource(f, front, x);
        var i :| 0 <= i < |front| && x in f(front[i]);
        assert x in f(xs[i]);
      }
      SortedAppend(a, b, le);
    }
  }

  lemma SortedAppend<T>(a: seq<T>, b: seq<T>, le: (T, T) -> bool)
    requires Sorted(a, le) && Sorted(b, le) && forall x, y :: x in a && y in b ==> le(x, y)
    ensures Sorted(a + b, le)
  {
    var s := a + b;
    forall i, j | 0 <= i < j < |s| ensures le(s[i], s[j]) {
      assert s[i] == if i < |a| then a[i] else b[i - |a|];
      assert s[j] == if j < |a| then a[j] else b[j - |a|];
    }
  }
}
