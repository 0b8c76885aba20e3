// Python's `sorted`: a stable sort under a total preorder.

module Sorting {

  ghost predicate TotalPreorder<T(!new)>(le: (T, T) -> bool) {
    && (forall x, y :: le(x, y) || le(y, x))
    && (forall x, y, z :: le(x, y) && le(y, z) ==> le(x, z))
  }

  ghost predicate Sorted<T>(s: seq<T>, le: (T, T) -> bool) {
    forall i, j :: 0 <= i < j < |s| ==> le(s[i], s[j])
  }

  function Insert<T>(x: T, s: seq<T>, le: (T, T) -> bool): seq<T> {
    if s == [] || le(x, s[0]) then [x] + s else [s[0]] + Insert(x, s[1..], le)
  }

  function SortBy<T>(s: seq<T>, le: (T, T) -> bool): seq<T> {
    if s == [] then [] else Insert(s[0], SortBy(s[1..], le), le)
  }

  /** The elements of s that tie with x, in the order s has them. */
  function Ties<T>(s: seq<T>, x: T, le: (T, T) -> bool): seq<T> {
    if s == [] then []
    else (if le(x, s[0]) && le(s[0], x) then [s[0]] else []) + Ties(s[1..], x, le)
  }

  lemma {:induction false} InsertPermutes<T>(x: T, s: seq<T>, le: (T, T) -> bool)
    ensures multiset(Insert(x, s, le)) == multiset(s) + multiset{x}
  {
    if s == [] || le(x, s[0]) {
    } else {
      InsertPermutes(x, s[1..], le);
      assert s == [s[0]] + s[1..];
    }
  }

  lemma {:induction false} SortByPermutes<T>(s: seq<T>, le: (T, T) -> bool)
    ensures multiset(SortBy(s, le)) == multiset(s)
    ensures |SortBy(s, le)| == |s|
  {
    if s != [] {
      SortByPermutes(s[1..], le);
      InsertPermutes(s[0], SortBy(s[1..], le), le);
      assert s == [s[0]] + s[1..];
    }
    assert |multiset(SortBy(s, le))| == |multiset(s)|;
  }

  lemma SameMembers<T>(a: seq<T>, b: seq<T>)
    requires multiset(a) == multiset(b)
    ensures |a| == |b|
    ensures forall x :: x in a <==> x in b
  {
    assert |multiset(a)| == |multiset(b)|;
    forall x ensures x in a <==> x in b {
      assert x in a <==> x in multiset(a);
      assert x in b <==> x in multiset(b);
    }
  }

  lemma {:induction false} InsertSorted<T(!new)>(x: T, s: seq<T>, le: (T, T) -> bool)
    requires TotalPreorder(le) && Sorted(s, le)
    ensures Sorted(Insert(x, s, le), le)
  {
    if s == [] || le(x, s[0]) {
    } else {
      InsertSorted(x, s[1..], le);
      InsertPermutes(x, s[1..], le);
      var r := Insert(x, s[1..], le);
      forall k | 0 <= k < |r| ensures le(s[0], r[k]) {
        assert r[k] in multiset(r);
        assert r[k] == x || r[k] in s[1..];
      }
    }
  }

  lemma {:induction false} SortBySorted<T(!new)>(s: seq<T>, le: (T, T) -> bool)
    requires TotalPreorder(le)
    ensures Sorted(SortBy(s, le), le)
  {
    if s != [] {
      SortBySorted(s[1..], le);
      InsertSorted(s[0], SortBy(s[1..], le), le);
    }
  }

  lemma {:induction false} InsertTies<T(!new)>(x: T, s: seq<T>, y: T, le: (T, T) -> bool)
    requires TotalPreorder(le) && Sorted(s, le)
    ensures Ties(Insert(x, s, le), y, le) == Ties([x] + s, y, le)
  {
    assert ([x] + s)[1..] == s;
    if s == [] || le(x, s[0]) {
    } else {
      InsertTies(x, s[1..], y, le);
      assert ([x] + s[1..])[1..] == s[1..];
      var r := [s[0]] + Insert(x, s[1..], le);
      assert r[1..] == Insert(x, s[1..], le);
    }
  }

  lemma TiesHead<T>(x: T, rest: seq<T>, y: T, le: (T, T) -> bool)
    requires le(y, x) && le(x, y)
    ensures Ties([x] + rest, y, le) == [x] + Ties(rest, y, le)
  {
    assert ([x] + rest)[1..] == rest;
  }

  /** Stability: elements that tie keep their input order. */
  lemma {:induction false} SortByStable<T(!new)>(s: seq<T>, y: T, le: (T, T) -> bool)
    requires TotalPreorder(le)
    ensures Ties(SortBy(s, le), y, le) == Ties(s, y, le)
  {
    if s != [] {
      SortByStable(s[1..], y, le);
      SortBySorted(s[1..], le);
      var r := SortBy(s[1..], le);
      InsertTies(s[0], r, y, le);
      assert ([s[0]] + r)[1..] == r;
    }
  }

  /** When ties are equal elements, a sorted permutation is unique. */
  lemma {:induction false} SortedUnique<T(!new)>(a: seq<T>, b: seq<T>, le: (T, T) -> bool)
    requires Sorted(a, le) && Sorted(b, le) && multiset(a) == multiset(b)
    requires forall x, y :: x in a && y in a && le(x, y) && le(y, x) ==> x == y
    ensures a == b
  {
    SameMembers(a, b);
    if a != [] {
      assert a[0] in b && b[0] in a;
      assert a[0] == b[0];
      TailMembers(a);
      TailMembers(b);
      SortedUnique(a[1..], b[1..], le);
      assert a == [a[0]] + a[1..] && b == [b[0]] + b[1..];
    }
  }

  lemma TailMembers<T>(s: seq<T>)
    requires s != []
    ensures multiset(s[1..]) == multiset(s) - multiset{s[0]}
  {
    assert s == [s[0]] + s[1..];
  }

  lemma {:induction false} InsertAgrees<T>(x: T, s: seq<T>, le: (T, T) -> bool, lex: (T, T) -> bool)
    requires forall y :: y in s ==> (le(x, y) <==> lex(x, y))
    ensures Insert(x, s, le) == Insert(x, s, lex)
  {
    if s != [] && !le(x, s[0]) {
      InsertAgrees(x, s[1..], le, lex);
    }
  }

  /** Stability again: a finer order that agrees on pairs in input order sorts the same way. */
  lemma {:induction false} SortByRefined<T>(s: seq<T>, le: (T, T) -> bool, lex: (T, T) -> bool)
    requires forall i, j :: 0 <= i < j < |s| ==> (le(s[i], s[j]) <==> lex(s[i], s[j]))
    ensures SortBy(s, le) == SortBy(s, lex)
  {
    if s != [] {
      SortByRefined(s[1..], le, lex);
      SortByPermutes(s[1..], lex);
      var rest := SortBy(s[1..], lex);
      forall y | y in rest ensures le(s[0], y) <==> lex(s[0], y) {
        assert y in multiset(rest) && y in multiset(s[1..]);
        var k :| 0 <= k < |s[1..]| && s[1..][k] == y;
        assert s[k + 1] == y;
      }
      InsertAgrees(s[0], rest, le, lex);
    }
  }

  /** An already sorted sequence is left alone. */
  lemma {:induction false} SortByFixpoint<T>(s: seq<T>, le: (T, T) -> bool)
    requires Sorted(s, le)
    ensures SortBy(s, le) == s
  {
    if s != [] {
      SortByFixpoint(s[1..], le);
      assert s == [s[0]] + s[1..];
    }
  }

  ghost predicate Distinct<T>(s: seq<T>) {
    forall i, j :: 0 <= i < j < |s| ==> s[i] != s[j]
  }

  lemma {:induction false} DistinctCounts<T>(s: seq<T>, x: T)
    requires Distinct(s)
    ensures multiset(s)[x] == if x in s then 1 else 0
  {
    if s != [] {
      var front, last := s[..|s| - 1], s[|s| - 1];
      assert s == front + [last];
      DistinctCounts(front, x);
    }
  }

  lemma {:induction false} CountsDistinct<T>(s: seq<T>)
    requires forall x :: x in s ==> multiset(s)[x] == 1
    ensures Distinct(s)
  {
    if s != [] {
      var front, last := s[..|s| - 1], s[|s| - 1];
      assert s == front + [last];
      assert last in s && multiset(s) == multiset(front) + multiset{last};
      forall x | x in front ensures multiset(front)[x] == 1 {
        assert x in s && x in multiset(front);
      }
      CountsDistinct(front);
      assert last !in multiset(front);
    }
  }

  lemma DistinctPermutes<T>(a: seq<T>, b: seq<T>)
    requires Distinct(a) && multiset(a) == multiset(b)
    ensures Distinct(b)
  {
    forall x | x in b ensures multiset(b)[x] == 1 {
      assert x in multiset(b);
      DistinctCounts(a, x);
    }
    CountsDistinct(b);
  }

  /** `set(s)`. */
  function AsSet<T(==)>(s: seq<T>): set<T> {
    set x | x in s
  }

  /** `len(set(s)) == len(s)` says that s has no duplicates. */
  lemma {:induction false} SetSizeDistinct<T>(s: seq<T>)
    ensures |AsSet(s)| <= |s|
    ensures |AsSet(s)| == |s| <==> Distinct(s)
  {
    if s == [] {
      assert AsSet(s) == {};
    } else {
      var front, last := s[..|s| - 1], s[|s| - 1];
      SetSizeDistinct(front);
      assert s == front + [last];
      assert AsSet(s) == AsSet(front) + {last};
      if last in front {
        assert AsSet(s) == AsSet(front);
        var k :| 0 <= k < |front| && front[k] == last;
        assert s[k] == s[|s| - 1];
      } else {
        assert last !in AsSet(front);
        assert forall k :: 0 <= k < |front| ==> front[k] in front;
      }
    }
  }

  /** A duplicate-free list inside a list of the same length covers it. */
  lemma {:induction false} Pigeonhole<T>(a: seq<T>, b: seq<T>)
    requires |a| == |b|
    requires Distinct(a)
    requires forall i :: 0 <= i < |a| ==> a[i] in b
    ensures forall x :: x in a <==> x in b
  {
    if a != [] {
      var last := |a| - 1;
      var p :| 0 <= p < |b| && b[p] == a[last];
      var rest := b[..p] + b[p+1..];
      assert b == b[..p] + [b[p]] + b[p+1..];
      Pigeonhole(a[..last], rest);
      assert a == a[..last] + [a[last]];
    }
  }

  /** Take the head of a out of a permutation b of it. */
  lemma RemoveHead<T>(a: seq<T>, b: seq<T>) returns (p: nat)
    requires a != [] && multiset(a) == multiset(b)
    ensures p < |b| && b[p] == a[0] && multiset(a[1..]) == multiset(b[..p] + b[p+1..])
  {
    SameMembers(a, b);
    assert a[0] in b;
    p :| 0 <= p < |b| && b[p] == a[0];
    assert a == [a[0]] + a[1..] && b == b[..p] + [b[p]] + b[p+1..];
    assert multiset(a[1..]) == multiset(a) - multiset{a[0]};
  }
}
