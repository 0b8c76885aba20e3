// JSON values as the Python tools hold them, and the recursive rebuilds that
// sort object keys at every depth.

module Json {
  import opened Texts
  import opened Sorting

  datatype Member = Member(key: Text, value: Json)

  // A finite Python float is named by the token `repr` prints for it, which
  // determines it; NaN and the infinities have no such token.  An object keeps
  // its members in insertion order, as a Python dict does.
  datatype Json =
    | Null
    | Bool(b: bool)
    | Int(n: int)
    | Float(token: string)
    | Str(s: Text)
    | Arr(items: seq<Json>)
    | Obj(members: seq<Member>)

  ghost predicate DistinctKeys(ms: seq<Member>) {
    forall i, j :: 0 <= i < j < |ms| ==> ms[i].key != ms[j].key
  }

  /** A value a Python program can hold: dict keys are distinct. */
  ghost predicate Dicts(v: Json) {
    match v
    case Arr(items) => forall x | x in items :: Dicts(x)
    case Obj(ms) => DistinctKeys(ms) && forall m | m in ms :: Dicts(m.value)
    case _ => true
  }

  // ---- Dictionary access ----

  predicate HasKey(ms: seq<Member>, k: Text) {
    exists i | 0 <= i < |ms| :: ms[i].key == k
  }

  /** `d.get(k)`, with None for a missing key. */
  function Lookup(ms: seq<Member>, k: Text): Json {
    if ms == [] then Null else if ms[0].key == k then ms[0].value else Lookup(ms[1..], k)
  }

  /** `obj.get(name)`. */
  function Get(o: Json, name: string): Json {
    if o.Obj? then Lookup(o.members, Lit(name)) else Null
  }

  predicate Has(o: Json, name: string) {
    o.Obj? && HasKey(o.members, Lit(name))
  }

  /** `d[k] = v`: in place when the key is there, appended otherwise. */
  function SetKey(ms: seq<Member>, k: Text, v: Json): seq<Member> {
    if ms == [] then [Member(k, v)]
    else if ms[0].key == k then [Member(k, v)] + ms[1..]
    else [ms[0]] + SetKey(ms[1..], k, v)
  }

  /** `d.pop(k, None)`. */
  function RemoveKey(ms: seq<Member>, k: Text): seq<Member> {
    if ms == [] then [] else if ms[0].key == k then RemoveKey(ms[1..], k)
    else [ms[0]] + RemoveKey(ms[1..], k)
  }

  lemma {:induction false} LookupFinds(ms: seq<Member>, i: nat)
    requires DistinctKeys(ms) && i < |ms|
    ensures HasKey(ms, ms[i].key) && Lookup(ms, ms[i].key) == ms[i].value
  {
    if i > 0 {
      LookupFinds(ms[1..], i - 1);
    }
  }

  lemma {:induction false} LookupIsMember(ms: seq<Member>, k: Text)
    requires HasKey(ms, k)
    ensures Member(k, Lookup(ms, k)) in ms
  {
    if ms[0].key != k {
      var i :| 0 <= i < |ms| && ms[i].key == k;
      assert ms[1..][i - 1].key == k;
      LookupIsMember(ms[1..], k);
    }
  }

  lemma HasKeyUnfold(ms: seq<Member>, k: Text)
    ensures HasKey(ms, k) <==> ms != [] && (ms[0].key == k || HasKey(ms[1..], k))
  {
    if ms != [] && HasKey(ms[1..], k) {
      var i :| 0 <= i < |ms[1..]| && ms[1..][i].key == k;
      assert ms[i + 1].key == k;
    }
    if HasKey(ms, k) && ms[0].key != k {
      var i :| 0 <= i < |ms| && ms[i].key == k;
      assert ms[1..][i - 1].key == k;
    }
  }

  lemma {:induction false} MissingKey(ms: seq<Member>, k: Text)
    requires !HasKey(ms, k)
    ensures Lookup(ms, k) == Null && RemoveKey(ms, k) == ms
  {
    HasKeyUnfold(ms, k);
    if ms != [] {
      MissingKey(ms[1..], k);
      assert ms == [ms[0]] + ms[1..];
    }
  }

  // ---- Sorting the keys of every object ----

  predicate KeyLe(m: Member, n: Member) {
    TextLe(m.key, n.key)
  }

  lemma KeyLeIsTotal()
    ensures TotalPreorder(KeyLe)
  {
    forall m, n ensures KeyLe(m, n) || KeyLe(n, m) {
      TextLeTotal(m.key, n.key);
    }
    forall m, n, p | KeyLe(m, n) && KeyLe(n, p) ensures KeyLe(m, p) {
      TextLeTransitive(m.key, n.key, p.key);
    }
  }

  // Rebuild a value with the keys of every object sorted and every float token
  // passed through f.
  function Rebuild(v: Json, f: string -> string): Json
    decreases v, 1
  {
    match v
    case Float(t) => Float(f(t))
    case Arr(items) => Arr(RebuildItems(items, f))
    case Obj(ms) => Obj(SortBy(RebuildMembers(ms, f), KeyLe))
    case _ => v
  }

  function RebuildItems(vs: seq<Json>, f: string -> string): (r: seq<Json>)
    ensures |r| == |vs|
    ensures forall i :: 0 <= i < |vs| ==> r[i] == Rebuild(vs[i], f)
    decreases vs, 0
  {
    if vs == [] then [] else [Rebuild(vs[0], f)] + RebuildItems(vs[1..], f)
  }

  function RebuildMembers(ms: seq<Member>, f: string -> string): (r: seq<Member>)
    ensures |r| == |ms|
    ensures forall i :: 0 <= i < |ms| ==> r[i] == Member(ms[i].key, Rebuild(ms[i].value, f))
    decreases ms, 0
  {
    if ms == [] then []
    else [Member(ms[0].key, Rebuild(ms[0].value, f))] + RebuildMembers(ms[1..], f)
  }

  function Keep(t: string): string {
    t
  }

  /** The value with its keys sorted at every depth and nothing else changed. */
  function SortKeys(v: Json): Json {
    Rebuild(v, Keep)
  }

  ghost predicate KeysSorted(v: Json) {
    match v
    case Arr(items) => forall x | x in items :: KeysSorted(x)
    case Obj(ms) => Sorted(ms, KeyLe) && forall m | m in ms :: KeysSorted(m.value)
    case _ => true
  }

  ghost predicate FloatsFixed(v: Json, f: string -> string) {
    match v
    case Float(t) => f(t) == t
    case Arr(items) => forall x | x in items :: FloatsFixed(x, f)
    case Obj(ms) => forall m | m in ms :: FloatsFixed(m.value, f)
    case _ => true
  }

  /** Equality of Python dicts: key order does not matter, at any depth. */
  ghost predicate Same(a: Json, b: Json)
    decreases a
  {
    match a
    case Arr(xs) =>
      b.Arr? && |b.items| == |xs| && forall i | 0 <= i < |xs| :: Same(xs[i], b.items[i])
    case Obj(ms) =>
      && b.Obj? && |b.members| == |ms|
      && forall i | 0 <= i < |ms| :: HasKey(b.members, ms[i].key) && Same(ms[i].value, Lookup(b.members, ms[i].key))
    case _ => a == b
  }

  // ---- Facts about Rebuild ----

  // The members of a rebuilt object are the rebuilt members, in key order.
  lemma RebuiltMembers(ms: seq<Member>, f: string -> string)
    ensures var r := SortBy(RebuildMembers(ms, f), KeyLe);
            && |r| == |ms|
            && Sorted(r, KeyLe)
            && (forall m :: m in r <==> exists i :: 0 <= i < |ms| && m == Member(ms[i].key, Rebuild(ms[i].value, f)))
  {
    var u := RebuildMembers(ms, f);
    KeyLeIsTotal();
    SortBySorted(u, KeyLe);
    SortByPermutes(u, KeyLe);
    SameMembers(SortBy(u, KeyLe), u);
  }

  /** Reordering members keeps their keys distinct. */
  lemma DistinctKeysPermute(a: seq<Member>, b: seq<Member>)
    requires DistinctKeys(a) && multiset(a) == multiset(b)
    ensures DistinctKeys(b)
  {
    SameMembers(a, b);
    DistinctPermutes(a, b);
    forall i, j | 0 <= i < j < |b| ensures b[i].key != b[j].key {
      assert b[i] in a && b[j] in a;
    }
  }

  lemma RebuiltKeysDistinct(ms: seq<Member>, f: string -> string)
    requires DistinctKeys(ms)
    ensures DistinctKeys(SortBy(RebuildMembers(ms, f), KeyLe))
  {
    SortByPermutes(RebuildMembers(ms, f), KeyLe);
    DistinctKeysPermute(RebuildMembers(ms, f), SortBy(RebuildMembers(ms, f), KeyLe));
  }

  lemma {:induction false} RebuildIsSorted(v: Json, f: string -> string)
    ensures KeysSorted(Rebuild(v, f))
  {
    match v
    case Arr(items) =>
      forall x | x in RebuildItems(items, f) ensures KeysSorted(x) {
        var i :| 0 <= i < |items| && x == Rebuild(items[i], f);
        RebuildIsSorted(items[i], f);
      }
    case Obj(ms) =>
      RebuiltMembers(ms, f);
      forall m | m in SortBy(RebuildMembers(ms, f), KeyLe) ensures KeysSorted(m.value) {
        var i :| 0 <= i < |ms| && m == Member(ms[i].key, Rebuild(ms[i].value, f));
        RebuildIsSorted(ms[i].value, f);
      }
    case _ =>
  }

  lemma {:induction false} RebuildKeepsDicts(v: Json, f: string -> string)
    requires Dicts(v)
    ensures Dicts(Rebuild(v, f))
  {
    match v
    case Arr(items) =>
      forall x | x in RebuildItems(items, f) ensures Dicts(x) {
        var i :| 0 <= i < |items| && x == Rebuild(items[i], f);
        RebuildKeepsDicts(items[i], f);
      }
    case Obj(ms) =>
      RebuiltMembers(ms, f);
      RebuiltKeysDistinct(ms, f);
      forall m | m in SortBy(RebuildMembers(ms, f), KeyLe) ensures Dicts(m.value) {
        var i :| 0 <= i < |ms| && m == Member(ms[i].key, Rebuild(ms[i].value, f));
        RebuildKeepsDicts(ms[i].value, f);
      }
    case _ =>
  }

  /** Rebuilding a value whose keys are sorted and whose floats f fixes changes nothing. */
  lemma {:induction false} RebuildFixpoint(v: Json, f: string -> string)
    requires KeysSorted(v) && FloatsFixed(v, f)
    ensures Rebuild(v, f) == v
  {
    match v
    case Arr(items) =>
      forall i | 0 <= i < |items| ensures RebuildItems(items, f)[i] == items[i] {
        RebuildFixpoint(items[i], f);
      }
      assert RebuildItems(items, f) == items;
    case Obj(ms) =>
      forall i | 0 <= i < |ms| ensures RebuildMembers(ms, f)[i] == ms[i] {
        RebuildFixpoint(ms[i].value, f);
      }
      assert RebuildMembers(ms, f) == ms;
      SortByFixpoint(ms, KeyLe);
    case _ =>
  }

  lemma {:induction false} RebuildFixesFloats(v: Json, f: string -> string, g: string -> string)
    requires FloatsFixed(v, g) || forall t :: g(f(t)) == f(t)
    requires forall t :: g(t) == t ==> g(f(t)) == f(t)
    ensures FloatsFixed(Rebuild(v, f), g)
  {
    match v
    case Arr(items) =>
      forall x | x in RebuildItems(items, f) ensures FloatsFixed(x, g) {
        var i :| 0 <= i < |items| && x == Rebuild(items[i], f);
        RebuildFixesFloats(items[i], f, g);
      }
    case Obj(ms) =>
      RebuiltMembers(ms, f);
      forall m | m in SortBy(RebuildMembers(ms, f), KeyLe) ensures FloatsFixed(m.value, g) {
        var i :| 0 <= i < |ms| && m == Member(ms[i].key, Rebuild(ms[i].value, f));
        RebuildFixesFloats(ms[i].value, f, g);
      }
    case _ =>
  }

  /** Sorting the keys of a rebuilt value changes nothing. */
  lemma SortKeysOfRebuilt(v: Json, f: string -> string)
    ensures SortKeys(Rebuild(v, f)) == Rebuild(v, f)
  {
    RebuildIsSorted(v, f);
    RebuildFixesFloats(v, f, Keep);
    RebuildFixpoint(Rebuild(v, f), Keep);
  }

  // ---- Same values rebuild to the same value, and only those ----

  // Two key-sorted member lists with distinct keys and the same members are equal.
  lemma {:induction false} SortedMembersUnique(a: seq<Member>, b: seq<Member>)
    requires DistinctKeys(a) && DistinctKeys(b) && Sorted(a, KeyLe) && Sorted(b, KeyLe)
    requires forall m :: m in a <==> m in b
    ensures a == b
  {
    NonEmptyTogether(a, b);
    if a != [] {
      assert a[0] in a && a[0] in b;
      assert b[0] in b && b[0] in a;
      if a[0] != b[0] {
        assert KeyLe(a[0], b[0]) && KeyLe(b[0], a[0]);
        TextLeAntisymmetric(a[0].key, b[0].key);
        assert false;
      }
      assert a == [a[0]] + a[1..] && b == [b[0]] + b[1..];
      forall m ensures m in a[1..] <==> m in b[1..] {
        assert m in a[1..] <==> m in a && m != a[0];
        assert m in b[1..] <==> m in b && m != b[0];
      }
      SortedMembersUnique(a[1..], b[1..]);
    }
  }

  lemma NonEmptyTogether(a: seq<Member>, b: seq<Member>)
    requires forall m :: m in a <==> m in b
    ensures a == [] <==> b == []
  {
    if |a| > 0 {
      assert a[0] in a && a[0] in b;
    }
    if |b| > 0 {
      assert b[0] in b && b[0] in a;
    }
  }

  lemma MemberIff(ms: seq<Member>, m: Member)
    requires DistinctKeys(ms)
    ensures m in ms <==> HasKey(ms, m.key) && Lookup(ms, m.key) == m.value
  {
    if m in ms {
      var i :| 0 <= i < |ms| && ms[i] == m;
      LookupFinds(ms, i);
    }
    if HasKey(ms, m.key) {
      LookupIsMember(ms, m.key);
    }
  }

  /** Two key-sorted objects with the same keys and the same value under each are equal. */
  lemma SortedByKeyUnique(a: seq<Member>, b: seq<Member>)
    requires DistinctKeys(a) && DistinctKeys(b) && Sorted(a, KeyLe) && Sorted(b, KeyLe)
    requires forall k :: (HasKey(a, k) <==> HasKey(b, k)) && Lookup(a, k) == Lookup(b, k)
    ensures a == b
  {
    forall m ensures m in a <==> m in b {
      MemberIff(a, m);
      MemberIff(b, m);
    }
    SortedMembersUnique(a, b);
  }

  // The rebuilt members of p all occur in q as soon as the members match up by key.
  lemma SameRebuiltMembers(ms: seq<Member>, ns: seq<Member>, f: string -> string)
    requires DistinctKeys(ms) && DistinctKeys(ns) && |ms| == |ns|
    requires forall i :: 0 <= i < |ms| ==>
      HasKey(ns, ms[i].key) && Rebuild(ms[i].value, f) == Rebuild(Lookup(ns, ms[i].key), f)
    ensures SortBy(RebuildMembers(ms, f), KeyLe) == SortBy(RebuildMembers(ns, f), KeyLe)
  {
    var p := SortBy(RebuildMembers(ms, f), KeyLe);
    var q := SortBy(RebuildMembers(ns, f), KeyLe);
    RebuiltMembers(ms, f);
    RebuiltMembers(ns, f);
    RebuiltKeysDistinct(ms, f);
    RebuiltKeysDistinct(ns, f);
    forall k | 0 <= k < |p| ensures p[k] in q {
      assert p[k] in p;
      var i :| 0 <= i < |ms| && p[k] == Member(ms[i].key, Rebuild(ms[i].value, f));
      LookupIsMember(ns, ms[i].key);
      var j :| 0 <= j < |ns| && ns[j] == Member(ms[i].key, Lookup(ns, ms[i].key));
      assert p[k] == Member(ns[j].key, Rebuild(ns[j].value, f));
    }
    Pigeonhole(p, q);
    SortedMembersUnique(p, q);
  }

  lemma {:induction false} SameRebuildsEqual(a: Json, b: Json, f: string -> string)
    requires Dicts(a) && Dicts(b) && Same(a, b)
    ensures Rebuild(a, f) == Rebuild(b, f)
    decreases a
  {
    match a
    case Arr(xs) =>
      forall i | 0 <= i < |xs| ensures Rebuild(xs[i], f) == Rebuild(b.items[i], f) {
        SameRebuildsEqual(xs[i], b.items[i], f);
      }
      assert RebuildItems(xs, f) == RebuildItems(b.items, f);
    case Obj(ms) =>
      forall i | 0 <= i < |ms| ensures Rebuild(ms[i].value, f) == Rebuild(Lookup(b.members, ms[i].key), f) {
        LookupIsMember(b.members, ms[i].key);
        var n := Member(ms[i].key, Lookup(b.members, ms[i].key));
        assert n in b.members && ms[i] in ms;
        SameRebuildsEqual(ms[i].value, n.value, f);
      }
      SameRebuiltMembers(ms, b.members, f);
    case _ =>
  }

  lemma {:induction false} EqualSortedAreSame(a: Json, b: Json)
    requires Dicts(a) && Dicts(b) && SortKeys(a) == SortKeys(b)
    ensures Same(a, b)
    decreases a
  {
    match a
    case Arr(xs) =>
      var p, q := RebuildItems(xs, Keep), RebuildItems(b.items, Keep);
      assert p == q;
      forall i | 0 <= i < |xs| ensures Same(xs[i], b.items[i]) {
        assert p[i] == q[i];
        EqualSortedAreSame(xs[i], b.items[i]);
      }
    case Obj(ms) =>
      assert b.Obj?;
      var ns := b.members;
      var p := SortBy(RebuildMembers(ms, Keep), KeyLe);
      RebuiltMembers(ms, Keep);
      RebuiltMembers(ns, Keep);
      forall i | 0 <= i < |ms| ensures HasKey(ns, ms[i].key) && Same(ms[i].value, Lookup(ns, ms[i].key)) {
        var m := Member(ms[i].key, Rebuild(ms[i].value, Keep));
        assert m in p;
        var j :| 0 <= j < |ns| && m == Member(ns[j].key, Rebuild(ns[j].value, Keep));
        LookupFinds(ns, j);
        assert ms[i] in ms && ns[j] in ns;
        EqualSortedAreSame(ms[i].value, ns[j].value);
      }
    case _ =>
  }

  /** Sorted-key forms are equal exactly when the values are equal up to key order. */
  lemma SortKeysIsCanonical(a: Json, b: Json)
    requires Dicts(a) && Dicts(b)
    ensures SortKeys(a) == SortKeys(b) <==> Same(a, b)
  {
    if Same(a, b) {
      SameRebuildsEqual(a, b, Keep);
    }
    if SortKeys(a) == SortKeys(b) {
      EqualSortedAreSame(a, b);
    }
  }
}
