// Sorting normalised records by the text of one of their fields.

module Records {
  import opened Texts
  import opened Sorting
  import opened Lists
  import opened Json

  /** The sort key: `str(item.get(key, ""))`, with `str` given by `show`. */
  function KeyText(show: Json -> Text, item: Json, key: Text): Text {
    show(if item.Obj? && HasKey(item.members, key) then Lookup(item.members, key) else Str([]))
  }

  /** The key text is that of the key's value in the record, or of the empty text when the key is not there. */
  lemma KeyTextIs(show: Json -> Text, item: Json, key: Text)
    requires item.Obj? && DistinctKeys(item.members)
    ensures forall m :: m in item.members && m.key == key ==> KeyText(show, item, key) == show(m.value)
    ensures (forall m :: m in item.members ==> m.key != key) ==> KeyText(show, item, key) == show(Str([]))
  {
    forall m | m in item.members && m.key == key
      ensures HasKey(item.members, key) && Lookup(item.members, key) == m.value {
      var i :| 0 <= i < |item.members| && item.members[i] == m;
      LookupFinds(item.members, i);
    }
    if HasKey(item.members, key) {
      LookupIsMember(item.members, key);
    }
  }

  /** Records compare by their key texts. */
  function ByKey(show: Json -> Text, key: Text): (Json, Json) -> bool {
    (a: Json, b: Json) => TextLe(KeyText(show, a, key), KeyText(show, b, key))
  }

  /** What one item of the list contributes: a mapping its normal form, anything else nothing. */
  function NormaliseOne(): Json -> seq<Json> {
    (item: Json) => if item.Obj? then [SortKeys(item)] else []
  }

  /** The objects of the list, normalised. */
  function Normalised(value: seq<Json>): seq<Json> {
    ConcatMap(NormaliseOne(), value)
  }

  /** `sort_records`. */
  function SortRecords(show: Json -> Text, value: seq<Json>, key: Text): seq<Json> {
    SortBy(Normalised(value), ByKey(show, key))
  }

  /** `normalize` twice is `normalize` once. */
  lemma NormalizeIdempotent(v: Json)
    ensures SortKeys(SortKeys(v)) == SortKeys(v)
  {
    SortKeysOfRebuilt(v, Keep);
  }

  lemma ByKeyIsTotal(show: Json -> Text, key: Text)
    ensures TotalPreorder(ByKey(show, key))
  {
    var le := ByKey(show, key);
    forall a, b ensures le(a, b) || le(b, a) {
      TextLeTotal(KeyText(show, a, key), KeyText(show, b, key));
    }
    forall a, b, c | le(a, b) && le(b, c) ensures le(a, c) {
      TextLeTransitive(KeyText(show, a, key), KeyText(show, b, key), KeyText(show, c, key));
    }
  }

  lemma TieMeansSameKey(show: Json -> Text, key: Text, a: Json, b: Json)
    ensures ByKey(show, key)(a, b) && ByKey(show, key)(b, a) <==> KeyText(show, a, key) == KeyText(show, b, key)
  {
    TextLeTotal(KeyText(show, a, key), KeyText(show, b, key));
    if ByKey(show, key)(a, b) && ByKey(show, key)(b, a) {
      TextLeAntisymmetric(KeyText(show, a, key), KeyText(show, b, key));
    }
  }

  /** The result is the normalised objects, ordered by key, equal keys in input order. */
  lemma SortRecordsIsStableSort(show: Json -> Text, value: seq<Json>, key: Text, x: Json)
    ensures var r := SortRecords(show, value, key);
      && Sorted(r, ByKey(show, key)) && multiset(r) == multiset(Normalised(value))
      && Ties(r, x, ByKey(show, key)) == Ties(Normalised(value), x, ByKey(show, key))
  {
    ByKeyIsTotal(show, key);
    SortBySorted(Normalised(value), ByKey(show, key));
    SortByPermutes(Normalised(value), ByKey(show, key));
    SortByStable(Normalised(value), x, ByKey(show, key));
  }

  // ---- Independence of order ----

  lemma SameNormalise(a: seq<Json>, b: seq<Json>)
    requires |a| == |b| && forall i :: 0 <= i < |a| ==> Dicts(a[i]) && Dicts(b[i]) && Same(a[i], b[i])
    ensures Normalised(a) == Normalised(b)
  {
    forall i | 0 <= i < |a| ensures NormaliseOne()(a[i]) == NormaliseOne()(b[i]) {
      SameRebuildsEqual(a[i], b[i], Keep);
    }
    ConcatMapPointwise(NormaliseOne(), a, b);
  }

  /** Records that tie are equal. */
  ghost predicate TiesAreEqual(show: Json -> Text, records: seq<Json>, key: Text) {
    forall x, y :: x in records && y in records && KeyText(show, x, key) == KeyText(show, y, key) ==> x == y
  }

  lemma SortRecordsOfPermuted(show: Json -> Text, a: seq<Json>, b: seq<Json>, key: Text)
    requires multiset(Normalised(a)) == multiset(Normalised(b)) && TiesAreEqual(show, Normalised(a), key)
    ensures SortRecords(show, a, key) == SortRecords(show, b, key)
  {
    var le := ByKey(show, key);
    var r, q := SortRecords(show, a, key), SortRecords(show, b, key);
    SortRecordsIsStableSort(show, a, key, Null);
    SortRecordsIsStableSort(show, b, key, Null);
    SameMembers(r, Normalised(a));
    forall x, y | x in r && y in r && le(x, y) && le(y, x) ensures x == y {
      TieMeansSameKey(show, key, x, y);
    }
    SortedUnique(r, q, le);
  }

  /** Permuting the list and reordering keys at any depth changes nothing, when the sort keys are distinct. */
  lemma SortRecordsIsCanonical(show: Json -> Text, a: seq<Json>, c: seq<Json>, b: seq<Json>, key: Text)
    requires |a| == |c| && forall i :: 0 <= i < |a| ==> Dicts(a[i]) && Dicts(c[i]) && Same(a[i], c[i])
    requires multiset(c) == multiset(b)
    requires var n := Normalised(a);
      forall i, j :: 0 <= i < j < |n| ==> KeyText(show, n[i], key) != KeyText(show, n[j], key)
    ensures SortRecords(show, a, key) == SortRecords(show, b, key)
  {
    SameNormalise(a, c);
    ConcatMapPermutes(NormaliseOne(), c, b);
    SortRecordsOfPermuted(show, a, b, key);
  }

  // Moving one element to the front.
  function ToFront(a: seq<Json>, i: nat): seq<Json>
    requires i < |a|
  {
    [a[i]] + a[..i] + a[i+1..]
  }

  lemma ToFrontPermutes(a: seq<Json>, i: nat)
    requires i < |a|
    ensures multiset(ToFront(a, i)) == multiset(a)
  {
    assert a == a[..i] + [a[i]] + a[i+1..];
  }

  lemma NormalisedSource(a: seq<Json>, x: Json) returns (i: nat)
    requires x in Normalised(a)
    ensures i < |a| && a[i].Obj? && SortKeys(a[i]) == x
  {
    ConcatMapSource(NormaliseOne(), a, x);
    i :| 0 <= i < |a| && x in NormaliseOne()(a[i]);
  }

  lemma NormalisedToFront(a: seq<Json>, i: nat)
    requires i < |a| && a[i].Obj?
    ensures Normalised(ToFront(a, i)) == [SortKeys(a[i])] + Normalised(a[..i] + a[i+1..])
  {
    assert ToFront(a, i) == [a[i]] + (a[..i] + a[i+1..]);
    ConcatMapAppend(NormaliseOne(), [a[i]], a[..i] + a[i+1..]);
    ConcatMapOne(NormaliseOne(), a[i]);
  }

  lemma FirstTie(show: Json -> Text, a: seq<Json>, key: Text, i: nat, y: Json)
    requires i < |a| && a[i].Obj? && KeyText(show, SortKeys(a[i]), key) == KeyText(show, y, key)
    ensures var t := Ties(SortRecords(show, ToFront(a, i), key), y, ByKey(show, key));
      t != [] && t[0] == SortKeys(a[i])
  {
    ByKeyIsTotal(show, key);
    SortByStable(Normalised(ToFront(a, i)), y, ByKey(show, key));
    NormalisedToFront(a, i);
    TieMeansSameKey(show, key, y, SortKeys(a[i]));
    TiesHead(SortKeys(a[i]), Normalised(a[..i] + a[i+1..]), y, ByKey(show, key));
  }

  /** The result ignores input order exactly when records that tie are equal. */
  lemma OrderIgnoredIff(show: Json -> Text, a: seq<Json>, key: Text)
    ensures (forall b :: multiset(b) == multiset(a) ==> SortRecords(show, b, key) == SortRecords(show, a, key))
       <==> TiesAreEqual(show, Normalised(a), key)
  {
    var n := Normalised(a);
    if TiesAreEqual(show, n, key) {
      forall b | multiset(b) == multiset(a) ensures SortRecords(show, b, key) == SortRecords(show, a, key) {
        ConcatMapPermutes(NormaliseOne(), a, b);
        SortRecordsOfPermuted(show, a, b, key);
      }
    }
    if forall b :: multiset(b) == multiset(a) ==> SortRecords(show, b, key) == SortRecords(show, a, key) {
      forall x, y | x in n && y in n && KeyText(show, x, key) == KeyText(show, y, key) ensures x == y {
        var i := NormalisedSource(a, x);
        var j := NormalisedSource(a, y);
        ToFrontPermutes(a, i);
        ToFrontPermutes(a, j);
        FirstTie(show, a, key, i, y);
        FirstTie(show, a, key, j, y);
      }
    }
  }
}
