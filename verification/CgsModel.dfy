// Reading a CGS document: field access, the small value checks, and the
// component table collected from schemas and actors.

module CgsModel {
  import opened Texts
  import opened Json
  import opened Wrappers

  // ======== Field access ========

  /** The list `check_array_field` goes on with: the field when it is an array, else empty. */
  function Items(o: Json, name: string): seq<Json> {
    if Get(o, name).Arr? then Get(o, name).items else []
  }

  /** What `objects` keeps of a list. */
  function Objects(vs: seq<Json>): (os: seq<Json>)
    ensures |os| <= |vs|
  {
    if vs == [] then [] else Objects(vs[..|vs| - 1]) + if vs[|vs| - 1].Obj? then [vs[|vs| - 1]] else []
  }

  lemma {:induction false} ObjectsMembers(vs: seq<Json>, o: Json)
    ensures o in Objects(vs) <==> o in vs && o.Obj?
  {
    if vs != [] {
      ObjectsMembers(vs[..|vs| - 1], o);
      assert vs == vs[..|vs| - 1] + [vs[|vs| - 1]];
    }
  }

  predicate AllObjects(vs: seq<Json>) {
    vs == [] || (vs[|vs| - 1].Obj? && AllObjects(vs[..|vs| - 1]))
  }

  lemma ObjectsStep(vs: seq<Json>, n: nat)
    requires n < |vs|
    ensures Objects(vs[..n + 1]) == Objects(vs[..n]) + if vs[n].Obj? then [vs[n]] else []
    ensures AllObjects(vs[..n + 1]) <==> AllObjects(vs[..n]) && vs[n].Obj?
  {
    assert vs[..n + 1][..n] == vs[..n];
  }

  /** When every element is an object, `objects` keeps the list as it is. */
  lemma {:induction false} AllObjectsKept(vs: seq<Json>)
    ensures AllObjects(vs) <==> forall v :: v in vs ==> v.Obj?
    ensures AllObjects(vs) ==> Objects(vs) == vs
  {
    if vs != [] {
      var init := vs[..|vs| - 1];
      AllObjectsKept(init);
      assert vs == init + [vs[|vs| - 1]];
    }
  }

  // ======== Value checks ========

  /** `isinstance(v, int)`, which Python's booleans satisfy too. */
  function AsInt(v: Json): Option<int> {
    match v
    case Int(n) => Some(n)
    case Bool(b) => Some(if b then 1 else 0)
    case _ => None
  }

  predicate IsPositiveId(v: Json): (r: bool)
    ensures r <==> v == Bool(true) || (v.Int? && v.n > 0)
  {
    AsInt(v).Some? && AsInt(v).value > 0
  }

  /** A string with something left after `strip`. */
  predicate NonBlank(v: Json) {
    v.Str? && HasInk(v.s)
  }

  predicate IsDigitPoint(c: int) {
    '0' as int <= c <= '9' as int
  }

  /** `SEMVER_RE.fullmatch`: three non-empty digit runs separated by dots. */
  predicate IsSemver(v: Json) {
    v.Str? && exists i, j | 0 <= i < |v.s| && 0 <= j < |v.s| :: SemverDots(v.s, i, j)
  }

  predicate SemverDots(t: Text, i: nat, j: nat) {
    && 0 < i && i + 1 < j && j + 1 < |t| && t[i] == '.' as int && t[j] == '.' as int
    && forall k | 0 <= k < |t| && k != i && k != j :: IsDigitPoint(t[k])
  }

  ghost predicate IsDigitRun(t: Text) {
    t != [] && forall i :: 0 <= i < |t| ==> '0' as int <= t[i] <= '9' as int
  }

  ghost predicate ThreeRuns(t: Text, a: Text, b: Text, c: Text) {
    IsDigitRun(a) && IsDigitRun(b) && IsDigitRun(c) && t == a + Lit(".") + b + Lit(".") + c
  }

  lemma DotsSplit(t: Text, i: nat, j: nat)
    requires i < |t| && j < |t| && SemverDots(t, i, j)
    ensures ThreeRuns(t, t[..i], t[i + 1..j], t[j + 1..])
  {
    assert t == t[..i] + [t[i]] + t[i + 1..j] + [t[j]] + t[j + 1..];
    assert Lit(".") == [t[i]] == [t[j]];
  }

  lemma RunsJoin(t: Text, a: Text, b: Text, c: Text)
    requires ThreeRuns(t, a, b, c)
    ensures |a| + 1 + |b| < |t| && SemverDots(t, |a|, |a| + 1 + |b|)
  {
    var i, j := |a|, |a| + 1 + |b|;
    assert Lit(".") == ['.' as int];
    assert t[i] == '.' as int && t[j] == '.' as int;
    forall k | 0 <= k < |t| && k != i && k != j ensures IsDigitPoint(t[k]) {
      assert t[k] == if k < i then a[k] else if k < j then b[k - i - 1] else c[k - j - 1];
    }
  }

  /** A version is three digit runs joined by dots, and nothing else is one. */
  lemma SemverIff(v: Json)
    ensures IsSemver(v) <==> v.Str? && exists a, b, c :: ThreeRuns(v.s, a, b, c)
  {
    if IsSemver(v) {
      var i, j :| 0 <= i < |v.s| && 0 <= j < |v.s| && SemverDots(v.s, i, j);
      DotsSplit(v.s, i, j);
    }
    if v.Str? {
      forall a, b, c | ThreeRuns(v.s, a, b, c) ensures IsSemver(v) {
        RunsJoin(v.s, a, b, c);
      }
    }
  }

  /** What `require_id` returns: the id, or the empty text when it is missing or blank. */
  function RequiredId(o: Json): Text {
    if NonBlank(Get(o, "id")) then Get(o, "id").s else []
  }

  /** The ids of a list of objects. */
  function IdSet(os: seq<Json>): set<Text> {
    if os == [] then {} else IdSet(os[..|os| - 1]) + {RequiredId(os[|os| - 1])}
  }

  /** The type id of a component or schema, when it is a positive integer. */
  function TypeId(o: Json): int {
    if IsPositiveId(Get(o, "type_id")) then AsInt(Get(o, "type_id")).value else 0
  }

  /** The positive type ids of a list of schemas or components. */
  function TypeIdSet(os: seq<Json>): set<int> {
    if os == [] then {}
    else TypeIdSet(os[..|os| - 1]) + if TypeId(os[|os| - 1]) > 0 then {TypeId(os[|os| - 1])} else {}
  }

  // ======== The component table ========

  const RESERVED: map<int, Text> := map[
    1 := Lit("COMP_TRANSFORM_V1"),
    2 := Lit("COMP_IDENTITY_V1"),
    5 := Lit("COMP_VELOCITY_V1"),
    6 := Lit("COMP_INPUT_V1"),
    10 := Lit("COMP_AUTHORITY_V1"),
    100 := Lit("COMP_HEALTH_V1"),
    101 := Lit("COMP_DAMAGE_V1"),
    120 := Lit("COMP_MOVEMENT_INTENT_V1"),
    125 := Lit("COMP_KINEMATIC_CHARACTER_V1"),
    160 := Lit("COMP_AI_V1"),
    201 := Lit("COMP_INVENTORY_V1"),
    205 := Lit("COMP_ITEM_V1"),
    232 := Lit("COMP_PERSISTENCE_V1"),
    260 := Lit("COMP_INTERACTION_V1"),
    320 := Lit("COMP_REPLICATION_V1"),
    361 := Lit("COMP_CHECKPOINT_V1")]

  datatype Binding = Binding(id: int, name: Text)

  /** Enter a name for an id; a name already there stays. */
  function Bind(table: map<int, Text>, b: Binding): map<int, Text> {
    if b.id in table then table else table[b.id := b.name]
  }

  /** Enter what a schema or component names, if it names anything. */
  function Enter(table: map<int, Text>, o: Json): map<int, Text> {
    if Names(o) then Bind(table, Binding(TypeId(o), Get(o, "name").s)) else table
  }

  function BindAll(table: map<int, Text>, bs: seq<Binding>): map<int, Text> {
    if bs == [] then table else Bind(BindAll(table, bs[..|bs| - 1]), bs[|bs| - 1])
  }

  /** An entry names an id when the id is positive and the name not blank. */
  predicate Names(o: Json) {
    TypeId(o) > 0 && NonBlank(Get(o, "name"))
  }

  /** The bindings a list of schemas or components offers, in order. */
  function BindingsOf(os: seq<Json>): seq<Binding> {
    if os == [] then []
    else
      var last := os[|os| - 1];
      BindingsOf(os[..|os| - 1]) + if Names(last) then [Binding(TypeId(last), Get(last, "name").s)] else []
  }

  function ActorBindings(actors: seq<Json>): seq<Binding> {
    if actors == [] then []
    else ActorBindings(actors[..|actors| - 1]) + BindingsOf(Objects(Items(actors[|actors| - 1], "components")))
  }

  function ModeBindings(modes: seq<Json>): seq<Binding> {
    if modes == [] then []
    else ModeBindings(modes[..|modes| - 1]) + ActorBindings(Objects(Items(modes[|modes| - 1], "actors")))
  }

  /** The table `collect_declared_components` returns. */
  function ComponentTable(reserved: map<int, Text>, schemas: seq<Json>, modes: seq<Json>): map<int, Text> {
    BindAll(reserved, BindingsOf(Objects(schemas)) + ModeBindings(Objects(modes)))
  }

  lemma EnterStep(table: map<int, Text>, os: seq<Json>, n: nat)
    requires n < |os|
    ensures BindAll(table, BindingsOf(os[..n + 1])) == Enter(BindAll(table, BindingsOf(os[..n])), os[n])
  {
    assert os[..n + 1][..n] == os[..n];
    var bs := BindingsOf(os[..n]);
    if Names(os[n]) {
      var b := Binding(TypeId(os[n]), Get(os[n], "name").s);
      assert (bs + [b])[..|bs|] == bs;
    } else {
      assert bs + [] == bs;
    }
  }

  lemma {:induction false} BindAllConcat(table: map<int, Text>, a: seq<Binding>, b: seq<Binding>)
    ensures BindAll(table, a + b) == BindAll(BindAll(table, a), b)
  {
    if b == [] {
      assert a + b == a;
    } else {
      assert (a + b)[..|a + b| - 1] == a + b[..|b| - 1];
      BindAllConcat(table, a, b[..|b| - 1]);
    }
  }

  /** Collection only ever adds ids: no binding, reserved or not, changes afterwards. */
  lemma {:induction false} TableGrows(table: map<int, Text>, bs: seq<Binding>, n: nat)
    requires n <= |bs|
    ensures var before, after := BindAll(table, bs[..n]), BindAll(table, bs);
      forall k :: k in before ==> k in after && after[k] == before[k]
    decreases |bs|
  {
    if n < |bs| {
      TableGrows(table, bs[..|bs| - 1], n);
      assert bs[..|bs| - 1][..n] == bs[..n];
    } else {
      assert bs[..n] == bs;
    }
  }

  /** An id that was not there at the start keeps the first name offered for it. */
  lemma {:induction false} FirstNameWins(table: map<int, Text>, bs: seq<Binding>, n: nat)
    requires n < |bs| && bs[n].id !in table && forall i :: 0 <= i < n ==> bs[i].id != bs[n].id
    ensures bs[n].id in BindAll(table, bs) && BindAll(table, bs)[bs[n].id] == bs[n].name
  {
    var upTo := bs[..n + 1];
    assert upTo[..n] == bs[..n];
    TableKeys(table, bs[..n]);
    assert BindAll(table, upTo) == Bind(BindAll(table, bs[..n]), bs[n]);
    TableGrows(table, bs, n + 1);
  }

  lemma {:induction false} TableKeys(table: map<int, Text>, bs: seq<Binding>)
    ensures forall k :: k in BindAll(table, bs) <==> k in table || exists i :: 0 <= i < |bs| && bs[i].id == k
  {
    if bs != [] {
      TableKeys(table, bs[..|bs| - 1]);
      assert bs == bs[..|bs| - 1] + [bs[|bs| - 1]];
    }
  }

  // ---- Which ids end up in the table ----

  /** Some entry of the list names k. */
  ghost predicate NamedIn(os: seq<Json>, k: int) {
    exists o :: o in os && Names(o) && TypeId(o) == k
  }

  ghost predicate NamedByActors(actors: seq<Json>, k: int) {
    exists a :: a in actors && NamedIn(Objects(Items(a, "components")), k)
  }

  ghost predicate NamedByModes(modes: seq<Json>, k: int) {
    exists m :: m in modes && NamedByActors(Objects(Items(m, "actors")), k)
  }

  ghost predicate Offers(bs: seq<Binding>, k: int) {
    exists i :: 0 <= i < |bs| && bs[i].id == k
  }

  lemma OffersConcat(a: seq<Binding>, b: seq<Binding>, k: int)
    ensures Offers(a + b, k) <==> Offers(a, k) || Offers(b, k)
  {
    if Offers(a, k) {
      var i :| 0 <= i < |a| && a[i].id == k;
      assert (a + b)[i].id == k;
    }
    if Offers(b, k) {
      var i :| 0 <= i < |b| && b[i].id == k;
      assert (a + b)[|a| + i].id == k;
    }
  }

  lemma {:induction false} BindingsOffer(os: seq<Json>, k: int)
    ensures Offers(BindingsOf(os), k) <==> NamedIn(os, k)
  {
    if os != [] {
      var last := os[|os| - 1];
      var init := os[..|os| - 1];
      BindingsOffer(init, k);
      assert os == init + [last];
      var tail := if Names(last) then [Binding(TypeId(last), Get(last, "name").s)] else [];
      OffersConcat(BindingsOf(init), tail, k);
      assert Offers(tail, k) <==> Names(last) && TypeId(last) == k by {
        if Names(last) { assert tail[0].id == TypeId(last); }
      }
    }
  }

  lemma LastActor(actors: seq<Json>, k: int)
    requires actors != []
    ensures NamedByActors(actors, k) <==>
      NamedByActors(actors[..|actors| - 1], k) || NamedIn(Objects(Items(actors[|actors| - 1], "components")), k)
  {
    var init, last := actors[..|actors| - 1], actors[|actors| - 1];
    assert forall a :: a in actors <==> a in init || a == last by {
      assert actors == init + [last];
    }
  }

  lemma {:induction false} ActorsOffer(actors: seq<Json>, k: int)
    ensures Offers(ActorBindings(actors), k) <==> NamedByActors(actors, k)
  {
    if actors != [] {
      var last := actors[|actors| - 1];
      var init := actors[..|actors| - 1];
      ActorsOffer(init, k);
      LastActor(actors, k);
      OffersConcat(ActorBindings(init), BindingsOf(Objects(Items(last, "components"))), k);
      BindingsOffer(Objects(Items(last, "components")), k);
    }
  }

  lemma LastMode(modes: seq<Json>, k: int)
    requires modes != []
    ensures NamedByModes(modes, k) <==>
      NamedByModes(modes[..|modes| - 1], k) || NamedByActors(Objects(Items(modes[|modes| - 1], "actors")), k)
  {
    var init, last := modes[..|modes| - 1], modes[|modes| - 1];
    assert forall m :: m in modes <==> m in init || m == last by {
      assert modes == init + [last];
    }
  }

  lemma {:induction false} ModesOffer(modes: seq<Json>, k: int)
    ensures Offers(ModeBindings(modes), k) <==> NamedByModes(modes, k)
  {
    if modes != [] {
      var last := modes[|modes| - 1];
      var init := modes[..|modes| - 1];
      ModesOffer(init, k);
      LastMode(modes, k);
      OffersConcat(ModeBindings(init), ActorBindings(Objects(Items(last, "actors"))), k);
      ActorsOffer(Objects(Items(last, "actors")), k);
    }
  }

  /** The final ids are the reserved ones and those some schema or actor component names. */
  lemma TableKeysExactly(reserved: map<int, Text>, schemas: seq<Json>, modes: seq<Json>, k: int)
    ensures k in ComponentTable(reserved, schemas, modes)
       <==> k in reserved || NamedIn(Objects(schemas), k) || NamedByModes(Objects(modes), k)
  {
    var a, b := BindingsOf(Objects(schemas)), ModeBindings(Objects(modes));
    TableKeys(reserved, a + b);
    assert Offers(a + b, k) <==> exists i :: 0 <= i < |a + b| && (a + b)[i].id == k;
    OffersConcat(a, b, k);
    BindingsOffer(Objects(schemas), k);
    ModesOffer(Objects(modes), k);
  }

  // ---- The ids do not depend on order ----

  /** The same value up to the order of array elements and object keys, at any depth. */
  ghost predicate Reordered(a: Json, b: Json)
    decreases a, 0
  {
    match a
    case Arr(xs) => b.Arr? && ReorderedLists(xs, b.items)
    case Obj(ms) =>
      && b.Obj?
      && (forall k :: HasKey(ms, k) <==> HasKey(b.members, k))
      && (forall m | m in ms :: Lookup(ms, m.key) == m.value ==> Reordered(m.value, Lookup(b.members, m.key)))
    case _ => a == b
  }

  ghost predicate ReorderedLists(xs: seq<Json>, ys: seq<Json>)
    decreases xs, 2
  {
    (forall x | x in xs :: Matches(x, ys)) && (forall y | y in ys :: Matched(xs, y))
  }

  ghost predicate Matches(x: Json, ys: seq<Json>)
    decreases x, 1
  {
    exists y :: y in ys && Reordered(x, y)
  }

  ghost predicate Matched(xs: seq<Json>, y: Json)
    decreases xs, 1
  {
    exists x | x in xs :: Reordered(x, y)
  }

  lemma ReorderedField(a: Json, b: Json, name: string)
    requires a.Obj? && Reordered(a, b)
    ensures Reordered(Get(a, name), Get(b, name))
  {
    var k := Lit(name);
    if HasKey(a.members, k) {
      LookupIsMember(a.members, k);
      assert Member(k, Lookup(a.members, k)) in a.members;
    } else {
      MissingKey(a.members, k);
      MissingKey(b.members, k);
    }
  }

  lemma ReorderedItems(a: Json, b: Json, name: string)
    requires a.Obj? && Reordered(a, b)
    ensures ReorderedLists(Items(a, name), Items(b, name))
  {
    ReorderedField(a, b, name);
  }

  lemma Forth(xs: seq<Json>, ys: seq<Json>, x: Json) returns (y: Json)
    requires ReorderedLists(xs, ys) && x in Objects(xs)
    ensures y in Objects(ys) && x.Obj? && Reordered(x, y)
  {
    ObjectsMembers(xs, x);
    assert Matches(x, ys);
    y :| y in ys && Reordered(x, y);
    ObjectsMembers(ys, y);
  }

  lemma Back(xs: seq<Json>, ys: seq<Json>, y: Json) returns (x: Json)
    requires ReorderedLists(xs, ys) && y in Objects(ys)
    ensures x in Objects(xs) && x.Obj? && Reordered(x, y)
  {
    ObjectsMembers(ys, y);
    assert Matched(xs, y);
    x :| x in xs && Reordered(x, y);
    assert x.Obj?;
    ObjectsMembers(xs, x);
  }

  lemma ReorderedEntry(x: Json, y: Json)
    requires x.Obj? && Reordered(x, y)
    ensures Names(x) == Names(y) && TypeId(x) == TypeId(y)
  {
    ReorderedField(x, y, "type_id");
    ReorderedField(x, y, "name");
  }

  // Reordered lists name the same ids.
  lemma ReorderedNames(xs: seq<Json>, ys: seq<Json>, k: int)
    requires ReorderedLists(xs, ys)
    ensures NamedIn(Objects(xs), k) <==> NamedIn(Objects(ys), k)
  {
    var os, ps := Objects(xs), Objects(ys);
    if NamedIn(os, k) {
      var x :| x in os && Names(x) && TypeId(x) == k;
      var y := Forth(xs, ys, x);
      ReorderedEntry(x, y);
    }
    if NamedIn(ps, k) {
      var y :| y in ps && Names(y) && TypeId(y) == k;
      var x := Back(xs, ys, y);
      ReorderedEntry(x, y);
    }
  }

  lemma ReorderedActor(x: Json, y: Json, k: int)
    requires x.Obj? && Reordered(x, y)
    ensures NamedIn(Objects(Items(x, "components")), k) <==> NamedIn(Objects(Items(y, "components")), k)
  {
    ReorderedItems(x, y, "components");
    ReorderedNames(Items(x, "components"), Items(y, "components"), k);
  }

  lemma ReorderedActors(xs: seq<Json>, ys: seq<Json>, k: int)
    requires ReorderedLists(xs, ys)
    ensures NamedByActors(Objects(xs), k) <==> NamedByActors(Objects(ys), k)
  {
    var os, ps := Objects(xs), Objects(ys);
    if NamedByActors(os, k) {
      var x :| x in os && NamedIn(Objects(Items(x, "components")), k);
      var y := Forth(xs, ys, x);
      ReorderedActor(x, y, k);
    }
    if NamedByActors(ps, k) {
      var y :| y in ps && NamedIn(Objects(Items(y, "components")), k);
      var x := Back(xs, ys, y);
      ReorderedActor(x, y, k);
    }
  }

  lemma ReorderedMode(x: Json, y: Json, k: int)
    requires x.Obj? && Reordered(x, y)
    ensures NamedByActors(Objects(Items(x, "actors")), k) <==> NamedByActors(Objects(Items(y, "actors")), k)
  {
    ReorderedItems(x, y, "actors");
    ReorderedActors(Items(x, "actors"), Items(y, "actors"), k);
  }

  lemma ReorderedModes(xs: seq<Json>, ys: seq<Json>, k: int)
    requires ReorderedLists(xs, ys)
    ensures NamedByModes(Objects(xs), k) <==> NamedByModes(Objects(ys), k)
  {
    var os, ps := Objects(xs), Objects(ys);
    if NamedByModes(os, k) {
      var x :| x in os && NamedByActors(Objects(Items(x, "actors")), k);
      var y := Forth(xs, ys, x);
      ReorderedMode(x, y, k);
    }
    if NamedByModes(ps, k) {
      var y :| y in ps && NamedByActors(Objects(Items(y, "actors")), k);
      var x := Back(xs, ys, y);
      ReorderedMode(x, y, k);
    }
  }

  /** Reordering schemas, modes, actors, components or keys leaves the table's ids the same. */
  lemma TableKeysIgnoreOrder(reserved: map<int, Text>, schemas: seq<Json>, modes: seq<Json>, schemas': seq<Json>,
          modes': seq<Json>)
    requires ReorderedLists(schemas, schemas') && ReorderedLists(modes, modes')
    ensures ComponentTable(reserved, schemas, modes).Keys == ComponentTable(reserved, schemas', modes').Keys
  {
    forall k
      ensures k in ComponentTable(reserved, schemas, modes) <==> k in ComponentTable(reserved, schemas', modes') {
      TableKeysExactly(reserved, schemas, modes, k);
      TableKeysExactly(reserved, schemas', modes', k);
      ReorderedNames(schemas, schemas', k);
      ReorderedModes(modes, modes', k);
    }
  }
}
