// The validator's verdict as one declarative property of the document.

module CgsExport {
  import opened Texts
  import opened Sorting
  import opened Json
  import opened CgsModel
  import opened CgsRules
  import CgsHash
  import opened Wrappers

  function Ids(os: seq<Json>): (r: seq<Text>)
    ensures |r| == |os| && forall i :: 0 <= i < |os| ==> r[i] == RequiredId(os[i])
  {
    seq(|os|, i requires 0 <= i < |os| => RequiredId(os[i]))
  }

  function TypeIds(os: seq<Json>): (r: seq<int>)
    ensures |r| == |os| && forall i :: 0 <= i < |os| ==> r[i] == TypeId(os[i])
  {
    seq(|os|, i requires 0 <= i < |os| => TypeId(os[i]))
  }

  // ======== A valid export ========

  /** A positive integer type id and a name that is not blank. */
  ghost predicate IsNamed(o: Json) {
    IsPositiveId(Get(o, "type_id")) && NonBlank(Get(o, "name"))
  }

  /** A list of component objects: each named and defaulted, no type id twice. */
  ghost predicate ValidComponents(cs: seq<Json>) {
    && (forall c :: c in cs ==> c.Obj? && IsNamed(c) && Get(c, "defaults").Obj?)
    && Distinct(TypeIds(cs))
  }

  ghost predicate ValidActor(a: Json) {
    && a.Obj? && NonBlank(Get(a, "id"))
    && (Has(a, "spawn_count") ==> IsPositiveId(Get(a, "spawn_count")))
    && Get(a, "components").Arr? && ValidComponents(Items(a, "components"))
  }

  ghost predicate ValidRule(r: Json) {
    && r.Obj? && NonBlank(Get(r, "id")) && Get(r, "condition").Str? && Get(r, "effect").Str?
    && AsInt(Get(r, "priority")).Some? && Get(r, "is_active").Bool?
  }

  ghost predicate ValidRules(rs: seq<Json>) {
    (forall r :: r in rs ==> ValidRule(r)) && Distinct(Ids(rs))
  }

  /** A mode on its own: identified, versioned, with well-formed actors, systems and rules. */
  ghost predicate ValidMode(m: Json) {
    && m.Obj? && NonBlank(Get(m, "id")) && IsSemver(Get(m, "schema_version")) && Get(m, "is_default").Bool?
    && Get(m, "actors").Arr? && (forall a :: a in Items(m, "actors") ==> ValidActor(a))
    && Get(m, "systems").Arr? && (forall s :: s in Items(m, "systems") ==> s.Obj? && NonBlank(Get(s, "id")))
    && Get(m, "rules").Arr? && ValidRules(Items(m, "rules"))
  }

  /** Exactly one mode is the default. */
  ghost predicate OneDefault(modes: seq<Json>) {
    exists i: nat :: OnlyDefault(modes, i)
  }

  ghost predicate OnlyDefault(modes: seq<Json>, i: nat) {
    && i < |modes|
    && forall j :: 0 <= j < |modes| ==> (Get(modes[j], "is_default") == Bool(true) <==> j == i)
  }

  /** No actor id occurs in two modes. */
  ghost predicate ActorsApart(modes: seq<Json>) {
    forall i, j, a, b :: 0 <= i < j < |modes| && a in Items(modes[i], "actors") && b in Items(modes[j], "actors")
      ==> RequiredId(a) != RequiredId(b)
  }

  /** No mode-level system id occurs twice, in one mode or in two. */
  ghost predicate SystemsApart(modes: seq<Json>) {
    (forall m :: m in modes ==> Distinct(Ids(Items(m, "systems")))) && SystemsAcross(modes)
  }

  ghost predicate SystemsAcross(modes: seq<Json>) {
    forall i, j, s, t :: 0 <= i < j < |modes| && s in Items(modes[i], "systems") && t in Items(modes[j], "systems")
      ==> RequiredId(s) != RequiredId(t)
  }

  /** A component type id is known: reserved, or named by a schema or by some actor's component. */
  ghost predicate KnownComponent(reserved: map<int, Text>, schemas: seq<Json>, modes: seq<Json>, k: int) {
    || k in reserved
    || (exists s :: s in schemas && NamesId(s, k))
    || (exists m, a, c ::
          m in modes && a in Items(m, "actors") && c in Items(a, "components") && a.Obj? && NamesId(c, k))
  }

  /** The object gives the type id k a name. */
  ghost predicate NamesId(o: Json, k: int) {
    o.Obj? && IsNamed(o) && AsInt(Get(o, "type_id")) == Some(k)
  }

  /** Some system of the document has this id. */
  ghost predicate KnownSystem(globals: seq<Json>, modes: seq<Json>, id: Text) {
    || (exists s :: s in globals && RequiredId(s) == id)
    || (exists m, s :: m in modes && s in Items(m, "systems") && RequiredId(s) == id)
  }

  ghost predicate ValidAccess(reserved: map<int, Text>, schemas: seq<Json>, modes: seq<Json>, v: Json) {
    v.Arr? && forall x :: x in v.items ==> IsPositiveId(x) && KnownComponent(reserved, schemas, modes, AsInt(x).value)
  }

  ghost predicate ValidDependencies(globals: seq<Json>, modes: seq<Json>, self: Text, v: Json) {
    v.Arr? && forall d :: d in v.items ==> NonBlank(d) && d.s != self && KnownSystem(globals, modes, d.s)
  }

  /** The six phases a system may run in. */
  ghost predicate ValidPhase(v: Json) {
    || v == Str(Lit("Initialization")) || v == Str(Lit("Input")) || v == Str(Lit("Simulation"))
    || v == Str(Lit("PostSimulation")) || v == Str(Lit("Cleanup")) || v == Str(Lit("Render"))
  }

  ghost predicate ValidSystem(reserved: map<int, Text>, schemas: seq<Json>, globals: seq<Json>, modes: seq<Json>,
          s: Json) {
    && s.Obj? && NonBlank(Get(s, "id"))
    && ValidPhase(Get(s, "phase"))
    && ValidAccess(reserved, schemas, modes, Get(s, "reads")) && ValidAccess(reserved, schemas, modes, Get(s, "writes"))
    && ValidDependencies(globals, modes, RequiredId(s), Get(s, "depends_on"))
    && Get(s, "deterministic").Bool?
    && (Has(s, "parallel") ==> Get(s, "parallel").Bool?)
    && (Has(s, "runtime_executor") ==> Get(s, "runtime_executor").Obj?)
  }

  ghost predicate ValidSchema(reserved: map<int, Text>, s: Json) {
    && s.Obj? && IsNamed(s) && Get(s, "defaults").Obj?
    && (Get(s, "source") != Null ==> NonBlank(Get(s, "source")))
    && var id := AsInt(Get(s, "type_id")).value;
    id in reserved ==> Get(s, "name") == Str(reserved[id])
  }

  ghost predicate ValidSchemas(reserved: map<int, Text>, schemas: seq<Json>) {
    && (forall s :: s in schemas ==> ValidSchema(reserved, s))
    && Distinct(TypeIds(schemas))
  }

  ghost predicate ValidModes(modes: seq<Json>) {
    && (forall m :: m in modes ==> ValidMode(m))
    && Distinct(Ids(modes)) && OneDefault(modes) && ActorsApart(modes) && SystemsApart(modes)
  }

  ghost predicate ValidSystems(reserved: map<int, Text>, schemas: seq<Json>, globals: seq<Json>, modes: seq<Json>) {
    Distinct(Ids(globals)) && SystemsValid(reserved, schemas, globals, modes)
  }

  ghost predicate SystemsValid(reserved: map<int, Text>, schemas: seq<Json>, globals: seq<Json>, modes: seq<Json>) {
    && (forall s :: s in globals ==> ValidSystem(reserved, schemas, globals, modes, s))
    && (forall m, s :: m in modes && s in Items(m, "systems") ==> ValidSystem(reserved, schemas, globals, modes, s))
  }

  /** The fields the document itself and its metadata must have. */
  ghost predicate ValidHeader(cgs: Json) {
    && cgs.Obj? && Has(cgs, "metadata") && Has(cgs, "global_systems") && Has(cgs, "modes")
    && (Get(cgs, "format") == Null || Get(cgs, "format_version") == Null
        || (Get(cgs, "format") == Str(Lit("xace.cgs.export")) && IsSemver(Get(cgs, "format_version"))))
    && Get(cgs, "modes").Arr? && Get(cgs, "global_systems").Arr?
    && var md := Get(cgs, "metadata");
    && md.Obj? && Has(md, "cgs_hash") && NonBlank(Get(md, "name"))
    && IsSemver(Get(md, "version")) && IsSemver(Get(md, "schema_version"))
  }

  ghost predicate ValidLists(reserved: map<int, Text>, schemas: seq<Json>, globals: seq<Json>, modes: seq<Json>) {
    ValidSchemas(reserved, schemas) && ValidModes(modes) && ValidSystems(reserved, schemas, globals, modes)
  }

  // Everything a valid export must meet but its declared hash.  Nothing is said
  // about cycles of dependencies: they are not checked.
  ghost predicate ValidStructure(reserved: map<int, Text>, x: Extras, cgs: Json) {
    && ValidHeader(cgs)
    && (Get(cgs, "component_schemas") == Null || Get(cgs, "component_schemas").Arr?)
    && (Get(cgs, "semantic_events") == Null || Get(cgs, "semantic_events").Arr?)
    && (Get(cgs, "assets") == Null || Get(cgs, "assets").Arr?)
    && ValidLists(reserved, Items(cgs, "component_schemas"), Items(cgs, "global_systems"), Items(cgs, "modes"))
    && x.events(Items(cgs, "semantic_events")) == Some(0) && x.assets(Items(cgs, "assets")) == 0
  }

  function DeclaredIn(cgs: Json): Json {
    Get(Get(cgs, "metadata"), "cgs_hash")
  }

  /** The declared hash is the document's own, which is not all zeros. */
  ghost predicate DeclaresItsHash(p: CgsHash.Platform, cgs: Json)
    requires cgs.Obj?
  {
    DeclaredIn(cgs) == Str(Lit(p.sha256(CgsHash.HashedText(p, cgs)))) && !CgsHash.AllZeros(DeclaredIn(cgs).s)
  }

  /** The declared hash is one of the three draft values. */
  ghost predicate DeclaresDraft(cgs: Json) {
    var d := DeclaredIn(cgs);
    d.Str? && (d.s == [] || d.s == Lit("unresolved") || CgsHash.AllZeros(d.s))
  }

  /** The declared hash is a text of a legacy length. */
  ghost predicate DeclaresLegacy(cgs: Json) {
    DeclaredIn(cgs).Str? && (|DeclaredIn(cgs).s| == 8 || |DeclaredIn(cgs).s| == 16)
  }

  /** What a strict validation certifies. */
  ghost predicate ValidExport(p: CgsHash.Platform, reserved: map<int, Text>, x: Extras, cgs: Json) {
    ValidStructure(reserved, x, cgs) && DeclaresItsHash(p, cgs)
  }

  /** What a validation under the two allow flags certifies. */
  ghost predicate AllowedExport(p: CgsHash.Platform, reserved: map<int, Text>, x: Extras, cgs: Json,
                                allowLegacy: bool, allowDraft: bool) {
    && ValidStructure(reserved, x, cgs)
    && (DeclaresItsHash(p, cgs) || (allowDraft && DeclaresDraft(cgs)) || (allowLegacy && DeclaresLegacy(cgs)))
  }

  // ======== Lists read element by element ========

  lemma SnocMembers<T>(s: seq<T>)
    requires s != []
    ensures forall x :: x in s <==> x in s[..|s| - 1] || x == s[|s| - 1]
  {
    assert s == s[..|s| - 1] + [s[|s| - 1]];
  }

  lemma DistinctSnoc<T>(s: seq<T>)
    requires s != []
    ensures Distinct(s) <==> Distinct(s[..|s| - 1]) && s[|s| - 1] !in s[..|s| - 1]
  {
    var init, x := s[..|s| - 1], s[|s| - 1];
    if Distinct(s) {
      forall i, j | 0 <= i < j < |init| ensures init[i] != init[j] {
        assert s[i] == init[i] && s[j] == init[j];
      }
      forall i | 0 <= i < |init| ensures init[i] != x {
        assert s[i] == init[i];
      }
    } else {
      var i, j :| 0 <= i < j < |s| && s[i] == s[j];
      assert init[i] == s[i];
      if j < |init| {
        assert init[j] == s[j];
      }
    }
  }

  lemma {:induction false} IdSetIff(os: seq<Json>, k: Text)
    ensures k in IdSet(os) <==> k in Ids(os)
    ensures k in IdSet(os) <==> exists o :: o in os && RequiredId(o) == k
  {
    if os != [] {
      IdSetIff(os[..|os| - 1], k);
      SnocMembers(os);
      IdsSnoc(os);
    }
  }

  lemma IdsSnoc(os: seq<Json>)
    requires os != []
    ensures Ids(os) == Ids(os[..|os| - 1]) + [RequiredId(os[|os| - 1])]
    ensures Ids(os)[..|os| - 1] == Ids(os[..|os| - 1])
  {}

  lemma TypeIdsSnoc(os: seq<Json>)
    requires os != []
    ensures TypeIds(os)[..|os| - 1] == TypeIds(os[..|os| - 1])
  {}

  lemma {:induction false} TypeIdSetIff(os: seq<Json>, k: int)
    requires k > 0
    ensures k in TypeIdSet(os) <==> k in TypeIds(os)
  {
    if os != [] {
      TypeIdSetIff(os[..|os| - 1], k);
      assert TypeIds(os) == TypeIds(os[..|os| - 1]) + [TypeId(os[|os| - 1])];
    }
  }

  // For a last entry with a usable id, being fresh and being distinct are the same.
  lemma FreshTypeId(os: seq<Json>)
    requires os != []
    ensures Distinct(TypeIds(os)) ==> Distinct(TypeIds(os[..|os| - 1]))
    ensures TypeId(os[|os| - 1]) > 0 ==>
      (Distinct(TypeIds(os)) <==>
        Distinct(TypeIds(os[..|os| - 1])) && TypeId(os[|os| - 1]) !in TypeIdSet(os[..|os| - 1]))
  {
    TypeIdsSnoc(os);
    DistinctSnoc(TypeIds(os));
    if TypeId(os[|os| - 1]) > 0 {
      TypeIdSetIff(os[..|os| - 1], TypeId(os[|os| - 1]));
    }
  }

  lemma {:induction false} SchemasIff(reserved: map<int, Text>, os: seq<Json>)
    ensures SchemasOk(reserved, os) <==>
      (forall s :: s in os ==> SchemaOk(s) && KeepsReservedName(reserved, s)) && Distinct(TypeIds(os))
  {
    if os != [] {
      SchemasIff(reserved, os[..|os| - 1]);
      SnocMembers(os);
      FreshTypeId(os);
    }
  }

  lemma {:induction false} ComponentsIff(os: seq<Json>)
    ensures ComponentsOk(os) <==> (forall c :: c in os ==> ComponentOk(c)) && Distinct(TypeIds(os))
  {
    if os != [] {
      ComponentsIff(os[..|os| - 1]);
      SnocMembers(os);
      FreshTypeId(os);
    }
  }

  lemma {:induction false} GlobalIdsIff(os: seq<Json>)
    ensures GlobalIdsOk(os) <==> (forall s :: s in os ==> HasId(s)) && Distinct(Ids(os))
  {
    if os != [] {
      GlobalIdsIff(os[..|os| - 1]);
      SnocMembers(os);
      IdsSnoc(os);
      DistinctSnoc(Ids(os));
      IdSetIff(os[..|os| - 1], RequiredId(os[|os| - 1]));
    }
  }

  lemma {:induction false} RuleListIff(os: seq<Json>)
    ensures RuleListOk(os) <==> (forall r :: r in os ==> RuleOk(r)) && Distinct(Ids(os))
  {
    if os != [] {
      RuleListIff(os[..|os| - 1]);
      SnocMembers(os);
      IdsSnoc(os);
      DistinctSnoc(Ids(os));
      IdSetIff(os[..|os| - 1], RequiredId(os[|os| - 1]));
    }
  }

  lemma {:induction false} ModeListIff(os: seq<Json>)
    ensures ModeListOk(os) <==> (forall m :: m in os ==> ModeOk(m)) && Distinct(Ids(os))
  {
    if os != [] {
      ModeListIff(os[..|os| - 1]);
      SnocMembers(os);
      IdsSnoc(os);
      DistinctSnoc(Ids(os));
      IdSetIff(os[..|os| - 1], RequiredId(os[|os| - 1]));
    }
  }

  lemma {:induction false} ActorsIff(os: seq<Json>)
    ensures ActorsOk(os) <==> forall a :: a in os ==> ActorOk(a)
  {
    if os != [] {
      ActorsIff(os[..|os| - 1]);
      SnocMembers(os);
    }
  }

  lemma {:induction false} ModesActorsIff(os: seq<Json>)
    ensures ModesActorsOk(os) <==> forall m :: m in os ==> ModeActorsOk(m)
  {
    if os != [] {
      ModesActorsIff(os[..|os| - 1]);
      SnocMembers(os);
    }
  }

  lemma {:induction false} NoDefaultsIff(os: seq<Json>)
    ensures DefaultCount(os) == 0 <==> forall i :: 0 <= i < |os| ==> Get(os[i], "is_default") != Bool(true)
  {
    if os != [] {
      NoDefaultsIff(os[..|os| - 1]);
    }
  }

  lemma LastIsOnlyDefault(os: seq<Json>)
    requires os != [] && Get(os[|os| - 1], "is_default") == Bool(true)
    ensures OneDefault(os) <==> forall i :: 0 <= i < |os| - 1 ==> Get(os[i], "is_default") != Bool(true)
  {
    if forall i :: 0 <= i < |os| - 1 ==> Get(os[i], "is_default") != Bool(true) {
      assert OnlyDefault(os, |os| - 1);
    }
  }

  lemma LastIsNoDefault(os: seq<Json>)
    requires os != [] && Get(os[|os| - 1], "is_default") != Bool(true)
    ensures OneDefault(os) <==> OneDefault(os[..|os| - 1])
  {
    var init := os[..|os| - 1];
    forall i: nat ensures OnlyDefault(os, i) <==> OnlyDefault(init, i) {
      if i < |init| {
        assert forall j :: 0 <= j < |init| ==> init[j] == os[j];
      }
    }
  }

  lemma {:induction false} DefaultsIff(os: seq<Json>)
    ensures DefaultCount(os) == 1 <==> OneDefault(os)
  {
    if os != [] {
      var init := os[..|os| - 1];
      if IsDefault(os[|os| - 1]) {
        NoDefaultsIff(init);
        LastIsOnlyDefault(os);
        assert forall i :: 0 <= i < |init| ==> init[i] == os[i];
      } else {
        DefaultsIff(init);
        LastIsNoDefault(os);
      }
    }
  }

  // ======== Actors: one mode each ========

  /** A usable id of some object in the list. */
  ghost predicate IdIn(os: seq<Json>, k: Text) {
    k != [] && exists o :: o in os && RequiredId(o) == k
  }

  lemma IdInSnoc(os: seq<Json>, k: Text)
    requires os != []
    ensures IdIn(os, k) <==> IdIn(os[..|os| - 1], k) || (k != [] && RequiredId(os[|os| - 1]) == k)
  {
    SnocMembers(os);
  }

  lemma {:induction false} OwnersAfterIff(owners: map<Text, Text>, actors: seq<Json>, modeId: Text, k: Text)
    ensures var after := OwnersAfter(owners, actors, modeId);
      && (k in after <==> k in owners || IdIn(actors, k))
      && (k in owners ==> after[k] == owners[k])
      && (k in after && k !in owners ==> after[k] == modeId)
  {
    if actors != [] {
      OwnersAfterIff(owners, actors[..|actors| - 1], modeId, k);
      IdInSnoc(actors, k);
    }
  }

  // In a mode with an id of its own, the actors fit exactly when none was met before.
  lemma {:induction false} ActorsFitIff(owners: map<Text, Text>, actors: seq<Json>, modeId: Text)
    requires forall k :: k in owners ==> owners[k] != modeId
    ensures ActorsFit(owners, actors, modeId) <==> forall k :: IdIn(actors, k) ==> k !in owners
  {
    if actors != [] {
      var init, last := actors[..|actors| - 1], actors[|actors| - 1];
      ActorsFitIff(owners, init, modeId);
      OwnersAfterIff(owners, init, modeId, RequiredId(last));
      forall k ensures IdIn(actors, k) <==> IdIn(init, k) || (k != [] && RequiredId(last) == k) {
        IdInSnoc(actors, k);
      }
      if RequiredId(last) != [] {
        IdInSnoc(actors, RequiredId(last));
      }
    }
  }

  /** Some mode holds an actor with this id. */
  ghost predicate ActorIn(modes: seq<Json>, k: Text) {
    exists m :: m in modes && IdIn(Objects(Items(m, "actors")), k)
  }

  lemma ActorInSnoc(modes: seq<Json>, k: Text)
    requires modes != []
    ensures ActorIn(modes, k) <==>
      ActorIn(modes[..|modes| - 1], k) || IdIn(Objects(Items(modes[|modes| - 1], "actors")), k)
  {
    SnocMembers(modes);
  }

  lemma {:induction false} ModeOwnersIff(modes: seq<Json>, k: Text)
    ensures k in ModeOwners(modes) <==> ActorIn(modes, k)
    ensures k in ModeOwners(modes) ==> ModeOwners(modes)[k] in IdSet(modes)
  {
    if modes != [] {
      var init, last := modes[..|modes| - 1], modes[|modes| - 1];
      ModeOwnersIff(init, k);
      ActorInSnoc(modes, k);
      OwnersAfterIff(ModeOwners(init), Objects(Items(last, "actors")), RequiredId(last), k);
    }
  }

  /** No actor of one mode is met in an earlier one, mode after mode. */
  ghost predicate ActorsFresh(modes: seq<Json>) {
    modes == []
    || (var init, last := modes[..|modes| - 1], modes[|modes| - 1];
        ActorsFresh(init) && NoneMet(Objects(Items(last, "actors")), init))
  }

  ghost predicate NoneMet(actors: seq<Json>, modes: seq<Json>) {
    forall k :: IdIn(actors, k) ==> !ActorIn(modes, k)
  }

  lemma {:induction false} ModesFitIff(modes: seq<Json>)
    requires Distinct(Ids(modes))
    ensures ModesFit(modes) <==> ActorsFresh(modes)
  {
    if modes != [] {
      var init, last := modes[..|modes| - 1], modes[|modes| - 1];
      IdsSnoc(modes);
      DistinctSnoc(Ids(modes));
      ModesFitIff(init);
      IdSetIff(init, RequiredId(last));
      var owners := ModeOwners(init);
      forall k ensures k in owners <==> ActorIn(init, k)
               ensures k in owners ==> owners[k] != RequiredId(last) {
        ModeOwnersIff(init, k);
      }
      ActorsFitIff(owners, Objects(Items(last, "actors")), RequiredId(last));
    }
  }

  // The actors of every mode are objects with ids.
  ghost predicate ActorsIdentified(modes: seq<Json>) {
    forall m, a :: m in modes && a in Items(m, "actors") ==> a.Obj? && HasId(a)
  }

  lemma InkedIdNonEmpty(o: Json)
    requires HasId(o)
    ensures RequiredId(o) != []
  {}

  lemma ActorInIff(modes: seq<Json>, k: Text)
    requires ActorsIdentified(modes)
    ensures ActorIn(modes, k) <==> exists m, a :: m in modes && a in Items(m, "actors") && RequiredId(a) == k
  {
    if ActorIn(modes, k) {
      var m :| m in modes && IdIn(Objects(Items(m, "actors")), k);
      var a :| a in Objects(Items(m, "actors")) && RequiredId(a) == k;
      ObjectsMembers(Items(m, "actors"), a);
    }
    if m, a :| m in modes && a in Items(m, "actors") && RequiredId(a) == k {
      InkedIdNonEmpty(a);
      ObjectsMembers(Items(m, "actors"), a);
      assert IdIn(Objects(Items(m, "actors")), k);
    }
  }

  // No actor of the last mode occurs in an earlier one.
  ghost predicate LastApart(modes: seq<Json>)
    requires modes != []
  {
    forall i, a, b :: 0 <= i < |modes| - 1 && a in Items(modes[i], "actors") && b in Items(modes[|modes| - 1], "actors")
      ==> RequiredId(a) != RequiredId(b)
  }

  lemma ApartSnoc(modes: seq<Json>)
    requires modes != []
    ensures ActorsApart(modes) <==> ActorsApart(modes[..|modes| - 1]) && LastApart(modes)
  {
    var init, n := modes[..|modes| - 1], |modes| - 1;
    if ActorsApart(modes) {
      forall i, j, a, b | 0 <= i < j < |init| && a in Items(init[i], "actors") && b in Items(init[j], "actors")
        ensures RequiredId(a) != RequiredId(b) {
        assert modes[i] == init[i] && modes[j] == init[j];
      }
    }
    if ActorsApart(init) && LastApart(modes) {
      forall i, j, a, b | 0 <= i < j < |modes| && a in Items(modes[i], "actors") && b in Items(modes[j], "actors")
        ensures RequiredId(a) != RequiredId(b) {
        if j < n {
          assert modes[i] == init[i] && modes[j] == init[j];
        }
      }
    }
  }

  lemma LastApartIff(modes: seq<Json>)
    requires modes != [] && ActorsIdentified(modes)
    ensures LastApart(modes) <==> NoneMet(Objects(Items(modes[|modes| - 1], "actors")), modes[..|modes| - 1])
  {
    var init, last := modes[..|modes| - 1], modes[|modes| - 1];
    assert ActorsIdentified(init);
    if LastApart(modes) {
      forall k | IdIn(Objects(Items(last, "actors")), k) ensures !ActorIn(init, k) {
        var b :| b in Objects(Items(last, "actors")) && RequiredId(b) == k;
        ObjectsMembers(Items(last, "actors"), b);
        ActorInIff(init, k);
        forall m, a | m in init && a in Items(m, "actors") ensures RequiredId(a) != k {
          var i :| 0 <= i < |init| && init[i] == m;
          assert modes[i] == m;
        }
      }
    }
    if NoneMet(Objects(Items(last, "actors")), init) {
      forall i, a, b | 0 <= i < |modes| - 1 && a in Items(modes[i], "actors") && b in Items(last, "actors")
        ensures RequiredId(a) != RequiredId(b) {
        InkedIdNonEmpty(b);
        ObjectsMembers(Items(last, "actors"), b);
        assert IdIn(Objects(Items(last, "actors")), RequiredId(b));
        ActorInIff(init, RequiredId(b));
        assert modes[i] == init[i] && init[i] in init;
      }
    }
  }

  lemma {:induction false} ActorsApartIff(modes: seq<Json>)
    requires ActorsIdentified(modes)
    ensures ActorsApart(modes) <==> ActorsFresh(modes)
  {
    if modes != [] {
      SnocMembers(modes);
      ActorsApartIff(modes[..|modes| - 1]);
      ApartSnoc(modes);
      LastApartIff(modes);
    }
  }

  // ======== Mode-level system ids ========

  lemma {:induction false} SeenIff(before: set<Text>, systems: seq<Json>, k: Text)
    ensures k in Seen(before, systems) <==> k in before || IdIn(systems, k)
  {
    if systems != [] {
      SeenIff(before, systems[..|systems| - 1], k);
      IdInSnoc(systems, k);
    }
  }

  lemma {:induction false} NewIdsIff(before: set<Text>, systems: seq<Json>)
    ensures NewIds(before, systems) <==>
      && (forall s :: s in systems ==> HasId(s) && RequiredId(s) !in before)
      && Distinct(Ids(systems))
  {
    if systems != [] {
      var init, last := systems[..|systems| - 1], systems[|systems| - 1];
      NewIdsIff(before, init);
      SeenIff(before, init, RequiredId(last));
      SnocMembers(systems);
      IdsSnoc(systems);
      DistinctSnoc(Ids(systems));
      IdSetIff(init, RequiredId(last));
      if HasId(last) {
        InkedIdNonEmpty(last);
      }
    }
  }

  /** Some mode lists a system with this id. */
  ghost predicate SystemIn(modes: seq<Json>, k: Text) {
    exists m :: m in modes && IdIn(Objects(Items(m, "systems")), k)
  }

  lemma {:induction false} ModeSeenIff(modes: seq<Json>, k: Text)
    ensures k in ModeSeen(modes) <==> SystemIn(modes, k)
  {
    if modes != [] {
      var init, last := modes[..|modes| - 1], modes[|modes| - 1];
      ModeSeenIff(init, k);
      SnocMembers(modes);
      SeenIff(ModeSeen(init), Objects(Items(last, "systems")), k);
    }
  }

  // A mode whose systems are all objects with ids.
  ghost predicate SystemsIdentified(m: Json) {
    HasId(m) && Get(m, "systems").Arr? && forall s :: s in Items(m, "systems") ==> s.Obj? && HasId(s)
  }

  ghost predicate LastSystemsApart(modes: seq<Json>)
    requires modes != []
  {
    forall i, s, t ::
      0 <= i < |modes| - 1 && s in Items(modes[i], "systems") && t in Items(modes[|modes| - 1], "systems")
      ==> RequiredId(s) != RequiredId(t)
  }

  lemma SystemsAcrossSnoc(modes: seq<Json>)
    requires modes != []
    ensures SystemsAcross(modes) <==> SystemsAcross(modes[..|modes| - 1]) && LastSystemsApart(modes)
  {
    var init, n := modes[..|modes| - 1], |modes| - 1;
    if SystemsAcross(modes) {
      forall i, j, s, t | 0 <= i < j < |init| && s in Items(init[i], "systems") && t in Items(init[j], "systems")
        ensures RequiredId(s) != RequiredId(t) {
        assert modes[i] == init[i] && modes[j] == init[j];
      }
    }
    if SystemsAcross(init) && LastSystemsApart(modes) {
      forall i, j, s, t | 0 <= i < j < |modes| && s in Items(modes[i], "systems") && t in Items(modes[j], "systems")
        ensures RequiredId(s) != RequiredId(t) {
        if j < n {
          assert modes[i] == init[i] && modes[j] == init[j];
        }
      }
    }
  }

  lemma SystemInIff(modes: seq<Json>, k: Text)
    requires forall m :: m in modes ==> SystemsIdentified(m)
    ensures SystemIn(modes, k) <==> exists m, s :: m in modes && s in Items(m, "systems") && RequiredId(s) == k
  {
    if SystemIn(modes, k) {
      var m :| m in modes && IdIn(Objects(Items(m, "systems")), k);
      var s :| s in Objects(Items(m, "systems")) && RequiredId(s) == k;
      ObjectsMembers(Items(m, "systems"), s);
    }
    if m, s :| m in modes && s in Items(m, "systems") && RequiredId(s) == k {
      assert SystemsIdentified(m);
      InkedIdNonEmpty(s);
      ObjectsMembers(Items(m, "systems"), s);
      assert IdIn(Objects(Items(m, "systems")), k);
    }
  }

  lemma LastSystemsIff(modes: seq<Json>)
    requires modes != [] && forall m :: m in modes ==> SystemsIdentified(m)
    ensures LastSystemsApart(modes) <==>
      forall t :: t in Items(modes[|modes| - 1], "systems") ==> !SystemIn(modes[..|modes| - 1], RequiredId(t))
  {
    var init, last := modes[..|modes| - 1], modes[|modes| - 1];
    if LastSystemsApart(modes) {
      forall t | t in Items(last, "systems") ensures !SystemIn(init, RequiredId(t)) {
        LastSystemUnseen(modes, t);
      }
    }
    if forall t :: t in Items(last, "systems") ==> !SystemIn(init, RequiredId(t)) {
      forall i, s, t | 0 <= i < |modes| - 1 && s in Items(modes[i], "systems") && t in Items(last, "systems")
        ensures RequiredId(s) != RequiredId(t) {
        assert modes[i] == init[i];
        SystemSeen(init, i, s);
      }
    }
  }

  lemma LastSystemUnseen(modes: seq<Json>, t: Json)
    requires modes != [] && forall m :: m in modes ==> SystemsIdentified(m)
    requires LastSystemsApart(modes) && t in Items(modes[|modes| - 1], "systems")
    ensures !SystemIn(modes[..|modes| - 1], RequiredId(t))
  {
    var init := modes[..|modes| - 1];
    SnocMembers(modes);
    SystemInIff(init, RequiredId(t));
    forall m, s | m in init && s in Items(m, "systems") ensures RequiredId(s) != RequiredId(t) {
      var i :| 0 <= i < |init| && init[i] == m;
      assert modes[i] == m;
    }
  }

  lemma SystemSeen(modes: seq<Json>, i: nat, s: Json)
    requires i < |modes| && s in Items(modes[i], "systems")
    requires forall j :: 0 <= j < |modes| ==> SystemsIdentified(modes[j])
    ensures SystemIn(modes, RequiredId(s))
  {
    assert modes[i] in modes;
    SystemInIff(modes, RequiredId(s));
  }

  lemma ListedIff(before: set<Text>, m: Json)
    ensures ModeSystemsListed(before, m) <==>
      && SystemsIdentified(m) && Distinct(Ids(Items(m, "systems")))
      && forall s :: s in Items(m, "systems") ==> RequiredId(s) !in before
  {
    var systems := Items(m, "systems");
    AllObjectsKept(systems);
    NewIdsIff(before, Objects(systems));
    if AllObjects(systems) {
      assert Objects(systems) == systems;
    }
  }

  lemma {:induction false} ModesListedIff(modes: seq<Json>)
    ensures ModesListed(modes) <==> (forall m :: m in modes ==> SystemsIdentified(m)) && SystemsApart(modes)
  {
    if modes != [] {
      var init, last := modes[..|modes| - 1], modes[|modes| - 1];
      ModesListedIff(init);
      SnocMembers(modes);
      SystemsAcrossSnoc(modes);
      ListedIff(ModeSeen(init), last);
      forall k ensures k in ModeSeen(init) <==> SystemIn(init, k) {
        ModeSeenIff(init, k);
      }
      if forall m :: m in modes ==> SystemsIdentified(m) {
        LastSystemsIff(modes);
      }
    }
  }

  // ======== References ========

  lemma {:induction false} AccessIff(items: seq<Json>, declared: set<int>)
    ensures AccessItemsOk(items, declared) <==>
      forall x :: x in items ==> IsPositiveId(x) && AsInt(x).value in declared
  {
    if items != [] {
      AccessIff(items[..|items| - 1], declared);
      SnocMembers(items);
    }
  }

  lemma {:induction false} DependenciesIff(items: seq<Json>, self: Text, known: set<Text>)
    ensures DependencyItemsOk(items, self, known) <==>
      forall d :: d in items ==> NonBlank(d) && d.s != self && d.s in known
  {
    if items != [] {
      DependenciesIff(items[..|items| - 1], self, known);
      SnocMembers(items);
    }
  }

  lemma {:induction false} SystemObjectsIff(os: seq<Json>, known: set<Text>, declared: set<int>)
    ensures SystemObjectsOk(os, known, declared) <==> forall s :: s in os ==> SystemOk(s, known, declared)
  {
    if os != [] {
      SystemObjectsIff(os[..|os| - 1], known, declared);
      SnocMembers(os);
    }
  }

  lemma {:induction false} ModeSystemsIff(os: seq<Json>, known: set<Text>, declared: set<int>)
    ensures ModeSystemsOk(os, known, declared) <==>
      forall m :: m in os ==> SystemListOk(Items(m, "systems"), known, declared)
  {
    if os != [] {
      ModeSystemsIff(os[..|os| - 1], known, declared);
      SnocMembers(os);
    }
  }

  // The document's tables hold exactly the known ids.
  ghost predicate TablesMatch(reserved: map<int, Text>, schemas: seq<Json>, globals: seq<Json>, modes: seq<Json>,
                              known: set<Text>, declared: set<int>) {
    && (forall k :: k in declared <==> KnownComponent(reserved, schemas, modes, k))
    && (forall id: Text :: id != [] ==> (id in known <==> KnownSystem(globals, modes, id)))
  }

  lemma DependenciesMatch(reserved: map<int, Text>, schemas: seq<Json>, globals: seq<Json>, modes: seq<Json>,
                          known: set<Text>, declared: set<int>, self: Text, v: Json)
    requires TablesMatch(reserved, schemas, globals, modes, known, declared)
    ensures DependenciesOk(v, self, known) <==> ValidDependencies(globals, modes, self, v)
  {
    if v.Arr? {
      DependenciesIff(v.items, self, known);
      forall d | d in v.items && NonBlank(d) ensures d.s in known <==> KnownSystem(globals, modes, d.s) {
        assert d.s != [];
      }
    }
  }

  lemma SystemMatches(reserved: map<int, Text>, schemas: seq<Json>, globals: seq<Json>, modes: seq<Json>,
                      known: set<Text>, declared: set<int>, s: Json)
    requires TablesMatch(reserved, schemas, globals, modes, known, declared) && s.Obj?
    ensures SystemOk(s, known, declared) <==> ValidSystem(reserved, schemas, globals, modes, s)
  {
    var r, w := Get(s, "reads"), Get(s, "writes");
    if r.Arr? { AccessIff(r.items, declared); }
    if w.Arr? { AccessIff(w.items, declared); }
    DependenciesMatch(reserved, schemas, globals, modes, known, declared, RequiredId(s), Get(s, "depends_on"));
  }

  lemma SystemListMatches(reserved: map<int, Text>, schemas: seq<Json>, globals: seq<Json>, modes: seq<Json>,
                          known: set<Text>, declared: set<int>, systems: seq<Json>)
    requires TablesMatch(reserved, schemas, globals, modes, known, declared)
    ensures SystemListOk(systems, known, declared) <==>
      forall s :: s in systems ==> ValidSystem(reserved, schemas, globals, modes, s)
  {
    AllObjectsKept(systems);
    SystemObjectsIff(Objects(systems), known, declared);
    forall s | s in systems && s.Obj?
      ensures SystemOk(s, known, declared) <==> ValidSystem(reserved, schemas, globals, modes, s) {
      SystemMatches(reserved, schemas, globals, modes, known, declared, s);
    }
  }

  lemma NamedInIff(vs: seq<Json>, k: int)
    ensures NamedIn(Objects(vs), k) <==> exists c :: c in vs && NamesId(c, k)
  {
    forall o ensures o in Objects(vs) <==> o in vs && o.Obj? {
      ObjectsMembers(vs, o);
    }
  }

  lemma NamedByActorsIff(actors: seq<Json>, k: int)
    ensures NamedByActors(Objects(actors), k)
       <==> exists a, c :: a in actors && c in Items(a, "components") && a.Obj? && NamesId(c, k)
  {
    forall a ensures a in Objects(actors) <==> a in actors && a.Obj? {
      ObjectsMembers(actors, a);
    }
    forall a: Json ensures NamedIn(Objects(Items(a, "components")), k)
      <==> exists c :: c in Items(a, "components") && NamesId(c, k) {
      NamedInIff(Items(a, "components"), k);
    }
  }

  lemma KnownComponentIff(reserved: map<int, Text>, schemas: seq<Json>, modes: seq<Json>, k: int)
    requires AllObjects(modes)
    ensures k in ComponentTable(reserved, schemas, modes) <==> KnownComponent(reserved, schemas, modes, k)
  {
    AllObjectsKept(modes);
    TableKeysExactly(reserved, schemas, modes, k);
    NamedInIff(schemas, k);
    forall m | m in modes ensures NamedByActors(Objects(Items(m, "actors")), k)
      <==> exists a, c :: a in Items(m, "actors") && c in Items(a, "components") && a.Obj? && NamesId(c, k) {
      NamedByActorsIff(Items(m, "actors"), k);
    }
  }

  lemma TablesMatchDocument(reserved: map<int, Text>, schemas: seq<Json>, globals: seq<Json>, modes: seq<Json>)
    requires AllObjects(globals) && AllObjects(modes) && forall m :: m in modes ==> SystemsIdentified(m)
    ensures TablesMatch(reserved, schemas, globals, modes,
                        SystemIds(globals, modes), ComponentTable(reserved, schemas, modes).Keys)
  {
    AllObjectsKept(globals);
    AllObjectsKept(modes);
    forall k
      ensures k in ComponentTable(reserved, schemas, modes).Keys <==> KnownComponent(reserved, schemas, modes, k) {
      KnownComponentIff(reserved, schemas, modes, k);
    }
    forall id: Text | id != [] ensures id in SystemIds(globals, modes) <==> KnownSystem(globals, modes, id) {
      IdSetIff(globals, id);
      ModeSeenIff(modes, id);
      SystemInIff(modes, id);
    }
  }

  // ======== The verdict ========

  lemma ComponentListIff(cs: seq<Json>)
    ensures AllObjects(cs) && ComponentsOk(Objects(cs)) <==> ValidComponents(cs)
  {
    AllObjectsKept(cs);
    ComponentsIff(cs);
  }

  lemma ActorIff(a: Json)
    ensures a.Obj? && ActorOk(a) <==> ValidActor(a)
  {
    ComponentListIff(Items(a, "components"));
  }

  lemma ActorListIff(actors: seq<Json>)
    ensures AllObjects(actors) && ActorsOk(Objects(actors)) <==> forall a :: a in actors ==> ValidActor(a)
  {
    AllObjectsKept(actors);
    ActorsIff(actors);
    forall a: Json ensures a.Obj? && ActorOk(a) <==> ValidActor(a) {
      ActorIff(a);
    }
  }

  lemma RulesIff(rules: seq<Json>)
    ensures RulesOk(rules) <==> ValidRules(rules)
  {
    AllObjectsKept(rules);
    RuleListIff(rules);
  }

  lemma ModeIff(m: Json)
    ensures m.Obj? && ModeActorsOk(m) && ModeOk(m) && SystemsIdentified(m) <==> ValidMode(m)
  {
    ActorListIff(Items(m, "actors"));
    RulesIff(Items(m, "rules"));
  }

  // What the passes say of modes, gathered from three of them.
  ghost predicate ModePassesOk(modes: seq<Json>) {
    && AllObjects(modes) && ModesActorsOk(Objects(modes)) && ModesFit(Objects(modes))
    && ModesListed(Objects(modes)) && ModePassOk(modes)
  }

  // The single-mode demands of the passes.
  lemma EachModeIff(modes: seq<Json>)
    requires AllObjects(modes)
    ensures (ModesActorsOk(modes) && ModeListOk(modes) && forall m :: m in modes ==> SystemsIdentified(m))
       <==> ((forall m :: m in modes ==> ValidMode(m)) && Distinct(Ids(modes)))
  {
    AllObjectsKept(modes);
    ModesActorsIff(modes);
    ModeListIff(modes);
    forall m | m in modes ensures ModeActorsOk(m) && ModeOk(m) && SystemsIdentified(m) <==> ValidMode(m) {
      ModeIff(m);
    }
  }

  lemma ValidModesListSystems(modes: seq<Json>)
    requires forall m :: m in modes ==> ValidMode(m)
    ensures forall m :: m in modes ==> SystemsIdentified(m)
  {
    forall m | m in modes ensures SystemsIdentified(m) {
      assert ValidMode(m);
    }
  }

  lemma FitIff(modes: seq<Json>)
    requires ActorsIdentified(modes) && Distinct(Ids(modes))
    ensures ModesFit(modes) <==> ActorsApart(modes)
  {
    ModesFitIff(modes);
    ActorsApartIff(modes);
  }

  // Given well-formed modes, the cross-mode demands.
  lemma AcrossModesIff(modes: seq<Json>)
    requires (forall m :: m in modes ==> ValidMode(m)) && Distinct(Ids(modes))
    ensures ModesFit(modes) && ModesListed(modes) && DefaultCount(modes) == 1
       <==> ActorsApart(modes) && SystemsApart(modes) && OneDefault(modes)
  {
    ValidModesIdentified(modes);
    FitIff(modes);
    DefaultsIff(modes);
    ValidModesListSystems(modes);
    ModesListedIff(modes);
  }

  lemma ListedModesIdentified(modes: seq<Json>)
    requires ModesListed(modes)
    ensures forall m :: m in modes ==> SystemsIdentified(m)
  {
    ModesListedIff(modes);
  }

  lemma PassedModesValid(modes: seq<Json>)
    requires ModePassesOk(modes)
    ensures ValidModes(modes)
  {
    AllObjectsKept(modes);
    ListedModesIdentified(modes);
    EachModeIff(modes);
    AcrossModesIff(modes);
  }

  lemma ValidModesPass(modes: seq<Json>)
    requires ValidModes(modes)
    ensures ModePassesOk(modes)
  {
    forall m | m in modes ensures m.Obj? {
      assert ValidMode(m);
    }
    AllObjectsKept(modes);
    EachModeIff(modes);
    AcrossModesIff(modes);
  }

  lemma ModesIff(modes: seq<Json>)
    ensures ModePassesOk(modes) <==> ValidModes(modes)
  {
    if ModePassesOk(modes) {
      PassedModesValid(modes);
    }
    if ValidModes(modes) {
      ValidModesPass(modes);
    }
  }

  lemma ValidModesIdentified(modes: seq<Json>)
    requires forall m :: m in modes ==> ValidMode(m)
    ensures ActorsIdentified(modes)
  {
    forall m, a | m in modes && a in Items(m, "actors") ensures a.Obj? && HasId(a) {
      assert ValidMode(m);
      assert ValidActor(a);
    }
  }

  lemma SchemaListIff(reserved: map<int, Text>, schemas: seq<Json>)
    ensures AllObjects(schemas) && SchemasOk(reserved, Objects(schemas)) <==> ValidSchemas(reserved, schemas)
  {
    AllObjectsKept(schemas);
    SchemasIff(reserved, schemas);
  }

  // The system passes over global and mode systems, once every list is known to hold objects.
  lemma SystemPassIff(reserved: map<int, Text>, schemas: seq<Json>, globals: seq<Json>, modes: seq<Json>)
    requires AllObjects(modes) && AllObjects(globals) && forall m :: m in modes ==> SystemsIdentified(m)
    ensures SystemPassOk(globals, modes, SystemIds(globals, modes), ComponentTable(reserved, schemas, modes).Keys)
      <==> SystemsValid(reserved, schemas, globals, modes)
  {
    var known, declared := SystemIds(globals, modes), ComponentTable(reserved, schemas, modes).Keys;
    AllObjectsKept(modes);
    TablesMatchDocument(reserved, schemas, globals, modes);
    SystemListMatches(reserved, schemas, globals, modes, known, declared, globals);
    ModeSystemsIff(modes, known, declared);
    forall m | m in modes ensures SystemListOk(Items(m, "systems"), known, declared) <==>
      forall s :: s in Items(m, "systems") ==> ValidSystem(reserved, schemas, globals, modes, s) {
      SystemListMatches(reserved, schemas, globals, modes, known, declared, Items(m, "systems"));
    }
  }

  lemma SystemsIff(reserved: map<int, Text>, schemas: seq<Json>, globals: seq<Json>, modes: seq<Json>)
    requires ValidModes(modes)
    ensures AllObjects(globals) && GlobalIdsOk(Objects(globals))
      && SystemPassOk(globals, modes, SystemIds(globals, modes), ComponentTable(reserved, schemas, modes).Keys)
      <==> ValidSystems(reserved, schemas, globals, modes)
  {
    AllObjectsKept(globals);
    AllObjectsKept(modes);
    forall m | m in modes ensures m.Obj? && SystemsIdentified(m) {
      assert ValidMode(m);
    }
    GlobalIdsIff(globals);
    if AllObjects(globals) {
      SystemPassIff(reserved, schemas, globals, modes);
      GlobalsValid(reserved, schemas, globals, modes);
    } else {
      var s :| s in globals && !s.Obj?;
      assert !ValidSystem(reserved, schemas, globals, modes, s);
    }
  }

  lemma GlobalsValid(reserved: map<int, Text>, schemas: seq<Json>, globals: seq<Json>, modes: seq<Json>)
    ensures (forall s :: s in globals ==> ValidSystem(reserved, schemas, globals, modes, s))
      ==> forall s :: s in globals ==> HasId(s)
  {}

  lemma DeclaredIsGet(cgs: Json)
    requires cgs.Obj? && Has(Get(cgs, "metadata"), "cgs_hash")
    ensures CgsHash.DeclaredHash(MetadataOf(cgs)) == DeclaredIn(cgs)
  {}

  /** The hash check stays silent exactly for the document's own hash, an allowed draft or an allowed legacy text. */
  lemma HashAllowedIff(p: CgsHash.Platform, cgs: Json, allowLegacy: bool, allowDraft: bool)
    requires CgsHash.Sound(p) && cgs.Obj? && Has(Get(cgs, "metadata"), "cgs_hash")
    ensures HashOk(CgsHash.DeclaredHash(MetadataOf(cgs)), CgsHash.ComputeHash(p, cgs), allowLegacy, allowDraft)
      <==> DeclaresItsHash(p, cgs) || (allowDraft && DeclaresDraft(cgs)) || (allowLegacy && DeclaresLegacy(cgs))
  {
    var d := DeclaredIn(cgs);
    DeclaredIsGet(cgs);
    CgsHash.DigestShape(p, CgsHash.HashedText(p, cgs));
    if d.Str? {
      CgsHash.AllZerosIff(d.s);
    }
  }

  // The four passes over schemas, modes and systems together.
  ghost predicate ListPassesOk(reserved: map<int, Text>, schemas: seq<Json>, globals: seq<Json>, modes: seq<Json>) {
    && ComponentPassOk(reserved, schemas, modes) && SystemIdPassOk(globals, modes) && ModePassOk(modes)
    && SystemPassOk(globals, modes, SystemIds(globals, modes), ComponentTable(reserved, schemas, modes).Keys)
  }

  lemma DocumentIff(reserved: map<int, Text>, schemas: seq<Json>, globals: seq<Json>, modes: seq<Json>)
    ensures ListPassesOk(reserved, schemas, globals, modes)
      <==> ValidLists(reserved, schemas, globals, modes)
  {
    SchemaListIff(reserved, schemas);
    ModesIff(modes);
    if ValidModes(modes) {
      SystemsIff(reserved, schemas, globals, modes);
    }
  }

  ghost predicate HeaderPassesOk(cgs: Json) {
    cgs.Obj? && TopLevelOk(cgs) && MetadataOk(cgs) && Get(cgs, "modes").Arr? && Get(cgs, "global_systems").Arr?
  }

  lemma HeaderIff(cgs: Json)
    ensures HeaderPassesOk(cgs) <==> ValidHeader(cgs)
  {
    PresentFields(Get(cgs, "metadata"));
  }

  // A field that holds a text is there.
  lemma PresentFields(md: Json)
    ensures Get(md, "name").Str? ==> Has(md, "name")
    ensures Get(md, "version").Str? ==> Has(md, "version")
    ensures Get(md, "schema_version").Str? ==> Has(md, "schema_version")
  {
    if md.Obj? {
      forall k | !HasKey(md.members, k) ensures Lookup(md.members, k) == Null {
        MissingKey(md.members, k);
      }
    }
  }

  // The header passes, then the passes over lists, then the checks the model leaves abstract.
  ghost predicate StructurePassesOk(reserved: map<int, Text>, x: Extras, cgs: Json) {
    && HeaderPassesOk(cgs) && ArrayPassesOk(cgs)
    && ListPassesOk(reserved, Items(cgs, "component_schemas"), Items(cgs, "global_systems"), Items(cgs, "modes"))
    && x.events(Items(cgs, "semantic_events")) == Some(0) && x.assets(Items(cgs, "assets")) == 0
  }

  ghost predicate ArrayPassesOk(cgs: Json) {
    && OptionalArrayOk(cgs, "component_schemas") && OptionalArrayOk(cgs, "semantic_events")
    && OptionalArrayOk(cgs, "assets")
  }

  lemma PassesInParts(p: CgsHash.Platform, reserved: map<int, Text>, x: Extras, cgs: Json, allowLegacy: bool,
                      allowDraft: bool)
    ensures PassesOk(p, reserved, x, cgs, allowLegacy, allowDraft)
      <==> StructurePassesOk(reserved, x, cgs)
           && HashOk(CgsHash.DeclaredHash(MetadataOf(cgs)), CgsHash.ComputeHash(p, cgs), allowLegacy, allowDraft)
  {}

  lemma PassedStructureValid(reserved: map<int, Text>, x: Extras, cgs: Json)
    requires StructurePassesOk(reserved, x, cgs)
    ensures ValidStructure(reserved, x, cgs)
  {
    HeaderIff(cgs);
    DocumentIff(reserved, Items(cgs, "component_schemas"), Items(cgs, "global_systems"), Items(cgs, "modes"));
  }

  lemma ValidStructurePasses(reserved: map<int, Text>, x: Extras, cgs: Json)
    requires ValidStructure(reserved, x, cgs)
    ensures StructurePassesOk(reserved, x, cgs)
  {
    HeaderIff(cgs);
    DocumentIff(reserved, Items(cgs, "component_schemas"), Items(cgs, "global_systems"), Items(cgs, "modes"));
  }

  lemma StructureIff(reserved: map<int, Text>, x: Extras, cgs: Json)
    ensures StructurePassesOk(reserved, x, cgs) <==> ValidStructure(reserved, x, cgs)
  {
    if StructurePassesOk(reserved, x, cgs) {
      PassedStructureValid(reserved, x, cgs);
    }
    if ValidStructure(reserved, x, cgs) {
      ValidStructurePasses(reserved, x, cgs);
    }
  }

  /** Under any flags, every pass is clean exactly when the document is an export those flags allow. */
  lemma PassesIffAllowed(p: CgsHash.Platform, reserved: map<int, Text>, x: Extras, cgs: Json,
                         allowLegacy: bool, allowDraft: bool)
    requires CgsHash.Sound(p)
    ensures PassesOk(p, reserved, x, cgs, allowLegacy, allowDraft)
      <==> AllowedExport(p, reserved, x, cgs, allowLegacy, allowDraft)
  {
    PassesInParts(p, reserved, x, cgs, allowLegacy, allowDraft);
    StructureIff(reserved, x, cgs);
    if ValidStructure(reserved, x, cgs) {
      HashAllowedIff(p, cgs, allowLegacy, allowDraft);
    }
  }

  /** With both allow flags off, every pass is clean exactly when the document is a valid export. */
  lemma StrictPassesIffValid(p: CgsHash.Platform, reserved: map<int, Text>, x: Extras, cgs: Json)
    requires CgsHash.Sound(p)
    ensures PassesOk(p, reserved, x, cgs, false, false) <==> ValidExport(p, reserved, x, cgs)
  {
    PassesIffAllowed(p, reserved, x, cgs, false, false);
  }
}
