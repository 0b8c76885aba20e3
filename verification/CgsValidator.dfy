// The validation passes over a CGS document, accumulating errors and warnings.

module CgsValidator {
  import opened Texts
  import opened Json
  import opened CgsModel
  import opened CgsRules
  import CgsHash

  // What an error or warning message says, without its embedded names.
  datatype Issue =
    | Unreadable | InvalidJson | NotAnObject | NotAnArray | BlankId | BlankName
    | MissingTopLevel | WrongFormat | BadVersion | LegacyFormat | OtherFormatVersion
    | NoMetadata | MissingMetadata
    | BadTypeId | DuplicateTypeId | NameConflict | BadDefaults | BadSource
    | ActorInTwoModes | BadSpawnCount
    | DuplicateGlobalSystem | DuplicateModeSystem | OverridesGlobalSystem
    | NoModes | DuplicateMode | BadFlag | NotOneDefault
    | DuplicateRule | BadRuleField
    | BadPhase | RenderPhase | BadAccess | UndeclaredComponent
    | BadDependency | SelfDependency | UnknownDependency | BadExecutor
    | DraftHash | MalformedHash | HashMismatch
    | Elsewhere

  class ValidationResult {
    var errors: seq<Issue>
    var warnings: seq<Issue>
    var computedHash: string
    var declaredHash: Json

    constructor ()
      ensures errors == [] && warnings == [] && computedHash == "" && declaredHash == Str([])
    {
      errors, warnings, computedHash, declaredHash := [], [], "", Str([]);
    }

    predicate IsOk()
      reads this
    {
      errors == []
    }

    method Error(issue: Issue)
      modifies this`errors
      ensures errors == old(errors) + [issue]
    {
      errors := errors + [issue];
    }

    method Warn(issue: Issue)
      modifies this`warnings
      ensures warnings == old(warnings) + [issue]
    {
      warnings := warnings + [issue];
    }

    /** Report the issue unless the condition holds. */
    method Check(condition: bool, issue: Issue)
      modifies this`errors
      ensures errors == if condition then old(errors) else old(errors) + [issue]
    {
      if !condition {
        Error(issue);
      }
    }
  }

  // A pass keeps the errors there are and adds to them, none exactly when `ok`.
  ghost predicate Reported(before: seq<Issue>, after: seq<Issue>, ok: bool) {
    before <= after && (|after| == |before| <==> ok)
  }

  /** `objects`: the objects of a list, reporting whatever else is in it. */
  method FilterObjects(values: seq<Json>, result: ValidationResult) returns (output: seq<Json>)
    modifies result`errors
    ensures output == Objects(values)
    ensures Reported(old(result.errors), result.errors, AllObjects(values))
  {
    output := [];
    var index := 0;
    while index < |values|
      invariant 0 <= index <= |values|
      invariant output == Objects(values[..index])
      invariant Reported(old(result.errors), result.errors, AllObjects(values[..index]))
    {
      ObjectsStep(values, index);
      if values[index].Obj? {
        output := output + [values[index]];
      } else {
        result.Error(NotAnObject);
      }
      index := index + 1;
    }
    assert values[..index] == values;
  }

  /** `require_id`. */
  method RequireId(o: Json, result: ValidationResult) returns (id: Text)
    modifies result`errors
    ensures id == RequiredId(o)
    ensures Reported(old(result.errors), result.errors, NonBlank(Get(o, "id")))
  {
    var value := Get(o, "id");
    if !NonBlank(value) {
      result.Error(BlankId);
      return [];
    }
    return value.s;
  }

  /** `check_array` and `check_array_field`. */
  method CheckArrayField(o: Json, name: string, result: ValidationResult) returns (items: seq<Json>)
    modifies result`errors
    ensures items == Items(o, name)
    ensures Reported(old(result.errors), result.errors, Get(o, name).Arr?)
  {
    var value := Get(o, name);
    if !value.Arr? {
      result.Error(NotAnArray);
      return [];
    }
    return value.items;
  }

  method CheckOptionalArray(o: Json, name: string, result: ValidationResult) returns (items: seq<Json>)
    modifies result`errors
    ensures items == Items(o, name)
    ensures Reported(old(result.errors), result.errors, OptionalArrayOk(o, name))
  {
    var value := Get(o, name);
    if value == Null {
      return [];
    }
    if !value.Arr? {
      result.Error(NotAnArray);
      return [];
    }
    return value.items;
  }

  method CheckTopLevel(cgs: Json, result: ValidationResult)
    modifies result`errors, result`warnings
    ensures Reported(old(result.errors), result.errors, TopLevelOk(cgs))
  {
    result.Check(Has(cgs, "metadata") && Has(cgs, "global_systems") && Has(cgs, "modes"), MissingTopLevel);
    var format, version := Get(cgs, "format"), Get(cgs, "format_version");
    if format == Null || version == Null {
      result.Warn(LegacyFormat);
    } else {
      result.Check(format == FORMAT_NAME, WrongFormat);
      if !IsSemver(version) {
        result.Error(BadVersion);
      } else if version != Str(Lit("1.0.0")) {
        result.Warn(OtherFormatVersion);
      }
    }
  }

  /** Returns the metadata object, empty when there is none. */
  method CheckMetadata(cgs: Json, result: ValidationResult) returns (metadata: Json)
    modifies result`errors
    ensures metadata == if Get(cgs, "metadata").Obj? then Get(cgs, "metadata") else Obj([])
    ensures Reported(old(result.errors), result.errors, MetadataOk(cgs))
  {
    metadata := Get(cgs, "metadata");
    if !metadata.Obj? {
      result.Error(NoMetadata);
      return Obj([]);
    }
    result.Check(Has(metadata, "name"), MissingMetadata);
    result.Check(Has(metadata, "version"), MissingMetadata);
    result.Check(Has(metadata, "schema_version"), MissingMetadata);
    result.Check(Has(metadata, "cgs_hash"), MissingMetadata);
    result.Check(NonBlank(Get(metadata, "name")), BlankName);
    result.Check(IsSemver(Get(metadata, "version")), BadVersion);
    result.Check(IsSemver(Get(metadata, "schema_version")), BadVersion);
  }

  // ======== Components ========

  lemma {:induction false} NamesAreTypeIds(os: seq<Json>, k: int)
    ensures NamedIn(os, k) ==> k in TypeIdSet(os)
  {
    if os != [] {
      NamesAreTypeIds(os[..|os| - 1], k);
      assert forall o :: o in os <==> o in os[..|os| - 1] || o == os[|os| - 1] by {
        assert os == os[..|os| - 1] + [os[|os| - 1]];
      }
    }
  }

  // With fresh ids so far, a schema conflicts with the table only by renaming a reserved id.
  lemma SchemaConflicts(reserved: map<int, Text>, os: seq<Json>, s: Json)
    requires Names(s) && TypeId(s) !in TypeIdSet(os)
    ensures var table := BindAll(reserved, BindingsOf(os));
      (TypeId(s) in table ==> table[TypeId(s)] == Get(s, "name").s) <==> KeepsReservedName(reserved, s)
  {
    var id, bs := TypeId(s), BindingsOf(os);
    TableKeys(reserved, bs);
    BindingsOffer(os, id);
    NamesAreTypeIds(os, id);
    assert Offers(bs, id) <==> exists i :: 0 <= i < |bs| && bs[i].id == id;
    if id in reserved {
      assert bs[..0] == [];
      TableGrows(reserved, bs, 0);
    }
  }

  lemma SchemasStep(reserved: map<int, Text>, os: seq<Json>, n: nat)
    requires n < |os|
    ensures TypeIdSet(os[..n + 1]) == TypeIdSet(os[..n]) + if TypeId(os[n]) > 0 then {TypeId(os[n])} else {}
    ensures var table := BindAll(reserved, BindingsOf(os[..n]));
      SchemasOk(reserved, os[..n + 1]) <==>
        && SchemasOk(reserved, os[..n]) && SchemaOk(os[n]) && TypeId(os[n]) !in TypeIdSet(os[..n])
        && (TypeId(os[n]) in table ==> table[TypeId(os[n])] == Get(os[n], "name").s)
  {
    assert os[..n + 1][..n] == os[..n];
    if Names(os[n]) && TypeId(os[n]) !in TypeIdSet(os[..n]) {
      SchemaConflicts(reserved, os[..n], os[n]);
    }
  }

  method CheckSchema(schema: Json, seen: set<int>, declared: map<int, Text>, result: ValidationResult)
      returns (seen': set<int>, declared': map<int, Text>)
    modifies result`errors
    ensures seen' == seen + if TypeId(schema) > 0 then {TypeId(schema)} else {}
    ensures declared' == Enter(declared, schema)
    ensures Reported(old(result.errors), result.errors,
      SchemaOk(schema) && TypeId(schema) !in seen
      && (TypeId(schema) in declared ==> declared[TypeId(schema)] == Get(schema, "name").s))
  {
    seen', declared' := seen, declared;
    if !IsPositiveId(Get(schema, "type_id")) {
      result.Error(BadTypeId);
      return;
    }
    var typeId := AsInt(Get(schema, "type_id")).value;
    result.Check(typeId !in seen, DuplicateTypeId);
    seen' := seen + {typeId};
    var name := Get(schema, "name");
    if !NonBlank(name) {
      result.Error(BlankName);
    } else if typeId in declared && declared[typeId] != name.s {
      result.Error(NameConflict);
    } else {
      declared' := declared[typeId := name.s];
    }
    result.Check(Get(schema, "defaults").Obj?, BadDefaults);
    result.Check(SourceOk(schema), BadSource);
  }

  method CollectSchemas(reserved: map<int, Text>, objs: seq<Json>, result: ValidationResult)
      returns (declared: map<int, Text>)
    modifies result`errors
    ensures declared == BindAll(reserved, BindingsOf(objs))
    ensures Reported(old(result.errors), result.errors, SchemasOk(reserved, objs))
  {
    declared := reserved;
    var seen: set<int> := {};
    var i := 0;
    while i < |objs|
      invariant 0 <= i <= |objs|
      invariant declared == BindAll(reserved, BindingsOf(objs[..i])) && seen == TypeIdSet(objs[..i])
      invariant Reported(old(result.errors), result.errors, SchemasOk(reserved, objs[..i]))
    {
      SchemasStep(reserved, objs, i);
      EnterStep(reserved, objs, i);
      seen, declared := CheckSchema(objs[i], seen, declared, result);
      i := i + 1;
    }
    assert objs[..i] == objs;
  }

  method CheckComponent(component: Json, seen: set<int>, declared: map<int, Text>, result: ValidationResult)
      returns (seen': set<int>, declared': map<int, Text>)
    modifies result`errors, result`warnings
    ensures seen' == seen + if TypeId(component) > 0 then {TypeId(component)} else {}
    ensures declared' == Enter(declared, component)
    ensures Reported(old(result.errors), result.errors, ComponentOk(component) && TypeId(component) !in seen)
  {
    seen', declared' := seen, declared;
    if !IsPositiveId(Get(component, "type_id")) {
      result.Error(BadTypeId);
      return;
    }
    var typeId := AsInt(Get(component, "type_id")).value;
    result.Check(typeId !in seen, DuplicateTypeId);
    seen' := seen + {typeId};
    var name := Get(component, "name");
    if !NonBlank(name) {
      result.Error(BlankName);
    } else if typeId in declared && declared[typeId] != name.s {
      result.Warn(NameConflict);
    } else {
      declared' := declared[typeId := name.s];
    }
    result.Check(Get(component, "defaults").Obj?, BadDefaults);
  }

  method CheckComponents(objs: seq<Json>, table: map<int, Text>, result: ValidationResult)
      returns (declared: map<int, Text>)
    modifies result`errors, result`warnings
    ensures declared == BindAll(table, BindingsOf(objs))
    ensures Reported(old(result.errors), result.errors, ComponentsOk(objs))
  {
    declared := table;
    var seen: set<int> := {};
    var i := 0;
    while i < |objs|
      invariant 0 <= i <= |objs|
      invariant declared == BindAll(table, BindingsOf(objs[..i])) && seen == TypeIdSet(objs[..i])
      invariant Reported(old(result.errors), result.errors, ComponentsOk(objs[..i]))
    {
      assert objs[..i + 1][..i] == objs[..i];
      EnterStep(table, objs, i);
      seen, declared := CheckComponent(objs[i], seen, declared, result);
      i := i + 1;
    }
    assert objs[..i] == objs;
  }

  /** An actor's id, and the one mode it may live in. */
  method OwnActor(actor: Json, modeId: Text, owned: map<Text, Text>, result: ValidationResult)
      returns (owners: map<Text, Text>)
    modifies result`errors, result`warnings
    ensures owners == AddOwner(owned, actor, modeId)
    ensures Reported(old(result.errors), result.errors, HasId(actor) && OwnerFits(owned, actor, modeId))
  {
    owners := owned;
    var actorId := RequireId(actor, result);
    if actorId != [] {
      if actorId !in owners {
        owners := owners[actorId := modeId];
      }
      result.Check(owners[actorId] == modeId, ActorInTwoModes);
    }
  }

  /** One actor of a mode: its id, the mode it belongs to, its own fields. */
  method CollectActor(actor: Json, modeId: Text, table: map<int, Text>, owned: map<Text, Text>,
          result: ValidationResult)
      returns (declared: map<int, Text>, owners: map<Text, Text>)
    modifies result`errors, result`warnings
    ensures declared == BindAll(table, BindingsOf(Objects(Items(actor, "components"))))
    ensures owners == AddOwner(owned, actor, modeId)
    ensures Reported(old(result.errors), result.errors, ActorOk(actor) && OwnerFits(owned, actor, modeId))
  {
    owners := OwnActor(actor, modeId, owned, result);
    result.Check(SpawnOk(actor), BadSpawnCount);
    var components := CheckArrayField(actor, "components", result);
    var objs := FilterObjects(components, result);
    declared := CheckComponents(objs, table, result);
  }

  lemma ActorsStep(objs: seq<Json>, i: nat, modeId: Text, table: map<int, Text>, owned: map<Text, Text>)
    requires i < |objs|
    ensures BindAll(table, ActorBindings(objs[..i + 1]))
      == BindAll(BindAll(table, ActorBindings(objs[..i])), BindingsOf(Objects(Items(objs[i], "components"))))
    ensures OwnersAfter(owned, objs[..i + 1], modeId)
      == AddOwner(OwnersAfter(owned, objs[..i], modeId), objs[i], modeId)
    ensures ActorsOk(objs[..i + 1]) <==> ActorsOk(objs[..i]) && ActorOk(objs[i])
    ensures ActorsFit(owned, objs[..i + 1], modeId)
      <==> ActorsFit(owned, objs[..i], modeId) && OwnerFits(OwnersAfter(owned, objs[..i], modeId), objs[i], modeId)
  {
    assert objs[..i + 1][..i] == objs[..i];
    BindAllConcat(table, ActorBindings(objs[..i]), BindingsOf(Objects(Items(objs[i], "components"))));
  }

  method CollectActorList(objs: seq<Json>, modeId: Text, table: map<int, Text>, owned: map<Text, Text>,
          result: ValidationResult)
      returns (declared: map<int, Text>, owners: map<Text, Text>)
    modifies result`errors, result`warnings
    ensures declared == BindAll(table, ActorBindings(objs))
    ensures owners == OwnersAfter(owned, objs, modeId)
    ensures Reported(old(result.errors), result.errors, ActorsOk(objs) && ActorsFit(owned, objs, modeId))
  {
    declared, owners := table, owned;
    var i := 0;
    while i < |objs|
      invariant 0 <= i <= |objs|
      invariant declared == BindAll(table, ActorBindings(objs[..i]))
      invariant owners == OwnersAfter(owned, objs[..i], modeId)
      invariant Reported(old(result.errors), result.errors, ActorsOk(objs[..i]) && ActorsFit(owned, objs[..i], modeId))
    {
      ActorsStep(objs, i, modeId, table, owned);
      declared, owners := CollectActor(objs[i], modeId, declared, owners, result);
      i := i + 1;
    }
    assert objs[..i] == objs;
  }

  method CollectActors(mode: Json, table: map<int, Text>, owned: map<Text, Text>, result: ValidationResult)
      returns (declared: map<int, Text>, owners: map<Text, Text>)
    modifies result`errors, result`warnings
    ensures declared == BindAll(table, ActorBindings(Objects(Items(mode, "actors"))))
    ensures owners == OwnersAfter(owned, Objects(Items(mode, "actors")), RequiredId(mode))
    ensures Reported(old(result.errors), result.errors,
      ModeActorsOk(mode) && ActorsFit(owned, Objects(Items(mode, "actors")), RequiredId(mode)))
  {
    var modeId := RequireId(mode, result);
    var actors := CheckArrayField(mode, "actors", result);
    var objs := FilterObjects(actors, result);
    declared, owners := CollectActorList(objs, modeId, table, owned, result);
  }

  lemma ModeActorsStep(objs: seq<Json>, i: nat, table: map<int, Text>)
    requires i < |objs|
    ensures var actors, modeId := Objects(Items(objs[i], "actors")), RequiredId(objs[i]);
      && BindAll(table, ModeBindings(objs[..i + 1]))
         == BindAll(BindAll(table, ModeBindings(objs[..i])), ActorBindings(actors))
      && ModeOwners(objs[..i + 1]) == OwnersAfter(ModeOwners(objs[..i]), actors, modeId)
      && (ModesActorsOk(objs[..i + 1]) <==> ModesActorsOk(objs[..i]) && ModeActorsOk(objs[i]))
      && (ModesFit(objs[..i + 1]) <==> ModesFit(objs[..i]) && ActorsFit(ModeOwners(objs[..i]), actors, modeId))
  {
    assert objs[..i + 1][..i] == objs[..i];
    BindAllConcat(table, ModeBindings(objs[..i]), ActorBindings(Objects(Items(objs[i], "actors"))));
  }

  method CollectModeActors(objs: seq<Json>, table: map<int, Text>, result: ValidationResult)
      returns (declared: map<int, Text>)
    modifies result`errors, result`warnings
    ensures declared == BindAll(table, ModeBindings(objs))
    ensures Reported(old(result.errors), result.errors, ModesActorsOk(objs) && ModesFit(objs))
  {
    declared := table;
    var owners: map<Text, Text> := map[];
    var i := 0;
    while i < |objs|
      invariant 0 <= i <= |objs|
      invariant declared == BindAll(table, ModeBindings(objs[..i])) && owners == ModeOwners(objs[..i])
      invariant Reported(old(result.errors), result.errors, ModesActorsOk(objs[..i]) && ModesFit(objs[..i]))
    {
      ModeActorsStep(objs, i, table);
      declared, owners := CollectActors(objs[i], declared, owners, result);
      i := i + 1;
    }
    assert objs[..i] == objs;
  }

  /** `collect_declared_components`. */
  method CollectDeclaredComponents(reserved: map<int, Text>, schemas: seq<Json>, modes: seq<Json>,
          result: ValidationResult)
      returns (declared: map<int, Text>)
    modifies result`errors, result`warnings
    ensures declared == ComponentTable(reserved, schemas, modes)
    ensures Reported(old(result.errors), result.errors, ComponentPassOk(reserved, schemas, modes))
  {
    var schemaObjects := FilterObjects(schemas, result);
    declared := CollectSchemas(reserved, schemaObjects, result);
    var objs := FilterObjects(modes, result);
    declared := CollectModeActors(objs, declared, result);
    BindAllConcat(reserved, BindingsOf(Objects(schemas)), ModeBindings(Objects(modes)));
  }

  // ======== System ids ========

  method CollectGlobalId(system: Json, ids: set<Text>, result: ValidationResult) returns (ids': set<Text>)
    modifies result`errors
    ensures ids' == ids + {RequiredId(system)}
    ensures Reported(old(result.errors), result.errors, HasId(system) && RequiredId(system) !in ids)
  {
    var systemId := RequireId(system, result);
    result.Check(systemId !in ids, DuplicateGlobalSystem);
    ids' := ids + {systemId};
  }

  method CollectGlobalIds(globals: seq<Json>, result: ValidationResult) returns (ids: set<Text>)
    modifies result`errors
    ensures ids == IdSet(Objects(globals))
    ensures Reported(old(result.errors), result.errors, AllObjects(globals) && GlobalIdsOk(Objects(globals)))
  {
    ids := {};
    var objs := FilterObjects(globals, result);
    var i := 0;
    while i < |objs|
      invariant 0 <= i <= |objs|
      invariant ids == IdSet(objs[..i])
      invariant Reported(old(result.errors), result.errors, AllObjects(globals) && GlobalIdsOk(objs[..i]))
    {
      assert objs[..i + 1][..i] == objs[..i];
      ids := CollectGlobalId(objs[i], ids, result);
      i := i + 1;
    }
    assert objs[..i] == objs;
  }

  /** One mode-level system id; `seen` maps those met so far to their mode. */
  method CollectModeId(system: Json, modeId: Text, seen: map<Text, Text>, known: set<Text>, result: ValidationResult)
      returns (seen': map<Text, Text>, known': set<Text>)
    modifies result`errors, result`warnings
    ensures seen'.Keys == seen.Keys + if RequiredId(system) != [] then {RequiredId(system)} else {}
    ensures known' == known + if RequiredId(system) != [] then {RequiredId(system)} else {}
    ensures Reported(old(result.errors), result.errors,
      HasId(system) && (RequiredId(system) != [] ==> RequiredId(system) !in seen))
  {
    seen', known' := seen, known;
    var systemId := RequireId(system, result);
    if systemId != [] {
      result.Check(systemId !in seen, DuplicateModeSystem);
      if systemId in known {
        result.Warn(OverridesGlobalSystem);
      }
      seen' := seen[systemId := modeId];
      known' := known + {systemId};
    }
  }

  method CollectModeIdList(objs: seq<Json>, modeId: Text, seen: map<Text, Text>, known: set<Text>,
          result: ValidationResult)
      returns (seen': map<Text, Text>, known': set<Text>)
    modifies result`errors, result`warnings
    ensures seen'.Keys == Seen(seen.Keys, objs) && known' == Seen(known, objs)
    ensures Reported(old(result.errors), result.errors, NewIds(seen.Keys, objs))
  {
    seen', known' := seen, known;
    var i := 0;
    while i < |objs|
      invariant 0 <= i <= |objs|
      invariant seen'.Keys == Seen(seen.Keys, objs[..i]) && known' == Seen(known, objs[..i])
      invariant Reported(old(result.errors), result.errors, NewIds(seen.Keys, objs[..i]))
    {
      assert objs[..i + 1][..i] == objs[..i];
      seen', known' := CollectModeId(objs[i], modeId, seen', known', result);
      i := i + 1;
    }
    assert objs[..i] == objs;
  }

  method CollectModeIds(mode: Json, seen: map<Text, Text>, known: set<Text>, result: ValidationResult)
      returns (seen': map<Text, Text>, known': set<Text>)
    modifies result`errors, result`warnings
    ensures seen'.Keys == Seen(seen.Keys, Objects(Items(mode, "systems")))
    ensures known' == Seen(known, Objects(Items(mode, "systems")))
    ensures Reported(old(result.errors), result.errors, ModeSystemsListed(seen.Keys, mode))
  {
    var modeId := RequireId(mode, result);
    var systems := CheckArrayField(mode, "systems", result);
    var objs := FilterObjects(systems, result);
    seen', known' := CollectModeIdList(objs, modeId, seen, known, result);
  }

  lemma {:induction false} SeenUnion(a: set<Text>, b: set<Text>, systems: seq<Json>)
    ensures Seen(a + b, systems) == a + Seen(b, systems)
  {
    if systems != [] {
      SeenUnion(a, b, systems[..|systems| - 1]);
    }
  }

  method CollectAllModeIds(objs: seq<Json>, globals: set<Text>, result: ValidationResult) returns (ids: set<Text>)
    modifies result`errors, result`warnings
    ensures ids == globals + ModeSeen(objs)
    ensures Reported(old(result.errors), result.errors, ModesListed(objs))
  {
    ids := globals;
    var seen: map<Text, Text> := map[];
    var i := 0;
    while i < |objs|
      invariant 0 <= i <= |objs|
      invariant seen.Keys == ModeSeen(objs[..i]) && ids == globals + ModeSeen(objs[..i])
      invariant Reported(old(result.errors), result.errors, ModesListed(objs[..i]))
    {
      assert objs[..i + 1][..i] == objs[..i];
      SeenUnion(globals, ModeSeen(objs[..i]), Objects(Items(objs[i], "systems")));
      seen, ids := CollectModeIds(objs[i], seen, ids, result);
      i := i + 1;
    }
    assert objs[..i] == objs;
  }

  /** `collect_system_ids`. */
  method CollectSystemIds(globals: seq<Json>, modes: seq<Json>, result: ValidationResult) returns (ids: set<Text>)
    modifies result`errors, result`warnings
    ensures ids == SystemIds(globals, modes)
    ensures Reported(old(result.errors), result.errors, SystemIdPassOk(globals, modes))
  {
    ids := CollectGlobalIds(globals, result);
    var objs := FilterObjects(modes, result);
    ids := CollectAllModeIds(objs, ids, result);
  }

  // ======== Modes and rules ========

  method CheckRule(rule: Json, seen: set<Text>, result: ValidationResult) returns (seen': set<Text>)
    modifies result`errors
    ensures seen' == seen + {RequiredId(rule)}
    ensures Reported(old(result.errors), result.errors, RuleOk(rule) && RequiredId(rule) !in seen)
  {
    var ruleId := RequireId(rule, result);
    result.Check(ruleId !in seen, DuplicateRule);
    seen' := seen + {ruleId};
    result.Check(Get(rule, "condition").Str?, BadRuleField);
    result.Check(Get(rule, "effect").Str?, BadRuleField);
    result.Check(AsInt(Get(rule, "priority")).Some?, BadRuleField);
    result.Check(Get(rule, "is_active").Bool?, BadRuleField);
  }

  /** `check_rules`. */
  method CheckRules(rules: seq<Json>, result: ValidationResult)
    modifies result`errors
    ensures Reported(old(result.errors), result.errors, RulesOk(rules))
  {
    var seen: set<Text> := {};
    var objs := FilterObjects(rules, result);
    var i := 0;
    while i < |objs|
      invariant 0 <= i <= |objs|
      invariant seen == IdSet(objs[..i])
      invariant Reported(old(result.errors), result.errors, AllObjects(rules) && RuleListOk(objs[..i]))
    {
      assert objs[..i + 1][..i] == objs[..i];
      seen := CheckRule(objs[i], seen, result);
      i := i + 1;
    }
    assert objs[..i] == objs;
  }

  method CheckMode(mode: Json, seen: set<Text>, result: ValidationResult) returns (seen': set<Text>, isDefault: bool)
    modifies result`errors
    ensures seen' == seen + {RequiredId(mode)} && isDefault == IsDefault(mode)
    ensures Reported(old(result.errors), result.errors, ModeOk(mode) && RequiredId(mode) !in seen)
  {
    var modeId := RequireId(mode, result);
    result.Check(modeId !in seen, DuplicateMode);
    seen' := seen + {modeId};
    result.Check(IsSemver(Get(mode, "schema_version")), BadVersion);
    var flag := Get(mode, "is_default");
    isDefault := false;
    if !flag.Bool? {
      result.Error(BadFlag);
    } else if flag.b {
      isDefault := true;
    }
    CheckModeLists(mode, result);
  }

  method CheckModeLists(mode: Json, result: ValidationResult)
    modifies result`errors
    ensures Reported(old(result.errors), result.errors,
      Get(mode, "actors").Arr? && Get(mode, "systems").Arr? && Get(mode, "rules").Arr? && RulesOk(Items(mode, "rules")))
  {
    var actors := CheckArrayField(mode, "actors", result);
    var systems := CheckArrayField(mode, "systems", result);
    var rules := CheckArrayField(mode, "rules", result);
    CheckRules(rules, result);
  }

  /** `check_modes`. */
  method CheckModes(modes: seq<Json>, result: ValidationResult)
    modifies result`errors
    ensures Reported(old(result.errors), result.errors, ModePassOk(modes))
  {
    if modes == [] {
      result.Error(NoModes);
      return;
    }
    var objs := FilterObjects(modes, result);
    var defaultCount := CheckModeList(objs, result);
    result.Check(defaultCount == 1, NotOneDefault);
  }

  lemma ModesStep(objs: seq<Json>, i: nat)
    requires i < |objs|
    ensures IdSet(objs[..i + 1]) == IdSet(objs[..i]) + {RequiredId(objs[i])}
    ensures DefaultCount(objs[..i + 1]) == DefaultCount(objs[..i]) + if IsDefault(objs[i]) then 1 else 0
    ensures ModeListOk(objs[..i + 1])
      <==> ModeListOk(objs[..i]) && ModeOk(objs[i]) && RequiredId(objs[i]) !in IdSet(objs[..i])
  {
    assert objs[..i + 1][..i] == objs[..i];
  }

  /** The loop over the modes. */
  method CheckModeList(objs: seq<Json>, result: ValidationResult) returns (defaultCount: nat)
    modifies result`errors
    ensures defaultCount == DefaultCount(objs)
    ensures Reported(old(result.errors), result.errors, ModeListOk(objs))
  {
    var modeIds: set<Text> := {};
    defaultCount := 0;
    var i := 0;
    while i < |objs|
      invariant 0 <= i <= |objs|
      invariant modeIds == IdSet(objs[..i]) && defaultCount == DefaultCount(objs[..i])
      invariant Reported(old(result.errors), result.errors, ModeListOk(objs[..i]))
    {
      ModesStep(objs, i);
      var isDefault;
      modeIds, isDefault := CheckMode(objs[i], modeIds, result);
      if isDefault {
        defaultCount := defaultCount + 1;
      }
      i := i + 1;
    }
    assert objs[..i] == objs;
  }

  // ======== Systems ========

  method CheckAccess(v: Json, declared: set<int>, result: ValidationResult)
    modifies result`errors
    ensures Reported(old(result.errors), result.errors, AccessOk(v, declared))
  {
    if !v.Arr? {
      result.Error(BadAccess);
      return;
    }
    var i := 0;
    while i < |v.items|
      invariant 0 <= i <= |v.items|
      invariant Reported(old(result.errors), result.errors,
        AccessItemsOk(v.items[..i], declared))
    {
      assert v.items[..i + 1][..i] == v.items[..i];
      if !IsPositiveId(v.items[i]) {
        result.Error(BadTypeId);
      } else if AsInt(v.items[i]).value !in declared {
        result.Error(UndeclaredComponent);
      }
      i := i + 1;
    }
    assert v.items[..i] == v.items;
  }

  method CheckDependencies(v: Json, self: Text, known: set<Text>, result: ValidationResult)
    modifies result`errors
    ensures Reported(old(result.errors), result.errors, DependenciesOk(v, self, known))
  {
    if !v.Arr? {
      result.Error(BadDependency);
      return;
    }
    var i := 0;
    while i < |v.items|
      invariant 0 <= i <= |v.items|
      invariant Reported(old(result.errors), result.errors,
        DependencyItemsOk(v.items[..i], self, known))
    {
      assert v.items[..i + 1][..i] == v.items[..i];
      var dep := v.items[i];
      if !NonBlank(dep) {
        result.Error(BadDependency);
      } else if dep.s == self {
        result.Error(SelfDependency);
      } else if dep.s !in known {
        result.Error(UnknownDependency);
      }
      i := i + 1;
    }
    assert v.items[..i] == v.items;
  }

  method CheckPhase(phase: Json, result: ValidationResult)
    modifies result`errors, result`warnings
    ensures Reported(old(result.errors), result.errors, phase.Str? && phase.s in CANONICAL_PHASES)
    ensures result.warnings == old(result.warnings) + if phase == Str(Lit("Render")) then [RenderPhase] else []
  {
    if !phase.Str? || phase.s !in CANONICAL_PHASES {
      result.Error(BadPhase);
    } else if phase.s == Lit("Render") {
      result.Warn(RenderPhase);
    }
  }

  /** `check_system`. */
  method CheckSystem(system: Json, known: set<Text>, declared: set<int>, result: ValidationResult)
    modifies result`errors, result`warnings
    ensures Reported(old(result.errors), result.errors, SystemOk(system, known, declared))
  {
    var systemId := RequireId(system, result);
    CheckPhase(Get(system, "phase"), result);
    CheckAccess(Get(system, "reads"), declared, result);
    CheckAccess(Get(system, "writes"), declared, result);
    CheckDependencies(Get(system, "depends_on"), systemId, known, result);
    CheckSystemFlags(system, result);
  }

  method CheckSystemFlags(system: Json, result: ValidationResult)
    modifies result`errors
    ensures Reported(old(result.errors), result.errors,
      && Get(system, "deterministic").Bool?
      && (Has(system, "parallel") ==> Get(system, "parallel").Bool?)
      && (Has(system, "runtime_executor") ==> Get(system, "runtime_executor").Obj?))
  {
    result.Check(Get(system, "deterministic").Bool?, BadFlag);
    result.Check(Has(system, "parallel") ==> Get(system, "parallel").Bool?, BadFlag);
    result.Check(Has(system, "runtime_executor") ==> Get(system, "runtime_executor").Obj?, BadExecutor);
  }

  method CheckSystemList(systems: seq<Json>, known: set<Text>, declared: set<int>, result: ValidationResult)
    modifies result`errors, result`warnings
    ensures Reported(old(result.errors), result.errors, SystemListOk(systems, known, declared))
  {
    var objs := FilterObjects(systems, result);
    var i := 0;
    while i < |objs|
      invariant 0 <= i <= |objs|
      invariant Reported(old(result.errors), result.errors,
        AllObjects(systems) && SystemObjectsOk(objs[..i], known, declared))
    {
      assert objs[..i + 1][..i] == objs[..i];
      CheckSystem(objs[i], known, declared, result);
      i := i + 1;
    }
    assert objs[..i] == objs;
  }

  /** `check_systems`; a mode whose systems field is no array is passed over here. */
  method CheckSystems(globals: seq<Json>, modes: seq<Json>, known: set<Text>, declared: set<int>,
          result: ValidationResult)
    modifies result`errors, result`warnings
    ensures Reported(old(result.errors), result.errors, SystemPassOk(globals, modes, known, declared))
  {
    CheckSystemList(globals, known, declared, result);
    var objs := FilterObjects(modes, result);
    CheckModeSystems(objs, known, declared, result);
  }

  method CheckModeSystems(objs: seq<Json>, known: set<Text>, declared: set<int>, result: ValidationResult)
    modifies result`errors, result`warnings
    ensures Reported(old(result.errors), result.errors, ModeSystemsOk(objs, known, declared))
  {
    var i := 0;
    while i < |objs|
      invariant 0 <= i <= |objs|
      invariant Reported(old(result.errors), result.errors, ModeSystemsOk(objs[..i], known, declared))
    {
      assert objs[..i + 1][..i] == objs[..i];
      if Get(objs[i], "systems").Arr? {
        CheckSystemList(Get(objs[i], "systems").items, known, declared, result);
      } else {
        assert SystemListOk([], known, declared);
      }
      i := i + 1;
    }
    assert objs[..i] == objs;
  }

  // ======== Hash and whole document ========

  /** Errors and warnings with one more issue: a warning when it is allowed, an error when not. */
  function Issued(errors: seq<Issue>, warnings: seq<Issue>, issue: Issue, allowed: bool): (seq<Issue>, seq<Issue>) {
    if allowed then (errors, warnings + [issue]) else (errors + [issue], warnings)
  }

  /** `check_hash`; true when the draft lookup raises. */
  method CheckHash(p: CgsHash.Platform, cgs: Json, metadata: Json, result: ValidationResult, allowLegacy: bool,
          allowDraft: bool)
      returns (raised: bool)
    requires cgs.Obj? && metadata.Obj?
    modifies result
    ensures raised <==> HashRaises(CgsHash.DeclaredHash(metadata))
    ensures result.declaredHash == CgsHash.DeclaredHash(metadata) && result.computedHash == CgsHash.ComputeHash(p, cgs)
    ensures !raised ==> Reported(old(result.errors), result.errors,
      HashOk(CgsHash.DeclaredHash(metadata), CgsHash.ComputeHash(p, cgs), allowLegacy, allowDraft))
    ensures !raised ==>
      (result.errors, result.warnings) == var d := CgsHash.DeclaredHash(metadata);
        if d.Str? && (d.s == [] || d.s == Lit("unresolved") || CgsHash.AllZeros(d.s)) then
          Issued(old(result.errors), old(result.warnings), DraftHash, allowDraft)
        else if !d.Str? || |d.s| != 64 || !CgsHash.IsDigest(d.s) then
          Issued(old(result.errors), old(result.warnings), MalformedHash,
                 allowLegacy && d.Str? && (|d.s| == 8 || |d.s| == 16))
        else if d == Str(Lit(CgsHash.ComputeHash(p, cgs))) then (old(result.errors), old(result.warnings))
        else Issued(old(result.errors), old(result.warnings), HashMismatch, false)
  {
    var declared := CgsHash.DeclaredHash(metadata);
    var computed := CgsHash.ComputeHash(p, cgs);
    result.declaredHash, result.computedHash := declared, computed;
    if declared.Str? {
      CgsHash.AllZerosIff(declared.s);
    }
    if declared.Arr? || declared.Obj? {
      return true;
    }
    raised := false;
    if CgsHash.IsDraft(declared) {
      if allowDraft {
        result.Warn(DraftHash);
      } else {
        result.Error(DraftHash);
      }
      return;
    }
    if !declared.Str? || !CgsHash.IsDigest(declared.s) {
      if allowLegacy && declared.Str? && (|declared.s| == 8 || |declared.s| == 16) {
        result.Warn(MalformedHash);
      } else {
        result.Error(MalformedHash);
      }
      return;
    }
    result.Check(declared == Str(Lit(computed)), HashMismatch);
  }

  /** The errors of a check this model leaves abstract. */
  method AddErrors(count: nat, result: ValidationResult)
    modifies result`errors
    ensures Reported(old(result.errors), result.errors, count == 0)
  {
    for i := 0 to count
      invariant old(result.errors) <= result.errors && |result.errors| == |old(result.errors)| + i
    {
      result.Error(Elsewhere);
    }
  }

  /** `validate_cgs`: clean exactly when every pass is, unless a lookup raises. */
  method ValidateCgs(p: CgsHash.Platform, reserved: map<int, Text>, x: Extras, cgs: Json, result: ValidationResult,
                     allowLegacy: bool, allowDraft: bool) returns (raised: bool)
    modifies result
    ensures raised <==> Raises(x, cgs)
    ensures !raised ==> Reported(old(result.errors), result.errors,
      PassesOk(p, reserved, x, cgs, allowLegacy, allowDraft))
  {
    if !cgs.Obj? {
      result.Error(NotAnObject);
      return false;
    }
    CheckTopLevel(cgs, result);
    var metadata := CheckMetadata(cgs, result);
    var modes := CheckArrayField(cgs, "modes", result);
    var globals := CheckArrayField(cgs, "global_systems", result);
    var schemas := CheckOptionalArray(cgs, "component_schemas", result);
    var events := CheckOptionalArray(cgs, "semantic_events", result);
    var assets := CheckOptionalArray(cgs, "assets", result);
    var declared := CollectDeclaredComponents(reserved, schemas, modes, result);
    var systemIds := CollectSystemIds(globals, modes, result);
    CheckModes(modes, result);
    CheckSystems(globals, modes, systemIds, declared.Keys, result);
    var eventErrors := x.events(events);
    if eventErrors.None? {
      return true;
    }
    AddErrors(eventErrors.value, result);
    AddErrors(x.assets(assets), result);
    raised := CheckHash(p, cgs, metadata, result, allowLegacy, allowDraft);
  }
}
