// What each validation pass demands of the part of the document it reads.

module CgsRules {
  import opened Texts
  import opened Json
  import opened CgsModel
  import CgsHash
  import opened Wrappers

  // ======== Header ========

  const FORMAT_NAME := Str(Lit("xace.cgs.export"))

  predicate TopLevelOk(cgs: Json) {
    && Has(cgs, "metadata") && Has(cgs, "global_systems") && Has(cgs, "modes")
    && (Get(cgs, "format") == Null || Get(cgs, "format_version") == Null
        || (Get(cgs, "format") == FORMAT_NAME && IsSemver(Get(cgs, "format_version"))))
  }

  predicate MetadataOk(cgs: Json) {
    var md := Get(cgs, "metadata");
    && md.Obj?
    && Has(md, "name") && Has(md, "version") && Has(md, "schema_version") && Has(md, "cgs_hash")
    && NonBlank(Get(md, "name")) && IsSemver(Get(md, "version")) && IsSemver(Get(md, "schema_version"))
  }

  predicate OptionalArrayOk(o: Json, name: string) {
    Get(o, name) == Null || Get(o, name).Arr?
  }

  // ======== Components ========

  predicate SourceOk(o: Json) {
    Get(o, "source") == Null || NonBlank(Get(o, "source"))
  }

  /** A component schema on its own. */
  predicate SchemaOk(s: Json) {
    Names(s) && Get(s, "defaults").Obj? && SourceOk(s)
  }

  /** A schema for a reserved id repeats the reserved name. */
  predicate KeepsReservedName(reserved: map<int, Text>, s: Json) {
    TypeId(s) in reserved && NonBlank(Get(s, "name")) ==> reserved[TypeId(s)] == Get(s, "name").s
  }

  /** Schemas in order: each fine on its own, none reusing an id or renaming a reserved one. */
  predicate SchemasOk(reserved: map<int, Text>, os: seq<Json>) {
    os == []
    || (var init, last := os[..|os| - 1], os[|os| - 1];
        SchemasOk(reserved, init) && SchemaOk(last) && KeepsReservedName(reserved, last)
          && TypeId(last) !in TypeIdSet(init))
  }

  predicate ComponentOk(c: Json) {
    Names(c) && Get(c, "defaults").Obj?
  }

  predicate ComponentsOk(os: seq<Json>) {
    os == []
    || (var init, last := os[..|os| - 1], os[|os| - 1];
        ComponentsOk(init) && ComponentOk(last) && TypeId(last) !in TypeIdSet(init))
  }

  /** `actor.get("spawn_count", 1)` is an integer of at least 1. */
  predicate SpawnOk(actor: Json) {
    var count := AsInt(Get(actor, "spawn_count"));
    !Has(actor, "spawn_count") || (count.Some? && count.value >= 1)
  }

  predicate HasId(o: Json) {
    NonBlank(Get(o, "id"))
  }

  predicate ActorBodyOk(actor: Json) {
    && SpawnOk(actor)
    && Get(actor, "components").Arr? && AllObjects(Get(actor, "components").items)
    && ComponentsOk(Objects(Items(actor, "components")))
  }

  predicate ActorOk(actor: Json) {
    HasId(actor) && ActorBodyOk(actor)
  }

  predicate ActorsOk(os: seq<Json>) {
    os == [] || (ActorsOk(os[..|os| - 1]) && ActorOk(os[|os| - 1]))
  }

  predicate ModeActorsOk(mode: Json) {
    && HasId(mode)
    && Get(mode, "actors").Arr? && AllObjects(Get(mode, "actors").items)
    && ActorsOk(Objects(Items(mode, "actors")))
  }

  predicate ModesActorsOk(os: seq<Json>) {
    os == [] || (ModesActorsOk(os[..|os| - 1]) && ModeActorsOk(os[|os| - 1]))
  }

  // ---- The table from actor id to the mode it was first met in ----

  /** `actor_ids.setdefault(actor_id, mode_id)`, for actors with a usable id. */
  function AddOwner(owners: map<Text, Text>, actor: Json, modeId: Text): map<Text, Text> {
    if RequiredId(actor) == [] || RequiredId(actor) in owners then owners
    else owners[RequiredId(actor) := modeId]
  }

  function OwnersAfter(owners: map<Text, Text>, actors: seq<Json>, modeId: Text): map<Text, Text> {
    if actors == [] then owners
    else AddOwner(OwnersAfter(owners, actors[..|actors| - 1], modeId), actors[|actors| - 1], modeId)
  }

  function ModeOwners(modes: seq<Json>): map<Text, Text> {
    if modes == [] then map[]
    else
      var last := modes[|modes| - 1];
      OwnersAfter(ModeOwners(modes[..|modes| - 1]), Objects(Items(last, "actors")), RequiredId(last))
  }

  /** The actor is new, or was met under this very mode id. */
  predicate OwnerFits(owners: map<Text, Text>, actor: Json, modeId: Text) {
    RequiredId(actor) in owners && RequiredId(actor) != [] ==> owners[RequiredId(actor)] == modeId
  }

  predicate ActorsFit(owners: map<Text, Text>, actors: seq<Json>, modeId: Text) {
    actors == []
    || (var init := actors[..|actors| - 1];
        ActorsFit(owners, init, modeId) && OwnerFits(OwnersAfter(owners, init, modeId), actors[|actors| - 1], modeId))
  }

  predicate ModesFit(modes: seq<Json>) {
    modes == []
    || (var init, last := modes[..|modes| - 1], modes[|modes| - 1];
        ModesFit(init) && ActorsFit(ModeOwners(init), Objects(Items(last, "actors")), RequiredId(last)))
  }

  predicate ComponentPassOk(reserved: map<int, Text>, schemas: seq<Json>, modes: seq<Json>) {
    && AllObjects(schemas) && SchemasOk(reserved, Objects(schemas))
    && AllObjects(modes) && ModesActorsOk(Objects(modes)) && ModesFit(Objects(modes))
  }

  // ======== System ids ========

  predicate GlobalIdsOk(os: seq<Json>) {
    os == []
    || (var init, last := os[..|os| - 1], os[|os| - 1];
        GlobalIdsOk(init) && HasId(last) && RequiredId(last) !in IdSet(init))
  }

  /** The ids met after these systems as well. */
  function Seen(before: set<Text>, systems: seq<Json>): set<Text> {
    if systems == [] then before
    else
      var id := RequiredId(systems[|systems| - 1]);
      Seen(before, systems[..|systems| - 1]) + if id != [] then {id} else {}
  }

  /** All mode-level system ids met. */
  function ModeSeen(modes: seq<Json>): set<Text> {
    if modes == [] then {}
    else Seen(ModeSeen(modes[..|modes| - 1]), Objects(Items(modes[|modes| - 1], "systems")))
  }

  /** Each system has an id not met before. */
  predicate NewIds(before: set<Text>, systems: seq<Json>) {
    systems == []
    || (var init, last := systems[..|systems| - 1], systems[|systems| - 1];
        NewIds(before, init) && HasId(last) && RequiredId(last) !in Seen(before, init))
  }

  predicate ModeSystemsListed(before: set<Text>, mode: Json) {
    && HasId(mode)
    && Get(mode, "systems").Arr? && AllObjects(Get(mode, "systems").items)
    && NewIds(before, Objects(Items(mode, "systems")))
  }

  predicate ModesListed(modes: seq<Json>) {
    modes == []
    || (var init := modes[..|modes| - 1];
        ModesListed(init) && ModeSystemsListed(ModeSeen(init), modes[|modes| - 1]))
  }

  predicate SystemIdPassOk(globals: seq<Json>, modes: seq<Json>) {
    && AllObjects(globals) && GlobalIdsOk(Objects(globals))
    && AllObjects(modes) && ModesListed(Objects(modes))
  }

  /** What `collect_system_ids` returns. */
  function SystemIds(globals: seq<Json>, modes: seq<Json>): set<Text> {
    IdSet(Objects(globals)) + ModeSeen(Objects(modes))
  }

  // ======== Modes and rules ========

  predicate RuleOk(r: Json) {
    && HasId(r) && Get(r, "condition").Str? && Get(r, "effect").Str?
    && AsInt(Get(r, "priority")).Some? && Get(r, "is_active").Bool?
  }

  predicate RuleListOk(os: seq<Json>) {
    os == []
    || (var init, last := os[..|os| - 1], os[|os| - 1];
        RuleListOk(init) && RuleOk(last) && RequiredId(last) !in IdSet(init))
  }

  predicate RulesOk(rules: seq<Json>) {
    AllObjects(rules) && RuleListOk(Objects(rules))
  }

  predicate ModeOk(mode: Json) {
    && HasId(mode) && IsSemver(Get(mode, "schema_version")) && Get(mode, "is_default").Bool?
    && Get(mode, "actors").Arr? && Get(mode, "systems").Arr? && Get(mode, "rules").Arr?
    && RulesOk(Items(mode, "rules"))
  }

  predicate ModeListOk(os: seq<Json>) {
    os == []
    || (var init, last := os[..|os| - 1], os[|os| - 1];
        ModeListOk(init) && ModeOk(last) && RequiredId(last) !in IdSet(init))
  }

  predicate IsDefault(mode: Json) {
    Get(mode, "is_default") == Bool(true)
  }

  function DefaultCount(os: seq<Json>): nat {
    if os == [] then 0
    else DefaultCount(os[..|os| - 1]) + if IsDefault(os[|os| - 1]) then 1 else 0
  }

  predicate ModePassOk(modes: seq<Json>) {
    modes != [] && AllObjects(modes) && ModeListOk(Objects(modes)) && DefaultCount(Objects(modes)) == 1
  }

  // ======== Systems ========

  const CANONICAL_PHASES: set<Text> := {
    Lit("Initialization"), Lit("Input"), Lit("Simulation"), Lit("PostSimulation"), Lit("Cleanup"), Lit("Render")}

  predicate AccessOk(v: Json, declared: set<int>) {
    v.Arr? && AccessItemsOk(v.items, declared)
  }

  predicate AccessItemsOk(items: seq<Json>, declared: set<int>) {
    items == []
    || (AccessItemsOk(items[..|items| - 1], declared)
        && IsPositiveId(items[|items| - 1]) && AsInt(items[|items| - 1]).value in declared)
  }

  predicate DependenciesOk(v: Json, self: Text, known: set<Text>) {
    v.Arr? && DependencyItemsOk(v.items, self, known)
  }

  predicate DependencyItemsOk(items: seq<Json>, self: Text, known: set<Text>) {
    items == []
    || (DependencyItemsOk(items[..|items| - 1], self, known)
        && NonBlank(items[|items| - 1]) && items[|items| - 1].s != self && items[|items| - 1].s in known)
  }

  predicate SystemOk(s: Json, known: set<Text>, declared: set<int>) {
    && NonBlank(Get(s, "id"))
    && Get(s, "phase").Str? && Get(s, "phase").s in CANONICAL_PHASES
    && AccessOk(Get(s, "reads"), declared) && AccessOk(Get(s, "writes"), declared)
    && DependenciesOk(Get(s, "depends_on"), RequiredId(s), known)
    && Get(s, "deterministic").Bool?
    && (Has(s, "parallel") ==> Get(s, "parallel").Bool?)
    && (Has(s, "runtime_executor") ==> Get(s, "runtime_executor").Obj?)
  }

  predicate SystemListOk(systems: seq<Json>, known: set<Text>, declared: set<int>) {
    AllObjects(systems) && SystemObjectsOk(Objects(systems), known, declared)
  }

  predicate SystemObjectsOk(os: seq<Json>, known: set<Text>, declared: set<int>) {
    os == [] || (SystemObjectsOk(os[..|os| - 1], known, declared) && SystemOk(os[|os| - 1], known, declared))
  }

  predicate SystemPassOk(globals: seq<Json>, modes: seq<Json>, known: set<Text>, declared: set<int>) {
    && SystemListOk(globals, known, declared)
    && AllObjects(modes) && ModeSystemsOk(Objects(modes), known, declared)
  }

  predicate ModeSystemsOk(os: seq<Json>, known: set<Text>, declared: set<int>) {
    os == []
    || (ModeSystemsOk(os[..|os| - 1], known, declared)
        && SystemListOk(Items(os[|os| - 1], "systems"), known, declared))
  }

  // ======== Hash ========

  /** Unhashable values make the draft lookup raise. */
  predicate HashRaises(declared: Json) {
    declared.Arr? || declared.Obj?
  }

  /** The hash check reports nothing, under the two allow flags. */
  predicate HashOk(declared: Json, computed: string, allowLegacy: bool, allowDraft: bool) {
    if CgsHash.IsDraft(declared) then allowDraft
    else if !declared.Str? || !CgsHash.IsDigest(declared.s) then
      allowLegacy && declared.Str? && (|declared.s| == 8 || |declared.s| == 16)
    else declared == Str(Lit(computed))
  }

  // ======== The whole document ========

  // Semantic events and assets are checked by rules this model does not spell
  // out: how many errors each check adds, None when checking raises.
  datatype Extras = Extras(events: seq<Json> -> Option<nat>, assets: seq<Json> -> nat)

  /** The metadata the hash check sees. */
  function MetadataOf(cgs: Json): Json {
    if Get(cgs, "metadata").Obj? then Get(cgs, "metadata") else Obj([])
  }

  predicate Raises(x: Extras, cgs: Json) {
    cgs.Obj? && (x.events(Items(cgs, "semantic_events")).None? || HashRaises(CgsHash.DeclaredHash(MetadataOf(cgs))))
  }

  /** Every pass reports nothing. */
  predicate PassesOk(p: CgsHash.Platform, reserved: map<int, Text>, x: Extras, cgs: Json, allowLegacy: bool,
          allowDraft: bool) {
    && cgs.Obj? && TopLevelOk(cgs) && MetadataOk(cgs)
    && Get(cgs, "modes").Arr? && Get(cgs, "global_systems").Arr?
    && OptionalArrayOk(cgs, "component_schemas") && OptionalArrayOk(cgs, "semantic_events")
    && OptionalArrayOk(cgs, "assets")
    && var schemas, modes := Items(cgs, "component_schemas"), Items(cgs, "modes");
    && var globals := Items(cgs, "global_systems");
    && ComponentPassOk(reserved, schemas, modes)
    && SystemIdPassOk(globals, modes)
    && ModePassOk(modes)
    && SystemPassOk(globals, modes, SystemIds(globals, modes), ComponentTable(reserved, schemas, modes).Keys)
    && x.events(Items(cgs, "semantic_events")) == Some(0) && x.assets(Items(cgs, "assets")) == 0
    && HashOk(CgsHash.DeclaredHash(MetadataOf(cgs)), CgsHash.ComputeHash(p, cgs), allowLegacy, allowDraft)
  }
}
