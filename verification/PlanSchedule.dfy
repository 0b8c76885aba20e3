// Flattening a persisted plan into its run order, and deciding whether it
// schedules every listed system exactly once.

module PlanSchedule {
  import opened Texts
  import opened Sorting
  import opened Lists
  import opened Json
  import opened Wrappers

  // The Python built-ins the flattening calls; None where the call raises.
  datatype Python = Python(
    isDigit: Text -> bool,           // text.isdigit()
    intOfText: Text -> Option<int>,  // int(text)
    intOf: Json -> Option<int>,      // int(value)
    str: Json -> Text)               // str(value)

  // ======== Sort keys ========

  // The key tuples (0, number) and (1, name) of phases.
  datatype Rank = Num(n: int) | Name(t: Text)

  predicate RankLe(a: Rank, b: Rank) {
    match (a, b)
    case (Num(m), Num(n)) => m <= n
    case (Num(_), Name(_)) => true
    case (Name(_), Num(_)) => false
    case (Name(s), Name(t)) => TextLe(s, t)
  }

  lemma RankLeTotal(a: Rank, b: Rank)
    ensures RankLe(a, b) || RankLe(b, a)
  {
    if a.Name? && b.Name? {
      TextLeTotal(a.t, b.t);
    }
  }

  lemma RankLeTransitive(a: Rank, b: Rank, c: Rank)
    requires RankLe(a, b) && RankLe(b, c)
    ensures RankLe(a, c)
  {
    if a.Name? && b.Name? && c.Name? {
      TextLeTransitive(a.t, b.t, c.t);
    }
  }

  lemma RankLeAntisymmetric(a: Rank, b: Rank)
    requires RankLe(a, b) && RankLe(b, a)
    ensures a == b
  {
    if a.Name? && b.Name? {
      TextLeAntisymmetric(a.t, b.t);
    }
  }

  /** The sort key of a phase. */
  function RankKey(py: Python, key: Text): (r: Option<Rank>)
    ensures r.None? <==> py.isDigit(key) && py.intOfText(key).None?
  {
    if !py.isDigit(key) then Some(Name(key))
    else
      var n :- py.intOfText(key);
      Some(Num(n))
  }

  /** Phases named by digits come first, by the number the digits spell; the others follow, by name. */
  lemma RanksBeforeIff(py: Python, a: Text, b: Text)
    requires RankKey(py, a).Some? && RankKey(py, b).Some?
    ensures RankLe(RankOf(py, a), RankOf(py, b)) <==>
      || (py.isDigit(a) && py.isDigit(b) && py.intOfText(a).value <= py.intOfText(b).value)
      || (py.isDigit(a) && !py.isDigit(b))
      || (!py.isDigit(a) && !py.isDigit(b) && TextLe(a, b))
  {}

  function RankOf(py: Python, key: Text): Rank {
    RankKey(py, key).UnwrapOr(Name(key))
  }

  /** The sort key of a group. */
  function ExecKey(py: Python, group: Json): Option<int> {
    if !group.Obj? then None
    else py.intOf(if Has(group, "execution_index") then Get(group, "execution_index") else Int(0))
  }

  function ExecOf(py: Python, group: Json): int {
    ExecKey(py, group).UnwrapOr(0)
  }

  // ======== The plan as written ========

  function PhasesOf(plan: Json): seq<Member> {
    if Get(plan, "phases").Obj? then Get(plan, "phases").members else []
  }

  /** The groups of a phase; a phase that is not an object or has no list of groups is skipped. */
  function GroupsOf(phase: Json): seq<Json> {
    if Get(phase, "groups").Arr? then Get(phase, "groups").items else []
  }

  function SystemsOf(group: Json): seq<Json> {
    if Get(group, "systems").Arr? then Get(group, "systems").items else []
  }

  /** No sort key of any phase or group raises. */
  predicate Runs(py: Python, phases: seq<Member>) {
    && (forall m | m in phases :: RankKey(py, m.key).Some?)
    && (forall m | m in phases :: GroupsRun(py, GroupsOf(m.value)))
  }

  predicate GroupsRun(py: Python, groups: seq<Json>) {
    forall g | g in groups :: ExecKey(py, g).Some?
  }

  // One scheduled system: its phase, its group's place in the phase's list, its place in the group.
  datatype Slot = Slot(phase: Text, rank: Rank, exec: int, group: nat, pos: nat, id: Text)

  // A group with its sort key and its place in the list.
  datatype Placement = Placement(index: nat, exec: int, group: Json)

  function Place(py: Python, groups: seq<Json>): (ps: seq<Placement>)
    ensures |ps| == |groups|
    ensures forall i :: 0 <= i < |ps| ==> ps[i] == Placement(i, ExecOf(py, groups[i]), groups[i])
  {
    seq(|groups|, i requires 0 <= i < |groups| => Placement(i, ExecOf(py, groups[i]), groups[i]))
  }

  function GroupSlots(py: Python, phase: Text, p: Placement): (slots: seq<Slot>)
    ensures |slots| == |SystemsOf(p.group)|
    ensures forall k :: 0 <= k < |slots| ==>
      slots[k] == Slot(phase, RankOf(py, phase), p.exec, p.index, k, py.str(SystemsOf(p.group)[k]))
  {
    var systems := SystemsOf(p.group);
    seq(|systems|, k requires 0 <= k < |systems| =>
      Slot(phase, RankOf(py, phase), p.exec, p.index, k, py.str(systems[k])))
  }

  function SlotsIn(py: Python, phase: Text): Placement -> seq<Slot> {
    (p: Placement) => GroupSlots(py, phase, p)
  }

  /** A phase's slots in document order. */
  function WrittenPhase(py: Python): Member -> seq<Slot> {
    (m: Member) => ConcatMap(SlotsIn(py, m.key), Place(py, GroupsOf(m.value)))
  }

  /** Every slot of the plan, in document order. */
  function Written(py: Python, phases: seq<Member>): seq<Slot> {
    ConcatMap(WrittenPhase(py), phases)
  }

  // ======== The run order ========

  predicate ByExec(a: Placement, b: Placement) {
    a.exec <= b.exec
  }

  function ByRank(py: Python): (Member, Member) -> bool {
    (a: Member, b: Member) => RankLe(RankOf(py, a.key), RankOf(py, b.key))
  }

  function RunGroups(py: Python, groups: seq<Json>): seq<Placement> {
    SortBy(Place(py, groups), ByExec)
  }

  function RunPhase(py: Python): Member -> seq<Slot> {
    (m: Member) => ConcatMap(SlotsIn(py, m.key), RunGroups(py, GroupsOf(m.value)))
  }

  function RunPhases(py: Python, phases: seq<Member>): seq<Member> {
    SortBy(phases, ByRank(py))
  }

  /** The slots in the order the flattening visits them. */
  function Scheduled(py: Python, phases: seq<Member>): seq<Slot> {
    ConcatMap(RunPhase(py), RunPhases(py, phases))
  }

  function IdOf(): Slot -> seq<Text> {
    (s: Slot) => [s.id]
  }

  function Ids(slots: seq<Slot>): seq<Text> {
    ConcatMap(IdOf(), slots)
  }

  lemma IdsAppend(a: seq<Slot>, b: seq<Slot>)
    ensures Ids(a + b) == Ids(a) + Ids(b)
  {
    ConcatMapAppend(IdOf(), a, b);
  }

  // ======== The flattening loops ========

  /** The innermost `extend`: the group's systems as texts. */
  method GroupIds(py: Python, phase: Text, p: Placement) returns (ids: seq<Text>)
    ensures ids == Ids(GroupSlots(py, phase, p))
  {
    var systems := SystemsOf(p.group);
    ghost var slots := GroupSlots(py, phase, p);
    ids := [];
    for k := 0 to |systems|
      invariant ids == Ids(slots[..k])
    {
      ids := ids + [py.str(systems[k])];
      ConcatMapUpTo(IdOf(), slots, k);
    }
    assert slots[..|systems|] == slots;
  }

  /** The loop over the sorted groups of a phase. */
  method PhaseIds(py: Python, phase: Text, groups: seq<Json>) returns (ids: seq<Text>)
    ensures ids == Ids(ConcatMap(SlotsIn(py, phase), RunGroups(py, groups)))
  {
    var placed := SortBy(Place(py, groups), ByExec);
    ids := [];
    for k := 0 to |placed|
      invariant ids == Ids(ConcatMap(SlotsIn(py, phase), placed[..k]))
    {
      var more := GroupIds(py, phase, placed[k]);
      ids := ids + more;
      ConcatMapUpTo(SlotsIn(py, phase), placed, k);
      IdsAppend(ConcatMap(SlotsIn(py, phase), placed[..k]), GroupSlots(py, phase, placed[k]));
    }
    assert placed[..|placed|] == placed;
  }

  /** `scheduled_system_ids_from_plan`, with ok false where it raises. */
  method ScheduledSystemIds(py: Python, plan: Json) returns (ok: bool, ids: seq<Text>)
    ensures ok <==> Runs(py, PhasesOf(plan))
    ensures ok ==> ids == Ids(Scheduled(py, PhasesOf(plan)))
  {
    var phases := PhasesOf(plan);
    ids := [];
    if !Runs(py, phases) {
      return false, [];
    }
    var sorted := SortBy(phases, ByRank(py));
    for k := 0 to |sorted|
      invariant ids == Ids(ConcatMap(RunPhase(py), sorted[..k]))
    {
      var more := PhaseIds(py, sorted[k].key, GroupsOf(sorted[k].value));
      ids := ids + more;
      ConcatMapUpTo(RunPhase(py), sorted, k);
      IdsAppend(ConcatMap(RunPhase(py), sorted[..k]), RunPhase(py)(sorted[k]));
    }
    assert sorted[..|sorted|] == sorted;
    ok := true;
  }

  // ======== Nothing is lost or invented ========

  lemma RunPhasePermutes(py: Python, m: Member)
    ensures multiset(RunPhase(py)(m)) == multiset(WrittenPhase(py)(m))
  {
    var placed := Place(py, GroupsOf(m.value));
    SortByPermutes(placed, ByExec);
    ConcatMapPermutes(SlotsIn(py, m.key), RunGroups(py, GroupsOf(m.value)), placed);
  }

  /** The run order is a rearrangement of the slots as written. */
  lemma FlatteningPermutes(py: Python, phases: seq<Member>)
    ensures multiset(Scheduled(py, phases)) == multiset(Written(py, phases))
  {
    SortByPermutes(phases, ByRank(py));
    ConcatMapPermutes(RunPhase(py), RunPhases(py, phases), phases);
    forall k | 0 <= k < |phases| ensures multiset(RunPhase(py)(phases[k])) == multiset(WrittenPhase(py)(phases[k])) {
      RunPhasePermutes(py, phases[k]);
    }
    ConcatMapSameParts(RunPhase(py), WrittenPhase(py), phases);
  }

  /** A slot of the plan is a system at some place of some group of some phase. */
  lemma WrittenIff(py: Python, phases: seq<Member>, s: Slot)
    ensures s in Written(py, phases) <==>
      exists p, g :: 0 <= p < |phases| && 0 <= g < |GroupsOf(phases[p].value)| && IsSlot(py, phases[p], g, s)
  {
    ConcatMapSource(WrittenPhase(py), phases, s);
    forall p | 0 <= p < |phases|
      ensures s in WrittenPhase(py)(phases[p]) <==>
        exists g :: 0 <= g < |GroupsOf(phases[p].value)| && IsSlot(py, phases[p], g, s) {
      WrittenPhaseIff(py, phases[p], s);
    }
  }

  ghost predicate IsSlot(py: Python, m: Member, g: nat, s: Slot) {
    && Get(m.value, "groups").Arr? && g < |Get(m.value, "groups").items|
    && var group := Get(m.value, "groups").items[g];
       && Get(group, "systems").Arr? && s.pos < |Get(group, "systems").items|
       && var index := if Has(group, "execution_index") then Get(group, "execution_index") else Int(0);
       s == Slot(m.key, RankOf(py, m.key), py.intOf(index).UnwrapOr(0), g, s.pos,
                 py.str(Get(group, "systems").items[s.pos]))
  }

  lemma WrittenPhaseIff(py: Python, m: Member, s: Slot)
    ensures s in WrittenPhase(py)(m) <==> exists g :: 0 <= g < |GroupsOf(m.value)| && IsSlot(py, m, g, s)
  {
    var placed := Place(py, GroupsOf(m.value));
    ConcatMapSource(SlotsIn(py, m.key), placed, s);
    forall g | 0 <= g < |placed| ensures s in SlotsIn(py, m.key)(placed[g]) <==> IsSlot(py, m, g, s) {
      GroupSlotIff(py, m, g, s);
    }
  }

  lemma GroupSlotIff(py: Python, m: Member, g: nat, s: Slot)
    requires g < |GroupsOf(m.value)|
    ensures s in GroupSlots(py, m.key, Place(py, GroupsOf(m.value))[g]) <==> IsSlot(py, m, g, s)
  {
    var slots := GroupSlots(py, m.key, Place(py, GroupsOf(m.value))[g]);
    if IsSlot(py, m, g, s) {
      assert slots[s.pos] == s;
    }
  }

  // ======== The order ========

  /** Where the document lists a phase; past the end when it does not. */
  function PlaceOf(phases: seq<Member>, key: Text): (i: nat)
    ensures i <= |phases| && (i < |phases| ==> phases[i].key == key)
    ensures forall j :: 0 <= j < i ==> phases[j].key != key
  {
    if phases == [] || phases[0].key == key then 0 else 1 + PlaceOf(phases[1..], key)
  }

  // a runs before b: by phase rank, phases of equal rank as the document lists
  // them, and within a phase by execution index, then place in the document.
  predicate Before(phases: seq<Member>, a: Slot, b: Slot) {
    && RankLe(a.rank, b.rank)
    && (a.phase == b.phase ==>
          a.exec < b.exec || (a.exec == b.exec && (a.group < b.group || (a.group == b.group && a.pos < b.pos))))
    && (a.phase != b.phase && a.rank == b.rank ==> PlaceOf(phases, a.phase) < PlaceOf(phases, b.phase))
  }

  function InRunOrder(phases: seq<Member>): (Slot, Slot) -> bool {
    (a: Slot, b: Slot) => Before(phases, a, b)
  }

  predicate ByPlace(a: Placement, b: Placement) {
    a.exec < b.exec || (a.exec == b.exec && a.index <= b.index)
  }

  lemma RunGroupsInOrder(py: Python, groups: seq<Json>)
    ensures Sorted(RunGroups(py, groups), ByPlace) && Distinct(RunGroups(py, groups))
    ensures forall p :: p in RunGroups(py, groups) ==>
      p.index < |groups| && p == Placement(p.index, ExecOf(py, groups[p.index]), groups[p.index])
  {
    var placed := Place(py, groups);
    SortByRefined(placed, ByExec, ByPlace);
    SortBySorted(placed, ByPlace);
    SortByPermutes(placed, ByExec);
    SameMembers(RunGroups(py, groups), placed);
    DistinctPermutes(placed, RunGroups(py, groups));
  }

  lemma RunPhaseInOrder(py: Python, phases: seq<Member>, m: Member)
    ensures Sorted(RunPhase(py)(m), InRunOrder(phases))
    ensures forall s :: s in RunPhase(py)(m) ==> s.phase == m.key && s.rank == RankOf(py, m.key)
  {
    var run, before := RunGroups(py, GroupsOf(m.value)), InRunOrder(phases);
    var f := SlotsIn(py, m.key);
    RunGroupsInOrder(py, GroupsOf(m.value));
    RankLeTotal(RankOf(py, m.key), RankOf(py, m.key));
    forall k | 0 <= k < |run| ensures Sorted(f(run[k]), before) {}
    forall i, j, x, y | 0 <= i < j < |run| && x in f(run[i]) && y in f(run[j]) ensures before(x, y) {
      assert ByPlace(run[i], run[j]) && run[i] != run[j];
      assert run[i] in run && run[j] in run;
    }
    ConcatMapSorted(f, run, before);
    forall s | s in RunPhase(py)(m) ensures s.phase == m.key && s.rank == RankOf(py, m.key) {
      ConcatMapSource(f, run, s);
    }
  }

  lemma ByRankIsTotal(py: Python)
    ensures TotalPreorder(ByRank(py))
  {
    var le := ByRank(py);
    forall a, b ensures le(a, b) || le(b, a) {
      RankLeTotal(RankOf(py, a.key), RankOf(py, b.key));
    }
    forall a, b, c | le(a, b) && le(b, c) ensures le(a, c) {
      RankLeTransitive(RankOf(py, a.key), RankOf(py, b.key), RankOf(py, c.key));
    }
  }

  /** Phases by rank, then by place in the document. */
  function ByRankThenPlace(py: Python, phases: seq<Member>): (Member, Member) -> bool {
    (a: Member, b: Member) => RankLe(RankOf(py, a.key), RankOf(py, b.key))
      && (RankLe(RankOf(py, b.key), RankOf(py, a.key)) ==> PlaceOf(phases, a.key) <= PlaceOf(phases, b.key))
  }

  lemma ByRankThenPlaceIsTotal(py: Python, phases: seq<Member>)
    ensures TotalPreorder(ByRankThenPlace(py, phases))
  {
    var le := ByRankThenPlace(py, phases);
    forall a, b ensures le(a, b) || le(b, a) {
      RankLeTotal(RankOf(py, a.key), RankOf(py, b.key));
    }
    forall a, b, c | le(a, b) && le(b, c) ensures le(a, c) {
      var p, q, r := RankOf(py, a.key), RankOf(py, b.key), RankOf(py, c.key);
      RankLeTransitive(p, q, r);
      if RankLe(r, p) {
        RankLeTransitive(r, p, q);
        RankLeTransitive(q, r, p);
      }
    }
  }

  lemma PlaceOfListed(phases: seq<Member>, i: nat)
    requires DistinctKeys(phases) && i < |phases|
    ensures PlaceOf(phases, phases[i].key) == i
  {
    var p := PlaceOf(phases, phases[i].key);
  }

  lemma RunPhasesInOrder(py: Python, phases: seq<Member>)
    requires DistinctKeys(phases)
    ensures Sorted(RunPhases(py, phases), ByRankThenPlace(py, phases)) && DistinctKeys(RunPhases(py, phases))
    ensures forall m :: m in RunPhases(py, phases) ==> m in phases
  {
    var run := RunPhases(py, phases);
    forall i, j | 0 <= i < j < |phases|
      ensures ByRank(py)(phases[i], phases[j]) <==> ByRankThenPlace(py, phases)(phases[i], phases[j]) {
      PlaceOfListed(phases, i);
      PlaceOfListed(phases, j);
    }
    SortByRefined(phases, ByRank(py), ByRankThenPlace(py, phases));
    ByRankThenPlaceIsTotal(py, phases);
    SortBySorted(phases, ByRankThenPlace(py, phases));
    SortByPermutes(phases, ByRank(py));
    SameMembers(run, phases);
    DistinctKeysPermute(phases, run);
  }

  lemma RanksThenPlaces(py: Python, phases: seq<Member>, a: Member, b: Member)
    requires DistinctKeys(phases) && a in phases && b in phases && a.key != b.key
    requires ByRankThenPlace(py, phases)(a, b) && RankOf(py, a.key) == RankOf(py, b.key)
    ensures PlaceOf(phases, a.key) < PlaceOf(phases, b.key)
  {
    var i :| 0 <= i < |phases| && phases[i] == a;
    var j :| 0 <= j < |phases| && phases[j] == b;
    PlaceOfListed(phases, i);
    PlaceOfListed(phases, j);
    RankLeTotal(RankOf(py, a.key), RankOf(py, a.key));
  }

  /** The flattening runs phases by rank, groups by execution index, and ties of either as written. */
  lemma FlatteningIsOrdered(py: Python, phases: seq<Member>)
    requires DistinctKeys(phases)
    ensures Sorted(Scheduled(py, phases), InRunOrder(phases))
  {
    var run, before := RunPhases(py, phases), InRunOrder(phases);
    var f := RunPhase(py);
    RunPhasesInOrder(py, phases);
    forall k | 0 <= k < |run|
      ensures Sorted(f(run[k]), before)
      ensures forall s :: s in f(run[k]) ==> s.phase == run[k].key && s.rank == RankOf(py, run[k].key) {
      RunPhaseInOrder(py, phases, run[k]);
    }
    forall i, j, x, y | 0 <= i < j < |run| && x in f(run[i]) && y in f(run[j]) ensures before(x, y) {
      assert ByRankThenPlace(py, phases)(run[i], run[j]) && run[i] in phases && run[j] in phases;
      if x.rank == y.rank {
        RanksThenPlaces(py, phases, run[i], run[j]);
      }
    }
    ConcatMapSorted(f, run, before);
  }

  /** When phase keys rank distinctly, the order of the phases in the document does not matter. */
  lemma FlatteningIgnoresDictOrder(py: Python, a: seq<Member>, b: seq<Member>)
    requires multiset(a) == multiset(b)
    requires forall x, y :: x in a && y in a && RankOf(py, x.key) == RankOf(py, y.key) ==> x == y
    ensures Scheduled(py, a) == Scheduled(py, b)
  {
    var p, q := RunPhases(py, a), RunPhases(py, b);
    ByRankIsTotal(py);
    SortBySorted(a, ByRank(py));
    SortBySorted(b, ByRank(py));
    SortByPermutes(a, ByRank(py));
    SortByPermutes(b, ByRank(py));
    SameMembers(p, a);
    forall x, y | x in p && y in p && ByRank(py)(x, y) && ByRank(py)(y, x) ensures x == y {
      RankLeAntisymmetric(RankOf(py, x.key), RankOf(py, y.key));
    }
    SortedUnique(p, q, ByRank(py));
  }

  // ======== Exactly once ========

  predicate AllTexts(values: seq<Json>) {
    forall v | v in values :: v.Str?
  }

  function TextsOf(values: seq<Json>): (ts: seq<Text>)
    ensures |ts| == |values|
    ensures forall i :: 0 <= i < |ts| && values[i].Str? ==> ts[i] == values[i].s
  {
    seq(|values|, i requires 0 <= i < |values| => if values[i].Str? then values[i].s else [])
  }

  /** `persisted_plan_schedule_matches_ids`: whether the call returns True. */
  method PlanScheduleMatchesIds(py: Python, plan: Json) returns (accepted: bool)
    ensures accepted <==>
      && Get(plan, "all_system_ids").Arr? && AllTexts(Get(plan, "all_system_ids").items)
      && Runs(py, PhasesOf(plan))
      && Matches(TextsOf(Get(plan, "all_system_ids").items), Ids(Scheduled(py, PhasesOf(plan))))
  {
    var value := Get(plan, "all_system_ids");
    if !value.Arr? || !AllTexts(value.items) {
      return false;
    }
    var ids := TextsOf(value.items);
    if SortBy(ids, TextLe) != ids || |AsSet(ids)| != |ids| {
      return false;
    }
    var ok, scheduled := ScheduledSystemIds(py, plan);
    if !ok {
      return false;
    }
    return SortBy(scheduled, TextLe) == ids && |scheduled| == |ids|;
  }

  /** The comparisons the check makes. */
  predicate Matches(ids: seq<Text>, scheduled: seq<Text>) {
    && SortBy(ids, TextLe) == ids && |AsSet(ids)| == |ids|
    && SortBy(scheduled, TextLe) == ids && |scheduled| == |ids|
  }

  ghost predicate Increasing(ids: seq<Text>) {
    forall i, j :: 0 <= i < j < |ids| ==> TextLt(ids[i], ids[j])
  }

  lemma TextLeIsTotal()
    ensures TotalPreorder(TextLe)
  {
    forall a, b ensures TextLe(a, b) || TextLe(b, a) {
      TextLeTotal(a, b);
    }
    forall a, b, c | TextLe(a, b) && TextLe(b, c) ensures TextLe(a, c) {
      TextLeTransitive(a, b, c);
    }
  }

  lemma IncreasingIff(ids: seq<Text>)
    ensures SortBy(ids, TextLe) == ids && |AsSet(ids)| == |ids| <==> Increasing(ids)
  {
    SetSizeDistinct(ids);
    TextLeIsTotal();
    SortBySorted(ids, TextLe);
    if Increasing(ids) {
      SortByFixpoint(ids, TextLe);
    }
  }

  lemma SortedListIff(ids: seq<Text>, scheduled: seq<Text>)
    requires Increasing(ids)
    ensures SortBy(scheduled, TextLe) == ids <==> multiset(scheduled) == multiset(ids)
  {
    TextLeIsTotal();
    SortBySorted(scheduled, TextLe);
    SortByPermutes(scheduled, TextLe);
    if multiset(scheduled) == multiset(ids) {
      var s := SortBy(scheduled, TextLe);
      forall x, y | x in s && y in s && TextLe(x, y) && TextLe(y, x) ensures x == y {
        TextLeAntisymmetric(x, y);
      }
      SortedUnique(s, ids, TextLe);
    }
  }

  /** The system is in the plan, at one phase, group and position only. */
  ghost predicate PlacedOnce(slots: seq<Slot>, id: Text) {
    exists s :: s in slots && s.id == id && forall t :: t in slots && t.id == id ==> t == s
  }

  lemma AbsentIff(slots: seq<Slot>, id: Text)
    ensures id !in Ids(slots) <==> forall s :: s in slots ==> s.id != id
  {
    ConcatMapSource(IdOf(), slots, id);
    assert forall k :: 0 <= k < |slots| ==> (id in IdOf()(slots[k]) <==> slots[k].id == id);
  }

  lemma {:induction false} OnceIff(slots: seq<Slot>, id: Text)
    requires Distinct(slots)
    ensures multiset(Ids(slots))[id] == 1 <==> PlacedOnce(slots, id)
  {
    if slots != [] {
      var front, last := slots[..|slots| - 1], slots[|slots| - 1];
      assert slots == front + [last];
      assert multiset(Ids(slots)) == multiset(Ids(front)) + multiset{last.id};
      if last.id == id {
        AbsentIff(front, id);
        OnceAtEnd(front, last);
      } else {
        OnceIff(front, id);
        assert PlacedOnce(slots, id) <==> PlacedOnce(front, id) by {
          NotAtEnd(front, last, id);
        }
      }
    }
  }

  lemma OnceAtEnd(front: seq<Slot>, last: Slot)
    requires last !in front
    ensures PlacedOnce(front + [last], last.id) <==> forall s :: s in front ==> s.id != last.id
  {
    assert last in front + [last];
    assert forall s :: s in front ==> s in front + [last];
  }

  lemma NotAtEnd(front: seq<Slot>, last: Slot, id: Text)
    requires last.id != id
    ensures PlacedOnce(front + [last], id) <==> PlacedOnce(front, id)
  {
    assert forall s :: s in front + [last] <==> s in front || s == last;
  }

  /** Every listed system has exactly one place in the plan, and nothing else has any. */
  ghost predicate ExactlyOnce(ids: seq<Text>, slots: seq<Slot>) {
    && (forall id :: id in ids ==> PlacedOnce(slots, id))
    && (forall s :: s in slots ==> s.id in ids)
  }

  lemma SlotsAreDistinct(py: Python, phases: seq<Member>)
    requires DistinctKeys(phases)
    ensures Distinct(Written(py, phases))
  {
    FlatteningIsOrdered(py, phases);
    FlatteningPermutes(py, phases);
    assert Distinct(Scheduled(py, phases)) by {
      var run := Scheduled(py, phases);
      assert forall i, j :: 0 <= i < j < |run| ==> InRunOrder(phases)(run[i], run[j]);
    }
    DistinctPermutes(Scheduled(py, phases), Written(py, phases));
  }

  lemma SameIdsIff(ids: seq<Text>, slots: seq<Slot>)
    requires Distinct(ids) && Distinct(slots)
    ensures multiset(Ids(slots)) == multiset(ids) <==> ExactlyOnce(ids, slots)
  {
    var have, want := multiset(Ids(slots)), multiset(ids);
    forall id ensures (have[id] == 1 <==> PlacedOnce(slots, id)) && want[id] == if id in ids then 1 else 0 {
      OnceIff(slots, id);
      DistinctCounts(ids, id);
    }
    forall id ensures have[id] == 0 <==> forall s :: s in slots ==> s.id != id {
      AbsentIff(slots, id);
      assert id in Ids(slots) <==> id in have;
    }
    if ExactlyOnce(ids, slots) {
      forall id ensures have[id] == want[id] {
      }
    }
    if have == want {
      forall s | s in slots ensures s.id in ids {
        assert have[s.id] != 0;
      }
    }
  }

  /** The check accepts exactly the plans whose listed ids increase and are each scheduled once, with nothing else. */
  lemma MatchesIffExactlyOnce(py: Python, phases: seq<Member>, ids: seq<Text>)
    requires DistinctKeys(phases)
    ensures Matches(ids, Ids(Scheduled(py, phases))) <==> Increasing(ids) && ExactlyOnce(ids, Written(py, phases))
  {
    IncreasingIff(ids);
    if Increasing(ids) {
      var scheduled, written := Ids(Scheduled(py, phases)), Ids(Written(py, phases));
      SortedListIff(ids, scheduled);
      FlatteningPermutes(py, phases);
      ConcatMapPermutes(IdOf(), Scheduled(py, phases), Written(py, phases));
      SlotsAreDistinct(py, phases);
      SameIdsIff(ids, Written(py, phases));
      if multiset(scheduled) == multiset(ids) {
        SameMembers(scheduled, ids);
      }
    }
  }
}
