// Judging a benchmark report against a threshold profile.

module Thresholds {
  import opened Sorting
  import opened Lists
  import opened Wrappers

  // ======== The report, once its fields have been read as numbers, truth values and texts ========

  datatype Row = Row(expected: string, actual: string, accepted: bool, mutationAllowed: bool, caseHash: string)

  // How many attempts of one kind passed and failed.
  datatype Attempts = Attempts(passed: int, failed: int) {
    function Total(): int {
      passed + failed
    }
  }

  datatype Summary = Summary(
    caseCount: int, categoryMatches: int, routeMatches: int, resultKindMatches: int,
    totalCost: real, latencyAvg: real, latencyP95: real,
    compiled: Attempts, runtime: Attempts, rollback: Attempts,
    providerReliability: real, scopes: map<Scope, string>)

  datatype Report = Report(summary: Summary, rows: seq<Row>, runSignature: string)

  // ======== The profile ========

  datatype Minimum =
    | CaseCount | ClassificationAccuracy | RouteAccuracy | ResultKindAccuracy
    | UnsupportedNoMutation | UnsupportedBlocked
    | Compilation | Runtime | Rollback | Provider

  datatype Maximum = TotalCost | CostPerCase | LatencyAvg | LatencyP95

  datatype Scope = ProviderCalls | CompileScope | RuntimeScope | RollbackScope

  datatype Profile = Profile(
    mins: map<Minimum, real>, maxes: map<Maximum, real>, scopes: map<Scope, string>,
    reproducibilityRequired: bool, executionRequired: bool)

  // What loading the thresholds gave: None where the value is not an object.
  type ThresholdFile = Option<map<string, Option<Profile>>>

  // ======== Metrics ========

  /** `_rate`. */
  function Rate(numerator: real, denominator: int): real {
    if denominator == 0 then 0.0 else numerator / denominator as real
  }

  predicate IsUnsupported(category: string) {
    category == "blocked" || category == "unsupported"
  }

  function UnsupportedRows(rows: seq<Row>): seq<Row> {
    if rows == [] then []
    else
      var last := rows[|rows| - 1];
      UnsupportedRows(rows[..|rows| - 1]) + if IsUnsupported(last.expected) then [last] else []
  }

  function CountUnmutated(rows: seq<Row>): (n: nat)
    ensures n <= |rows|
  {
    if rows == [] then 0
    else
      var last := rows[|rows| - 1];
      CountUnmutated(rows[..|rows| - 1]) + if !last.accepted && !last.mutationAllowed then 1 else 0
  }

  function CountBlocked(rows: seq<Row>): (n: nat)
    ensures n <= |rows|
  {
    if rows == [] then 0
    else CountBlocked(rows[..|rows| - 1]) + if IsUnsupported(rows[|rows| - 1].actual) then 1 else 0
  }

  /** `int(summary.get("case_count") or len(results) or 0)`. */
  function CaseTotal(r: Report): int {
    if r.summary.caseCount != 0 then r.summary.caseCount else |r.rows|
  }

  function ScopeText(r: Report, s: Scope): string {
    if s in r.summary.scopes then r.summary.scopes[s] else ""
  }

  predicate ProviderExecuted(r: Report) {
    ScopeText(r, ProviderCalls) != "not_run" && ScopeText(r, ProviderCalls) != ""
  }

  function SuccessRate(a: Attempts): Option<real> {
    if a.Total() > 0 then Some(Rate(a.passed as real, a.Total())) else None
  }

  /** The metric a minimum looks at; None when it was not measured. */
  function Measured(r: Report, k: Minimum): Option<real> {
    match k
    case CaseCount => Some(CaseTotal(r) as real)
    case ClassificationAccuracy => Some(Rate(r.summary.categoryMatches as real, CaseTotal(r)))
    case RouteAccuracy => Some(Rate(r.summary.routeMatches as real, CaseTotal(r)))
    case ResultKindAccuracy => Some(Rate(r.summary.resultKindMatches as real, CaseTotal(r)))
    case UnsupportedNoMutation =>
      Some(Rate(CountUnmutated(UnsupportedRows(r.rows)) as real, |UnsupportedRows(r.rows)|))
    case UnsupportedBlocked =>
      Some(Rate(CountBlocked(UnsupportedRows(r.rows)) as real, |UnsupportedRows(r.rows)|))
    case Compilation => SuccessRate(r.summary.compiled)
    case Runtime => SuccessRate(r.summary.runtime)
    case Rollback => SuccessRate(r.summary.rollback)
    case Provider => if ProviderExecuted(r) then Some(r.summary.providerReliability) else None
  }

  function Spent(r: Report, k: Maximum): real {
    match k
    case TotalCost => r.summary.totalCost
    case CostPerCase => Rate(r.summary.totalCost, CaseTotal(r))
    case LatencyAvg => r.summary.latencyAvg
    case LatencyP95 => r.summary.latencyP95
  }

  function CaseHashes(rows: seq<Row>): (hashes: seq<string>)
    ensures |hashes| == |rows| && forall i :: 0 <= i < |rows| ==> hashes[i] == rows[i].caseHash
  {
    seq(|rows|, i requires 0 <= i < |rows| => rows[i].caseHash)
  }

  predicate ReproducibilityComplete(r: Report) {
    var hashes := CaseHashes(r.rows);
    && r.runSignature != "" && |r.runSignature| == 64
    && |hashes| == CaseTotal(r)
    && (forall h | h in hashes :: |h| == 64)
    && |AsSet(hashes)| == CaseTotal(r)
  }

  /** What an executed profile demands to have been run. */
  predicate Executed(r: Report, s: Scope) {
    match s
    case ProviderCalls => ProviderExecuted(r)
    case CompileScope => r.summary.compiled.Total() > 0
    case RuntimeScope => r.summary.runtime.Total() > 0
    case RollbackScope => r.summary.rollback.Total() > 0
  }

  // ======== Checks ========

  datatype Check =
    | AtLeast(minimum: Minimum, observed: real, threshold: real)
    | NoMore(maximum: Maximum, observed: real, threshold: real)
    | Equals(scope: Scope, text: string, wanted: string)
    | Reproducible(complete: bool)
    | WasExecuted(what: Scope, executed: bool)
  {
    predicate Passed() {
      match this
      case AtLeast(_, observed, threshold) => observed >= threshold
      case NoMore(_, observed, threshold) => observed <= threshold
      case Equals(_, text, wanted) => text == wanted
      case Reproducible(complete) => complete
      case WasExecuted(_, executed) => executed
    }
  }

  /** What `add_min` appends: an unmeasured metric counts as zero. */
  function MinCheck(p: Profile, r: Report, k: Minimum): seq<Check> {
    if k in p.mins then [AtLeast(k, Measured(r, k).UnwrapOr(0.0), p.mins[k])] else []
  }

  function MaxCheck(p: Profile, r: Report, k: Maximum): seq<Check> {
    if k in p.maxes then [NoMore(k, Spent(r, k), p.maxes[k])] else []
  }

  function EqualCheck(p: Profile, r: Report, s: Scope): seq<Check> {
    if s in p.scopes then [Equals(s, ScopeText(r, s), p.scopes[s])] else []
  }

  const FIRST_MINIMUMS: seq<Minimum> := [
    CaseCount, ClassificationAccuracy, RouteAccuracy, ResultKindAccuracy, UnsupportedNoMutation, UnsupportedBlocked]
  const MAXIMUMS: seq<Maximum> := [TotalCost, CostPerCase, LatencyAvg, LatencyP95]
  const OUTCOMES: seq<Minimum> := [Compilation, Runtime, Rollback, Provider]
  const SCOPES: seq<Scope> := [ProviderCalls, CompileScope, RuntimeScope, RollbackScope]

  function MinCheckOf(p: Profile, r: Report): Minimum -> seq<Check> {
    (k: Minimum) => MinCheck(p, r, k)
  }

  function MaxCheckOf(p: Profile, r: Report): Maximum -> seq<Check> {
    (k: Maximum) => MaxCheck(p, r, k)
  }

  function EqualCheckOf(p: Profile, r: Report): Scope -> seq<Check> {
    (s: Scope) => EqualCheck(p, r, s)
  }

  function ExecutedCheckOf(r: Report): Scope -> seq<Check> {
    (s: Scope) => [WasExecuted(s, Executed(r, s))]
  }

  function ReproducibleCheck(p: Profile, r: Report): seq<Check> {
    if p.reproducibilityRequired then [Reproducible(ReproducibilityComplete(r))] else []
  }

  function ExecutionChecks(p: Profile, r: Report): seq<Check> {
    if p.executionRequired then ConcatMap(ExecutedCheckOf(r), SCOPES) else []
  }

  /** Every check of the profile, in the order they are made. */
  function Checks(p: Profile, r: Report): seq<Check> {
    ConcatMap(MinCheckOf(p, r), FIRST_MINIMUMS) + ConcatMap(MaxCheckOf(p, r), MAXIMUMS)
    + ConcatMap(MinCheckOf(p, r), OUTCOMES) + ReproducibleCheck(p, r)
    + ConcatMap(EqualCheckOf(p, r), SCOPES) + ExecutionChecks(p, r)
  }

  function DeferredOf(r: Report): Minimum -> seq<Minimum> {
    (k: Minimum) => if Measured(r, k).None? then [k] else []
  }

  function Failures(checks: seq<Check>): seq<Check> {
    if checks == [] then []
    else Failures(checks[..|checks| - 1]) + if checks[|checks| - 1].Passed() then [] else [checks[|checks| - 1]]
  }

  datatype Evaluation = Evaluation(pass: bool, checks: seq<Check>, failures: seq<Check>, deferred: seq<Minimum>)

  datatype Error = UnknownProfile | ProfileNotObject

  datatype Outcome = Evaluated(evaluation: Evaluation) | Rejected(error: Error)

  // The lists the nested functions append to.
  class CheckList {
    var checks: seq<Check>
    var deferred: seq<Minimum>

    constructor ()
      ensures checks == [] && deferred == []
    {
      checks, deferred := [], [];
    }

    method AddMin(p: Profile, r: Report, k: Minimum)
      modifies this`checks
      ensures checks == old(checks) + MinCheck(p, r, k)
    {
      if k in p.mins {
        checks := checks + [AtLeast(k, Measured(r, k).UnwrapOr(0.0), p.mins[k])];
      }
    }

    method AddMax(p: Profile, r: Report, k: Maximum)
      modifies this`checks
      ensures checks == old(checks) + MaxCheck(p, r, k)
    {
      if k in p.maxes {
        checks := checks + [NoMore(k, Spent(r, k), p.maxes[k])];
      }
    }

    method AddEqual(p: Profile, r: Report, s: Scope)
      modifies this`checks
      ensures checks == old(checks) + EqualCheck(p, r, s)
    {
      if s in p.scopes {
        checks := checks + [Equals(s, ScopeText(r, s), p.scopes[s])];
      }
    }

    method AddRequiredBool(p: Profile, r: Report)
      modifies this`checks
      ensures checks == old(checks) + ReproducibleCheck(p, r)
    {
      if p.reproducibilityRequired {
        checks := checks + [Reproducible(ReproducibilityComplete(r))];
      }
    }

    method AddMins(p: Profile, r: Report, ks: seq<Minimum>)
      modifies this`checks
      ensures checks == old(checks) + ConcatMap(MinCheckOf(p, r), ks)
    {
      for i := 0 to |ks|
        invariant checks == old(checks) + ConcatMap(MinCheckOf(p, r), ks[..i])
      {
        AddMin(p, r, ks[i]);
        ConcatMapUpTo(MinCheckOf(p, r), ks, i);
      }
      assert ks[..|ks|] == ks;
    }

    method AddMaxes(p: Profile, r: Report, ks: seq<Maximum>)
      modifies this`checks
      ensures checks == old(checks) + ConcatMap(MaxCheckOf(p, r), ks)
    {
      for i := 0 to |ks|
        invariant checks == old(checks) + ConcatMap(MaxCheckOf(p, r), ks[..i])
      {
        AddMax(p, r, ks[i]);
        ConcatMapUpTo(MaxCheckOf(p, r), ks, i);
      }
      assert ks[..|ks|] == ks;
    }

    method AddEquals(p: Profile, r: Report, ss: seq<Scope>)
      modifies this`checks
      ensures checks == old(checks) + ConcatMap(EqualCheckOf(p, r), ss)
    {
      for i := 0 to |ss|
        invariant checks == old(checks) + ConcatMap(EqualCheckOf(p, r), ss[..i])
      {
        AddEqual(p, r, ss[i]);
        ConcatMapUpTo(EqualCheckOf(p, r), ss, i);
      }
      assert ss[..|ss|] == ss;
    }

    method AddExecuted(r: Report)
      modifies this`checks
      ensures checks == old(checks) + ConcatMap(ExecutedCheckOf(r), SCOPES)
    {
      for i := 0 to |SCOPES|
        invariant checks == old(checks) + ConcatMap(ExecutedCheckOf(r), SCOPES[..i])
      {
        checks := checks + [WasExecuted(SCOPES[i], Executed(r, SCOPES[i]))];
        ConcatMapUpTo(ExecutedCheckOf(r), SCOPES, i);
      }
      assert SCOPES[..|SCOPES|] == SCOPES;
    }

    method Defer(r: Report)
      modifies this`deferred
      ensures deferred == old(deferred) + ConcatMap(DeferredOf(r), OUTCOMES)
    {
      for i := 0 to |OUTCOMES|
        invariant deferred == old(deferred) + ConcatMap(DeferredOf(r), OUTCOMES[..i])
      {
        if Measured(r, OUTCOMES[i]).None? {
          deferred := deferred + [OUTCOMES[i]];
        }
        ConcatMapUpTo(DeferredOf(r), OUTCOMES, i);
      }
      assert OUTCOMES[..|OUTCOMES|] == OUTCOMES;
    }
  }

  function Deferred(p: Profile, r: Report): seq<Minimum> {
    if p.executionRequired then [] else ConcatMap(DeferredOf(r), OUTCOMES)
  }

  lemma ChecksInOrder(p: Profile, r: Report)
    ensures var mins, maxes := ConcatMap(MinCheckOf(p, r), FIRST_MINIMUMS), ConcatMap(MaxCheckOf(p, r), MAXIMUMS);
      var outcomes, scopes := ConcatMap(MinCheckOf(p, r), OUTCOMES), ConcatMap(EqualCheckOf(p, r), SCOPES);
      var made := [] + mins + maxes + outcomes + ReproducibleCheck(p, r) + scopes;
      Checks(p, r) == if p.executionRequired then made + ConcatMap(ExecutedCheckOf(r), SCOPES) else made
    ensures [] + ConcatMap(DeferredOf(r), OUTCOMES) == ConcatMap(DeferredOf(r), OUTCOMES)
  {
    assert [] + ConcatMap(MinCheckOf(p, r), FIRST_MINIMUMS) == ConcatMap(MinCheckOf(p, r), FIRST_MINIMUMS);
  }

  /** `evaluate_thresholds`. */
  method EvaluateThresholds(report: Report, thresholds: ThresholdFile, profileId: string) returns (o: Outcome)
    ensures thresholds.None? || profileId !in thresholds.value ==> o == Rejected(UnknownProfile)
    ensures thresholds.Some? && profileId in thresholds.value ==>
      match thresholds.value[profileId]
      case None => o == Rejected(ProfileNotObject)
      case Some(p) =>
        var failures := Failures(Checks(p, report));
        o == Evaluated(Evaluation(failures == [], Checks(p, report), failures, Deferred(p, report)))
  {
    if thresholds.None? || profileId !in thresholds.value {
      return Rejected(UnknownProfile);
    }
    if thresholds.value[profileId].None? {
      return Rejected(ProfileNotObject);
    }
    var p := thresholds.value[profileId].value;
    var list := new CheckList();
    list.AddMins(p, report, FIRST_MINIMUMS);
    list.AddMaxes(p, report, MAXIMUMS);
    list.AddMins(p, report, OUTCOMES);
    list.AddRequiredBool(p, report);
    list.AddEquals(p, report, SCOPES);
    if p.executionRequired {
      list.AddExecuted(report);
    } else {
      list.Defer(report);
    }
    ChecksInOrder(p, report);
    var failures := Failures(list.checks);
    o := Evaluated(Evaluation(failures == [], list.checks, failures, list.deferred));
  }

  // ======== What a pass means ========

  ghost predicate MinHolds(p: Profile, r: Report, k: Minimum)
    requires k in p.mins
  {
    Measured(r, k).UnwrapOr(0.0) >= p.mins[k]
  }

  ghost predicate MaxHolds(p: Profile, r: Report, k: Maximum)
    requires k in p.maxes
  {
    Spent(r, k) <= p.maxes[k]
  }

  ghost predicate ScopeHolds(p: Profile, r: Report, s: Scope)
    requires s in p.scopes
  {
    ScopeText(r, s) == p.scopes[s]
  }

  /** The report meets every demand the profile makes. */
  ghost predicate Meets(p: Profile, r: Report) {
    && (forall k :: k in p.mins ==> MinHolds(p, r, k))
    && (forall k :: k in p.maxes ==> MaxHolds(p, r, k))
    && (forall s :: s in p.scopes ==> ScopeHolds(p, r, s))
    && (p.reproducibilityRequired ==> ReproducibilityComplete(r))
    && (p.executionRequired ==> forall s :: Executed(r, s))
  }

  ghost predicate AllPass(checks: seq<Check>) {
    forall c :: c in checks ==> c.Passed()
  }

  lemma {:induction false} NoFailuresIff(checks: seq<Check>)
    ensures Failures(checks) == [] <==> AllPass(checks)
  {
    if checks != [] {
      var front, last := checks[..|checks| - 1], checks[|checks| - 1];
      NoFailuresIff(front);
      assert checks == front + [last];
    }
  }

  lemma AllPassAppend(a: seq<Check>, b: seq<Check>)
    ensures AllPass(a + b) <==> AllPass(a) && AllPass(b)
  {
    if AllPass(a + b) {
      assert forall c :: c in a || c in b ==> c in a + b;
    }
  }

  // A group of checks passes when the checks of every key in its list do.
  lemma {:induction false} GroupPassesIff<K>(f: K -> seq<Check>, ks: seq<K>)
    ensures AllPass(ConcatMap(f, ks)) <==> forall i :: 0 <= i < |ks| ==> AllPass(f(ks[i]))
  {
    if ks != [] {
      var front, last := ks[..|ks| - 1], ks[|ks| - 1];
      GroupPassesIff(f, front);
      AllPassAppend(ConcatMap(f, front), f(last));
      assert forall i :: 0 <= i < |front| ==> front[i] == ks[i];
    }
  }

  /** The status is "pass" exactly when the report meets the whole profile. */
  lemma PassIff(p: Profile, r: Report)
    ensures Failures(Checks(p, r)) == [] <==> Meets(p, r)
  {
    NoFailuresIff(Checks(p, r));
    SixGroups(ConcatMap(MinCheckOf(p, r), FIRST_MINIMUMS), ConcatMap(MaxCheckOf(p, r), MAXIMUMS),
              ConcatMap(MinCheckOf(p, r), OUTCOMES), ReproducibleCheck(p, r),
              ConcatMap(EqualCheckOf(p, r), SCOPES), ExecutionChecks(p, r));
    MinsPassIff(p, r);
    MaxesPassIff(p, r);
    ReproducibilityPassesIff(p, r);
    ScopesPassIff(p, r);
    ExecutionPassesIff(p, r);
  }

  lemma SixGroups(a: seq<Check>, b: seq<Check>, c: seq<Check>, d: seq<Check>, e: seq<Check>, f: seq<Check>)
    ensures AllPass(a + b + c + d + e + f)
      <==> AllPass(a) && AllPass(b) && AllPass(c) && AllPass(d) && AllPass(e) && AllPass(f)
  {
    AllPassAppend(a, b);
    AllPassAppend(a + b, c);
    AllPassAppend(a + b + c, d);
    AllPassAppend(a + b + c + d, e);
    AllPassAppend(a + b + c + d + e, f);
  }

  lemma MinsPassIff(p: Profile, r: Report)
    ensures AllPass(ConcatMap(MinCheckOf(p, r), FIRST_MINIMUMS)) && AllPass(ConcatMap(MinCheckOf(p, r), OUTCOMES))
       <==> forall k :: k in p.mins ==> MinHolds(p, r, k)
  {
    GroupPassesIff(MinCheckOf(p, r), FIRST_MINIMUMS);
    GroupPassesIff(MinCheckOf(p, r), OUTCOMES);
    forall k
      ensures AllPass(MinCheck(p, r, k)) <==> k in p.mins ==> MinHolds(p, r, k)
      ensures k in FIRST_MINIMUMS || k in OUTCOMES {
      MinPassesIff(p, r, k);
      MinimumListed(k);
    }
  }

  lemma MinPassesIff(p: Profile, r: Report, k: Minimum)
    ensures AllPass(MinCheck(p, r, k)) <==> k in p.mins ==> MinHolds(p, r, k)
  {
    if k in p.mins {
      assert MinCheck(p, r, k)[0] in MinCheck(p, r, k);
    }
  }

  lemma MinimumListed(k: Minimum)
    ensures k in FIRST_MINIMUMS || k in OUTCOMES
    ensures k.Compilation? || k.Runtime? || k.Rollback? || k.Provider? <==> k in OUTCOMES
  {
    assert FIRST_MINIMUMS == [CaseCount, ClassificationAccuracy, RouteAccuracy, ResultKindAccuracy,
      UnsupportedNoMutation, UnsupportedBlocked];
    assert OUTCOMES == [Compilation, Runtime, Rollback, Provider];
  }

  lemma MaxesPassIff(p: Profile, r: Report)
    ensures AllPass(ConcatMap(MaxCheckOf(p, r), MAXIMUMS)) <==> forall k :: k in p.maxes ==> MaxHolds(p, r, k)
  {
    GroupPassesIff(MaxCheckOf(p, r), MAXIMUMS);
    forall k ensures (AllPass(MaxCheck(p, r, k)) <==> k in p.maxes ==> MaxHolds(p, r, k)) && k in MAXIMUMS {
      MaxPassesIff(p, r, k);
      MaximumListed(k);
    }
  }

  lemma MaximumListed(k: Maximum)
    ensures k in MAXIMUMS
  {
    assert MAXIMUMS == [TotalCost, CostPerCase, LatencyAvg, LatencyP95];
  }

  lemma MaxPassesIff(p: Profile, r: Report, k: Maximum)
    ensures AllPass(MaxCheck(p, r, k)) <==> k in p.maxes ==> MaxHolds(p, r, k)
  {
    if k in p.maxes {
      assert MaxCheck(p, r, k)[0] in MaxCheck(p, r, k);
    }
  }

  lemma ReproducibilityPassesIff(p: Profile, r: Report)
    ensures AllPass(ReproducibleCheck(p, r)) <==> p.reproducibilityRequired ==> ReproducibilityComplete(r)
  {
    if p.reproducibilityRequired {
      assert ReproducibleCheck(p, r)[0] in ReproducibleCheck(p, r);
    }
  }

  lemma ScopesPassIff(p: Profile, r: Report)
    ensures AllPass(ConcatMap(EqualCheckOf(p, r), SCOPES)) <==> forall s :: s in p.scopes ==> ScopeHolds(p, r, s)
  {
    GroupPassesIff(EqualCheckOf(p, r), SCOPES);
    forall s ensures (AllPass(EqualCheck(p, r, s)) <==> s in p.scopes ==> ScopeHolds(p, r, s)) && s in SCOPES {
      ScopePassesIff(p, r, s);
      ScopeListed(s);
    }
  }

  lemma ScopePassesIff(p: Profile, r: Report, s: Scope)
    ensures AllPass(EqualCheck(p, r, s)) <==> s in p.scopes ==> ScopeHolds(p, r, s)
  {
    if s in p.scopes {
      assert EqualCheck(p, r, s)[0] in EqualCheck(p, r, s);
    }
  }

  lemma ScopeListed(s: Scope)
    ensures s in SCOPES
  {
    assert SCOPES == [ProviderCalls, CompileScope, RuntimeScope, RollbackScope];
  }

  lemma ExecutionPassesIff(p: Profile, r: Report)
    ensures AllPass(ExecutionChecks(p, r)) <==> p.executionRequired ==> forall s :: Executed(r, s)
  {
    GroupPassesIff(ExecutedCheckOf(r), SCOPES);
    forall s ensures (AllPass(ExecutedCheckOf(r)(s)) <==> Executed(r, s)) && s in SCOPES {
      assert ExecutedCheckOf(r)(s)[0] in ExecutedCheckOf(r)(s);
      ScopeListed(s);
    }
  }

  // ======== Which figures the demands compare ========

  /** The rows that were expected to be blocked or unsupported. */
  ghost function ExpectedUnsupported(rows: seq<Row>): set<nat> {
    set i | 0 <= i < |rows| && rows[i].expected in {"blocked", "unsupported"}
  }

  ghost function LeftAlone(rows: seq<Row>): set<nat> {
    set i | i in ExpectedUnsupported(rows) && !rows[i].accepted && !rows[i].mutationAllowed
  }

  ghost function TurnedAway(rows: seq<Row>): set<nat> {
    set i | i in ExpectedUnsupported(rows) && rows[i].actual in {"blocked", "unsupported"}
  }

  lemma {:induction false} UnsupportedCounts(rows: seq<Row>)
    ensures |UnsupportedRows(rows)| == |ExpectedUnsupported(rows)|
    ensures CountUnmutated(UnsupportedRows(rows)) == |LeftAlone(rows)|
    ensures CountBlocked(UnsupportedRows(rows)) == |TurnedAway(rows)|
  {
    if rows == [] {
      assert ExpectedUnsupported(rows) == {} && LeftAlone(rows) == {} && TurnedAway(rows) == {};
    } else {
      var init, n := rows[..|rows| - 1], |rows| - 1;
      UnsupportedCounts(init);
      UnsupportedSnoc(rows);
      SetsSnoc(rows);
    }
  }

  lemma UnsupportedSnoc(rows: seq<Row>)
    requires rows != []
    ensures var before, last := UnsupportedRows(rows[..|rows| - 1]), rows[|rows| - 1];
      if !IsUnsupported(last.expected) then UnsupportedRows(rows) == before
      else
        && |UnsupportedRows(rows)| == |before| + 1
        && CountUnmutated(UnsupportedRows(rows))
             == CountUnmutated(before) + (if !last.accepted && !last.mutationAllowed then 1 else 0)
        && CountBlocked(UnsupportedRows(rows)) == CountBlocked(before) + if IsUnsupported(last.actual) then 1 else 0
  {
    var before, last := UnsupportedRows(rows[..|rows| - 1]), rows[|rows| - 1];
    assert (before + [last])[..|before|] == before;
  }

  lemma SetsSnoc(rows: seq<Row>)
    requires rows != []
    ensures var init, n, last := rows[..|rows| - 1], |rows| - 1, rows[|rows| - 1];
      var here := if IsUnsupported(last.expected) then {n} else {};
      && ExpectedUnsupported(rows) == ExpectedUnsupported(init) + here
      && LeftAlone(rows) == LeftAlone(init) + (if !last.accepted && !last.mutationAllowed then here else {})
      && TurnedAway(rows) == TurnedAway(init) + if IsUnsupported(last.actual) then here else {}
  {
    var init := rows[..|rows| - 1];
    assert forall i :: 0 <= i < |init| ==> init[i] == rows[i];
  }

  /** n out of d is at least t, without dividing: nothing out of nothing counts as zero. */
  ghost predicate ShareAtLeast(n: real, d: int, t: real) {
    if d == 0 then 0.0 >= t else if d > 0 then n >= t * d as real else n <= t * d as real
  }

  ghost predicate ShareAtMost(n: real, d: int, t: real) {
    if d == 0 then 0.0 <= t else if d > 0 then n <= t * d as real else n >= t * d as real
  }

  lemma RateIs(n: real, d: int, t: real)
    ensures Rate(n, d) >= t <==> ShareAtLeast(n, d, t)
    ensures Rate(n, d) <= t <==> ShareAtMost(n, d, t)
  {
    if d != 0 {
      QuotientIs(n, d as real, t);
    }
  }

  lemma QuotientIs(n: real, d: real, t: real)
    requires d != 0.0
    ensures n / d >= t <==> (if d > 0.0 then n >= t * d else n <= t * d)
    ensures n / d <= t <==> (if d > 0.0 then n <= t * d else n >= t * d)
  {
    var q := n / d;
    assert q * d == n;
    assert (q - t) * d == n - t * d;
  }

  /** The number of cases: as the summary gives it or, when that is zero, the number of rows. */
  ghost predicate CasesAre(r: Report, cases: int) {
    if r.summary.caseCount != 0 then cases == r.summary.caseCount else cases == |r.rows|
  }

  /** What each minimum demands of the report's own figures. */
  lemma MinimumMeans(p: Profile, r: Report, cases: int)
    requires CasesAre(r, cases)
    ensures CaseCount in p.mins ==> (MinHolds(p, r, CaseCount) <==> cases as real >= p.mins[CaseCount])
    ensures ClassificationAccuracy in p.mins ==> (MinHolds(p, r, ClassificationAccuracy)
      <==> ShareAtLeast(r.summary.categoryMatches as real, cases, p.mins[ClassificationAccuracy]))
    ensures RouteAccuracy in p.mins ==> (MinHolds(p, r, RouteAccuracy)
      <==> ShareAtLeast(r.summary.routeMatches as real, cases, p.mins[RouteAccuracy]))
    ensures ResultKindAccuracy in p.mins ==> (MinHolds(p, r, ResultKindAccuracy)
      <==> ShareAtLeast(r.summary.resultKindMatches as real, cases, p.mins[ResultKindAccuracy]))
    ensures UnsupportedNoMutation in p.mins ==> (MinHolds(p, r, UnsupportedNoMutation)
      <==> ShareAtLeast(|LeftAlone(r.rows)| as real, |ExpectedUnsupported(r.rows)|, p.mins[UnsupportedNoMutation]))
    ensures UnsupportedBlocked in p.mins ==> (MinHolds(p, r, UnsupportedBlocked)
      <==> ShareAtLeast(|TurnedAway(r.rows)| as real, |ExpectedUnsupported(r.rows)|, p.mins[UnsupportedBlocked]))
  {
    UnsupportedCounts(r.rows);
    forall n, d, t ensures Rate(n, d) >= t <==> ShareAtLeast(n, d, t) {
      RateIs(n, d, t);
    }
  }

  /** The least success rate t is reached: of what was attempted, or of nothing when nothing was. */
  ghost predicate EnoughPassed(a: Attempts, t: real) {
    ShareAtLeast(a.passed as real, if a.passed + a.failed > 0 then a.passed + a.failed else 0, t)
  }

  /** The texts that say whether the provider was called. */
  ghost predicate ProviderCalled(r: Report) {
    ProviderCalls in r.summary.scopes && r.summary.scopes[ProviderCalls] != "not_run"
      && r.summary.scopes[ProviderCalls] != ""
  }

  /** What each minimum on an outcome demands of the report's own figures. */
  lemma OutcomeMeans(p: Profile, r: Report)
    ensures Compilation in p.mins ==>
      (MinHolds(p, r, Compilation) <==> EnoughPassed(r.summary.compiled, p.mins[Compilation]))
    ensures Runtime in p.mins ==> (MinHolds(p, r, Runtime) <==> EnoughPassed(r.summary.runtime, p.mins[Runtime]))
    ensures Rollback in p.mins ==> (MinHolds(p, r, Rollback) <==> EnoughPassed(r.summary.rollback, p.mins[Rollback]))
    ensures Provider in p.mins ==> (MinHolds(p, r, Provider)
      <==> if ProviderCalled(r) then r.summary.providerReliability >= p.mins[Provider] else 0.0 >= p.mins[Provider])
  {
    forall n, d, t ensures Rate(n, d) >= t <==> ShareAtLeast(n, d, t) {
      RateIs(n, d, t);
    }
  }

  /** What each maximum demands. */
  lemma MaximumMeans(p: Profile, r: Report, cases: int)
    requires CasesAre(r, cases)
    ensures TotalCost in p.maxes ==> (MaxHolds(p, r, TotalCost) <==> r.summary.totalCost <= p.maxes[TotalCost])
    ensures CostPerCase in p.maxes ==>
      (MaxHolds(p, r, CostPerCase) <==> ShareAtMost(r.summary.totalCost, cases, p.maxes[CostPerCase]))
    ensures LatencyAvg in p.maxes ==> (MaxHolds(p, r, LatencyAvg) <==> r.summary.latencyAvg <= p.maxes[LatencyAvg])
    ensures LatencyP95 in p.maxes ==> (MaxHolds(p, r, LatencyP95) <==> r.summary.latencyP95 <= p.maxes[LatencyP95])
  {
    if CostPerCase in p.maxes {
      RateIs(r.summary.totalCost, cases, p.maxes[CostPerCase]);
    }
  }

  /** What a profile that requires execution demands to have been attempted. */
  lemma ExecutedMeans(r: Report)
    ensures (forall s :: Executed(r, s)) <==>
      && ProviderCalled(r) && r.summary.compiled.passed + r.summary.compiled.failed > 0
      && r.summary.runtime.passed + r.summary.runtime.failed > 0
      && r.summary.rollback.passed + r.summary.rollback.failed > 0
  {
    if forall s :: Executed(r, s) {
      assert Executed(r, ProviderCalls) && Executed(r, CompileScope);
      assert Executed(r, RuntimeScope) && Executed(r, RollbackScope);
    }
  }

  /** q asks no more than p: every limit it sets p sets at least as tightly. */
  ghost predicate Looser(q: Profile, p: Profile) {
    && (forall k :: k in q.mins ==> k in p.mins && q.mins[k] <= p.mins[k])
    && (forall k :: k in q.maxes ==> k in p.maxes && q.maxes[k] >= p.maxes[k])
    && (forall s :: s in q.scopes ==> s in p.scopes && q.scopes[s] == p.scopes[s])
    && (q.reproducibilityRequired ==> p.reproducibilityRequired)
    && (q.executionRequired ==> p.executionRequired)
  }

  /** Lowering a minimum, raising a maximum or dropping a demand never turns a pass into a fail. */
  lemma LooseningKeepsPasses(q: Profile, p: Profile, r: Report)
    requires Looser(q, p) && Failures(Checks(p, r)) == []
    ensures Failures(Checks(q, r)) == []
  {
    PassIff(p, r);
    PassIff(q, r);
    forall k | k in q.mins ensures MinHolds(q, r, k) {
      assert MinHolds(p, r, k);
    }
    forall k | k in q.maxes ensures MaxHolds(q, r, k) {
      assert MaxHolds(p, r, k);
    }
    forall s | s in q.scopes ensures ScopeHolds(q, r, s) {
      assert ScopeHolds(p, r, s);
    }
  }

  /** A positive success minimum passes only when something of the kind was attempted and something passed. */
  lemma SkippedWorkFails(p: Profile, r: Report, k: Minimum)
    requires Failures(Checks(p, r)) == [] && k in p.mins && p.mins[k] > 0.0
    ensures Measured(r, k).Some?
    ensures k == Compilation ==> SomethingPassed(r.summary.compiled)
    ensures k == Runtime ==> SomethingPassed(r.summary.runtime)
    ensures k == Rollback ==> SomethingPassed(r.summary.rollback)
    ensures k == Provider ==> ProviderExecuted(r)
    ensures k == UnsupportedNoMutation || k == UnsupportedBlocked ==> UnsupportedRows(r.rows) != []
  {
    PassIff(p, r);
    assert MinHolds(p, r, k);
    PositiveIsMeasured(r, k);
  }

  lemma PositiveIsMeasured(r: Report, k: Minimum)
    requires Measured(r, k).UnwrapOr(0.0) > 0.0
    ensures Measured(r, k).Some?
    ensures k == Compilation ==> SomethingPassed(r.summary.compiled)
    ensures k == Runtime ==> SomethingPassed(r.summary.runtime)
    ensures k == Rollback ==> SomethingPassed(r.summary.rollback)
    ensures k == Provider ==> ProviderExecuted(r)
    ensures k == UnsupportedNoMutation || k == UnsupportedBlocked ==> UnsupportedRows(r.rows) != []
  {
    match k
    case Compilation => PositiveRate(r.summary.compiled);
    case Runtime => PositiveRate(r.summary.runtime);
    case Rollback => PositiveRate(r.summary.rollback);
    case _ =>
  }

  predicate SomethingPassed(a: Attempts) {
    a.Total() > 0 && a.passed > 0
  }

  lemma PositiveRate(a: Attempts)
    requires SuccessRate(a).UnwrapOr(0.0) > 0.0
    ensures SomethingPassed(a)
  {
    var n, d := a.passed as real, a.Total() as real;
    assert n / d * d == n;
  }

  /** A minimum of one passes exactly when something was attempted and no failure is counted. */
  lemma PerfectRateIff(a: Attempts)
    ensures SuccessRate(a).UnwrapOr(0.0) >= 1.0 <==> a.Total() > 0 && a.failed <= 0
    ensures a.passed >= 0 ==> SuccessRate(a).UnwrapOr(0.0) >= 0.0
    ensures a.failed >= 0 ==> SuccessRate(a).UnwrapOr(0.0) <= 1.0
  {
    if a.Total() > 0 {
      RatioBounds(a.passed as real, a.Total() as real);
    }
  }

  lemma RatioBounds(n: real, d: real)
    requires d > 0.0
    ensures (n / d >= 1.0 <==> n >= d) && (n / d <= 1.0 <==> n <= d) && (n >= 0.0 ==> n / d >= 0.0)
  {
    assert n / d * d == n;
  }

  /** Outside an executed profile, an outcome is deferred exactly when it was not measured. */
  lemma DeferredIff(p: Profile, r: Report, k: Minimum)
    requires !p.executionRequired
    ensures k in Deferred(p, r) <==> Measured(r, k).None?
  {
    ConcatMapSource(DeferredOf(r), OUTCOMES, k);
    MinimumListed(k);
  }

  /** Reproducibility is complete when run and case hashes are full-length and no two cases share one. */
  lemma ReproducibilityIff(r: Report)
    ensures ReproducibilityComplete(r) <==>
      && |r.runSignature| == 64 && |r.rows| == CaseTotal(r)
      && (forall i :: 0 <= i < |r.rows| ==> |r.rows[i].caseHash| == 64)
      && (forall i, j :: 0 <= i < j < |r.rows| ==> r.rows[i].caseHash != r.rows[j].caseHash)
  {
    var hashes := CaseHashes(r.rows);
    SetSizeDistinct(hashes);
    assert forall i :: 0 <= i < |hashes| ==> hashes[i] in hashes;
  }
}
