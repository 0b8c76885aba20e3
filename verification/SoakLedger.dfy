// The cycle loop of the multi-user soak: four interleaved periodic actions and
// the ledger they leave behind.

module SoakLedger {
  import opened Rounding
  import opened Wrappers
  import PromptSchedule

  datatype Adapter = Godot | Unity | Unreal

  datatype Config = Config(
    cycles: int, users: int, promptChanges: int,
    saveInterval: int, restartInterval: int, reconnectInterval: int, ticks: int)

  /** What `run_check` demands of its arguments before it starts. */
  predicate Accepted(c: Config) {
    && c.cycles >= 8 && 2 <= c.users <= 16 && c.promptChanges >= 3
    && c.saveInterval > 0 && c.restartInterval > 0 && c.reconnectInterval > 0 && c.ticks > 0
  }

  // The parts of the system the loop drives but does not define.  Applying a
  // prompt change to a CGS gives the new CGS and its hash, or raises; a restart
  // either reproduces the expected state or raises.
  datatype World<!S> = World(apply: (S, nat) -> Option<(S, string)>, restartMatches: (S, int) -> bool)

  datatype Turn = Turn(cycle: int, adapter: Adapter)
  datatype Change = Change(cycle: int, index: nat, pre: string, post: string)
  datatype Stamp = Stamp(cycle: int, hash: string)

  datatype Event =
    | SessionTick(stamp: Stamp)
    | AdapterDisconnect(turn: Turn)
    | AdapterReconnect(turn: Turn)
    | PromptChange(change: Change)
    | SaveCheckpoint(stamp: Stamp)
    | RuntimeRestart(stamp: Stamp)

  // Everything the run accumulates.
  datatype Ledger<S> = Ledger(
    cgs: S, hash: string, connected: map<Adapter, bool>, events: seq<Event>,
    saves: seq<Stamp>, restarts: seq<Stamp>, reconnects: seq<Turn>, prompts: seq<Change>)

  const ALL_CONNECTED: map<Adapter, bool> := map[Godot := true, Unity := true, Unreal := true]

  function Rota(i: int): Adapter {
    match i % 3 case 0 => Godot case 1 => Unity case _ => Unreal
  }

  function Start<S>(cgs: S, hash: string): Ledger<S> {
    Ledger(cgs, hash, ALL_CONNECTED, [], [], [], [], [])
  }

  // ======== One cycle, action by action ========

  function Tick<S>(l: Ledger<S>, cycle: int): Ledger<S> {
    l.(events := l.events + [SessionTick(Stamp(cycle, l.hash))])
  }

  function Reconnect<S>(l: Ledger<S>, c: Config, cycle: int): Ledger<S>
    requires c.reconnectInterval > 0
  {
    if cycle % c.reconnectInterval != 0 then l
    else
      var t := Turn(cycle, Rota(cycle / c.reconnectInterval - 1));
      l.(connected := l.connected[t.adapter := false][t.adapter := true],
         events := l.events + [AdapterDisconnect(t), AdapterReconnect(t)],
         reconnects := l.reconnects + [t])
  }

  /** `_apply_supported_prompt_change`: raises unless the hash is non-empty and changes. */
  function Prompt<S>(w: World<S>, l: Ledger<S>, schedule: set<int>, cycle: int): Option<Ledger<S>> {
    if cycle !in schedule then Some(l)
    else
      var index := |l.prompts| + 1;
      var next :- w.apply(l.cgs, index);
      if next.1 == "" || next.1 == l.hash then None
      else
        var e := Change(cycle, index, l.hash, next.1);
        Some(l.(cgs := next.0, hash := next.1, events := l.events + [PromptChange(e)], prompts := l.prompts + [e]))
  }

  function Save<S>(l: Ledger<S>, c: Config, cycle: int): Ledger<S>
    requires c.saveInterval > 0
  {
    if cycle % c.saveInterval != 0 then l
    else
      var e := Stamp(cycle, l.hash);
      l.(events := l.events + [SaveCheckpoint(e)], saves := l.saves + [e])
  }

  function Restart<S>(w: World<S>, l: Ledger<S>, c: Config, cycle: int): Option<Ledger<S>>
    requires c.restartInterval > 0
  {
    if cycle % c.restartInterval != 0 then Some(l)
    else if !w.restartMatches(l.cgs, cycle) then None
    else
      var e := Stamp(cycle, l.hash);
      Some(l.(events := l.events + [RuntimeRestart(e)], restarts := l.restarts + [e]))
  }

  function Step<S>(w: World<S>, c: Config, schedule: set<int>, l: Ledger<S>, cycle: int): Option<Ledger<S>>
    requires Accepted(c)
  {
    var p :- Prompt(w, Reconnect(Tick(l, cycle), c, cycle), schedule, cycle);
    Restart(w, Save(p, c, cycle), c, cycle)
  }

  /** The ledger after the first k cycles, None once something has raised. */
  function RunTo<S>(w: World<S>, c: Config, schedule: set<int>, start: Ledger<S>, k: nat): Option<Ledger<S>>
    requires Accepted(c)
  {
    if k == 0 then Some(start)
    else
      var l :- RunTo(w, c, schedule, start, k - 1);
      Step(w, c, schedule, l, k)
  }

  // ======== The loop in place ========

  class SoakRun<S> {
    var cgs: S
    var hash: string
    var connected: map<Adapter, bool>
    var events: seq<Event>
    var saves: seq<Stamp>
    var restarts: seq<Stamp>
    var reconnects: seq<Turn>
    var prompts: seq<Change>

    function Value(): Ledger<S>
      reads this
    {
      Ledger(cgs, hash, connected, events, saves, restarts, reconnects, prompts)
    }

    constructor (baseCgs: S, baseHash: string)
      ensures Value() == Start(baseCgs, baseHash)
    {
      cgs, hash, connected := baseCgs, baseHash, ALL_CONNECTED;
      events, saves, restarts, reconnects, prompts := [], [], [], [], [];
    }

    method ReconnectAdapter(c: Config, cycle: int)
      requires c.reconnectInterval > 0
      modifies this
      ensures Value() == Reconnect(old(Value()), c, cycle)
    {
      if cycle % c.reconnectInterval == 0 {
        var adapter := Rota(cycle / c.reconnectInterval - 1);
        connected := connected[adapter := false];
        var disconnect := AdapterDisconnect(Turn(cycle, adapter));
        connected := connected[adapter := true];
        var reconnect := AdapterReconnect(Turn(cycle, adapter));
        events := events + [disconnect, reconnect];
        reconnects := reconnects + [reconnect.turn];
      }
    }

    method ApplyPrompt(w: World<S>, schedule: set<int>, cycle: int) returns (ok: bool)
      modifies this
      ensures (if ok then Some(Value()) else None) == Prompt(w, old(Value()), schedule, cycle)
    {
      if cycle in schedule {
        var promptIndex := |prompts| + 1;
        var preHash := hash;
        var result := w.apply(cgs, promptIndex);
        if result.None? {
          return false;
        }
        var (newCgs, postHash) := result.value;
        if postHash == "" || postHash == preHash {
          return false;
        }
        var record := Change(cycle, promptIndex, preHash, postHash);
        cgs := newCgs;
        hash := postHash;
        events := events + [PromptChange(record)];
        prompts := prompts + [record];
      }
      ok := true;
    }

    /** One turn of the loop; false when something raised. */
    method Cycle(w: World<S>, c: Config, schedule: set<int>, cycle: int) returns (ok: bool)
      requires Accepted(c)
      modifies this
      ensures (if ok then Some(Value()) else None) == Step(w, c, schedule, old(Value()), cycle)
    {
      events := events + [SessionTick(Stamp(cycle, hash))];
      ReconnectAdapter(c, cycle);
      ok := ApplyPrompt(w, schedule, cycle);
      if !ok {
        return;
      }
      if cycle % c.saveInterval == 0 {
        var saveRecord := Stamp(cycle, hash);
        saves := saves + [saveRecord];
        events := events + [SaveCheckpoint(saveRecord)];
      }
      if cycle % c.restartInterval == 0 {
        if !w.restartMatches(cgs, cycle) {
          return false;
        }
        var restartRecord := Stamp(cycle, hash);
        restarts := restarts + [restartRecord];
        events := events + [RuntimeRestart(restartRecord)];
      }
    }

    method Run(w: World<S>, c: Config, schedule: set<int>) returns (ok: bool)
      requires Accepted(c)
      modifies this
      ensures (if ok then Some(Value()) else None) == RunTo(w, c, schedule, old(Value()), c.cycles)
    {
      ok := true;
      var cycle := 1;
      while cycle <= c.cycles
        invariant 1 <= cycle <= c.cycles + 1
        invariant ok && RunTo(w, c, schedule, old(Value()), cycle - 1) == Some(Value())
      {
        ok := Cycle(w, c, schedule, cycle);
        if !ok {
          RaisedStaysRaised(w, c, schedule, old(Value()), cycle, c.cycles);
          return;
        }
        cycle := cycle + 1;
      }
    }
  }

  lemma {:induction false} RaisedStaysRaised<S>(w: World<S>, c: Config, schedule: set<int>, start: Ledger<S>,
          j: nat, k: nat)
    requires Accepted(c) && j <= k && RunTo(w, c, schedule, start, j).None?
    ensures RunTo(w, c, schedule, start, k).None?
    decreases k
  {
    if j < k {
      RaisedStaysRaised(w, c, schedule, start, j, k - 1);
    }
  }

  // ======== Laws of every run ========

  ghost function Due(schedule: set<int>, k: int): set<int> {
    set s | s in schedule && 1 <= s <= k
  }

  lemma DueStep(schedule: set<int>, k: int)
    requires k >= 1
    ensures |Due(schedule, k)| == |Due(schedule, k - 1)| + (if k in schedule then 1 else 0)
  {
    if k in schedule {
      assert Due(schedule, k) == Due(schedule, k - 1) + {k};
    } else {
      assert Due(schedule, k) == Due(schedule, k - 1);
    }
  }

  /** How many of each thing have happened after k cycles. */
  ghost predicate Counts<S>(c: Config, schedule: set<int>, l: Ledger<S>, k: nat)
    requires Accepted(c)
  {
    && |l.saves| == k / c.saveInterval
    && |l.restarts| == k / c.restartInterval
    && |l.reconnects| == k / c.reconnectInterval
    && |l.prompts| == |Due(schedule, k)|
    && |l.events| == k + 2 * |l.reconnects| + |l.prompts| + |l.saves| + |l.restarts|
  }

  /** Reconnects go round the adapters in turn, at the multiples of the interval. */
  ghost predicate ReconnectsInTurn<S>(c: Config, l: Ledger<S>)
    requires Accepted(c)
  {
    && l.connected == ALL_CONNECTED
    && forall i :: 0 <= i < |l.reconnects| ==>
         l.reconnects[i] == Turn((i + 1) * c.reconnectInterval,
                                 if i % 3 == 0 then Godot else if i % 3 == 1 then Unity else Unreal)
  }

  /** The hash in force after the first n prompt records. */
  function HashAfter(base: string, prompts: seq<Change>, n: nat): string
    requires n <= |prompts|
  {
    if n == 0 then base else prompts[n - 1].post
  }

  /** The i-th prompt record: scheduled, numbered in order, starting from the hash before it and changing it. */
  ghost predicate LinkOk(base: string, schedule: set<int>, prompts: seq<Change>, i: nat, k: nat)
    requires i < |prompts|
  {
    && prompts[i].index == i + 1
    && prompts[i].cycle in schedule && 1 <= prompts[i].cycle <= k
    && (i > 0 ==> prompts[i - 1].cycle < prompts[i].cycle)
    && prompts[i].pre == HashAfter(base, prompts, i)
    && prompts[i].post != prompts[i].pre
  }

  /** Each prompt record starts from the hash the previous one left, and the last one's is current. */
  ghost predicate Chained(base: string, schedule: set<int>, prompts: seq<Change>, hash: string, k: nat) {
    && (forall i :: 0 <= i < |prompts| ==> LinkOk(base, schedule, prompts, i, k))
    && hash == HashAfter(base, prompts, |prompts|)
  }

  /** The stamps sit at the multiples of the interval and carry the hash then in force. */
  ghost predicate StampsCurrent(base: string, schedule: set<int>, prompts: seq<Change>, stamps: seq<Stamp>,
          interval: int) {
    forall i :: 0 <= i < |stamps| ==> StampAt(base, schedule, prompts, stamps[i], (i + 1) * interval)
  }

  ghost predicate StampAt(base: string, schedule: set<int>, prompts: seq<Change>, e: Stamp, cycle: int) {
    && |Due(schedule, cycle)| <= |prompts|
    && e == Stamp(cycle, HashAfter(base, prompts, |Due(schedule, cycle)|))
  }

  lemma {:induction false} CountsHold<S>(w: World<S>, c: Config, schedule: set<int>, start: Ledger<S>, k: nat)
    requires Accepted(c) && start == Start(start.cgs, start.hash)
    requires RunTo(w, c, schedule, start, k).Some?
    ensures Counts(c, schedule, RunTo(w, c, schedule, start, k).value, k)
  {
    if k == 0 {
      assert Due(schedule, 0) == {};
    } else {
      CountsHold(w, c, schedule, start, k - 1);
      DivStep(k, c.saveInterval);
      DivStep(k, c.restartInterval);
      DivStep(k, c.reconnectInterval);
      DueStep(schedule, k);
    }
  }

  lemma MultipleOf(k: int, d: int)
    requires d > 0 && k % d == 0
    ensures k == (k / d) * d
  {
    assert k == d * (k / d) + k % d;
  }

  lemma ReconnectKeepsTurns<S>(c: Config, l: Ledger<S>, k: nat)
    requires Accepted(c) && k > 0 && ReconnectsInTurn(c, l) && |l.reconnects| == (k - 1) / c.reconnectInterval
    ensures ReconnectsInTurn(c, Reconnect(l, c, k))
  {
    if k % c.reconnectInterval == 0 {
      DivStep(k, c.reconnectInterval);
      MultipleOf(k, c.reconnectInterval);
      var a := Rota(k / c.reconnectInterval - 1);
      assert l.connected[a := false][a := true] == ALL_CONNECTED;
    }
  }

  // After the reconnect, a cycle leaves the adapters and their turns alone.
  lemma StepTurns<S>(w: World<S>, c: Config, schedule: set<int>, l: Ledger<S>, k: nat)
    requires Accepted(c) && Step(w, c, schedule, l, k).Some?
    ensures var r := Step(w, c, schedule, l, k).value; var m := Reconnect(Tick(l, k), c, k);
      r.reconnects == m.reconnects && r.connected == m.connected
  {}

  lemma {:induction false} ReconnectsHold<S>(w: World<S>, c: Config, schedule: set<int>, start: Ledger<S>, k: nat)
    requires Accepted(c) && start == Start(start.cgs, start.hash)
    requires RunTo(w, c, schedule, start, k).Some?
    ensures ReconnectsInTurn(c, RunTo(w, c, schedule, start, k).value)
  {
    if k > 0 {
      ReconnectsHold(w, c, schedule, start, k - 1);
      CountsHold(w, c, schedule, start, k - 1);
      var l := RunTo(w, c, schedule, start, k - 1).value;
      ReconnectKeepsTurns(c, Tick(l, k), k);
      StepTurns(w, c, schedule, l, k);
    }
  }

  lemma ChainExtends(base: string, schedule: set<int>, prompts: seq<Change>, hash: string, e: Change, k: nat)
    requires k >= 1 && Chained(base, schedule, prompts, hash, k - 1) && k in schedule
    requires e.cycle == k && e.index == |prompts| + 1 && e.pre == hash && e.post != hash
    ensures Chained(base, schedule, prompts + [e], e.post, k)
  {
    var n := prompts + [e];
    forall i | 0 <= i < |n| ensures LinkOk(base, schedule, n, i, k) {
      if i < |prompts| {
        assert LinkOk(base, schedule, prompts, i, k - 1);
      } else if i > 0 {
        assert LinkOk(base, schedule, prompts, i - 1, k - 1);
      }
    }
  }

  /** `_apply_supported_prompt_change` keeps the chain. */
  lemma PromptKeepsChain<S>(w: World<S>, base: string, schedule: set<int>, l: Ledger<S>, k: nat)
    requires k >= 1 && Chained(base, schedule, l.prompts, l.hash, k - 1) && Prompt(w, l, schedule, k).Some?
    ensures var n := Prompt(w, l, schedule, k).value; Chained(base, schedule, n.prompts, n.hash, k)
  {
    if k !in schedule {
      forall i | 0 <= i < |l.prompts| ensures LinkOk(base, schedule, l.prompts, i, k) {
        assert LinkOk(base, schedule, l.prompts, i, k - 1);
      }
    } else {
      var n := Prompt(w, l, schedule, k).value;
      ChainExtends(base, schedule, l.prompts, l.hash, n.prompts[|l.prompts|], k);
    }
  }

  // Only the prompt action touches the prompt records and the hash.
  lemma StepPrompts<S>(w: World<S>, c: Config, schedule: set<int>, l: Ledger<S>, k: nat)
    requires Accepted(c) && Step(w, c, schedule, l, k).Some?
    ensures var m := Reconnect(Tick(l, k), c, k);
      && m.prompts == l.prompts && m.hash == l.hash && Prompt(w, m, schedule, k).Some?
      && var n, p := Step(w, c, schedule, l, k).value, Prompt(w, m, schedule, k).value;
         n.prompts == p.prompts && n.hash == p.hash && l.prompts <= n.prompts
  {}

  lemma {:induction false} ChainHolds<S>(w: World<S>, c: Config, schedule: set<int>, start: Ledger<S>, k: nat)
    requires Accepted(c) && start == Start(start.cgs, start.hash)
    requires RunTo(w, c, schedule, start, k).Some?
    ensures var l := RunTo(w, c, schedule, start, k).value; Chained(start.hash, schedule, l.prompts, l.hash, k)
  {
    if k > 0 {
      ChainHolds(w, c, schedule, start, k - 1);
      var l := RunTo(w, c, schedule, start, k - 1).value;
      StepPrompts(w, c, schedule, l, k);
      PromptKeepsChain(w, start.hash, schedule, Reconnect(Tick(l, k), c, k), k);
    }
  }

  // A list of stamps survives later prompt records, and may grow by the current one.
  lemma StampsExtend(base: string, schedule: set<int>, prompts: seq<Change>, more: seq<Change>, hash: string,
                     stamps: seq<Stamp>, interval: int, k: int)
    requires StampsCurrent(base, schedule, prompts, stamps, interval) && prompts <= more
    requires |Due(schedule, k)| == |more| && hash == HashAfter(base, more, |more|)
    ensures StampsCurrent(base, schedule, more, stamps, interval)
    ensures (|stamps| + 1) * interval == k ==> StampsCurrent(base, schedule, more, stamps + [Stamp(k, hash)], interval)
  {
    forall i | 0 <= i < |stamps| ensures StampAt(base, schedule, more, stamps[i], (i + 1) * interval) {
      assert StampAt(base, schedule, prompts, stamps[i], (i + 1) * interval);
    }
    if (|stamps| + 1) * interval == k {
      var s := stamps + [Stamp(k, hash)];
      forall i | 0 <= i < |s| ensures StampAt(base, schedule, more, s[i], (i + 1) * interval) {
        if i < |stamps| {
          assert s[i] == stamps[i];
        }
      }
    }
  }

  // The stamps a step adds.
  lemma StepStamps<S>(w: World<S>, c: Config, schedule: set<int>, l: Ledger<S>, k: nat)
    requires Accepted(c) && Step(w, c, schedule, l, k).Some?
    ensures var n := Step(w, c, schedule, l, k).value;
      && n.saves == (if k % c.saveInterval == 0 then l.saves + [Stamp(k, n.hash)] else l.saves)
      && n.restarts == (if k % c.restartInterval == 0 then l.restarts + [Stamp(k, n.hash)] else l.restarts)
  {}

  lemma {:induction false} StampsHold<S>(w: World<S>, c: Config, schedule: set<int>, start: Ledger<S>, k: nat)
    requires Accepted(c) && start == Start(start.cgs, start.hash)
    requires RunTo(w, c, schedule, start, k).Some?
    ensures var l := RunTo(w, c, schedule, start, k).value;
      && StampsCurrent(start.hash, schedule, l.prompts, l.saves, c.saveInterval)
      && StampsCurrent(start.hash, schedule, l.prompts, l.restarts, c.restartInterval)
  {
    if k > 0 {
      StampsHold(w, c, schedule, start, k - 1);
      ChainHolds(w, c, schedule, start, k);
      CountsHold(w, c, schedule, start, k - 1);
      CountsHold(w, c, schedule, start, k);
      var l := RunTo(w, c, schedule, start, k - 1).value;
      var n := RunTo(w, c, schedule, start, k).value;
      StepPrompts(w, c, schedule, l, k);
      StepStamps(w, c, schedule, l, k);
      StampCycle(k, c.saveInterval);
      StampCycle(k, c.restartInterval);
      StampsExtend(start.hash, schedule, l.prompts, n.prompts, n.hash, l.saves, c.saveInterval, k);
      StampsExtend(start.hash, schedule, l.prompts, n.prompts, n.hash, l.restarts, c.restartInterval, k);
    }
  }

  lemma StampCycle(k: int, d: int)
    requires k >= 1 && d > 0
    ensures k % d == 0 ==> ((k - 1) / d + 1) * d == k
  {
    DivStep(k, d);
    if k % d == 0 {
      MultipleOf(k, d);
    }
  }

  // ---- Fairness between adapters ----

  ghost function ReconnectsOf(turns: seq<Turn>, a: Adapter): nat {
    if turns == [] then 0
    else ReconnectsOf(turns[..|turns| - 1], a) + if turns[|turns| - 1].adapter == a then 1 else 0
  }

  lemma {:induction false} InTurnCounts(turns: seq<Turn>, a: Adapter)
    requires forall i :: 0 <= i < |turns| ==> turns[i].adapter == Rota(i)
    ensures ReconnectsOf(turns, a) == (|turns| + match a case Godot => 2 case Unity => 1 case Unreal => 0) / 3
  {
    if turns != [] {
      InTurnCounts(turns[..|turns| - 1], a);
    }
  }

  /** No adapter is reconnected more than once more often than another. */
  lemma ReconnectsAreFair<S>(w: World<S>, c: Config, schedule: set<int>, start: Ledger<S>, k: nat, a: Adapter,
          b: Adapter)
    requires Accepted(c) && start == Start(start.cgs, start.hash)
    requires RunTo(w, c, schedule, start, k).Some?
    ensures var r := RunTo(w, c, schedule, start, k).value.reconnects;
      ReconnectsOf(r, a) <= ReconnectsOf(r, b) + 1
  {
    ReconnectsHold(w, c, schedule, start, k);
    var r := RunTo(w, c, schedule, start, k).value.reconnects;
    InTurnCounts(r, a);
    InTurnCounts(r, b);
  }

  // ---- When a run raises ----

  /** The CGS and hash after the first n prompt changes to a base CGS, None once one of them does not apply. */
  function After<S>(w: World<S>, cgs: S, hash: string, n: nat): Option<(S, string)> {
    if n == 0 then Some((cgs, hash))
    else
      var before :- After(w, cgs, hash, n - 1);
      w.apply(before.0, n)
  }

  /** The n-th change applies and leaves a hash that is not empty and not the one before. */
  ghost predicate ChangeApplies<S>(w: World<S>, cgs: S, hash: string, n: nat) {
    && n >= 1
    && var before, after := After(w, cgs, hash, n - 1), After(w, cgs, hash, n);
    before.Some? && after.Some? && after.value.1 != "" && after.value.1 != before.value.1
  }

  /** A restart in this cycle restores the CGS that the changes due by then have led to. */
  ghost predicate RestoresAt<S>(w: World<S>, schedule: set<int>, cgs: S, hash: string, cycle: int) {
    var now := After(w, cgs, hash, |Due(schedule, cycle)|);
    now.Some? && w.restartMatches(now.value.0, cycle)
  }

  /** Every change due in the first k cycles applies, and every restart in them restores. */
  ghost predicate NothingFails<S>(w: World<S>, c: Config, schedule: set<int>, cgs: S, hash: string, k: nat)
    requires Accepted(c)
  {
    && (forall n :: 1 <= n <= |Due(schedule, k)| ==> ChangeApplies(w, cgs, hash, n))
    && (forall m :: 1 <= m <= k && m % c.restartInterval == 0 ==> RestoresAt(w, schedule, cgs, hash, m))
  }

  lemma NothingFailsStep<S>(w: World<S>, c: Config, schedule: set<int>, cgs: S, hash: string, k: nat)
    requires Accepted(c) && k >= 1
    ensures NothingFails(w, c, schedule, cgs, hash, k) <==>
      && NothingFails(w, c, schedule, cgs, hash, k - 1)
      && (k in schedule ==> ChangeApplies(w, cgs, hash, |Due(schedule, k)|))
      && (k % c.restartInterval == 0 ==> RestoresAt(w, schedule, cgs, hash, k))
  {
    DueStep(schedule, k);
  }

  /** What one cycle does to the CGS and the hash, and when it raises. */
  lemma StepRaisesIff<S>(w: World<S>, c: Config, schedule: set<int>, cgs: S, hash: string, l: Ledger<S>, k: nat)
    requires Accepted(c) && k >= 1 && |l.prompts| == |Due(schedule, k - 1)|
    requires After(w, cgs, hash, |Due(schedule, k - 1)|) == Some((l.cgs, l.hash))
    ensures Step(w, c, schedule, l, k).Some? <==>
      && (k in schedule ==> ChangeApplies(w, cgs, hash, |Due(schedule, k)|))
      && (k % c.restartInterval == 0 ==> RestoresAt(w, schedule, cgs, hash, k))
    ensures Step(w, c, schedule, l, k).Some? ==>
      var n := Step(w, c, schedule, l, k).value; After(w, cgs, hash, |Due(schedule, k)|) == Some((n.cgs, n.hash))
  {
    DueStep(schedule, k);
  }

  // A run has got through k cycles exactly when nothing fails in them, and the
  // changes due by then, applied one after the other, give its CGS and hash.
  lemma {:induction false} RunsIff<S>(w: World<S>, c: Config, schedule: set<int>, cgs: S, hash: string, k: nat)
    requires Accepted(c)
    ensures var r := RunTo(w, c, schedule, Start(cgs, hash), k);
      && (r.Some? <==> NothingFails(w, c, schedule, cgs, hash, k))
      && (r.Some? ==> After(w, cgs, hash, |Due(schedule, k)|) == Some((r.value.cgs, r.value.hash)))
  {
    if k == 0 {
      assert Due(schedule, 0) == {};
    } else {
      RunsIff(w, c, schedule, cgs, hash, k - 1);
      NothingFailsStep(w, c, schedule, cgs, hash, k);
      var before := RunTo(w, c, schedule, Start(cgs, hash), k - 1);
      if before.Some? {
        CountsHold(w, c, schedule, Start(cgs, hash), k - 1);
        StepRaisesIff(w, c, schedule, cgs, hash, before.value, k);
      }
    }
  }

  // ---- The event trace ----

  // The events of each kind, in order.
  datatype Log = Log(
    ticks: seq<Stamp>, disconnects: seq<Turn>, reconnects: seq<Turn>,
    prompts: seq<Change>, saves: seq<Stamp>, restarts: seq<Stamp>)

  function Entered(log: Log, event: Event): Log {
    match event
    case SessionTick(e) => log.(ticks := log.ticks + [e])
    case AdapterDisconnect(t) => log.(disconnects := log.disconnects + [t])
    case AdapterReconnect(t) => log.(reconnects := log.reconnects + [t])
    case PromptChange(e) => log.(prompts := log.prompts + [e])
    case SaveCheckpoint(e) => log.(saves := log.saves + [e])
    case RuntimeRestart(e) => log.(restarts := log.restarts + [e])
  }

  function LogOf(events: seq<Event>): Log {
    if events == [] then Log([], [], [], [], [], [])
    else Entered(LogOf(events[..|events| - 1]), events[|events| - 1])
  }

  /** Where an event belongs: by cycle, and within a cycle by kind. */
  function Place(e: Event): int {
    match e
    case SessionTick(e) => 6 * e.cycle
    case AdapterDisconnect(t) => 6 * t.cycle + 1
    case AdapterReconnect(t) => 6 * t.cycle + 2
    case PromptChange(e) => 6 * e.cycle + 3
    case SaveCheckpoint(e) => 6 * e.cycle + 4
    case RuntimeRestart(e) => 6 * e.cycle + 5
  }

  /** The events stand in the order of their places, none at or beyond the bound. */
  ghost predicate InOrder(events: seq<Event>, bound: int) {
    events == []
    || (var last := events[|events| - 1]; Place(last) < bound && InOrder(events[..|events| - 1], Place(last)))
  }

  lemma {:induction false} InOrderMeans(events: seq<Event>, bound: int)
    requires InOrder(events, bound)
    ensures forall i :: 0 <= i < |events| ==> Place(events[i]) < bound
    ensures forall i, j :: 0 <= i < j < |events| ==> Place(events[i]) < Place(events[j])
  {
    if events != [] {
      InOrderMeans(events[..|events| - 1], Place(events[|events| - 1]));
    }
  }

  lemma InOrderBelow(events: seq<Event>, bound: int, more: int)
    requires InOrder(events, bound) && bound <= more
    ensures InOrder(events, more)
  {}

  // The trace holds the ledger's records, these ticks, and nothing else.
  ghost predicate Traced<S>(l: Ledger<S>, ticks: seq<Stamp>, bound: int) {
    && LogOf(l.events) == Log(ticks, l.reconnects, l.reconnects, l.prompts, l.saves, l.restarts)
    && InOrder(l.events, bound)
  }

  lemma LogAppend(events: seq<Event>, e: Event, bound: int)
    requires InOrder(events, bound) && bound <= Place(e)
    ensures InOrder(events + [e], Place(e) + 1)
    ensures LogOf(events + [e]) == Entered(LogOf(events), e)
  {
    InOrderBelow(events, bound, Place(e));
    assert (events + [e])[..|events|] == events;
  }

  lemma TickTraced<S>(l: Ledger<S>, ticks: seq<Stamp>, k: int)
    requires Traced(l, ticks, 6 * k)
    ensures Traced(Tick(l, k), ticks + [Stamp(k, l.hash)], 6 * k + 1)
  {
    LogAppend(l.events, SessionTick(Stamp(k, l.hash)), 6 * k);
  }

  lemma ReconnectTraced<S>(l: Ledger<S>, ticks: seq<Stamp>, c: Config, k: int)
    requires Accepted(c) && Traced(l, ticks, 6 * k + 1)
    ensures Traced(Reconnect(l, c, k), ticks, 6 * k + 3)
  {
    InOrderBelow(l.events, 6 * k + 1, 6 * k + 3);
    if k % c.reconnectInterval == 0 {
      TurnLogged(l.events, Turn(k, Rota(k / c.reconnectInterval - 1)));
    }
  }

  lemma TurnLogged(events: seq<Event>, t: Turn)
    requires InOrder(events, 6 * t.cycle + 1)
    ensures InOrder(events + [AdapterDisconnect(t), AdapterReconnect(t)], 6 * t.cycle + 3)
    ensures LogOf(events + [AdapterDisconnect(t), AdapterReconnect(t)]) == var log := LogOf(events);
      log.(disconnects := log.disconnects + [t], reconnects := log.reconnects + [t])
  {
    var a, b := AdapterDisconnect(t), AdapterReconnect(t);
    LogAppend(events, a, 6 * t.cycle + 1);
    LogAppend(events + [a], b, 6 * t.cycle + 2);
    assert events + [a, b] == (events + [a]) + [b];
  }

  lemma PromptTraced<S>(w: World<S>, l: Ledger<S>, ticks: seq<Stamp>, schedule: set<int>, k: int)
    requires Traced(l, ticks, 6 * k + 3) && Prompt(w, l, schedule, k).Some?
    ensures Traced(Prompt(w, l, schedule, k).value, ticks, 6 * k + 4)
  {
    InOrderBelow(l.events, 6 * k + 3, 6 * k + 4);
    if k in schedule {
      LogAppend(l.events, PromptChange(Prompt(w, l, schedule, k).value.prompts[|l.prompts|]), 6 * k + 3);
    }
  }

  lemma SaveTraced<S>(l: Ledger<S>, ticks: seq<Stamp>, c: Config, k: int)
    requires Accepted(c) && Traced(l, ticks, 6 * k + 4)
    ensures Traced(Save(l, c, k), ticks, 6 * k + 5)
  {
    InOrderBelow(l.events, 6 * k + 4, 6 * k + 5);
    LogAppend(l.events, SaveCheckpoint(Stamp(k, l.hash)), 6 * k + 4);
  }

  lemma RestartTraced<S>(w: World<S>, l: Ledger<S>, ticks: seq<Stamp>, c: Config, k: int)
    requires Accepted(c) && Traced(l, ticks, 6 * k + 5) && Restart(w, l, c, k).Some?
    ensures Traced(Restart(w, l, c, k).value, ticks, 6 * k + 6)
  {
    InOrderBelow(l.events, 6 * k + 5, 6 * k + 6);
    LogAppend(l.events, RuntimeRestart(Stamp(k, l.hash)), 6 * k + 5);
  }

  lemma StepTraced<S>(w: World<S>, c: Config, schedule: set<int>, l: Ledger<S>, ticks: seq<Stamp>, k: int)
    requires Accepted(c) && Step(w, c, schedule, l, k).Some? && Traced(l, ticks, 6 * k)
    ensures Traced(Step(w, c, schedule, l, k).value, ticks + [Stamp(k, l.hash)], 6 * (k + 1))
  {
    var all := ticks + [Stamp(k, l.hash)];
    TickTraced(l, ticks, k);
    ReconnectTraced(Tick(l, k), all, c, k);
    PromptTraced(w, Reconnect(Tick(l, k), c, k), all, schedule, k);
    var p := Prompt(w, Reconnect(Tick(l, k), c, k), schedule, k).value;
    SaveTraced(p, all, c, k);
    RestartTraced(w, Save(p, c, k), all, c, k);
  }

  /** One tick for every cycle, with the hash in force when it begins. */
  ghost predicate TicksAre<S>(w: World<S>, schedule: set<int>, cgs: S, hash: string, ticks: seq<Stamp>, k: nat) {
    |ticks| == k && forall i :: 0 <= i < |ticks| ==> TickAt(w, schedule, cgs, hash, ticks[i], i)
  }

  ghost predicate TickAt<S>(w: World<S>, schedule: set<int>, cgs: S, hash: string, e: Stamp, i: nat) {
    var now := After(w, cgs, hash, |Due(schedule, i)|);
    now.Some? && e == Stamp(i + 1, now.value.1)
  }

  lemma TicksExtend<S>(w: World<S>, schedule: set<int>, cgs: S, hash: string, ticks: seq<Stamp>, now: string, k: nat)
    requires TicksAre(w, schedule, cgs, hash, ticks, k) && TickAt(w, schedule, cgs, hash, Stamp(k + 1, now), k)
    ensures TicksAre(w, schedule, cgs, hash, ticks + [Stamp(k + 1, now)], k + 1)
  {
    var all := ticks + [Stamp(k + 1, now)];
    forall i | 0 <= i < |all| ensures TickAt(w, schedule, cgs, hash, all[i], i) {
      if i < k {
        assert TickAt(w, schedule, cgs, hash, ticks[i], i);
      }
    }
  }

  lemma TraceStep<S>(w: World<S>, c: Config, schedule: set<int>, cgs: S, hash: string, l: Ledger<S>,
                     before: seq<Stamp>, k: nat)
      returns (ticks: seq<Stamp>)
    requires Accepted(c) && k >= 1 && Step(w, c, schedule, l, k).Some?
    requires TicksAre(w, schedule, cgs, hash, before, k - 1) && Traced(l, before, 6 * k)
    requires After(w, cgs, hash, |Due(schedule, k - 1)|) == Some((l.cgs, l.hash))
    ensures TicksAre(w, schedule, cgs, hash, ticks, k)
    ensures Traced(Step(w, c, schedule, l, k).value, ticks, 6 * (k + 1))
  {
    ticks := before + [Stamp(k, l.hash)];
    StepTraced(w, c, schedule, l, before, k);
    TicksExtend(w, schedule, cgs, hash, before, l.hash, k - 1);
  }

  // The last cycle of a run, as a step from the ledger before it.
  lemma LastStep<S>(w: World<S>, c: Config, schedule: set<int>, cgs: S, hash: string, k: nat) returns (l: Ledger<S>)
    requires Accepted(c) && k >= 1 && RunTo(w, c, schedule, Start(cgs, hash), k).Some?
    ensures RunTo(w, c, schedule, Start(cgs, hash), k - 1) == Some(l)
    ensures Step(w, c, schedule, l, k) == RunTo(w, c, schedule, Start(cgs, hash), k)
    ensures After(w, cgs, hash, |Due(schedule, k - 1)|) == Some((l.cgs, l.hash))
  {
    l := RunTo(w, c, schedule, Start(cgs, hash), k - 1).value;
    RunsIff(w, c, schedule, cgs, hash, k - 1);
  }

  /** The trace is the ledger's records and one tick per cycle, each event in its place and none besides. */
  lemma {:induction false} TraceIsLedger<S>(w: World<S>, c: Config, schedule: set<int>, cgs: S, hash: string, k: nat)
      returns (ticks: seq<Stamp>)
    requires Accepted(c) && RunTo(w, c, schedule, Start(cgs, hash), k).Some?
    ensures TicksAre(w, schedule, cgs, hash, ticks, k)
    ensures Traced(RunTo(w, c, schedule, Start(cgs, hash), k).value, ticks, 6 * (k + 1))
  {
    if k == 0 {
      ticks := [];
    } else {
      var l := LastStep(w, c, schedule, cgs, hash, k);
      var before := TraceIsLedger(w, c, schedule, cgs, hash, k - 1);
      ticks := TraceStep(w, c, schedule, cgs, hash, l, before, k);
    }
  }

  // ---- The closing checks ----

  function TicksIn(events: seq<Event>): nat {
    if events == [] then 0
    else TicksIn(events[..|events| - 1]) + if events[|events| - 1].SessionTick? then 1 else 0
  }

  lemma TicksAppend(events: seq<Event>, e: Event)
    ensures TicksIn(events + [e]) == TicksIn(events) + if e.SessionTick? then 1 else 0
  {
    assert (events + [e])[..|events|] == events;
  }

  lemma ReconnectKeepsTicks<S>(l: Ledger<S>, c: Config, k: int)
    requires Accepted(c)
    ensures TicksIn(Reconnect(l, c, k).events) == TicksIn(l.events)
  {
    if k % c.reconnectInterval == 0 {
      var t := Turn(k, Rota(k / c.reconnectInterval - 1));
      var a, b := AdapterDisconnect(t), AdapterReconnect(t);
      TicksAppend(l.events, a);
      TicksAppend(l.events + [a], b);
      assert l.events + [a, b] == (l.events + [a]) + [b];
    }
  }

  lemma PromptKeepsTicks<S>(w: World<S>, l: Ledger<S>, schedule: set<int>, k: int)
    requires Prompt(w, l, schedule, k).Some?
    ensures TicksIn(Prompt(w, l, schedule, k).value.events) == TicksIn(l.events)
  {
    if k in schedule {
      var e := Prompt(w, l, schedule, k).value.prompts[|l.prompts|];
      TicksAppend(l.events, PromptChange(e));
    }
  }

  lemma ActionsKeepTicks<S>(w: World<S>, c: Config, schedule: set<int>, l: Ledger<S>, k: int)
    requires Accepted(c) && Step(w, c, schedule, l, k).Some?
    ensures TicksIn(Step(w, c, schedule, l, k).value.events) == TicksIn(l.events) + 1
  {
    var a := Tick(l, k);
    TicksAppend(l.events, SessionTick(Stamp(k, l.hash)));
    ReconnectKeepsTicks(a, c, k);
    var b := Reconnect(a, c, k);
    PromptKeepsTicks(w, b, schedule, k);
    var p := Prompt(w, b, schedule, k).value;
    SaveKeepsTicks(p, c, k);
    RestartKeepsTicks(w, Save(p, c, k), c, k);
  }

  lemma SaveKeepsTicks<S>(l: Ledger<S>, c: Config, k: int)
    requires Accepted(c)
    ensures TicksIn(Save(l, c, k).events) == TicksIn(l.events)
  {
    TicksAppend(l.events, SaveCheckpoint(Stamp(k, l.hash)));
  }

  lemma RestartKeepsTicks<S>(w: World<S>, l: Ledger<S>, c: Config, k: int)
    requires Accepted(c) && Restart(w, l, c, k).Some?
    ensures TicksIn(Restart(w, l, c, k).value.events) == TicksIn(l.events)
  {
    TicksAppend(l.events, RuntimeRestart(Stamp(k, l.hash)));
  }

  lemma {:induction false} OneTickPerCycle<S>(w: World<S>, c: Config, schedule: set<int>, start: Ledger<S>, k: nat)
    requires Accepted(c) && start == Start(start.cgs, start.hash)
    requires RunTo(w, c, schedule, start, k).Some?
    ensures TicksIn(RunTo(w, c, schedule, start, k).value.events) == k
  {
    if k > 0 {
      OneTickPerCycle(w, c, schedule, start, k - 1);
      ActionsKeepTicks(w, c, schedule, RunTo(w, c, schedule, start, k - 1).value, k);
    }
  }

  /** The schedule the run uses: `_prompt_schedule(cycles, prompt_changes)`. */
  ghost function ScheduleOf(c: Config): set<int>
    requires Accepted(c)
  {
    if c.promptChanges >= c.cycles then PromptSchedule.Range(c.cycles)
    else PromptSchedule.Points(c.cycles, c.promptChanges, c.promptChanges)
  }

  lemma ScheduleSize(c: Config)
    requires Accepted(c)
    ensures Due(ScheduleOf(c), c.cycles) == ScheduleOf(c)
    ensures |ScheduleOf(c)| == if c.promptChanges < c.cycles then c.promptChanges else c.cycles
  {
    if c.promptChanges < c.cycles {
      PromptSchedule.ScheduleIsExactAndEven(c.cycles, c.promptChanges);
    }
  }

  /** The ledger's own entries in the report's `checks`. */
  predicate LedgerChecks<S>(c: Config, l: Ledger<S>)
    requires Accepted(c)
  {
    && TicksIn(l.events) == c.cycles
    && |l.saves| >= c.cycles / c.saveInterval
    && |l.prompts| >= c.promptChanges
    && |l.restarts| >= c.cycles / c.restartInterval
    && |l.reconnects| >= c.cycles / c.reconnectInterval
  }

  /** A completed run passes its ledger checks exactly when no more changes than cycles were asked for. */
  lemma CompletedRunChecksIff<S>(w: World<S>, c: Config, start: Ledger<S>)
    requires Accepted(c) && start == Start(start.cgs, start.hash)
    requires RunTo(w, c, ScheduleOf(c), start, c.cycles).Some?
    ensures LedgerChecks(c, RunTo(w, c, ScheduleOf(c), start, c.cycles).value) <==> c.promptChanges <= c.cycles
  {
    OneTickPerCycle(w, c, ScheduleOf(c), start, c.cycles);
    CountsHold(w, c, ScheduleOf(c), start, c.cycles);
    ScheduleSize(c);
  }

  /** The event count of a completed run in closed form. */
  lemma CompletedRunEventCount<S>(w: World<S>, c: Config, start: Ledger<S>)
    requires Accepted(c) && start == Start(start.cgs, start.hash)
    requires RunTo(w, c, ScheduleOf(c), start, c.cycles).Some?
    ensures |RunTo(w, c, ScheduleOf(c), start, c.cycles).value.events|
         == c.cycles + 2 * (c.cycles / c.reconnectInterval)
            + (if c.promptChanges < c.cycles then c.promptChanges else c.cycles)
            + c.cycles / c.saveInterval + c.cycles / c.restartInterval
  {
    CountsHold(w, c, ScheduleOf(c), start, c.cycles);
    ScheduleSize(c);
  }

  datatype Outcome<S> = Rejected | Raised | Finished(ledger: Ledger<S>, ok: bool)

  /** `run_check`, its subprocess proofs aside: arguments, schedule, loop, ledger checks. */
  method RunCheck<S>(w: World<S>, c: Config, baseCgs: S, baseHash: string) returns (o: Outcome<S>)
    ensures o.Rejected? <==> !Accepted(c)
    ensures Accepted(c) ==>
      match RunTo(w, c, ScheduleOf(c), Start(baseCgs, baseHash), c.cycles)
      case None => o == Raised
      case Some(l) => o == Finished(l, c.promptChanges <= c.cycles)
    ensures Accepted(c) ==> (o.Raised? <==> !NothingFails(w, c, ScheduleOf(c), baseCgs, baseHash, c.cycles))
    ensures o.Finished? ==>
      After(w, baseCgs, baseHash, |ScheduleOf(c)|) == Some((o.ledger.cgs, o.ledger.hash))
  {
    if !Accepted(c) {
      return Rejected;
    }
    RunsIff(w, c, ScheduleOf(c), baseCgs, baseHash, c.cycles);
    ScheduleSize(c);
    var run := new SoakRun<S>(baseCgs, baseHash);
    var schedule := PromptSchedule.Schedule(c.cycles, c.promptChanges);
    assert schedule == PromptSchedule.Scheduled(ScheduleOf(c));
    var ok := run.Run(w, c, schedule.at);
    if !ok {
      return Raised;
    }
    CompletedRunChecksIff(w, c, Start(baseCgs, baseHash));
    o := Finished(run.Value(), LedgerChecks(c, run.Value()));
  }

  // ---- A request that cannot be met ----

  /** A project that takes every change, its hash alternating between two texts, and restores faithfully. */
  function Obliging(): World<bool> {
    World((s, i) => Some((!s, if s then "a" else "b")), (s, cycle) => true)
  }

  lemma {:induction false} ObligingNeverRaises(c: Config, schedule: set<int>, k: nat)
    requires Accepted(c)
    ensures var l := RunTo(Obliging(), c, schedule, Start(false, "a"), k);
      l.Some? && l.value.hash == if l.value.cgs then "b" else "a"
  {
    if k > 0 {
      ObligingNeverRaises(c, schedule, k - 1);
      ObligingStep(c, schedule, RunTo(Obliging(), c, schedule, Start(false, "a"), k - 1).value, k);
    }
  }

  lemma ObligingStep(c: Config, schedule: set<int>, l: Ledger<bool>, k: int)
    requires Accepted(c) && l.hash == if l.cgs then "b" else "a"
    ensures var next := Step(Obliging(), c, schedule, l, k);
      next.Some? && next.value.hash == if next.value.cgs then "b" else "a"
  {
    var m := Reconnect(Tick(l, k), c, k);
    assert m.cgs == l.cgs && m.hash == l.hash;
    assert "a"[0] != "b"[0];
  }

  /** Nine prompt changes in eight cycles are accepted, run to the end, and fail the closing check. */
  lemma OverlongRequestFails(c: Config)
    requires c == Config(8, 2, 9, 1, 1, 1, 1)
    ensures Accepted(c)
    ensures var l := RunTo(Obliging(), c, ScheduleOf(c), Start(false, "a"), c.cycles);
      l.Some? && !LedgerChecks(c, l.value)
  {
    ObligingNeverRaises(c, ScheduleOf(c), c.cycles);
    CompletedRunChecksIff(Obliging(), c, Start(false, "a"));
  }

  /** A restart that does not restore makes the run raise in its first cycle. */
  lemma UnfaithfulRestartRaises(w: World<bool>, c: Config)
    requires c == Config(8, 2, 3, 1, 1, 1, 1)
    requires w == World(Obliging().apply, (s, cycle) => false)
    ensures Accepted(c) && RunTo(w, c, ScheduleOf(c), Start(false, "a"), c.cycles).None?
  {
    RunsIff(w, c, ScheduleOf(c), false, "a", c.cycles);
    assert !RestoresAt(w, ScheduleOf(c), false, "a", 1);
  }
}
