/** When a project that a heartbeat has just stamped can be reported unknown in the same answer: exactly
    how long calls may take, and how long the reaper has to wait. */
module StampedProjects {
  import opened Wrappers
  import opened ProjectTable
  import opened RemovalProtocol
  import opened SyncConsistency

  /** No call that has still to write or to read has been in flight for more than d. */
  ghost predicate Prompt(s: State, d: nat) {
    && (forall k :: k in s.syncs && !s.syncs[k].phase.Answered? && !s.syncs[k].phase.Failed? ==> s.clock - s.syncs[k].now <= d)
    && (forall k :: k in s.deletes && s.deletes[k].marked.None? ==> s.clock - s.deletes[k].now <= d)
  }

  /** Every state of the run is prompt, and the reaper keeps soft-deleted rows for r or more. */
  ghost predicate PromptRun(s: State, steps: seq<Step>, d: nat, r: Time)
    decreases |steps|
  {
    && Prompt(s, d)
    && (steps != [] ==>
          && (steps[0].Reap? ==> steps[0].retention >= r)
          && PromptRun(Next(s, steps[0]), steps[1..], d, r))
  }

  /** What the UPDATE of call `c` stamped is still there, recently stamped or recently removed. */
  ghost predicate StampHolds(s: State, c: Sync, d: nat) {
    && c.now <= s.clock
    && (c.phase.Begun? || c.phase.HasRead? ==> c.stamped == {})
    && (c.phase.HasStamped? ==> forall id :: id in c.stamped ==> Fresh(s.table, id, c.now - d))
    && (c.phase.Answered? ==> c.stamped !! c.unknown)
  }

  ghost predicate Fresh(t: Table, id: ProjectId, since: Time) {
    && id in t
    && (Live(t, id) ==> t[id].lastHeartbeat.Some? && t[id].lastHeartbeat.value >= since)
    && (Removed(t, id) ==> t[id].removedAt.value >= since)
  }

  lemma FreshStep(s: State, step: Step, id: ProjectId, since: Time, d: nat)
    requires Prompt(s, d) && Fresh(s.table, id, since) && since <= s.clock - d
    requires step.Reap? ==> step.retention >= s.clock - since
    ensures Fresh(Next(s, step).table, id, since)
  {
  }

  lemma StampStays(s: State, step: Step, c: Sync, c': Sync, d: nat)
    requires Prompt(s, d) && StampHolds(s, c, d)
    requires c.phase.HasStamped? ==> s.clock - c.now <= d
    requires step.Reap? ==> step.retention >= 2 * d
    requires c'.now == c.now && c'.phase == c.phase && c'.stamped == c.stamped && c'.unknown == c.unknown
    ensures StampHolds(Next(s, step), c', d)
  {
    assert s.clock <= Next(s, step).clock;
    if c.phase.HasStamped? {
      forall id | id in c.stamped
        ensures Fresh(Next(s, step).table, id, c.now - d)
      {
        FreshStep(s, step, id, c.now - d, d);
      }
    }
  }

  lemma StampNow(s: State, k: CallId, succeeds: bool, d: nat)
    requires k in s.syncs && s.syncs[k].phase.HasRead? && StampHolds(s, s.syncs[k], d)
    ensures StampHolds(DoStampRows(s, k, succeeds), DoStampRows(s, k, succeeds).syncs[k], d)
  {
  }

  lemma StaleNow(s: State, k: CallId, succeeds: bool, d: nat)
    requires k in s.syncs && s.syncs[k].phase.HasStamped? && StampHolds(s, s.syncs[k], d) && d <= DAY
    ensures StampHolds(DoReadStale(s, k, succeeds), DoReadStale(s, k, succeeds).syncs[k], d)
  {
    var c := s.syncs[k];
    forall id | id in c.stamped
      ensures id !in StaleIds(s.table, c.now - DAY)
    {
      assert Fresh(s.table, id, c.now - d);
    }
  }

  lemma StampStep(s: State, step: Step, k: CallId, d: nat)
    requires Prompt(s, d) && Prompt(Next(s, step), d) && d <= DAY
    requires step.Reap? ==> step.retention >= 2 * d
    requires k in s.syncs ==> StampHolds(s, s.syncs[k], d)
    ensures var s' := Next(s, step); k in s'.syncs ==> StampHolds(s', s'.syncs[k], d)
  {
    var s' := Next(s, step);
    if k in s'.syncs {
      CallStep(s, step, k);
    }
    if k in s'.syncs && k in s.syncs {
      var c, c' := s.syncs[k], s'.syncs[k];
      if c' == c || (step.Register? && c' == AfterInsert(c, step.id)) {
        StampStays(s, step, c, c', d);
      } else if step.StampRows? {
        StampNow(s, k, step.succeeds, d);
      } else if step.ReadStale? {
        StaleNow(s, k, step.succeeds, d);
      }
    }
  }

  ghost predicate StampInv(s: State, d: nat) {
    forall k :: k in s.syncs ==> StampHolds(s, s.syncs[k], d)
  }

  lemma {:induction false} StampHoldsFrom(s: State, steps: seq<Step>, d: nat, r: Time)
    requires PromptRun(s, steps, d, r) && d <= DAY && r >= 2 * d
    requires StampInv(s, d)
    ensures StampInv(Exec(s, steps), d)
    decreases |steps|
  {
    if steps != [] {
      var s' := Next(s, steps[0]);
      assert PromptRun(s', steps[1..], d, r);
      forall k | k in s'.syncs
        ensures StampHolds(s', s'.syncs[k], d)
      {
        StampStep(s, steps[0], k, d);
      }
      StampHoldsFrom(s', steps[1..], d, r);
    }
  }

  /** The call's answer lists as unknown a project that its own UPDATE stamped. */
  ghost predicate StampedIsUnknown(s: State, call: CallId) {
    call in s.syncs && s.syncs[call].phase.Answered? && !(s.syncs[call].stamped !! s.syncs[call].unknown)
  }

  ghost predicate NeverStampedAndUnknown(d: nat, r: Time) {
    forall start, steps, call :: PromptRun(Init(start), steps, d, r) ==> !StampedIsUnknown(At(start, steps), call)
  }

  lemma StampedIsNeverUnknown(start: Time, steps: seq<Step>, call: CallId, d: nat, r: Time)
    requires PromptRun(Init(start), steps, d, r) && d <= DAY && r >= 2 * d
    ensures !StampedIsUnknown(At(start, steps), call)
  {
    StampHoldsFrom(Init(start), steps, d, r);
    var s := At(start, steps);
    assert call in s.syncs ==> StampHolds(s, s.syncs[call], d);
  }

  /** While calls take at most d and the reaper keeps rows for r, no answer ever lists as unknown a project
      that was live when the call's own UPDATE stamped it, whatever else runs in between: exactly if d is
      at most a day and r at least twice d. The reaper's retention is a whole number of days, so never
      less than one. */
  lemma StampedIsNeverUnknownIff(d: nat, r: Time)
    requires r >= DAY
    ensures NeverStampedAndUnknown(d, r) <==> d <= 86_400_000_000_000 && r >= 2 * d
  {
    if d <= DAY && r >= 2 * d {
      forall start, steps, call | PromptRun(Init(start), steps, d, r)
        ensures !StampedIsUnknown(At(start, steps), call)
      {
        StampedIsNeverUnknown(start, steps, call, d, r);
      }
    } else if d > DAY {
      SlowSyncRun(d, r);
      NotNever(d, r);
    } else {
      SlowDeleteRun(d, r);
      NotNever(d, r);
    }
  }

  lemma NotNever(d: nat, r: Time)
    requires CanStampUnknown(d, r)
    ensures !NeverStampedAndUnknown(d, r)
  {
    var s, call :| Reachable(s, d, r) && StampedIsUnknown(s, call);
    var steps :| Leads(steps, s, d, r);
    assert StampedIsUnknown(At(0, steps), call);
  }

  // ----- runs, step by step -----

  lemma {:induction false} PromptSnoc(s: State, steps: seq<Step>, step: Step, d: nat, r: Time)
    requires PromptRun(s, steps, d, r) && Prompt(Next(Exec(s, steps), step), d)
    requires step.Reap? ==> step.retention >= r
    ensures PromptRun(s, steps + [step], d, r)
    decreases |steps|
  {
    var longer := steps + [step];
    if steps == [] {
      assert longer[0] == step && longer[1..] == [];
    } else {
      assert longer[0] == steps[0] && longer[1..] == steps[1..] + [step];
      PromptSnoc(Next(s, steps[0]), steps[1..], step, d, r);
    }
  }

  ghost predicate Leads(steps: seq<Step>, s: State, d: nat, r: Time) {
    At(0, steps) == s && Prompt(s, d) && PromptRun(Init(0), steps, d, r)
  }

  /** Some run from the empty server at time 0 reaches the state, with no call taking longer than d and rows
      kept for r. */
  ghost predicate Reachable(s: State, d: nat, r: Time) {
    exists steps :: Leads(steps, s, d, r)
  }

  lemma Then(s: State, step: Step, s': State, d: nat, r: Time)
    requires Reachable(s, d, r) && Next(s, step) == s' && Prompt(s', d) && (step.Reap? ==> step.retention >= r)
    ensures Reachable(s', d, r)
  {
    var steps :| Leads(steps, s, d, r);
    ExecSnoc(Init(0), steps, step);
    PromptSnoc(Init(0), steps, step, d, r);
    assert Leads(steps + [step], s', d, r);
  }

  /** One row, live, for "p". */
  function Registered(): State {
    Init(0).(table := map["p" := Row(None, None, 0)], lives := map["p" := 1])
  }

  lemma CanRegister(d: nat, r: Time)
    ensures Reachable(Registered(), d, r)
  {
    assert DoRegister(Init(0), "p").syncs == map[];
    assert Leads([], Init(0), d, r);
    Then(Init(0), Register("p"), Registered(), d, r);
  }

  /** A call that has read the table, and has nothing to drop. */
  function Reader(now: Time): Sync {
    var table := Registered().table;
    Sync(["p"], now, HasRead, RemovedAmong(["p"], table), {}, table, {}, {})
  }

  /** A call begins and reads. */
  lemma BeginAndRead(s: State, call: CallId, d: nat, r: Time)
    requires Reachable(s, d, r) && s.table == Registered().table && call !in s.syncs
    ensures Reachable(s.(syncs := s.syncs[call := Reader(s.clock)]), d, r)
  {
    var begun := s.(syncs := s.syncs[call := Reader(s.clock).(phase := Begun, removed := [])]);
    var read := s.(syncs := s.syncs[call := Reader(s.clock)]);
    Then(s, BeginSync(call, ["p"]), begun, d, r);
    Then(begun, ReadRows(call), read, d, r);
  }

  /** Two calls have read the table; the second began more than a day after the first. */
  function BothHaveRead(): State {
    Registered().(clock := DAY + 1, syncs := map[0 := Reader(0), 1 := Reader(DAY + 1)])
  }

  lemma BothCanHaveRead(d: nat, r: Time)
    requires d > DAY
    ensures Reachable(BothHaveRead(), d, r)
  {
    var s := Registered();
    CanRegister(d, r);
    BeginAndRead(s, 0, d, r);
    var one := s.(syncs := map[0 := Reader(0)]);
    var later := one.(clock := DAY + 1);
    assert s.syncs[0 := Reader(0)] == one.syncs;
    Then(one, Tick(DAY + 1), later, d, r);
    BeginAndRead(later, 1, d, r);
    assert later.syncs[1 := Reader(DAY + 1)] == BothHaveRead().syncs;
  }

  lemma StampOne(s: State, call: CallId)
    requires s.table.Keys == {"p"} && Live(s.table, "p")
    requires call in s.syncs && s.syncs[call].reported == ["p"]
    ensures Stamp(s.table, ["p"], s.syncs[call].now) == map["p" := s.table["p"].(lastHeartbeat := Some(s.syncs[call].now))]
    ensures (set id | id in ["p"] && Live(s.table, id)) == {"p"}
  {
  }

  /** The second call has stamped the project, and then the first has. */
  function BothHaveStamped(): State {
    var s := DoStampRows(BothHaveRead(), 1, true);
    DoStampRows(s, 0, true)
  }

  lemma BothCanHaveStamped(d: nat, r: Time)
    requires d > DAY
    ensures Reachable(DoStampRows(BothHaveRead(), 1, true), d, r)
    ensures Reachable(BothHaveStamped(), d, r)
  {
    var s5 := BothHaveRead();
    var s6 := DoStampRows(s5, 1, true);
    BothCanHaveRead(d, r);
    Then(s5, StampRows(1, true), s6, d, r);
    Then(s6, StampRows(0, true), BothHaveStamped(), d, r);
  }

  /** Some such run ends in an answer that reports unknown what its own call stamped. */
  ghost predicate CanStampUnknown(d: nat, r: Time) {
    exists s, call :: Reachable(s, d, r) && StampedIsUnknown(s, call)
  }

  /** A call held up for more than a day stamps last, and the other call reports unknown what it stamped. */
  lemma SlowSyncRun(d: nat, r: Time)
    requires d > DAY
    ensures CanStampUnknown(d, r)
  {
    BothCanHaveStamped(d, r);
    var s7 := BothHaveStamped();
    StampOne(BothHaveRead(), 1);
    StampOne(DoStampRows(BothHaveRead(), 1, true), 0);
    assert "p" in StaleIds(s7.table, 1) && "p" in s7.syncs[1].stamped;
    var s8 := DoReadStale(s7, 1, true);
    Then(s7, ReadStale(1, true), s8, d, r);
    assert StampedIsUnknown(s8, 1);
  }

  /** A delete held up for d has soft-deleted the project just after a heartbeat that began as late has
      stamped it. */
  function StampedThenDeleted(d: nat): State {
    var c := Reader(d).(phase := HasStamped, stamped := {"p"});
    State(d, map["p" := Row(Some(0), Some(d), 0)], map[0 := Delete("p", 0, Some(0))], map[0 := c], [],
          map["p" := 1], map[("p", 0) := Unsent(0)])
  }

  lemma CanBeStampedThenDeleted(d: nat, r: Time)
    ensures Reachable(StampedThenDeleted(d), d, r)
  {
    var s0 := Registered();
    var s1 := s0.(deletes := map[0 := Delete("p", 0, None)]);
    var s2 := s1.(clock := d);
    assert ValidProjectName("p");
    CanRegister(d, r);
    Then(s0, BeginDelete(0, "p"), s1, d, r);
    Then(s1, Tick(d), s2, d, r);
    BeginAndRead(s2, 0, d, r);
    StampAndDelete(d, r);
  }

  lemma StampAndDelete(d: nat, r: Time)
    requires var s := Registered().(clock := d, deletes := map[0 := Delete("p", 0, None)]);
             Reachable(s.(syncs := s.syncs[0 := Reader(d)]), d, r)
    ensures Reachable(StampedThenDeleted(d), d, r)
  {
    var s4 := Registered().(clock := d, deletes := map[0 := Delete("p", 0, None)], syncs := map[0 := Reader(d)]);
    var s5 := s4.(table := map["p" := Row(None, Some(d), 0)], syncs := StampedThenDeleted(d).syncs);
    StampOne(s4, 0);
    Then(s4, StampRows(0, true), s5, d, r);
    Then(s5, MarkRow(0), StampedThenDeleted(d), d, r);
  }

  /** The project is registered, and the waiting call reads its stale list. */
  function RegisteredAndRead(s: State, call: CallId): State
    requires call in s.syncs
  {
    DoReadStale(DoRegister(s, "p"), call, true)
  }

  lemma CanBeRegisteredAndRead(s: State, call: CallId, d: nat, r: Time)
    requires Reachable(s, d, r) && "p" !in s.table && call in s.syncs && s.syncs[call].phase.HasStamped?
    ensures Reachable(RegisteredAndRead(s, call), d, r)
    ensures "p" in RegisteredAndRead(s, call).syncs[call].unknown
  {
    var s' := DoRegister(s, "p");
    Then(s, Register("p"), s', d, r);
    assert "p" in StaleIds(s'.table, s'.syncs[call].now - DAY);
    Then(s', ReadStale(call, true), RegisteredAndRead(s, call), d, r);
  }

  /** The same after the reaper has purged the only row. */
  function PurgedAndBack(s: State, call: CallId): State
    requires call in s.syncs
  {
    RegisteredAndRead(s.(table := map[]), call)
  }

  lemma CanBePurgedAndBack(s: State, call: CallId, d: nat, r: Time)
    requires Reachable(s, d, r) && r >= DAY
    requires s.table.Keys == {"p"} && Removed(s.table, "p") && s.table["p"].removedAt.value < s.clock - r
    requires call in s.syncs && s.syncs[call].phase.HasStamped?
    ensures Reachable(PurgedAndBack(s, call), d, r)
    ensures "p" in PurgedAndBack(s, call).syncs[call].unknown
  {
    assert Purge(s.table, s.clock - r) == map[];
    Then(s, Reap(s.clock, r), s.(table := map[]), d, r);
    CanBeRegisteredAndRead(s.(table := map[]), call, d, r);
  }

  /** The delete is purged and the id registered anew while the heartbeat is still in flight. */
  lemma SlowDeleteRun(d: nat, r: Time)
    requires DAY <= r < 2 * d && d <= DAY
    ensures CanStampUnknown(d, r)
  {
    var s := StampedThenDeleted(d);
    var s' := s.(clock := r + 1);
    CanBeStampedThenDeleted(d, r);
    Then(s, Tick(r + 1 - d), s', d, r);
    CanBePurgedAndBack(s', 0, d, r);
    assert "p" in PurgedAndBack(s', 0).syncs[0].stamped;
    assert StampedIsUnknown(PurgedAndBack(s', 0), 0);
  }
}
