/** What a heartbeat says: whose it is, when it can move backwards, and when one answer can list an id both
    as removed and as unknown. Over every run, with exact conditions. */
module Heartbeats {
  import opened Wrappers
  import opened ProjectTable
  import opened RemovalProtocol
  import opened SyncConsistency
  import opened StampedProjects

  // ----- the calls that stamp a row -----

  /** The step stamps the row of this id. */
  predicate Stamps(s: State, step: Step, id: ProjectId) {
    && step.StampRows? && step.succeeds && step.call in s.syncs && s.syncs[step.call].phase.HasRead?
    && id in s.syncs[step.call].reported && Live(s.table, id)
  }

  /** The calls that stamped one life of an id in a run, in the order of their UPDATEs. */
  function Stampers(start: Time, steps: seq<Step>, id: ProjectId, life: nat): seq<CallId> {
    if steps == [] then [] else
      var front, last := steps[..|steps| - 1], steps[|steps| - 1];
      var s := At(start, front);
      Stampers(start, front, id, life) + if Stamps(s, last, id) && s.table[id].life == life then [last.call] else []
  }

  /** How a step changes the heartbeat of a row that stays. */
  lemma HeartbeatStep(s: State, step: Step, id: ProjectId)
    requires id in s.table && id in Next(s, step).table
    ensures Next(s, step).table[id].life == s.table[id].life
    ensures Next(s, step).table[id].lastHeartbeat ==
            if Stamps(s, step, id) then Some(s.syncs[step.call].now) else s.table[id].lastHeartbeat
  {
  }

  /** The beginning of a call is fixed. */
  lemma BeginStays(s: State, step: Step, k: CallId)
    requires k in s.syncs
    ensures k in Next(s, step).syncs && Next(s, step).syncs[k].now == s.syncs[k].now
  {
  }

  lemma NewRow(s: State, step: Step, id: ProjectId)
    requires id !in s.table && id in Next(s, step).table
    ensures Next(s, step).table[id] == Row(None, None, Lives(s, id))
  {
    EachRowSteps(s, step, id);
  }

  /** In every run, a row's heartbeat is the beginning of the call that last stamped this life of it; no
      call has stamped a life still to come. */
  lemma {:induction false} HeartbeatIsTheLastStampers(start: Time, steps: seq<Step>, id: ProjectId, life: nat)
    ensures var s, calls := At(start, steps), Stampers(start, steps, id, life);
            && (forall k :: k in calls ==> k in s.syncs)
            && (life >= Lives(s, id) ==> calls == [])
            && (id in s.table && s.table[id].life == life ==>
                  s.table[id].lastHeartbeat == if calls == [] then None else Some(s.syncs[calls[|calls| - 1]].now))
  {
    if steps != [] {
      var front, last := steps[..|steps| - 1], steps[|steps| - 1];
      var s := At(start, front);
      HeartbeatIsTheLastStampers(start, front, id, life);
      LedgerHoldsFrom(Init(start), front);
      AtLast(start, steps);
      LastStamperStep(s, last, id, life, Stampers(start, front, id, life));
    }
  }

  lemma LastStamperStep(s: State, step: Step, id: ProjectId, life: nat, calls: seq<CallId>)
    requires forall k :: k in calls ==> k in s.syncs
    requires life >= Lives(s, id) ==> calls == []
    requires id in s.table ==> Lives(s, id) == s.table[id].life + 1
    requires id in s.table && s.table[id].life == life ==>
               s.table[id].lastHeartbeat == if calls == [] then None else Some(s.syncs[calls[|calls| - 1]].now)
    ensures var s' := Next(s, step);
            var calls' := calls + if Stamps(s, step, id) && s.table[id].life == life then [step.call] else [];
            && (forall k :: k in calls' ==> k in s'.syncs)
            && (life >= Lives(s', id) ==> calls' == [])
            && (id in s'.table && s'.table[id].life == life ==>
                  s'.table[id].lastHeartbeat == if calls' == [] then None else Some(s'.syncs[calls'[|calls'| - 1]].now))
  {
    var s' := Next(s, step);
    forall k | k in s.syncs
      ensures k in s'.syncs && s'.syncs[k].now == s.syncs[k].now
    {
      BeginStays(s, step, k);
    }
    assert Lives(s, id) <= Lives(s', id) by { EachRowSteps(s, step, id); }
    if id in s'.table {
      if id in s.table {
        HeartbeatStep(s, step, id);
      } else {
        NewRow(s, step, id);
      }
    }
  }

  // ----- when a heartbeat moves backwards -----

  /** The step leaves the row, and an earlier heartbeat in it. */
  ghost predicate Lowers(s: State, step: Step, id: ProjectId) {
    var s' := Next(s, step);
    && id in s.table && id in s'.table && s.table[id].lastHeartbeat.Some?
    && (s'.table[id].lastHeartbeat.None? || s'.table[id].lastHeartbeat.value < s.table[id].lastHeartbeat.value)
  }

  /** A step lowers a heartbeat exactly if it is the UPDATE of a call that stamps the row and the call that
      stamped it last, in this life, began later. */
  lemma LowersIff(start: Time, steps: seq<Step>, step: Step, id: ProjectId)
    requires id in At(start, steps).table
    ensures var s := At(start, steps);
            var calls := Stampers(start, steps, id, s.table[id].life);
            && (forall k :: k in calls ==> k in s.syncs)
            && (Lowers(s, step, id) <==>
                  Stamps(s, step, id) && calls != [] && s.syncs[calls[|calls| - 1]].now > s.syncs[step.call].now)
  {
    var s := At(start, steps);
    HeartbeatIsTheLastStampers(start, steps, id, s.table[id].life);
    LowersStep(s, step, id, Stampers(start, steps, id, s.table[id].life));
  }

  lemma LowersStep(s: State, step: Step, id: ProjectId, calls: seq<CallId>)
    requires id in s.table && forall k :: k in calls ==> k in s.syncs
    requires s.table[id].lastHeartbeat == if calls == [] then None else Some(s.syncs[calls[|calls| - 1]].now)
    ensures Lowers(s, step, id) <==>
              Stamps(s, step, id) && calls != [] && s.syncs[calls[|calls| - 1]].now > s.syncs[step.call].now
  {
    if Stamps(s, step, id) {
      assert id in Next(s, step).table by { KeptAlive(s, step, id); }
    }
    if id in Next(s, step).table {
      HeartbeatStep(s, step, id);
    }
  }

  ghost predicate NeverLowered(start: Time, steps: seq<Step>, id: ProjectId) {
    steps != [] ==>
      var front, last := steps[..|steps| - 1], steps[|steps| - 1];
      NeverLowered(start, front, id) && !Lowers(At(start, front), last, id)
  }

  /** The calls began in the order in which they are listed, or at the same time. */
  ghost predicate InBeginOrder(s: State, calls: seq<CallId>) {
    && (forall k :: k in calls ==> k in s.syncs)
    && forall i, j :: 0 <= i < j < |calls| ==> s.syncs[calls[i]].now <= s.syncs[calls[j]].now
  }

  ghost predicate LifeInOrder(start: Time, steps: seq<Step>, id: ProjectId, life: nat) {
    InBeginOrder(At(start, steps), Stampers(start, steps, id, life))
  }

  lemma OneMoreInOrder(s: State, calls: seq<CallId>, k: CallId)
    requires k in s.syncs && forall x :: x in calls ==> x in s.syncs
    ensures InBeginOrder(s, calls + [k]) <==>
              InBeginOrder(s, calls) && (calls == [] || s.syncs[calls[|calls| - 1]].now <= s.syncs[k].now)
  {
    var longer := calls + [k];
    if InBeginOrder(s, longer) {
      forall i, j | 0 <= i < j < |calls|
        ensures s.syncs[calls[i]].now <= s.syncs[calls[j]].now
      {
        assert s.syncs[longer[i]].now <= s.syncs[longer[j]].now;
      }
      assert calls != [] ==> s.syncs[longer[|calls| - 1]].now <= s.syncs[longer[|calls|]].now;
    }
  }

  /** Over a whole run, no heartbeat of a project ever moves backwards exactly if the UPDATEs that stamp
      each life of it come in the order in which their calls began. */
  lemma {:induction false} NeverLoweredIff(start: Time, steps: seq<Step>, id: ProjectId)
    ensures NeverLowered(start, steps, id) <==>
              forall life: nat :: LifeInOrder(start, steps, id, life)
  {
    if steps != [] {
      var front, last := steps[..|steps| - 1], steps[|steps| - 1];
      var s := At(start, front);
      NeverLoweredIff(start, front, id);
      AtLast(start, steps);
      forall life: nat
        ensures LifeInOrder(start, steps, id, life) <==>
                  LifeInOrder(start, front, id, life) && !(id in s.table && s.table[id].life == life && Lowers(s, last, id))
      {
        LifeStep(start, front, last, id, life);
        assert steps == front + [last];
      }
      AllLives(start, front, steps, id);
    } else {
      forall life: nat ensures LifeInOrder(start, steps, id, life) {}
    }
  }

  lemma AllLives(start: Time, front: seq<Step>, steps: seq<Step>, id: ProjectId)
    requires steps != [] && front == steps[..|steps| - 1]
    requires var s, last := At(start, front), steps[|steps| - 1];
             forall life: nat :: LifeInOrder(start, steps, id, life) <==>
               LifeInOrder(start, front, id, life) && !(id in s.table && s.table[id].life == life && Lowers(s, last, id))
    ensures (forall life: nat :: LifeInOrder(start, steps, id, life)) <==>
              (forall life: nat :: LifeInOrder(start, front, id, life)) && !Lowers(At(start, front), steps[|steps| - 1], id)
  {
    var s := At(start, front);
    if id in s.table {
      assert LifeInOrder(start, steps, id, s.table[id].life) ==> !Lowers(s, steps[|steps| - 1], id);
    }
    forall life: nat | LifeInOrder(start, steps, id, life)
      ensures LifeInOrder(start, front, id, life)
    {
    }
  }

  lemma LifeStep(start: Time, front: seq<Step>, last: Step, id: ProjectId, life: nat)
    ensures var s := At(start, front);
            LifeInOrder(start, front + [last], id, life) <==>
              LifeInOrder(start, front, id, life) && !(id in s.table && s.table[id].life == life && Lowers(s, last, id))
  {
    var steps, calls := front + [last], Stampers(start, front, id, life);
    assert steps[..|steps| - 1] == front;
    AtLast(start, steps);
    HeartbeatIsTheLastStampers(start, front, id, life);
    OrderAfter(At(start, front), last, id, life, calls);
  }

  lemma OrderAfter(s: State, step: Step, id: ProjectId, life: nat, calls: seq<CallId>)
    requires forall k :: k in calls ==> k in s.syncs
    requires id in s.table && s.table[id].life == life ==>
               s.table[id].lastHeartbeat == if calls == [] then None else Some(s.syncs[calls[|calls| - 1]].now)
    ensures InBeginOrder(Next(s, step), calls + if Stamps(s, step, id) && s.table[id].life == life then [step.call] else [])
            <==> InBeginOrder(s, calls) && !(id in s.table && s.table[id].life == life && Lowers(s, step, id))
  {
    if id in s.table && s.table[id].life == life {
      LowersStep(s, step, id, calls);
    }
    if Stamps(s, step, id) && s.table[id].life == life {
      SameOrder(s, step, calls + [step.call]);
      OneMoreInOrder(s, calls, step.call);
    } else {
      SameOrder(s, step, calls);
      assert calls + [] == calls;
    }
  }

  lemma SameOrder(s: State, step: Step, calls: seq<CallId>)
    requires forall x :: x in calls ==> x in s.syncs
    ensures InBeginOrder(Next(s, step), calls) <==> InBeginOrder(s, calls)
  {
    forall x | x in s.syncs
      ensures x in Next(s, step).syncs && Next(s, step).syncs[x].now == s.syncs[x].now
    {
      BeginStays(s, step, x);
    }
  }

  /** And it does happen: a call held up for more than a day writes its old `now` over a newer heartbeat. */
  lemma SlowSyncTurnsTheHeartbeatBack()
    ensures var s := DoStampRows(BothHaveRead(), 1, true);
            && Reachable(s, DAY + 1, DAY) && Lowers(s, StampRows(0, true), "p")
            && s.table["p"].lastHeartbeat == Some(DAY + 1) && Next(s, StampRows(0, true)).table["p"].lastHeartbeat == Some(0)
  {
    BothCanHaveStamped(DAY + 1, DAY);
    var s := DoStampRows(BothHaveRead(), 1, true);
    StampOne(BothHaveRead(), 1);
    StampOne(s, 0);
    assert Next(s, StampRows(0, true)) == DoStampRows(s, 0, true);
  }

  // ----- an id in both lists of one answer -----

  /** What the answer of a call that has stamped would be now. */
  function Answer(s: State, call: CallId): Sync
    requires call in s.syncs
  {
    DoReadStale(s, call, true).syncs[call]
  }

  /** In any run, an id is in both lists exactly if it is in the first and its row, live now, was stamped in
      this life by no call, or last by one that began more than a day before this one. */
  lemma InBothListsInGeneral(start: Time, steps: seq<Step>, call: CallId, id: ProjectId)
    requires call in At(start, steps).syncs
    ensures var s := At(start, steps);
            var c := Answer(s, call);
            && (id in s.table ==> forall k :: k in Stampers(start, steps, id, s.table[id].life) ==> k in s.syncs)
            && (id in c.removed && id in c.unknown <==>
                  && id in c.removed && Live(s.table, id)
                  && var calls := Stampers(start, steps, id, s.table[id].life);
                     calls == [] || s.syncs[calls[|calls| - 1]].now < c.now - DAY)
  {
    var s := At(start, steps);
    if id in s.table {
      HeartbeatIsTheLastStampers(start, steps, id, s.table[id].life);
    }
  }

  /** The ids inserted since the call's first statement and since then neither stamped nor soft-deleted. */
  function LeftAlone(start: Time, steps: seq<Step>, call: CallId): set<ProjectId> {
    if steps == [] then {} else
      var front, last := steps[..|steps| - 1], steps[|steps| - 1];
      AloneAfter(At(start, front), last, call, LeftAlone(start, front, call))
  }

  predicate Inserts(s: State, step: Step, id: ProjectId) {
    step == Register(id) && id != "" && id !in s.table
  }

  function AloneAfter(s: State, step: Step, call: CallId, ids: set<ProjectId>): set<ProjectId> {
    if step == ReadRows(call) && call in s.syncs && s.syncs[call].phase.Begun? then {}
    else if step.Register? && Inserts(s, step, step.id) then ids + {step.id}
    else set id | id in ids && !Stamps(s, step, id) && !DeletesNow(s, step, id)
  }

  /** Ids left alone are live and have no heartbeat; other rows that are live now and were not at the first
      statement have a heartbeat no more than a day older than the call. */
  ghost predicate AloneInv(s: State, call: CallId, ids: set<ProjectId>) {
    && (forall id :: id in ids ==> Live(s.table, id) && s.table[id].lastHeartbeat.None?)
    && (call in s.syncs ==>
          var c := s.syncs[call];
          && c.now <= s.clock
          && forall id :: Live(s.table, id) && !Live(c.seen, id) ==> id in ids || Recent(s.table[id], c.now - DAY))
  }

  predicate Recent(row: Row, since: Time) {
    row.lastHeartbeat.Some? && row.lastHeartbeat.value >= since
  }

  lemma {:induction false} AloneHolds(start: Time, steps: seq<Step>, call: CallId)
    requires PromptRun(Init(start), steps, DAY, DAY)
    ensures AloneInv(At(start, steps), call, LeftAlone(start, steps, call))
  {
    if steps != [] {
      var front, last := steps[..|steps| - 1], steps[|steps| - 1];
      assert steps == front + [last];
      PromptFront(Init(start), front, last);
      AloneHolds(start, front, call);
      AtLast(start, steps);
      AloneStep(At(start, front), last, call, LeftAlone(start, front, call));
    }
  }

  lemma {:induction false} PromptFront(s: State, front: seq<Step>, last: Step)
    requires PromptRun(s, front + [last], DAY, DAY)
    ensures PromptRun(s, front, DAY, DAY) && Prompt(Exec(s, front), DAY)
    decreases |front|
  {
    if front != [] {
      var steps := front + [last];
      assert steps[0] == front[0] && steps[1..] == front[1..] + [last];
      PromptFront(Next(s, front[0]), front[1..], last);
    }
  }

  lemma AloneStep(s: State, step: Step, call: CallId, ids: set<ProjectId>)
    requires AloneInv(s, call, ids) && Prompt(s, DAY)
    ensures AloneInv(Next(s, step), call, AloneAfter(s, step, call, ids))
  {
    var s', ids' := Next(s, step), AloneAfter(s, step, call, ids);
    forall id | id in ids'
      ensures Live(s'.table, id) && s'.table[id].lastHeartbeat.None?
    {
      AloneStays(s, step, id);
    }
    if call in s'.syncs {
      BeginsInThePast(s, step, call);
      var c' := s'.syncs[call];
      forall id | Live(s'.table, id) && !Live(c'.seen, id)
        ensures id in ids' || Recent(s'.table[id], c'.now - DAY)
      {
        OthersAreRecent(s, step, call, ids, id);
      }
    }
  }

  /** A call's first statement reads the table as it is; after that the call's picture is fixed. */
  lemma SeenStep(s: State, step: Step, call: CallId)
    requires call in Next(s, step).syncs
    ensures var c' := Next(s, step).syncs[call];
            || c'.seen == Next(s, step).table
            || (call in s.syncs && c'.seen == s.syncs[call].seen && c'.now == s.syncs[call].now
                && !(step == ReadRows(call) && s.syncs[call].phase.Begun?))
  {
    CallStep(s, step, call);
  }

  lemma BeginsInThePast(s: State, step: Step, call: CallId)
    requires call in s.syncs ==> s.syncs[call].now <= s.clock
    ensures call in Next(s, step).syncs ==> Next(s, step).syncs[call].now <= Next(s, step).clock
  {
    CallStep(s, step, call);
    assert s.clock <= Next(s, step).clock;
  }

  lemma OthersAreRecent(s: State, step: Step, call: CallId, ids: set<ProjectId>, id: ProjectId)
    requires AloneInv(s, call, ids) && Prompt(s, DAY) && call in Next(s, step).syncs
    requires Live(Next(s, step).table, id) && !Live(Next(s, step).syncs[call].seen, id)
    ensures id in AloneAfter(s, step, call, ids) || Recent(Next(s, step).table[id], Next(s, step).syncs[call].now - DAY)
  {
    SeenStep(s, step, call);
    EachRowSteps(s, step, id);
    if Live(s.table, id) {
      HeartbeatStep(s, step, id);
      if Stamps(s, step, id) {
        assert s.clock - s.syncs[step.call].now <= DAY;
      }
    } else {
      assert Inserts(s, step, id);
    }
  }

  lemma AloneStays(s: State, step: Step, id: ProjectId)
    ensures var s' := Next(s, step);
            && (step.Register? && step.id == id && id != "" && id !in s.table ==>
                  Live(s'.table, id) && s'.table[id].lastHeartbeat.None?)
            && (Live(s.table, id) && s.table[id].lastHeartbeat.None? && !Stamps(s, step, id) && !DeletesNow(s, step, id) ==>
                  Live(s'.table, id) && s'.table[id].lastHeartbeat.None?)
  {
    if Live(s.table, id) && !DeletesNow(s, step, id) {
      KeptAlive(s, step, id);
      HeartbeatStep(s, step, id);
    }
  }

  lemma {:induction false} AnswerStays(s: State, steps: seq<Step>, call: CallId)
    requires call in s.syncs && s.syncs[call].phase.Answered?
    ensures call in Exec(s, steps).syncs && Exec(s, steps).syncs[call] == s.syncs[call]
    decreases |steps|
  {
    if steps != [] {
      BeginStays(s, steps[0], call);
      CallStep(s, steps[0], call);
      AnswerStays(Next(s, steps[0]), steps[1..], call);
    }
  }

  /** As long as no call takes more than a day: an answer lists an id as removed and as unknown exactly if it
      lists it as removed and the id was left alone, that is inserted since the call's first statement and
      since then neither stamped nor soft-deleted; and nothing afterwards changes the answer. */
  lemma InBothListsIff(start: Time, steps: seq<Step>, call: CallId, id: ProjectId, after: seq<Step>)
    requires PromptRun(Init(start), steps, DAY, DAY)
    requires call in At(start, steps).syncs && At(start, steps).syncs[call].phase.HasStamped?
    ensures var s := Exec(Next(At(start, steps), ReadStale(call, true)), after);
            && call in s.syncs
            && (id in s.syncs[call].removed && id in s.syncs[call].unknown <==>
                  id in s.syncs[call].removed && id in LeftAlone(start, steps, call))
  {
    var s := At(start, steps);
    var c := Answer(s, call);
    AnswerStays(Next(s, ReadStale(call, true)), after, call);
    SyncHoldsFrom(Init(start), steps);
    AloneHolds(start, steps, call);
    assert SyncFacts(s, s.syncs[call]);
    assert id in c.removed ==> !Live(c.seen, id);
    assert id in c.unknown <==> id in s.table && Stale(s.table[id], c.now - DAY);
  }

  // ----- two runs in which it happens, with no call taking more than a day -----

  /** Some run with no call over a day ends in such an answer, of a call whose first statement saw this. */
  ghost predicate CanBeInBoth(id: ProjectId, seen: Table) {
    exists s, call :: Reachable(s, DAY, DAY) && InBoth(s, call, id, seen)
  }

  ghost predicate InBoth(s: State, call: CallId, id: ProjectId, seen: Table) {
    && call in s.syncs && s.syncs[call].phase.Answered? && s.syncs[call].seen == seen
    && id in s.syncs[call].removed && id in s.syncs[call].unknown
  }

  /** The id was absent at the first statement, and is registered before the last. */
  lemma ReRegisteredIsRemovedAndUnknown()
    ensures CanBeInBoth("p", map[])
  {
    assert Leads([], Init(0), DAY, DAY);
    ReadAndStampNothing(Init(0));
    var s := Init(0).(syncs := Init(0).syncs[0 := Waiting(Init(0))]);
    CanBeRegisteredAndRead(s, 0, DAY, DAY);
    assert InBoth(RegisteredAndRead(s, 0), 0, "p", map[]);
  }

  /** A call that has found nothing live to stamp. */
  function Waiting(s: State): Sync {
    Sync(["p"], s.clock, HasStamped, RemovedAmong(["p"], s.table), {}, s.table, {}, {})
  }

  lemma ReadAndStampNothing(s: State)
    requires Reachable(s, DAY, DAY) && !Live(s.table, "p") && 0 !in s.syncs
    ensures Reachable(s.(syncs := s.syncs[0 := Waiting(s)]), DAY, DAY)
    ensures "p" in Waiting(s).removed
  {
    var s0 := s.(syncs := s.syncs[0 := Waiting(s).(phase := Begun, removed := [])]);
    var s1 := s.(syncs := s.syncs[0 := Waiting(s).(phase := HasRead)]);
    Then(s, BeginSync(0, ["p"]), s0, DAY, DAY);
    Then(s0, ReadRows(0), s1, DAY, DAY);
    StampNothing(s, s1);
    assert "p" in ["p"];
  }

  lemma StampNothing(s: State, s1: State)
    requires Reachable(s1, DAY, DAY) && !Live(s.table, "p")
    requires s1 == s.(syncs := s.syncs[0 := Waiting(s).(phase := HasRead)])
    ensures Reachable(s.(syncs := s.syncs[0 := Waiting(s)]), DAY, DAY)
  {
    var next := s.(syncs := s.syncs[0 := Waiting(s)]);
    NothingToStamp(s.table, s.clock);
    assert s1.syncs[0 := Waiting(s)] == next.syncs;
    Then(s1, StampRows(0, true), next, DAY, DAY);
  }

  lemma NothingToStamp(t: Table, now: Time)
    requires !Live(t, "p")
    ensures Stamp(t, ["p"], now) == t && (set id | id in ["p"] && Live(t, id)) == {}
  {
  }

  /** A delete, and more than a day later a heartbeat of a daemon that still tracks the project. */
  function DeletedLongAgo(): State {
    Registered().(clock := DAY + 1, table := map["p" := Row(Some(0), None, 0)],
                  deletes := map[0 := Delete("p", 0, Some(0))], marks := map[("p", 0) := Unsent(0)])
  }

  lemma CanBeDeletedLongAgo()
    ensures Reachable(DeletedLongAgo(), DAY, DAY)
  {
    var s0 := Registered();
    var s1 := s0.(deletes := map[0 := Delete("p", 0, None)]);
    var s2 := DeletedLongAgo().(clock := 0);
    assert ValidProjectName("p");
    CanRegister(DAY, DAY);
    Then(s0, BeginDelete(0, "p"), s1, DAY, DAY);
    Then(s1, MarkRow(0), s2, DAY, DAY);
    Then(s2, Tick(DAY + 1), DeletedLongAgo(), DAY, DAY);
  }

  /** The id was known and soft-deleted at the first statement, then purged and registered anew. */
  lemma PurgedIsRemovedAndUnknown()
    ensures Removed(DeletedLongAgo().table, "p") && CanBeInBoth("p", DeletedLongAgo().table)
  {
    var s := DeletedLongAgo();
    CanBeDeletedLongAgo();
    ReadAndStampNothing(s);
    var s' := s.(syncs := s.syncs[0 := Waiting(s)]);
    CanBePurgedAndBack(s', 0, DAY, DAY);
    assert InBoth(PurgedAndBack(s', 0), 0, "p", s.table);
  }
}
