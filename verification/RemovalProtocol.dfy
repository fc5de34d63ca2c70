/** Soft-delete, heartbeat reconciliation, registration and the reaper as one step system:
    every SQL statement is one atomic step, and any number of calls are in flight at once. */
module RemovalProtocol {
  import opened Wrappers
  import opened ProjectTable

  type CallId = nat

  datatype Phase = Begun | HasRead | HasStamped | Answered | Failed

  /** One SyncProjectState call. `now` is captured when the call begins. The last three fields are
      history: the table at the first statement, the ids the UPDATE stamped, and the ids inserted
      since the first statement. */
  datatype Sync = Sync(
    reported: seq<ProjectId>, now: Time, phase: Phase,
    removed: seq<ProjectId>, unknown: set<ProjectId>,
    seen: Table, stamped: set<ProjectId>, reborn: set<ProjectId>)

  /** One delete call; `marked` is the life of the row its UPDATE removed, once it has. */
  datatype Delete = Delete(id: ProjectId, now: Time, marked: Option<nat>)

  datatype Event = Event(id: ProjectId, at: Time, life: nat)

  /** What became of a soft-delete: its call still has to emit, or the event is at this place in the log. */
  datatype Fate = Unsent(call: CallId) | Emitted(place: nat)

  /** `lives` and `marks` are history: how often each id was inserted, and which (id, life) rows
      were soft-deleted. */
  datatype State = State(
    clock: Time, table: Table,
    deletes: map<CallId, Delete>, syncs: map<CallId, Sync>, log: seq<Event>,
    lives: map<ProjectId, nat>, marks: map<(ProjectId, nat), Fate>)

  datatype Step =
    | Tick(elapsed: nat)
    | Register(id: ProjectId)
    | BeginDelete(call: CallId, id: ProjectId)
    | MarkRow(call: CallId)
    | EmitEvent(call: CallId)
    | BeginSync(call: CallId, reported: seq<ProjectId>)
    | ReadRows(call: CallId)
    | StampRows(call: CallId, succeeds: bool)
    | ReadStale(call: CallId, succeeds: bool)
    | AbandonSync(call: CallId)
    | Reap(asOf: Time, retention: Time)

  function Lives(s: State, id: ProjectId): nat {
    if id in s.lives then s.lives[id] else 0
  }

  function Init(clock: Time): State {
    State(clock, map[], map[], map[], [], map[], map[])
  }

  function AfterInsert(c: Sync, id: ProjectId): Sync {
    if c.phase.HasRead? || c.phase.HasStamped? then c.(reborn := c.reborn + {id}) else c
  }

  function DoRegister(s: State, id: ProjectId): State {
    if id == "" || id in s.table then s else
      s.(table := InsertNew(s.table, id, Lives(s, id)),
         lives := s.lives[id := Lives(s, id) + 1],
         syncs := map k | k in s.syncs :: AfterInsert(s.syncs[k], id))
  }

  function DoMarkRow(s: State, call: CallId): State
    requires call in s.deletes
  {
    var d := s.deletes[call];
    if !Live(s.table, d.id) then s.(deletes := s.deletes - {call})
    else
      var life := s.table[d.id].life;
      s.(table := MarkRemoved(s.table, d.id, d.now),
         deletes := s.deletes[call := d.(marked := Some(life))],
         marks := s.marks[(d.id, life) := Unsent(call)])
  }

  function DoReadRows(s: State, call: CallId): State
    requires call in s.syncs
  {
    var c := s.syncs[call];
    s.(syncs := s.syncs[call := c.(phase := HasRead, removed := RemovedAmong(c.reported, s.table), seen := s.table)])
  }

  function DoStampRows(s: State, call: CallId, succeeds: bool): State
    requires call in s.syncs
  {
    var c := s.syncs[call];
    if succeeds then
      s.(table := Stamp(s.table, c.reported, c.now),
         syncs := s.syncs[call := c.(phase := HasStamped,
                                     stamped := set id | id in c.reported && Live(s.table, id))])
    else s.(syncs := s.syncs[call := c.(phase := HasStamped)])
  }

  function DoReadStale(s: State, call: CallId, succeeds: bool): State
    requires call in s.syncs
  {
    var c := s.syncs[call];
    s.(syncs := s.syncs[call := c.(phase := Answered,
                                   unknown := if succeeds then StaleIds(s.table, c.now - DAY) else {})])
  }

  /** A step that is not enabled changes nothing, so every sequence of steps is a run. */
  function Next(s: State, step: Step): State {
    match step
    case Tick(elapsed) => s.(clock := s.clock + elapsed)
    case Register(id) => DoRegister(s, id)
    case BeginDelete(k, id) =>
      if k in s.deletes || id == "" || !ValidProjectName(id) then s
      else s.(deletes := s.deletes[k := Delete(id, s.clock, None)])
    case MarkRow(k) =>
      if k in s.deletes && s.deletes[k].marked.None? then DoMarkRow(s, k) else s
    case EmitEvent(k) =>
      if k in s.deletes && s.deletes[k].marked.Some? then
        var d := s.deletes[k];
        s.(deletes := s.deletes - {k},
           log := s.log + [Event(d.id, d.now, d.marked.value)],
           marks := s.marks[(d.id, d.marked.value) := Emitted(|s.log|)])
      else s
    case BeginSync(k, reported) =>
      if k in s.syncs || |reported| > MAX_SYNC_PROJECT_IDS then s
      else s.(syncs := s.syncs[k := Sync(reported, s.clock, if reported == [] then HasStamped else Begun,
                                         [], {}, s.table, {}, {})])
    case ReadRows(k) =>
      if k in s.syncs && s.syncs[k].phase.Begun? then DoReadRows(s, k) else s
    case StampRows(k, succeeds) =>
      if k in s.syncs && s.syncs[k].phase.HasRead? then DoStampRows(s, k, succeeds) else s
    case ReadStale(k, succeeds) =>
      if k in s.syncs && s.syncs[k].phase.HasStamped? then DoReadStale(s, k, succeeds) else s
    case AbandonSync(k) =>
      if k in s.syncs && !s.syncs[k].phase.Answered? then s.(syncs := s.syncs[k := s.syncs[k].(phase := Failed)]) else s
    case Reap(asOf, retention) =>
      if asOf <= s.clock && retention >= DAY then s.(table := Purge(s.table, asOf - retention)) else s
  }

  function Exec(s: State, steps: seq<Step>): State
    decreases |steps|
  {
    if steps == [] then s else Exec(Next(s, steps[0]), steps[1..])
  }

  // ----- how one step can change one row -----

  ghost predicate RowStep(s: State, s': State, id: ProjectId) {
    && Lives(s, id) <= Lives(s', id)
    && (id in s'.table ==>
          if id in s.table then
            && s'.table[id].life == s.table[id].life
            && (s.table[id].removedAt.Some? ==> s'.table[id] == s.table[id])
          else
            s'.table[id] == Row(None, None, Lives(s, id)) && Lives(s', id) == Lives(s, id) + 1)
  }

  lemma EachRowSteps(s: State, step: Step, id: ProjectId)
    ensures RowStep(s, Next(s, step), id)
    ensures Live(Next(s, step).table, id) && !Live(s.table, id) ==> step == Register(id)
    ensures Removed(Next(s, step).table, id) && !Removed(s.table, id) ==> step.MarkRow?
  {
  }

  // ----- each row is soft-deleted at most once, and each soft-delete emits exactly one event -----

  /** Every life of an id but the current one was soft-deleted; the current one iff its row says so. */
  ghost predicate MarksMatchTable(s: State) {
    && (forall id :: id in s.table ==> Lives(s, id) == s.table[id].life + 1)
    && (forall id: ProjectId, life: nat :: (id, life) in s.marks <==>
          life < Lives(s, id) && !(Live(s.table, id) && life == s.table[id].life))
  }

  /** A soft-delete is waiting in the call that made it, or is at one place in the log: one or the
      other, and nothing else is waiting or in the log. */
  ghost predicate EachMarkOnce(s: State) {
    && (forall k :: k in s.deletes && s.deletes[k].marked.Some? ==>
          HasFate(s, (s.deletes[k].id, s.deletes[k].marked.value), Unsent(k)))
    && (forall i :: 0 <= i < |s.log| ==> HasFate(s, (s.log[i].id, s.log[i].life), Emitted(i)))
    && (forall key :: key in s.marks ==> FateIsTrue(s, key))
  }

  ghost predicate HasFate(s: State, key: (ProjectId, nat), fate: Fate) {
    key in s.marks && s.marks[key] == fate
  }

  ghost predicate FateIsTrue(s: State, key: (ProjectId, nat))
    requires key in s.marks
  {
    match s.marks[key]
    case Unsent(k) => k in s.deletes && s.deletes[k].id == key.0 && s.deletes[k].marked == Some(key.1)
    case Emitted(i) => i < |s.log| && s.log[i].id == key.0 && s.log[i].life == key.1
  }

  lemma RegisterKeepsMarks(s: State, id: ProjectId)
    requires MarksMatchTable(s)
    ensures MarksMatchTable(DoRegister(s, id))
  {
    var s' := DoRegister(s, id);
    forall x: ProjectId, life: nat
      ensures (x, life) in s'.marks <==> life < Lives(s', x) && !(Live(s'.table, x) && life == s'.table[x].life)
    {
      assert (x, life) in s.marks <==> life < Lives(s, x) && !(Live(s.table, x) && life == s.table[x].life);
    }
  }

  lemma MarkRowKeepsMarks(s: State, call: CallId)
    requires MarksMatchTable(s) && call in s.deletes
    ensures MarksMatchTable(DoMarkRow(s, call))
    ensures Live(s.table, s.deletes[call].id) ==> (s.deletes[call].id, s.table[s.deletes[call].id].life) !in s.marks
  {
    var s' := DoMarkRow(s, call);
    forall x: ProjectId, life: nat
      ensures (x, life) in s'.marks <==> life < Lives(s', x) && !(Live(s'.table, x) && life == s'.table[x].life)
    {
      assert (x, life) in s.marks <==> life < Lives(s, x) && !(Live(s.table, x) && life == s.table[x].life);
    }
  }

  /** Statements that neither insert nor soft-delete leave every live row live, in the same life. */
  lemma OtherStepsKeepMarks(s: State, s': State)
    requires MarksMatchTable(s)
    requires s'.lives == s.lives && s'.marks.Keys == s.marks.Keys
    requires forall id :: id in s'.table ==> id in s.table && s'.table[id].life == s.table[id].life
    requires forall id :: Live(s'.table, id) <==> Live(s.table, id)
    ensures MarksMatchTable(s')
  {
    forall x: ProjectId, life: nat
      ensures (x, life) in s'.marks <==> life < Lives(s', x) && !(Live(s'.table, x) && life == s'.table[x].life)
    {
      assert (x, life) in s.marks <==> life < Lives(s, x) && !(Live(s.table, x) && life == s.table[x].life);
      assert Live(s'.table, x) <==> Live(s.table, x);
    }
  }

  /** The steps that matter to the soft-deletes: an insertion, a soft-delete and an emission. */
  predicate Matters(s: State, step: Step) {
    || step.Register?
    || (step.MarkRow? && step.call in s.deletes && s.deletes[step.call].marked.None?)
    || (step.EmitEvent? && step.call in s.deletes && s.deletes[step.call].marked.Some?)
  }

  lemma OtherStepsLeaveRows(s: State, step: Step)
    requires !Matters(s, step)
    ensures var s' := Next(s, step);
            && s'.lives == s.lives
            && (forall id :: id in s'.table ==> id in s.table && s'.table[id].life == s.table[id].life)
            && (forall id :: Live(s'.table, id) <==> Live(s.table, id))
  {
  }

  lemma OtherStepsLeaveDeletes(s: State, step: Step)
    requires !Matters(s, step)
    ensures var s' := Next(s, step);
            && s'.marks == s.marks && s'.log == s.log
            && (forall k :: k in s.deletes && s.deletes[k].marked.Some? ==> k in s'.deletes && s'.deletes[k] == s.deletes[k])
            && (forall k :: k in s'.deletes && s'.deletes[k].marked.Some? ==> k in s.deletes && s'.deletes[k] == s.deletes[k])
  {
    assert step.BeginDelete? || Next(s, step).deletes == s.deletes;
  }

  lemma MarksMatchTableStep(s: State, step: Step)
    requires MarksMatchTable(s) && EachMarkOnce(s)
    ensures MarksMatchTable(Next(s, step))
  {
    if !Matters(s, step) {
      OtherStepsLeaveRows(s, step);
      OtherStepsLeaveDeletes(s, step);
      OtherStepsKeepMarks(s, Next(s, step));
    } else if step.Register? {
      RegisterKeepsMarks(s, step.id);
    } else if step.MarkRow? {
      MarkRowKeepsMarks(s, step.call);
    } else {
      EmitKeepsMarks(s, step.call);
    }
  }

  lemma EmitKeepsMarks(s: State, call: CallId)
    requires MarksMatchTable(s) && EachMarkOnce(s)
    requires call in s.deletes && s.deletes[call].marked.Some?
    ensures MarksMatchTable(Next(s, EmitEvent(call)))
  {
    assert HasFate(s, (s.deletes[call].id, s.deletes[call].marked.value), Unsent(call));
    OtherStepsKeepMarks(s, Next(s, EmitEvent(call)));
  }

  lemma MarkRowKeepsEachMarkOnce(s: State, call: CallId)
    requires MarksMatchTable(s) && EachMarkOnce(s)
    requires call in s.deletes && s.deletes[call].marked.None?
    ensures EachMarkOnce(DoMarkRow(s, call))
  {
    MarkRowKeepsMarks(s, call);
    var s' := DoMarkRow(s, call);
    forall key | key in s'.marks
      ensures FateIsTrue(s', key)
    {
      assert key in s.marks ==> FateIsTrue(s, key);
    }
    forall i | 0 <= i < |s'.log|
      ensures HasFate(s', (s'.log[i].id, s'.log[i].life), Emitted(i))
    {
      assert HasFate(s, (s.log[i].id, s.log[i].life), Emitted(i));
    }
    forall k | k in s'.deletes && s'.deletes[k].marked.Some?
      ensures HasFate(s', (s'.deletes[k].id, s'.deletes[k].marked.value), Unsent(k))
    {
      assert k != call ==> HasFate(s, (s.deletes[k].id, s.deletes[k].marked.value), Unsent(k));
    }
  }

  lemma EmitKeepsEachMarkOnce(s: State, call: CallId)
    requires EachMarkOnce(s)
    requires call in s.deletes && s.deletes[call].marked.Some?
    ensures EachMarkOnce(Next(s, EmitEvent(call)))
  {
    var s' := Next(s, EmitEvent(call));
    assert HasFate(s, (s.deletes[call].id, s.deletes[call].marked.value), Unsent(call));
    forall key | key in s'.marks
      ensures FateIsTrue(s', key)
    {
      assert FateIsTrue(s, key);
    }
    forall i | 0 <= i < |s'.log|
      ensures HasFate(s', (s'.log[i].id, s'.log[i].life), Emitted(i))
    {
      assert i < |s.log| ==> HasFate(s, (s.log[i].id, s.log[i].life), Emitted(i));
    }
    forall k | k in s'.deletes && s'.deletes[k].marked.Some?
      ensures HasFate(s', (s'.deletes[k].id, s'.deletes[k].marked.value), Unsent(k))
    {
      assert HasFate(s, (s.deletes[k].id, s.deletes[k].marked.value), Unsent(k));
    }
  }

  /** Steps that leave the log, the marks and the marked deletes alone. */
  lemma OtherStepsKeepEachMarkOnce(s: State, s': State)
    requires EachMarkOnce(s)
    requires s'.log == s.log && s'.marks == s.marks
    requires forall k :: k in s.deletes && s.deletes[k].marked.Some? ==> k in s'.deletes && s'.deletes[k] == s.deletes[k]
    requires forall k :: k in s'.deletes && s'.deletes[k].marked.Some? ==> k in s.deletes && s'.deletes[k] == s.deletes[k]
    ensures EachMarkOnce(s')
  {
    forall key | key in s'.marks
      ensures FateIsTrue(s', key)
    {
      assert FateIsTrue(s, key);
    }
    forall i | 0 <= i < |s'.log|
      ensures HasFate(s', (s'.log[i].id, s'.log[i].life), Emitted(i))
    {
      assert HasFate(s, (s.log[i].id, s.log[i].life), Emitted(i));
    }
    forall k | k in s'.deletes && s'.deletes[k].marked.Some?
      ensures HasFate(s', (s'.deletes[k].id, s'.deletes[k].marked.value), Unsent(k))
    {
      assert HasFate(s, (s.deletes[k].id, s.deletes[k].marked.value), Unsent(k));
    }
  }

  lemma EachMarkOnceStep(s: State, step: Step)
    requires MarksMatchTable(s) && EachMarkOnce(s)
    ensures EachMarkOnce(Next(s, step))
  {
    if !Matters(s, step) {
      OtherStepsLeaveDeletes(s, step);
      OtherStepsKeepEachMarkOnce(s, Next(s, step));
    } else if step.MarkRow? {
      MarkRowKeepsEachMarkOnce(s, step.call);
    } else if step.EmitEvent? {
      EmitKeepsEachMarkOnce(s, step.call);
    } else {
      OtherStepsKeepEachMarkOnce(s, DoRegister(s, step.id));
    }
  }
}
