/** What a SyncProjectState answer means, over every interleaving of the steps of RemovalProtocol. */
module SyncConsistency {
  import opened Wrappers
  import opened ProjectTable
  import opened RemovalProtocol

  // ----- the ledger, over whole runs -----

  ghost predicate LedgerInv(s: State) {
    MarksMatchTable(s) && EachMarkOnce(s)
  }

  lemma {:induction false} LedgerHoldsFrom(s: State, steps: seq<Step>)
    requires LedgerInv(s)
    ensures LedgerInv(Exec(s, steps))
    decreases |steps|
  {
    if steps != [] {
      MarksMatchTableStep(s, steps[0]);
      EachMarkOnceStep(s, steps[0]);
      LedgerHoldsFrom(Next(s, steps[0]), steps[1..]);
    }
  }

  ghost predicate EventFor(s: State, id: ProjectId, life: nat, i: nat) {
    i < |s.log| && s.log[i].id == id && s.log[i].life == life
  }

  /** In every run, and for every row ever inserted: if it was soft-deleted and no call still holds
      the event, the log has exactly one event for it; if it was not, the log has none. */
  lemma ExactlyOneEventPerRemoval(start: Time, steps: seq<Step>, id: ProjectId, life: nat)
    ensures var s := Exec(Init(start), steps);
            var gone := life < Lives(s, id) && !(Live(s.table, id) && s.table[id].life == life);
            var unsent := exists k :: k in s.deletes && s.deletes[k].id == id && s.deletes[k].marked == Some(life);
            && (gone && !unsent <==> exists i: nat :: EventFor(s, id, life, i))
            && (unsent ==> gone)
            && (forall i: nat, j: nat :: EventFor(s, id, life, i) && EventFor(s, id, life, j) ==> i == j)
  {
    LedgerHoldsFrom(Init(start), steps);
    var s := Exec(Init(start), steps);
    forall i: nat | EventFor(s, id, life, i)
      ensures HasFate(s, (id, life), Emitted(i))
    {
      assert HasFate(s, (s.log[i].id, s.log[i].life), Emitted(i));
    }
    forall k | k in s.deletes && s.deletes[k].id == id && s.deletes[k].marked == Some(life)
      ensures HasFate(s, (id, life), Unsent(k))
    {
      assert HasFate(s, (s.deletes[k].id, s.deletes[k].marked.value), Unsent(k));
    }
    if (id, life) in s.marks {
      assert FateIsTrue(s, (id, life));
      assert s.marks[(id, life)].Emitted? ==> EventFor(s, id, life, s.marks[(id, life)].place);
    }
  }

  /** A row is soft-deleted by at most one UPDATE: whichever step marks it, it was unmarked before. */
  lemma MarkedAtMostOnce(start: Time, steps: seq<Step>, call: CallId)
    ensures var s := Exec(Init(start), steps);
            call in s.deletes && s.deletes[call].marked.None? && Live(s.table, s.deletes[call].id) ==>
              var d := s.deletes[call];
              var s' := Next(s, MarkRow(call));
              && (d.id, s.table[d.id].life) !in s.marks
              && s'.marks.Keys == s.marks.Keys + {(d.id, s.table[d.id].life)}
  {
    LedgerHoldsFrom(Init(start), steps);
    var s := Exec(Init(start), steps);
    if call in s.deletes {
      MarkRowKeepsMarks(s, call);
    }
  }

  /** Once set, removed_at is neither cleared nor overwritten while the row lives on: only the reaper
      ends the row, and a row inserted later under the same id is another life. */
  lemma {:induction false} RemovedAtNeverChanges(s: State, steps: seq<Step>, id: ProjectId)
    requires LedgerInv(s) && Removed(s.table, id)
    ensures var s' := Exec(s, steps);
            && Lives(s', id) >= Lives(s, id)
            && (id in s'.table && s'.table[id].life == s.table[id].life ==> s'.table[id].removedAt == s.table[id].removedAt)
    decreases |steps|
  {
    RowEndsForGood(s, steps, id, s.table[id].life, s.table[id].removedAt);
  }

  ghost predicate EndedOrRemoved(s: State, id: ProjectId, life: nat, at: Option<Time>) {
    && life < Lives(s, id)
    && (id in s.table && s.table[id].life == life ==> s.table[id].removedAt == at)
  }

  lemma {:induction false} RowEndsForGood(s: State, steps: seq<Step>, id: ProjectId, life: nat, at: Option<Time>)
    requires LedgerInv(s) && at.Some? && EndedOrRemoved(s, id, life, at)
    ensures EndedOrRemoved(Exec(s, steps), id, life, at) && Lives(Exec(s, steps), id) >= Lives(s, id)
    decreases |steps|
  {
    if steps != [] {
      MarksMatchTableStep(s, steps[0]);
      EachMarkOnceStep(s, steps[0]);
      EachRowSteps(s, steps[0], id);
      RowEndsForGood(Next(s, steps[0]), steps[1..], id, life, at);
    }
  }

  // ----- answers -----

  ghost predicate SyncFacts(s: State, c: Sync) {
    && (c.phase.HasRead? || c.phase.HasStamped? ==>
          && c.removed == RemovedAmong(c.reported, c.seen)
          && forall id :: Live(s.table, id) ==> Live(c.seen, id) || id in c.reborn)
    && (c.phase.Answered? ==>
          && c.removed == RemovedAmong(c.reported, c.seen)
          && forall id :: id in c.unknown ==> Live(c.seen, id) || id in c.reborn)
  }

  ghost predicate SyncInv(s: State) {
    forall k :: k in s.syncs ==> SyncFacts(s, s.syncs[k])
  }

  /** A call's own fields change only by its own statements; a registration only adds to `reborn`. */
  lemma CallStep(s: State, step: Step, k: CallId)
    ensures var s' := Next(s, step);
            k in s'.syncs ==>
              var c' := s'.syncs[k];
              || (k in s.syncs && c' == s.syncs[k])
              || (k in s.syncs && step == ReadRows(k) && s.syncs[k].phase.Begun? && s' == DoReadRows(s, k))
              || (k in s.syncs && step.StampRows? && step.call == k && s.syncs[k].phase.HasRead?
                  && s' == DoStampRows(s, k, step.succeeds))
              || (k in s.syncs && step.ReadStale? && step.call == k && s.syncs[k].phase.HasStamped?
                  && s' == DoReadStale(s, k, step.succeeds))
              || (k in s.syncs && step == AbandonSync(k) && !s.syncs[k].phase.Answered? && c' == s.syncs[k].(phase := Failed))
              || (k in s.syncs && step.Register? && c' == AfterInsert(s.syncs[k], step.id))
              || (k !in s.syncs && step.BeginSync? && s'.table == s.table && s'.clock == s.clock
                  && c' == Sync(step.reported, s.clock, if step.reported == [] then HasStamped else Begun,
                                [], {}, s.table, {}, {}))
  {
  }

  lemma SyncStep(s: State, step: Step, k: CallId)
    requires k in s.syncs ==> SyncFacts(s, s.syncs[k])
    ensures var s' := Next(s, step); k in s'.syncs ==> SyncFacts(s', s'.syncs[k])
  {
    var s' := Next(s, step);
    if k in s'.syncs {
      CallStep(s, step, k);
      assert RemovedAmong([], s.table) == [];
      var c' := s'.syncs[k];
      if c'.phase.HasRead? || c'.phase.HasStamped? {
        forall id | Live(s'.table, id)
          ensures Live(c'.seen, id) || id in c'.reborn
        {
          EachRowSteps(s, step, id);
        }
      }
    }
  }

  lemma {:induction false} SyncHoldsFrom(s: State, steps: seq<Step>)
    requires SyncInv(s)
    ensures SyncInv(Exec(s, steps))
    decreases |steps|
  {
    if steps != [] {
      forall k | k in Next(s, steps[0]).syncs
        ensures SyncFacts(Next(s, steps[0]), Next(s, steps[0]).syncs[k])
      {
        SyncStep(s, steps[0], k);
      }
      SyncHoldsFrom(Next(s, steps[0]), steps[1..]);
    }
  }

  /** In every interleaving, an answer lists as removed exactly the reported ids that were absent or
      soft-deleted at its first statement; and one of those can also be listed as unknown only if a
      registration inserted it anew while the call was running. */
  lemma AnswersAreSound(start: Time, steps: seq<Step>, call: CallId, id: ProjectId)
    ensures var s := Exec(Init(start), steps);
            call in s.syncs && s.syncs[call].phase.Answered? ==>
              var c := s.syncs[call];
              && (id in c.removed <==> id in c.reported && !Live(c.seen, id))
              && (id in c.removed && id in c.unknown ==> id in c.reborn)
  {
    SyncHoldsFrom(Init(start), steps);
    var s := Exec(Init(start), steps);
    assert call in s.syncs ==> SyncFacts(s, s.syncs[call]);
  }

  /** What a call reported, and what it found removed, is fixed by its first statement. */
  lemma {:induction false} SeenStays(s: State, steps: seq<Step>, call: CallId)
    requires call in s.syncs && !s.syncs[call].phase.Begun?
    ensures var s' := Exec(s, steps);
            && call in s'.syncs && !s'.syncs[call].phase.Begun?
            && s'.syncs[call].reported == s.syncs[call].reported && s'.syncs[call].removed == s.syncs[call].removed
    decreases |steps|
  {
    if steps != [] {
      var s' := Next(s, steps[0]);
      assert call in s'.syncs;
      CallStep(s, steps[0], call);
      SeenStays(s', steps[1..], call);
    }
  }

  /** The UPDATE of a delete of this project, about to run. */
  predicate DeletesNow(s: State, step: Step, id: ProjectId) {
    step.MarkRow? && step.call in s.deletes && s.deletes[step.call].marked.None? && s.deletes[step.call].id == id
  }

  ghost predicate NeverDeleted(s: State, steps: seq<Step>, id: ProjectId)
    decreases |steps|
  {
    steps != [] ==> !DeletesNow(s, steps[0], id) && NeverDeleted(Next(s, steps[0]), steps[1..], id)
  }

  lemma KeptAlive(s: State, step: Step, id: ProjectId)
    requires !DeletesNow(s, step, id)
    ensures Live(s.table, id) ==> Live(Next(s, step).table, id)
    ensures Removed(Next(s, step).table, id) ==> Removed(s.table, id)
  {
  }

  /** A project that no delete is about stays live if it was, and is not soft-deleted if it was not;
      whatever deletes of other projects do. */
  lemma {:induction false} NoDeleteNoRemoval(s: State, steps: seq<Step>, id: ProjectId)
    requires NeverDeleted(s, steps, id)
    ensures Live(s.table, id) ==> Live(Exec(s, steps).table, id)
    ensures Removed(Exec(s, steps).table, id) ==> Removed(s.table, id)
    decreases |steps|
  {
    if steps != [] {
      KeptAlive(s, steps[0], id);
      NoDeleteNoRemoval(Next(s, steps[0]), steps[1..], id);
    }
  }

  // ----- what the steps come to when nothing runs in between -----

  /** A delete that is not interrupted does what the handler's method promises; one without a proper name never
      begins. */
  lemma UndisturbedDelete(s: State, call: CallId, id: ProjectId)
    requires call !in s.deletes
    ensures var s' := Exec(s, [BeginDelete(call, id), MarkRow(call), EmitEvent(call)]);
            s'.deletes == s.deletes &&
            if id != "" && ValidProjectName(id) && Live(s.table, id) then
              && s'.table == s.table[id := s.table[id].(removedAt := Some(s.clock))]
              && s'.log == s.log + [Event(id, s.clock, s.table[id].life)]
            else s'.table == s.table && s'.log == s.log
  {
    Three(s, BeginDelete(call, id), MarkRow(call), EmitEvent(call));
    if id != "" && ValidProjectName(id) {
      NamedDelete(s, call, id);
    }
  }

  lemma NamedDelete(s: State, call: CallId, id: ProjectId)
    requires call !in s.deletes && id != "" && ValidProjectName(id)
    ensures var s' := Next(Next(Next(s, BeginDelete(call, id)), MarkRow(call)), EmitEvent(call));
            s'.deletes == s.deletes &&
            if Live(s.table, id) then
              && s'.table == s.table[id := s.table[id].(removedAt := Some(s.clock))]
              && s'.log == s.log + [Event(id, s.clock, s.table[id].life)]
            else s'.table == s.table && s'.log == s.log
  {
    var d := Delete(id, s.clock, None);
    var s1 := s.(deletes := s.deletes[call := d]);
    assert Next(s, BeginDelete(call, id)) == s1;
    assert s1.deletes - {call} == s.deletes;
    var s2 := DoMarkRow(s1, call);
    assert Next(s1, MarkRow(call)) == s2;
    if Live(s.table, id) {
      var marked := d.(marked := Some(s.table[id].life));
      assert s2.deletes == s1.deletes[call := marked] && s2.table == MarkRemoved(s.table, id, s.clock);
      assert s2.deletes - {call} == s.deletes;
      assert Next(s2, EmitEvent(call)).log == s.log + [Event(id, s.clock, s.table[id].life)];
    } else {
      assert Next(s2, EmitEvent(call)) == s2;
    }
  }

  /** And so does a heartbeat. A failing UPDATE stamps nothing and a failing last query finds nothing, and the
      call goes on. */
  lemma UndisturbedSync(s: State, call: CallId, reported: seq<ProjectId>, stamps: bool, finds: bool)
    requires call !in s.syncs && |reported| <= MAX_SYNC_PROJECT_IDS
    ensures var s' := Exec(s, [BeginSync(call, reported), ReadRows(call), StampRows(call, stamps), ReadStale(call, finds)]);
            && s'.table == (if stamps then Stamp(s.table, reported, s.clock) else s.table)
            && s'.log == s.log && s'.deletes == s.deletes
            && call in s'.syncs && s'.syncs[call].phase.Answered?
            && s'.syncs[call].removed == RemovedAmong(reported, s.table)
            && s'.syncs[call].unknown == (if finds then StaleIds(s'.table, s.clock - DAY) else {})
  {
    Four(s, BeginSync(call, reported), ReadRows(call), StampRows(call, stamps), ReadStale(call, finds));
    var s1 := Next(s, BeginSync(call, reported));
    if reported == [] {
      EmptySync(s1, call, stamps, finds);
    } else {
      NamedSync(s1, call, reported, stamps, finds);
    }
  }

  lemma EmptySync(s1: State, call: CallId, stamps: bool, finds: bool)
    requires call in s1.syncs && s1.syncs[call].phase.HasStamped?
    ensures Next(Next(Next(s1, ReadRows(call)), StampRows(call, stamps)), ReadStale(call, finds)) == DoReadStale(s1, call, finds)
    ensures Stamp(s1.table, [], s1.clock) == s1.table && RemovedAmong([], s1.table) == []
  {
    assert Next(s1, ReadRows(call)) == s1 && Next(s1, StampRows(call, stamps)) == s1;
  }

  lemma NamedSync(s1: State, call: CallId, reported: seq<ProjectId>, stamps: bool, finds: bool)
    requires call in s1.syncs && s1.syncs[call].phase.Begun? && s1.syncs[call].reported == reported
    ensures var now := s1.syncs[call].now;
            var s' := Next(Next(Next(s1, ReadRows(call)), StampRows(call, stamps)), ReadStale(call, finds));
            && s'.table == (if stamps then Stamp(s1.table, reported, now) else s1.table)
            && s'.log == s1.log && s'.deletes == s1.deletes
            && call in s'.syncs && s'.syncs[call].phase.Answered?
            && s'.syncs[call].removed == RemovedAmong(reported, s1.table)
            && s'.syncs[call].unknown == (if finds then StaleIds(s'.table, now - DAY) else {})
  {
    var s2 := DoReadRows(s1, call);
    var s3 := DoStampRows(s2, call, stamps);
    assert Next(s1, ReadRows(call)) == s2 && Next(s2, StampRows(call, stamps)) == s3;
    assert Next(s3, ReadStale(call, finds)) == DoReadStale(s3, call, finds);
  }

  lemma Three(s: State, a: Step, b: Step, c: Step)
    ensures Exec(s, [a, b, c]) == Next(Next(Next(s, a), b), c)
  {
    First(s, a, [b, c]);
    First(Next(s, a), b, [c]);
    First(Next(Next(s, a), b), c, []);
    assert [a, b, c] == [a] + [b, c] && [b, c] == [b] + [c] && [c] == [c] + [];
  }

  lemma Four(s: State, a: Step, b: Step, c: Step, d: Step)
    ensures Exec(s, [a, b, c, d]) == Next(Next(Next(Next(s, a), b), c), d)
  {
    First(s, a, [b, c, d]);
    Three(Next(s, a), b, c, d);
    assert [a, b, c, d] == [a] + [b, c, d];
  }

  lemma First(s: State, step: Step, rest: seq<Step>)
    ensures Exec(s, [step] + rest) == Exec(Next(s, step), rest)
  {
    assert ([step] + rest)[1..] == rest;
  }

  // ----- runs, one step at a time from the back -----

  /** Where a run from the empty server leads. */
  function At(start: Time, steps: seq<Step>): State {
    Exec(Init(start), steps)
  }

  lemma {:induction false} ExecSnoc(s: State, steps: seq<Step>, step: Step)
    ensures Exec(s, steps + [step]) == Next(Exec(s, steps), step)
    decreases |steps|
  {
    if steps == [] {
      assert steps + [step] == [step];
    } else {
      assert (steps + [step])[1..] == steps[1..] + [step];
      ExecSnoc(Next(s, steps[0]), steps[1..], step);
    }
  }

  lemma AtLast(start: Time, steps: seq<Step>)
    requires steps != []
    ensures At(start, steps) == Next(At(start, steps[..|steps| - 1]), steps[|steps| - 1])
  {
    ExecSnoc(Init(start), steps[..|steps| - 1], steps[|steps| - 1]);
    assert steps == steps[..|steps| - 1] + [steps[|steps| - 1]];
  }
}
