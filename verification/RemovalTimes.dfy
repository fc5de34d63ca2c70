/** The time of a removal: the one instant its delete began at is what the row says, as long as there is a row,
    and what the event says, whenever it is emitted. Over every run. */
module RemovalTimes {
  import opened Wrappers
  import opened ProjectTable
  import opened RemovalProtocol
  import opened SyncConsistency

  ghost predicate RowRemovedAt(s: State, id: ProjectId, life: nat, t: Time) {
    id in s.table && s.table[id].life == life && s.table[id].removedAt == Some(t)
  }

  /** At some point of the run, this life's row said so. */
  ghost predicate WasRemovedAt(start: Time, steps: seq<Step>, id: ProjectId, life: nat, t: Time) {
    exists j :: 0 <= j <= |steps| && RowRemovedAt(At(start, steps[..j]), id, life, t)
  }

  /** This call was begun, for this id, when the clock read t. */
  ghost predicate BegunAt(start: Time, steps: seq<Step>, call: CallId, id: ProjectId, t: Time) {
    exists j :: 0 <= j < |steps| && steps[j] == BeginDelete(call, id) && At(start, steps[..j]).clock == t
  }

  lemma RunsOn(start: Time, front: seq<Step>, last: Step, id: ProjectId, life: nat, call: CallId, t: Time)
    ensures WasRemovedAt(start, front, id, life, t) ==> WasRemovedAt(start, front + [last], id, life, t)
    ensures BegunAt(start, front, call, id, t) ==> BegunAt(start, front + [last], call, id, t)
    ensures RowRemovedAt(At(start, front + [last]), id, life, t) ==> WasRemovedAt(start, front + [last], id, life, t)
    ensures last == BeginDelete(call, id) ==> BegunAt(start, front + [last], call, id, At(start, front).clock)
  {
    var steps := front + [last];
    assert forall j :: 0 <= j <= |front| ==> steps[..j] == front[..j];
    assert front[..|front|] == front && steps[..|steps|] == steps;
    assert steps[|front|] == last;
  }

  /** The delete in flight has the time of its beginning, and if it has marked a row so had that row. */
  ghost predicate DeleteTimed(start: Time, steps: seq<Step>, call: CallId, d: Delete) {
    && BegunAt(start, steps, call, d.id, d.now)
    && (d.marked.Some? ==> WasRemovedAt(start, steps, d.id, d.marked.value, d.now))
  }

  ghost predicate SomeDeleteBegan(start: Time, steps: seq<Step>, id: ProjectId, t: Time) {
    exists call :: BegunAt(start, steps, call, id, t)
  }

  ghost predicate EventTimed(start: Time, steps: seq<Step>, e: Event) {
    WasRemovedAt(start, steps, e.id, e.life, e.at) && SomeDeleteBegan(start, steps, e.id, e.at)
  }

  ghost predicate Timed(start: Time, steps: seq<Step>) {
    var s := At(start, steps);
    && (forall k :: k in s.deletes ==> DeleteTimed(start, steps, k, s.deletes[k]))
    && (forall i :: 0 <= i < |s.log| ==> EventTimed(start, steps, s.log[i]))
    && (forall id :: Removed(s.table, id) ==> SomeDeleteBegan(start, steps, id, s.table[id].removedAt.value))
  }

  /** A delete keeps its id and its time from its beginning on, and gives that time to the row it marks. */
  lemma DeleteStep(s: State, step: Step, k: CallId)
    requires k in Next(s, step).deletes
    ensures var d' := Next(s, step).deletes[k];
            if k in s.deletes then
              && d'.id == s.deletes[k].id && d'.now == s.deletes[k].now
              && (d'.marked == s.deletes[k].marked
                  || (d'.marked.Some? && RowRemovedAt(Next(s, step), d'.id, d'.marked.value, d'.now)))
            else
              step == BeginDelete(k, d'.id) && d'.now == s.clock && d'.marked.None?
  {
  }

  /** The log grows by the event of a call that has marked its row. */
  lemma LogStep(s: State, step: Step)
    ensures var s' := Next(s, step);
            || s'.log == s.log
            || (step.EmitEvent? && step.call in s.deletes && s.deletes[step.call].marked.Some?
                && var d := s.deletes[step.call]; s'.log == s.log + [Event(d.id, d.now, d.marked.value)])
  {
  }

  /** A row becomes soft-deleted by a call about its id, with the time of that call. */
  lemma RemovedStep(s: State, step: Step, id: ProjectId)
    requires Removed(Next(s, step).table, id)
    ensures var at := Next(s, step).table[id].removedAt;
            || (Removed(s.table, id) && s.table[id].removedAt == at)
            || (step.MarkRow? && step.call in s.deletes && s.deletes[step.call].id == id && at == Some(s.deletes[step.call].now))
  {
  }

  lemma DeleteStaysTimed(start: Time, front: seq<Step>, last: Step, k: CallId)
    requires Timed(start, front) && k in At(start, front + [last]).deletes
    ensures DeleteTimed(start, front + [last], k, At(start, front + [last]).deletes[k])
  {
    ExecSnoc(Init(start), front, last);
    var d := At(start, front + [last]).deletes[k];
    DeleteStep(At(start, front), last, k);
    RunsOn(start, front, last, d.id, if d.marked.Some? then d.marked.value else 0, k, d.now);
    assert k in At(start, front).deletes ==> DeleteTimed(start, front, k, At(start, front).deletes[k]);
  }

  lemma EventStaysTimed(start: Time, front: seq<Step>, last: Step, i: nat)
    requires Timed(start, front) && i < |At(start, front + [last]).log|
    ensures EventTimed(start, front + [last], At(start, front + [last]).log[i])
  {
    ExecSnoc(Init(start), front, last);
    LogStep(At(start, front), last);
    var e := At(start, front + [last]).log[i];
    if i < |At(start, front).log| {
      assert EventTimed(start, front, At(start, front).log[i]);
      var call :| BegunAt(start, front, call, e.id, e.at);
      RunsOn(start, front, last, e.id, e.life, call, e.at);
    } else {
      assert DeleteTimed(start, front, last.call, At(start, front).deletes[last.call]);
      RunsOn(start, front, last, e.id, e.life, last.call, e.at);
    }
  }

  lemma RowStaysTimed(start: Time, front: seq<Step>, last: Step, id: ProjectId)
    requires Timed(start, front) && Removed(At(start, front + [last]).table, id)
    ensures SomeDeleteBegan(start, front + [last], id, At(start, front + [last]).table[id].removedAt.value)
  {
    ExecSnoc(Init(start), front, last);
    RemovedStep(At(start, front), last, id);
    var t := At(start, front + [last]).table[id].removedAt.value;
    if Removed(At(start, front).table, id) && At(start, front).table[id].removedAt == Some(t) {
      var call :| BegunAt(start, front, call, id, t);
      RunsOn(start, front, last, id, 0, call, t);
    } else {
      assert DeleteTimed(start, front, last.call, At(start, front).deletes[last.call]);
      RunsOn(start, front, last, id, 0, last.call, t);
    }
  }

  lemma {:induction false} TimedHolds(start: Time, steps: seq<Step>)
    ensures Timed(start, steps)
  {
    if steps != [] {
      var front, last := steps[..|steps| - 1], steps[|steps| - 1];
      assert steps == front + [last];
      TimedHolds(start, front);
      var s := At(start, steps);
      forall k | k in s.deletes
        ensures DeleteTimed(start, steps, k, s.deletes[k])
      {
        DeleteStaysTimed(start, front, last, k);
      }
      forall i | 0 <= i < |s.log|
        ensures EventTimed(start, steps, s.log[i])
      {
        EventStaysTimed(start, front, last, i);
      }
      forall id | Removed(s.table, id)
        ensures SomeDeleteBegan(start, steps, id, s.table[id].removedAt.value)
      {
        RowStaysTimed(start, front, last, id);
      }
    }
  }

  lemma {:induction false} ExecConcat(s: State, a: seq<Step>, b: seq<Step>)
    ensures Exec(s, a + b) == Exec(Exec(s, a), b)
    decreases |a|
  {
    if a == [] {
      assert a + b == b;
    } else {
      assert (a + b)[1..] == a[1..] + b;
      ExecConcat(Next(s, a[0]), a[1..], b);
    }
  }

  /** A life has one removed_at, at whatever two points of a run its row is looked at. */
  lemma OneRemovedAt(start: Time, steps: seq<Step>, id: ProjectId, life: nat, i: nat, j: nat, t: Time, u: Time)
    requires i <= j <= |steps|
    requires RowRemovedAt(At(start, steps[..i]), id, life, t) && RowRemovedAt(At(start, steps[..j]), id, life, u)
    ensures t == u
  {
    assert steps[..j] == steps[..i] + steps[i..j];
    ExecConcat(Init(start), steps[..i], steps[i..j]);
    LedgerHoldsFrom(Init(start), steps[..i]);
    RowEndsForGood(At(start, steps[..i]), steps[i..j], id, life, Some(t));
  }

  /** In every run, the event of a soft-delete carries the removed_at that this life of the row has at every
      point of the run at which it has one, and it has had one; and that is when a delete of the project
      began. So it does not matter how late the event is emitted, and whether the row is still there. */
  lemma EventCarriesRemovedAt(start: Time, steps: seq<Step>, id: ProjectId, life: nat, i: nat)
    requires EventFor(At(start, steps), id, life, i)
    ensures var at := At(start, steps).log[i].at;
            && WasRemovedAt(start, steps, id, life, at)
            && SomeDeleteBegan(start, steps, id, at)
            && (forall t :: WasRemovedAt(start, steps, id, life, t) ==> t == at)
            && (id in At(start, steps).table && At(start, steps).table[id].life == life ==>
                  At(start, steps).table[id].removedAt == Some(at))
  {
    TimedHolds(start, steps);
    var at := At(start, steps).log[i].at;
    assert EventTimed(start, steps, At(start, steps).log[i]);
    forall t | WasRemovedAt(start, steps, id, life, t)
      ensures t == at
    {
      OneTime(start, steps, id, life, t, at);
    }
    var j :| 0 <= j <= |steps| && RowRemovedAt(At(start, steps[..j]), id, life, at);
    StillRemovedAt(start, steps, id, life, j, at);
  }

  lemma OneTime(start: Time, steps: seq<Step>, id: ProjectId, life: nat, t: Time, u: Time)
    requires WasRemovedAt(start, steps, id, life, t) && WasRemovedAt(start, steps, id, life, u)
    ensures t == u
  {
    var i :| 0 <= i <= |steps| && RowRemovedAt(At(start, steps[..i]), id, life, t);
    var j :| 0 <= j <= |steps| && RowRemovedAt(At(start, steps[..j]), id, life, u);
    if i <= j {
      OneRemovedAt(start, steps, id, life, i, j, t, u);
    } else {
      OneRemovedAt(start, steps, id, life, j, i, u, t);
    }
  }

  lemma StillRemovedAt(start: Time, steps: seq<Step>, id: ProjectId, life: nat, j: nat, t: Time)
    requires j <= |steps| && RowRemovedAt(At(start, steps[..j]), id, life, t)
    ensures id in At(start, steps).table && At(start, steps).table[id].life == life ==> At(start, steps).table[id].removedAt == Some(t)
  {
    assert steps == steps[..j] + steps[j..];
    ExecConcat(Init(start), steps[..j], steps[j..]);
    LedgerHoldsFrom(Init(start), steps[..j]);
    RowEndsForGood(At(start, steps[..j]), steps[j..], id, life, Some(t));
  }
}
