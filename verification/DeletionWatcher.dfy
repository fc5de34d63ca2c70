/** The deletion watcher's event loop, shown to be a debounce: a callback runs one debounce period
    after each removal that nothing disarms in the meantime. Timers are taken to run out on time, and
    an event that arrives at the very instant of a deadline is handled first. */
module DeletionWatcher {
  import opened Wrappers
  import opened Sequences

  /** Nanoseconds. */
  type Time = int

  const DEBOUNCE: Time := 100_000_000

  /** One file-system event: which of the two watched paths it names, and what happened there. */
  datatype FsEvent = FsEvent(at: Time, onParent: bool, onTarget: bool, remove: bool, create: bool)

  /** How the loop ends: not yet, by its context, or because a channel was closed under it. */
  datatype Ending = Open | Cancelled(at: Time) | ChannelClosed(at: Time)

  predicate Removal(e: FsEvent) {
    e.remove && (e.onParent || e.onTarget)
  }

  /** The target came back. An event that also names the parent is taken for the parent's return. */
  predicate TargetCreated(e: FsEvent) {
    !Removal(e) && !(e.onParent && e.create) && e.onTarget && e.create
  }

  predicate Disarms(e: FsEvent) {
    Removal(e) || TargetCreated(e)
  }

  ghost predicate Chronological(trace: seq<FsEvent>) {
    forall i, j :: 0 <= i < j < |trace| ==> trace[i].at <= trace[j].at
  }

  ghost predicate EndsAfter(trace: seq<FsEvent>, ending: Ending) {
    !ending.Open? ==> forall i :: 0 <= i < |trace| ==> trace[i].at <= ending.at
  }

  /** Removal `i` is followed, among the first `n` events, by nothing that disarms it in time. */
  ghost predicate Undisturbed(trace: seq<FsEvent>, n: nat, i: nat)
    requires n <= |trace|
  {
    && i < n
    && Removal(trace[i])
    && forall j :: i < j < n && Disarms(trace[j]) ==> trace[j].at > trace[i].at + DEBOUNCE
  }

  /** The deadline of such a removal. */
  ghost predicate Due(trace: seq<FsEvent>, n: nat, d: Time)
    requires n <= |trace|
  {
    exists i: nat :: Undisturbed(trace, n, i) && d == trace[i].at + DEBOUNCE
  }

  /** The file or its directory was removed 100 ms before d, and up to d neither was removed again nor the
      file alone created: in the fields of the events. */
  ghost predicate GoneAt(trace: seq<FsEvent>, d: Time) {
    exists i: nat :: i < |trace| && trace[i].remove && (trace[i].onParent || trace[i].onTarget)
                     && d == trace[i].at + 100_000_000 && NothingComesBack(trace, i, d)
  }

  ghost predicate NothingComesBack(trace: seq<FsEvent>, i: nat, d: Time) {
    forall j :: i < j < |trace| && trace[j].at <= d ==>
      && !(trace[j].remove && (trace[j].onParent || trace[j].onTarget))
      && !(trace[j].create && trace[j].onTarget && !trace[j].onParent)
  }

  lemma GoneIffDue(trace: seq<FsEvent>, d: Time)
    ensures GoneAt(trace, d) <==> Due(trace, |trace|, d)
  {
    if GoneAt(trace, d) {
      var i: nat :| i < |trace| && trace[i].remove && (trace[i].onParent || trace[i].onTarget)
                    && d == trace[i].at + 100_000_000 && NothingComesBack(trace, i, d);
      assert Undisturbed(trace, |trace|, i);
    }
    if Due(trace, |trace|, d) {
      var i: nat :| Undisturbed(trace, |trace|, i) && d == trace[i].at + DEBOUNCE;
      assert NothingComesBack(trace, i, d);
    }
  }

  ghost predicate FarApart(callbacks: seq<Time>) {
    forall i, j :: 0 <= i < j < |callbacks| ==> callbacks[j] - callbacks[i] > DEBOUNCE
  }

  ghost predicate AllBefore(callbacks: seq<Time>, now: Time) {
    forall i :: 0 <= i < |callbacks| ==> callbacks[i] < now
  }

  function Pending(timer: Option<Time>): set<Time> {
    if timer.Some? then {timer.value} else {}
  }

  /** What one more event does to the deadlines. */
  lemma DueStep(trace: seq<FsEvent>, n: nat, d: Time)
    requires n < |trace|
    ensures Due(trace, n + 1, d) <==>
              || (Due(trace, n, d) && (Disarms(trace[n]) ==> trace[n].at > d))
              || (Removal(trace[n]) && d == trace[n].at + DEBOUNCE)
  {
    if Removal(trace[n]) && d == trace[n].at + DEBOUNCE {
      assert Undisturbed(trace, n + 1, n);
    }
    if Due(trace, n, d) && (Disarms(trace[n]) ==> trace[n].at > d) {
      var i: nat :| Undisturbed(trace, n, i) && d == trace[i].at + DEBOUNCE;
      assert Undisturbed(trace, n + 1, i);
    }
    if Due(trace, n + 1, d) {
      var i: nat :| Undisturbed(trace, n + 1, i) && d == trace[i].at + DEBOUNCE;
      assert i < n ==> Undisturbed(trace, n, i);
    }
  }

  /** The timer after an event that found `waiting` still running. */
  function TimerAfter(waiting: Option<Time>, e: FsEvent): Option<Time> {
    if Removal(e) then Some(e.at + DEBOUNCE) else if TargetCreated(e) then None else waiting
  }

  /** What has run and what is armed are together the deadlines that are due so far. */
  ghost predicate Accounts(trace: seq<FsEvent>, n: nat, callbacks: seq<Time>, timer: Option<Time>)
    requires n <= |trace|
  {
    && (forall d :: d in callbacks || d in Pending(timer) <==> Due(trace, n, d))
    && FarApart(callbacks)
    && (timer.Some? ==> FarApart(callbacks + [timer.value]))
  }

  lemma EventStep(trace: seq<FsEvent>, n: nat, callbacks: seq<Time>, waiting: Option<Time>)
    requires n < |trace| && Accounts(trace, n, callbacks, waiting)
    requires AllBefore(callbacks, trace[n].at) && (waiting.Some? ==> waiting.value >= trace[n].at)
    ensures Accounts(trace, n + 1, callbacks, TimerAfter(waiting, trace[n]))
  {
    forall d
      ensures d in callbacks || d in Pending(TimerAfter(waiting, trace[n])) <==> Due(trace, n + 1, d)
    {
      DueStep(trace, n, d);
      assert d in callbacks ==> d < trace[n].at;
    }
  }

  method WatchLoop(trace: seq<FsEvent>, ending: Ending) returns (callbacks: seq<Time>)
    requires Chronological(trace) && EndsAfter(trace, ending)
    ensures FarApart(callbacks)
    ensures forall d :: d in callbacks <==> GoneAt(trace, d) && (ending.Cancelled? ==> d < ending.at)
  {
    var debounceTimer: Option<Time>, pendingDelete := None, false;
    callbacks := [];
    for n := 0 to |trace|
      invariant debounceTimer.Some? ==> pendingDelete
      invariant Accounts(trace, n, callbacks, debounceTimer)
      invariant n == 0 ==> callbacks == []
      invariant n > 0 ==> AllBefore(callbacks, trace[n - 1].at)
    {
      var event := trace[n];
      assert n > 0 ==> trace[n - 1].at <= event.at;
      // the timer ran out before this event
      if debounceTimer.Some? && debounceTimer.value < event.at {
        callbacks := callbacks + [debounceTimer.value];
        debounceTimer := None;
      }
      ghost var waiting := debounceTimer;
      EventStep(trace, n, callbacks, waiting);
      if event.onParent && event.remove {
        pendingDelete := true;
        debounceTimer := Some(event.at + DEBOUNCE);
      } else if event.onTarget && event.remove {
        pendingDelete := true;
        debounceTimer := Some(event.at + DEBOUNCE);
      } else if event.onParent && event.create {
        // the watch on the parent is set up again
      } else if pendingDelete && event.onTarget && event.create {
        pendingDelete := false;
        debounceTimer := None;
      }
      assert debounceTimer == TimerAfter(waiting, event);
    }
    if debounceTimer.Some? && (ending.Cancelled? ==> debounceTimer.value < ending.at) {
      callbacks := callbacks + [debounceTimer.value];
    }
    forall d
      ensures GoneAt(trace, d) <==> Due(trace, |trace|, d)
    {
      GoneIffDue(trace, d);
    }
  }

  lemma TailOf(s: seq<Time>)
    requires FarApart(s) && s != []
    ensures FarApart(s[1..]) && s[0] in Elements(s)
    ensures forall d :: d in Elements(s) ==> s[0] <= d
    ensures Elements(s[1..]) == Elements(s) - {s[0]}
  {
    forall d | d in s
      ensures s[0] <= d && (d in s[1..] <==> d != s[0])
    {
      var i :| 0 <= i < |s| && s[i] == d;
      assert i > 0 ==> s[1..][i - 1] == d;
    }
  }

  /** Two lists of deadlines with the same members, each more than a debounce apart, are the same list:
      the contract of the loop leaves one result. */
  lemma {:induction false} CallbacksAreDetermined(a: seq<Time>, b: seq<Time>)
    requires FarApart(a) && FarApart(b) && Elements(a) == Elements(b)
    ensures a == b
    decreases |a|
  {
    if a != [] {
      TailOf(a);
    }
    if b != [] {
      TailOf(b);
    }
    if a != [] && b != [] {
      CallbacksAreDetermined(a[1..], b[1..]);
      assert a == [a[0]] + a[1..] && b == [b[0]] + b[1..];
    }
  }

  /** Every callback of a loop that has ended runs before the stop exactly if it was stopped by its context,
      or no deadline is left by then; and never does more than one run later. */
  method StopRace(trace: seq<FsEvent>, ending: Ending) returns (callbacks: seq<Time>)
    requires Chronological(trace) && EndsAfter(trace, ending) && !ending.Open?
    ensures (forall d :: d in callbacks ==> d < ending.at) <==>
              ending.Cancelled? || forall d :: GoneAt(trace, d) ==> d < ending.at
    ensures forall i :: 0 <= i < |callbacks| - 1 ==> callbacks[i] < ending.at
  {
    callbacks := WatchLoop(trace, ending);
    forall i | 0 <= i < |callbacks| - 1
      ensures callbacks[i] < ending.at
    {
      var last := callbacks[|callbacks| - 1];
      assert last in callbacks && last - callbacks[i] > DEBOUNCE;
      assert GoneAt(trace, last);
      GoneIffDue(trace, last);
    }
  }

  /** Stopping by closing the channel disarms nothing: the callback that was pending still runs, after
      the stop. The other way to stop, by the context, suppresses it. */
  method PendingAtTheStop(removedAt: Time, stoppedAt: Time) returns (closed: seq<Time>, cancelled: seq<Time>)
    requires removedAt <= stoppedAt <= removedAt + DEBOUNCE
    ensures closed == [removedAt + DEBOUNCE] && cancelled == []
  {
    var trace := [FsEvent(removedAt, false, true, true, false)];
    closed := WatchLoop(trace, ChannelClosed(stoppedAt));
    cancelled := WatchLoop(trace, Cancelled(stoppedAt));
    assert NothingComesBack(trace, 0, removedAt + DEBOUNCE);
    assert GoneAt(trace, removedAt + DEBOUNCE);
    assert forall d :: GoneAt(trace, d) ==> d == removedAt + DEBOUNCE;
    assert Elements(closed) == Elements([removedAt + DEBOUNCE]);
    CallbacksAreDetermined(closed, [removedAt + DEBOUNCE]);
    forall d
      ensures d !in cancelled
    {
      assert Cancelled(stoppedAt).at == stoppedAt;
      assert d in cancelled <==> GoneAt(trace, d) && d < stoppedAt;
    }
    assert Elements(cancelled) == {};
  }

  /** A file that is back in time is not reported; if only its directory is back, it is. */
  method BackInTime(removedAt: Time, createdAt: Time) returns (fileBack: seq<Time>, parentBack: seq<Time>)
    requires removedAt <= createdAt <= removedAt + 100_000_000
    ensures fileBack == [] && parentBack == [removedAt + 100_000_000]
  {
    var removed := FsEvent(removedAt, false, true, true, false);
    var file := [removed, FsEvent(createdAt, false, true, false, true)];
    var parent := [removed, FsEvent(createdAt, true, false, false, true)];
    fileBack := WatchLoop(file, Open);
    parentBack := WatchLoop(parent, Open);
    forall d
      ensures d !in fileBack
    {
      assert !NothingComesBack(file, 0, removedAt + 100_000_000) by { assert file[1].at <= removedAt + 100_000_000; }
      assert d in fileBack <==> GoneAt(file, d);
    }
    assert Elements(fileBack) == {};
    assert NothingComesBack(parent, 0, removedAt + 100_000_000);
    assert forall d :: GoneAt(parent, d) <==> d == removedAt + 100_000_000;
    assert Elements(parentBack) == Elements([removedAt + 100_000_000]);
    CallbacksAreDetermined(parentBack, [removedAt + 100_000_000]);
  }
}
