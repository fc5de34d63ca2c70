/** What the login limiter keeps over whole runs. A check reads the clock first and enters its address's
    lock later, so checks can take effect out of the order of their readings; how far out is what
    everything here depends on. */
module LoginRuns {
  import opened Sequences
  import opened LoginWindow

  type CallId = nat

  /** A check, with the clock reading it has taken. */
  datatype Attempt = Attempt(ip: Address, at: Instant)

  /** `done` are the checks in the order in which they have held the lock. */
  datatype State = State(clock: Instant, waiting: map<CallId, Attempt>, done: seq<Attempt>)

  datatype Step = Tick(elapsed: Instant) | Read(call: CallId, ip: Address) | Enter(call: CallId)

  function Init(now: Instant): State {
    State(now, map[], [])
  }

  function Next(s: State, step: Step): State {
    match step
    case Tick(elapsed) => if elapsed < 0.0 then s else s.(clock := s.clock + elapsed)
    case Read(k, ip) => if k in s.waiting then s else s.(waiting := s.waiting[k := Attempt(ip, s.clock)])
    case Enter(k) => if k in s.waiting then s.(waiting := s.waiting - {k}, done := s.done + [s.waiting[k]]) else s
  }

  function Exec(s: State, steps: seq<Step>): State
    decreases |steps|
  {
    if steps == [] then s else Exec(Next(s, steps[0]), steps[1..])
  }

  /** No check is held up for more than d between its reading and the lock. */
  ghost predicate Held(s: State, steps: seq<Step>, d: Instant)
    decreases |steps|
  {
    && (forall k :: k in s.waiting ==> s.clock - s.waiting[k].at <= d)
    && (steps != [] ==> Held(Next(s, steps[0]), steps[1..], d))
  }

  /** No reading is more than d older than one that has taken effect before it. */
  ghost predicate DelayedBy(run: seq<Attempt>, d: Instant) {
    forall i, j :: 0 <= i < j < |run| ==> run[i].at - d <= run[j].at
  }

  ghost predicate ReadBefore(s: State) {
    && (forall k :: k in s.waiting ==> s.waiting[k].at <= s.clock)
    && (forall i :: 0 <= i < |s.done| ==> s.done[i].at <= s.clock)
  }

  lemma {:induction false} DelaysAreBounded(s: State, steps: seq<Step>, d: Instant)
    requires Held(s, steps, d) && ReadBefore(s) && DelayedBy(s.done, d)
    ensures ReadBefore(Exec(s, steps)) && DelayedBy(Exec(s, steps).done, d)
    ensures forall k :: k in Exec(s, steps).waiting ==> DelayedBy(Exec(s, steps).done + [Exec(s, steps).waiting[k]], d)
    decreases |steps|
  {
    forall k | k in s.waiting
      ensures DelayedBy(s.done + [s.waiting[k]], d)
    {
    }
    if steps != [] {
      DelaysAreBounded(Next(s, steps[0]), steps[1..], d);
    }
  }

  // ----- the log of an address, and what was let through -----

  function LogOf(run: seq<Attempt>, ip: Address): seq<Instant> {
    if run == [] then [] else
      var front, last := run[..|run| - 1], run[|run| - 1];
      if last.ip == ip then LogAfter(LogOf(front, ip), last.at) else LogOf(front, ip)
  }

  /** The readings of the checks that were permitted, in the order in which they held the lock. */
  function PermittedTimes(run: seq<Attempt>, ip: Address): seq<Instant> {
    if run == [] then [] else
      var front, last := run[..|run| - 1], run[|run| - 1];
      PermittedTimes(front, ip) + if last.ip == ip && Permitted(LogOf(front, ip), last.at) then [last.at] else []
  }

  lemma RunSnoc(run: seq<Attempt>, ip: Address, at: Instant)
    ensures LogOf(run + [Attempt(ip, at)], ip) == LogAfter(LogOf(run, ip), at)
    ensures PermittedTimes(run + [Attempt(ip, at)], ip)
         == PermittedTimes(run, ip) + if Permitted(LogOf(run, ip), at) then [at] else []
  {
    assert (run + [Attempt(ip, at)])[..|run|] == run;
  }

  /** The log forgets only what is older than a minute before some reading: after such a cutoff it has the
      same entries as the list of everything ever let through. */
  lemma {:induction false} LogForgetsNothing(run: seq<Attempt>, ip: Address, cutoff: Instant)
    requires forall i :: 0 <= i < |run| && run[i].ip == ip ==> run[i].at - WINDOW <= cutoff
    ensures Filter(LogOf(run, ip), After(cutoff)) == Filter(PermittedTimes(run, ip), After(cutoff))
  {
    if run != [] {
      var front, last := run[..|run| - 1], run[|run| - 1];
      LogForgetsNothing(front, ip, cutoff);
      if last.ip == ip {
        ForgetStep(LogOf(front, ip), PermittedTimes(front, ip), last.at, cutoff);
      }
      assert PermittedTimes(front, ip) + [] == PermittedTimes(front, ip);
    }
  }

  lemma ForgetStep(log: seq<Instant>, times: seq<Instant>, at: Instant, cutoff: Instant)
    requires at - WINDOW <= cutoff && Filter(log, After(cutoff)) == Filter(times, After(cutoff))
    ensures Filter(LogAfter(log, at), After(cutoff)) == Filter(times + if Permitted(log, at) then [at] else [], After(cutoff))
  {
    var added := if Permitted(log, at) then [at] else [];
    assert Filter(Recent(log, at), After(cutoff)) == Filter(times, After(cutoff)) by {
      FilterTwice(log, After(at - WINDOW), After(cutoff));
    }
    FilterConcat(Recent(log, at), added, After(cutoff));
    FilterConcat(times, added, After(cutoff));
  }

  /** Unless a check is held up for a minute or more, the log never holds an entry a minute old. */
  lemma {:induction false} LogIsYoung(run: seq<Attempt>, ip: Address, d: Instant, i: nat)
    requires DelayedBy(run, d) && d < WINDOW && i < |run| && run[i].ip == ip
    ensures forall x :: x in LogOf(run, ip) ==> x > run[i].at - WINDOW
  {
    var front, last := run[..|run| - 1], run[|run| - 1];
    if last.ip == ip {
      FilterMembers(LogOf(front, ip), After(last.at - WINDOW));
    }
    if i < |front| {
      LogIsYoung(front, ip, d, i);
    }
  }

  /** The latest reading at this address so far, this one included. */
  function Latest(run: seq<Attempt>, ip: Address, now: Instant): (t: Instant)
    ensures t >= now && forall i :: 0 <= i < |run| && run[i].ip == ip ==> run[i].at <= t
    ensures t == now || exists i :: 0 <= i < |run| && run[i].ip == ip && run[i].at == t
  {
    if run == [] then now else
      var front, last := run[..|run| - 1], run[|run| - 1];
      var t := Latest(front, ip, now);
      assert forall i :: 0 <= i < |front| ==> front[i] == run[i];
      if last.ip == ip && last.at > t then last.at else t
  }

  /** A check is refused exactly if five were let through in the minute before the latest reading that has
      taken effect, its own included: so in the minute before its own, if none was held up past it. */
  lemma RefusedIffFiveInTheLastMinute(run: seq<Attempt>, ip: Address, now: Instant, d: Instant)
    requires DelayedBy(run + [Attempt(ip, now)], d) && d < WINDOW
    ensures Permitted(LogOf(run, ip), now) <==>
              |Filter(PermittedTimes(run, ip), After(Latest(run, ip, now) - 60.0))| < 5
  {
    assert Recent(LogOf(run, ip), now) == Recent(LogOf(run, ip), Latest(run, ip, now)) by {
      FrontDelayed(run, Attempt(ip, now), d);
      LatestCutoff(run, ip, now, d);
    }
    SinceLatest(run, ip, now);
  }

  lemma SinceLatest(run: seq<Attempt>, ip: Address, now: Instant)
    ensures Recent(LogOf(run, ip), Latest(run, ip, now)) == Recent(PermittedTimes(run, ip), Latest(run, ip, now))
  {
    LogForgetsNothing(run, ip, Latest(run, ip, now) - WINDOW);
  }

  lemma FrontDelayed(run: seq<Attempt>, last: Attempt, d: Instant)
    requires DelayedBy(run + [last], d)
    ensures DelayedBy(run, d) && forall i :: 0 <= i < |run| ==> run[i].at - d <= last.at
  {
    var all := run + [last];
    assert forall i :: 0 <= i < |run| ==> all[i] == run[i];
    assert all[|run|] == last;
  }

  /** The log has no entry between a minute before this reading and a minute before the latest. */
  lemma LatestCutoff(run: seq<Attempt>, ip: Address, now: Instant, d: Instant)
    requires DelayedBy(run, d) && d < WINDOW
    ensures Recent(LogOf(run, ip), now) == Recent(LogOf(run, ip), Latest(run, ip, now))
  {
    if Latest(run, ip, now) > now {
      YoungerThanLatest(run, ip, now, d);
      YoungFilter(LogOf(run, ip), now - WINDOW, Latest(run, ip, now) - WINDOW);
    }
  }

  lemma YoungerThanLatest(run: seq<Attempt>, ip: Address, now: Instant, d: Instant)
    requires DelayedBy(run, d) && d < WINDOW && Latest(run, ip, now) > now
    ensures forall x :: x in LogOf(run, ip) ==> x > Latest(run, ip, now) - WINDOW
  {
    var i :| 0 <= i < |run| && run[i].ip == ip && run[i].at == Latest(run, ip, now);
    LogIsYoung(run, ip, d, i);
  }

  lemma YoungFilter(log: seq<Instant>, low: Instant, high: Instant)
    requires low <= high && forall x :: x in log ==> x > high
    ensures Filter(log, After(low)) == Filter(log, After(high))
  {
    FilterSame(log, After(low), After(high));
  }

  // ----- exactly what a check counts, however long checks are held up -----

  predicate PermittedAt(run: seq<Attempt>, i: nat)
    requires i < |run|
  {
    Permitted(LogOf(run[..i], run[i].ip), run[i].at)
  }

  /** No check of this address has since read a clock a minute or more past this place's reading. */
  ghost predicate Unforgotten(run: seq<Attempt>, i: nat)
    requires i < |run|
  {
    forall j :: i < j < |run| && run[j].ip == run[i].ip ==> run[j].at - WINDOW < run[i].at
  }

  /** A check of the run, by its place in it. */
  datatype Entry = Entry(place: int, at: Instant)

  /** The log, with the place in the run of each of its entries. */
  function LogEntries(run: seq<Attempt>, ip: Address): seq<Entry> {
    if run == [] then [] else
      var front, last := run[..|run| - 1], run[|run| - 1];
      if last.ip != ip then LogEntries(front, ip)
      else Filter(LogEntries(front, ip), ReadAfter(last.at - WINDOW))
           + if Permitted(LogOf(front, ip), last.at) then [Entry(|front|, last.at)] else []
  }

  function ReadAfter(cutoff: Instant): Entry -> bool {
    (e: Entry) => e.at > cutoff
  }

  function Times(entries: seq<Entry>): seq<Instant> {
    seq(|entries|, k requires 0 <= k < |entries| => entries[k].at)
  }

  ghost predicate InLog(run: seq<Attempt>, ip: Address, e: Entry) {
    && 0 <= e.place < |run| && run[e.place] == Attempt(ip, e.at)
    && PermittedAt(run, e.place) && Unforgotten(run, e.place)
  }

  lemma InLogSnoc(front: seq<Attempt>, last: Attempt, ip: Address, e: Entry)
    ensures InLog(front + [last], ip, e) <==>
              if e.place == |front| then last == Attempt(ip, e.at) && Permitted(LogOf(front, ip), last.at)
              else InLog(front, ip, e) && (last.ip == ip ==> e.at > last.at - WINDOW)
  {
    var run, i := front + [last], e.place;
    if 0 <= i < |front| {
      assert run[..i] == front[..i] && run[i] == front[i];
      if Unforgotten(run, i) {
        forall j | i < j < |front| && front[j].ip == front[i].ip
          ensures front[j].at - WINDOW < front[i].at
        {
          assert run[j] == front[j];
        }
        assert run[|front|] == last;
      }
    } else if i == |front| {
      assert run[..i] == front;
    }
  }

  /** The log holds exactly the permitted readings that none since was a minute or more past. */
  lemma {:induction false} LogIs(run: seq<Attempt>, ip: Address)
    ensures Distinct(LogEntries(run, ip)) && forall e :: e in LogEntries(run, ip) <==> InLog(run, ip, e)
    ensures LogOf(run, ip) == Times(LogEntries(run, ip))
  {
    if run != [] {
      var front, last := run[..|run| - 1], run[|run| - 1];
      assert run == front + [last];
      LogIs(front, ip);
      forall e
        ensures e in LogEntries(run, ip) <==> InLog(run, ip, e)
      {
        InLogSnoc(front, last, ip, e);
        FilterMembers(LogEntries(front, ip), ReadAfter(last.at - WINDOW));
      }
      if last.ip == ip {
        OneMoreEntry(LogEntries(front, ip), last.at, |front|);
        var kept := Filter(LogEntries(front, ip), ReadAfter(last.at - WINDOW));
        assert kept + [] == kept;
      }
    }
  }

  lemma OneMoreEntry(entries: seq<Entry>, at: Instant, n: nat)
    requires Distinct(entries) && forall e :: e in entries ==> e.place < n
    ensures var kept := Filter(entries, ReadAfter(at - WINDOW));
            && Times(kept) == Recent(Times(entries), at)
            && Distinct(kept) && Distinct(kept + [Entry(n, at)]) && Times(kept + [Entry(n, at)]) == Times(kept) + [at]
  {
    var newer := ReadAfter(at - WINDOW);
    FilterKeepsDistinct(entries, newer);
    FilterTimes(entries, at - WINDOW);
    FilterMembers(entries, newer);
    NotYetThere(Filter(entries, newer), Entry(n, at));
  }

  lemma NotYetThere(entries: seq<Entry>, e: Entry)
    requires Distinct(entries) && e !in entries
    ensures Distinct(entries + [e]) && Times(entries + [e]) == Times(entries) + [e.at]
  {
  }

  lemma {:induction false} FilterTimes(entries: seq<Entry>, cutoff: Instant)
    ensures Filter(Times(entries), After(cutoff)) == Times(Filter(entries, ReadAfter(cutoff)))
  {
    if entries != [] {
      var front := entries[..|entries| - 1];
      FilterTimes(front, cutoff);
      assert Times(entries)[..|front|] == Times(front);
    }
  }

  /** What a check at this address with this reading would count. */
  ghost function Counted(run: seq<Attempt>, ip: Address, now: Instant): set<Entry> {
    set i | 0 <= i < |run| && InLog(run, ip, Entry(i, run[i].at)) && run[i].at > now - WINDOW :: Entry(i, run[i].at)
  }

  /** In whatever order readings take effect: a check is refused exactly if, among those let through at its
      address after a minute before its own reading, five are such that no check since has read a clock a
      minute or more past theirs. */
  lemma RefusedIffFiveCount(run: seq<Attempt>, ip: Address, now: Instant)
    ensures Permitted(LogOf(run, ip), now) <==> |Counted(run, ip, now)| < 5
  {
    var entries, newer := LogEntries(run, ip), ReadAfter(now - WINDOW);
    LogIs(run, ip);
    FilterTimes(entries, now - WINDOW);
    FilterMembers(entries, newer);
    FilterKeepsDistinct(entries, newer);
    DistinctSize(Filter(entries, newer));
    assert Counted(run, ip, now) == Elements(Filter(entries, newer));
  }

  /** However long checks are held up: a permitted one finds fewer than five permitted in the minute less d
      before it. */
  lemma PermittedFindsFewerThanFive(run: seq<Attempt>, ip: Address, now: Instant, d: Instant)
    requires DelayedBy(run + [Attempt(ip, now)], d) && d >= 0.0 && Permitted(LogOf(run, ip), now)
    ensures |Filter(PermittedTimes(run, ip), After(now - (60.0 - d)))| < 5
  {
    var log, cutoff := LogOf(run, ip), now + d - WINDOW;
    assert cutoff == now - (60.0 - d);
    assert Filter(log, After(cutoff)) == Filter(PermittedTimes(run, ip), After(cutoff)) by {
      FrontDelayed(run, Attempt(ip, now), d);
      LogForgetsNothing(run, ip, cutoff);
    }
    StricterKeepsFewer(log, now - WINDOW, cutoff);
  }

  lemma StricterKeepsFewer(log: seq<Instant>, low: Instant, high: Instant)
    requires low <= high
    ensures |Filter(log, After(high))| <= |Filter(log, After(low))|
  {
    FilterTwice(log, After(low), After(high));
  }

  /** Permitted checks are recorded in the order of their readings but for d. */
  lemma {:induction false} PermittedInOrder(run: seq<Attempt>, ip: Address, d: Instant)
    requires DelayedBy(run, d)
    ensures forall i, j :: 0 <= i < j < |PermittedTimes(run, ip)| ==> PermittedTimes(run, ip)[i] - d <= PermittedTimes(run, ip)[j]
    ensures forall t :: t in PermittedTimes(run, ip) ==> exists i :: 0 <= i < |run| && run[i].at == t
  {
    if run != [] {
      var front, last := run[..|run| - 1], run[|run| - 1];
      PermittedInOrder(front, ip, d);
      assert forall i :: 0 <= i < |front| ==> front[i] == run[i];
      var before := PermittedTimes(front, ip);
      forall i | 0 <= i < |before|
        ensures before[i] - d <= last.at
      {
        assert before[i] in before;
      }
    }
  }

  // ----- six in less than a minute -----

  ghost predicate Rising(places: seq<nat>) {
    forall i, j :: 0 <= i < j < |places| ==> places[i] < places[j]
  }

  /** Six of the times lie within less than `span` of each other. */
  ghost predicate SixAt(times: seq<Instant>, places: seq<nat>, span: Instant) {
    && |places| == 6 && Rising(places) && places[5] < |times|
    && forall i, j :: 0 <= i < 6 && 0 <= j < 6 ==> times[places[i]] - times[places[j]] < span
  }

  /** Places that a filter keeps are at most as many as it keeps. */
  lemma {:induction false} KeptPlaces(s: seq<Instant>, keep: Instant -> bool, places: seq<nat>)
    requires Rising(places) && forall i :: 0 <= i < |places| ==> places[i] < |s| && keep(s[places[i]])
    ensures |Filter(s, keep)| >= |places|
    decreases |s|
  {
    if places != [] {
      var n := |places| - 1;
      assert places[n] < |s|;
      var front := s[..|s| - 1];
      if places[n] == |s| - 1 {
        KeptPlaces(front, keep, places[..n]);
      } else {
        KeptPlaces(front, keep, places);
      }
    }
  }

  /** In every run, six permitted checks of one address span at least a minute less d. */
  lemma {:induction false} SixSpanAtLeast(run: seq<Attempt>, ip: Address, d: Instant, places: seq<nat>)
    requires DelayedBy(run, d) && d >= 0.0
    ensures !SixAt(PermittedTimes(run, ip), places, 60.0 - d)
  {
    if SixAt(PermittedTimes(run, ip), places, 60.0 - d) {
      var front, last := run[..|run| - 1], run[|run| - 1];
      var times := PermittedTimes(front, ip);
      assert run == front + [last];
      if places[5] < |times| {
        SixSpanAtLeast(front, ip, d, places);
      } else {
        assert last.ip == ip && Permitted(LogOf(front, ip), last.at);
        PermittedFindsFewerThanFive(front, ip, last.at, d);
        KeptPlaces(times, After(last.at - (60.0 - d)), places[..5]);
      }
    }
  }

  ghost predicate NeverSixWithin(d: Instant, span: Instant) {
    forall now, steps, ip, places :: Held(Init(now), steps, d) ==>
      !SixAt(PermittedTimes(Exec(Init(now), steps).done, ip), places, span)
  }

  /** Over all runs in which no check is held up for more than d, no six permitted ones of an address ever
      lie within less than `span` of each other: exactly if `span` is at most a minute less d. So the
      five a minute are kept exactly if nothing is held up at all. */
  lemma NeverSixWithinIff(d: Instant, span: Instant)
    requires d >= 0.0
    ensures NeverSixWithin(d, span) <==> span <= 60.0 - d || span <= 0.0
    ensures NeverSixWithin(d, 60.0) <==> d == 0.0
  {
    SpanIff(d, span);
    SpanIff(d, 60.0);
  }

  lemma SpanIff(d: Instant, span: Instant)
    requires d >= 0.0
    ensures NeverSixWithin(d, span) <==> span <= 60.0 - d || span <= 0.0
  {
    if span <= 60.0 - d || span <= 0.0 {
      forall now, steps, ip, places | Held(Init(now), steps, d)
        ensures !SixAt(PermittedTimes(Exec(Init(now), steps).done, ip), places, span)
      {
        DelaysAreBounded(Init(now), steps, d);
        SixSpanAtLeast(Exec(Init(now), steps).done, ip, d, places);
      }
    } else {
      var e := if d < 60.0 then d else 60.0;
      HeldUpRun(e, d);
      SixInTheRun(e, span);
      var last :| Leads(last, BothThrough(e), d);
      assert SixAt(PermittedTimes(Exec(Init(0.0), last).done, "a"), [0, 1, 2, 3, 4, 6], span);
    }
  }

  lemma SixInTheRun(e: Instant, span: Instant)
    requires e <= 60.0 && 60.0 - e < span
    ensures SixAt([0.0, 0.0, 0.0, 0.0, 0.0, 60.0, 60.0 - e], [0, 1, 2, 3, 4, 6], span)
  {
    var times, places := [0.0, 0.0, 0.0, 0.0, 0.0, 60.0, 60.0 - e], [0, 1, 2, 3, 4, 6];
    forall i | 0 <= i < 6
      ensures times[places[i]] == if i < 5 then 0.0 else 60.0 - e
    {
    }
  }

  /** This check, once it enters, is refused exactly for five permitted in the minute before its reading. */
  ghost predicate CountsAt(s: State, k: CallId)
    requires k in s.waiting
  {
    var a := s.waiting[k];
    Permitted(LogOf(s.done, a.ip), a.at) <==> |Recent(PermittedTimes(s.done, a.ip), a.at)| < 5
  }

  ghost predicate CountsTheLastMinute(d: Instant) {
    forall now, steps, k :: Held(Init(now), steps, d) && k in Exec(Init(now), steps).waiting ==>
      CountsAt(Exec(Init(now), steps), k)
  }

  /** And every check counts just the minute before its own reading, over all such runs, exactly if nothing
      is held up at all. */
  lemma CountsTheLastMinuteIff(d: Instant)
    requires d >= 0.0
    ensures CountsTheLastMinute(d) <==> d == 0.0
  {
    if d == 0.0 {
      forall now, steps, k | Held(Init(now), steps, d) && k in Exec(Init(now), steps).waiting
        ensures CountsAt(Exec(Init(now), steps), k)
      {
        DelaysAreBounded(Init(now), steps, d);
        CountsUndelayed(Exec(Init(now), steps), k);
      }
    } else {
      var e := if d < 60.0 then d else 60.0;
      CanBeOvertaken(e, d);
      TwoMore(e);
      MiscountedInTheRun(Overtaken(e), e);
      var steps :| Leads(steps, Overtaken(e), d);
      assert !CountsAt(Exec(Init(0.0), steps), 0);
    }
  }

  lemma CountsUndelayed(s: State, k: CallId)
    requires k in s.waiting && DelayedBy(s.done + [s.waiting[k]], 0.0)
    ensures CountsAt(s, k)
  {
    var a := s.waiting[k];
    assert a == Attempt(a.ip, a.at);
    assert Latest(s.done, a.ip, a.at) == a.at by { FrontDelayed(s.done, a, 0.0); }
    RefusedIffFiveInTheLastMinute(s.done, a.ip, a.at, 0.0);
  }

  lemma MiscountedInTheRun(s: State, e: Instant)
    requires 0.0 < e <= 60.0 && 0 in s.waiting && s.waiting[0] == Attempt("a", 60.0 - e)
    requires PermittedTimes(s.done, "a") == [0.0, 0.0, 0.0, 0.0, 0.0, 60.0] && Permitted(LogOf(s.done, "a"), 60.0 - e)
    ensures !CountsAt(s, 0)
  {
    KeptPlaces(PermittedTimes(s.done, "a"), After(60.0 - e - WINDOW), [0, 1, 2, 3, 4]);
  }

  // ----- a run that is as close as it gets -----

  lemma {:induction false} ExecSnoc(s: State, steps: seq<Step>, step: Step, d: Instant)
    requires Held(s, steps, d)
    requires forall k :: k in Next(Exec(s, steps), step).waiting ==>
               Next(Exec(s, steps), step).clock - Next(Exec(s, steps), step).waiting[k].at <= d
    ensures Exec(s, steps + [step]) == Next(Exec(s, steps), step) && Held(s, steps + [step], d)
    decreases |steps|
  {
    var longer := steps + [step];
    if steps != [] {
      assert Exec(Next(s, steps[0]), steps[1..]) == Exec(s, steps);
    }
    if steps == [] {
      assert longer[0] == step && longer[1..] == [];
    } else {
      assert longer[0] == steps[0] && longer[1..] == steps[1..] + [step];
      ExecSnoc(Next(s, steps[0]), steps[1..], step, d);
    }
  }

  ghost predicate Leads(steps: seq<Step>, s: State, d: Instant) {
    Exec(Init(0.0), steps) == s && Held(Init(0.0), steps, d)
  }

  /** Some run from time 0 reaches the state. */
  ghost predicate Reachable(s: State, d: Instant) {
    exists steps :: Leads(steps, s, d)
  }

  lemma Then(s: State, step: Step, s': State, d: Instant)
    requires Reachable(s, d) && Next(s, step) == s'
    requires forall k :: k in s'.waiting ==> s'.clock - s'.waiting[k].at <= d
    ensures Reachable(s', d)
  {
    var steps :| Leads(steps, s, d);
    ExecSnoc(Init(0.0), steps, step, d);
    assert Leads(steps + [step], s', d);
  }

  /** n checks at time 0. */
  function AtZero(n: nat): seq<Attempt> {
    seq(n, _ => Attempt("a", 0.0))
  }

  function Rested(n: nat): State {
    State(0.0, map[], AtZero(n))
  }

  lemma {:induction false} CanBeRested(n: nat, d: Instant)
    requires d >= 0.0
    ensures Reachable(Rested(n), d)
  {
    if n == 0 {
      assert AtZero(0) == [];
      assert Leads([], Rested(0), d);
    } else {
      var s := Rested(n - 1);
      var reading := s.(waiting := map[0 := Attempt("a", 0.0)]);
      CanBeRested(n - 1, d);
      Then(s, Read(0, "a"), reading, d);
      assert reading.waiting - {0} == map[];
      assert AtZero(n) == AtZero(n - 1) + [Attempt("a", 0.0)];
      Then(reading, Enter(0), Rested(n), d);
    }
  }

  lemma {:induction false} LogAtZero(n: nat)
    requires n <= 5
    ensures LogOf(AtZero(n), "a") == PermittedTimes(AtZero(n), "a") == seq(n, _ => 0.0)
  {
    if n > 0 {
      LogAtZero(n - 1);
      assert AtZero(n) == AtZero(n - 1) + [Attempt("a", 0.0)];
      RunSnoc(AtZero(n - 1), "a", 0.0);
      var log := LogOf(AtZero(n - 1), "a");
      FilterAll(log, After(0.0 - WINDOW));
      assert seq(n, _ => 0.0) == log + [0.0];
    }
  }

  /** One check waits with its reading while a later one has been through. */
  function Overtaken(e: Instant): State {
    State(60.0, map[0 := Attempt("a", 60.0 - e)], AtZero(5) + [Attempt("a", 60.0)])
  }

  function BothThrough(e: Instant): State {
    State(60.0, map[], Overtaken(e).done + [Attempt("a", 60.0 - e)])
  }

  /** Five checks at 0; then one reads 60 - e and is held up, another reads 60 and goes first; and all seven
      are let through. */
  lemma HeldUpRun(e: Instant, d: Instant)
    requires 0.0 <= e <= d && e <= 60.0
    ensures Reachable(BothThrough(e), d)
    ensures PermittedTimes(BothThrough(e).done, "a") == [0.0, 0.0, 0.0, 0.0, 0.0, 60.0, 60.0 - e]
  {
    CanBeOvertaken(e, d);
    assert Overtaken(e).waiting - {0} == map[];
    Then(Overtaken(e), Enter(0), BothThrough(e), d);
    TwoMore(e);
  }

  function Holding(e: Instant): State {
    State(60.0, map[0 := Attempt("a", 60.0 - e)], AtZero(5))
  }

  lemma CanBeOvertaken(e: Instant, d: Instant)
    requires 0.0 <= e <= d && e <= 60.0
    ensures Reachable(Overtaken(e), d)
  {
    CanBeHolding(e, d);
    var s := Holding(e);
    var s' := s.(waiting := s.waiting[1 := Attempt("a", 60.0)]);
    assert s'.waiting - {1} == s.waiting;
    Then(s, Read(1, "a"), s', d);
    Then(s', Enter(1), Overtaken(e), d);
  }

  lemma CanBeHolding(e: Instant, d: Instant)
    requires 0.0 <= e <= d && e <= 60.0
    ensures Reachable(Holding(e), d)
  {
    CanBeRested(5, d);
    var s1 := Rested(5).(clock := 60.0 - e);
    var s2 := Holding(e).(clock := 60.0 - e);
    Then(Rested(5), Tick(60.0 - e), s1, d);
    Then(s1, Read(0, "a"), s2, d);
    Then(s2, Tick(e), Holding(e), d);
  }

  lemma TwoMore(e: Instant)
    requires 0.0 <= e <= 60.0
    ensures var run := AtZero(5) + [Attempt("a", 60.0)];
            && PermittedTimes(run, "a") == [0.0, 0.0, 0.0, 0.0, 0.0, 60.0]
            && Permitted(LogOf(run, "a"), 60.0 - e)
            && PermittedTimes(run + [Attempt("a", 60.0 - e)], "a") == [0.0, 0.0, 0.0, 0.0, 0.0, 60.0, 60.0 - e]
  {
    LogAtZero(5);
    AfterFive(AtZero(5), LogOf(AtZero(5), "a"), e);
  }

  lemma AfterFive(run: seq<Attempt>, zeros: seq<Instant>, e: Instant)
    requires 0.0 <= e <= 60.0
    requires LogOf(run, "a") == PermittedTimes(run, "a") == zeros && |zeros| == 5
    requires forall i :: 0 <= i < |zeros| ==> zeros[i] == 0.0
    ensures var more := run + [Attempt("a", 60.0)];
            && PermittedTimes(more, "a") == zeros + [60.0]
            && Permitted(LogOf(more, "a"), 60.0 - e)
            && PermittedTimes(more + [Attempt("a", 60.0 - e)], "a") == zeros + [60.0] + [60.0 - e]
  {
    var more, log := run + [Attempt("a", 60.0)], LogAfter(zeros, 60.0);
    OldOnesGo(zeros);
    assert LogOf(more, "a") == log && PermittedTimes(more, "a") == zeros + [60.0] by { RunSnoc(run, "a", 60.0); }
    assert Permitted(log, 60.0 - e);
    RunSnoc(more, "a", 60.0 - e);
  }

  lemma OldOnesGo(zeros: seq<Instant>)
    requires forall i :: 0 <= i < |zeros| ==> zeros[i] == 0.0
    ensures Permitted(zeros, 60.0) && |LogAfter(zeros, 60.0)| == 1
  {
    FilterNone(zeros, After(60.0 - WINDOW));
  }
}
