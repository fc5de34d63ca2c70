/** The MCP health counters: five atomics shared by any number of goroutines, one atomic operation a
    step, with the five-minute window rotated by whoever wins the compare-and-swap. */
module HealthWindow {
  import opened Sequences

  /** Unix seconds. */
  type Seconds = int

  const WINDOW: Seconds := 300

  type CallId = nat

  datatype Kind = Request | Failure | Report

  /** Where a call is: before its first counter, inside rotateWindowIfNeeded, or after it. */
  datatype Pc =
    | Begun
    | ReadClock
    | LoadStart(now: Seconds)
    | Swap(now: Seconds, oldStart: Seconds)
    | ClearRequests
    | ClearErrors
    | Count
    | Finished

  datatype Call = Call(kind: Kind, pc: Pc)

  /** `rotations` (the successful swaps), `firstStart` (the first window start) and the two `wiped`
      fields (what the rotations' stores of 0 have overwritten) are history. */
  datatype State = State(
    clock: Seconds, totalRequests: nat, totalErrors: nat,
    windowStart: Seconds, windowReqs: nat, windowErrs: nat,
    calls: map<CallId, Call>,
    rotations: nat, firstStart: Seconds, wipedReqs: nat, wipedErrs: nat)

  datatype Step = Tick(elapsed: nat) | Begin(call: CallId, kind: Kind) | Advance(call: CallId)

  function Init(now: Seconds): State {
    State(now, 0, 0, now, 0, 0, map[], 0, now, 0, 0)
  }

  function Goto(s: State, k: CallId, pc: Pc): State
    requires k in s.calls
  {
    s.(calls := s.calls[k := s.calls[k].(pc := pc)])
  }

  /** One atomic operation of a call. */
  function Act(s: State, k: CallId): State
    requires k in s.calls
  {
    var c := s.calls[k];
    match c.pc
    case Begun =>
      if c.kind == Request then
        Goto(s, k, ReadClock).(totalRequests := s.totalRequests + 1)
      else if c.kind == Failure then
        Goto(s, k, ReadClock).(totalErrors := s.totalErrors + 1)
      else Goto(s, k, ReadClock)
    case ReadClock => Goto(s, k, LoadStart(s.clock))
    case LoadStart(now) => Goto(s, k, Swap(now, s.windowStart))
    case Swap(now, oldStart) =>
      if now - oldStart >= WINDOW && s.windowStart == oldStart then
        Goto(s, k, ClearRequests).(windowStart := now, rotations := s.rotations + 1)
      else Goto(s, k, Count)
    case ClearRequests => Goto(s, k, ClearErrors).(windowReqs := 0, wipedReqs := s.wipedReqs + s.windowReqs)
    case ClearErrors => Goto(s, k, Count).(windowErrs := 0, wipedErrs := s.wipedErrs + s.windowErrs)
    case Count =>
      if c.kind == Request then
        Goto(s, k, Finished).(windowReqs := s.windowReqs + 1)
      else if c.kind == Failure then
        Goto(s, k, Finished).(windowErrs := s.windowErrs + 1)
      else Goto(s, k, Finished)
    case Finished => s
  }

  function Next(s: State, step: Step): State {
    match step
    case Tick(elapsed) => s.(clock := s.clock + elapsed)
    case Begin(k, kind) => if k in s.calls then s else s.(calls := s.calls[k := Call(kind, Begun)])
    case Advance(k) => if k in s.calls then Act(s, k) else s
  }

  function Exec(s: State, steps: seq<Step>): State
    decreases |steps|
  {
    if steps == [] then s else Exec(Next(s, steps[0]), steps[1..])
  }

  /** The calls of a kind that have added to their total, and those that have added to the window. */
  ghost function Counted(calls: map<CallId, Call>, kind: Kind): set<CallId> {
    set k | k in calls && calls[k].kind == kind && !calls[k].pc.Begun?
  }

  ghost function Windowed(calls: map<CallId, Call>, kind: Kind): set<CallId> {
    set k | k in calls && calls[k].kind == kind && calls[k].pc.Finished?
  }

  function Total(s: State, kind: Kind): nat {
    match kind case Request => s.totalRequests case Failure => s.totalErrors case Report => 0
  }

  function Window(s: State, kind: Kind): nat {
    match kind case Request => s.windowReqs case Failure => s.windowErrs case Report => 0
  }

  function Wiped(s: State, kind: Kind): nat {
    match kind case Request => s.wipedReqs case Failure => s.wipedErrs case Report => 0
  }

  /** Every call is counted in the total once, and in the window once or in what was wiped from it. */
  ghost predicate Ledger(s: State, kind: Kind) {
    && Total(s, kind) == |Counted(s.calls, kind)|
    && Window(s, kind) + Wiped(s, kind) == |Windowed(s.calls, kind)|
  }

  /** Nothing a call has read lies in the future. */
  ghost predicate Timely(s: State, c: Call) {
    match c.pc
    case LoadStart(now) => now <= s.clock
    case Swap(now, oldStart) => now <= s.clock && oldStart <= s.windowStart
    case _ => true
  }

  ghost predicate Inv(s: State) {
    && Ledger(s, Request) && Ledger(s, Failure)
    && (forall k :: k in s.calls ==> Timely(s, s.calls[k]))
    && s.firstStart + WINDOW * s.rotations <= s.windowStart <= s.clock
  }

  /** A call adds to its total as it leaves Begun. */
  lemma LeaveBegun(calls: map<CallId, Call>, k: CallId, c: Call, kind: Kind)
    requires k in calls && !c.pc.Begun? && c.kind == calls[k].kind
    ensures |Counted(calls[k := c], kind)| ==
            |Counted(calls, kind)| + (if c.kind == kind && calls[k].pc.Begun? then 1 else 0)
  {
    var before, after := Counted(calls, kind), Counted(calls[k := c], kind);
    if c.kind == kind && calls[k].pc.Begun? {
      assert after == before + {k};
    } else {
      assert after == before;
    }
  }

  /** A call adds to the window as it reaches Finished. */
  lemma ReachFinished(calls: map<CallId, Call>, k: CallId, c: Call, kind: Kind)
    requires k in calls && !calls[k].pc.Finished? && c.kind == calls[k].kind
    ensures |Windowed(calls[k := c], kind)| ==
            |Windowed(calls, kind)| + (if c.kind == kind && c.pc.Finished? then 1 else 0)
  {
    var before, after := Windowed(calls, kind), Windowed(calls[k := c], kind);
    if c.kind == kind && c.pc.Finished? {
      assert after == before + {k};
    } else {
      assert after == before;
    }
  }

  /** What one atomic operation adds up to. */
  lemma ActCounts(s: State, k: CallId, kind: Kind)
    requires kind != Report && k in s.calls
    ensures var s', mine := Act(s, k), s.calls[k].kind == kind;
            && Total(s', kind) == Total(s, kind) + (if mine && s.calls[k].pc.Begun? then 1 else 0)
            && Window(s', kind) + Wiped(s', kind) == Window(s, kind) + Wiped(s, kind) + (if mine && s.calls[k].pc.Count? then 1 else 0)
  {
  }

  lemma ActMoves(s: State, k: CallId)
    requires k in s.calls && !s.calls[k].pc.Finished?
    ensures var s' := Act(s, k);
            && k in s'.calls && s'.calls == s.calls[k := s'.calls[k]]
            && s'.calls[k].kind == s.calls[k].kind && !s'.calls[k].pc.Begun?
            && (s'.calls[k].pc.Finished? <==> s.calls[k].pc.Count?)
  {
  }

  lemma LedgerAct(s: State, k: CallId, kind: Kind)
    requires kind != Report && Ledger(s, kind) && k in s.calls
    ensures Ledger(Act(s, k), kind)
  {
    if !s.calls[k].pc.Finished? {
      var c := Act(s, k).calls[k];
      ActCounts(s, k, kind);
      ActMoves(s, k);
      LeaveBegun(s.calls, k, c, kind);
      ReachFinished(s.calls, k, c, kind);
    }
  }

  lemma LedgerStep(s: State, step: Step, kind: Kind)
    requires kind != Report && Ledger(s, kind)
    ensures Ledger(Next(s, step), kind)
  {
    if step.Advance? && step.call in s.calls {
      LedgerAct(s, step.call, kind);
    } else {
      assert Counted(Next(s, step).calls, kind) == Counted(s.calls, kind);
      assert Windowed(Next(s, step).calls, kind) == Windowed(s.calls, kind);
    }
  }

  /** Clock and window start move forward only, and the window start by five minutes a rotation. */
  ghost predicate Forward(s: State, s': State) {
    && s.clock <= s'.clock && s'.firstStart == s.firstStart && s'.rotations >= s.rotations
    && s.windowStart + WINDOW * (s'.rotations - s.rotations) <= s'.windowStart
    && (s.windowStart <= s.clock ==> s'.windowStart <= s'.clock)
  }

  lemma ForwardStep(s: State, step: Step)
    requires forall k :: k in s.calls ==> Timely(s, s.calls[k])
    ensures Forward(s, Next(s, step))
  {
    if step.Advance? && step.call in s.calls {
      assert Timely(s, s.calls[step.call]);
    }
  }

  lemma TimelyStep(s: State, step: Step)
    requires forall k :: k in s.calls ==> Timely(s, s.calls[k])
    requires Forward(s, Next(s, step))
    ensures forall k :: k in Next(s, step).calls ==> Timely(Next(s, step), Next(s, step).calls[k])
  {
    var s' := Next(s, step);
    forall k | k in s'.calls ensures Timely(s', s'.calls[k]) {
      assert k in s.calls ==> Timely(s, s.calls[k]);
    }
  }

  lemma InvStep(s: State, step: Step)
    requires Inv(s)
    ensures Inv(Next(s, step)) && Forward(s, Next(s, step))
  {
    LedgerStep(s, step, Request);
    LedgerStep(s, step, Failure);
    ForwardStep(s, step);
    TimelyStep(s, step);
  }

  lemma {:induction false} InvHoldsFrom(s: State, steps: seq<Step>)
    requires Inv(s)
    ensures Inv(Exec(s, steps)) && Forward(s, Exec(s, steps))
    decreases |steps|
  {
    if steps != [] {
      var s' := Next(s, steps[0]);
      InvStep(s, steps[0]);
      InvHoldsFrom(s', steps[1..]);
    }
  }

  /** In every interleaving the totals are exact, the window and what was wiped from it account for
      every finished call, and the window never shows more than the totals. */
  lemma WindowWithinTotals(start: Seconds, steps: seq<Step>)
    ensures var s := Exec(Init(start), steps);
            && s.totalRequests == |Counted(s.calls, Request)| && s.totalErrors == |Counted(s.calls, Failure)|
            && s.windowReqs + s.wipedReqs == |Windowed(s.calls, Request)|
            && s.windowErrs + s.wipedErrs == |Windowed(s.calls, Failure)|
            && s.windowReqs <= s.totalRequests && s.windowErrs <= s.totalErrors
  {
    InvHoldsFrom(Init(start), steps);
    var s := Exec(Init(start), steps);
    SubsetSize(Windowed(s.calls, Request), Counted(s.calls, Request));
    SubsetSize(Windowed(s.calls, Failure), Counted(s.calls, Failure));
  }

  /** The window start only moves forward, by at least five minutes a rotation; so a stretch of time has
      at most one rotation for every five minutes between the window starts around it. */
  lemma RotationsAreFiveMinutesApart(start: Seconds, before: seq<Step>, after: seq<Step>)
    ensures var s := Exec(Init(start), before);
            var s' := Exec(s, after);
            && s.windowStart <= s'.windowStart <= s'.clock
            && WINDOW * (s'.rotations - s.rotations) <= s'.windowStart - s.windowStart
            && WINDOW * s'.rotations <= s'.clock - start
  {
    InvHoldsFrom(Init(start), before);
    InvHoldsFrom(Exec(Init(start), before), after);
  }

  // ----- one call at a time -----

  function Advanced(s: State, k: CallId, n: nat): State
    decreases n
  {
    if n == 0 then s else Advanced(Next(s, Advance(k)), k, n - 1)
  }

  /** A call that runs with nothing in between; it takes at most seven atomic operations. */
  function Alone(s: State, k: CallId, kind: Kind, n: nat): State {
    Advanced(Next(s, Begin(k, kind)), k, n)
  }

  /** The counters without the calls. */
  datatype Readings = Readings(start: Seconds, reqs: nat, errs: nat, totalReqs: nat, totalErrs: nat)

  function Read(s: State): Readings {
    Readings(s.windowStart, s.windowReqs, s.windowErrs, s.totalRequests, s.totalErrors)
  }

  /** A tumbling window: the first call at least five minutes after its start begins the next one. */
  function Tumbled(r: Readings, now: Seconds): Readings {
    if now - r.start >= WINDOW then r.(start := now, reqs := 0, errs := 0) else r
  }

  function Recorded(r: Readings, kind: Kind, now: Seconds): Readings {
    var w := Tumbled(r, now);
    match kind
    case Request => w.(reqs := w.reqs + 1, totalReqs := w.totalReqs + 1)
    case Failure => w.(errs := w.errs + 1, totalErrs := w.totalErrs + 1)
    case Report => w
  }

  lemma OneMoreAct(s: State, k: CallId, n: nat)
    requires k in s.calls && n > 0
    ensures Advanced(s, k, n) == Advanced(Act(s, k), k, n - 1)
  {
  }

  /** The call before its compare-and-swap. */
  function ReadyToSwap(s: State, k: CallId, kind: Kind): State {
    s.(calls := s.calls[k := Call(kind, Swap(s.clock, s.windowStart))],
       totalRequests := s.totalRequests + (if kind == Request then 1 else 0),
       totalErrors := s.totalErrors + (if kind == Failure then 1 else 0))
  }

  lemma UpToSwap(s: State, k: CallId, kind: Kind, n: nat)
    requires k !in s.calls && n >= 3
    ensures Alone(s, k, kind, n) == Advanced(ReadyToSwap(s, k, kind), k, n - 3)
  {
    var s0 := Next(s, Begin(k, kind));
    var s1 := Act(s0, k);
    OneMoreAct(s0, k, n);
    var s2 := Act(s1, k);
    OneMoreAct(s1, k, n - 1);
    OneMoreAct(s2, k, n - 2);
    assert Act(s2, k) == ReadyToSwap(s, k, kind);
  }

  /** Without interleaving, a call is one step of the tumbling window. */
  lemma AloneItTumbles(s: State, k: CallId, kind: Kind, n: nat)
    requires k !in s.calls && n >= 7
    ensures var s' := Alone(s, k, kind, n);
            && Read(s') == Recorded(Read(s), kind, s.clock) && s'.clock == s.clock
            && s'.calls == s.calls[k := Call(kind, Finished)]
            && s'.rotations == s.rotations + (if s.clock - s.windowStart >= WINDOW then 1 else 0)
  {
    var ready := ReadyToSwap(s, k, kind);
    UpToSwap(s, k, kind, n);
    OneMoreAct(ready, k, n - 3);
    if s.clock - s.windowStart >= WINDOW {
      var swapped := ready.(calls := s.calls[k := Call(kind, ClearRequests)], windowStart := s.clock, rotations := s.rotations + 1);
      assert Act(ready, k) == swapped;
      RotateAlone(swapped, k, n - 4);
    } else {
      var counting := ready.(calls := s.calls[k := Call(kind, Count)]);
      assert Act(ready, k) == counting;
      FinishAlone(counting, k, n - 4);
    }
  }

  lemma RotateAlone(s: State, k: CallId, n: nat)
    requires k in s.calls && s.calls[k].pc == ClearRequests && n >= 3
    ensures var kind := s.calls[k].kind;
            Advanced(s, k, n) == s.(
              calls := s.calls[k := Call(kind, Finished)],
              windowReqs := if kind == Request then 1 else 0, windowErrs := if kind == Failure then 1 else 0,
              wipedReqs := s.wipedReqs + s.windowReqs, wipedErrs := s.wipedErrs + s.windowErrs)
  {
    var kind := s.calls[k].kind;
    var s1 := s.(calls := s.calls[k := Call(kind, ClearErrors)], windowReqs := 0, wipedReqs := s.wipedReqs + s.windowReqs);
    var s2 := s1.(calls := s.calls[k := Call(kind, Count)], windowErrs := 0, wipedErrs := s.wipedErrs + s.windowErrs);
    assert Act(s, k) == s1;
    assert Act(s1, k) == s2;
    OneMoreAct(s, k, n);
    OneMoreAct(s1, k, n - 1);
    FinishAlone(s2, k, n - 2);
  }

  lemma {:induction false} FinishAlone(s: State, k: CallId, n: nat)
    requires k in s.calls && (s.calls[k].pc == Finished || (s.calls[k].pc == Count && n > 0))
    ensures Advanced(s, k, n) == if s.calls[k].pc == Count then Act(s, k) else s
    decreases n
  {
    if n > 0 {
      OneMoreAct(s, k, n);
      FinishAlone(Act(s, k), k, n - 1);
    }
  }

  // ----- what the window counts, over every run -----

  lemma {:induction false} ExecSnoc(s: State, steps: seq<Step>, step: Step)
    ensures Exec(s, steps + [step]) == Next(Exec(s, steps), step)
    decreases |steps|
  {
    if steps == [] {
      assert steps + [step] == [step];
    } else {
      assert (steps + [step])[1..] == steps[1..] + [step];
      ExecSnoc(Next(s, steps[0]), steps[1..], step);
    }
  }

  function At(start: Seconds, steps: seq<Step>): State {
    Exec(Init(start), steps)
  }

  lemma AtLast(start: Seconds, steps: seq<Step>)
    requires steps != []
    ensures At(start, steps) == Next(At(start, steps[..|steps| - 1]), steps[|steps| - 1])
  {
    ExecSnoc(Init(start), steps[..|steps| - 1], steps[|steps| - 1]);
    assert steps == steps[..|steps| - 1] + [steps[|steps| - 1]];
  }

  /** The step in which a call of this kind counts itself in the window, and so finishes. */
  predicate Finishes(s: State, step: Step, kind: Kind) {
    step.Advance? && step.call in s.calls && s.calls[step.call] == Call(kind, Count)
  }

  predicate WinsSwap(s: State, step: Step) {
    step.Advance? && step.call in s.calls && s.calls[step.call].pc.Swap? &&
    s.calls[step.call].pc.now - s.calls[step.call].pc.oldStart >= WINDOW && s.windowStart == s.calls[step.call].pc.oldStart
  }

  /** The store of 0 into the window counter of this kind. */
  predicate Clears(s: State, step: Step, kind: Kind) {
    step.Advance? && step.call in s.calls && s.calls[step.call].pc == if kind == Failure then ClearErrors else ClearRequests
  }

  /** How many steps of the run come up to the last swap that was won, or the last store of 0. */
  function LastSwap(start: Seconds, steps: seq<Step>): (n: nat)
    ensures n <= |steps|
  {
    if steps == [] then 0 else
      var front := steps[..|steps| - 1];
      if WinsSwap(At(start, front), steps[|steps| - 1]) then |steps| else LastSwap(start, front)
  }

  /** A swap is won exactly in a step that moves the window start or counts a rotation; it moves the start to
      the winner's own reading of the clock, five minutes or more later. */
  lemma WinsSwapIff(s: State, step: Step)
    requires Inv(s)
    ensures WinsSwap(s, step) <==> Next(s, step).windowStart != s.windowStart
    ensures WinsSwap(s, step) <==> Next(s, step).rotations != s.rotations
    ensures WinsSwap(s, step) ==>
              Next(s, step).windowStart == s.calls[step.call].pc.now && Next(s, step).windowStart - s.windowStart >= 300
  {
  }

  /** The last swap is where the window start was last moved. */
  lemma {:induction false} LastSwapIs(start: Seconds, steps: seq<Step>)
    ensures var n := LastSwap(start, steps);
            && At(start, steps).windowStart == At(start, steps[..n]).windowStart
            && At(start, steps).rotations == At(start, steps[..n]).rotations
            && (n > 0 ==> At(start, steps[..n]).rotations == At(start, steps[..n - 1]).rotations + 1)
  {
    if steps != [] {
      var front, last := steps[..|steps| - 1], steps[|steps| - 1];
      var n := LastSwap(start, front);
      LastSwapIs(start, front);
      AtLast(start, steps);
      InvHoldsFrom(Init(start), front);
      WinsSwapIff(At(start, front), last);
      assert steps[..|steps|] == steps && steps[..n] == front[..n];
      assert n > 0 ==> steps[..n - 1] == front[..n - 1];
    }
  }

  function LastClear(start: Seconds, steps: seq<Step>, kind: Kind): (n: nat)
    ensures n <= |steps|
  {
    if steps == [] then 0 else
      var front := steps[..|steps| - 1];
      if Clears(At(start, front), steps[|steps| - 1], kind) then |steps| else LastClear(start, front, kind)
  }

  /** The calls of this kind that finish in the run after its first i steps. */
  function FinishedFrom(start: Seconds, steps: seq<Step>, i: nat, kind: Kind): set<CallId> {
    if |steps| <= i then {} else
      var front, last := steps[..|steps| - 1], steps[|steps| - 1];
      FinishedFrom(start, front, i, kind) + if Finishes(At(start, front), last, kind) then {last.call} else {}
  }

  /** A call finishes only once. */
  lemma {:induction false} FinishedStay(start: Seconds, steps: seq<Step>, i: nat, kind: Kind)
    ensures forall k :: k in FinishedFrom(start, steps, i, kind) ==>
              k in At(start, steps).calls && At(start, steps).calls[k] == Call(kind, Finished)
  {
    if |steps| > i {
      var front, last := steps[..|steps| - 1], steps[|steps| - 1];
      FinishedStay(start, front, i, kind);
      AtLast(start, steps);
      forall k | k in FinishedFrom(start, front, i, kind)
        ensures k in At(start, steps).calls && At(start, steps).calls[k] == Call(kind, Finished)
      {
        FinishedStays(At(start, front), last, k);
      }
    }
  }

  lemma FinishedStays(s: State, step: Step, k: CallId)
    requires k in s.calls && s.calls[k].pc.Finished?
    ensures k in Next(s, step).calls && Next(s, step).calls[k] == s.calls[k]
  {
  }

  lemma WindowStep(s: State, step: Step, kind: Kind)
    requires kind != Report
    ensures Window(Next(s, step), kind) ==
            if Clears(s, step, kind) then 0 else Window(s, kind) + if Finishes(s, step, kind) then 1 else 0
  {
  }

  /** In every run the window counts exactly the calls that finished since the last store of 0. */
  lemma {:induction false} WindowIsSinceClear(start: Seconds, steps: seq<Step>, kind: Kind)
    requires kind != Report
    ensures Window(At(start, steps), kind) == |FinishedFrom(start, steps, LastClear(start, steps, kind), kind)|
  {
    if steps != [] {
      var front, last := steps[..|steps| - 1], steps[|steps| - 1];
      var i := LastClear(start, front, kind);
      WindowIsSinceClear(start, front, kind);
      AtLast(start, steps);
      WindowStep(At(start, front), last, kind);
      FinishedStay(start, front, i, kind);
      assert Finishes(At(start, front), last, kind) ==> last.call !in FinishedFrom(start, front, i, kind);
    }
  }

  lemma {:induction false} FinishedSplit(start: Seconds, steps: seq<Step>, i: nat, j: nat, kind: Kind)
    requires i <= j <= |steps|
    ensures FinishedFrom(start, steps, i, kind) == FinishedFrom(start, steps[..j], i, kind) + FinishedFrom(start, steps, j, kind)
    ensures FinishedFrom(start, steps[..j], i, kind) !! FinishedFrom(start, steps, j, kind)
    decreases |steps|
  {
    if j == |steps| {
      assert steps[..j] == steps;
    } else {
      var front, last := steps[..|steps| - 1], steps[|steps| - 1];
      FinishedSplit(start, front, i, j, kind);
      assert steps[..j] == front[..j];
      FinishedStay(start, front, i, kind);
      assert Finishes(At(start, front), last, kind) ==> last.call !in FinishedFrom(start, front, i, kind);
    }
  }

  /** It counts the calls finished since the last rotation exactly if no call of the kind finished between
      that rotation's swap and the last store of 0, whichever came first. */
  lemma WindowIsSinceSwapIff(start: Seconds, steps: seq<Step>, kind: Kind)
    requires kind != Report
    ensures var swap, clear := LastSwap(start, steps), LastClear(start, steps, kind);
            var lo, hi := if swap <= clear then swap else clear, if swap <= clear then clear else swap;
            Window(At(start, steps), kind) == |FinishedFrom(start, steps, swap, kind)|
            <==> FinishedFrom(start, steps[..hi], lo, kind) == {}
  {
    var swap, clear := LastSwap(start, steps), LastClear(start, steps, kind);
    WindowIsSinceClear(start, steps, kind);
    if swap <= clear {
      FinishedSplit(start, steps, swap, clear, kind);
    } else {
      FinishedSplit(start, steps, clear, swap, kind);
    }
  }

  // ----- a run in which the two differ -----

  lemma {:induction false} ThenAdvanced(start: Seconds, before: seq<Step>, k: CallId, n: nat) returns (after: seq<Step>)
    ensures At(start, before + after) == Advanced(At(start, before), k, n)
    decreases n
  {
    if n == 0 {
      after := [];
      assert before + [] == before;
    } else {
      var steps := before + [Advance(k)];
      ExecSnoc(Init(start), before, Advance(k));
      var rest := ThenAdvanced(start, steps, k, n - 1);
      after := [Advance(k)] + rest;
      assert before + after == steps + rest;
    }
  }

  ghost predicate Reachable(s: State) {
    exists steps :: At(0, steps) == s
  }

  lemma Then(s: State, step: Step, s': State)
    requires Reachable(s) && Next(s, step) == s'
    ensures Reachable(s')
  {
    var steps :| At(0, steps) == s;
    ExecSnoc(Init(0), steps, step);
    assert At(0, steps + [step]) == s';
  }

  /** A call has won the swap of the first rotation and has not cleared anything yet. */
  function SlowClearer(): State {
    Init(0).(clock := 300, windowStart := 300, rotations := 1, calls := map[0 := Call(Report, ClearRequests)])
  }

  lemma CanBeSlowToClear()
    ensures Reachable(SlowClearer())
  {
    assert At(0, []) == Init(0);
    var s1 := Init(0).(clock := 300);
    var s2 := s1.(calls := map[0 := Call(Report, Begun)]);
    var s3 := s1.(calls := map[0 := Call(Report, ReadClock)]);
    var s4 := s1.(calls := map[0 := Call(Report, LoadStart(300))]);
    var s5 := s1.(calls := map[0 := Call(Report, Swap(300, 0))]);
    Then(Init(0), Tick(300), s1);
    Then(s1, Begin(0, Report), s2);
    Then(s2, Advance(0), s3);
    Then(s3, Advance(0), s4);
    Then(s4, Advance(0), s5);
    Then(s5, Advance(0), SlowClearer());
  }

  /** The call of `s'` came after the swap and finished, and is not in the window. */
  predicate Forgets(s: State, s': State, k: CallId) {
    && s.rotations == s'.rotations == 1 && s.windowStart == s'.windowStart == s'.clock
    && k !in s.calls && k in s'.calls && s'.calls[k] == Call(Request, Finished)
    && s'.totalRequests == 1 && s'.windowReqs == 0
  }

  lemma WipedByLateClear()
    ensures Forgets(SlowClearer(), Next(Alone(SlowClearer(), 1, Request, 7), Advance(0)), 1)
  {
    var t := Alone(SlowClearer(), 1, Request, 7);
    AloneItTumbles(SlowClearer(), 1, Request, 7);
    assert t.calls[0] == Call(Report, ClearRequests) && Read(t) == Readings(300, 1, 0, 1, 0);
  }

  /** A request that begins after the swap, and finishes in the new window, is wiped by the rotation's own
      late store of 0. */
  lemma LateClearForgets()
    ensures exists before, after :: Forgets(At(0, before), At(0, before + after), 1)
  {
    CanBeSlowToClear();
    var before :| At(0, before) == SlowClearer();
    var steps := before + [Begin(1, Request)];
    ExecSnoc(Init(0), before, Begin(1, Request));
    var rest := ThenAdvanced(0, steps, 1, 7);
    ExecSnoc(Init(0), steps + rest, Advance(0));
    var after := [Begin(1, Request)] + rest + [Advance(0)];
    assert before + after == steps + rest + [Advance(0)];
    WipedByLateClear();
    assert Forgets(At(0, before), At(0, before + after), 1);
  }
}
