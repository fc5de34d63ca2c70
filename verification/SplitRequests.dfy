/** The per-client limiter as the program runs it: a request looks its limiter up under one lock and uses it
    under another, and a sweep can come between the two. Exactly when nobody can tell. */
module SplitRequests {
  import opened TokenBucket
  import opened ClientBuckets

  type CallId = nat
  type LimiterId = nat

  /** A request that holds a limiter and has still to use it. */
  datatype Pending = Pending(client: Client, limiter: LimiterId, since: Seconds)

  /** `limiters` has every limiter ever made, evicted or not; `clients` is the map that is swept. `own` is
      history: each client's bucket as it would be without any sweep. */
  datatype State = State(
    clock: Seconds, lastCleanup: Seconds, clients: map<Client, LimiterId>, limiters: map<LimiterId, Bucket>,
    made: LimiterId, pending: map<CallId, Pending>, own: map<Client, Bucket>)

  datatype Step = Tick(elapsed: Seconds) | Lookup(call: CallId, client: Client) | Use(call: CallId)

  function Init(now: Seconds): State {
    State(now, now, map[], map[], 0, map[], map[])
  }

  function Sweep(s: State): State {
    if s.clock - s.lastCleanup > CLEANUP_INTERVAL then
      s.(clients := map c | c in s.clients && !(s.clients[c] in s.limiters && Idle(s.limiters[s.clients[c]], s.clock)) :: s.clients[c],
         lastCleanup := s.clock)
    else s
  }

  function FindOrMake(s: State, lim: Limits, c: Client): State {
    if c in s.clients then s
    else s.(clients := s.clients[c := s.made], limiters := s.limiters[s.made := Full(lim, s.clock)], made := s.made + 1)
  }

  function DoLookup(s: State, lim: Limits, k: CallId, c: Client): State {
    var found := FindOrMake(Sweep(s), lim, c);
    found.(pending := s.pending[k := Pending(c, found.clients[c], s.clock)],
           own := if c in s.own then s.own else s.own[c := Full(lim, s.clock)])
  }

  /** The call's client and limiter are there. */
  predicate Ready(s: State, k: CallId) {
    k in s.pending && s.pending[k].limiter in s.limiters && s.pending[k].client in s.own
  }

  function DoUse(s: State, lim: Limits, k: CallId): State
    requires Ready(s, k)
  {
    var p := s.pending[k];
    s.(limiters := s.limiters[p.limiter := AfterRequest(s.limiters[p.limiter], lim, s.clock)],
       own := s.own[p.client := AfterRequest(s.own[p.client], lim, s.clock)],
       pending := s.pending - {k})
  }

  function Next(s: State, lim: Limits, step: Step): State {
    match step
    case Tick(elapsed) => if elapsed < 0.0 then s else s.(clock := s.clock + elapsed)
    case Lookup(k, c) => if k in s.pending then s else DoLookup(s, lim, k, c)
    case Use(k) => if Ready(s, k) then DoUse(s, lim, k) else s
  }

  function Exec(s: State, lim: Limits, steps: seq<Step>): State
    decreases |steps|
  {
    if steps == [] then s else Exec(Next(s, lim, steps[0]), lim, steps[1..])
  }

  /** The request is answered otherwise than it would be from its client's own bucket. */
  predicate Observable(s: State, lim: Limits, k: CallId) {
    && Ready(s, k)
    && (Refilled(s.limiters[s.pending[k].limiter], lim, s.clock) >= 1.0) !=
       (Refilled(s.own[s.pending[k].client], lim, s.clock) >= 1.0)
  }

  ghost predicate Prompt(s: State, d: Seconds) {
    forall k :: k in s.pending ==> s.clock - s.pending[k].since <= d
  }

  /** No request waits for more than d between its look-up and its use. */
  ghost predicate PromptRun(s: State, lim: Limits, steps: seq<Step>, d: Seconds)
    decreases |steps|
  {
    Prompt(s, d) && (steps != [] ==> PromptRun(Next(s, lim, steps[0]), lim, steps[1..], d))
  }

  ghost predicate Unobservable(lim: Limits, d: Seconds) {
    forall now, steps, k :: PromptRun(Init(now), lim, steps, d) ==> !Observable(Exec(Init(now), lim, steps), lim, k)
  }

  // ----- a limiter used the moment it is looked up -----

  ghost predicate Alike(b: Bucket, own: Bucket, lim: Limits, now: Seconds) {
    Sound(b, lim, now) && Sound(own, lim, now) && (b == own || (FullBy(b, lim, now) && FullBy(own, lim, now)))
  }

  /** The limiters are in use by one client each. */
  ghost predicate Kept(s: State) {
    && (forall c :: c in s.clients ==> c in s.own && s.clients[c] in s.limiters)
    && (forall c, e :: c in s.clients && e in s.clients && c != e ==> s.clients[c] != s.clients[e])
    && (forall l :: l in s.limiters ==> l < s.made)
  }

  ghost predicate OwnAgrees(s: State, lim: Limits, c: Client)
    requires c in s.own
  {
    if c in s.clients then s.clients[c] in s.limiters && Alike(s.limiters[s.clients[c]], s.own[c], lim, s.clock)
    else Sound(s.own[c], lim, s.clock) && FullBy(s.own[c], lim, s.clock)
  }

  /** A request that has just looked its limiter up holds the one in the map, and no sweep is due. */
  ghost predicate HoldsCurrent(s: State, k: CallId)
    requires k in s.pending
  {
    var p := s.pending[k];
    && p.since <= s.clock
    && (p.since == s.clock ==> p.client in s.clients && s.clients[p.client] == p.limiter && s.clock - s.lastCleanup <= CLEANUP_INTERVAL)
  }

  ghost predicate Inv(s: State, lim: Limits) {
    && Kept(s)
    && (forall c :: c in s.own ==> OwnAgrees(s, lim, c))
    && (forall k :: k in s.pending ==> HoldsCurrent(s, k))
  }

  ghost predicate Refills(lim: Limits) {
    lim.rate >= 0.0 && lim.burst as real <= Gain(lim, MAX_IDLE)
  }

  lemma TickStep(s: State, lim: Limits, elapsed: Seconds)
    requires Refills(lim) && Inv(s, lim) && elapsed >= 0.0
    ensures Inv(s.(clock := s.clock + elapsed), lim)
  {
    var s' := s.(clock := s.clock + elapsed);
    forall c | c in s'.own
      ensures OwnAgrees(s', lim, c)
    {
      assert OwnAgrees(s, lim, c);
      LaterIsFuller(s.own[c], lim, s.clock, s'.clock);
      if c in s.clients {
        LaterIsFuller(s.limiters[s.clients[c]], lim, s.clock, s'.clock);
      }
    }
    forall k | k in s'.pending
      ensures HoldsCurrent(s', k)
    {
      assert HoldsCurrent(s, k);
    }
  }

  /** A sweep takes only limiters whose clients' own buckets are full again. */
  lemma SweepStep(s: State, lim: Limits)
    requires Refills(lim) && Inv(s, lim)
    ensures Inv(Sweep(s), lim)
  {
    var s' := Sweep(s);
    forall c | c in s'.own
      ensures OwnAgrees(s', lim, c)
    {
      assert OwnAgrees(s, lim, c);
      if c in s.clients && c !in s'.clients {
        LaterIsFuller(s.limiters[s.clients[c]], lim, s.clock, s.clock);
      }
    }
    forall k | k in s'.pending
      ensures HoldsCurrent(s', k)
    {
      assert HoldsCurrent(s, k);
    }
  }

  lemma FindStep(s: State, lim: Limits, k: CallId, c: Client)
    requires Refills(lim) && Inv(s, lim) && k !in s.pending && s.clock - s.lastCleanup <= CLEANUP_INTERVAL
    ensures var found := FindOrMake(s, lim, c);
            Inv(found.(pending := s.pending[k := Pending(c, found.clients[c], s.clock)],
                       own := if c in s.own then s.own else s.own[c := Full(lim, s.clock)]), lim)
  {
    var found := FindOrMake(s, lim, c);
    var s' := found.(pending := s.pending[k := Pending(c, found.clients[c], s.clock)],
                     own := if c in s.own then s.own else s.own[c := Full(lim, s.clock)]);
    FullIsSound(lim, s.clock);
    forall x | x in s'.own
      ensures OwnAgrees(s', lim, x)
    {
      assert x in s.own ==> OwnAgrees(s, lim, x);
    }
    forall x | x in s'.pending
      ensures HoldsCurrent(s', x)
    {
      assert x in s.pending ==> HoldsCurrent(s, x);
    }
  }

  lemma FullIsSound(lim: Limits, now: Seconds)
    requires lim.rate >= 0.0
    ensures Sound(Full(lim, now), lim, now) && FullBy(Full(lim, now), lim, now)
  {
    assert Gain(lim, now - now) == 0.0;
  }

  lemma UseStep(s: State, lim: Limits, k: CallId)
    requires Refills(lim) && Inv(s, lim) && Ready(s, k) && s.pending[k].since == s.clock
    ensures Inv(DoUse(s, lim, k), lim) && !Observable(s, lim, k)
  {
    var p := s.pending[k];
    assert HoldsCurrent(s, k) && OwnAgrees(s, lim, p.client);
    LaterIsFuller(s.limiters[p.limiter], lim, s.clock, s.clock);
    LaterIsFuller(s.own[p.client], lim, s.clock, s.clock);
    var s' := DoUse(s, lim, k);
    forall c | c in s'.own
      ensures OwnAgrees(s', lim, c)
    {
      assert OwnAgrees(s, lim, c);
    }
    forall x | x in s'.pending
      ensures HoldsCurrent(s', x)
    {
      assert HoldsCurrent(s, x);
    }
  }

  lemma InvStep(s: State, lim: Limits, step: Step)
    requires Refills(lim) && Inv(s, lim) && Prompt(s, 0.0)
    ensures Inv(Next(s, lim, step), lim)
  {
    match step
    case Tick(elapsed) => if elapsed >= 0.0 { TickStep(s, lim, elapsed); }
    case Lookup(k, c) =>
      if k !in s.pending {
        SweepStep(s, lim);
        FindStep(Sweep(s), lim, k, c);
      }
    case Use(k) =>
      if Ready(s, k) {
        assert HoldsCurrent(s, k);
        UseStep(s, lim, k);
      }
  }

  lemma {:induction false} InvHoldsFrom(s: State, lim: Limits, steps: seq<Step>)
    requires Refills(lim) && Inv(s, lim) && PromptRun(s, lim, steps, 0.0)
    ensures Inv(Exec(s, lim, steps), lim) && Prompt(Exec(s, lim, steps), 0.0)
    decreases |steps|
  {
    if steps != [] {
      InvStep(s, lim, steps[0]);
      InvHoldsFrom(Next(s, lim, steps[0]), lim, steps[1..]);
    }
  }

  lemma UsedAtOnce(lim: Limits, now: Seconds, steps: seq<Step>, k: CallId)
    requires Refills(lim) && PromptRun(Init(now), lim, steps, 0.0)
    ensures !Observable(Exec(Init(now), lim, steps), lim, k)
  {
    InvHoldsFrom(Init(now), lim, steps);
    var s := Exec(Init(now), lim, steps);
    if Ready(s, k) {
      assert HoldsCurrent(s, k);
      UseStep(s, lim, k);
    }
  }

  // ----- the exact condition -----

  /** Over all runs in which no request waits for more than d between its look-up and its use, no answer ever
      differs from that of a client's own bucket: exactly if nothing is ever allowed, or limiters are used
      the moment they are looked up and an idle one is full again by the time it may be evicted. */
  lemma UnobservableIff(lim: Limits, d: Seconds)
    requires lim.rate >= 0.0 && d >= 0.0
    ensures Unobservable(lim, d) <==> lim.burst <= 0 || (d == 0.0 && lim.burst as real <= 600.0 * lim.rate)
  {
    if lim.burst <= 0 || (d == 0.0 && Refills(lim)) {
      forall now, steps, k | PromptRun(Init(now), lim, steps, d)
        ensures !Observable(Exec(Init(now), lim, steps), lim, k)
      {
        if lim.burst > 0 {
          UsedAtOnce(lim, now, steps, k);
        }
      }
    } else if Refills(lim) {
      SweptInBetween(lim, d);
      ToldIsObservable(lim, d);
    } else {
      SlowRefill(lim, d);
      ToldIsObservable(lim, d);
    }
  }

  // ----- runs that can be told -----

  ghost predicate Leads(steps: seq<Step>, s: State, lim: Limits, d: Seconds) {
    Exec(Init(0.0), lim, steps) == s && Prompt(s, d) && PromptRun(Init(0.0), lim, steps, d)
  }

  ghost predicate Reachable(s: State, lim: Limits, d: Seconds) {
    exists steps :: Leads(steps, s, lim, d)
  }

  /** Some run from time 0 gives itself away. */
  ghost predicate CanBeTold(lim: Limits, d: Seconds) {
    exists s, k :: Reachable(s, lim, d) && Observable(s, lim, k)
  }

  lemma {:induction false} ExecSnoc(s: State, lim: Limits, steps: seq<Step>, step: Step, d: Seconds)
    requires PromptRun(s, lim, steps, d) && Prompt(Next(Exec(s, lim, steps), lim, step), d)
    ensures Exec(s, lim, steps + [step]) == Next(Exec(s, lim, steps), lim, step) && PromptRun(s, lim, steps + [step], d)
    decreases |steps|
  {
    var longer := steps + [step];
    if steps == [] {
      assert longer[0] == step && longer[1..] == [];
    } else {
      assert longer[0] == steps[0] && longer[1..] == steps[1..] + [step];
      ExecSnoc(Next(s, lim, steps[0]), lim, steps[1..], step, d);
    }
  }

  lemma Then(s: State, step: Step, s': State, lim: Limits, d: Seconds)
    requires Reachable(s, lim, d) && Next(s, lim, step) == s' && Prompt(s', d)
    ensures Reachable(s', lim, d)
  {
    var steps :| Leads(steps, s, lim, d);
    ExecSnoc(Init(0.0), lim, steps, step, d);
    assert Leads(steps + [step], s', lim, d);
  }

  lemma ToldIsObservable(lim: Limits, d: Seconds)
    requires CanBeTold(lim, d)
    ensures !Unobservable(lim, d)
  {
    var s, k :| Reachable(s, lim, d) && Observable(s, lim, k);
    var steps :| Leads(steps, s, lim, d);
    assert Observable(Exec(Init(0.0), lim, steps), lim, k);
  }

  /** The client is in the map, and no sweep is due. */
  predicate Settled(s: State, c: Client) {
    c in s.clients && s.clients[c] in s.limiters && c in s.own && s.clock - s.lastCleanup <= CLEANUP_INTERVAL
  }

  function Requested(s: State, lim: Limits, c: Client): State
    requires Settled(s, c)
  {
    s.(limiters := s.limiters[s.clients[c] := AfterRequest(s.limiters[s.clients[c]], lim, s.clock)],
       own := s.own[c := AfterRequest(s.own[c], lim, s.clock)])
  }

  /** A whole request with nothing in between. */
  lemma Request(s: State, c: Client, k: CallId, lim: Limits, d: Seconds)
    requires Reachable(s, lim, d) && Settled(s, c) && k !in s.pending && d >= 0.0
    ensures Reachable(Requested(s, lim, c), lim, d)
  {
    var held := s.(pending := s.pending[k := Pending(c, s.clients[c], s.clock)]);
    assert held.pending - {k} == s.pending;
    Then(s, Lookup(k, c), held, lim, d);
    Then(held, Use(k), Requested(s, lim, c), lim, d);
  }

  /** The client's limiter and its own bucket were last used now, and hold this much. */
  predicate Holds(s: State, c: Client, tokens: real, own: real) {
    Settled(s, c) && s.limiters[s.clients[c]] == Bucket(tokens, s.clock) && s.own[c] == Bucket(own, s.clock)
  }

  function Set(s: State, c: Client, tokens: real, own: real): State
    requires Settled(s, c)
  {
    s.(limiters := s.limiters[s.clients[c] := Bucket(tokens, s.clock)], own := s.own[c := Bucket(own, s.clock)])
  }

  lemma RequestNow(b: Bucket, lim: Limits)
    requires b.tokens <= lim.burst as real
    ensures AfterRequest(b, lim, b.lastUpdate) == if b.tokens >= 1.0 then Bucket(b.tokens - 1.0, b.lastUpdate) else b
    ensures Refilled(b, lim, b.lastUpdate) == b.tokens
  {
    assert Gain(lim, b.lastUpdate - b.lastUpdate) == 0.0;
  }

  /** As many requests as both hold tokens for. */
  lemma {:induction false} DrainBoth(s: State, c: Client, k: CallId, n: nat, lim: Limits, d: Seconds)
    requires Reachable(s, lim, d) && k !in s.pending && d >= 0.0 && n <= lim.burst
    requires Holds(s, c, n as real, n as real)
    ensures Reachable(Set(s, c, 0.0, 0.0), lim, d)
    decreases n
  {
    if n == 0 {
      assert Set(s, c, 0.0, 0.0) == s;
    } else {
      RequestNow(s.own[c], lim);
      Request(s, c, k, lim, d);
      var s' := Requested(s, lim, c);
      DrainBoth(s', c, k, n - 1, lim, d);
      assert Set(s', c, 0.0, 0.0) == Set(s, c, 0.0, 0.0);
    }
  }

  /** A limiter with more tokens than its client's own bucket gives itself away. */
  lemma {:induction false} DrainUnequal(s: State, c: Client, k: CallId, n: nat, own: real, lim: Limits, d: Seconds)
    requires Reachable(s, lim, d) && k !in s.pending && d >= 0.0 && 0 < n <= lim.burst
    requires Holds(s, c, n as real, own) && own < n as real
    ensures CanBeTold(lim, d)
    decreases n
  {
    RequestNow(s.own[c], lim);
    RequestNow(s.limiters[s.clients[c]], lim);
    if n == 1 {
      var held := s.(pending := s.pending[k := Pending(c, s.clients[c], s.clock)]);
      Then(s, Lookup(k, c), held, lim, d);
      assert Observable(held, lim, k);
    } else {
      Request(s, c, k, lim, d);
      DrainUnequal(Requested(s, lim, c), c, k, n - 1, if own >= 1.0 then own - 1.0 else own, lim, d);
    }
  }

  /** The first request of client "a", at time 0. */
  function First(lim: Limits): State {
    var b := AfterRequest(Full(lim, 0.0), lim, 0.0);
    State(0.0, 0.0, map["a" := 0], map[0 := b], 1, map[], map["a" := b])
  }

  lemma CanBeFirst(lim: Limits, d: Seconds)
    requires d >= 0.0 && lim.burst >= 1
    ensures Reachable(First(lim), lim, d)
    ensures Holds(First(lim), "a", (lim.burst - 1) as real, (lim.burst - 1) as real)
  {
    RequestNow(Full(lim, 0.0), lim);
    var full := Full(lim, 0.0);
    var held := State(0.0, 0.0, map["a" := 0], map[0 := full], 1, map[0 := Pending("a", 0, 0.0)], map["a" := full]);
    assert held.pending - {0} == map[];
    assert Leads([], Init(0.0), lim, d);
    Then(Init(0.0), Lookup(0, "a"), held, lim, d);
    Then(held, Use(0), First(lim), lim, d);
  }

  /** With a longer refill than the idle limit: the bucket is emptied, evicted before it is full again, and
      found full. */
  lemma SlowRefill(lim: Limits, d: Seconds)
    requires lim.rate >= 0.0 && lim.burst >= 1 && lim.burst as real > Gain(lim, MAX_IDLE) && d >= 0.0
    ensures CanBeTold(lim, d)
  {
    TooEarlyIs(lim);
    var at := TooEarly(lim);
    CanBeFirst(lim, d);
    DrainBoth(First(lim), "a", 0, lim.burst - 1, lim, d);
    var s := Set(First(lim), "a", 0.0, 0.0);
    var late := s.(clock := at);
    Then(s, Tick(at), late, lim, d);
    var full := Full(lim, at);
    assert Sweep(late).clients == map[];
    var held := late.(lastCleanup := at, clients := map["a" := 1], limiters := late.limiters[1 := full], made := 2,
                      pending := map[0 := Pending("a", 1, at)]);
    Then(late, Lookup(0, "a"), held, lim, d);
    RequestNow(full, lim);
    if lim.burst > 1 {
      MoreThanOwn(held, lim, d);
    } else {
      assert Observable(held, lim, 0);
    }
  }

  lemma MoreThanOwn(held: State, lim: Limits, d: Seconds)
    requires Reachable(held, lim, d) && lim.burst > 1 && d >= 0.0 && lim.rate >= 0.0
    requires held.clients == map["a" := 1] && 1 in held.limiters && held.limiters[1] == Full(lim, held.clock)
    requires held.lastCleanup == held.clock && held.pending == map[0 := Pending("a", 1, held.clock)]
    requires "a" in held.own && Refilled(held.own["a"], lim, held.clock) < lim.burst as real
    ensures CanBeTold(lim, d)
  {
    RequestNow(Full(lim, held.clock), lim);
    var used := DoUse(held, lim, 0);
    assert used.pending == map[];
    Then(held, Use(0), used, lim, d);
    DrainUnequal(used, "a", 0, lim.burst - 1, used.own["a"].tokens, lim, d);
  }

  /** Client "b" has had the map swept at 301, and "a" looks its limiter up at 601, just too early for the
      next sweep. */
  function Waiting(lim: Limits, waited: Seconds): State {
    var b := AfterRequest(Full(lim, 0.0), lim, 0.0);
    var other := AfterRequest(Full(lim, 301.0), lim, 301.0);
    State(601.0 + waited, 301.0, map["a" := 0, "b" := 1], map[0 := b, 1 := other], 2,
          map[7 := Pending("a", 0, 601.0)], map["a" := b, "b" := other])
  }

  lemma CanBeWaiting(lim: Limits, e: Seconds, d: Seconds)
    requires 0.0 <= e <= d && lim.burst >= 1
    ensures Reachable(Waiting(lim, e), lim, d)
  {
    CanBeFirst(lim, d);
    var s0 := First(lim);
    var s1 := s0.(clock := 301.0);
    Then(s0, Tick(301.0), s1, lim, d);
    var s2 := Waiting(lim, 0.0).(clock := 301.0, pending := map[]);
    OtherClient(s1, s2, lim, d);
    var s3 := s2.(clock := 601.0);
    Then(s2, Tick(300.0), s3, lim, d);
    Then(s3, Lookup(7, "a"), Waiting(lim, 0.0), lim, d);
    Then(Waiting(lim, 0.0), Tick(e), Waiting(lim, e), lim, d);
  }

  lemma OtherClient(s: State, s': State, lim: Limits, d: Seconds)
    requires Reachable(s, lim, d) && d >= 0.0
    requires s == First(lim).(clock := 301.0) && s' == Waiting(lim, 0.0).(clock := 301.0, pending := map[])
    ensures Reachable(s', lim, d)
  {
    var full := Full(lim, 301.0);
    var held := s'.(limiters := s.limiters[1 := full], own := s.own["b" := full], pending := map[0 := Pending("b", 1, 301.0)]);
    assert Sweep(s).clients == s.clients;
    assert s.clients["b" := 1] == s'.clients;
    Then(s, Lookup(0, "b"), held, lim, d);
    assert held.pending - {0} == map[];
    assert held.limiters[1 := AfterRequest(full, lim, 301.0)] == s'.limiters;
    assert held.own["b" := AfterRequest(full, lim, 301.0)] == s'.own;
    Then(held, Use(0), s', lim, d);
  }

  /** A sweep between look-up and use: the limiter in hand is evicted, a new one grants a whole burst, and the
      one in hand grants one more. */
  lemma SweptInBetween(lim: Limits, d: Seconds)
    requires Refills(lim) && lim.burst >= 1 && d > 0.0
    ensures CanBeTold(lim, d)
  {
    var e := if d < 1.0 then d else 1.0;
    CanBeWaiting(lim, e, d);
    var s := Waiting(lim, e);
    EvictedAndFull(s, lim, e, d);
    var s' := Replaced(lim, e);
    DrainBoth(s', "a", 0, lim.burst - 1, lim, d);
    var empty := Set(s', "a", 0.0, 0.0);
    RequestNow(empty.own["a"], lim);
    FullAgain(lim, 601.0 + e);
    assert Observable(empty, lim, 7);
  }

  /** The bucket of the first request is full again. */
  lemma FullAgain(lim: Limits, now: Seconds)
    requires Refills(lim) && lim.burst >= 1 && now > MAX_IDLE
    ensures Refilled(AfterRequest(Full(lim, 0.0), lim, 0.0), lim, now) == lim.burst as real
  {
    RequestNow(Full(lim, 0.0), lim);
    GainGrows(lim, MAX_IDLE, now);
  }

  /** After the sweep, and the first request with the new limiter. */
  function Replaced(lim: Limits, e: Seconds): State {
    var s, now := Waiting(lim, e), 601.0 + e;
    var b := AfterRequest(Full(lim, now), lim, now);
    s.(lastCleanup := now, clients := map["a" := 2, "b" := 1], limiters := s.limiters[2 := b], made := 3, own := s.own["a" := b])
  }

  /** The client's second request, holding the limiter just made for it. */
  function Remade(lim: Limits, e: Seconds): State {
    var s, now := Waiting(lim, e), 601.0 + e;
    var full := Full(lim, now);
    s.(lastCleanup := now, clients := map["a" := 2, "b" := 1], limiters := s.limiters[2 := full], made := 3,
       pending := s.pending[0 := Pending("a", 2, now)])
  }

  lemma Evicted(s: State, lim: Limits, e: Seconds, d: Seconds)
    requires Reachable(s, lim, d) && s == Waiting(lim, e) && 0.0 < e <= 1.0 && e <= d
    requires Refills(lim) && lim.burst >= 1
    ensures Reachable(Remade(lim, e), lim, d)
  {
    assert Sweep(s).clients == map["b" := 1];
    assert map["b" := 1]["a" := 2] == Remade(lim, e).clients;
    Then(s, Lookup(0, "a"), Remade(lim, e), lim, d);
  }

  lemma EvictedAndFull(s: State, lim: Limits, e: Seconds, d: Seconds)
    requires Reachable(s, lim, d) && s == Waiting(lim, e) && 0.0 < e <= 1.0 && e <= d
    requires Refills(lim) && lim.burst >= 1
    ensures Reachable(Replaced(lim, e), lim, d)
    ensures Holds(Replaced(lim, e), "a", (lim.burst - 1) as real, (lim.burst - 1) as real)
  {
    var now := 601.0 + e;
    var held := Remade(lim, e);
    Evicted(s, lim, e, d);
    assert held.pending - {0} == s.pending;
    FullAgain(lim, now);
    RequestNow(Full(lim, now), lim);
    assert held.limiters[2 := AfterRequest(Full(lim, now), lim, now)] == Replaced(lim, e).limiters;
    Then(held, Use(0), Replaced(lim, e), lim, d);
  }
}
