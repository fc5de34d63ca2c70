/** How far a client's answers can be from those of a bucket of its own: by no more than the number of its
    uses of a limiter that was swept between the look-up and the use. In every run, however long requests
    wait; and exactly if an idle bucket is full again by the time it may be evicted. */
module StaleUses {
  import opened TokenBucket
  import opened ClientBuckets
  import opened SplitRequests

  /** One client's grants, the grants its own bucket would have given, and its stale uses. */
  datatype Tally = Tally(granted: int, own: int, stale: int)

  const NOTHING := Tally(0, 0, 0)

  function Grant(level: real): int {
    if level >= 1.0 then 1 else 0
  }

  /** The limiter is the client's in the map. */
  predicate Current(s: State, c: Client, l: LimiterId) {
    c in s.clients && s.clients[c] == l
  }

  predicate Uses(s: State, step: Step, c: Client) {
    step.Use? && Ready(s, step.call) && s.pending[step.call].client == c
  }

  function Counted(s: State, lim: Limits, step: Step, c: Client, t: Tally): Tally {
    if Uses(s, step, c) then
      var l := s.pending[step.call].limiter;
      Tally(t.granted + Grant(Refilled(s.limiters[l], lim, s.clock)),
            t.own + Grant(Refilled(s.own[c], lim, s.clock)),
            t.stale + if Current(s, c, l) then 0 else 1)
    else t
  }

  function TallyFrom(s: State, lim: Limits, steps: seq<Step>, c: Client, t: Tally): Tally
    decreases |steps|
  {
    if steps == [] then t else TallyFrom(Next(s, lim, steps[0]), lim, steps[1..], c, Counted(s, lim, steps[0], c, t))
  }

  function Gap(a: int, b: int): int {
    if a < b then b - a else a - b
  }

  predicate WithinStale(t: Tally) {
    Gap(t.granted, t.own) <= t.stale
  }

  // ----- what the map's limiter and the own bucket hold -----

  /** What a request of this client would find now; a limiter still to be made is full. */
  function Shared(s: State, lim: Limits, c: Client): real {
    if c in s.clients && s.clients[c] in s.limiters then Refilled(s.limiters[s.clients[c]], lim, s.clock) else lim.burst as real
  }

  function Private(s: State, lim: Limits, c: Client): real {
    if c in s.own then Refilled(s.own[c], lim, s.clock) else lim.burst as real
  }

  function Size(x: real): real {
    if x < 0.0 then -x else x
  }

  /** The answers so far are within the stale uses, and stay so while both buckets serve their tokens. */
  ghost predicate Near(t: Tally, shared: real, own: real) {
    WithinStale(t) && Size((t.granted - t.own) as real + shared - own) <= t.stale as real
  }

  function Capped(level: real, gain: real, burst: real): real {
    if level + gain > burst then burst else level + gain
  }

  lemma RefillNear(t: Tally, shared: real, own: real, gain: real, burst: real)
    requires Near(t, shared, own) && shared <= burst && own <= burst && gain >= 0.0
    ensures Near(t, Capped(shared, gain, burst), Capped(own, gain, burst))
  {
  }

  function Less(level: real): real {
    level - Grant(level) as real
  }

  /** A use of the map's limiter. */
  lemma UseNear(t: Tally, shared: real, own: real)
    requires Near(t, shared, own)
    ensures Near(Tally(t.granted + Grant(shared), t.own + Grant(own), t.stale), Less(shared), Less(own))
  {
  }

  /** A use of another limiter. */
  lemma StaleNear(t: Tally, shared: real, own: real, found: real)
    requires Near(t, shared, own)
    ensures Near(Tally(t.granted + Grant(found), t.own + Grant(own), t.stale + 1), shared, Less(own))
  {
  }

  lemma RefilledLater(b: Bucket, lim: Limits, now: Seconds, elapsed: Seconds)
    requires lim.rate >= 0.0 && elapsed >= 0.0
    ensures Refilled(b, lim, now + elapsed) == Capped(Refilled(b, lim, now), Gain(lim, elapsed), lim.burst as real)
    ensures Gain(lim, elapsed) >= 0.0
  {
    assert now + elapsed - b.lastUpdate == (now - b.lastUpdate) + elapsed;
    assert Gain(lim, (now - b.lastUpdate) + elapsed) == Gain(lim, now - b.lastUpdate) + Gain(lim, elapsed);
    GainGrows(lim, 0.0, elapsed);
  }

  lemma RefilledAfter(b: Bucket, lim: Limits, now: Seconds)
    ensures Refilled(AfterRequest(b, lim, now), lim, now) == Less(Refilled(b, lim, now))
  {
    assert Gain(lim, now - now) == 0.0;
  }

  // ----- every step -----

  /** Limiters in the map are used by their own clients only. */
  ghost predicate Owned(s: State, lim: Limits) {
    && Kept(s)
    && (forall c :: c in s.clients ==> Sound(s.limiters[s.clients[c]], lim, s.clock))
    && (forall k :: k in s.pending ==> s.pending[k].limiter < s.made)
    && (forall k, c :: k in s.pending && c in s.clients && s.clients[c] == s.pending[k].limiter ==> s.pending[k].client == c)
  }

  lemma OwnedAfterTick(s: State, lim: Limits, elapsed: Seconds)
    requires lim.rate >= 0.0 && Owned(s, lim) && elapsed >= 0.0
    ensures Owned(s.(clock := s.clock + elapsed), lim)
  {
  }

  lemma OwnedAfterSweep(s: State, lim: Limits, own: map<Client, Bucket>)
    requires Owned(s, lim) && s.own.Keys <= own.Keys
    ensures Owned(Sweep(s).(own := own), lim)
  {
  }

  lemma OwnedAfterFind(s: State, lim: Limits, c: Client)
    requires lim.rate >= 0.0 && Owned(s, lim) && c in s.own
    ensures Owned(FindOrMake(s, lim, c), lim) && c in FindOrMake(s, lim, c).clients
  {
    FullIsSound(lim, s.clock);
  }

  /** The request then holds what is its client's own limiter. */
  lemma OwnedWithHolder(s: State, lim: Limits, k: CallId, c: Client)
    requires Owned(s, lim) && c in s.clients
    ensures Owned(s.(pending := s.pending[k := Pending(c, s.clients[c], s.clock)]), lim)
  {
  }

  function WithOwn(s: State, lim: Limits, c: Client): State {
    Sweep(s).(own := if c in s.own then s.own else s.own[c := Full(lim, s.clock)])
  }

  lemma LookupParts(s: State, lim: Limits, k: CallId, c: Client)
    ensures var found := FindOrMake(WithOwn(s, lim, c), lim, c);
            DoLookup(s, lim, k, c) == found.(pending := found.pending[k := Pending(c, found.clients[c], found.clock)])
  {
  }

  lemma OwnedAfterLookup(s: State, lim: Limits, k: CallId, c: Client)
    requires lim.rate >= 0.0 && Owned(s, lim) && k !in s.pending
    ensures Owned(DoLookup(s, lim, k, c), lim)
  {
    OwnedAfterSweep(s, lim, WithOwn(s, lim, c).own);
    OwnedAfterFind(WithOwn(s, lim, c), lim, c);
    OwnedWithHolder(FindOrMake(WithOwn(s, lim, c), lim, c), lim, k, c);
    LookupParts(s, lim, k, c);
  }

  lemma OwnedAfterUse(s: State, lim: Limits, k: CallId)
    requires lim.rate >= 0.0 && Owned(s, lim) && Ready(s, k)
    ensures Owned(DoUse(s, lim, k), lim)
  {
    var s' := DoUse(s, lim, k);
    forall c | c in s'.clients
      ensures Sound(s'.limiters[s'.clients[c]], lim, s'.clock)
    {
      LaterIsFuller(s.limiters[s.clients[c]], lim, s.clock, s.clock);
    }
  }

  lemma NearAfterTick(s: State, lim: Limits, elapsed: Seconds, c: Client, t: Tally)
    requires lim.rate >= 0.0 && elapsed >= 0.0 && Near(t, Shared(s, lim, c), Private(s, lim, c))
    ensures var s' := s.(clock := s.clock + elapsed); Near(t, Shared(s', lim, c), Private(s', lim, c))
  {
    var gain, burst := Gain(lim, elapsed), lim.burst as real;
    GainGrows(lim, 0.0, elapsed);
    if c in s.clients && s.clients[c] in s.limiters {
      RefilledLater(s.limiters[s.clients[c]], lim, s.clock, elapsed);
    }
    if c in s.own {
      RefilledLater(s.own[c], lim, s.clock, elapsed);
    }
    RefillNear(t, Shared(s, lim, c), Private(s, lim, c), gain, burst);
  }

  /** A look-up, with its sweep, changes neither level: what it evicts is full, and so is what it makes. */
  lemma LookupKeepsLevels(s: State, lim: Limits, k: CallId, c: Client, e: Client)
    requires Refills(lim) && Owned(s, lim) && k !in s.pending
    ensures Shared(DoLookup(s, lim, k, e), lim, c) == Shared(s, lim, c)
    ensures Private(DoLookup(s, lim, k, e), lim, c) == Private(s, lim, c)
  {
    FullStaysFull(lim, s.clock, s.clock);
    if c in s.clients {
      LaterIsFuller(s.limiters[s.clients[c]], lim, s.clock, s.clock);
    }
  }

  lemma NearAfterUse(s: State, lim: Limits, k: CallId, c: Client, t: Tally)
    requires Owned(s, lim) && Ready(s, k) && Near(t, Shared(s, lim, c), Private(s, lim, c))
    ensures var s' := DoUse(s, lim, k);
            Near(Counted(s, lim, Use(k), c, t), Shared(s', lim, c), Private(s', lim, c))
  {
    var p := s.pending[k];
    if p.client == c {
      var found := s.limiters[p.limiter];
      RefilledAfter(found, lim, s.clock);
      RefilledAfter(s.own[c], lim, s.clock);
      if Current(s, c, p.limiter) {
        UseNear(t, Shared(s, lim, c), Private(s, lim, c));
      } else {
        StaleNear(t, Shared(s, lim, c), Private(s, lim, c), Refilled(found, lim, s.clock));
      }
    }
  }

  lemma NearStep(s: State, lim: Limits, step: Step, c: Client, t: Tally)
    requires Refills(lim) && Owned(s, lim) && Near(t, Shared(s, lim, c), Private(s, lim, c))
    ensures var s' := Next(s, lim, step);
            Owned(s', lim) && Near(Counted(s, lim, step, c, t), Shared(s', lim, c), Private(s', lim, c))
  {
    match step
    case Tick(elapsed) =>
      if elapsed >= 0.0 {
        OwnedAfterTick(s, lim, elapsed);
        NearAfterTick(s, lim, elapsed, c, t);
      }
    case Lookup(k, e) =>
      if k !in s.pending {
        OwnedAfterLookup(s, lim, k, e);
        LookupKeepsLevels(s, lim, k, c, e);
      }
    case Use(k) =>
      if Ready(s, k) {
        OwnedAfterUse(s, lim, k);
        NearAfterUse(s, lim, k, c, t);
      }
  }

  lemma {:induction false} NearHoldsFrom(s: State, lim: Limits, steps: seq<Step>, c: Client, t: Tally)
    requires Refills(lim) && Owned(s, lim) && Near(t, Shared(s, lim, c), Private(s, lim, c))
    ensures WithinStale(TallyFrom(s, lim, steps, c, t))
    decreases |steps|
  {
    if steps != [] {
      NearStep(s, lim, steps[0], c, t);
      NearHoldsFrom(Next(s, lim, steps[0]), lim, steps[1..], c, Counted(s, lim, steps[0], c, t));
    }
  }

  // ----- the exact condition -----

  ghost predicate AlwaysWithinStale(lim: Limits) {
    forall now, steps, c :: WithinStale(TallyFrom(Init(now), lim, steps, c, NOTHING))
  }

  /** Over all runs, a client is granted at most as many requests more, and at most as many fewer, than its own
      bucket would grant as it used swept limiters: exactly if an idle bucket is full again by the time it
      may be evicted. */
  lemma WithinStaleIff(lim: Limits)
    requires lim.rate >= 0.0
    ensures AlwaysWithinStale(lim) <==> lim.burst as real <= 600.0 * lim.rate
  {
    if Refills(lim) {
      forall now, steps, c
        ensures WithinStale(TallyFrom(Init(now), lim, steps, c, NOTHING))
      {
        NearHoldsFrom(Init(now), lim, steps, c, NOTHING);
      }
    } else {
      SlowRefill(lim, 0.0);
      ToldExceeds(lim);
    }
  }

  // ----- requests that use their limiter at once are never stale -----

  ghost predicate AllCurrent(s: State) {
    forall k :: k in s.pending ==> HoldsCurrent(s, k)
  }

  lemma CurrentStep(s: State, lim: Limits, step: Step)
    requires AllCurrent(s) && Prompt(s, 0.0)
    ensures AllCurrent(Next(s, lim, step))
  {
    forall k | k in Next(s, lim, step).pending
      ensures HoldsCurrent(Next(s, lim, step), k)
    {
      assert k in s.pending ==> HoldsCurrent(s, k);
    }
  }

  lemma {:induction false} NoneStale(s: State, lim: Limits, steps: seq<Step>, c: Client, t: Tally)
    requires AllCurrent(s) && PromptRun(s, lim, steps, 0.0)
    ensures TallyFrom(s, lim, steps, c, t).stale == t.stale
    ensures AllCurrent(Exec(s, lim, steps)) && Prompt(Exec(s, lim, steps), 0.0)
    decreases |steps|
  {
    if steps != [] {
      CurrentStep(s, lim, steps[0]);
      if Uses(s, steps[0], c) {
        assert HoldsCurrent(s, steps[0].call);
      }
      NoneStale(Next(s, lim, steps[0]), lim, steps[1..], c, Counted(s, lim, steps[0], c, t));
    }
  }

  lemma {:induction false} TallySnoc(s: State, lim: Limits, steps: seq<Step>, step: Step, c: Client, t: Tally)
    ensures TallyFrom(s, lim, steps + [step], c, t) == Counted(Exec(s, lim, steps), lim, step, c, TallyFrom(s, lim, steps, c, t))
    decreases |steps|
  {
    var longer := steps + [step];
    if steps == [] {
      assert longer[0] == step && longer[1..] == [];
    } else {
      assert longer[0] == steps[0] && longer[1..] == steps[1..] + [step];
      TallySnoc(Next(s, lim, steps[0]), lim, steps[1..], step, c, Counted(s, lim, steps[0], c, t));
    }
  }

  /** An answer that differs where no use was stale. */
  lemma ToldExceeds(lim: Limits)
    requires CanBeTold(lim, 0.0)
    ensures !AlwaysWithinStale(lim)
  {
    var s, k :| Reachable(s, lim, 0.0) && Observable(s, lim, k);
    var steps :| Leads(steps, s, lim, 0.0);
    var c := s.pending[k].client;
    NoneStale(Init(0.0), lim, steps, c, NOTHING);
    assert HoldsCurrent(s, k);
    TallySnoc(Init(0.0), lim, steps, Use(k), c, NOTHING);
    assert !WithinStale(TallyFrom(Init(0.0), lim, steps, c, NOTHING))
        || !WithinStale(TallyFrom(Init(0.0), lim, steps + [Use(k)], c, NOTHING));
  }
}
