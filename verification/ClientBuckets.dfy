/** One token bucket per client, with idle buckets evicted; and exactly when nobody can tell. */
module ClientBuckets {
  import opened Wrappers
  import opened TokenBucket

  type Client = string

  const CLEANUP_INTERVAL: Seconds := 300.0
  const MAX_IDLE: Seconds := 600.0

  /** One Allow call and the clock readings it takes, in the order it takes them. */
  datatype Call = Call(client: Client, check: Seconds, sweep: Seconds, create: Seconds, use: Seconds)

  datatype Table = Table(buckets: map<Client, Bucket>, lastCleanup: Seconds)

  predicate Idle(b: Bucket, now: Seconds) {
    now - b.lastUpdate > MAX_IDLE
  }

  function WithoutIdle(t: Table, now: Seconds): Table {
    Table(map c | c in t.buckets && !Idle(t.buckets[c], now) :: t.buckets[c], now)
  }

  function Swept(t: Table, call: Call): Table {
    if call.check - t.lastCleanup > CLEANUP_INTERVAL then WithoutIdle(t, call.sweep) else t
  }

  /** A bucket is evicted exactly if the last cleanup was more than five minutes ago and its own last use more
      than ten. */
  lemma EvictedIff(t: Table, call: Call, c: Client)
    requires c in t.buckets
    ensures if c in Swept(t, call).buckets then Swept(t, call).buckets[c] == t.buckets[c]
            else call.check - t.lastCleanup > 300.0 && call.sweep - t.buckets[c].lastUpdate > 600.0
    ensures call.check - t.lastCleanup > 300.0 && call.sweep - t.buckets[c].lastUpdate > 600.0 ==> c !in Swept(t, call).buckets
  {
  }

  function BucketFor(t: Table, lim: Limits, call: Call): Bucket {
    if call.client in t.buckets then t.buckets[call.client] else Full(lim, call.create)
  }

  function Found(t: Table, lim: Limits, call: Call): map<Client, Bucket> {
    t.buckets[call.client := BucketFor(t, lim, call)]
  }

  predicate Answer(t: Table, lim: Limits, call: Call) {
    Refilled(BucketFor(Swept(t, call), lim, call), lim, call.use) >= 1.0
  }

  function Served(t: Table, lim: Limits, call: Call): Table {
    var t1 := Swept(t, call);
    t1.(buckets := t1.buckets[call.client := AfterRequest(BucketFor(t1, lim, call), lim, call.use)])
  }

  class PerClientRateLimiter {
    const limits: Limits
    var clients: map<Client, RateLimiter>
    var lastCleanup: Seconds

    ghost predicate Valid()
      reads this, clients.Values
    {
      && (forall c :: c in clients ==> clients[c].limits == limits)
      && (forall c, d :: c in clients && d in clients && c != d ==> clients[c] != clients[d])
    }

    ghost function View(): Table
      reads this, clients.Values
    {
      Table(map c | c in clients :: clients[c].State(), lastCleanup)
    }

    constructor (limits: Limits, now: Seconds)
      ensures Valid() && this.limits == limits && clients == map[] && lastCleanup == now
    {
      this.limits := limits;
      clients, lastCleanup := map[], now;
    }

    method CleanupLocked(now: Seconds)
      requires Valid()
      modifies this
      ensures Valid() && lastCleanup == now
      ensures clients == map c | c in old(clients) && !Idle(old(clients[c].State()), now) :: old(clients)[c]
      ensures View() == WithoutIdle(old(View()), now)
    {
      var unread, keysToDelete := clients.Keys, {};
      while unread != {}
        invariant clients == old(clients) && unread <= clients.Keys
        invariant forall c :: c in keysToDelete <==> c in clients && c !in unread && Idle(clients[c].State(), now)
        decreases unread
      {
        var key :| key in unread;
        unread := unread - {key};
        if now - clients[key].lastUpdate > MAX_IDLE {
          keysToDelete := keysToDelete + {key};
        }
      }
      clients := clients - keysToDelete;
      lastCleanup := now;
    }

    method GetLimiter(call: Call) returns (limiter: RateLimiter)
      requires Valid()
      modifies this
      ensures Valid() && call.client in clients && clients[call.client] == limiter
      ensures forall c :: c in clients ==> (c in old(clients) && clients[c] == old(clients)[c]) || (c == call.client && fresh(limiter))
      ensures View() == Swept(old(View()), call).(buckets := Found(Swept(old(View()), call), limits, call))
    {
      if call.check - lastCleanup > CLEANUP_INTERVAL {
        CleanupLocked(call.sweep);
      }
      limiter := FindOrCreate(call);
    }

    method FindOrCreate(call: Call) returns (limiter: RateLimiter)
      requires Valid()
      modifies this`clients
      ensures Valid() && call.client in clients && clients[call.client] == limiter
      ensures if call.client in old(clients) then clients == old(clients)
              else fresh(limiter) && clients == old(clients)[call.client := limiter]
      ensures View() == old(View()).(buckets := Found(old(View()), limits, call))
    {
      if call.client in clients {
        limiter := clients[call.client];
        assert View().buckets[call.client] == limiter.State();
      } else {
        limiter := new RateLimiter(limits, call.create);
        clients := clients[call.client := limiter];
      }
    }

    method Allow(call: Call) returns (allowed: bool)
      requires Valid()
      modifies this, clients.Values
      ensures Valid()
      ensures forall c :: c in clients ==> (c in old(clients) && clients[c] == old(clients)[c]) || fresh(clients[c])
      ensures allowed == Answer(old(View()), limits, call)
      ensures View() == Served(old(View()), limits, call)
    {
      var limiter := GetLimiter(call);
      ghost var found := View().buckets;
      allowed := limiter.Allow(call.use);
      forall c | c in clients && c != call.client
        ensures clients[c] != limiter && clients[c].State() == found[c]
      {
      }
      assert View().buckets == found[call.client := AfterRequest(found[call.client], limits, call.use)];
    }
  }

  // ----- whole runs -----

  function Start(now: Seconds): Table {
    Table(map[], now)
  }

  function After(lim: Limits, start: Seconds, calls: seq<Call>): Table {
    if calls == [] then Start(start)
    else Served(After(lim, start, calls[..|calls| - 1]), lim, calls[|calls| - 1])
  }

  /** The clock readings of a run never go back. */
  ghost predicate Ordered(start: Seconds, calls: seq<Call>) {
    && (forall i :: 0 <= i < |calls| ==> start <= calls[i].check <= calls[i].sweep <= calls[i].create <= calls[i].use)
    && (forall i, j :: 0 <= i < j < |calls| ==> calls[i].use <= calls[j].check)
  }

  /** A client's own bucket: made at its first call, never evicted, touched by nobody else. */
  function OwnBucket(lim: Limits, calls: seq<Call>, c: Client): Option<Bucket> {
    if calls == [] then None else
      var front, last := calls[..|calls| - 1], calls[|calls| - 1];
      if last.client != c then OwnBucket(lim, front, c)
      else Some(AfterRequest(OwnOrFull(lim, front, last), lim, last.use))
  }

  function OwnOrFull(lim: Limits, calls: seq<Call>, call: Call): Bucket {
    var own := OwnBucket(lim, calls, call.client);
    if own.Some? then own.value else Full(lim, call.create)
  }

  predicate OwnAnswer(lim: Limits, calls: seq<Call>, call: Call) {
    Refilled(OwnOrFull(lim, calls, call), lim, call.use) >= 1.0
  }

  /** `b` holds at least an empty bucket, and was last used by `now`. */
  predicate Sound(b: Bucket, lim: Limits, now: Seconds) {
    && b.lastUpdate <= now
    && b.tokens >= (if lim.burst < 0 then lim.burst as real else 0.0)
  }

  predicate FullBy(b: Bucket, lim: Limits, now: Seconds) {
    b.tokens + Gain(lim, now - b.lastUpdate) >= lim.burst as real
  }

  /** The table agrees with a client's own bucket, or has dropped one that is full again. */
  ghost predicate Agrees(t: Table, lim: Limits, calls: seq<Call>, c: Client, now: Seconds) {
    var own := OwnBucket(lim, calls, c);
    if c in t.buckets then own == Some(t.buckets[c]) && Sound(own.value, lim, now)
    else own.Some? ==> Sound(own.value, lim, now) && FullBy(own.value, lim, now)
  }

  lemma LaterIsFuller(b: Bucket, lim: Limits, now: Seconds, later: Seconds)
    requires lim.rate >= 0.0 && Sound(b, lim, now) && now <= later
    ensures Sound(b, lim, later)
    ensures FullBy(b, lim, now) ==> FullBy(b, lim, later)
    ensures FullBy(b, lim, later) ==> Refilled(b, lim, later) == lim.burst as real
    ensures lim.burst as real <= Gain(lim, MAX_IDLE) && Idle(b, later) ==> FullBy(b, lim, later)
    ensures Sound(AfterRequest(b, lim, later), lim, later)
  {
    GainGrows(lim, now - b.lastUpdate, later - b.lastUpdate);
    if Idle(b, later) {
      GainGrows(lim, MAX_IDLE, later - b.lastUpdate);
    }
  }

  lemma FullStaysFull(lim: Limits, create: Seconds, use: Seconds)
    requires lim.rate >= 0.0 && create <= use
    ensures Refilled(Full(lim, create), lim, use) == lim.burst as real
    ensures Sound(AfterRequest(Full(lim, create), lim, use), lim, use)
  {
    GainGrows(lim, 0.0, use - create);
  }

  /** One call keeps the table and every client's own bucket in agreement, and gives the same answer. */
  lemma AgreementStep(t: Table, lim: Limits, calls: seq<Call>, call: Call, now: Seconds, c: Client)
    requires lim.rate >= 0.0 && lim.burst as real <= Gain(lim, MAX_IDLE)
    requires now <= call.check <= call.sweep <= call.create <= call.use
    requires Agrees(t, lim, calls, c, now)
    ensures Agrees(Served(t, lim, call), lim, calls + [call], c, call.use)
    ensures c == call.client ==> Answer(t, lim, call) == OwnAnswer(lim, calls, call)
  {
    assert (calls + [call])[..|calls|] == calls;
    var own := OwnBucket(lim, calls, c);
    if own.Some? {
      LaterIsFuller(own.value, lim, now, call.sweep);
      LaterIsFuller(own.value, lim, call.sweep, call.use);
    }
    FullStaysFull(lim, call.create, call.use);
  }

  lemma {:induction false} AgreesAfter(lim: Limits, start: Seconds, calls: seq<Call>, c: Client)
    requires lim.rate >= 0.0 && lim.burst as real <= Gain(lim, MAX_IDLE) && Ordered(start, calls)
    ensures Agrees(After(lim, start, calls), lim, calls, c, if calls == [] then start else calls[|calls| - 1].use)
  {
    if calls != [] {
      var front, last := calls[..|calls| - 1], calls[|calls| - 1];
      assert calls == front + [last];
      AgreesAfter(lim, start, front, c);
      AgreementStep(After(lim, start, front), lim, front, last, if front == [] then start else front[|front| - 1].use, c);
    }
  }

  /** If an idle bucket is full again by the time it may be evicted, every call of every run is
      answered from the caller's own history alone: eviction cannot be observed, and no client's
      calls change another client's answers. */
  lemma EvictionIsUnobservable(lim: Limits, start: Seconds, calls: seq<Call>, call: Call)
    requires lim.rate >= 0.0 && lim.burst as real <= Gain(lim, MAX_IDLE)
    requires Ordered(start, calls + [call])
    ensures Answer(After(lim, start, calls), lim, call) == OwnAnswer(lim, calls, call)
  {
    var all := calls + [call];
    assert forall i :: 0 <= i < |calls| ==> all[i] == calls[i];
    assert all[|calls|] == call;
    AgreesAfter(lim, start, calls, call.client);
    AgreementStep(After(lim, start, calls), lim, calls, call,
                  if calls == [] then start else calls[|calls| - 1].use, call.client);
  }

  // ----- the condition is needed -----

  function CallAt(at: Seconds): Call {
    Call("a", at, at, at, at)
  }

  /** As many calls as the burst allows at time 0, and then `k` more at time `at`. */
  function TwoBursts(n: nat, at: Seconds, k: nat): seq<Call> {
    seq(n, _ => CallAt(0.0)) + seq(k, _ => CallAt(at))
  }

  lemma TwoBurstsOrdered(n: nat, at: Seconds, k: nat)
    requires at >= 0.0
    ensures Ordered(0.0, TwoBursts(n, at, k) + [CallAt(at)])
  {
  }

  lemma OneMoreCall(n: nat, at: Seconds, k: nat)
    ensures TwoBursts(n, at, k + 1) == TwoBursts(n, at, k) + [CallAt(at)]
    ensures TwoBursts(n + 1, at, 0) == TwoBursts(n, at, 0) + [CallAt(0.0)]
  {
  }

  /** An instant past the idle limit by which the bucket has not filled up again. */
  function TooEarly(lim: Limits): Seconds
    requires lim.rate >= 0.0
  {
    if lim.rate == 0.0 then MAX_IDLE + 1.0 else (MAX_IDLE + lim.burst as real / lim.rate) / 2.0
  }

  lemma TooEarlyIs(lim: Limits)
    requires lim.rate >= 0.0 && lim.burst as real > Gain(lim, MAX_IDLE)
    ensures lim.burst >= 1 && TooEarly(lim) > MAX_IDLE && Gain(lim, TooEarly(lim)) < lim.burst as real
  {
    if lim.rate > 0.0 {
      var fill := lim.burst as real / lim.rate;
      assert fill * lim.rate == lim.burst as real;
      if fill <= MAX_IDLE {
        GainGrows(lim, fill, MAX_IDLE);
      }
      assert Gain(lim, TooEarly(lim)) == (Gain(lim, MAX_IDLE) + fill * lim.rate) / 2.0;
    }
  }

  /** The table after an eviction (or a start) at `at` and `k` calls granted since. */
  function Regranted(lim: Limits, at: Seconds, k: nat): Table {
    Table(if k == 0 then map[] else map["a" := Bucket((lim.burst - k) as real, at)], at)
  }

  lemma RegrantStep(lim: Limits, at: Seconds, k: nat)
    requires k < lim.burst
    ensures Refilled(BucketFor(Regranted(lim, at, k), lim, CallAt(at)), lim, at) == (lim.burst - k) as real
    ensures Swept(Regranted(lim, at, k), CallAt(at)) == Regranted(lim, at, k)
    ensures Served(Regranted(lim, at, k), lim, CallAt(at)) == Regranted(lim, at, k + 1)
  {
    assert Gain(lim, at - at) == 0.0;
  }

  /** The first burst empties the bucket in the table. */
  lemma {:induction false} FirstBurst(lim: Limits, at: Seconds, n: nat)
    requires n <= lim.burst
    ensures After(lim, 0.0, TwoBursts(n, at, 0)) == Regranted(lim, 0.0, n)
  {
    if n > 0 {
      FirstBurst(lim, at, n - 1);
      OneMoreCall(n - 1, at, 0);
      var front := TwoBursts(n - 1, at, 0);
      assert (front + [CallAt(0.0)])[..|front|] == front;
      RegrantStep(lim, 0.0, n - 1);
    }
  }

  /** And in the client's own view. */
  lemma {:induction false} FirstBurstAlone(lim: Limits, at: Seconds, n: nat)
    requires n <= lim.burst
    ensures OwnBucket(lim, TwoBursts(n, at, 0), "a") == if n == 0 then None else Some(Bucket((lim.burst - n) as real, 0.0))
  {
    if n > 0 {
      FirstBurstAlone(lim, at, n - 1);
      OneMoreCall(n - 1, at, 0);
      var front := TwoBursts(n - 1, at, 0);
      assert (front + [CallAt(0.0)])[..|front|] == front;
      assert Gain(lim, 0.0) == 0.0;
    }
  }

  /** The first call of the second burst evicts the bucket, and the burst is granted again. */
  lemma {:induction false} SecondBurstInTable(lim: Limits, at: Seconds, k: nat)
    requires at > MAX_IDLE && lim.burst >= 1 && k < lim.burst
    ensures Swept(After(lim, 0.0, TwoBursts(lim.burst, at, k)), CallAt(at)) == Regranted(lim, at, k)
  {
    if k == 0 {
      FirstBurst(lim, at, lim.burst);
      assert Idle(Regranted(lim, 0.0, lim.burst).buckets["a"], at);
    } else {
      SecondBurstInTable(lim, at, k - 1);
      OneMoreCall(lim.burst, at, k - 1);
      var front := TwoBursts(lim.burst, at, k - 1);
      assert (front + [CallAt(at)])[..|front|] == front;
      RegrantStep(lim, at, k - 1);
      RegrantStep(lim, at, k);
    }
  }

  /** The client's own bucket stays short of what the table grants. */
  lemma {:induction false} SecondBurstAlone(lim: Limits, at: Seconds, k: nat)
    requires lim.rate >= 0.0 && at > MAX_IDLE && Gain(lim, at) < lim.burst as real && k < lim.burst
    ensures var own := OwnBucket(lim, TwoBursts(lim.burst, at, k), "a");
            && own.Some? && Refilled(own.value, lim, at) < (lim.burst - k) as real
            && (k > 0 ==> own.value.lastUpdate == at)
  {
    assert Gain(lim, at - at) == 0.0;
    if k == 0 {
      FirstBurstAlone(lim, at, lim.burst);
      assert at - 0.0 == at;
    } else {
      SecondBurstAlone(lim, at, k - 1);
      OneMoreCall(lim.burst, at, k - 1);
      var front := TwoBursts(lim.burst, at, k - 1);
      assert (front + [CallAt(at)])[..|front|] == front;
    }
  }

  /** With a longer refill than the idle limit, some run gets an answer no own bucket would give. */
  lemma SlowRefillIsObservable(lim: Limits)
    requires lim.rate >= 0.0 && lim.burst as real > Gain(lim, MAX_IDLE)
    ensures exists calls, call :: Ordered(0.0, calls + [call]) && Answer(After(lim, 0.0, calls), lim, call) && !OwnAnswer(lim, calls, call)
  {
    var at, k := TooEarly(lim), lim.burst - 1;
    TooEarlyIs(lim);
    var calls, call := TwoBursts(lim.burst, at, k), CallAt(at);
    TwoBurstsOrdered(lim.burst, at, k);
    assert Answer(After(lim, 0.0, calls), lim, call) by {
      SecondBurstInTable(lim, at, k);
      RegrantStep(lim, at, k);
    }
    SecondBurstAlone(lim, at, k);
  }

  ghost predicate Unobservable(lim: Limits) {
    forall start, calls, call :: Ordered(start, calls + [call]) ==>
      Answer(After(lim, start, calls), lim, call) == OwnAnswer(lim, calls, call)
  }

  /** Exactly when eviction cannot be observed. */
  lemma UnobservableIff(lim: Limits)
    requires lim.rate >= 0.0
    ensures Unobservable(lim) <==> lim.burst as real <= 600.0 * lim.rate
  {
    if lim.burst as real <= Gain(lim, MAX_IDLE) {
      forall start, calls, call | Ordered(start, calls + [call])
        ensures Answer(After(lim, start, calls), lim, call) == OwnAnswer(lim, calls, call)
      {
        EvictionIsUnobservable(lim, start, calls, call);
      }
    } else {
      SlowRefillIsObservable(lim);
    }
  }
}
