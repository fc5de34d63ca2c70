/** The token bucket, and its exact meaning: a request is allowed precisely when no window of requests
    ending with it would exceed burst + rate * (length of the window). */
module TokenBucket {
  /** Seconds on a clock that never runs backwards. */
  type Seconds = real

  datatype Limits = Limits(rate: real, burst: int)

  datatype Bucket = Bucket(tokens: real, lastUpdate: Seconds)

  function Full(lim: Limits, now: Seconds): Bucket {
    Bucket(lim.burst as real, now)
  }

  function Gain(lim: Limits, elapsed: Seconds): real {
    elapsed * lim.rate
  }

  lemma GainGrows(lim: Limits, less: Seconds, more: Seconds)
    requires lim.rate >= 0.0 && 0.0 <= less <= more
    ensures 0.0 <= Gain(lim, less) <= Gain(lim, more)
  {
  }

  function Refilled(b: Bucket, lim: Limits, now: Seconds): real {
    var tokens := b.tokens + Gain(lim, now - b.lastUpdate);
    if tokens > lim.burst as real then lim.burst as real else tokens
  }

  function AfterRequest(b: Bucket, lim: Limits, now: Seconds): Bucket {
    var tokens := Refilled(b, lim, now);
    Bucket(if tokens >= 1.0 then tokens - 1.0 else tokens, now)
  }

  class RateLimiter {
    const limits: Limits
    var tokens: real
    var lastUpdate: Seconds
    var requests: nat
    var rejected: nat

    function State(): Bucket
      reads this
    {
      Bucket(tokens, lastUpdate)
    }

    constructor (limits: Limits, now: Seconds)
      ensures this.limits == limits && State() == Full(limits, now) && requests == rejected == 0
    {
      this.limits := limits;
      tokens, lastUpdate := limits.burst as real, now;
      requests, rejected := 0, 0;
    }

    method Allow(now: Seconds) returns (allowed: bool)
      modifies this
      ensures allowed <==> Refilled(old(State()), limits, now) >= 1.0
      ensures State() == AfterRequest(old(State()), limits, now)
      ensures requests == old(requests) + 1
      ensures rejected == old(rejected) + if allowed then 0 else 1
    {
      requests := requests + 1;
      var elapsed := now - lastUpdate;
      tokens := tokens + elapsed * limits.rate;
      if tokens > limits.burst as real {
        tokens := limits.burst as real;
      }
      lastUpdate := now;
      assert tokens == Refilled(old(State()), limits, now);
      if tokens >= 1.0 {
        tokens := tokens - 1.0;
        return true;
      }
      rejected := rejected + 1;
      return false;
    }
  }

  // ----- a run of requests against one bucket, full at `start` -----

  ghost predicate Chronological(start: Seconds, times: seq<Seconds>) {
    && (forall i :: 0 <= i < |times| ==> start <= times[i])
    && (forall i, j :: 0 <= i < j < |times| ==> times[i] <= times[j])
  }

  /** The bucket before request `n`. */
  function Before(lim: Limits, start: Seconds, times: seq<Seconds>, n: nat): Bucket
    requires n <= |times|
  {
    if n == 0 then Full(lim, start) else AfterRequest(Before(lim, start, times, n - 1), lim, times[n - 1])
  }

  /** The tokens request `n` finds. */
  function Level(lim: Limits, start: Seconds, times: seq<Seconds>, n: nat): real
    requires n < |times|
  {
    Refilled(Before(lim, start, times, n), lim, times[n])
  }

  predicate Allowed(lim: Limits, start: Seconds, times: seq<Seconds>, n: nat)
    requires n < |times|
  {
    Level(lim, start, times, n) >= 1.0
  }

  /** How many of the requests i, ..., j - 1 are allowed. */
  function Granted(lim: Limits, start: Seconds, times: seq<Seconds>, i: nat, j: nat): nat
    requires i <= j <= |times|
    decreases j
  {
    if i == j then 0
    else Granted(lim, start, times, i, j - 1) + if Allowed(lim, start, times, j - 1) then 1 else 0
  }

  /** What flows into the bucket from request i to request j. */
  function Inflow(lim: Limits, times: seq<Seconds>, i: nat, j: nat): real
    requires i < |times| && j < |times|
  {
    Gain(lim, times[j] - times[i])
  }

  lemma InflowAdds(lim: Limits, times: seq<Seconds>, i: nat, j: nat, k: nat)
    requires i < |times| && j < |times| && k < |times|
    ensures Inflow(lim, times, i, k) == Inflow(lim, times, i, j) + Inflow(lim, times, j, k)
  {
    assert times[k] - times[i] == (times[j] - times[i]) + (times[k] - times[j]);
  }

  /** What the window from request i to request j still has room for, before j. */
  function Room(lim: Limits, start: Seconds, times: seq<Seconds>, i: nat, j: nat): real
    requires i <= j < |times|
  {
    lim.burst as real + Inflow(lim, times, i, j) - Granted(lim, start, times, i, j) as real
  }

  function Spent(allowed: bool): real {
    if allowed then 1.0 else 0.0
  }

  lemma RoomGrows(lim: Limits, start: Seconds, times: seq<Seconds>, i: nat, j: nat)
    requires i <= j < |times| - 1
    ensures Room(lim, start, times, i, j + 1)
         == Room(lim, start, times, i, j) + Inflow(lim, times, j, j + 1) - Spent(Allowed(lim, start, times, j))
  {
    InflowAdds(lim, times, i, j, j + 1);
  }

  lemma LevelGrows(lim: Limits, start: Seconds, times: seq<Seconds>, j: nat)
    requires j < |times| - 1
    ensures var level := Level(lim, start, times, j) + Inflow(lim, times, j, j + 1) - Spent(Allowed(lim, start, times, j));
            Level(lim, start, times, j + 1) == if level > lim.burst as real then lim.burst as real else level
  {
    assert Before(lim, start, times, j + 1) == AfterRequest(Before(lim, start, times, j), lim, times[j]);
  }

  lemma LevelAtFirst(lim: Limits, start: Seconds, times: seq<Seconds>)
    requires lim.rate >= 0.0 && Chronological(start, times) && times != []
    ensures Level(lim, start, times, 0) == lim.burst as real == Room(lim, start, times, 0, 0)
  {
    assert (times[0] - start) * lim.rate >= 0.0;
    assert Inflow(lim, times, 0, 0) == 0.0;
  }

  /** The bucket's level is the least room of any window ending now. */
  lemma {:induction false} LevelIsLeastRoom(lim: Limits, start: Seconds, times: seq<Seconds>, j: nat) returns (tightest: nat)
    requires lim.rate >= 0.0 && Chronological(start, times) && j < |times|
    ensures forall i: nat :: i <= j ==> Level(lim, start, times, j) <= Room(lim, start, times, i, j)
    ensures tightest <= j && Level(lim, start, times, j) == Room(lim, start, times, tightest, j)
  {
    if j == 0 {
      LevelAtFirst(lim, start, times);
      tightest := 0;
    } else {
      tightest := LevelIsLeastRoom(lim, start, times, j - 1);
      LevelGrows(lim, start, times, j - 1);
      RoomGrows(lim, start, times, tightest, j - 1);
      assert Inflow(lim, times, j, j) == 0.0;
      forall i: nat | i <= j
        ensures Level(lim, start, times, j) <= Room(lim, start, times, i, j)
      {
        if i < j {
          RoomGrows(lim, start, times, i, j - 1);
        }
      }
      if Level(lim, start, times, j) == lim.burst as real {
        tightest := j;
      }
    }
  }

  /** The declarative reading of the limiter, in both directions. */
  lemma AllowedIffEveryWindowHasRoom(lim: Limits, start: Seconds, times: seq<Seconds>, j: nat)
    requires lim.rate >= 0.0 && Chronological(start, times) && j < |times|
    ensures Allowed(lim, start, times, j) <==>
              forall i: nat :: i <= j ==>
                Granted(lim, start, times, i, j) as real + 1.0 <= lim.burst as real + Inflow(lim, times, i, j)
  {
    var tightest := LevelIsLeastRoom(lim, start, times, j);
    if Allowed(lim, start, times, j) {
      forall i: nat | i <= j
        ensures Granted(lim, start, times, i, j) as real + 1.0 <= lim.burst as real + Inflow(lim, times, i, j)
      {
        assert Level(lim, start, times, j) <= Room(lim, start, times, i, j);
      }
    } else {
      assert Room(lim, start, times, tightest, j) < 1.0;
    }
  }

  lemma InflowIsMonotone(lim: Limits, start: Seconds, times: seq<Seconds>, i: nat, j: nat, k: nat)
    requires lim.rate >= 0.0 && Chronological(start, times) && i <= j <= k < |times|
    ensures 0.0 <= Inflow(lim, times, i, j) <= Inflow(lim, times, i, k)
  {
    InflowAdds(lim, times, i, j, k);
    assert times[i] <= times[j] <= times[k];
    assert (times[j] - times[i]) * lim.rate >= 0.0;
    assert (times[k] - times[j]) * lim.rate >= 0.0;
  }

  /** No window of consecutive requests is granted more than the burst plus what flowed in meanwhile. */
  lemma {:induction false} WindowBound(lim: Limits, start: Seconds, times: seq<Seconds>, i: nat, j: nat)
    requires lim.rate >= 0.0 && lim.burst >= 0 && Chronological(start, times) && i <= j < |times|
    ensures Granted(lim, start, times, i, j + 1) as real <= lim.burst as real + Inflow(lim, times, i, j)
    decreases j
  {
    if Allowed(lim, start, times, j) {
      AllowedIffEveryWindowHasRoom(lim, start, times, j);
    } else if i == j {
      InflowIsMonotone(lim, start, times, i, i, i);
      assert Granted(lim, start, times, i, i) == 0;
    } else {
      WindowBound(lim, start, times, i, j - 1);
      InflowIsMonotone(lim, start, times, i, j - 1, j);
      assert Granted(lim, start, times, i, j + 1) == Granted(lim, start, times, i, j);
    }
  }

  lemma {:induction false} LevelStaysInRange(lim: Limits, start: Seconds, times: seq<Seconds>, n: nat)
    requires lim.rate >= 0.0 && lim.burst >= 0 && Chronological(start, times) && n <= |times|
    ensures 0.0 <= Before(lim, start, times, n).tokens <= lim.burst as real
    ensures Before(lim, start, times, n).lastUpdate == if n == 0 then start else times[n - 1]
  {
    if n > 0 {
      LevelStaysInRange(lim, start, times, n - 1);
      RequestStaysInRange(Before(lim, start, times, n - 1), lim, times[n - 1]);
    }
  }

  lemma RequestStaysInRange(b: Bucket, lim: Limits, now: Seconds)
    requires lim.rate >= 0.0 && 0.0 <= b.tokens <= lim.burst as real && b.lastUpdate <= now
    ensures 0.0 <= AfterRequest(b, lim, now).tokens <= lim.burst as real
  {
    GainGrows(lim, 0.0, now - b.lastUpdate);
  }

  ghost predicate Spaced(lim: Limits, times: seq<Seconds>) {
    forall i :: 0 < i < |times| ==> Gain(lim, times[i] - times[i - 1]) >= 1.0
  }

  /** A caller that waits 1/rate between requests is never turned away. */
  lemma {:induction false} SpacedCallerIsNeverRejected(lim: Limits, start: Seconds, times: seq<Seconds>, n: nat)
    requires lim.rate >= 0.0 && lim.burst >= 1 && Chronological(start, times) && Spaced(lim, times) && n < |times|
    ensures Allowed(lim, start, times, n)
  {
    LevelStaysInRange(lim, start, times, n);
    if n == 0 {
      LevelAtFirst(lim, start, times);
    } else {
      assert times[n] - Before(lim, start, times, n).lastUpdate == times[n] - times[n - 1];
    }
  }
}
