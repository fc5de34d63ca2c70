/** The login limiter: a per-address log of permitted attempts, compacted in place, that lets an attempt
    through if it holds fewer than five of the last minute. LoginRuns.dfy says what that keeps. */
module LoginWindow {
  import opened Sequences

  type Address = string
  /** Seconds on a clock that never runs backwards. */
  type Instant = real

  const WINDOW: Instant := 60.0
  const LIMIT := 5

  function After(cutoff: Instant): Instant -> bool {
    t => t > cutoff
  }

  /** The entries after the cutoff, in order. */
  function Recent(log: seq<Instant>, now: Instant): seq<Instant> {
    Filter(log, After(now - WINDOW))
  }

  predicate Permitted(log: seq<Instant>, now: Instant) {
    |Recent(log, now)| < LIMIT
  }

  function LogAfter(log: seq<Instant>, now: Instant): seq<Instant> {
    Recent(log, now) + if Permitted(log, now) then [now] else []
  }

  /** A growable slice: the first `len` cells of a backing array. */
  class AttemptLog {
    var buf: array<Instant>
    var len: nat

    ghost predicate Valid()
      reads this
    {
      len <= buf.Length
    }

    ghost function Contents(): seq<Instant>
      requires Valid()
      reads this, buf
    {
      buf[..len]
    }

    constructor ()
      ensures Valid() && Contents() == [] && fresh(buf)
    {
      buf, len := new Instant[0], 0;
    }

    /** Compacts the log in place and appends the attempt if it is let through. */
    method Check(now: Instant) returns (permitted: bool)
      requires Valid()
      modifies this, buf
      ensures Valid() && (buf == old(buf) || fresh(buf))
      ensures permitted == Permitted(old(Contents()), now)
      ensures Contents() == LogAfter(old(Contents()), now)
    {
      Compact(now - WINDOW);
      if len >= LIMIT {
        return false;
      }
      Append(now);
      return true;
    }

    /** Moves the entries after the cutoff to the front of the same array. */
    method Compact(cutoff: Instant)
      requires Valid()
      modifies this`len, buf
      ensures Valid() && Contents() == Filter(old(Contents()), After(cutoff))
    {
      ghost var was, cells := Contents(), buf[..];
      var kept := 0;
      for i := 0 to len
        invariant len == |was| && buf[..] == cells && Compacted(cells, was, kept, i, cutoff)
      {
        KeepOne(cells, was, kept, i, cutoff);
        var t := buf[i];
        assert t == cells[i] == was[i];
        if t > cutoff {
          buf[kept] := t;
          cells := cells[kept := t];
          kept := kept + 1;
        }
      }
      AllCompacted(cells, was, kept, cutoff);
      len := kept;
      assert buf[..kept] == cells[..kept];
    }

    method Append(t: Instant)
      requires Valid()
      modifies this, buf
      ensures Valid() && (buf == old(buf) || fresh(buf))
      ensures Contents() == old(Contents()) + [t]
    {
      if len == buf.Length {
        var bigger := new Instant[2 * len + 1];
        for i := 0 to len
          invariant len == old(len) && buf == old(buf) && buf[..] == old(buf[..])
          invariant bigger[..i] == buf[..i]
        {
          bigger[i] := buf[i];
        }
        buf := bigger;
      }
      buf[len] := t;
      len := len + 1;
    }
  }

  /** The first `kept` cells are the filter of the first `i` entries, and the entries after those have not
      been overwritten. */
  ghost predicate Compacted(cells: seq<Instant>, was: seq<Instant>, kept: nat, i: nat, cutoff: Instant) {
    && kept <= i <= |was| <= |cells|
    && cells[..kept] == Filter(was[..i], After(cutoff))
    && cells[i..|was|] == was[i..]
  }

  lemma KeepOne(cells: seq<Instant>, was: seq<Instant>, kept: nat, i: nat, cutoff: Instant)
    requires Compacted(cells, was, kept, i, cutoff) && i < |was|
    ensures cells[i] == was[i]
    ensures if was[i] > cutoff then Compacted(cells[kept := was[i]], was, kept + 1, i + 1, cutoff)
            else Compacted(cells, was, kept, i + 1, cutoff)
  {
    FilterNext(was, i, After(cutoff));
    assert cells[i] == cells[i..|was|][0] == was[i];
    assert cells[i + 1..|was|] == cells[i..|was|][1..] == was[i + 1..];
    if was[i] > cutoff {
      var next := cells[kept := was[i]];
      assert next[..kept + 1] == cells[..kept] + [was[i]];
      assert next[i + 1..|was|] == cells[i + 1..|was|];
    }
  }

  lemma AllCompacted(cells: seq<Instant>, was: seq<Instant>, kept: nat, cutoff: Instant)
    requires Compacted(cells, was, kept, |was|, cutoff)
    ensures cells[..kept] == Filter(was, After(cutoff))
  {
    assert was[..|was|] == was;
  }

  /** One log per address. */
  class LoginAttempts {
    var logs: map<Address, AttemptLog>

    ghost function Buffers(): set<array<Instant>>
      reads this, logs.Values
    {
      set ip | ip in logs :: logs[ip].buf
    }

    ghost predicate Valid()
      reads this, logs.Values
    {
      && (forall a :: a in logs ==> logs[a].Valid())
      && (forall a, b :: a in logs && b in logs && a != b ==> logs[a] != logs[b] && logs[a].buf != logs[b].buf)
    }

    /** The log of one address; an address never seen has an empty one. */
    ghost function Log(ip: Address): seq<Instant>
      requires Valid()
      reads this, logs.Values, Buffers()
    {
      if ip in logs then logs[ip].Contents() else []
    }

    constructor ()
      ensures Valid() && logs == map[]
    {
      logs := map[];
    }

    method LoadOrStore(ip: Address) returns (log: AttemptLog)
      requires Valid()
      modifies this
      ensures Valid() && ip in logs && logs[ip] == log
      ensures if ip in old(logs) then logs == old(logs)
              else fresh(log) && fresh(log.buf) && log.Contents() == [] && logs == old(logs)[ip := log]
    {
      if ip !in logs {
        var empty := new AttemptLog();
        logs := logs[ip := empty];
      }
      log := logs[ip];
    }

    method CheckRateLimit(ip: Address, now: Instant) returns (permitted: bool)
      requires Valid()
      modifies this, logs.Values, Buffers()
      ensures Valid()
      ensures permitted == Permitted(old(Log(ip)), now)
      ensures Log(ip) == LogAfter(old(Log(ip)), now)
      ensures forall a :: a != ip ==> (a in logs <==> a in old(logs)) && (a in logs ==> Log(a) == old(Log(a)))
    {
      var log := LoadOrStore(ip);
      ghost var mid := logs;
      forall a | a in mid && a != ip
        ensures mid[a] != log && mid[a].buf != log.buf && mid[a].Contents() == old(Log(a))
      {
      }
      permitted := log.Check(now);
      forall a | a in mid && a != ip
        ensures mid[a].Valid() && mid[a].buf == old(mid[a].buf) && mid[a].Contents() == old(Log(a))
      {
      }
      forall a, b | a in mid && b in mid && a != b
        ensures mid[a] != mid[b] && mid[a].buf != mid[b].buf
      {
      }
    }
  }
}
