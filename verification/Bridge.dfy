/** The daemon side: removals arrive by event stream and by heartbeat answer, pass one dedup cache,
    and are fanned out to the daemon's modules. */
module Bridge {
  import opened ProjectTable
  import opened DedupCache
  import opened Sequences
  import Protocol = RemovalProtocol
  import Consistency = SyncConsistency

  datatype StreamEvent = RemovedEvent(project: ProjectId) | OtherEvent

  class Bridge {
    const dedup: Lru<ProjectId>
    /** The ids OnProjectRemoved was called with, in order. */
    var fired: seq<ProjectId>
    ghost var marked: seq<ProjectId>

    ghost predicate Valid()
      reads this, dedup
    {
      dedup.Valid() && dedup.order == CacheAfter(marked, dedup.capacity)
    }

    constructor ()
      ensures Valid() && fresh(dedup) && dedup.capacity == 256 && fired == [] && marked == []
    {
      dedup := new Lru(DEDUP_CAPACITY);
      fired, marked := [], [];
    }

    ghost function History(): Deliveries
      reads this
    {
      Deliveries(marked, fired)
    }

    /** Guard, dedup and fan-out, as both delivery paths do it. */
    method Arrive(id: ProjectId)
      requires Valid()
      modifies this, dedup
      ensures Valid()
      ensures History() == Delivered(old(History()), id, dedup.capacity)
    {
      if id == "" {
        return;
      }
      var seen := dedup.Mark(id);
      assert (marked + [id])[..|marked|] == marked;
      marked := marked + [id];
      if !seen {
        fired := fired + [id];
      }
    }

    method HandleEvent(ev: StreamEvent)
      requires Valid()
      modifies this, dedup
      ensures Valid()
      ensures ev.OtherEvent? ==> fired == old(fired) && marked == old(marked)
      ensures ev.RemovedEvent? ==> History() == Delivered(old(History()), ev.project, dedup.capacity)
    {
      if ev.RemovedEvent? {
        Arrive(ev.project);
      }
    }

    /** The removed list of a heartbeat answer. */
    method ApplyRemoved(removed: seq<ProjectId>)
      requires Valid()
      modifies this, dedup
      ensures Valid()
      ensures fired == old(fired) + FiredBy(old(marked), removed, dedup.capacity)
      ensures marked == old(marked) + Named(removed)
    {
      for i := 0 to |removed|
        invariant Valid() && History() == DeliveredAll(old(History()), removed[..i], dedup.capacity)
      {
        assert removed[..i + 1][..i] == removed[..i];
        Arrive(removed[i]);
      }
      assert removed[..|removed|] == removed;
      DeliveredAllIs(old(History()), removed, dedup.capacity);
    }
  }

  // ----- what is asked of the cache and what is fanned out -----

  datatype Deliveries = Deliveries(marked: seq<ProjectId>, fired: seq<ProjectId>)

  function Delivered(d: Deliveries, id: ProjectId, capacity: nat): Deliveries {
    Deliveries(d.marked + (if id == "" then [] else [id]), d.fired + FiredByOne(d.marked, id, capacity))
  }

  function DeliveredAll(d: Deliveries, ids: seq<ProjectId>, capacity: nat): Deliveries {
    if ids == [] then d else Delivered(DeliveredAll(d, ids[..|ids| - 1], capacity), ids[|ids| - 1], capacity)
  }

  lemma {:induction false} DeliveredAllIs(d: Deliveries, ids: seq<ProjectId>, capacity: nat)
    ensures DeliveredAll(d, ids, capacity) == Deliveries(d.marked + Named(ids), d.fired + FiredBy(d.marked, ids, capacity))
  {
    if ids == [] {
      assert d.marked + [] == d.marked && d.fired + [] == d.fired;
    } else {
      var front, last := ids[..|ids| - 1], ids[|ids| - 1];
      DeliveredAllIs(d, front, capacity);
      Regroup(d.marked, Named(front), if last == "" then [] else [last]);
      Regroup(d.fired, FiredBy(d.marked, front, capacity), FiredByOne(d.marked + Named(front), last, capacity));
    }
  }

  lemma Regroup(a: seq<ProjectId>, b: seq<ProjectId>, c: seq<ProjectId>)
    ensures (a + b) + c == a + (b + c)
  {
  }

  function IsNamed(): ProjectId -> bool {
    id => id != ""
  }

  /** The ids that reach the cache. */
  function Named(ids: seq<ProjectId>): seq<ProjectId> {
    Filter(ids, IsNamed())
  }

  /** What one id does when the cache has been asked about `marked` before. */
  function FiredByOne(marked: seq<ProjectId>, id: ProjectId, capacity: nat): seq<ProjectId> {
    if id == "" || id in CacheAfter(marked, capacity) then [] else [id]
  }

  /** What is fanned out when `ids` arrive after the cache has been asked about `marked`. */
  function FiredBy(marked: seq<ProjectId>, ids: seq<ProjectId>, capacity: nat): seq<ProjectId> {
    if ids == [] then [] else
      var front, last := ids[..|ids| - 1], ids[|ids| - 1];
      FiredBy(marked, front, capacity) + FiredByOne(marked + Named(front), last, capacity)
  }

  lemma OneMore(marked: seq<ProjectId>, ids: seq<ProjectId>, id: ProjectId, capacity: nat)
    ensures Named(ids + [id]) == Named(ids) + if id == "" then [] else [id]
    ensures FiredBy(marked, ids + [id], capacity) == FiredBy(marked, ids, capacity) + FiredByOne(marked + Named(ids), id, capacity)
  {
    assert (ids + [id])[..|ids|] == ids;
  }

  lemma OnlyMarkedAreCached(marked: seq<ProjectId>, id: ProjectId, capacity: nat)
    ensures id in CacheAfter(marked, capacity) ==> id in marked
  {
    CacheIsHeadOfRecency(marked, capacity);
    RecencyIsDistinct(marked);
  }

  /** At least once: whatever arrives was already asked about, or is fanned out now. */
  lemma {:induction false} ArrivalsAreFired(marked: seq<ProjectId>, ids: seq<ProjectId>, capacity: nat, id: ProjectId)
    requires id in ids && id != ""
    ensures id in marked || id in FiredBy(marked, ids, capacity)
  {
    var front, last := ids[..|ids| - 1], ids[|ids| - 1];
    assert ids == front + [last];
    FilterMembers(front, IsNamed());
    if id in front {
      ArrivalsAreFired(marked, front, capacity, id);
    } else {
      OnlyMarkedAreCached(marked + Named(front), id, capacity);
    }
  }

  ghost predicate CachesAll(marked: seq<ProjectId>, capacity: nat) {
    forall id :: id in CacheAfter(marked, capacity) <==> id in marked
  }

  lemma FewKeysAreAllCached(marked: seq<ProjectId>, capacity: nat)
    requires |Elements(marked)| <= Bound(capacity)
    ensures CachesAll(marked, capacity)
  {
    CacheIsHeadOfRecency(marked, capacity);
    RecencyIsDistinct(marked);
    DistinctSize(Recency(marked));
    assert Elements(Recency(marked)) == Elements(marked);
  }

  /** Exactly once: while no more different ids arrive than the cache holds, none is fanned out twice. */
  lemma {:induction false} FewKeysFireOnce(marked: seq<ProjectId>, ids: seq<ProjectId>, capacity: nat)
    requires |Elements(marked + Named(ids))| <= Bound(capacity)
    ensures Distinct(FiredBy(marked, ids, capacity))
    ensures forall id :: id in FiredBy(marked, ids, capacity) <==> id in ids && id != "" && id !in marked
  {
    if ids != [] {
      var front, last := ids[..|ids| - 1], ids[|ids| - 1];
      assert ids == front + [last];
      FilterMembers(front, IsNamed());
      FilterMembers(ids, IsNamed());
      SubsetSize(Elements(marked + Named(front)), Elements(marked + Named(ids)));
      FewKeysFireOnce(marked, front, capacity);
      FewKeysAreAllCached(marked + Named(front), capacity);
    }
  }

  /** A project removed, registered again and removed again: the second removal is fanned out exactly
      when at least `capacity` other ids were seen in between. */
  lemma SecondRemovalFires(before: seq<ProjectId>, id: ProjectId, since: seq<ProjectId>, capacity: nat)
    requires id != "" && id !in since
    ensures FiredByOne(before + [id] + since, id, capacity) == if |Elements(since)| < Bound(capacity) then [] else [id]
  {
    RememberedIffRecent(before, id, since, capacity);
  }

  /** A daemon that keeps tracking the same removed projects reports them on every heartbeat. Up to
      the cache's capacity the repeated answer fans out nothing; past it, everything, every time. */
  lemma RepeatedAnswer(before: seq<ProjectId>, removed: seq<ProjectId>, capacity: nat)
    requires Distinct(removed) && "" !in removed
    ensures FiredBy(before + removed, removed, capacity) == if |removed| <= Bound(capacity) then [] else removed
  {
    RepeatedFrom(before, removed, [], capacity);
    assert removed + [] == removed;
  }

  /** The keys of a list without repetitions, one of them left out. */
  lemma OthersOf(done: seq<ProjectId>, id: ProjectId, rest: seq<ProjectId>)
    requires Distinct(done + [id] + rest)
    ensures id !in rest + done
    ensures |Elements(rest + done)| == |done + [id] + rest| - 1
  {
    var all := done + [id] + rest;
    assert all[|done|] == id;
    assert forall i :: 0 <= i < |done| ==> all[i] == done[i];
    assert forall i :: 0 <= i < |rest| ==> all[|done| + 1 + i] == rest[i];
    DistinctSize(all);
    assert Elements(rest + done) == Elements(all) - {id};
  }

  /** In the second round, an id meets a cache that has seen every other id since its first round. */
  lemma SecondRound(before: seq<ProjectId>, done: seq<ProjectId>, id: ProjectId, rest: seq<ProjectId>, capacity: nat)
    requires Distinct(done + [id] + rest) && id != ""
    ensures FiredByOne(before + (done + [id] + rest) + done, id, capacity)
         == if |done + [id] + rest| <= Bound(capacity) then [] else [id]
  {
    OthersOf(done, id, rest);
    assert before + (done + [id] + rest) + done == before + done + [id] + (rest + done);
    SecondRemovalFires(before + done, id, rest + done, capacity);
  }

  lemma {:induction false} RepeatedFrom(before: seq<ProjectId>, done: seq<ProjectId>, rest: seq<ProjectId>, capacity: nat)
    requires Distinct(done + rest) && "" !in done + rest
    ensures Named(done) == done
    ensures FiredBy(before + (done + rest), done, capacity) == if |done + rest| <= Bound(capacity) then [] else done
    decreases |done|
  {
    if done != [] {
      var front, id := done[..|done| - 1], done[|done| - 1];
      assert done == front + [id];
      assert front + ([id] + rest) == done + rest && front + [id] + rest == done + rest;
      RepeatedFrom(before, front, [id] + rest, capacity);
      assert id in done + rest;
      RepeatedStep(before, front, id, rest, capacity);
    }
  }

  lemma RepeatedStep(before: seq<ProjectId>, done: seq<ProjectId>, id: ProjectId, rest: seq<ProjectId>, capacity: nat)
    requires Distinct(done + [id] + rest) && id != "" && Named(done) == done
    ensures var removed := done + [id] + rest;
            && Named(done + [id]) == done + [id]
            && FiredBy(before + removed, done + [id], capacity)
            == FiredBy(before + removed, done, capacity) + if |removed| <= Bound(capacity) then [] else [id]
  {
    SecondRound(before, done, id, rest, capacity);
    OneMore(before + (done + [id] + rest), done, id, capacity);
  }

  // ----- which ids an answer fans out -----

  lemma {:induction false} FiredByConcat(marked: seq<ProjectId>, a: seq<ProjectId>, b: seq<ProjectId>, capacity: nat)
    ensures FiredBy(marked, a + b, capacity) == FiredBy(marked, a, capacity) + FiredBy(marked + Named(a), b, capacity)
  {
    if b == [] {
      assert a + b == a;
    } else {
      var front, last := b[..|b| - 1], b[|b| - 1];
      assert b == front + [last] && a + b == (a + front) + [last];
      FiredByConcat(marked, a, front, capacity);
      OneMore(marked, a + front, last, capacity);
      FilterConcat(a, front, IsNamed());
      Regroup(marked, Named(a), Named(front));
      Regroup(FiredBy(marked, a, capacity), FiredBy(marked + Named(a), front, capacity),
              FiredByOne(marked + Named(a + front), last, capacity));
      OneMore(marked + Named(a), front, last, capacity);
    }
  }

  lemma {:induction false} FiredHaveArrived(marked: seq<ProjectId>, ids: seq<ProjectId>, capacity: nat, id: ProjectId)
    requires id in FiredBy(marked, ids, capacity)
    ensures id in ids
  {
    var front, last := ids[..|ids| - 1], ids[|ids| - 1];
    assert ids == front + [last];
    if id in FiredBy(marked, front, capacity) {
      FiredHaveArrived(marked, front, capacity, id);
    }
  }

  /** What the cache has been asked about since it was last asked about this id. */
  function SinceLast(marked: seq<ProjectId>, id: ProjectId): seq<ProjectId> {
    if marked == [] || marked[|marked| - 1] == id then []
    else SinceLast(marked[..|marked| - 1], id) + [marked[|marked| - 1]]
  }

  lemma {:induction false} CutAtLast(marked: seq<ProjectId>, id: ProjectId) returns (older: seq<ProjectId>)
    requires id in marked
    ensures marked == older + [id] + SinceLast(marked, id) && id !in SinceLast(marked, id)
  {
    var front, last := marked[..|marked| - 1], marked[|marked| - 1];
    assert marked == front + [last];
    if last == id {
      older := front;
    } else {
      older := CutAtLast(front, id);
    }
  }

  /** The ids of an answer ahead of this one. */
  function Ahead(ids: seq<ProjectId>, id: ProjectId): seq<ProjectId>
    requires id in ids
  {
    ids[..IndexOf(ids, id)]
  }

  /** The cache was asked about this id before, and since then, counting those ahead of it in the answer,
      about fewer different ids than it holds. */
  ghost predicate StillRemembered(marked: seq<ProjectId>, ids: seq<ProjectId>, id: ProjectId, capacity: nat)
    requires id in ids
  {
    id in marked && |Elements(SinceLast(marked, id) + Named(Ahead(ids, id)))| < Bound(capacity)
  }

  lemma FiredByOneIff(marked: seq<ProjectId>, ahead: seq<ProjectId>, id: ProjectId, capacity: nat)
    requires id != "" && id !in ahead
    ensures FiredByOne(marked + Named(ahead), id, capacity) ==
            if id in marked && |Elements(SinceLast(marked, id) + Named(ahead))| < Bound(capacity) then [] else [id]
  {
    assert id !in Named(ahead) by { FilterMembers(ahead, IsNamed()); }
    if id in marked {
      var older := CutAtLast(marked, id);
      var since := SinceLast(marked, id) + Named(ahead);
      SecondRemovalFires(older, id, since, capacity);
      assert marked + Named(ahead) == older + [id] + since by {
        Regroup(older + [id], SinceLast(marked, id), Named(ahead));
      }
    } else {
      OnlyMarkedAreCached(marked + Named(ahead), id, capacity);
    }
  }

  /** Exactly the ids of an answer that the cache does not still remember are fanned out. */
  lemma FiredIff(marked: seq<ProjectId>, ids: seq<ProjectId>, id: ProjectId, capacity: nat)
    requires Distinct(ids) && id in ids && id != ""
    ensures id in FiredBy(marked, ids, capacity) <==> !StillRemembered(marked, ids, id, capacity)
  {
    var n := IndexOf(ids, id);
    var ahead, rest := ids[..n], ids[n + 1..];
    assert ids == ahead + [id] + rest;
    assert id !in rest;
    FiredByConcat(marked, ahead + [id], rest, capacity);
    OneMore(marked, ahead, id, capacity);
    FiredByOneIff(marked, ahead, id, capacity);
    if id in FiredBy(marked, ahead, capacity) {
      FiredHaveArrived(marked, ahead, capacity, id);
    }
    if id in FiredBy(marked + Named(ahead + [id]), rest, capacity) {
      FiredHaveArrived(marked + Named(ahead + [id]), rest, capacity, id);
    }
  }

  // ----- which of any arrivals are fanned out -----

  /** The arrival at this place is fanned out. */
  ghost predicate FiredAt(marked: seq<ProjectId>, ids: seq<ProjectId>, n: nat, capacity: nat) {
    n < |ids| && FiredByOne(marked + Named(ids[..n]), ids[n], capacity) == [ids[n]]
  }

  /** The cache was asked about this id, and since then about fewer different ids than it holds. */
  ghost predicate Remembers(marked: seq<ProjectId>, id: ProjectId, capacity: nat) {
    id in marked && |Elements(SinceLast(marked, id))| < Bound(capacity)
  }

  lemma FiredAtIff(marked: seq<ProjectId>, ids: seq<ProjectId>, n: nat, capacity: nat)
    requires n < |ids| && ids[n] != ""
    ensures FiredAt(marked, ids, n, capacity) <==> !Remembers(marked + Named(ids[..n]), ids[n], capacity)
  {
    var before := marked + Named(ids[..n]);
    FiredByOneIff(before, [], ids[n], capacity);
    assert before + Named([]) == before && SinceLast(before, ids[n]) + Named([]) == SinceLast(before, ids[n]);
  }

  lemma FiredAtSnoc(marked: seq<ProjectId>, front: seq<ProjectId>, last: ProjectId, n: nat, capacity: nat)
    ensures FiredAt(marked, front + [last], n, capacity) <==>
              if n < |front| then FiredAt(marked, front, n, capacity)
              else n == |front| && FiredByOne(marked + Named(front), last, capacity) == [last]
  {
    if n <= |front| {
      assert (front + [last])[..n] == front[..n] && front[..|front|] == front;
    }
  }

  /** This id is fanned out at some place. */
  ghost predicate FiredSomewhere(marked: seq<ProjectId>, ids: seq<ProjectId>, id: ProjectId, capacity: nat) {
    exists n: nat :: n < |ids| && ids[n] == id && FiredAt(marked, ids, n, capacity)
  }

  lemma {:induction false} FiredByIsFiredSomewhere(marked: seq<ProjectId>, ids: seq<ProjectId>, id: ProjectId, capacity: nat)
    ensures id in FiredBy(marked, ids, capacity) <==> FiredSomewhere(marked, ids, id, capacity)
  {
    if ids != [] {
      var front, last := ids[..|ids| - 1], ids[|ids| - 1];
      assert ids == front + [last];
      FiredByIsFiredSomewhere(marked, front, id, capacity);
      SomewhereSnoc(marked, front, last, id, capacity);
    }
  }

  lemma SomewhereSnoc(marked: seq<ProjectId>, front: seq<ProjectId>, last: ProjectId, id: ProjectId, capacity: nat)
    ensures FiredSomewhere(marked, front + [last], id, capacity) <==>
              FiredSomewhere(marked, front, id, capacity) || id in FiredByOne(marked + Named(front), last, capacity)
  {
    var ids := front + [last];
    if FiredSomewhere(marked, ids, id, capacity) {
      var n: nat :| n < |ids| && ids[n] == id && FiredAt(marked, ids, n, capacity);
      FiredAtSnoc(marked, front, last, n, capacity);
      assert n < |front| ==> front[n] == id;
    }
    if FiredSomewhere(marked, front, id, capacity) {
      var n: nat :| n < |front| && front[n] == id && FiredAt(marked, front, n, capacity);
      FiredAtSnoc(marked, front, last, n, capacity);
      assert ids[n] == id;
    }
    FiredAtSnoc(marked, front, last, |front|, capacity);
    assert ids[|front|] == last;
  }

  // ----- lost events do not matter -----

  /** The stream and the heartbeat share the cache, so an answer's ids arrive in order but with others from
      the stream in between. */
  datatype Arrival = ByStream(id: ProjectId) | ByAnswer(id: ProjectId)

  function Ids(arrivals: seq<Arrival>): seq<ProjectId> {
    seq(|arrivals|, i requires 0 <= i < |arrivals| => arrivals[i].id)
  }

  function AnswerPart(arrivals: seq<Arrival>): seq<ProjectId> {
    if arrivals == [] then [] else
      AnswerPart(arrivals[..|arrivals| - 1]) +
      match arrivals[|arrivals| - 1] { case ByAnswer(id) => [id] case ByStream(_) => [] }
  }

  lemma {:induction false} AnswerPartIs(arrivals: seq<Arrival>, id: ProjectId)
    ensures id in AnswerPart(arrivals) <==> ByAnswer(id) in arrivals
  {
    if arrivals != [] {
      assert arrivals == arrivals[..|arrivals| - 1] + [arrivals[|arrivals| - 1]];
      AnswerPartIs(arrivals[..|arrivals| - 1], id);
    }
  }

  /** What `arrivals` does with a reported id, whether or not it is live. */
  ghost predicate Converges(arrivals: seq<Arrival>, marked: seq<ProjectId>, capacity: nat, id: ProjectId, live: bool) {
    && (ByAnswer(id) in arrivals <==> !live)
    && (!live ==> id in marked || id in FiredBy(marked, Ids(arrivals), capacity))
    && (id in FiredBy(marked, Ids(arrivals), capacity) <==>
          exists n: nat :: n < |arrivals| && arrivals[n].id == id && !Remembers(marked + Named(Ids(arrivals)[..n]), id, capacity))
  }

  lemma ArrivalsConverge(arrivals: seq<Arrival>, marked: seq<ProjectId>, capacity: nat, id: ProjectId, live: bool)
    requires id != "" && (id in AnswerPart(arrivals) <==> !live)
    ensures Converges(arrivals, marked, capacity, id, live)
  {
    var ids := Ids(arrivals);
    AnswerPartIs(arrivals, id);
    FiredByIsFiredSomewhere(marked, ids, id, capacity);
    forall n: nat | n < |ids| && ids[n] == id
      ensures FiredAt(marked, ids, n, capacity) <==> !Remembers(marked + Named(ids[..n]), id, capacity)
    {
      FiredAtIff(marked, ids, n, capacity);
    }
    if !live {
      var n :| 0 <= n < |arrivals| && arrivals[n] == ByAnswer(id);
      assert ids[n] == id;
      ArrivalsAreFired(marked, ids, capacity, id);
    }
  }

  /** Whatever the streams dropped or bring between two ids of an answer: a reported id comes with the answer
      exactly if it was not live at that sync's read; it has then been fanned out at some time, and it is now
      exactly if the cache does not remember it when it arrives. With nothing in between, and no id reported
      twice, those fanned out are the ones not remembered, counting the ids ahead in the answer. One that was
      live at the read, and that no delete was about since, is live now. */
  lemma OneSyncConverges(start: Time, before: seq<Protocol.Step>, call: Protocol.CallId, after: seq<Protocol.Step>,
                         arrivals: seq<Arrival>, marked: seq<ProjectId>, capacity: nat, id: ProjectId)
    ensures var atRead := Protocol.Exec(Protocol.Init(start), before);
            var s1 := Protocol.Next(atRead, Protocol.ReadRows(call));
            var now := Protocol.Exec(s1, after);
            call in atRead.syncs && atRead.syncs[call].phase.Begun? ==>
              && call in now.syncs
              && var c := now.syncs[call];
              c.phase.Answered? && id in c.reported && id != "" ==>
                && (id in c.removed <==> !Live(atRead.table, id))
                && (AnswerPart(arrivals) == c.removed ==> Converges(arrivals, marked, capacity, id, Live(atRead.table, id)))
                && (Distinct(c.reported) ==>
                      (id in FiredBy(marked, c.removed, capacity) <==>
                         id in c.removed && !StillRemembered(marked, c.removed, id, capacity)))
                && (Live(atRead.table, id) && Consistency.NeverDeleted(s1, after, id) ==> Live(now.table, id))
  {
    var s := Protocol.Exec(Protocol.Init(start), before);
    var s1 := Protocol.Next(s, Protocol.ReadRows(call));
    if call in s.syncs && s.syncs[call].phase.Begun? {
      Consistency.SeenStays(s1, after, call);
      var c := Protocol.Exec(s1, after).syncs[call];
      FilterMembers(c.reported, NotLive(s.table));
      if AnswerPart(arrivals) == c.removed && id in c.reported && id != "" {
        ArrivalsConverge(arrivals, marked, capacity, id, Live(s.table, id));
      }
      if Distinct(c.reported) && id != "" {
        AnswerAlone(c.reported, s.table, marked, id, capacity);
      }
      if Consistency.NeverDeleted(s1, after, id) {
        Consistency.NoDeleteNoRemoval(s1, after, id);
      }
    }
  }

  lemma AnswerAlone(reported: seq<ProjectId>, t: Table, marked: seq<ProjectId>, id: ProjectId, capacity: nat)
    requires Distinct(reported) && id != ""
    ensures var removed := Filter(reported, NotLive(t));
            id in FiredBy(marked, removed, capacity) <==> id in removed && !StillRemembered(marked, removed, id, capacity)
  {
    var removed := Filter(reported, NotLive(t));
    FilterKeepsDistinct(reported, NotLive(t));
    if id in removed {
      FiredIff(marked, removed, id, capacity);
    } else if id in FiredBy(marked, removed, capacity) {
      FiredHaveArrived(marked, removed, capacity, id);
    }
  }
}
