/** The in-memory log: a ring buffer that is the tail of an unbounded log, with lossy subscribers. */
module LogRing {
  import opened Text
  import opened Sequences

  const DEFAULT_CAPACITY := 10_000
  const CHANNEL_BUFFER := 64

  datatype LogEntry = LogEntry(timestamp: int, level: string, message: string, raw: string)

  type ChannelId = nat

  // ----- filtering -----

  const LEVEL_PRIORITY: map<string, int> :=
    map["trace" := 0, "debug" := 1, "info" := 2, "warn" := 3, "error" := 4, "fatal" := 5, "panic" := 6]

  /** Unknown levels pass. */
  predicate LevelAtLeast(entryLevel: string, minLevel: string) {
    entryLevel in LEVEL_PRIORITY && minLevel in LEVEL_PRIORITY ==> LEVEL_PRIORITY[entryLevel] >= LEVEL_PRIORITY[minLevel]
  }

  predicate EntryMatchesQuery(e: LogEntry, query: string) {
    var q := ToLower(query);
    Contains(ToLower(e.message), q) || Contains(ToLower(e.raw), q)
  }

  /** What a reader with these two optional filters gets to see. */
  predicate Shown(e: LogEntry, minLevel: string, query: string) {
    && (minLevel != "" ==> LevelAtLeast(e.level, minLevel))
    && (query != "" ==> EntryMatchesQuery(e, query))
  }

  function Showing(minLevel: string, query: string): LogEntry -> bool {
    e => Shown(e, minLevel, query)
  }

  /** The two tests, as both readers make them. */
  method Passes(e: LogEntry, minLevel: string, query: string) returns (shown: bool)
    ensures shown == Showing(minLevel, query)(e)
  {
    if minLevel != "" && !LevelAtLeast(e.level, minLevel) {
      return false;
    }
    if query != "" && !EntryMatchesQuery(e, query) {
      return false;
    }
    return true;
  }

  function ShownOf(entries: seq<LogEntry>, minLevel: string, query: string): seq<LogEntry> {
    Filter(entries, Showing(minLevel, query))
  }

  /** Asking for a higher level shows, of what a lower level shows, what the higher level shows of
      everything; the query may be applied at either time. */
  lemma FiltersCompose(entries: seq<LogEntry>, lower: string, higher: string, query: string)
    requires lower in LEVEL_PRIORITY && higher in LEVEL_PRIORITY && LEVEL_PRIORITY[lower] <= LEVEL_PRIORITY[higher]
    ensures ShownOf(ShownOf(entries, lower, ""), higher, query) == ShownOf(entries, higher, query)
    ensures ShownOf(ShownOf(entries, lower, query), higher, "") == ShownOf(entries, higher, query)
  {
    forall e
      ensures Showing(higher, query)(e) ==> Showing(lower, query)(e) && Showing(lower, "")(e)
      ensures Showing(lower, query)(e) ==> (Showing(higher, "")(e) <==> Showing(higher, query)(e))
    {
    }
    FilterTwice(entries, Showing(lower, ""), Showing(higher, query));
    FilterTwice(entries, Showing(lower, query), Showing(higher, query));
    FilterMembers(entries, Showing(lower, query));
    FilterSame(ShownOf(entries, lower, query), Showing(higher, ""), Showing(higher, query));
  }

  /** The case of a query does not matter. */
  lemma QueryIgnoresCase(entries: seq<LogEntry>, minLevel: string, query: string, other: string)
    requires ToLower(query) == ToLower(other)
    ensures ShownOf(entries, minLevel, query) == ShownOf(entries, minLevel, other)
  {
    assert |ToLower(query)| == |query| && |ToLower(other)| == |other|;
    FilterSame(entries, Showing(minLevel, query), Showing(minLevel, other));
  }

  function Tail(entries: seq<LogEntry>, n: int): seq<LogEntry> {
    if n <= 0 || n > |entries| then entries else entries[|entries| - n..]
  }

  // ----- the hub: the whole log, and the subscriptions to it -----

  /** `since`, `picked` and `missed` are history: the log's length at subscription, and the places in
      the log of the entries that went into the channel and of those that did not fit. */
  datatype Channel = Channel(
    buffer: seq<LogEntry>, closed: bool, taken: nat, since: nat, picked: seq<nat>, missed: seq<nat>)

  datatype Hub = Hub(log: seq<LogEntry>, subscribers: seq<ChannelId>, channels: map<ChannelId, Channel>)

  function Offer(c: Channel, e: LogEntry, place: nat): Channel {
    if |c.buffer| < CHANNEL_BUFFER then c.(buffer := c.buffer + [e], picked := c.picked + [place])
    else c.(missed := c.missed + [place])
  }

  function Written(h: Hub, e: LogEntry): Hub {
    Hub(h.log + [e], h.subscribers,
        map k | k in h.channels :: if k in h.subscribers then Offer(h.channels[k], e, |h.log|) else h.channels[k])
  }

  function Subscribed(h: Hub, k: ChannelId): Hub {
    h.(subscribers := h.subscribers + [k], channels := h.channels[k := Channel([], false, 0, |h.log|, [], [])])
  }

  function Unsubscribed(h: Hub, k: ChannelId): Hub {
    if k in h.subscribers && k in h.channels then
      h.(subscribers := Without(h.subscribers, k), channels := h.channels[k := h.channels[k].(closed := true)])
    else h
  }

  function Taken(c: Channel): Channel
    requires c.buffer != []
  {
    c.(buffer := c.buffer[1..], taken := c.taken + 1)
  }

  function Received(h: Hub, k: ChannelId): Hub {
    if k in h.channels && h.channels[k].buffer != [] then h.(channels := h.channels[k := Taken(h.channels[k])]) else h
  }

  // ----- what every run keeps -----

  ghost predicate Increasing(s: seq<nat>) {
    forall i, j :: 0 <= i < j < |s| ==> s[i] < s[j]
  }

  /** Every place since the subscription was picked, in order, or missed, not both. */
  ghost predicate PlacesOk(c: Channel, end: nat, subscribed: bool) {
    && c.since <= end
    && Increasing(c.picked)
    && (forall i :: 0 <= i < |c.picked| ==> c.since <= c.picked[i] < end)
    && (forall p :: p in c.missed ==> c.since <= p < end)
    && (forall p :: p in c.picked ==> p !in c.missed)
    && (subscribed ==> forall p: nat :: c.since <= p < end ==> p in c.picked || p in c.missed)
  }

  /** Consumed and buffered entries are those of the log at `picked`. */
  ghost predicate BufferOk(c: Channel, log: seq<LogEntry>) {
    && c.taken + |c.buffer| == |c.picked|
    && |c.buffer| <= CHANNEL_BUFFER
    && (forall i :: 0 <= i < |c.picked| ==> c.picked[i] < |log|)
    && (forall i :: 0 <= i < |c.buffer| ==> c.buffer[i] == log[c.picked[c.taken + i]])
  }

  ghost predicate ChannelOk(c: Channel, log: seq<LogEntry>, subscribed: bool) {
    PlacesOk(c, |log|, subscribed) && BufferOk(c, log)
  }

  ghost predicate ChannelInv(h: Hub, k: ChannelId)
    requires k in h.channels
  {
    ChannelOk(h.channels[k], h.log, k in h.subscribers)
  }

  /** The subscribers are the open channels, each once. */
  ghost predicate SubscribersOpen(h: Hub) {
    && Distinct(h.subscribers)
    && (forall k :: k in h.subscribers <==> k in h.channels && !h.channels[k].closed)
  }

  ghost predicate HubInv(h: Hub) {
    && SubscribersOpen(h)
    && (forall k :: k in h.channels ==> ChannelInv(h, k))
  }

  lemma OfferKeepsPlaces(c: Channel, e: LogEntry, end: nat)
    requires PlacesOk(c, end, true)
    ensures PlacesOk(Offer(c, e, end), end + 1, true)
  {
    var c' := Offer(c, e, end);
    assert end !in c.picked && end !in c.missed;
    if |c.buffer| < CHANNEL_BUFFER {
      assert forall p :: p in c'.picked <==> p in c.picked || p == end;
    } else {
      assert forall p :: p in c'.missed <==> p in c.missed || p == end;
    }
  }

  lemma OfferKeepsBuffer(c: Channel, log: seq<LogEntry>, e: LogEntry)
    requires BufferOk(c, log)
    ensures BufferOk(Offer(c, e, |log|), log + [e]) && BufferOk(c, log + [e])
  {
  }

  lemma WriteKeepsHub(h: Hub, e: LogEntry)
    requires HubInv(h)
    ensures HubInv(Written(h, e))
  {
    forall k | k in h.channels
      ensures ChannelInv(Written(h, e), k)
    {
      assert ChannelInv(h, k);
      OfferKeepsBuffer(h.channels[k], h.log, e);
      if k in h.subscribers {
        OfferKeepsPlaces(h.channels[k], e, |h.log|);
      }
    }
  }

  lemma SubscribeKeepsHub(h: Hub, k: ChannelId)
    requires HubInv(h) && k !in h.channels
    ensures HubInv(Subscribed(h, k))
  {
    var h' := Subscribed(h, k);
    forall x | x in h'.channels
      ensures ChannelInv(h', x)
    {
      assert x != k ==> ChannelInv(h, x);
    }
  }

  lemma UnsubscribeKeepsHub(h: Hub, k: ChannelId)
    requires HubInv(h)
    ensures HubInv(Unsubscribed(h, k))
  {
    if k in h.subscribers {
      var h' := Unsubscribed(h, k);
      assert SubscribersOpen(h') by { WithoutKeepsDistinct(h.subscribers, k); }
      forall x | x in h'.channels
        ensures ChannelInv(h', x)
      {
        assert ChannelInv(h, x);
        CloseKeepsChannel(h.channels[x], h.log, x in h.subscribers);
      }
    }
  }

  lemma CloseKeepsChannel(c: Channel, log: seq<LogEntry>, subscribed: bool)
    requires ChannelOk(c, log, subscribed)
    ensures ChannelOk(c.(closed := true), log, false)
  {
  }

  lemma TakeKeepsChannel(c: Channel, log: seq<LogEntry>, subscribed: bool)
    requires ChannelOk(c, log, subscribed) && c.buffer != []
    ensures ChannelOk(Taken(c), log, subscribed)
  {
    assert forall i :: 0 <= i < |c.buffer| - 1 ==> c.buffer[1..][i] == c.buffer[i + 1];
  }

  lemma ReplaceKeepsHub(h: Hub, k: ChannelId, c: Channel)
    requires HubInv(h) && k in h.channels && c.closed == h.channels[k].closed
    requires ChannelOk(c, h.log, k in h.subscribers)
    ensures HubInv(h.(channels := h.channels[k := c]))
  {
    var h' := h.(channels := h.channels[k := c]);
    forall x | x in h'.channels && x != k
      ensures ChannelInv(h', x)
    {
      assert ChannelInv(h, x);
    }
  }

  lemma ReceiveKeepsHub(h: Hub, k: ChannelId)
    requires HubInv(h)
    ensures HubInv(Received(h, k))
  {
    if k in h.channels && h.channels[k].buffer != [] {
      assert ChannelOk(Taken(h.channels[k]), h.log, k in h.subscribers) by {
        assert ChannelInv(h, k);
        TakeKeepsChannel(h.channels[k], h.log, k in h.subscribers);
      }
      ReplaceKeepsHub(h, k, Taken(h.channels[k]));
    }
  }

  // ----- runs of the hub -----

  datatype Step = Write(entry: LogEntry) | Subscribe(k: ChannelId) | Unsubscribe(k: ChannelId) | Receive(k: ChannelId)

  function Next(h: Hub, step: Step): Hub {
    match step
    case Write(e) => Written(h, e)
    case Subscribe(k) => if k in h.channels then h else Subscribed(h, k)
    case Unsubscribe(k) => Unsubscribed(h, k)
    case Receive(k) => Received(h, k)
  }

  function Exec(h: Hub, steps: seq<Step>): Hub
    decreases |steps|
  {
    if steps == [] then h else Exec(Next(h, steps[0]), steps[1..])
  }

  const NO_LOG := Hub([], [], map[])

  lemma {:induction false} HubInvHoldsFrom(h: Hub, steps: seq<Step>)
    requires HubInv(h)
    ensures HubInv(Exec(h, steps))
    decreases |steps|
  {
    if steps != [] {
      match steps[0] {
        case Write(e) => WriteKeepsHub(h, e);
        case Subscribe(k) => if k !in h.channels { SubscribeKeepsHub(h, k); }
        case Unsubscribe(k) => UnsubscribeKeepsHub(h, k);
        case Receive(k) => ReceiveKeepsHub(h, k);
      }
      HubInvHoldsFrom(Next(h, steps[0]), steps[1..]);
    }
  }

  lemma {:induction false} ExecSnoc(h: Hub, steps: seq<Step>, step: Step)
    ensures Exec(h, steps + [step]) == Next(Exec(h, steps), step)
    decreases |steps|
  {
    if steps == [] {
      assert [step][1..] == [] && steps + [step] == [step];
    } else {
      assert (steps + [step])[1..] == steps[1..] + [step];
      ExecSnoc(Next(h, steps[0]), steps[1..], step);
    }
  }

  // ----- the buffer itself -----

  /** The cell of the i-th oldest of `size` entries, when the next one goes to `head`. */
  function Slot(head: nat, size: nat, capacity: nat, i: nat): nat {
    var x := (if size < capacity then 0 else head) + i;
    if x < capacity then x else x - capacity
  }

  class RingBuffer {
    const capacity: nat
    const entries: array<LogEntry>
    var head: nat
    var size: nat
    var subscribers: seq<ChannelId>
    var channels: map<ChannelId, Channel>
    var nextChannel: ChannelId
    /** History: everything ever written. Its entries are read nowhere, only counted. */
    var log: seq<LogEntry>
    /** History: what was done to the subscriptions. */
    ghost var trace: seq<Step>

    ghost predicate RingOk()
      reads this
    {
      entries.Length == capacity > 0 && head < capacity && size <= capacity && (size < capacity ==> head == size)
    }

    /** The cells hold the last entries of the log. */
    ghost predicate HoldsTail()
      reads this, entries
    {
      && RingOk()
      && size == (if |log| < capacity then |log| else capacity)
      && forall i: nat :: i < size ==> entries[Slot(head, size, capacity, i)] == log[|log| - size + i]
    }

    ghost function View(): Hub
      reads this
    {
      Hub(log, subscribers, channels)
    }

    ghost predicate Valid()
      reads this, entries
    {
      && HoldsTail()
      && View() == Exec(NO_LOG, trace)
      && (forall k :: k in channels ==> k < nextChannel)
    }

    constructor (requested: int)
      ensures Valid() && View() == Hub([], [], map[]) && fresh(entries)
      ensures capacity == if requested <= 0 then 10_000 else requested
    {
      var cells := if requested <= 0 then DEFAULT_CAPACITY else requested;
      capacity := cells;
      entries := new LogEntry[cells](_ => LogEntry(0, "", "", ""));
      head, size, nextChannel := 0, 0, 0;
      subscribers, channels, log, trace := [], map[], [], [];
    }

    method Store(entry: LogEntry)
      requires HoldsTail()
      modifies this`head, this`size, entries
      ensures RingOk() && size == (if |log| + 1 < capacity then |log| + 1 else capacity)
      ensures forall i: nat :: i < size ==> entries[Slot(head, size, capacity, i)] == (log + [entry])[|log| + 1 - size + i]
    {
      WrapsAround(head + 1, capacity);
      entries[head] := entry;
      head := (head + 1) % capacity;
      if size < capacity {
        size := size + 1;
      }
      forall i: nat | i < size
        ensures entries[Slot(head, size, capacity, i)] == (log + [entry])[|log| + 1 - size + i]
      {
        if i == size - 1 {
          assert Slot(head, size, capacity, i) == old(head);
        } else {
          var j := if old(size) < capacity then i else i + 1;
          assert Slot(head, size, capacity, i) == Slot(old(head), old(size), capacity, j) != old(head);
          assert old(entries[Slot(head, size, capacity, j)]) == log[|log| - old(size) + j];
        }
      }
    }

    method Notify(entry: LogEntry)
      requires SubscribersOpen(View())
      modifies this`channels, this`log
      ensures View() == Written(old(View()), entry) && channels.Keys == old(channels.Keys)
    {
      for i := 0 to |subscribers|
        invariant channels.Keys == old(channels).Keys && log == old(log)
        invariant forall k :: k in channels ==>
                    channels[k] == if k in subscribers[..i] then Offer(old(channels)[k], entry, |log|) else old(channels)[k]
      {
        var k := subscribers[i];
        assert k !in subscribers[..i];
        assert !channels[k].closed; // a send on a closed channel would panic
        channels := channels[k := Offer(channels[k], entry, |log|)];
      }
      assert subscribers[..|subscribers|] == subscribers;
      log := log + [entry];
    }

    /** `raw` is the trimmed line and `entry` what was parsed from it; a blank line is not logged. */
    method Write(raw: string, entry: LogEntry)
      requires Valid()
      modifies this, entries
      ensures Valid()
      ensures View() == if raw == "" then old(View()) else Written(old(View()), entry)
    {
      if raw == "" {
        return;
      }
      assert SubscribersOpen(View()) by { HubInvHoldsFrom(NO_LOG, trace); }
      ExecSnoc(NO_LOG, trace, Step.Write(entry));
      trace := trace + [Step.Write(entry)];
      Store(entry);
      Notify(entry);
    }

    method Subscribe() returns (k: ChannelId)
      requires Valid()
      modifies this
      ensures Valid() && k !in old(channels)
      ensures View() == Subscribed(old(View()), k)
    {
      k := nextChannel;
      ExecSnoc(NO_LOG, trace, Step.Subscribe(k));
      trace := trace + [Step.Subscribe(k)];
      channels := channels[k := Channel([], false, 0, |log|, [], [])];
      subscribers := subscribers + [k];
      nextChannel := nextChannel + 1;
    }

    /** Removes the channel and closes it; a second call finds it gone and does nothing. */
    method Unsubscribe(k: ChannelId)
      requires Valid()
      modifies this
      ensures Valid()
      ensures View() == Unsubscribed(old(View()), k)
    {
      assert SubscribersOpen(View()) by { HubInvHoldsFrom(NO_LOG, trace); }
      ExecSnoc(NO_LOG, trace, Step.Unsubscribe(k));
      trace := trace + [Step.Unsubscribe(k)];
      for i := 0 to |subscribers|
        invariant View() == old(View()) && HoldsTail() && nextChannel == old(nextChannel)
        invariant trace == old(trace) + [Step.Unsubscribe(k)]
        invariant k !in subscribers[..i]
      {
        if subscribers[i] == k {
          TakeOut(subscribers, i);
          subscribers := subscribers[..i] + subscribers[i + 1..];
          channels := channels[k := channels[k].(closed := true)];
          assert View() == Unsubscribed(old(View()), k);
          return;
        }
      }
      assert k !in subscribers;
    }

    method Receive(k: ChannelId) returns (entry: LogEntry, ok: bool)
      requires Valid() && k in channels
      modifies this
      ensures Valid()
      ensures ok <==> old(channels)[k].buffer != []
      ensures ok ==> k in channels && old(channels)[k].buffer == [entry] + channels[k].buffer
                     && channels[k].taken == old(channels)[k].taken + 1
      ensures View() == Received(old(View()), k)
    {
      ExecSnoc(NO_LOG, trace, Step.Receive(k));
      trace := trace + [Step.Receive(k)];
      var c := channels[k];
      if c.buffer == [] {
        return LogEntry(0, "", "", ""), false;
      }
      channels := channels[k := Taken(c)];
      return c.buffer[0], true;
    }

    method Snapshot(n: int, minLevel: string, query: string) returns (all: seq<LogEntry>)
      requires HoldsTail()
      ensures all == Tail(ShownOf(Tail(log, capacity), minLevel, query), n)
    {
      if size == 0 {
        return [];
      }
      ghost var stored := Tail(log, capacity);
      assert |stored| == size;
      forall i: nat | i < size
        ensures entries[Slot(head, size, capacity, i)] == stored[i]
      {
        assert stored[i] == log[|log| - size + i];
      }
      all := Scan(stored, minLevel, query);
      if !(n <= 0 || n > |all|) {
        all := all[|all| - n..];
      }
    }

    /** The loop of Snapshot; `stored` is what the cells hold, oldest first. */
    method Scan(ghost stored: seq<LogEntry>, minLevel: string, query: string) returns (all: seq<LogEntry>)
      requires RingOk() && |stored| == size
      requires forall i: nat :: i < size ==> entries[Slot(head, size, capacity, i)] == stored[i]
      ensures all == ShownOf(stored, minLevel, query)
    {
      all := [];
      WrapsAround(head - size + capacity, capacity);
      var start := (head - size + capacity) % capacity;
      for i := 0 to size
        invariant all == ShownOf(stored[..i], minLevel, query)
      {
        WrapsAround(start + i, capacity);
        var idx := (start + i) % capacity;
        assert idx == Slot(head, size, capacity, i);
        FilterNext(stored, i, Showing(minLevel, query));
        var shown := Passes(entries[idx], minLevel, query);
        if shown {
          all := all + [entries[idx]];
        }
      }
      assert stored[..size] == stored;
    }
  }

  lemma WrapsAround(x: nat, capacity: nat)
    requires x < 2 * capacity
    ensures x % capacity == if x < capacity then x else x - capacity
  {
    var q, r := x / capacity, x % capacity;
    assert x == q * capacity + r;
    ProductGrows(2, q, capacity);
    if q == 1 {
      assert x == capacity + r;
    }
  }

  lemma ProductGrows(a: nat, b: nat, c: nat)
    ensures a <= b ==> a * c <= b * c
  {
    if a <= b {
      assert b * c == a * c + (b - a) * c;
    }
  }

  lemma TakeOut(s: seq<ChannelId>, i: nat)
    requires i < |s| && s[i] !in s[..i]
    ensures Without(s, s[i]) == s[..i] + s[i + 1..]
  {
    var front, k, rest := s[..i], s[i], s[i + 1..];
    assert front + [k] + rest == s;
    WithoutAt(front, k, rest);
  }

  lemma {:induction false} WithoutAt(front: seq<ChannelId>, k: ChannelId, rest: seq<ChannelId>)
    requires k !in front
    ensures Without(front + [k] + rest, k) == front + rest
  {
    if front == [] {
      assert ([k] + rest)[1..] == rest && [] + [k] + rest == [k] + rest;
    } else {
      var s := front + [k] + rest;
      assert s[0] == front[0] && s[1..] == front[1..] + [k] + rest;
      WithoutAt(front[1..], k, rest);
    }
  }

  // ----- what every run shows -----

  ghost predicate PicksFrom(c: Channel, log: seq<LogEntry>) {
    c.taken <= |c.picked| && forall i :: 0 <= i < |c.picked| ==> c.since <= c.picked[i] < |log|
  }

  /** What a consumer has taken so far: the entries at the first `taken` picked places. */
  function Consumed(c: Channel, log: seq<LogEntry>): seq<LogEntry>
    requires PicksFrom(c, log)
  {
    seq(c.taken, i requires 0 <= i < c.taken => log[c.picked[i]])
  }

  /** In every run, and for every channel: what was consumed and then what is buffered are entries of the
      log written during the subscription, in the order they were written, none twice; and as long as
      the channel is subscribed, an entry is absent only because it was missed. */
  lemma SubscriberSeesASubsequence(steps: seq<Step>, k: ChannelId)
    ensures var h := Exec(NO_LOG, steps);
            k in h.channels ==>
              var c := h.channels[k];
              && PicksFrom(c, h.log) && Increasing(c.picked)
              && |Consumed(c, h.log) + c.buffer| == |c.picked|
              && (forall i :: 0 <= i < |c.picked| ==> (Consumed(c, h.log) + c.buffer)[i] == h.log[c.picked[i]])
              && (!c.closed ==> forall p: nat :: c.since <= p < |h.log| ==> p in c.picked || p in c.missed)
  {
    HubInvHoldsFrom(NO_LOG, steps);
    var h := Exec(NO_LOG, steps);
    if k in h.channels {
      assert ChannelInv(h, k);
      ConsumedThenBuffered(h.channels[k], h.log);
    }
  }

  lemma ConsumedThenBuffered(c: Channel, log: seq<LogEntry>)
    requires PicksFrom(c, log) && c.taken + |c.buffer| == |c.picked|
    requires forall i :: 0 <= i < |c.buffer| ==> c.buffer[i] == log[c.picked[c.taken + i]]
    ensures |Consumed(c, log) + c.buffer| == |c.picked|
    ensures forall i :: 0 <= i < |c.picked| ==> (Consumed(c, log) + c.buffer)[i] == log[c.picked[i]]
  {
    assert forall i :: c.taken <= i < |c.picked| ==> log[c.picked[i]] == c.buffer[i - c.taken];
  }

  /** An entry is missed only by a subscribed channel with 64 entries waiting. */
  lemma MissedOnlyWhenFull(steps: seq<Step>, step: Step, k: ChannelId)
    ensures var h := Exec(NO_LOG, steps);
            k in h.channels && k in Next(h, step).channels
            && Next(h, step).channels[k].missed != h.channels[k].missed ==>
              step.Write? && k in h.subscribers && |h.channels[k].buffer| == 64
  {
    HubInvHoldsFrom(NO_LOG, steps);
    var h := Exec(NO_LOG, steps);
    if k in h.channels {
      assert ChannelInv(h, k);
    }
  }

  /** Unsubscribing takes out that channel and no other, keeps the others in order, and is idempotent;
      a closed channel is never offered another entry. */
  lemma UnsubscribeTakesOutOne(steps: seq<Step>, k: ChannelId, later: seq<Step>)
    ensures var h, h' := Exec(NO_LOG, steps), Unsubscribed(Exec(NO_LOG, steps), k);
            && (forall x :: x in h'.subscribers <==> x in h.subscribers && x != k)
            && h'.subscribers == Without(h.subscribers, k)
            && Unsubscribed(h', k) == h'
            && (k in h.channels ==> (
                  && k in Exec(h', later).channels
                  && Exec(h', later).channels[k].picked == h'.channels[k].picked
                  && Exec(h', later).channels[k].missed == h'.channels[k].missed))
  {
    HubInvHoldsFrom(NO_LOG, steps);
    var h := Exec(NO_LOG, steps);
    WithoutKeepsDistinct(h.subscribers, k);
    UnsubscribeKeepsHub(h, k);
    if k !in h.subscribers {
      WithoutAbsent(h.subscribers, k);
    }
    if k in h.channels {
      ClosedStaysQuiet(Unsubscribed(h, k), later, k);
    }
  }

  lemma {:induction false} ClosedStaysQuiet(h: Hub, steps: seq<Step>, k: ChannelId)
    requires HubInv(h) && k in h.channels && h.channels[k].closed
    ensures var h' := Exec(h, steps);
            k in h'.channels && h'.channels[k].picked == h.channels[k].picked && h'.channels[k].missed == h.channels[k].missed
    decreases |steps|
  {
    if steps != [] {
      HubInvHoldsFrom(h, [steps[0]]);
      assert Exec(h, [steps[0]]) == Exec(Next(h, steps[0]), []);
      ClosedStaysQuiet(Next(h, steps[0]), steps[1..], k);
    }
  }

  // ----- follow mode -----

  /** The event loop of a following client, over the entries it receives. */
  method Follow(received: seq<LogEntry>, level: string, query: string) returns (sent: seq<LogEntry>)
    ensures sent == ShownOf(received, level, query)
  {
    sent := [];
    for i := 0 to |received|
      invariant sent == ShownOf(received[..i], level, query)
    {
      FilterNext(received, i, Showing(level, query));
      var shown := Passes(received[i], level, query);
      if shown {
        sent := sent + [received[i]];
      }
    }
    assert received[..|received|] == received;
  }

  /** Increasing places that cover a range are the range. */
  lemma {:induction false} PickedAt(picked: seq<nat>, since: nat, end: nat, i: nat)
    requires Increasing(picked) && i < |picked|
    requires forall p: nat :: since <= p < end <==> p in picked
    ensures picked[i] == since + i
    decreases i
  {
    forall k: nat | k < i
      ensures picked[k] == since + k
    {
      PickedAt(picked, since, end, k);
    }
    assert picked[i] in picked;
    assert i > 0 ==> picked[i - 1] < picked[i];
    assert since + i in picked;
  }

  lemma PickedAll(picked: seq<nat>, since: nat, end: nat)
    requires Increasing(picked) && since <= end
    requires forall p: nat :: since <= p < end <==> p in picked
    ensures |picked| == end - since && forall i :: 0 <= i < |picked| ==> picked[i] == since + i
  {
    forall i: nat | i < |picked|
      ensures picked[i] == since + i && since + i < end
    {
      PickedAt(picked, since, end, i);
      assert picked[i] in picked;
    }
    assert since + |picked| !in picked;
    assert |picked| > 0 ==> picked[|picked| - 1] < end;
  }

  /** A client that never overflows its channel is shown exactly the filter of the new entries. */
  lemma FollowerSeesEverything(steps: seq<Step>, k: ChannelId, level: string, query: string)
    ensures var h := Exec(NO_LOG, steps);
            k in h.channels && !h.channels[k].closed && h.channels[k].missed == [] ==>
              var c := h.channels[k];
              && c.since + c.taken <= |h.log|
              && PicksFrom(c, h.log)
              && ShownOf(Consumed(c, h.log), level, query) == ShownOf(h.log[c.since..c.since + c.taken], level, query)
              && c.buffer == h.log[c.since + c.taken..]
  {
    HubInvHoldsFrom(NO_LOG, steps);
    var h := Exec(NO_LOG, steps);
    if k in h.channels && !h.channels[k].closed && h.channels[k].missed == [] {
      var c := h.channels[k];
      assert ChannelInv(h, k);
      NothingMissed(c, h.log);
      assert Consumed(c, h.log) == h.log[c.since..c.since + c.taken];
    }
  }

  lemma NothingMissed(c: Channel, log: seq<LogEntry>)
    requires PicksFrom(c, log) && Increasing(c.picked) && c.since <= |log| && c.taken + |c.buffer| == |c.picked|
    requires forall p: nat :: c.since <= p < |log| ==> p in c.picked
    requires forall i :: 0 <= i < |c.buffer| ==> c.buffer[i] == log[c.picked[c.taken + i]]
    ensures c.since + c.taken <= |log|
    ensures Consumed(c, log) == log[c.since..c.since + c.taken]
    ensures c.buffer == log[c.since + c.taken..]
  {
    PickedAll(c.picked, c.since, |log|);
  }
}
